/**
  The juice table as an abstract map from id to record, with the reads the
  service makes on it and the stock rule it applies.
*/
module JuiceStore {
  import opened Wrappers
  import opened JavaInt
  import opened JuiceDto
  import opened JuiceEntity
  import opened JuiceErrors
  import opened Ids

  type Table = map<int, Juice>

  /** No two stored juices share a name. */
  ghost predicate NamesUnique(m: Table)
  {
    forall a, b :: a in m && b in m && m[a].name == m[b].name ==> a == b
  }

  /**
    The table's shape: every record sits under its own id, every id was
    handed out before `nextId`, and names are unique.
  */
  ghost predicate StoreInvariant(m: Table, nextId: int)
  {
    && (forall id :: id in m ==> m[id].id == id && id < nextId)
    && NamesUnique(m)
  }

  /** Some stored juice has exactly this name. */
  predicate NameTaken(m: Table, name: string)
  {
    exists id | id in m :: m[id].name == name
  }

  /** The record stored under `name`, or NameNotFound(name). */
  function FindByName(m: Table, name: string): (r: Result<JuiceDTO>)
    requires NamesUnique(m)
    ensures r.Ok? <==> NameTaken(m, name)
    ensures r.Err? ==> r.failure == NameNotFound(name)
    ensures forall id :: id in m && m[id].name == name ==> r == Ok(ToDTO(m[id]))
  {
    if NameTaken(m, name) then
      var id :| id in m && m[id].name == name;
      Ok(ToDTO(m[id]))
    else
      Err(NameNotFound(name))
  }

  /** The existence check before delete and increment. */
  function FindById(m: Table, id: int): (r: Result<Juice>)
    ensures r.Ok? <==> id in m
    ensures r.Ok? ==> r.value == m[id]
    ensures r.Err? ==> r.failure == IdNotFound(id)
  {
    if id in m then Ok(m[id]) else Err(IdNotFound(id))
  }

  /** The uniqueness check before create, made through the lookup by name. */
  function CheckNotRegistered(m: Table, name: string): (r: Result<()>)
    requires NamesUnique(m)
    ensures r.Err? <==> exists id :: id in m && m[id].name == name
    ensures r.Err? ==> r.failure == AlreadyRegistered(name)
  {
    match FindByName(m, name)
    case Ok(_) => Err(AlreadyRegistered(name))
    case Err(_) => Ok(())
  }

  /**
    Every stored record, once each, in some order (here ascending id);
    empty, not a failure, for an empty table.
  */
  function ListAll(m: Table): (r: seq<JuiceDTO>)
    ensures |r| == |m|
    ensures forall id :: id in m ==> ToDTO(m[id]) in r
    ensures forall i :: 0 <= i < |r| ==> exists id :: id in m && r[i] == ToDTO(m[id])
    decreases |m|
  {
    if |m| == 0 then []
    else
      var id := LeastId(m.Keys);
      var rest := m - {id};
      assert rest.Keys == m.Keys - {id};
      var r := [ToDTO(m[id])] + ListAll(rest);
      ListAllStep(m, id, rest, ListAll(rest), r);
      r
  }

  /** The step of ListAll: one record in front of the listing of the others. */
  lemma ListAllStep(m: Table, id: int, rest: Table, tail: seq<JuiceDTO>, r: seq<JuiceDTO>)
    requires id in m && rest == m - {id} && r == [ToDTO(m[id])] + tail
    requires forall k :: k in rest ==> ToDTO(rest[k]) in tail
    requires forall i :: 0 <= i < |tail| ==> exists k :: k in rest && tail[i] == ToDTO(rest[k])
    ensures forall k :: k in m ==> ToDTO(m[k]) in r
    ensures forall i :: 0 <= i < |r| ==> exists k :: k in m && r[i] == ToDTO(m[k])
  {
    forall k | k in m
      ensures ToDTO(m[k]) in r
    {
      if k != id {
        assert k in rest;
      }
    }
    forall i | 0 <= i < |r|
      ensures exists k :: k in m && r[i] == ToDTO(m[k])
    {
      if i > 0 {
        assert r[i] == tail[i - 1];
        var k :| k in rest && tail[i - 1] == ToDTO(rest[k]);
        assert m[k] == rest[k];
      } else {
        assert r[i] == ToDTO(m[id]);
      }
    }
  }

  /**
    The bounded increment as written: the sum is Java `int` arithmetic, the
    check and the write use that same sum, and a refused increment is `None`.
  */
  function StockAfterIncrement(j: Juice, amount: Int32): (r: Option<Juice>)
    ensures r.Some? ==> r.value == j.(quantity := r.value.quantity) && r.value.quantity <= j.max
    ensures MinInt32 <= j.quantity + amount <= MaxInt32 ==>
      && (r.Some? <==> j.quantity + amount <= j.max)
      && (r.Some? ==> r.value.quantity == j.quantity + amount)
  {
    var quantityAfterIncrement := AddInt32(amount, j.quantity);
    if quantityAfterIncrement <= j.max then
      Some(j.(quantity := AddInt32(j.quantity, amount)))
    else
      None
  }

  /** With 10 in stock and a max of 50: adding 10 gives 20; adding 45 or 80 is refused. */
  lemma IncrementExamples(j: Juice)
    requires j.quantity == 10 && j.max == 50
    ensures StockAfterIncrement(j, 10) == Some(j.(quantity := 20))
    ensures StockAfterIncrement(j, 45).None? && StockAfterIncrement(j, 80).None?
  {
  }

  /** A negative amount is not refused: it lowers the stock. */
  lemma NegativeAmountAccepted(j: Juice, amount: Int32)
    requires amount < 0 && j.quantity <= j.max
    requires MinInt32 <= j.quantity + amount
    ensures StockAfterIncrement(j, amount) == Some(j.(quantity := j.quantity + amount))
  {
  }

  /**
    The sum can overflow: adding the largest int to a stock of 10 (max 50)
    wraps below the max, so the increment is accepted and stores a
    negative quantity.
  */
  lemma OverflowingIncrementAccepted(j: Juice)
    requires j.quantity == 10 && j.max == 50
    ensures StockAfterIncrement(j, MaxInt32) == Some(j.(quantity := -2147483639))
  {
  }

  /** The quantity bound of 100 holds for input only: an increment may pass it. */
  lemma IncrementMayPassInputBound(j: Juice)
    requires j.quantity == 100 && j.max == 500
    ensures StockAfterIncrement(j, 50) == Some(j.(quantity := 150))
  {
  }

  /** Saving a new record with a fresh name and the next id keeps the invariant and makes it findable. */
  lemma InsertKeepsInvariant(m: Table, nextId: int, j: Juice)
    requires StoreInvariant(m, nextId)
    requires j.id == nextId && !NameTaken(m, j.name)
    ensures nextId !in m
    ensures StoreInvariant(m[nextId := j], nextId + 1)
    ensures FindByName(m[nextId := j], j.name) == Ok(ToDTO(j))
  {
    var m' := m[nextId := j];
    forall a, b | a in m' && b in m' && m'[a].name == m'[b].name
      ensures a == b
    {
      if a != nextId && b != nextId {
        assert m[a].name == m[b].name;
      } else if a != b {
        assert false;
      }
    }
    assert m'[nextId].name == j.name;
  }

  /** Replacing a record by one with the same id and name keeps the invariant. */
  lemma UpdateKeepsInvariant(m: Table, nextId: int, j: Juice)
    requires StoreInvariant(m, nextId)
    requires j.id in m && m[j.id].name == j.name
    ensures StoreInvariant(m[j.id := j], nextId)
  {
  }

  /** Removing a record keeps the invariant, and its name is no longer found. */
  lemma RemoveKeepsInvariant(m: Table, nextId: int, id: int)
    requires StoreInvariant(m, nextId)
    requires id in m
    ensures StoreInvariant(m - {id}, nextId)
    ensures FindByName(m - {id}, m[id].name) == Err(NameNotFound(m[id].name))
  {
  }
}
