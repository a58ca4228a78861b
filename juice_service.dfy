/**
  The stock service: a table of juices keyed by id, with name uniqueness on
  create, an existence check before delete and increment, and the bounded,
  all-or-nothing stock increment.
*/
module Service {
  import opened Wrappers
  import opened JavaInt
  import opened JuiceTypes
  import opened JuiceDto
  import opened JuiceEntity
  import opened JuiceErrors
  import opened JuiceStore

  class JuiceService {
    /** The repository's table: every persisted juice under its id. */
    var juices: Table
    /** The id the storage assigns to the next new record. */
    var nextId: int

    ghost predicate Valid()
      reads this
    {
      StoreInvariant(juices, nextId)
    }

    constructor ()
      ensures Valid() && juices == map[]
    {
      juices := map[];
      nextId := 1;
    }

    /**
      Refuses a name already present; otherwise saves a copy of `dto` under
      a fresh id and returns it as stored.
    */
    method CreateJuice(dto: JuiceDTO) returns (r: Result<JuiceDTO>)
      requires Valid() && ValidJuice(dto)
      modifies this
      ensures Valid()
      ensures NameTaken(old(juices), dto.name.value) ==>
        r == Err(AlreadyRegistered(dto.name.value)) && juices == old(juices) && nextId == old(nextId)
      ensures !NameTaken(old(juices), dto.name.value) ==>
        && old(nextId) !in old(juices)
        && juices == old(juices)[old(nextId) := ToModel(dto, old(nextId))]
        && r == Ok(dto.(id := Some(old(nextId))))
        && nextId == old(nextId) + 1
      ensures r.Ok? ==> FindByName(juices, dto.name.value) == r
    {
      var name := dto.name.value;
      var registered := CheckNotRegistered(juices, name);
      if registered.Err? {
        r := Err(registered.failure);
        return;
      }
      var juice := ToModel(dto, nextId);
      InsertKeepsInvariant(juices, nextId, juice);
      DtoRoundTrip(dto, nextId);
      juices := juices[nextId := juice];
      nextId := nextId + 1;
      r := Ok(ToDTO(juice));
    }

    /** Removes the record stored under `id`, or fails with IdNotFound(id) and changes nothing. */
    method DeleteById(id: int) returns (r: Result<()>)
      requires Valid()
      modifies this
      ensures Valid() && nextId == old(nextId)
      ensures id !in old(juices) ==> r == Err(IdNotFound(id)) && juices == old(juices)
      ensures id in old(juices) ==> r == Ok(()) && juices == old(juices) - {id}
      ensures id in old(juices) ==>
        FindByName(juices, old(juices)[id].name) == Err(NameNotFound(old(juices)[id].name))
    {
      var found := FindById(juices, id);
      if found.Err? {
        r := Err(found.failure);
        return;
      }
      RemoveKeepsInvariant(juices, nextId, id);
      juices := juices - {id};
      r := Ok(());
    }

    /**
      Adds `amount` to the stock of the record under `id` when the Java `int`
      sum stays within its max; otherwise fails and changes nothing.
    */
    method Increment(id: int, amount: Int32) returns (r: Result<JuiceDTO>)
      requires Valid()
      modifies this
      ensures Valid() && nextId == old(nextId)
      ensures id !in old(juices) ==> r == Err(IdNotFound(id)) && juices == old(juices)
      ensures id in old(juices) && StockAfterIncrement(old(juices)[id], amount).None? ==>
        r == Err(StockExceeded(id, amount)) && juices == old(juices)
      ensures id in old(juices) && StockAfterIncrement(old(juices)[id], amount).Some? ==>
        var updated := StockAfterIncrement(old(juices)[id], amount).value;
        r == Ok(ToDTO(updated)) && juices == old(juices)[id := updated]
    {
      var found := FindById(juices, id);
      if found.Err? {
        r := Err(found.failure);
        return;
      }
      var juice := found.value;
      var quantityAfterIncrement := AddInt32(amount, juice.quantity);
      if quantityAfterIncrement <= juice.max {
        juice := juice.(quantity := AddInt32(juice.quantity, amount));
        UpdateKeepsInvariant(juices, nextId, juice);
        juices := juices[id := juice];
        r := Ok(ToDTO(juice));
        return;
      }
      r := Err(StockExceeded(id, amount));
    }
  }

  /**
    A client that steps through create, a refused duplicate, an accepted and
    a refused increment, then delete, using the service's contracts only.
  */
  method AppleJuiceScenario()
  {
    var service := new JuiceService();
    assert ListAll(service.juices) == [];
    var apple := JuiceDTO(None, Some("Apple juice"), Some("Natural"), Some(50), Some(10), Some(Apple));

    var created := service.CreateJuice(apple);
    assert created.Ok?;
    var id := created.value.id.value;
    assert |ListAll(service.juices)| == 1;

    var duplicate := service.CreateJuice(apple);
    assert duplicate == Err(AlreadyRegistered("Apple juice"));

    var raised := service.Increment(id, 10);
    assert raised.Ok? && raised.value.quantity == Some(20);

    var exceeded := service.Increment(id, 45);
    assert exceeded == Err(StockExceeded(id, 45));
    assert service.juices[id].quantity == 20;

    var deleted := service.DeleteById(id);
    assert deleted == Ok(());
    assert FindByName(service.juices, "Apple juice") == Err(NameNotFound("Apple juice"));

    var missing := service.Increment(id, 10);
    assert missing == Err(IdNotFound(id));
  }
}
