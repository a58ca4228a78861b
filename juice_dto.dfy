/**
  The juice transfer record and the field constraints it is validated
  against before the service sees it.
*/
module JuiceDto {
  import opened Wrappers
  import opened JavaInt
  import opened JuiceTypes

  /** Every field is a nullable Java reference, hence an `Option`. */
  datatype JuiceDTO = JuiceDTO(
    id: Option<int>,
    name: Option<string>,
    brand: Option<string>,
    max: Option<Int32>,
    quantity: Option<Int32>,
    juiceType: Option<JuiceType>)

  /**
    The length of `s` as a Java `String` measures it: in UTF-16 code units,
    one for a character below U+10000 and two (a surrogate pair) above.
  */
  function Utf16Length(s: string): (n: nat)
    ensures |s| <= n <= 2 * |s|
    ensures (forall i :: 0 <= i < |s| ==> s[i] as int < 0x1_0000) ==> n == |s|
    ensures (forall i :: 0 <= i < |s| ==> s[i] as int >= 0x1_0000) ==> n == 2 * |s|
  {
    if s == [] then 0
    else (if s[0] as int < 0x1_0000 then 1 else 2) + Utf16Length(s[1..])
  }

  /** `@NotNull @Size(min = 1, max = 200)` on a string field, measured as Java measures it. */
  predicate SizeOk(s: Option<string>)
  {
    s.Some? && 1 <= Utf16Length(s.value) <= 200
  }

  /** `@NotNull @Max(bound)` on an integer field: no lower bound. */
  predicate AtMost(x: Option<Int32>, bound: int)
  {
    x.Some? && x.value <= bound
  }

  /** The fields a stored juice cannot do without (the `@NotNull` part). */
  predicate Complete(d: JuiceDTO)
  {
    d.name.Some? && d.brand.Some? && d.max.Some? && d.quantity.Some? && d.juiceType.Some?
  }

  /** All declared constraints hold; `id` carries none. */
  function ValidJuice(d: JuiceDTO): (b: bool)
    ensures b ==> Complete(d)
    ensures b ==> d.max.value <= 500 && d.quantity.value <= 100
    ensures b ==> 1 <= Utf16Length(d.name.value) <= 200 && 1 <= Utf16Length(d.brand.value) <= 200
    ensures b ==> 1 <= |d.name.value| <= 200 && 1 <= |d.brand.value| <= 200
  {
    && SizeOk(d.name)
    && SizeOk(d.brand)
    && AtMost(d.max, 500)
    && AtMost(d.quantity, 100)
    && d.juiceType.Some?
  }

  /** Validity does not depend on the id, present or not. */
  lemma IdUnconstrained(d: JuiceDTO, id: Option<int>)
    ensures ValidJuice(d.(id := id)) == ValidJuice(d)
  {
  }

  /** Lowering `max` or `quantity`, to any Java int, never makes a valid record invalid. */
  lemma NoLowerBound(d: JuiceDTO, max: Int32, quantity: Int32)
    requires ValidJuice(d)
    requires max <= d.max.value && quantity <= d.quantity.value
    ensures ValidJuice(d.(max := Some(max), quantity := Some(quantity)))
  {
  }

  /** The upper bounds are inclusive: 500 and 100 pass, one more fails. */
  lemma UpperBoundsInclusive(d: JuiceDTO)
    requires ValidJuice(d)
    ensures ValidJuice(d.(max := Some(500), quantity := Some(100)))
    ensures !ValidJuice(d.(max := Some(501)))
    ensures !ValidJuice(d.(quantity := Some(101)))
  {
  }

  /** A name longer than 200 characters, or an empty one, is refused. */
  lemma NameLengthChecked(d: JuiceDTO, name: string)
    requires |name| == 0 || |name| > 200
    ensures !ValidJuice(d.(name := Some(name)))
  {
  }

  /**
    Characters above U+10000 count twice: 101 of them make 202 code units,
    so such a name is refused although it has only 101 characters.
  */
  lemma SupplementaryCharactersCountTwice(d: JuiceDTO, name: string)
    requires |name| == 101
    requires forall i :: 0 <= i < |name| ==> name[i] as int >= 0x1_0000
    ensures Utf16Length(name) == 202
    ensures !ValidJuice(d.(name := Some(name)))
  {
  }

  /** The test builder's record is valid, and with its brand nulled it is refused. */
  lemma BuilderRecord()
    ensures ValidJuice(JuiceDTO(Some(1), Some("Apple juice"), Some("Natural"), Some(50), Some(10), Some(Apple)))
    ensures !ValidJuice(JuiceDTO(Some(1), Some("Apple juice"), None, Some(50), Some(10), Some(Apple)))
  {
  }

  /** Nothing ties `quantity` to `max`, nor keeps either non-negative. */
  lemma QuantityNotTiedToMax()
    ensures ValidJuice(JuiceDTO(None, Some("Apple juice"), Some("Natural"), Some(50), Some(100), Some(Apple)))
    ensures ValidJuice(JuiceDTO(None, Some("Apple juice"), Some("Natural"), Some(-5), Some(-10), Some(Apple)))
  {
  }
}
