/** The closed set of juice kinds, each with its display label. */
module JuiceTypes {
  import opened Wrappers

  datatype JuiceType = Apple | Cranberry | Orange | Grapefruit | AcaiBerry | Limonade

  /**
    The label each constant carries; the grapefruit label keeps its original
    spelling. A label is never a constant's name, so it does not read back
    as a type.
  */
  function Description(t: JuiceType): (r: string)
    ensures |r| > 0
    ensures ValueOf(r) == None
  {
    match t
    case Apple => "Apple"
    case Cranberry => "Cranberry"
    case Orange => "Orange"
    case Grapefruit => "Graprefruit"
    case AcaiBerry => "Acai Berry"
    case Limonade => "Limonade"
  }

  /** The constant's declared name, the form in which it is stored and serialised. */
  function Name(t: JuiceType): (r: string)
    ensures |r| > 0
    ensures forall i :: 0 <= i < |r| ==> 'A' <= r[i] <= 'Z' || r[i] == '_'
  {
    match t
    case Apple => "APPLE"
    case Cranberry => "CRANBERRY"
    case Orange => "ORANGE"
    case Grapefruit => "GRAPEFRUIT"
    case AcaiBerry => "ACAI_BERRY"
    case Limonade => "LIMONADE"
  }

  /** Reads a constant back from its name; any other string names no constant. */
  function ValueOf(s: string): (r: Option<JuiceType>)
    ensures r.Some? ==> Name(r.value) == s
    ensures forall t :: Name(t) == s ==> r == Some(t)
  {
    if s == "APPLE" then Some(Apple)
    else if s == "CRANBERRY" then Some(Cranberry)
    else if s == "ORANGE" then Some(Orange)
    else if s == "GRAPEFRUIT" then Some(Grapefruit)
    else if s == "ACAI_BERRY" then Some(AcaiBerry)
    else if s == "LIMONADE" then Some(Limonade)
    else None
  }

  /** Storing a constant by name and reading it back gives the same constant. */
  lemma NameRoundTrip(t: JuiceType)
    ensures ValueOf(Name(t)) == Some(t)
  {
  }

  /** No two constants share a label. */
  lemma DescriptionsDistinct(t: JuiceType, u: JuiceType)
    ensures Description(t) == Description(u) ==> t == u
  {
  }
}
