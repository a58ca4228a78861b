/** The stored juice record and the field-for-field mapper between it and the transfer record. */
module JuiceEntity {
  import opened Wrappers
  import opened JavaInt
  import opened JuiceTypes
  import opened JuiceDto

  /** A persisted juice: the same six fields as the transfer record, none of them null. */
  datatype Juice = Juice(
    id: int,
    name: string,
    brand: string,
    max: Int32,
    quantity: Int32,
    juiceType: JuiceType)

  /** The record the store saves for `d` under the id `id` it assigns. */
  function ToModel(d: JuiceDTO, id: int): (j: Juice)
    requires Complete(d)
    ensures j.id == id
    ensures Some(j.name) == d.name && Some(j.brand) == d.brand && Some(j.juiceType) == d.juiceType
    ensures Some(j.max) == d.max && Some(j.quantity) == d.quantity
  {
    Juice(id, d.name.value, d.brand.value, d.max.value, d.quantity.value, d.juiceType.value)
  }

  /** The transfer record that shows a stored juice. */
  function ToDTO(j: Juice): (d: JuiceDTO)
    ensures Complete(d) && d.id == Some(j.id)
    ensures d.name == Some(j.name) && d.brand == Some(j.brand) && d.juiceType == Some(j.juiceType)
    ensures d.max == Some(j.max) && d.quantity == Some(j.quantity)
  {
    JuiceDTO(Some(j.id), Some(j.name), Some(j.brand), Some(j.max), Some(j.quantity), Some(j.juiceType))
  }

  /** Showing a stored juice and mapping it back loses nothing. */
  lemma ModelRoundTrip(j: Juice)
    ensures ToModel(ToDTO(j), j.id) == j
  {
  }

  /** Saving a complete record and showing it gives the input with the assigned id. */
  lemma DtoRoundTrip(d: JuiceDTO, id: int)
    requires Complete(d)
    ensures ToDTO(ToModel(d, id)) == d.(id := Some(id))
  {
  }
}
