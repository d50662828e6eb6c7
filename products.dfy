/** Products as the catalog API returns them and as the edit form hands them back. */
module Products {
  import opened Wrappers
  import opened PriceLists

  /**
   * The `proprietary_fields` component. Text attributes the API leaves null are taken
   * as "" (the forms read them through `|| ""`); `priceList` is None when the API omits it.
   */
  datatype ProprietaryFields = ProprietaryFields(
    usage: string,
    ingredients: string,
    dosage: string,
    priceList: Option<seq<PriceRow>>)

  /** The `classical_fields` component. */
  datatype ClassicalFields = ClassicalFields(
    subCategory: string,
    usage: string,
    ingredients: string,
    dosageAnupan: string,
    reference: string,
    priceList: Option<seq<PriceRow>>)

  /** A product; a component that is None is absent from the record. */
  datatype Product = Product(
    id: int,
    documentId: string,
    name: string,
    category: string,
    description: string,
    proprietary: Option<ProprietaryFields>,
    classical: Option<ClassicalFields>)

  const ProprietaryCategory: string := "proprietary"
  const ClassicalCategory: string := "classical"

  /** Which of a form's two price lists a handler acts on (`type` in the source). */
  datatype ListKind = ProprietaryList | ClassicalList
}
