/** The edit-product dialog: its state, its price-list handlers and the product it submits. */
module EditProduct {
  import opened Wrappers
  import opened PriceLists
  import opened Products

  /**
   * The text fields of the proprietary component, or "" when the product has none
   * (`product.proprietary_fields?.usage || ""` and its siblings).
   */
  function ProprietaryOrBlank(p: Product): (r: ProprietaryFields)
    ensures p.proprietary.Some? ==>
      r.usage == p.proprietary.value.usage && r.ingredients == p.proprietary.value.ingredients
      && r.dosage == p.proprietary.value.dosage && r.priceList == p.proprietary.value.priceList
    ensures p.proprietary.None? ==> r.priceList.None?
    ensures p.proprietary.None? ==> r.usage == "" && r.ingredients == "" && r.dosage == ""
  {
    p.proprietary.GetOr(ProprietaryFields("", "", "", None))
  }

  function ClassicalOrBlank(p: Product): (r: ClassicalFields)
    ensures p.classical.Some? ==> r == p.classical.value
    ensures p.classical.None? ==>
      r.subCategory == "" && r.usage == "" && r.ingredients == ""
      && r.dosageAnupan == "" && r.reference == "" && r.priceList.None?
  {
    p.classical.GetOr(ClassicalFields("", "", "", "", "", None))
  }

  class EditProductForm {
    const id: int
    const documentId: string
    var category: string
    var name: string
    var description: string
    var proUsage: string
    var proIngredients: string
    var proDosage: string
    var proPrices: seq<PriceRow>
    var subCategory: string
    var classUsage: string
    var classIngredients: string
    var dosageAnupan: string
    var reference: string
    var classPrices: seq<PriceRow>

    /** Neither price list is ever empty. */
    ghost predicate Valid()
      reads this
    {
      |proPrices| >= 1 && |classPrices| >= 1
    }

    /** The initial state, taken from the product being edited. */
    constructor (product: Product)
      ensures Valid()
      ensures id == product.id && documentId == product.documentId
      ensures name == product.name && category == product.category && description == product.description
      ensures proUsage == ProprietaryOrBlank(product).usage
      ensures proIngredients == ProprietaryOrBlank(product).ingredients
      ensures proDosage == ProprietaryOrBlank(product).dosage
      ensures proPrices == InitialRows(ProprietaryOrBlank(product).priceList)
      ensures subCategory == ClassicalOrBlank(product).subCategory
      ensures classUsage == ClassicalOrBlank(product).usage
      ensures classIngredients == ClassicalOrBlank(product).ingredients
      ensures dosageAnupan == ClassicalOrBlank(product).dosageAnupan
      ensures reference == ClassicalOrBlank(product).reference
      ensures classPrices == InitialRows(ClassicalOrBlank(product).priceList)
    {
      id := product.id;
      documentId := product.documentId;
      category := product.category;
      name := product.name;
      description := product.description;
      var pro := ProprietaryOrBlank(product);
      proUsage := pro.usage;
      proIngredients := pro.ingredients;
      proDosage := pro.dosage;
      proPrices := InitialRows(pro.priceList);
      var cls := ClassicalOrBlank(product);
      subCategory := cls.subCategory;
      classUsage := cls.usage;
      classIngredients := cls.ingredients;
      dosageAnupan := cls.dosageAnupan;
      reference := cls.reference;
      classPrices := InitialRows(cls.priceList);
    }

    /** `handlePriceChange`: one field of one row of the chosen list; the other list is untouched. */
    method HandlePriceChange(i: int, f: PriceField, v: string, kind: ListKind)
      requires Valid()
      modifies this`proPrices, this`classPrices
      ensures Valid()
      ensures kind == ProprietaryList ==>
        proPrices == SetField(old(proPrices), i, f, v) && classPrices == old(classPrices)
      ensures kind == ClassicalList ==>
        classPrices == SetField(old(classPrices), i, f, v) && proPrices == old(proPrices)
    {
      if kind == ProprietaryList {
        proPrices := SetField(proPrices, i, f, v);
      } else {
        classPrices := SetField(classPrices, i, f, v);
      }
    }

    /** `addPriceRow`: one empty row at the end of the chosen list. */
    method AddPriceRow(kind: ListKind)
      requires Valid()
      modifies this`proPrices, this`classPrices
      ensures Valid()
      ensures kind == ProprietaryList ==>
        proPrices == AppendEmpty(old(proPrices)) && classPrices == old(classPrices)
      ensures kind == ClassicalList ==>
        classPrices == AppendEmpty(old(classPrices)) && proPrices == old(proPrices)
    {
      if kind == ProprietaryList {
        proPrices := AppendEmpty(proPrices);
      } else {
        classPrices := AppendEmpty(classPrices);
      }
    }

    /** `removePriceRow`: drops a row of the chosen list unless it is the last one. */
    method RemovePriceRow(i: int, kind: ListKind)
      requires Valid()
      modifies this`proPrices, this`classPrices
      ensures Valid()
      ensures kind == ProprietaryList ==>
        proPrices == RemoveRow(old(proPrices), i) && classPrices == old(classPrices)
      ensures kind == ClassicalList ==>
        classPrices == RemoveRow(old(classPrices), i) && proPrices == old(proPrices)
    {
      if kind == ProprietaryList {
        proPrices := RemoveRow(proPrices, i);
      } else {
        classPrices := RemoveRow(classPrices, i);
      }
    }

    /**
     * The product `handleSubmit` passes to `onUpdate`: the original ids, the text fields, and
     * only the component that matches the category, with its all-empty rows dropped.
     */
    function Submission(): (p: Product)
      reads this
      ensures p.id == id && p.documentId == documentId
      ensures p.name == name && p.category == category && p.description == description
      ensures p.proprietary.Some? <==> category == ProprietaryCategory
      ensures p.classical.Some? <==> category == ClassicalCategory
      ensures p.proprietary.Some? ==>
        p.proprietary.value.priceList == Some(FilledRows(proPrices))
        && p.proprietary.value.usage == proUsage && p.proprietary.value.ingredients == proIngredients
        && p.proprietary.value.dosage == proDosage
      ensures p.classical.Some? ==>
        p.classical.value.priceList == Some(FilledRows(classPrices))
        && p.classical.value.subCategory == subCategory && p.classical.value.usage == classUsage
        && p.classical.value.ingredients == classIngredients
        && p.classical.value.dosageAnupan == dosageAnupan && p.classical.value.reference == reference
    {
      Product(id, documentId, name, category, description,
        if category == ProprietaryCategory then
          Some(ProprietaryFields(proUsage, proIngredients, proDosage, Some(FilledRows(proPrices))))
        else None,
        if category == ClassicalCategory then
          Some(ClassicalFields(subCategory, classUsage, classIngredients, dosageAnupan, reference,
            Some(FilledRows(classPrices))))
        else None)
    }
  }
}
