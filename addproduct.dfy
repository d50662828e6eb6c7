/** The add-product dialog: its state, its price-list handlers, its reset and its submit. */
module AddProduct {
  import opened Wrappers
  import opened PriceLists
  import opened Products

  /** A file chosen in one of the dialog's two file inputs. */
  datatype FileRef = FileRef(name: string)

  /** The `data` object posted to create a product; it carries no id. */
  datatype NewProduct = NewProduct(
    name: string,
    category: string,
    description: string,
    proprietary: Option<ProprietaryFields>,
    classical: Option<ClassicalFields>)

  /** How the POST ended: a 2xx response, another response, or a thrown error. */
  datatype PostOutcome = Created | Refused | Unreachable

  const AddedNotice: string := "Product added successfully!"
  const RefusedNotice: string := "Error adding product."
  const ServerErrorNotice: string := "Server error."

  class AddProductForm {
    var category: string
    var name: string
    var description: string
    var thumbnail: Option<FileRef>
    var image: Option<FileRef>
    var proUsage: string
    var proIngredients: string
    var proDosage: string
    var proPrices: seq<PriceRow>
    var subCategory: string
    var classUsage: string
    var classIngredients: string
    var dosageAnupan: string
    var reference: string
    var classPrices: seq<PriceRow>

    /** Neither price list is ever empty. */
    ghost predicate Valid()
      reads this
    {
      |proPrices| >= 1 && |classPrices| >= 1
    }

    /** Every text field and the category blank, no file chosen, each list one empty row. */
    predicate Pristine()
      reads this
    {
      category == "" && name == "" && description == ""
      && thumbnail.None? && image.None?
      && proUsage == "" && proIngredients == "" && proDosage == "" && proPrices == [EmptyRow]
      && subCategory == "" && classUsage == "" && classIngredients == ""
      && dosageAnupan == "" && reference == "" && classPrices == [EmptyRow]
    }

    /** The dialog opens pristine. */
    constructor ()
      ensures Pristine() && Valid()
    {
      category := "";
      name := "";
      description := "";
      thumbnail := None;
      image := None;
      proUsage := "";
      proIngredients := "";
      proDosage := "";
      proPrices := [EmptyRow];
      subCategory := "";
      classUsage := "";
      classIngredients := "";
      dosageAnupan := "";
      reference := "";
      classPrices := [EmptyRow];
    }

    /** `handlePriceChange`: one field of one row of the chosen list; the other list is untouched. */
    method HandlePriceChange(i: int, f: PriceField, v: string, kind: ListKind)
      requires Valid()
      modifies this`proPrices, this`classPrices
      ensures Valid()
      ensures kind == ProprietaryList ==>
        proPrices == SetField(old(proPrices), i, f, v) && classPrices == old(classPrices)
      ensures kind == ClassicalList ==>
        classPrices == SetField(old(classPrices), i, f, v) && proPrices == old(proPrices)
    {
      if kind == ProprietaryList {
        proPrices := SetField(proPrices, i, f, v);
      } else {
        classPrices := SetField(classPrices, i, f, v);
      }
    }

    /** `addPriceRow`: one empty row at the end of the chosen list. */
    method AddPriceRow(kind: ListKind)
      requires Valid()
      modifies this`proPrices, this`classPrices
      ensures Valid()
      ensures kind == ProprietaryList ==>
        proPrices == AppendEmpty(old(proPrices)) && classPrices == old(classPrices)
      ensures kind == ClassicalList ==>
        classPrices == AppendEmpty(old(classPrices)) && proPrices == old(proPrices)
    {
      if kind == ProprietaryList {
        proPrices := AppendEmpty(proPrices);
      } else {
        classPrices := AppendEmpty(classPrices);
      }
    }

    /** `resetForm`. */
    method ResetForm()
      modifies this
      ensures Pristine() && Valid()
    {
      ResetCommon();
      ResetProprietary();
      ResetClassical();
    }

    /** The first five setters of `resetForm`. */
    method ResetCommon()
      modifies this`category, this`name, this`description, this`thumbnail, this`image
      ensures category == "" && name == "" && description == ""
      ensures thumbnail.None? && image.None?
    {
      category := "";
      name := "";
      description := "";
      thumbnail := None;
      image := None;
    }

    /** The proprietary setters of `resetForm`. */
    method ResetProprietary()
      modifies this`proUsage, this`proIngredients, this`proDosage, this`proPrices
      ensures proUsage == "" && proIngredients == "" && proDosage == "" && proPrices == [EmptyRow]
    {
      proUsage := "";
      proIngredients := "";
      proDosage := "";
      proPrices := [EmptyRow];
    }

    /** The classical setters of `resetForm`. */
    method ResetClassical()
      modifies this`subCategory, this`classUsage, this`classIngredients, this`dosageAnupan,
        this`reference, this`classPrices
      ensures subCategory == "" && classUsage == "" && classIngredients == ""
      ensures dosageAnupan == "" && reference == "" && classPrices == [EmptyRow]
    {
      subCategory := "";
      classUsage := "";
      classIngredients := "";
      dosageAnupan := "";
      reference := "";
      classPrices := [EmptyRow];
    }

    /**
     * The `data` object `handleSubmit` posts: the text fields and only the component that
     * matches the category, its price list sent as it stands, blank rows included.
     * The chosen files are not part of it.
     */
    function Payload(): (p: NewProduct)
      reads this
      ensures p.name == name && p.category == category && p.description == description
      ensures p.proprietary.Some? <==> category == ProprietaryCategory
      ensures p.classical.Some? <==> category == ClassicalCategory
      ensures p.proprietary.Some? ==>
        p.proprietary.value.priceList == Some(proPrices)
        && p.proprietary.value.usage == proUsage && p.proprietary.value.ingredients == proIngredients
        && p.proprietary.value.dosage == proDosage
      ensures p.classical.Some? ==>
        p.classical.value.priceList == Some(classPrices)
        && p.classical.value.subCategory == subCategory && p.classical.value.usage == classUsage
        && p.classical.value.ingredients == classIngredients
        && p.classical.value.dosageAnupan == dosageAnupan && p.classical.value.reference == reference
    {
      NewProduct(name, category, description,
        if category == ProprietaryCategory then
          Some(ProprietaryFields(proUsage, proIngredients, proDosage, Some(proPrices)))
        else None,
        if category == ClassicalCategory then
          Some(ClassicalFields(subCategory, classUsage, classIngredients, dosageAnupan, reference,
            Some(classPrices)))
        else None)
    }

    /**
     * `handleSubmit`: posts the payload; the form is reset and the dialog closed only when the
     * product was created, and on any failure the form keeps everything that was entered.
     */
    method HandleSubmit(outcome: PostOutcome) returns (sent: NewProduct, notice: string, closed: bool)
      requires Valid()
      modifies this
      ensures Valid()
      ensures sent == old(Payload())
      ensures closed <==> outcome == Created
      ensures outcome == Created ==> Pristine() && notice == AddedNotice
      ensures outcome == Refused ==> unchanged(this) && notice == RefusedNotice
      ensures outcome == Unreachable ==> unchanged(this) && notice == ServerErrorNotice
    {
      sent := Payload();
      match outcome
      case Created =>
        notice := AddedNotice;
        ResetForm();
        closed := true;
      case Refused =>
        notice := RefusedNotice;
        closed := false;
      case Unreachable =>
        notice := ServerErrorNotice;
        closed := false;
    }
  }

  /** A pristine form posts a product with blank text and no component. */
  lemma PristinePayload(form: AddProductForm)
    requires form.Pristine()
    ensures form.Payload() == NewProduct("", "", "", None, None)
  {
  }

  /** Unlike the edit form's submission, the add form posts rows whose fields are all blank. */
  lemma BlankRowsArePosted(form: AddProductForm)
    requires form.category == ProprietaryCategory
    ensures EmptyRow in form.proPrices ==> EmptyRow in form.Payload().proprietary.value.priceList.value
  {
  }
}
