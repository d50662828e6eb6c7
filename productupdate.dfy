/** The PUT request the product dashboard's `handleUpdate` sends for an edited product. */
module ProductUpdate {
  import opened Wrappers
  import opened PriceLists
  import opened Products
  import EditProduct

  /** A price-list item as sent: the row without its `id`. */
  datatype PriceEntry = PriceEntry(srNo: string, qty: string, price: string)

  /** A key of the body: left out, present as `null`, or present with a value. */
  datatype Slot<T> = Omitted | NullSlot | Given(value: T)

  /** `proprietary_fields` as sent; a text field is None (`undefined`) when the product had no such block. */
  datatype ProprietaryBody = ProprietaryBody(
    usage: Option<string>,
    ingredients: Option<string>,
    dosage: Option<string>,
    priceList: seq<PriceEntry>)

  datatype ClassicalBody = ClassicalBody(
    subCategory: Option<string>,
    usage: Option<string>,
    ingredients: Option<string>,
    dosageAnupan: Option<string>,
    reference: Option<string>,
    priceList: seq<PriceEntry>)

  /** The `data` object of the request. */
  datatype UpdateBody = UpdateBody(
    name: string,
    category: string,
    description: string,
    proprietary: Slot<ProprietaryBody>,
    classical: Slot<ClassicalBody>)

  /** `const { id, ...rest } = item; return rest;` */
  function StripId(row: PriceRow): (e: PriceEntry)
    ensures e.srNo == row.srNo && e.qty == row.qty && e.price == row.price
  {
    PriceEntry(row.srNo, row.qty, row.price)
  }

  /** `(price_list || []).map(...)` over the id-stripping step. */
  function StripIds(rows: Option<seq<PriceRow>>): (r: seq<PriceEntry>)
    ensures rows.None? ==> r == []
    ensures rows.Some? ==> |r| == |rows.value|
    ensures rows.Some? ==> forall i :: 0 <= i < |r| ==>
      r[i].srNo == rows.value[i].srNo && r[i].qty == rows.value[i].qty && r[i].price == rows.value[i].price
  {
    match rows
    case None => []
    case Some(list) => seq(|list|, i requires 0 <= i < |list| => StripId(list[i]))
  }

  /** Two lists that differ only in their rows' ids are sent identically. */
  lemma StripIdsForgetsIds(a: seq<PriceRow>, b: seq<PriceRow>)
    requires |a| == |b|
    requires forall i :: 0 <= i < |a| ==> a[i].(id := None) == b[i].(id := None)
    ensures StripIds(Some(a)) == StripIds(Some(b))
  {
    forall i | 0 <= i < |a|
      ensures StripIds(Some(a))[i] == StripIds(Some(b))[i]
    {
      assert a[i].(id := None).srNo == a[i].srNo;
      assert b[i].(id := None).srNo == b[i].srNo;
    }
  }

  /** Stripping ids maps over the list piecewise, so order is kept. */
  lemma StripIdsConcat(a: seq<PriceRow>, b: seq<PriceRow>)
    ensures StripIds(Some(a + b)) == StripIds(Some(a)) + StripIds(Some(b))
  {
    var l, r := StripIds(Some(a + b)), StripIds(Some(a)) + StripIds(Some(b));
    forall i | 0 <= i < |l|
      ensures l[i] == r[i]
    {
      if i < |a| {
        assert (a + b)[i] == a[i];
      } else {
        assert (a + b)[i] == b[i - |a|];
      }
    }
  }

  function ProprietaryBodyOf(f: Option<ProprietaryFields>): (b: ProprietaryBody)
    ensures f.None? ==> b == ProprietaryBody(None, None, None, [])
    ensures f.Some? ==>
      b.usage == Some(f.value.usage) && b.ingredients == Some(f.value.ingredients)
      && b.dosage == Some(f.value.dosage) && b.priceList == StripIds(f.value.priceList)
  {
    match f
    case None => ProprietaryBody(None, None, None, [])
    case Some(v) => ProprietaryBody(Some(v.usage), Some(v.ingredients), Some(v.dosage), StripIds(v.priceList))
  }

  function ClassicalBodyOf(f: Option<ClassicalFields>): (b: ClassicalBody)
    ensures f.None? ==> b == ClassicalBody(None, None, None, None, None, [])
    ensures f.Some? ==>
      b.subCategory == Some(f.value.subCategory) && b.usage == Some(f.value.usage)
      && b.ingredients == Some(f.value.ingredients) && b.dosageAnupan == Some(f.value.dosageAnupan)
      && b.reference == Some(f.value.reference) && b.priceList == StripIds(f.value.priceList)
  {
    match f
    case None => ClassicalBody(None, None, None, None, None, [])
    case Some(v) =>
      ClassicalBody(Some(v.subCategory), Some(v.usage), Some(v.ingredients), Some(v.dosageAnupan),
        Some(v.reference), StripIds(v.priceList))
  }

  /**
   * The body of `handleUpdate`: the text fields, the component of the product's category,
   * and `null` for the other component, which clears it on the server.
   */
  function UpdateBodyOf(p: Product): (b: UpdateBody)
    ensures b.name == p.name && b.category == p.category && b.description == p.description
    ensures p.category == ProprietaryCategory ==>
      b.proprietary == Given(ProprietaryBodyOf(p.proprietary)) && b.classical == NullSlot
    ensures p.category == ClassicalCategory ==>
      b.classical == Given(ClassicalBodyOf(p.classical)) && b.proprietary == NullSlot
    ensures p.category != ProprietaryCategory && p.category != ClassicalCategory ==>
      b.proprietary == Omitted && b.classical == Omitted
  {
    var b0 := UpdateBody(p.name, p.category, p.description, Omitted, Omitted);
    var b1 := if p.category == ProprietaryCategory
      then b0.(proprietary := Given(ProprietaryBodyOf(p.proprietary)), classical := NullSlot)
      else b0;
    if p.category == ClassicalCategory
      then b1.(classical := Given(ClassicalBodyOf(p.classical)), proprietary := NullSlot)
      else b1
  }

  /** The URL path: the record is addressed by its `documentId`, which the body does not carry. */
  function UpdatePath(p: Product): (path: string)
    ensures |path| == |"/api/products/"| + |p.documentId|
    ensures path[..|"/api/products/"|] == "/api/products/"
    ensures path[|"/api/products/"|..] == p.documentId
  {
    "/api/products/" + p.documentId
  }

  /** Distinct document ids address distinct records. */
  lemma UpdatePathInjective(p: Product, q: Product)
    ensures UpdatePath(p) == UpdatePath(q) <==> p.documentId == q.documentId
  {
    if UpdatePath(p) == UpdatePath(q) {
      assert UpdatePath(p)[|"/api/products/"|..] == UpdatePath(q)[|"/api/products/"|..];
    }
  }

  /** At most one component is sent with a value, and exactly one when the category names one. */
  lemma AtMostOneComponent(p: Product)
    ensures !(UpdateBodyOf(p).proprietary.Given? && UpdateBodyOf(p).classical.Given?)
    ensures UpdateBodyOf(p).proprietary.Given? || UpdateBodyOf(p).classical.Given?
      <==> p.category == ProprietaryCategory || p.category == ClassicalCategory
  {
  }

  /**
   * What the edit dialog submits for a proprietary product reaches the server as its text
   * fields and its filled rows without ids, and the classical component is cleared.
   */
  lemma EditedProprietaryBody(form: EditProduct.EditProductForm)
    requires form.category == ProprietaryCategory
    ensures UpdateBodyOf(form.Submission()).proprietary == Given(ProprietaryBody(
      Some(form.proUsage), Some(form.proIngredients), Some(form.proDosage),
      StripIds(Some(FilledRows(form.proPrices)))))
    ensures UpdateBodyOf(form.Submission()).classical == NullSlot
  {
  }

  /** The classical counterpart of `EditedProprietaryBody`. */
  lemma EditedClassicalBody(form: EditProduct.EditProductForm)
    requires form.category == ClassicalCategory
    ensures UpdateBodyOf(form.Submission()).classical == Given(ClassicalBody(
      Some(form.subCategory), Some(form.classUsage), Some(form.classIngredients),
      Some(form.dosageAnupan), Some(form.reference), StripIds(Some(FilledRows(form.classPrices)))))
    ensures UpdateBodyOf(form.Submission()).proprietary == NullSlot
  {
  }

  /** No all-blank row of the edit dialog is ever sent. */
  lemma EditedRowsAreFilled(form: EditProduct.EditProductForm)
    requires form.category == ProprietaryCategory
    ensures forall e :: e in UpdateBodyOf(form.Submission()).proprietary.value.priceList ==>
      e.srNo != "" || e.qty != "" || e.price != ""
  {
    var rows := FilledRows(form.proPrices);
    var sent := UpdateBodyOf(form.Submission()).proprietary.value.priceList;
    assert sent == StripIds(Some(rows));
    forall e | e in sent
      ensures e.srNo != "" || e.qty != "" || e.price != ""
    {
      var i :| 0 <= i < |sent| && sent[i] == e;
      assert rows[i] in rows;
    }
  }
}
