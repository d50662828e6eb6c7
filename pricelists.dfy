/**
 * The price-list rows both product forms edit, and the list operations behind their
 * `handlePriceChange`, `addPriceRow` and `removePriceRow` handlers.
 */
module PriceLists {
  import opened Wrappers
  import Seqs

  /** A row; `id` is the component id the API returns for stored rows, absent for new ones. */
  datatype PriceRow = PriceRow(id: Option<int>, srNo: string, qty: string, price: string)

  datatype PriceField = SrNo | Qty | Price

  /** `{ sr_no: "", qty: "", price: "" }`. */
  const EmptyRow: PriceRow := PriceRow(None, "", "", "")

  function FieldOf(row: PriceRow, f: PriceField): string {
    match f
    case SrNo => row.srNo
    case Qty => row.qty
    case Price => row.price
  }

  /** `row[field] = value`. */
  function WithField(row: PriceRow, f: PriceField, v: string): (r: PriceRow)
    ensures FieldOf(r, f) == v
    ensures forall g :: g != f ==> FieldOf(r, g) == FieldOf(row, g)
    ensures r.id == row.id
  {
    match f
    case SrNo => row.(srNo := v)
    case Qty => row.(qty := v)
    case Price => row.(price := v)
  }

  /**
   * `list[index][field] = value` on a copy of the list. An index outside the list makes
   * `list[index]` undefined and the assignment throws, so the state is left as it was.
   */
  function SetField(list: seq<PriceRow>, i: int, f: PriceField, v: string): (r: seq<PriceRow>)
    ensures |r| == |list|
    ensures forall j :: 0 <= j < |list| && j != i ==> r[j] == list[j]
    ensures 0 <= i < |list| ==> FieldOf(r[i], f) == v && r[i].id == list[i].id
    ensures 0 <= i < |list| ==> forall g :: g != f ==> FieldOf(r[i], g) == FieldOf(list[i], g)
  {
    if 0 <= i < |list| then list[i := WithField(list[i], f, v)] else list
  }

  /** `[...list, newRow]`. */
  function AppendEmpty(list: seq<PriceRow>): (r: seq<PriceRow>)
    ensures |r| == |list| + 1
    ensures r[..|list|] == list && r[|list|] == EmptyRow
  {
    list + [EmptyRow]
  }

  /** Where `splice(index, 1)` starts: a negative index counts from the end, clamped to the list. */
  function SpliceStart(len: nat, i: int): (start: nat)
    ensures start <= len
    ensures 0 <= i <= len ==> start == i
    ensures i < 0 && len + i >= 0 ==> start == len + i
    ensures i < 0 && len + i < 0 ==> start == 0
    ensures i > len ==> start == len
  {
    if i < 0 then (if len + i < 0 then 0 else len + i) else if i > len then len else i
  }

  /** `removePriceRow`: `splice(index, 1)`, but only while the list has more than one row. */
  function RemoveRow(list: seq<PriceRow>, i: int): (r: seq<PriceRow>)
    ensures |list| >= 1 ==> |r| >= 1
    ensures |list| <= 1 ==> r == list
    ensures |list| > 1 && 0 <= i < |list| ==> r == list[..i] + list[i + 1..]
    ensures |list| > 1 && i >= |list| ==> r == list
    ensures |list| > 1 && i < 0 && |list| + i >= 0 ==> r == list[..|list| + i] + list[|list| + i + 1..]
    ensures |list| > 1 && |list| + i < 0 ==> r == list[1..]
    ensures |r| == |list| || |r| == |list| - 1
  {
    if |list| > 1 then
      var start := SpliceStart(|list|, i);
      if start < |list| then list[..start] + list[start + 1..] else list
    else list
  }

  /** Removing the row just appended gives the list back. */
  lemma RemoveUndoesAppend(list: seq<PriceRow>)
    requires |list| >= 1
    ensures RemoveRow(AppendEmpty(list), |list|) == list
  {
    assert AppendEmpty(list)[..|list|] == list;
  }

  /** Writing a field and reading it back gives the written value. */
  lemma SetFieldThenRead(list: seq<PriceRow>, i: int, f: PriceField, v: string)
    requires 0 <= i < |list|
    ensures FieldOf(SetField(list, i, f, v)[i], f) == v
    ensures SetField(SetField(list, i, f, v), i, f, FieldOf(list[i], f)) == list
  {
    var r := SetField(list, i, f, v);
    var back := SetField(r, i, f, FieldOf(list[i], f));
    assert back[i] == list[i] by {
      match f
      case SrNo =>
      case Qty =>
      case Price =>
    }
  }

  /** The submit filter's test: at least one of `sr_no`, `qty`, `price` is non-empty. */
  predicate IsFilled(row: PriceRow)
    ensures !IsFilled(row) <==> row == EmptyRow.(id := row.id)
  {
    row.srNo != "" || row.qty != "" || row.price != ""
  }

  /** `list.filter((row) => row.sr_no || row.qty || row.price)`. */
  function FilledRows(list: seq<PriceRow>): (r: seq<PriceRow>)
    ensures |r| <= |list|
    ensures forall row :: row in r <==> row in list && IsFilled(row)
  {
    Seqs.Filter(list, IsFilled)
  }

  /** The filter keeps rows in their original order. */
  lemma FilledRowsConcat(a: seq<PriceRow>, b: seq<PriceRow>)
    ensures FilledRows(a + b) == FilledRows(a) + FilledRows(b)
  {
    Seqs.FilterConcat(a, b, IsFilled);
  }

  /** A freshly added row is dropped on submit. */
  lemma FilledRowsDropsAppended(list: seq<PriceRow>)
    ensures FilledRows(AppendEmpty(list)) == FilledRows(list)
  {
    FilledRowsConcat(list, [EmptyRow]);
    assert [EmptyRow][1..] == [];
  }

  /** The initial list of the edit form: the stored list if it has rows, else one empty row. */
  function InitialRows(stored: Option<seq<PriceRow>>): (r: seq<PriceRow>)
    ensures |r| >= 1
    ensures stored.Some? && |stored.value| > 0 ==> r == stored.value
    ensures stored.None? || stored.value == [] ==> r == [EmptyRow]
  {
    match stored
    case Some(rows) => if |rows| > 0 then rows else [EmptyRow]
    case None => [EmptyRow]
  }
}
