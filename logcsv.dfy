/**
 * The text `downloadCSV` builds: a header row and one row per deduplicated entry, joined by
 * newlines; each row is its 17 cells, each wrapped in double quotes, joined by commas.
 * Nothing inside a cell is escaped.
 */
module LogCsv {
  import opened Wrappers
  import opened JsValues
  import opened AuditLogs
  import LogDedup
  import Seqs
  import Decimal

  const Headers: seq<string> := [
    "ID", "Document ID", "Action", "Entity Type", "Entity ID", "Entity Document ID",
    "Username", "Email", "User ID", "User Document ID", "Changes", "Previous Values",
    "Timestamp", "Created At", "Updated At", "Published At", "Locale"]

  /** The cells of one entry, in header order; `ser` stands for `JSON.stringify`. */
  function LogCells(log: AuditLog, ser: JsValue -> string): (cells: seq<string>)
    ensures |cells| == |Headers| == 17
    ensures log.publishedAt.None? ==> cells[15] == ""
    ensures log.locale.None? ==> cells[16] == ""
    ensures cells[10] == ser(log.changes) && cells[11] == ser(log.previousValues)
  {
    [ Decimal.IntToDecimal(log.id), log.documentId, log.action, log.entityType,
      Decimal.IntToDecimal(log.entityId), log.entityDocumentId,
      log.user.username, log.user.email, Decimal.IntToDecimal(log.user.id), log.user.documentId,
      ser(log.changes), ser(log.previousValues),
      log.timestamp, log.createdAt, log.updatedAt,
      log.publishedAt.GetOr(""), log.locale.GetOr("") ]
  }

  /** `"${cell}"`: the cell between two double quotes, nothing escaped. */
  function Quote(cell: string): (q: string)
    ensures |q| == |cell| + 2 && q[0] == '"' && q[|q| - 1] == '"' && q[1..|q| - 1] == cell
  {
    "\"" + cell + "\""
  }

  /** One CSV line: every cell quoted, then joined by commas. */
  function CsvLine(cells: seq<string>): (line: string)
    ensures cells == [] ==> line == ""
    ensures |cells| == 1 ==> line == Quote(cells[0])
  {
    Seqs.Join(seq(|cells|, i requires 0 <= i < |cells| => Quote(cells[i])), ",")
  }

  /** The whole CSV text for an already deduplicated list. */
  function CsvText(logs: seq<AuditLog>, ser: JsValue -> string): (text: string)
    ensures logs == [] ==> text == CsvLine(Headers)
  {
    Seqs.Join([CsvLine(Headers)] + seq(|logs|, i requires 0 <= i < |logs| => CsvLine(LogCells(logs[i], ser))), "\n")
  }

  /** What the download button saves for the page's filtered logs. */
  function ExportCsv(filtered: seq<AuditLog>, ser: JsValue -> string): (text: string)
    ensures filtered == [] ==> text == CsvLine(Headers)
  {
    CsvText(LogDedup.Deduplicated(filtered, ser), ser)
  }

  /** Exporting already deduplicated logs gives the same file: the export removes nothing more. */
  lemma ExportCsvOfDeduplicated(logs: seq<AuditLog>, ser: JsValue -> string)
    ensures ExportCsv(LogDedup.Deduplicated(logs, ser), ser) == ExportCsv(logs, ser)
  {
    LogDedup.DeduplicateIdempotent(logs, ser);
  }

  /** One more entry adds a newline and that entry's row at the end: rows follow the entries in order. */
  lemma CsvTextAppend(logs: seq<AuditLog>, x: AuditLog, ser: JsValue -> string)
    ensures CsvText(logs + [x], ser) == CsvText(logs, ser) + "\n" + CsvLine(LogCells(x, ser))
  {
    var lines := [CsvLine(Headers)] + seq(|logs|, i requires 0 <= i < |logs| => CsvLine(LogCells(logs[i], ser)));
    var ys := logs + [x];
    assert [CsvLine(Headers)] + seq(|ys|, i requires 0 <= i < |ys| => CsvLine(LogCells(ys[i], ser)))
        == lines + [CsvLine(LogCells(x, ser))];
    Seqs.JoinAppend(lines, CsvLine(LogCells(x, ser)), "\n");
  }

  // ---------------------------------------------------------------------------------------
  // Reading a line back

  predicate QuoteFree(cell: string) {
    '"' !in cell
  }

  /** The position of the first double quote, or `|s|` when there is none. */
  function IndexOfQuote(s: string): (n: nat)
    ensures n <= |s|
  {
    if s == [] then 0 else if s[0] == '"' then 0 else 1 + IndexOfQuote(s[1..])
  }

  /** Reads `"c0","c1",...,"cn"` back into its cells; `None` when the text is not of that shape. */
  function ParseLine(s: string): Option<seq<string>>
    decreases |s|
  {
    if |s| == 0 || s[0] != '"' then None
    else
      var n := IndexOfQuote(s[1..]);
      if n == |s| - 1 then None
      else
        var cell := s[1..n + 1];
        var rest := s[n + 2..];
        if rest == [] then Some([cell])
        else if rest[0] != ',' then None
        else match ParseLine(rest[1..])
          case None => None
          case Some(cells) => Some([cell] + cells)
  }

  lemma {:induction false} IndexOfQuoteAfter(c: string, t: string)
    requires QuoteFree(c)
    ensures IndexOfQuote(c + "\"" + t) == |c|
  {
    if c != [] {
      assert (c + "\"" + t)[1..] == c[1..] + "\"" + t;
      IndexOfQuoteAfter(c[1..], t);
    }
  }

  /** A line is its first quoted cell, then a comma and the line of the remaining cells. */
  lemma {:induction false} CsvLineCons(cells: seq<string>)
    requires |cells| >= 1
    ensures |cells| == 1 ==> CsvLine(cells) == Quote(cells[0])
    ensures |cells| > 1 ==> CsvLine(cells) == Quote(cells[0]) + "," + CsvLine(cells[1..])
  {
    var quoted := seq(|cells|, i requires 0 <= i < |cells| => Quote(cells[i]));
    if |cells| > 1 {
      assert quoted[1..] == seq(|cells[1..]|, i requires 0 <= i < |cells[1..]| => Quote(cells[1..][i]));
    }
  }

  /** The parser reads one quote-free quoted cell, then hands what follows the comma on. */
  lemma {:induction false} ParseLineHead(c: string, rest: string, cells: seq<string>)
    requires QuoteFree(c)
    requires rest == [] || (rest[0] == ',' && ParseLine(rest[1..]) == Some(cells))
    ensures ParseLine(Quote(c) + rest) == Some([c] + (if rest == [] then [] else cells))
  {
    var s := Quote(c) + rest;
    assert s[0] == '"';
    assert s[1..] == c + "\"" + rest;
    IndexOfQuoteAfter(c, rest);
    var n := IndexOfQuote(s[1..]);
    assert n == |c| && n != |s| - 1;
    assert s[1..n + 1] == c;
    assert s[n + 2..] == rest;
    if rest == [] {
      assert [c] + [] == [c];
      assert ParseLine(s) == Some([c]);
    } else {
      assert ParseLine(s) == Some([c] + cells);
    }
  }

  /** A line whose cells contain no double quote reads back into exactly those cells. */
  lemma {:induction false} CsvLineRoundTrip(cells: seq<string>)
    requires |cells| >= 1
    requires forall i :: 0 <= i < |cells| ==> QuoteFree(cells[i])
    ensures ParseLine(CsvLine(cells)) == Some(cells)
  {
    CsvLineCons(cells);
    if |cells| == 1 {
      CsvLineRoundTripOne(cells);
    } else {
      CsvLineRoundTrip(cells[1..]);
      CsvLineRoundTripStep(cells, CsvLine(cells[1..]));
    }
  }

  /** A single quote-free cell reads back. */
  lemma CsvLineRoundTripOne(cells: seq<string>)
    requires |cells| == 1 && QuoteFree(cells[0])
    ensures ParseLine(Quote(cells[0])) == Some(cells)
  {
    ParseLineHead(cells[0], "", []);
    assert Quote(cells[0]) + "" == Quote(cells[0]);
    assert cells == [cells[0]] + [];
  }

  /** A quoted quote-free cell and a comma in front of a line holding the other cells reads back. */
  lemma CsvLineRoundTripStep(cells: seq<string>, line: string)
    requires |cells| > 1 && QuoteFree(cells[0])
    requires ParseLine(line) == Some(cells[1..])
    ensures ParseLine(Quote(cells[0]) + "," + line) == Some(cells)
  {
    var rest := "," + line;
    assert rest[1..] == line;
    ParseLineHead(cells[0], rest, cells[1..]);
    assert Quote(cells[0]) + rest == Quote(cells[0]) + "," + line;
    assert cells == [cells[0]] + cells[1..];
  }

  /**
   * Without escaping, a cell that contains `","` prints exactly like two cells, so the file
   * no longer determines the cells.
   */
  lemma CsvLineAmbiguous()
    ensures CsvLine(["a\",\"b"]) == CsvLine(["a", "b"])
  {
    assert CsvLine(["a", "b"]) == Quote("a") + "," + Quote("b");
  }
}
