/**
 * The `deduplicatedLogs` memo of the audit-log page: a Map keyed by a `-`-joined string,
 * filled in one pass that keeps, per key, the entry with the strictly latest time, then
 * read out in key-insertion order and sorted most recent first.
 */
module LogDedup {
  import opened JsValues
  import opened AuditLogs
  import opened LogSort

  /**
   * The Map key. `ser` stands for `JSON.stringify`. The parts are joined with `-`, so
   * distinct tuples can produce the same key (see `KeyConflatesParts`).
   */
  function Key(log: AuditLog, ser: JsValue -> string): string {
    log.action + "-" + log.entityDocumentId + "-" + ser(log.changes) + "-" + ser(log.previousValues)
  }

  /** The key starts with the action and a dash. */
  lemma KeyStartsWithAction(log: AuditLog, ser: JsValue -> string)
    ensures |Key(log, ser)| > |log.action|
    ensures Key(log, ser)[..|log.action|] == log.action && Key(log, ser)[|log.action|] == '-'
  {
    var k := Key(log, ser);
    assert k == log.action + ("-" + log.entityDocumentId + "-" + ser(log.changes) + "-" + ser(log.previousValues));
  }

  /** Only the action, the document id, the changes and the previous values enter the key. */
  lemma KeyIgnoresOtherFields(a: AuditLog, b: AuditLog, ser: JsValue -> string)
    requires a.action == b.action && a.entityDocumentId == b.entityDocumentId
    requires a.changes == b.changes && a.previousValues == b.previousValues
    ensures Key(a, ser) == Key(b, ser)
  {
  }

  /** When neither action contains a dash, equal keys mean equal actions. */
  lemma KeySeparatesActions(a: AuditLog, b: AuditLog, ser: JsValue -> string)
    requires '-' !in a.action && '-' !in b.action
    requires Key(a, ser) == Key(b, ser)
    ensures a.action == b.action
  {
    var ra := a.entityDocumentId + "-" + ser(a.changes) + "-" + ser(a.previousValues);
    var rb := b.entityDocumentId + "-" + ser(b.changes) + "-" + ser(b.previousValues);
    assert Key(a, ser) == a.action + "-" + ra;
    assert Key(b, ser) == b.action + "-" + rb;
    DashEndsHead(a.action, b.action, ra, rb);
  }

  /** The first dash of `x + "-" + r` ends `x` when `x` has none, so such texts agree only on equal heads. */
  lemma DashEndsHead(x: string, y: string, r: string, s: string)
    requires '-' !in x && '-' !in y
    ensures x + "-" + r == y + "-" + s ==> x == y
  {
    if |x| < |y| {
      assert (x + "-" + r)[|x|] == '-';
      assert (y + "-" + s)[|x|] == y[|x|];
    } else if |y| < |x| {
      assert (y + "-" + s)[|y|] == '-';
      assert (x + "-" + r)[|y|] == x[|y|];
    } else {
      assert (x + "-" + r)[..|x|] == x;
      assert (y + "-" + s)[..|y|] == y;
    }
  }

  /** Two entries that differ only in their action have different keys, so both are kept. */
  lemma DistinctActionsKept(a: AuditLog, b: AuditLog, ser: JsValue -> string)
    requires a.action != b.action
    requires a.entityDocumentId == b.entityDocumentId
    requires a.changes == b.changes && a.previousValues == b.previousValues
    ensures Key(a, ser) != Key(b, ser)
    ensures DuplicatesRemoved([a, b], ser) == 0
  {
    var rest := "-" + a.entityDocumentId + "-" + ser(a.changes) + "-" + ser(a.previousValues);
    assert Key(a, ser) == a.action + rest;
    assert Key(b, ser) == b.action + rest;
    DistinctHeadsDistinct(a.action, b.action, rest);
    assert KeysDistinct([a, b], ser);
  }

  /** Different texts stay different when the same suffix is appended. */
  lemma DistinctHeadsDistinct(x: string, y: string, rest: string)
    requires x != y
    ensures x + rest != y + rest
  {
    if |x| == |y| {
      assert (x + rest)[..|x|] == x;
      assert (y + rest)[..|y|] == y;
    }
  }

  /** Some entry of `logs` has key `k`. */
  ghost predicate Occurs(logs: seq<AuditLog>, ser: JsValue -> string, k: string) {
    exists i :: 0 <= i < |logs| && Key(logs[i], ser) == k
  }

  predicate KeysDistinct(s: seq<AuditLog>, ser: JsValue -> string) {
    forall i, j :: 0 <= i < j < |s| ==> Key(s[i], ser) != Key(s[j], ser)
  }

  /**
   * `logs[i]` is the entry that must survive for key `k`: it has the latest time among the
   * entries with key `k`, and every earlier entry with key `k` is strictly older.
   */
  ghost predicate IsWinner(logs: seq<AuditLog>, ser: JsValue -> string, k: string, i: int) {
    && 0 <= i < |logs|
    && Key(logs[i], ser) == k
    && (forall j :: 0 <= j < |logs| && Key(logs[j], ser) == k ==> logs[j].instant <= logs[i].instant)
    && (forall j :: 0 <= j < i && Key(logs[j], ser) == k ==> logs[j].instant < logs[i].instant)
  }

  /** The Map's keys in insertion order after the `forEach` has visited `logs`. */
  function KeyOrder(logs: seq<AuditLog>, ser: JsValue -> string): seq<string> {
    if logs == [] then []
    else
      var prev := KeyOrder(logs[..|logs| - 1], ser);
      var k := Key(logs[|logs| - 1], ser);
      if k in prev then prev else prev + [k]
  }

  /** The Map's contents after the `forEach` has visited `logs`. */
  function LatestMap(logs: seq<AuditLog>, ser: JsValue -> string): map<string, AuditLog> {
    if logs == [] then map[]
    else
      var m := LatestMap(logs[..|logs| - 1], ser);
      var x := logs[|logs| - 1];
      var k := Key(x, ser);
      if k !in m || x.instant > m[k].instant then m[k := x] else m
  }

  /** `Array.from(m.values())` for a Map whose keys were inserted in the order `order`. */
  function ValuesInOrder(order: seq<string>, m: map<string, AuditLog>): seq<AuditLog> {
    if order == [] then []
    else
      var k := order[|order| - 1];
      ValuesInOrder(order[..|order| - 1], m) + (if k in m then [m[k]] else [])
  }

  /** The Map's values in insertion order, before sorting. */
  function MapValues(logs: seq<AuditLog>, ser: JsValue -> string): seq<AuditLog> {
    ValuesInOrder(KeyOrder(logs, ser), LatestMap(logs, ser))
  }

  /** `deduplicatedLogs`. */
  function Deduplicated(logs: seq<AuditLog>, ser: JsValue -> string): (r: seq<AuditLog>)
    ensures |r| <= |logs|
    ensures SortedByRecency(r)
  {
    MapValuesSpec(logs, ser);
    KeyOrderSpec(logs, ser);
    SortByRecency(MapValues(logs, ser))
  }

  // ---------------------------------------------------------------------------------------
  // The pass over the input

  /** The insertion order lists each key of the input once, and nothing else. */
  lemma {:induction false} KeyOrderSpec(logs: seq<AuditLog>, ser: JsValue -> string)
    ensures forall k :: k in KeyOrder(logs, ser) <==> Occurs(logs, ser, k)
    ensures forall i, j :: 0 <= i < j < |KeyOrder(logs, ser)| ==> KeyOrder(logs, ser)[i] != KeyOrder(logs, ser)[j]
    ensures |KeyOrder(logs, ser)| <= |logs|
  {
    if logs != [] {
      var init := logs[..|logs| - 1];
      KeyOrderSpec(init, ser);
      forall k ensures k in KeyOrder(logs, ser) <==> Occurs(logs, ser, k) {
        if Occurs(logs, ser, k) {
          var i :| 0 <= i < |logs| && Key(logs[i], ser) == k;
          if i < |init| {
            assert init[i] == logs[i];
            assert Occurs(init, ser, k);
          }
        }
        if Occurs(init, ser, k) {
          var i :| 0 <= i < |init| && Key(init[i], ser) == k;
          assert logs[i] == init[i];
        }
      }
    }
  }

  /** The insertion order only grows: the keys of a prefix come first, in the same order. */
  lemma {:induction false} KeyOrderPrefix(logs: seq<AuditLog>, ser: JsValue -> string, n: nat)
    requires n <= |logs|
    ensures KeyOrder(logs[..n], ser) <= KeyOrder(logs, ser)
  {
    if n < |logs| {
      var init := logs[..|logs| - 1];
      assert init[..n] == logs[..n];
      KeyOrderPrefix(init, ser, n);
    } else {
      assert logs[..n] == logs;
    }
  }

  /** The Map holds a key exactly when some entry has it. */
  lemma {:induction false} LatestMapKeys(logs: seq<AuditLog>, ser: JsValue -> string, k: string)
    ensures k in LatestMap(logs, ser) <==> Occurs(logs, ser, k)
  {
    if logs != [] {
      var last := |logs| - 1;
      var init := logs[..last];
      LatestMapKeys(init, ser, k);
      if Occurs(init, ser, k) {
        var i :| 0 <= i < |init| && Key(init[i], ser) == k;
        assert logs[i] == init[i];
      }
      if Occurs(logs, ser, k) && Key(logs[last], ser) != k {
        var i :| 0 <= i < |logs| && Key(logs[i], ser) == k;
        assert init[i] == logs[i];
      }
    }
  }

  /** The last entry is its key's winner when every earlier entry with that key is older. */
  lemma WinnerIsLast(logs: seq<AuditLog>, ser: JsValue -> string, k: string)
    requires logs != [] && Key(logs[|logs| - 1], ser) == k
    requires forall j :: 0 <= j < |logs| - 1 && Key(logs[j], ser) == k ==>
      logs[j].instant < logs[|logs| - 1].instant
    ensures IsWinner(logs, ser, k, |logs| - 1)
  {
  }

  /** A winner of the prefix stays the winner when the last entry does not beat it. */
  lemma WinnerKept(logs: seq<AuditLog>, ser: JsValue -> string, k: string, w: int)
    requires logs != [] && IsWinner(logs[..|logs| - 1], ser, k, w)
    requires Key(logs[|logs| - 1], ser) == k ==> logs[|logs| - 1].instant <= logs[w].instant
    ensures IsWinner(logs, ser, k, w)
  {
    var init := logs[..|logs| - 1];
    assert logs[w] == init[w];
    forall j | 0 <= j < |logs| - 1
      ensures logs[j] == init[j]
    {
    }
  }

  /** For every key it holds, the Map holds that key's winner. */
  lemma {:induction false} LatestMapWinner(logs: seq<AuditLog>, ser: JsValue -> string, k: string)
    requires k in LatestMap(logs, ser)
    ensures exists i :: IsWinner(logs, ser, k, i) && LatestMap(logs, ser)[k] == logs[i]
  {
    var last := |logs| - 1;
    var init := logs[..last];
    var x := logs[last];
    var m := LatestMap(init, ser);
    assert forall j :: 0 <= j < last ==> init[j] == logs[j];
    if Key(x, ser) == k && (k !in m || x.instant > m[k].instant) {
      if k in m {
        LatestMapWinner(init, ser, k);
        var w :| IsWinner(init, ser, k, w) && m[k] == init[w];
      } else {
        LatestMapKeys(init, ser, k);
      }
      WinnerIsLast(logs, ser, k);
    } else {
      LatestMapWinner(init, ser, k);
      var w :| IsWinner(init, ser, k, w) && m[k] == init[w];
      WinnerKept(logs, ser, k, w);
    }
  }

  /** The Map's key set equals the set of keys in the insertion order. */
  lemma KeyOrderMatchesMap(logs: seq<AuditLog>, ser: JsValue -> string)
    ensures forall k :: k in KeyOrder(logs, ser) <==> k in LatestMap(logs, ser)
  {
    KeyOrderSpec(logs, ser);
    forall k ensures k in LatestMap(logs, ser) <==> Occurs(logs, ser, k) {
      LatestMapKeys(logs, ser, k);
    }
  }

  /** The loop of the memo: one pass over `logs`, updating the Map in place. */
  method DeduplicateLogs(logs: seq<AuditLog>, ser: JsValue -> string) returns (unique: seq<AuditLog>)
    ensures unique == Deduplicated(logs, ser)
  {
    var uniqueLogs: map<string, AuditLog> := map[];
    var insertion: seq<string> := [];
    var i := 0;
    while i < |logs|
      invariant 0 <= i <= |logs|
      invariant insertion == KeyOrder(logs[..i], ser)
      invariant uniqueLogs == LatestMap(logs[..i], ser)
    {
      var log := logs[i];
      var key := Key(log, ser);
      assert logs[..i + 1][..i] == logs[..i];
      KeyOrderMatchesMap(logs[..i], ser);
      if key !in uniqueLogs || log.instant > uniqueLogs[key].instant {
        if key !in uniqueLogs {
          insertion := insertion + [key];
        }
        uniqueLogs := uniqueLogs[key := log];
      }
      i := i + 1;
    }
    assert logs[..i] == logs;
    var readout := ValuesInOrder(insertion, uniqueLogs);
    assert readout == MapValues(logs, ser);
    unique := SortByRecency(readout);
  }

  // ---------------------------------------------------------------------------------------
  // Reading the Map out

  /** Reading out a Map that holds every listed key gives one value per key, in order. */
  lemma {:induction false} ValuesInOrderSpec(order: seq<string>, m: map<string, AuditLog>)
    requires forall k :: k in order ==> k in m
    ensures |ValuesInOrder(order, m)| == |order|
    ensures forall i :: 0 <= i < |order| ==> ValuesInOrder(order, m)[i] == m[order[i]]
  {
    if order != [] {
      ValuesInOrderSpec(order[..|order| - 1], m);
    }
  }

  /** Updating a key that is not listed does not change what is read out. */
  lemma {:induction false} ValuesInOrderFrame(order: seq<string>, m: map<string, AuditLog>, k: string, x: AuditLog)
    requires k !in order
    ensures ValuesInOrder(order, m[k := x]) == ValuesInOrder(order, m)
  {
    if order != [] {
      ValuesInOrderFrame(order[..|order| - 1], m, k, x);
    }
  }

  /** Before sorting: one entry per key in insertion order, each its key's winner. */
  lemma MapValuesSpec(logs: seq<AuditLog>, ser: JsValue -> string)
    ensures |MapValues(logs, ser)| == |KeyOrder(logs, ser)|
    ensures forall i :: 0 <= i < |KeyOrder(logs, ser)| ==> Key(MapValues(logs, ser)[i], ser) == KeyOrder(logs, ser)[i]
    ensures forall y :: y in MapValues(logs, ser) ==> exists i :: IsWinner(logs, ser, Key(y, ser), i) && logs[i] == y
    ensures KeysDistinct(MapValues(logs, ser), ser)
  {
    var order, m := KeyOrder(logs, ser), LatestMap(logs, ser);
    KeyOrderMatchesMap(logs, ser);
    KeyOrderSpec(logs, ser);
    ValuesInOrderSpec(order, m);
    var vs := MapValues(logs, ser);
    forall i | 0 <= i < |order| ensures Key(vs[i], ser) == order[i] && exists w :: IsWinner(logs, ser, order[i], w) && logs[w] == vs[i] {
      LatestMapWinner(logs, ser, order[i]);
    }
  }

  /** Dropping the head keeps the keys distinct, and no later entry shares the head's key. */
  lemma TailKeysDistinct(s: seq<AuditLog>, ser: JsValue -> string)
    requires s != [] && KeysDistinct(s, ser)
    ensures KeysDistinct(s[1..], ser)
    ensures forall y :: y in s[1..] ==> Key(y, ser) != Key(s[0], ser)
  {
    forall i, j | 0 <= i < j < |s| - 1
      ensures Key(s[1..][i], ser) != Key(s[1..][j], ser)
    {
      assert s[1..][i] == s[i + 1] && s[1..][j] == s[j + 1];
    }
  }

  /** A key that no entry of `s` has is not found in any rearrangement of `s` either. */
  lemma KeyAbsentAfterPermutation(r: seq<AuditLog>, s: seq<AuditLog>, k: string, ser: JsValue -> string)
    requires multiset(r) == multiset(s)
    requires forall y :: y in s ==> Key(y, ser) != k
    ensures forall y :: y in r ==> Key(y, ser) != k
  {
    forall y | y in r
      ensures Key(y, ser) != k
    {
      assert y in multiset(r);
      assert y in multiset(s);
    }
  }

  /** Putting an entry with a fresh key in front keeps the keys distinct. */
  lemma ConsKeysDistinct(a: AuditLog, rest: seq<AuditLog>, ser: JsValue -> string)
    requires KeysDistinct(rest, ser)
    requires forall y :: y in rest ==> Key(y, ser) != Key(a, ser)
    ensures KeysDistinct([a] + rest, ser)
  {
    var r := [a] + rest;
    forall i, j | 0 <= i < j < |r|
      ensures Key(r[i], ser) != Key(r[j], ser)
    {
      assert r[j] == rest[j - 1];
      if i > 0 {
        assert r[i] == rest[i - 1];
      }
    }
  }

  /** Inserting an entry with a fresh key keeps the keys distinct. */
  lemma {:induction false} InsertKeysDistinct(x: AuditLog, s: seq<AuditLog>, ser: JsValue -> string)
    requires SortedByRecency(s) && KeysDistinct(s, ser)
    requires forall y :: y in s ==> Key(y, ser) != Key(x, ser)
    ensures KeysDistinct(Insert(x, s), ser)
  {
    if s == [] || s[0].instant <= x.instant {
      ConsKeysDistinct(x, s, ser);
    } else {
      TailKeysDistinct(s, ser);
      var rest := Insert(x, s[1..]);
      InsertKeysDistinct(x, s[1..], ser);
      var more := s[1..] + [x];
      assert multiset(more) == multiset(s[1..]) + multiset{x};
      KeyAbsentAfterPermutation(rest, more, Key(s[0], ser), ser);
      ConsKeysDistinct(s[0], rest, ser);
    }
  }

  /** Sorting keeps the keys distinct. */
  lemma {:induction false} SortKeysDistinct(s: seq<AuditLog>, ser: JsValue -> string)
    requires KeysDistinct(s, ser)
    ensures KeysDistinct(SortByRecency(s), ser)
  {
    if s != [] {
      TailKeysDistinct(s, ser);
      var tail := SortByRecency(s[1..]);
      SortKeysDistinct(s[1..], ser);
      KeyAbsentAfterPermutation(tail, s[1..], Key(s[0], ser), ser);
      InsertKeysDistinct(s[0], tail, ser);
    }
  }

  // ---------------------------------------------------------------------------------------
  // What the memo guarantees

  /** After deduplication no two entries share a key. */
  lemma DeduplicatedKeysDistinct(logs: seq<AuditLog>, ser: JsValue -> string)
    ensures KeysDistinct(Deduplicated(logs, ser), ser)
  {
    MapValuesSpec(logs, ser);
    SortKeysDistinct(MapValues(logs, ser), ser);
  }

  /** Sorting only reorders: the result holds exactly the Map's values. */
  lemma DeduplicatedElements(logs: seq<AuditLog>, ser: JsValue -> string)
    ensures forall y :: y in Deduplicated(logs, ser) <==> y in MapValues(logs, ser)
  {
    var vs, out := MapValues(logs, ser), Deduplicated(logs, ser);
    forall y ensures y in out <==> y in vs {
      assert y in out <==> y in multiset(out);
      assert y in vs <==> y in multiset(vs);
    }
  }

  /**
   * Exactly the input's keys survive, and the entry kept for a key is that key's winner:
   * latest time, the first one seen among equal latest times.
   */
  lemma DeduplicatedKeepsWinners(logs: seq<AuditLog>, ser: JsValue -> string)
    ensures forall k :: Occurs(Deduplicated(logs, ser), ser, k) <==> Occurs(logs, ser, k)
    ensures forall y :: y in Deduplicated(logs, ser) ==> exists i :: IsWinner(logs, ser, Key(y, ser), i) && logs[i] == y
  {
    var vs, out := MapValues(logs, ser), Deduplicated(logs, ser);
    var order := KeyOrder(logs, ser);
    MapValuesSpec(logs, ser);
    DeduplicatedElements(logs, ser);
    forall k | Occurs(out, ser, k) ensures Occurs(logs, ser, k) {
      var i :| 0 <= i < |out| && Key(out[i], ser) == k;
      assert out[i] in vs;
      var w :| IsWinner(logs, ser, k, w) && logs[w] == out[i];
    }
    forall k | Occurs(logs, ser, k) ensures Occurs(out, ser, k) {
      KeyOrderSpec(logs, ser);
      assert k in order;
      var p :| 0 <= p < |order| && order[p] == k;
      assert vs[p] in out;
      var i :| 0 <= i < |out| && out[i] == vs[p];
      assert Key(out[i], ser) == k;
    }
  }

  /** The result is ordered most recent first. */
  lemma DeduplicatedSorted(logs: seq<AuditLog>, ser: JsValue -> string)
    ensures forall i, j :: 0 <= i < j < |Deduplicated(logs, ser)| ==>
      Deduplicated(logs, ser)[i].instant >= Deduplicated(logs, ser)[j].instant
  {
  }

  /**
   * Entries with equal times stay in the Map's insertion order, which is the order in which
   * their keys were first seen (`KeyOrderPrefix`).
   */
  lemma DeduplicatedStable(logs: seq<AuditLog>, ser: JsValue -> string, t: int)
    ensures AtInstant(t, Deduplicated(logs, ser)) == AtInstant(t, MapValues(logs, ser))
  {
    SortStable(t, MapValues(logs, ser));
  }

  /** The result has one entry per distinct key, so never more entries than the input. */
  lemma {:induction false} KeyOrderLength(logs: seq<AuditLog>, ser: JsValue -> string)
    ensures |KeyOrder(logs, ser)| <= |logs|
    ensures |KeyOrder(logs, ser)| == |logs| <==> KeysDistinct(logs, ser)
  {
    if logs != [] {
      var last := |logs| - 1;
      var init := logs[..last];
      KeyOrderLength(init, ser);
      KeyOrderSpec(init, ser);
      var k := Key(logs[last], ser);
      if KeysDistinct(logs, ser) {
        InitKeysDistinct(logs, ser);
      }
      if |KeyOrder(logs, ser)| == |logs| {
        assert k !in KeyOrder(init, ser);
        AppendKeysDistinct(init, logs[last], ser);
        assert logs == init + [logs[last]];
      }
    }
  }

  /** Appending an entry whose key the list lacks keeps the keys distinct. */
  lemma AppendKeysDistinct(init: seq<AuditLog>, x: AuditLog, ser: JsValue -> string)
    requires KeysDistinct(init, ser) && !Occurs(init, ser, Key(x, ser))
    ensures KeysDistinct(init + [x], ser)
  {
    var s := init + [x];
    forall i, j | 0 <= i < j < |s|
      ensures Key(s[i], ser) != Key(s[j], ser)
    {
      assert s[i] == init[i];
      if j < |init| {
        assert s[j] == init[j];
      }
    }
  }

  /** `duplicatesRemoved`: how many filtered entries the deduplication dropped. */
  function DuplicatesRemoved(logs: seq<AuditLog>, ser: JsValue -> string): (n: nat)
    ensures n + |Deduplicated(logs, ser)| == |logs|
    ensures n > 0 <==> !KeysDistinct(logs, ser)
  {
    MapValuesSpec(logs, ser);
    KeyOrderLength(logs, ser);
    |logs| - |Deduplicated(logs, ser)|
  }

  /** The "(n duplicates removed)" note: shown only when something was removed. */
  function DuplicatesNote(logs: seq<AuditLog>, ser: JsValue -> string): (shown: bool)
    ensures shown <==> exists i, j :: 0 <= i < j < |logs| && Key(logs[i], ser) == Key(logs[j], ser)
  {
    DuplicatesRemoved(logs, ser) > 0
  }

  /** Dropping the last entry keeps the keys distinct, and the prefix lacks the last key. */
  lemma InitKeysDistinct(s: seq<AuditLog>, ser: JsValue -> string)
    requires s != [] && KeysDistinct(s, ser)
    ensures KeysDistinct(s[..|s| - 1], ser)
    ensures !Occurs(s[..|s| - 1], ser, Key(s[|s| - 1], ser))
  {
    var init := s[..|s| - 1];
    assert forall j :: 0 <= j < |init| ==> init[j] == s[j];
  }

  /** An entry with a key not seen before is read out of the Map last. */
  lemma MapValuesAppendFresh(init: seq<AuditLog>, x: AuditLog, ser: JsValue -> string)
    requires !Occurs(init, ser, Key(x, ser))
    ensures MapValues(init + [x], ser) == MapValues(init, ser) + [x]
  {
    var k := Key(x, ser);
    KeyOrderSpec(init, ser);
    LatestMapKeys(init, ser, k);
    assert (init + [x])[..|init|] == init;
    var order := KeyOrder(init, ser);
    var m := LatestMap(init, ser);
    assert KeyOrder(init + [x], ser) == order + [k];
    assert LatestMap(init + [x], ser) == m[k := x];
    assert (order + [k])[..|order|] == order;
    ValuesInOrderFrame(order, m, k, x);
  }

  /** An input whose keys are already distinct reads back out of the Map unchanged. */
  lemma {:induction false} DistinctKeysReadBack(s: seq<AuditLog>, ser: JsValue -> string)
    requires KeysDistinct(s, ser)
    ensures MapValues(s, ser) == s
  {
    if s != [] {
      var init, x := s[..|s| - 1], s[|s| - 1];
      InitKeysDistinct(s, ser);
      DistinctKeysReadBack(init, ser);
      MapValuesAppendFresh(init, x, ser);
      assert s == init + [x];
    }
  }

  /** Deduplicating a deduplicated list changes nothing and removes nothing. */
  lemma DeduplicateIdempotent(logs: seq<AuditLog>, ser: JsValue -> string)
    ensures Deduplicated(Deduplicated(logs, ser), ser) == Deduplicated(logs, ser)
    ensures DuplicatesRemoved(Deduplicated(logs, ser), ser) == 0
  {
    var out := Deduplicated(logs, ser);
    DeduplicatedKeysDistinct(logs, ser);
    DistinctKeysReadBack(out, ser);
    SortSortedIsIdentity(out);
  }

  // ---------------------------------------------------------------------------------------
  // Two-entry cases

  /** Of two entries with the same key and different times, the later one is kept, in either input order. */
  lemma RecencyWins(a: AuditLog, b: AuditLog, ser: JsValue -> string)
    requires Key(a, ser) == Key(b, ser) && a.instant < b.instant
    ensures Deduplicated([a, b], ser) == [b]
    ensures Deduplicated([b, a], ser) == [b]
    ensures DuplicatesRemoved([a, b], ser) == 1
  {
    var k := Key(a, ser);
    assert [a, b][..1] == [a] && [b, a][..1] == [b];
    assert [a][..0] == [] && [b][..0] == [];
    assert KeyOrder([a], ser) == [k] && KeyOrder([b], ser) == [k];
    assert LatestMap([a], ser) == map[k := a] && LatestMap([b], ser) == map[k := b];
    assert KeyOrder([a, b], ser) == [k] && KeyOrder([b, a], ser) == [k];
    assert LatestMap([a, b], ser) == map[k := b];
    assert LatestMap([b, a], ser) == map[k := b];
    assert ValuesInOrder([k], map[k := b]) == [b] by {
      assert [k][..0] == [];
    }
  }

  /** Of two entries with the same key and the same time, the first one seen is kept. */
  lemma EqualTimesFirstWins(a: AuditLog, b: AuditLog, ser: JsValue -> string)
    requires Key(a, ser) == Key(b, ser) && a.instant == b.instant
    ensures Deduplicated([a, b], ser) == [a]
  {
    var k := Key(a, ser);
    assert [a, b][..1] == [a] && [a][..0] == [];
    assert KeyOrder([a], ser) == [k];
    assert LatestMap([a], ser) == map[k := a];
    assert KeyOrder([a, b], ser) == [k];
    assert LatestMap([a, b], ser) == map[k := a];
    assert ValuesInOrder([k], map[k := a]) == [a] by {
      assert [k][..0] == [];
    }
  }

  /**
   * The key joins its parts with `-`, so two entries that differ in action and entity
   * document id can still share a key, and then only one of them survives.
   */
  lemma KeyConflatesParts(x: AuditLog, ser: JsValue -> string)
    requires x.action == "update-price" && x.entityDocumentId == "p1"
    ensures var y := x.(action := "update", entityDocumentId := "price-p1");
      && y.action != x.action
      && Key(y, ser) == Key(x, ser)
      && |Deduplicated([x, y], ser)| == 1
  {
    var y := x.(action := "update", entityDocumentId := "price-p1");
    assert x.action + "-" + x.entityDocumentId == y.action + "-" + y.entityDocumentId;
    assert Key(y, ser) == Key(x, ser);
    assert Key([x, y][0], ser) == Key([x, y][1], ser);
    KeyOrderLength([x, y], ser);
    MapValuesSpec([x, y], ser);
  }
}
