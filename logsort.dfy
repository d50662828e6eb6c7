/**
 * `Array.prototype.sort` with the comparator `(a, b) => time(b) - time(a)`: a stable sort
 * into non-increasing time order, written as an insertion sort.
 */
module LogSort {
  import opened AuditLogs
  import Seqs

  predicate SortedByRecency(s: seq<AuditLog>) {
    forall i, j :: 0 <= i < j < |s| ==> s[i].instant >= s[j].instant
  }

  /** Places `x` after every entry strictly more recent than it and before the others. */
  function Insert(x: AuditLog, s: seq<AuditLog>): (r: seq<AuditLog>)
    requires SortedByRecency(s)
    ensures |r| == |s| + 1
    ensures multiset(r) == multiset(s) + multiset{x}
    ensures SortedByRecency(r)
  {
    if s == [] || s[0].instant <= x.instant then [x] + s
    else
      var rest := Insert(x, s[1..]);
      InsertHead(x, s, rest);
      [s[0]] + rest
  }

  /** The step case of `Insert`: the head of `s` stays in front of the insertion into its tail. */
  lemma InsertHead(x: AuditLog, s: seq<AuditLog>, rest: seq<AuditLog>)
    requires SortedByRecency(s) && s != [] && x.instant < s[0].instant
    requires multiset(rest) == multiset(s[1..]) + multiset{x} && SortedByRecency(rest)
    ensures multiset([s[0]] + rest) == multiset(s) + multiset{x}
    ensures SortedByRecency([s[0]] + rest)
  {
    assert s == [s[0]] + s[1..];
    forall j | 0 <= j < |rest| ensures rest[j].instant <= s[0].instant {
      var y := rest[j];
      assert y in multiset(rest);
      if y != x {
        assert y in multiset(s[1..]);
        assert y in s[1..];
      }
    }
    var r := [s[0]] + rest;
    forall i, j | 0 <= i < j < |r| ensures r[i].instant >= r[j].instant {
      assert r[j] == rest[j - 1];
      if i > 0 {
        assert r[i] == rest[i - 1];
      }
    }
  }

  /** The sorted sequence: most recent first. */
  function SortByRecency(s: seq<AuditLog>): (r: seq<AuditLog>)
    ensures |r| == |s|
    ensures multiset(r) == multiset(s)
    ensures SortedByRecency(r)
  {
    if s == [] then []
    else
      assert s == [s[0]] + s[1..];
      Insert(s[0], SortByRecency(s[1..]))
  }

  /** The entries with time `t`, in order. */
  function AtInstant(t: int, s: seq<AuditLog>): seq<AuditLog> {
    Seqs.Filter(s, (x: AuditLog) => x.instant == t)
  }

  lemma AtInstantConcat(t: int, a: seq<AuditLog>, b: seq<AuditLog>)
    ensures AtInstant(t, a + b) == AtInstant(t, a) + AtInstant(t, b)
  {
    Seqs.FilterConcat(a, b, (x: AuditLog) => x.instant == t);
  }

  lemma {:induction false} InsertStable(t: int, x: AuditLog, s: seq<AuditLog>)
    requires SortedByRecency(s)
    ensures AtInstant(t, Insert(x, s)) == AtInstant(t, [x]) + AtInstant(t, s)
  {
    if s == [] || s[0].instant <= x.instant {
      AtInstantConcat(t, [x], s);
    } else {
      var rest := Insert(x, s[1..]);
      AtInstantConcat(t, [s[0]], rest);
      InsertStable(t, x, s[1..]);
      AtInstantConcat(t, [s[0]], s[1..]);
      assert s == [s[0]] + s[1..];
      assert AtInstant(t, [s[0]]) == [] || AtInstant(t, [x]) == [] by {
        assert [s[0]][1..] == [] && [x][1..] == [];
      }
    }
  }

  /** Stability: for every time, the entries carrying it keep their relative order. */
  lemma {:induction false} SortStable(t: int, s: seq<AuditLog>)
    ensures AtInstant(t, SortByRecency(s)) == AtInstant(t, s)
  {
    if s != [] {
      SortStable(t, s[1..]);
      InsertStable(t, s[0], SortByRecency(s[1..]));
      AtInstantConcat(t, [s[0]], s[1..]);
      assert s == [s[0]] + s[1..];
    }
  }

  /** Sorting an already sorted sequence returns it unchanged. */
  lemma {:induction false} SortSortedIsIdentity(s: seq<AuditLog>)
    requires SortedByRecency(s)
    ensures SortByRecency(s) == s
  {
    if s != [] {
      SortSortedIsIdentity(s[1..]);
      assert s == [s[0]] + s[1..];
    }
  }
}
