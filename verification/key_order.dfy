/**
 * The order in which the distinct-key queries return attribute keys
 * (`ORDER BY key`), taken as lexicographic order on code points, and the
 * sorted, duplicate-free key list such a query yields for a bag of keys.
 */
module KeyOrder {

  /** Lexicographic "strictly less than" on strings, character by character. */
  predicate Less(a: string, b: string)
    decreases |a|
  {
    if |a| == 0 then |b| > 0
    else if |b| == 0 then false
    else if a[0] == b[0] then Less(a[1..], b[1..])
    else a[0] < b[0]
  }

  lemma {:induction false} LessIrreflexive(a: string)
    ensures !Less(a, a)
    decreases |a|
  {
    if |a| > 0 {
      LessIrreflexive(a[1..]);
    }
  }

  lemma {:induction false} LessTransitive(a: string, b: string, c: string)
    requires Less(a, b) && Less(b, c)
    ensures Less(a, c)
    decreases |a|
  {
    if |a| > 0 && a[0] == b[0] && b[0] == c[0] {
      LessTransitive(a[1..], b[1..], c[1..]);
    }
  }

  /** Any two different keys are ordered one way or the other. */
  lemma {:induction false} LessTotal(a: string, b: string)
    requires a != b
    ensures Less(a, b) || Less(b, a)
    decreases |a|
  {
    if |a| > 0 && |b| > 0 && a[0] == b[0] {
      assert a == [a[0]] + a[1..] && b == [b[0]] + b[1..];
      LessTotal(a[1..], b[1..]);
    }
  }

  /** Every key is strictly less than every later key: sorted and distinct. */
  predicate StrictlySorted(ks: seq<string>)
  {
    forall i, j :: 0 <= i < j < |ks| ==> Less(ks[i], ks[j])
  }

  lemma SortedDistinctElements(ks: seq<string>, i: int, j: int)
    requires StrictlySorted(ks)
    requires 0 <= i < |ks| && 0 <= j < |ks| && i != j
    ensures ks[i] != ks[j]
  {
    if i < j {
      LessIrreflexive(ks[i]);
    } else {
      LessIrreflexive(ks[j]);
    }
  }

  /** Inserts `k` at its place in a sorted, distinct key list unless it is already there. */
  function InsertKey(ks: seq<string>, k: string): (r: seq<string>)
    requires StrictlySorted(ks)
    ensures StrictlySorted(r)
    ensures forall x :: x in r <==> x in ks || x == k
    decreases |ks|
  {
    if |ks| == 0 then [k]
    else if k == ks[0] then ks
    else if Less(k, ks[0]) then
      assert forall j :: 0 < j < |ks| ==> Less(k, ks[j]) by {
        forall j | 0 < j < |ks| ensures Less(k, ks[j]) {
          LessTransitive(k, ks[0], ks[j]);
        }
      }
      [k] + ks
    else
      var rest := InsertKey(ks[1..], k);
      assert Less(ks[0], k) by {
        LessTotal(k, ks[0]);
      }
      assert forall x :: x in rest ==> Less(ks[0], x) by {
        forall x | x in rest ensures Less(ks[0], x) {
          if x != k {
            var j :| 0 <= j < |ks[1..]| && ks[1..][j] == x;
            assert ks[j + 1] == x;
          }
        }
      }
      assert forall j :: 0 <= j < |rest| ==> rest[j] in rest;
      [ks[0]] + rest
  }

  /**
   * The keys of `ks`, each once, in ascending order: what a
   * `SELECT DISTINCT key ... ORDER BY key` returns for the keys `ks`.
   */
  function SortedDistinct(ks: seq<string>): (r: seq<string>)
    ensures StrictlySorted(r)
    ensures forall x :: x in r <==> x in ks
  {
    if |ks| == 0 then []
    else
      var r := InsertKey(SortedDistinct(ks[..|ks| - 1]), ks[|ks| - 1]);
      assert forall x :: x in ks <==> x in ks[..|ks| - 1] || x == ks[|ks| - 1] by {
        assert ks == ks[..|ks| - 1] + [ks[|ks| - 1]];
      }
      r
  }

  /**
   * A sorted, distinct key list is determined by its keys: any store that
   * returns the distinct keys of a page in this order returns SortedDistinct.
   */
  lemma {:induction false} SortedUnique(a: seq<string>, b: seq<string>)
    requires StrictlySorted(a) && StrictlySorted(b)
    requires forall x :: x in a <==> x in b
    ensures a == b
    decreases |a|
  {
    if b != [] {
      assert b[0] in b;
    }
    if |a| > 0 {
      assert a[0] in a;
      assert b != [];
      var i :| 0 <= i < |a| && a[i] == b[0];
      var j :| 0 <= j < |b| && b[j] == a[0];
      if i != 0 {
        assert Less(a[0], a[i]);
        if j == 0 {
          LessIrreflexive(a[0]);
        } else {
          assert Less(b[0], b[j]);
          LessTransitive(a[0], b[0], a[0]);
          LessIrreflexive(a[0]);
        }
        assert false;
      }
      assert a[0] == b[0];
      forall x
        ensures x in a[1..] <==> x in b[1..]
      {
        if x in a[1..] {
          var p :| 1 <= p < |a| && a[p] == x;
          SortedDistinctElements(a, 0, p);
          assert x in b && x != b[0];
          var q :| 0 <= q < |b| && b[q] == x;
          assert q != 0;
          assert b[1..][q - 1] == x;
        }
        if x in b[1..] {
          var q :| 1 <= q < |b| && b[q] == x;
          SortedDistinctElements(b, 0, q);
          assert x in a && x != a[0];
          var p :| 0 <= p < |a| && a[p] == x;
          assert p != 0;
          assert a[1..][p - 1] == x;
        }
      }
      SortedUnique(a[1..], b[1..]);
      assert a == [a[0]] + a[1..] && b == [b[0]] + b[1..];
    }
  }
}
