/**
 * sort.Strings, which the purge pass applies to the surviving file
 * names: an insertion sort under Go's string order, proved to return a
 * sorted permutation of its input.
 */
module Sorting {
  import opened Strings

  predicate Sorted(s: seq<string>) {
    forall i, j :: 0 <= i < j < |s| ==> LexLe(s[i], s[j])
  }

  /** Sorted without repetitions. */
  predicate StrictlySorted(s: seq<string>) {
    forall i, j :: 0 <= i < j < |s| ==> LexLt(s[i], s[j])
  }

  /** Inserts `x` before the first element it does not exceed. */
  function Insert(x: string, s: seq<string>): (r: seq<string>)
    ensures multiset(r) == multiset(s) + multiset{x}
    ensures |r| == |s| + 1
  {
    if s == [] then [x]
    else if LexLe(x, s[0]) then [x] + s
    else
      assert s == [s[0]] + s[1..];
      [s[0]] + Insert(x, s[1..])
  }

  lemma {:induction false} InsertSorted(x: string, s: seq<string>)
    requires Sorted(s)
    ensures Sorted(Insert(x, s))
  {
    var r := Insert(x, s);
    if s == [] {
    } else if LexLe(x, s[0]) {
      forall j | 1 <= j < |r| ensures LexLe(x, r[j]) {
        if j > 1 { LexLeTransitive(x, s[0], s[j - 1]); }
      }
    } else {
      InsertSorted(x, s[1..]);
      LexLeTotal(x, s[0]);
      var t := Insert(x, s[1..]);
      forall j | 0 <= j < |t| ensures LexLe(s[0], t[j]) {
        assert t[j] in multiset(s[1..]) + multiset{x};
        if t[j] != x {
          assert t[j] in s[1..];
        }
      }
    }
  }

  lemma {:induction false} InsertStrictlySorted(x: string, s: seq<string>)
    requires StrictlySorted(s) && x !in s
    ensures StrictlySorted(Insert(x, s))
  {
    var r := Insert(x, s);
    if s == [] {
    } else if LexLe(x, s[0]) {
      assert x != s[0];
      forall j | 1 <= j < |r| ensures LexLt(x, r[j]) {
        if j > 1 { LexLeTransitive(x, s[0], s[j - 1]); }
        assert r[j] in s;
      }
    } else {
      InsertStrictlySorted(x, s[1..]);
      LexLeTotal(x, s[0]);
      var t := Insert(x, s[1..]);
      forall j | 0 <= j < |t| ensures LexLt(s[0], t[j]) {
        assert t[j] in multiset(s[1..]) + multiset{x};
        if t[j] != x {
          assert t[j] in s[1..];
        }
      }
    }
  }

  /** sort.Strings: a sorted permutation of its input. */
  function SortStrings(s: seq<string>): (r: seq<string>)
    ensures multiset(r) == multiset(s)
    ensures Sorted(r)
  {
    if s == [] then []
    else
      assert s == [s[0]] + s[1..];
      InsertSorted(s[0], SortStrings(s[1..]));
      Insert(s[0], SortStrings(s[1..]))
  }

  /** Sorting names that are already strictly sorted changes nothing. */
  lemma {:induction false} SortStrictlySortedIsIdentity(s: seq<string>)
    requires StrictlySorted(s)
    ensures SortStrings(s) == s
  {
    if s != [] {
      SortStrictlySortedIsIdentity(s[1..]);
      assert s == [s[0]] + s[1..];
    }
  }

  /** In a strictly sorted sequence an element is below exactly the elements after it. */
  lemma StrictlySortedOrder(s: seq<string>, i: nat, j: nat)
    requires StrictlySorted(s) && i < |s| && j < |s|
    ensures LexLt(s[i], s[j]) <==> i < j
  {
    if j <= i && LexLt(s[i], s[j]) {
      if j < i {
        LexLeAntisymmetric(s[i], s[j]);
      }
    }
  }

  /** A strictly sorted sequence has no repetitions, so it has as many distinct elements as positions. */
  lemma {:induction false} StrictlySortedCardinality(s: seq<string>)
    requires StrictlySorted(s)
    ensures |set x | x in s| == |s|
  {
    if s != [] {
      StrictlySortedCardinality(s[1..]);
      assert (set x | x in s) == (set x | x in s[1..]) + {s[0]};
      assert s[0] !in s[1..] by {
        forall k | 0 <= k < |s| - 1 ensures s[1..][k] != s[0] {
          assert LexLt(s[0], s[k + 1]);
        }
      }
    }
  }
}
