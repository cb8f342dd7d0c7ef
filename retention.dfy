/**
 * The retention pass of a rotating sink (purge): which files it deletes.
 * The pass lists the files named after the base name, keeps those whose
 * suffix parses as a rotation time, and deletes all but the newest
 * maxCount of them, sparing the active file.
 */
module Retention {
  import opened Base
  import opened Strings
  import opened Sorting
  import opened Disk
  import opened Policy

  /** Every name is long enough to carry the base name in front. */
  predicate CarriesBaseName(cfg: Config, names: seq<string>) {
    forall k :: 0 <= k < |names| ==> |cfg.baseName| <= |names[k]|
  }

  /** The names purge keeps from the listing: those whose suffix parses, in the listing's order. */
  function KeepParsed(cfg: Config, names: seq<string>): seq<string>
    requires CarriesBaseName(cfg, names)
  {
    if names == [] then []
    else if SuffixParses(cfg, names[0]) then [names[0]] + KeepParsed(cfg, names[1..])
    else KeepParsed(cfg, names[1..])
  }

  /** KeepParsed keeps exactly the listed names whose suffix parses. */
  lemma {:induction false} KeepParsedMembers(cfg: Config, names: seq<string>, p: string)
    requires CarriesBaseName(cfg, names)
    ensures p in KeepParsed(cfg, names) <==> p in names && |cfg.baseName| <= |p| && SuffixParses(cfg, p)
  {
    if names != [] {
      KeepParsedMembers(cfg, names[1..], p);
      assert p in names <==> p == names[0] || p in names[1..];
    }
  }

  /** Dropping names from a sorted listing leaves it sorted. */
  lemma {:induction false} KeepParsedStrictlySorted(cfg: Config, names: seq<string>)
    requires CarriesBaseName(cfg, names) && StrictlySorted(names)
    ensures StrictlySorted(KeepParsed(cfg, names))
  {
    if names != [] {
      var rest := KeepParsed(cfg, names[1..]);
      KeepParsedStrictlySorted(cfg, names[1..]);
      if SuffixParses(cfg, names[0]) {
        forall j | 0 <= j < |rest| ensures LexLt(names[0], rest[j]) {
          KeepParsedMembers(cfg, names[1..], rest[j]);
          var k :| 0 <= k < |names[1..]| && names[1..][k] == rest[j];
          assert names[k + 1] == rest[j];
        }
      }
    }
  }

  /**
   * The filtering loop of purge: walk the listing, and delete in place
   * every name whose suffix does not parse.
   */
  method FilterParsed(cfg: Config, listing: seq<string>) returns (names: seq<string>)
    requires CarriesBaseName(cfg, listing)
    ensures names == KeepParsed(cfg, listing)
  {
    names := listing;
    var i, n := 0, |names|;
    while i < n
      invariant n == |names| && 0 <= i <= n
      invariant CarriesBaseName(cfg, names)
      invariant names[..i] + KeepParsed(cfg, names[i..]) == KeepParsed(cfg, listing)
      decreases n - i
    {
      if SuffixParses(cfg, names[i]) {
        assert names[i..] == [names[i]] + names[i + 1..];
        assert names[..i + 1] == names[..i] + [names[i]];
        i := i + 1;
      } else {
        assert names[i..] == [names[i]] + names[i + 1..];
        names := names[..i] + names[i + 1..];
        assert names[..i] + names[i..] == names;
        n := n - 1;
      }
    }
    assert names[..i] == names;
  }

  /** The files purge counts: listed under the base name, with a suffix that parses. */
  function Survivors(cfg: Config, entries: Entries): set<string> {
    set p | p in entries && GlobMatch(cfg.baseName, p) && SuffixParses(cfg, p)
  }

  /** The names a listing holds. */
  function Elements(s: seq<string>): set<string> {
    set x | x in s
  }

  /** The counted files that sort after `x`: the ones newer than it. */
  function Above(s: set<string>, x: string): set<string> {
    set y | y in s && LexLt(x, y)
  }

  /**
   * What purge deletes: nothing when maxCount is not positive; otherwise
   * every counted file with at least maxCount newer ones, except the
   * active file.
   */
  function Doomed(cfg: Config, entries: Entries, active: Option<string>): set<string> {
    if cfg.maxCount <= 0 then {} else Outranked(Survivors(cfg, entries), cfg.maxCount, active)
  }

  /** The files of `s` with at least `maxCount` newer ones, except the active file. */
  function Outranked(s: set<string>, maxCount: int, active: Option<string>): set<string> {
    set x | x in s && Some(x) != active && |Above(s, x)| >= maxCount
  }

  /** In a sorted listing without repetitions, the element at `i` has exactly the later ones above it. */
  lemma RankInSorted(s: seq<string>, i: nat)
    requires StrictlySorted(s) && i < |s|
    ensures |Above(Elements(s), s[i])| == |s| - 1 - i
  {
    var later := s[i + 1..];
    assert StrictlySorted(later);
    StrictlySortedCardinality(later);
    forall y ensures y in Above(Elements(s), s[i]) <==> y in later {
      if y in later {
        var k :| 0 <= k < |later| && later[k] == y;
        StrictlySortedOrder(s, i, i + 1 + k);
      }
      if y in s && LexLt(s[i], y) {
        var k :| 0 <= k < |s| && s[k] == y;
        StrictlySortedOrder(s, i, k);
        assert y == later[k - i - 1];
      }
    }
    assert Above(Elements(s), s[i]) == Elements(later);
  }

  /**
   * Over the sorted listing of the counted files, purge's rule "delete
   * the first len - maxCount names, skipping the active one" deletes
   * exactly Doomed.
   */
  lemma DoomedOfSorted(cfg: Config, entries: Entries, active: Option<string>, s: seq<string>)
    requires StrictlySorted(s) && Elements(s) == Survivors(cfg, entries)
    requires cfg.maxCount > 0
    ensures Doomed(cfg, entries, active) ==
      set k | 0 <= k < |s| - cfg.maxCount && Some(s[k]) != active :: s[k]
  {
    var byIndex := set k | 0 <= k < |s| - cfg.maxCount && Some(s[k]) != active :: s[k];
    forall x ensures x in Doomed(cfg, entries, active) <==> x in byIndex {
      if x in byIndex {
        var k :| 0 <= k < |s| - cfg.maxCount && Some(s[k]) != active && s[k] == x;
        RankInSorted(s, k);
      }
      if x in Doomed(cfg, entries, active) {
        var k :| 0 <= k < |s| && s[k] == x;
        RankInSorted(s, k);
      }
    }
  }

  /** Some sorted listing without repetitions holds exactly the files of a set. */
  lemma {:induction false} SortedListing(names: set<string>) returns (s: seq<string>)
    ensures StrictlySorted(s) && Elements(s) == names
    decreases names
  {
    if names == {} {
      s := [];
    } else {
      var x := SomeElement(names);
      var rest := SortedListing(names - {x});
      InsertStrictlySorted(x, rest);
      s := Insert(x, rest);
      forall y ensures y in Elements(s) <==> y in names {
        assert (y in s) == (y in multiset(s));
        assert (y in rest) == (y in multiset(rest));
        assert (y in rest) == (y in Elements(rest));
      }
    }
  }

  /** A counted file is above fewer than all the counted files. */
  lemma AboveExcludesSelf(s: set<string>, x: string)
    requires x in s
    ensures |Above(s, x)| < |s|
  {
    assert Above(s, x) <= s - {x};
    SubsetCardinality(Above(s, x), s - {x});
  }

  lemma {:induction false} SubsetCardinality(a: set<string>, b: set<string>)
    requires a <= b
    ensures |a| <= |b|
    decreases b
  {
    if a != {} {
      var x := SomeElement(a);
      SubsetCardinality(a - {x}, b - {x});
    }
  }

  /** With no more than maxCount counted files, purge deletes nothing. */
  lemma DoomedNoneWhenFew(cfg: Config, entries: Entries, active: Option<string>)
    requires |Survivors(cfg, entries)| <= cfg.maxCount
    ensures Doomed(cfg, entries, active) == {}
  {
    if cfg.maxCount > 0 {
      forall x | x in Survivors(cfg, entries) ensures |Above(Survivors(cfg, entries), x)| < cfg.maxCount {
        AboveExcludesSelf(Survivors(cfg, entries), x);
      }
    }
  }

  /**
   * Purge only deletes counted files and never the active one, and it
   * deletes the oldest first: a counted file older than a deleted one is
   * deleted too, unless it is the active one.
   */
  lemma DoomedAreOldest(cfg: Config, entries: Entries, active: Option<string>, x: string, y: string)
    requires y in Doomed(cfg, entries, active)
    requires x in Survivors(cfg, entries) && LexLt(x, y) && Some(x) != active
    ensures x in Doomed(cfg, entries, active)
  {
    var s := Survivors(cfg, entries);
    forall z | z in Above(s, y) ensures z in Above(s, x) {
      LexLeTransitive(x, y, z);
      if x == z {
        LexLeAntisymmetric(y, z);
      }
    }
    SubsetCardinality(Above(s, y), Above(s, x));
  }

  /**
   * With formatting that sorts as time does, a file rotated to earlier
   * is deleted no later than a file rotated to afterwards.
   */
  lemma EarlierRotationsGoFirst(cfg: Config, entries: Entries, active: Option<string>, t1: int, t2: int)
    requires FormatMonotone(cfg.naming, cfg.layout) && t1 <= t2
    requires Candidate(cfg, t2) in Doomed(cfg, entries, active)
    requires Candidate(cfg, t1) in Survivors(cfg, entries) && Some(Candidate(cfg, t1)) != active
    ensures Candidate(cfg, t1) in Doomed(cfg, entries, active)
  {
    CandidatesMonotone(cfg, t1, t2);
    if Candidate(cfg, t1) != Candidate(cfg, t2) {
      DoomedAreOldest(cfg, entries, active, Candidate(cfg, t1), Candidate(cfg, t2));
    }
  }

  /** The last maxCount names of the sorted listing are exactly the counted files with fewer than maxCount newer ones. */
  lemma NewestByRank(s: set<string>, listing: seq<string>, maxCount: int, x: string)
    requires StrictlySorted(listing) && Elements(listing) == s
    requires 0 < maxCount <= |listing| && x in s
    ensures x in Elements(listing[|listing| - maxCount..]) <==> |Above(s, x)| < maxCount
  {
    var m := |listing| - maxCount;
    var k :| 0 <= k < |listing| && listing[k] == x;
    RankInSorted(listing, k);
    if x in Elements(listing[m..]) {
      var j :| 0 <= j < |listing[m..]| && listing[m..][j] == x;
      assert listing[m + j] == x;
    }
  }

  /**
   * Purge leaves the newest maxCount counted files, plus the active file
   * when it would otherwise have gone.
   */
  lemma KeepsNewest(cfg: Config, entries: Entries, active: Option<string>)
    requires cfg.maxCount > 0 && |Survivors(cfg, entries)| > cfg.maxCount
    ensures var s := Survivors(cfg, entries);
      var spared := active.Some? && active.value in s && |Above(s, active.value)| >= cfg.maxCount;
      |s - Doomed(cfg, entries, active)| == cfg.maxCount + (if spared then 1 else 0)
  {
    OutrankedLeavesNewest(Survivors(cfg, entries), cfg.maxCount, active);
  }

  lemma OutrankedLeavesNewest(s: set<string>, maxCount: int, active: Option<string>)
    requires 0 < maxCount < |s|
    ensures var spared := active.Some? && active.value in s && |Above(s, active.value)| >= maxCount;
      |s - Outranked(s, maxCount, active)| == maxCount + (if spared then 1 else 0)
  {
    var listing := SortedListing(s);
    StrictlySortedCardinality(listing);
    var newest := listing[|listing| - maxCount..];
    assert StrictlySorted(newest);
    StrictlySortedCardinality(newest);
    var newestSet := Elements(newest);
    var spared := active.Some? && active.value in s && |Above(s, active.value)| >= maxCount;
    var kept := s - Outranked(s, maxCount, active);
    forall x | x in s ensures x in kept <==> x in newestSet || (spared && x == active.value) {
      NewestByRank(s, listing, maxCount, x);
    }
    assert newestSet <= s;
    if spared {
      NewestByRank(s, listing, maxCount, active.value);
      assert kept == newestSet + {active.value};
    } else {
      assert kept == newestSet;
    }
  }
}
