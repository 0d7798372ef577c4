/** Replacing an address in a program binary, in the buffer that is still being searched. */
module PatchBinary {
  import opened Bytes
  import opened Outcomes

  predicate Matches(s: seq<Byte>, needle: seq<Byte>, at: nat) {
    at + |needle| <= |s| && s[at..at + |needle|] == needle
  }

  /** Buffer.indexOf. */
  function FirstMatch(s: seq<Byte>, needle: seq<Byte>, from: nat): (r: Option<nat>)
    ensures r.Some? ==> from <= r.value && Matches(s, needle, r.value)
    ensures r.Some? ==> forall i :: from <= i < r.value ==> !Matches(s, needle, i)
    ensures r.None? ==> forall i :: from <= i ==> !Matches(s, needle, i)
    decreases |s| - from
  {
    if from > |s| then None
    else if Matches(s, needle, from) then Some(from)
    else if from == |s| then None
    else FirstMatch(s, needle, from + 1)
  }

  /** The places to replace, each the first match after the one before it. */
  function Sites(s: seq<Byte>, needle: seq<Byte>, from: nat): seq<nat>
    requires needle != []
    decreases |s| - from
  {
    match FirstMatch(s, needle, from)
    case None => []
    case Some(i) => [i] + Sites(s, needle, i + |needle|)
  }

  /** The sites cover a position. */
  predicate Covered(sites: seq<nat>, width: nat, j: nat) {
    exists k :: 0 <= k < |sites| && sites[k] <= j < sites[k] + width
  }

  /** The bytes with the replacement written over every site. */
  function Overwrite(s: seq<Byte>, sites: seq<nat>, replacement: seq<Byte>): (r: seq<Byte>)
    requires forall k :: 0 <= k < |sites| ==> sites[k] + |replacement| <= |s|
    ensures |r| == |s|
  {
    if sites == [] then s else
      var i := sites[|sites| - 1];
      var r := Overwrite(s, sites[..|sites| - 1], replacement);
      r[..i] + replacement + r[i + |replacement|..]
  }

  // ---------- what the sites are ----------

  ghost predicate AllMatch(s: seq<Byte>, needle: seq<Byte>, from: nat, sites: seq<nat>) {
    forall k :: 0 <= k < |sites| ==> from <= sites[k] && Matches(s, needle, sites[k])
  }

  ghost predicate Apart(sites: seq<nat>, width: nat) {
    forall k, m :: 0 <= k < m < |sites| ==> sites[k] + width <= sites[m]
  }

  ghost predicate CoverAll(s: seq<Byte>, needle: seq<Byte>, from: nat, sites: seq<nat>) {
    forall i: nat :: from <= i && Matches(s, needle, i) ==> Covered(sites, |needle|, i)
  }

  /** Matches that do not overlap, in order, such that every match begins inside one of them. */
  ghost predicate LeftmostDisjoint(s: seq<Byte>, needle: seq<Byte>, from: nat, sites: seq<nat>) {
    AllMatch(s, needle, from, sites) && Apart(sites, |needle|) && CoverAll(s, needle, from, sites)
  }

  lemma CoveredStep(first: nat, others: seq<nat>, width: nat, j: nat)
    ensures Covered([first] + others, width, j) <==> first <= j < first + width || Covered(others, width, j)
  {
    var sites := [first] + others;
    if Covered(others, width, j) {
      var k :| 0 <= k < |others| && others[k] <= j < others[k] + width;
      assert sites[k + 1] == others[k];
    }
    if first <= j < first + width {
      assert sites[0] == first;
    }
    if Covered(sites, width, j) {
      var k :| 0 <= k < |sites| && sites[k] <= j < sites[k] + width;
      assert k > 0 ==> others[k - 1] == sites[k];
    }
  }

  lemma AllMatchStep(s: seq<Byte>, needle: seq<Byte>, from: nat, first: nat, others: seq<nat>)
    requires from <= first && Matches(s, needle, first) && AllMatch(s, needle, first + |needle|, others)
    ensures AllMatch(s, needle, from, [first] + others) && Apart([first], |needle|)
  {
    hide Matches;
    var sites := [first] + others;
    forall k | 0 <= k < |sites|
      ensures from <= sites[k] && Matches(s, needle, sites[k])
    {
      assert k > 0 ==> sites[k] == others[k - 1];
    }
  }

  lemma ApartStep(first: nat, others: seq<nat>, width: nat)
    ensures Apart([first] + others, width) <==>
              Apart(others, width) && forall m :: 0 <= m < |others| ==> first + width <= others[m]
  {
    var sites := [first] + others;
    assert forall k :: 0 < k < |sites| ==> sites[k] == others[k - 1];
    assert forall m :: 0 <= m < |others| ==> others[m] == sites[m + 1];
    if Apart(others, width) && forall m :: 0 <= m < |others| ==> first + width <= others[m] {
      forall k, m | 0 <= k < m < |sites|
        ensures sites[k] + width <= sites[m]
      {
        assert sites[m] == others[m - 1];
        assert k > 0 ==> others[k - 1] + width <= others[m - 1];
      }
    }
    if Apart(sites, width) {
      forall m | 0 <= m < |others|
        ensures first + width <= others[m]
      {
        assert sites[0] + width <= sites[m + 1];
      }
      forall k, m | 0 <= k < m < |others|
        ensures others[k] + width <= others[m]
      {
        assert sites[k + 1] + width <= sites[m + 1];
      }
    }
  }

  lemma CoverStep(s: seq<Byte>, needle: seq<Byte>, from: nat, first: nat, others: seq<nat>)
    requires FirstMatch(s, needle, from) == Some(first) && CoverAll(s, needle, first + |needle|, others)
    ensures CoverAll(s, needle, from, [first] + others)
  {
    hide Matches, Covered;
    forall i: nat | from <= i && Matches(s, needle, i)
      ensures Covered([first] + others, |needle|, i)
    {
      CoveredStep(first, others, |needle|, i);
    }
  }

  lemma MatchFits(s: seq<Byte>, needle: seq<Byte>, at: nat)
    requires Matches(s, needle, at)
    ensures at + |needle| <= |s|
  {
  }

  lemma SitesUnfold(s: seq<Byte>, needle: seq<Byte>, from: nat)
    requires needle != []
    ensures FirstMatch(s, needle, from) == None ==> Sites(s, needle, from) == []
    ensures FirstMatch(s, needle, from).Some? ==>
              var i := FirstMatch(s, needle, from).value;
              Sites(s, needle, from) == [i] + Sites(s, needle, i + |needle|)
  {
    hide FirstMatch, Matches;
  }

  lemma NoSites(s: seq<Byte>, needle: seq<Byte>, from: nat)
    requires FirstMatch(s, needle, from) == None
    ensures LeftmostDisjoint(s, needle, from, [])
  {
    hide FirstMatch, Matches;
  }

  lemma {:induction false} SitesAreLeftmost(s: seq<Byte>, needle: seq<Byte>, from: nat)
    requires needle != []
    ensures LeftmostDisjoint(s, needle, from, Sites(s, needle, from))
    decreases |s| - from
  {
    hide Matches, FirstMatch, Covered, Apart, CoverAll, Sites;
    var first := FirstMatch(s, needle, from);
    SitesUnfold(s, needle, from);
    if first.None? {
      NoSites(s, needle, from);
    } else {
      MatchFits(s, needle, first.value);
      var others := Sites(s, needle, first.value + |needle|);
      SitesAreLeftmost(s, needle, first.value + |needle|);
      ApartStep(first.value, others, |needle|);
      CoverStep(s, needle, from, first.value, others);
      AllMatchStep(s, needle, from, first.value, others);
    }
  }

  /** The first of leftmost, disjoint places is the first match. */
  lemma FirstSite(s: seq<Byte>, needle: seq<Byte>, from: nat, sites: seq<nat>)
    requires needle != [] && LeftmostDisjoint(s, needle, from, sites)
    ensures FirstMatch(s, needle, from) == if sites == [] then None else Some(sites[0])
  {
    hide Matches, FirstMatch;
    var first := FirstMatch(s, needle, from);
    if sites != [] {
      assert Matches(s, needle, sites[0]);
    }
    if first.Some? {
      FirstCovered(s, needle, from, sites, first.value);
    }
  }

  lemma FirstCovered(s: seq<Byte>, needle: seq<Byte>, from: nat, sites: seq<nat>, at: nat)
    requires LeftmostDisjoint(s, needle, from, sites) && from <= at && Matches(s, needle, at)
    ensures sites != [] && sites[0] <= at
  {
    hide Matches;
    assert Covered(sites, |needle|, at);
    var k :| 0 <= k < |sites| && sites[k] <= at < sites[k] + |needle|;
    assert k > 0 ==> sites[0] + |needle| <= sites[k];
  }

  lemma OtherSites(s: seq<Byte>, needle: seq<Byte>, from: nat, sites: seq<nat>)
    requires needle != [] && sites != [] && LeftmostDisjoint(s, needle, from, sites)
    ensures LeftmostDisjoint(s, needle, sites[0] + |needle|, sites[1..])
  {
    hide Matches, Covered;
    var others := sites[1..];
    assert [sites[0]] + others == sites;
    ApartStep(sites[0], others, |needle|);
    forall i: nat | sites[0] + |needle| <= i && Matches(s, needle, i)
      ensures Covered(others, |needle|, i)
    {
      assert Covered(sites, |needle|, i);
      CoveredStep(sites[0], others, |needle|, i);
    }
    forall k | 0 <= k < |others|
      ensures sites[0] + |needle| <= others[k] && Matches(s, needle, others[k])
    {
      assert others[k] == sites[k + 1];
    }
  }

  /** No other places are leftmost and disjoint. */
  lemma {:induction false} SitesAreUnique(s: seq<Byte>, needle: seq<Byte>, from: nat, sites: seq<nat>)
    requires needle != [] && LeftmostDisjoint(s, needle, from, sites)
    ensures sites == Sites(s, needle, from)
    decreases |sites|
  {
    hide Matches, FirstMatch, LeftmostDisjoint;
    FirstSite(s, needle, from, sites);
    if sites != [] {
      OtherSites(s, needle, from, sites);
      SitesAreUnique(s, needle, sites[0] + |needle|, sites[1..]);
      assert sites == [sites[0]] + sites[1..];
    }
  }

  lemma Splice(r: seq<Byte>, at: nat, replacement: seq<Byte>)
    requires at + |replacement| <= |r|
    ensures var out := r[..at] + replacement + r[at + |replacement|..];
            && |out| == |r| && out[at..at + |replacement|] == replacement && out[..at] == r[..at]
            && forall j :: 0 <= j < |r| && !(at <= j < at + |replacement|) ==> out[j] == r[j]
  {
  }

  lemma OverwriteLast(s: seq<Byte>, sites: seq<nat>, replacement: seq<Byte>)
    requires sites != [] && forall k :: 0 <= k < |sites| ==> sites[k] + |replacement| <= |s|
    ensures var n := |sites| - 1;
            var r, at := Overwrite(s, sites[..n], replacement), sites[n];
            Overwrite(s, sites, replacement) == r[..at] + replacement + r[at + |replacement|..]
  {
  }

  lemma {:induction false} OutsideSites(s: seq<Byte>, sites: seq<nat>, replacement: seq<Byte>, j: nat)
    requires forall k :: 0 <= k < |sites| ==> sites[k] + |replacement| <= |s|
    requires j < |s| && !Covered(sites, |replacement|, j)
    ensures Overwrite(s, sites, replacement)[j] == s[j]
  {
    hide Overwrite;
    if sites == [] {
      assert Overwrite(s, [], replacement) == s by { NothingWritten(s, replacement); }
    } else {
      var n := |sites| - 1;
      assert !(sites[n] <= j < sites[n] + |replacement|);
      assert forall k :: 0 <= k < n ==> sites[..n][k] == sites[k];
      OutsideSites(s, sites[..n], replacement, j);
      OverwriteLast(s, sites, replacement);
      Splice(Overwrite(s, sites[..n], replacement), sites[n], replacement);
    }
  }

  lemma NothingWritten(s: seq<Byte>, replacement: seq<Byte>)
    ensures Overwrite(s, [], replacement) == s
  {
  }

  lemma {:induction false} InsideSite(s: seq<Byte>, sites: seq<nat>, replacement: seq<Byte>, k: nat)
    requires forall m :: 0 <= m < |sites| ==> sites[m] + |replacement| <= |s|
    requires k < |sites| && Apart(sites, |replacement|)
    ensures Overwrite(s, sites, replacement)[sites[k]..sites[k] + |replacement|] == replacement
  {
    hide Overwrite;
    var n := |sites| - 1;
    var r := Overwrite(s, sites[..n], replacement);
    OverwriteLast(s, sites, replacement);
    Splice(r, sites[n], replacement);
    if k < n {
      assert forall m :: 0 <= m < n ==> sites[..n][m] == sites[m];
      InsideSite(s, sites[..n], replacement, k);
      var out := Overwrite(s, sites, replacement);
      assert sites[k] + |replacement| <= sites[n];
      assert out[..sites[n]][sites[k]..sites[k] + |replacement|] == out[sites[k]..sites[k] + |replacement|];
      assert r[..sites[n]][sites[k]..sites[k] + |replacement|] == r[sites[k]..sites[k] + |replacement|];
    }
  }

  /** Every byte of the result: the replacement's inside a site, the original's outside. */
  lemma OverwriteAt(s: seq<Byte>, sites: seq<nat>, replacement: seq<Byte>)
    requires forall k :: 0 <= k < |sites| ==> sites[k] + |replacement| <= |s|
    requires Apart(sites, |replacement|)
    ensures forall j: nat :: j < |s| && !Covered(sites, |replacement|, j) ==>
              Overwrite(s, sites, replacement)[j] == s[j]
    ensures forall k: nat :: k < |sites| ==>
              Overwrite(s, sites, replacement)[sites[k]..sites[k] + |replacement|] == replacement
  {
    hide Overwrite, Covered, Apart;
    forall j: nat | j < |s| && !Covered(sites, |replacement|, j)
      ensures Overwrite(s, sites, replacement)[j] == s[j]
    {
      OutsideSites(s, sites, replacement, j);
    }
    forall k: nat | k < |sites|
      ensures Overwrite(s, sites, replacement)[sites[k]..sites[k] + |replacement|] == replacement
    {
      InsideSite(s, sites, replacement, k);
    }
  }

  /** The patched binary: the sites in the ORIGINAL bytes hold the replacement, all else is kept. */
  ghost predicate IsPatched(s: seq<Byte>, needle: seq<Byte>, replacement: seq<Byte>, out: seq<Byte>, occurrences: nat)
    requires needle != [] && |needle| == |replacement|
  {
    var sites := Sites(s, needle, 0);
    && LeftmostDisjoint(s, needle, 0, sites)
    && |out| == |s| && occurrences == |sites|
    && (forall k :: 0 <= k < |sites| ==>
          sites[k] + |replacement| <= |out| && out[sites[k]..sites[k] + |replacement|] == replacement)
    && (forall j: nat :: j < |s| && !Covered(sites, |replacement|, j) ==> out[j] == s[j])
  }

  // ---------- the code ----------

  method IndexOf(data: array<Byte>, needle: seq<Byte>, from: nat) returns (index: int)
    requires needle != []
    ensures index == (match FirstMatch(data[..], needle, from) case None => -1 case Some(i) => i)
  {
    var i := from;
    while i + |needle| <= data.Length
      invariant from <= i && FirstMatch(data[..], needle, from) == FirstMatch(data[..], needle, i)
      decreases data.Length - i
    {
      if data[i..i + |needle|] == needle {
        assert data[..][i..i + |needle|] == data[i..i + |needle|];
        return i;
      }
      assert data[..][i..i + |needle|] == data[i..i + |needle|];
      i := i + 1;
    }
    return -1;
  }

  method Copy(source: seq<Byte>, target: array<Byte>, at: nat)
    requires at + |source| <= target.Length
    modifies target
    ensures target[..] == old(target[..at]) + source + old(target[at + |source|..])
  {
    for i := 0 to |source|
      invariant forall j :: 0 <= j < target.Length && !(at <= j < at + i) ==> target[j] == old(target[j])
      invariant forall j :: 0 <= j < i ==> target[at + j] == source[j]
    {
      target[at + i] := source[i];
    }
  }

  /** The sites found so far, then those from the search index on. */
  ghost predicate Progress(s: seq<Byte>, needle: seq<Byte>, replacement: seq<Byte>, found: seq<nat>,
                           searchIndex: nat, now: seq<Byte>)
    requires needle != [] && |needle| == |replacement|
  {
    && Sites(s, needle, 0) == found + Sites(s, needle, searchIndex)
    && (forall k :: 0 <= k < |found| ==> found[k] + |replacement| <= |s|)
    && now == Overwrite(s, found, replacement)
    && searchIndex <= |s| && now[searchIndex..] == s[searchIndex..]
  }

  /** Past the search index the buffer is untouched, so the search there is a search of the original. */
  lemma {:induction false} SameSuffixSameMatch(a: seq<Byte>, b: seq<Byte>, needle: seq<Byte>, from: nat)
    requires from <= |a| == |b| && a[from..] == b[from..]
    ensures FirstMatch(a, needle, from) == FirstMatch(b, needle, from)
    decreases |a| - from
  {
    hide Matches;
    forall i: nat | from <= i
      ensures Matches(a, needle, i) <==> Matches(b, needle, i)
    {
      SameSuffixMatches(a, b, needle, from, i);
    }
    var x, y := FirstMatch(a, needle, from), FirstMatch(b, needle, from);
    if x.Some? && y.Some? {
      assert !(x.value < y.value) && !(y.value < x.value);
    }
  }

  lemma SameSuffixMatches(a: seq<Byte>, b: seq<Byte>, needle: seq<Byte>, from: nat, at: nat)
    requires from <= |a| == |b| && a[from..] == b[from..] && from <= at
    ensures Matches(a, needle, at) <==> Matches(b, needle, at)
  {
    if at + |needle| <= |a| {
      SliceOfSuffix(a, from, at, |needle|);
      SliceOfSuffix(b, from, at, |needle|);
    }
  }

  lemma SliceOfSuffix(a: seq<Byte>, from: nat, at: nat, n: nat)
    requires from <= at && at + n <= |a|
    ensures a[at..at + n] == a[from..][at - from..at - from + n]
  {
  }

  lemma SuffixOfSuffix(a: seq<Byte>, from: nat, at: nat)
    requires from <= at <= |a|
    ensures a[at..] == a[from..][at - from..]
  {
  }

  lemma SitesStep(s: seq<Byte>, needle: seq<Byte>, found: seq<nat>, searchIndex: nat, index: nat)
    requires needle != [] && Sites(s, needle, 0) == found + Sites(s, needle, searchIndex)
    requires FirstMatch(s, needle, searchIndex) == Some(index)
    ensures Sites(s, needle, 0) == (found + [index]) + Sites(s, needle, index + |needle|)
  {
    hide FirstMatch, Matches;
    assert found + ([index] + Sites(s, needle, index + |needle|)) ==
      (found + [index]) + Sites(s, needle, index + |needle|);
  }

  lemma OverwriteStep(s: seq<Byte>, found: seq<nat>, replacement: seq<Byte>, index: nat)
    requires forall k :: 0 <= k < |found| ==> found[k] + |replacement| <= |s|
    requires index + |replacement| <= |s|
    ensures forall k :: 0 <= k < |found + [index]| ==> (found + [index])[k] + |replacement| <= |s|
    ensures var now := Overwrite(s, found, replacement);
            Overwrite(s, found + [index], replacement) == now[..index] + replacement + now[index + |replacement|..]
  {
    assert (found + [index])[..|found|] == found;
  }

  lemma ProgressStep(s: seq<Byte>, needle: seq<Byte>, replacement: seq<Byte>, found: seq<nat>, searchIndex: nat,
                     now: seq<Byte>, index: nat)
    requires needle != [] && |needle| == |replacement| && Progress(s, needle, replacement, found, searchIndex, now)
    requires FirstMatch(now, needle, searchIndex) == Some(index)
    ensures index + |needle| <= |s| == |now|
    ensures Progress(s, needle, replacement, found + [index], index + |needle|,
                     now[..index] + replacement + now[index + |needle|..])
  {
    hide FirstMatch, Matches, Sites, Overwrite;
    SameSuffixSameMatch(now, s, needle, searchIndex);
    MatchFits(s, needle, index);
    SitesStep(s, needle, found, searchIndex, index);
    OverwriteStep(s, found, replacement, index);
    SuffixOfSuffix(now, searchIndex, index + |needle|);
    SuffixOfSuffix(s, searchIndex, index + |needle|);
  }

  method PatchSolanaBinary(data: array<Byte>, needle: seq<Byte>, replacement: seq<Byte>) returns (occurrences: nat)
    requires |needle| == |replacement| == 32
    modifies data
    ensures IsPatched(old(data[..]), needle, replacement, data[..], occurrences)
  {
    hide FirstMatch, Overwrite, Sites, Progress, IsPatched;
    ghost var before := data[..];
    ghost var found: seq<nat> := [];
    occurrences := 0;
    var searchIndex := 0;
    Begin(before, needle, replacement);
    while true
      invariant Progress(before, needle, replacement, found, searchIndex, data[..]) && occurrences == |found|
      decreases |before| - searchIndex
    {
      var index := IndexOf(data, needle, searchIndex);
      if index == -1 {
        Finish(before, needle, replacement, found, searchIndex, data[..]);
        break;
      }
      ProgressStep(before, needle, replacement, found, searchIndex, data[..], index);
      InBounds(before, needle, replacement, found, searchIndex, data[..]);
      occurrences := occurrences + 1;
      found := found + [index];
      Copy(replacement, data, index);
      searchIndex := index + |needle|;
    }
  }

  lemma Begin(s: seq<Byte>, needle: seq<Byte>, replacement: seq<Byte>)
    requires needle != [] && |needle| == |replacement|
    ensures Progress(s, needle, replacement, [], 0, s)
  {
    assert [] + Sites(s, needle, 0) == Sites(s, needle, 0);
  }

  lemma InBounds(s: seq<Byte>, needle: seq<Byte>, replacement: seq<Byte>, found: seq<nat>, searchIndex: nat,
                 now: seq<Byte>)
    requires needle != [] && |needle| == |replacement| && Progress(s, needle, replacement, found, searchIndex, now)
    ensures searchIndex <= |s| == |now|
  {
  }

  lemma Finish(s: seq<Byte>, needle: seq<Byte>, replacement: seq<Byte>, found: seq<nat>, searchIndex: nat,
               now: seq<Byte>)
    requires needle != [] && |needle| == |replacement| && Progress(s, needle, replacement, found, searchIndex, now)
    requires FirstMatch(now, needle, searchIndex) == None
    ensures IsPatched(s, needle, replacement, now, |found|)
  {
    hide FirstMatch, Matches, Overwrite, Covered, AllMatch, CoverAll;
    SameSuffixSameMatch(now, s, needle, searchIndex);
    NoMoreSites(s, needle, searchIndex);
    assert found + [] == found;
    SitesAreLeftmost(s, needle, 0);
    OverwriteAt(s, found, replacement);
  }

  lemma NoMoreSites(s: seq<Byte>, needle: seq<Byte>, from: nat)
    requires needle != [] && FirstMatch(s, needle, from) == None
    ensures Sites(s, needle, from) == []
  {
  }
}
