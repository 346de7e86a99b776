/** Which pages an inspection of a source represents, and shrinking the inspection
    until it fits. */
module SourceCoverage {
  import opened Basics
  import opened Sorting

  datatype Pages = Pages(first: int, last: int)

  predicate Holds(r: Pages, page: int) {
    r.first <= page <= r.last
  }

  ghost function PagesOf(r: Pages): iset<int> {
    iset page | Holds(r, page)
  }

  /** The pages of several ranges. */
  ghost function Covered(ranges: seq<Pages>): iset<int> {
    if ranges == [] then iset{} else Covered(ranges[..|ranges| - 1]) + PagesOf(ranges[|ranges| - 1])
  }

  /** Inside 1..pageCount, ascending, and with at least one page between any two. */
  predicate Separate(ranges: seq<Pages>, pageCount: int) {
    (forall i | 0 <= i < |ranges| :: 1 <= ranges[i].first <= ranges[i].last <= pageCount) &&
    (forall i, j | 0 <= i < j < |ranges| :: ranges[i].last + 1 < ranges[j].first)
  }

  /** The pages of the ranges that start in the source, up to its last page. */
  ghost function Represented(ranges: seq<Pages>, pageCount: int): iset<int> {
    iset page, i | 0 <= i < |ranges| && ranges[i].first >= 1 && page in PagesOf(ranges[i]) && page <= pageCount :: page
  }

  lemma {:induction false} InCovered(ranges: seq<Pages>, page: int)
    ensures page in Covered(ranges) <==> exists r :: r in ranges && page in PagesOf(r)
    decreases |ranges|
  {
    hide PagesOf;
    if ranges != [] {
      var front, last := ranges[..|ranges| - 1], ranges[|ranges| - 1];
      InCovered(front, page);
      assert forall r :: r in ranges <==> r in front || r == last;
    }
  }

  // ----- Sorting -----

  predicate Before(a: Pages, b: Pages) {
    a.first < b.first || (a.first == b.first && a.last <= b.last)
  }

  lemma SortedCoversTheSame(s: seq<Pages>)
    ensures Covered(Sorted(Before, s)) == Covered(s) && forall r :: r in Sorted(Before, s) <==> r in s
  {
    var t := Sorted(Before, s);
    SortedHasTheSame(Before, s);
    forall page ensures page in Covered(t) <==> page in Covered(s) {
      InCovered(s, page);
      InCovered(t, page);
    }
  }

  // ----- Merging -----

  lemma OneMore(ranges: seq<Pages>, r: Pages)
    ensures Covered(ranges + [r]) == Covered(ranges) + PagesOf(r)
  {
    assert (ranges + [r])[..|ranges|] == ranges;
  }

  lemma OneMoreRepresented(ranges: seq<Pages>, k: nat, pageCount: int)
    requires k < |ranges|
    ensures Represented(ranges[..k + 1], pageCount) ==
      Represented(ranges[..k], pageCount) +
        (if ranges[k].first >= 1 then (iset page | page in PagesOf(ranges[k]) && page <= pageCount) else iset{})
  {
    hide PagesOf;
    var front, longer := ranges[..k], ranges[..k + 1];
    assert forall i | 0 <= i < k :: longer[i] == front[i];
    assert longer[k] == ranges[k];
  }

  /** Ranges that start in the source, cut off at its last page. */
  method ValidRanges(ranges: seq<Pages>, pageCount: int) returns (valid: seq<Pages>)
    ensures forall i | 0 <= i < |valid| :: 1 <= valid[i].first <= valid[i].last <= pageCount
    ensures Covered(valid) == Represented(ranges, pageCount)
  {
    hide Represented, Covered;
    valid := [];
    assert Covered([]) == Represented(ranges[..0], pageCount) by { Nowhere(pageCount); }
    for k := 0 to |ranges|
      invariant forall i | 0 <= i < |valid| :: 1 <= valid[i].first <= valid[i].last <= pageCount
      invariant Covered(valid) == Represented(ranges[..k], pageCount)
    {
      var item := ranges[k];
      OneMoreRepresented(ranges, k, pageCount);
      if item.first < 1 || item.last < item.first || item.first > pageCount {
        continue;
      }
      if item.last > pageCount {
        item := Pages(item.first, pageCount);
      }
      OneMore(valid, item);
      valid := valid + [item];
    }
    assert ranges[..|ranges|] == ranges;
  }

  lemma Nowhere(pageCount: int)
    ensures Covered([]) == iset{} == Represented([], pageCount)
  {
  }

  /** Joining a range to the last one it overlaps or touches. */
  lemma Joined(merged: seq<Pages>, item: Pages, pageCount: int)
    requires Separate(merged, pageCount) && merged != [] && item.first <= item.last <= pageCount
    requires merged[|merged| - 1].first <= item.first <= merged[|merged| - 1].last + 1
    ensures item.last <= merged[|merged| - 1].last ==> Covered(merged) == Covered(merged) + PagesOf(item)
    ensures item.last > merged[|merged| - 1].last ==>
      var longer := merged[|merged| - 1 := Pages(merged[|merged| - 1].first, item.last)];
      Separate(longer, pageCount) && Covered(longer) == Covered(merged) + PagesOf(item)
  {
    var last := |merged| - 1;
    var wider := Pages(merged[last].first, item.last);
    var longer := merged[last := wider];
    assert longer[..last] == merged[..last];
    if item.last > merged[last].last {
      assert PagesOf(wider) == PagesOf(merged[last]) + PagesOf(item);
    } else {
      assert PagesOf(item) <= PagesOf(merged[last]);
    }
  }

  lemma Appended(merged: seq<Pages>, item: Pages, pageCount: int)
    requires Separate(merged, pageCount) && 1 <= item.first <= item.last <= pageCount
    requires merged != [] ==> merged[|merged| - 1].last + 1 < item.first
    ensures Separate(merged + [item], pageCount)
  {
    forall i | 0 <= i < |merged| ensures merged[i].last + 1 < item.first {
      assert i < |merged| - 1 ==> merged[i].last + 1 < merged[|merged| - 1].first;
    }
  }

  /** Sorts the valid ranges and joins those that overlap or touch. */
  method MergeInspectionRanges(ranges: seq<Pages>, pageCount: int) returns (merged: seq<Pages>)
    ensures Separate(merged, pageCount)
    ensures Covered(merged) == Represented(ranges, pageCount)
  {
    hide Covered, Represented, Separate, PagesOf, Sorted;
    var valid := ValidRanges(ranges, pageCount);
    var sorted := Sorted(Before, valid);
    SortedAscends(Before, valid);
    SortedCoversTheSame(valid);
    forall i | 0 <= i < |sorted| ensures 1 <= sorted[i].first <= sorted[i].last <= pageCount {
      assert sorted[i] in valid;
    }
    merged := [];
    assert Separate(merged, pageCount) by { NoRanges(pageCount); }
    for k := 0 to |sorted|
      invariant Separate(merged, pageCount)
      invariant merged != [] ==> k > 0 && merged[|merged| - 1].first <= sorted[k - 1].first
      invariant Covered(merged) == Covered(sorted[..k])
    {
      var item := sorted[k];
      assert sorted[..k + 1] == sorted[..k] + [item];
      OneMore(sorted[..k], item);
      if |merged| == 0 || item.first > merged[|merged| - 1].last + 1 {
        Appended(merged, item, pageCount);
        OneMore(merged, item);
        merged := merged + [item];
        continue;
      }
      assert k > 0 && Before(sorted[k - 1], item);
      Joined(merged, item, pageCount);
      if item.last > merged[|merged| - 1].last {
        merged := merged[|merged| - 1 := Pages(merged[|merged| - 1].first, item.last)];
      }
    }
    assert sorted[..|sorted|] == sorted;
  }

  lemma NoRanges(pageCount: int)
    ensures Separate([], pageCount)
  {
  }

  method ComplementInspectionRanges(represented: seq<Pages>, pageCount: int) returns (result: seq<Pages>)
    requires Separate(represented, pageCount)
    ensures Separate(result, pageCount)
    ensures Covered(result) == iset page | 1 <= page <= pageCount && page !in Covered(represented)
  {
    hide Covered;
    result := [];
    var next := 1;
    Nowhere(pageCount);
    assert represented[..0] == [];
    for k := 0 to |represented|
      invariant 1 <= next && (k == 0 ==> next == 1) && (k > 0 ==> next == represented[k - 1].last + 1)
      invariant Separate(result, pageCount) && (result != [] ==> result[|result| - 1].last + 1 < next)
      invariant Covered(result) == iset page | 1 <= page < next && page !in Covered(represented[..k])
      invariant forall page | page in Covered(represented[..k]) :: page < next
    {
      var item := represented[k];
      assert represented[..k + 1] == represented[..k] + [item];
      OneMore(represented[..k], item);
      if next < item.first {
        OneMore(result, Pages(next, item.first - 1));
        Appended(result, Pages(next, item.first - 1), pageCount);
        result := result + [Pages(next, item.first - 1)];
      }
      if item.last + 1 > next {
        next := item.last + 1;
      }
    }
    assert represented[..|represented|] == represented;
    if next <= pageCount {
      OneMore(result, Pages(next, pageCount));
      Appended(result, Pages(next, pageCount), pageCount);
      result := result + [Pages(next, pageCount)];
    }
  }

  lemma {:induction false} BeforeTheLast(a: seq<Pages>, pageCount: int, page: int)
    requires Separate(a, pageCount) && a != [] && page in Covered(a[..|a| - 1])
    ensures page + 1 < a[|a| - 1].first
  {
    var front := a[..|a| - 1];
    InCovered(front, page);
    var r :| r in front && page in PagesOf(r);
    var i :| 0 <= i < |front| && front[i] == r;
    assert a[i] == r;
  }

  lemma LastPages(a: seq<Pages>, pageCount: int)
    requires Separate(a, pageCount) && a != []
    ensures var x := a[|a| - 1];
      x.last in Covered(a) && x.first in Covered(a) && x.first - 1 !in Covered(a) &&
      (forall page | page in Covered(a) :: page <= x.last) && forall page | x.first <= page <= x.last ::
        page in Covered(a)
  {
    var x := a[|a| - 1];
    var front := Covered(a[..|a| - 1]);
    forall page | page in front ensures page + 1 < x.first {
      BeforeTheLast(a, pageCount, page);
    }
  }

  lemma FrontIsTheRest(a: seq<Pages>, pageCount: int)
    requires Separate(a, pageCount) && a != []
    ensures Covered(a[..|a| - 1]) == iset page | page in Covered(a) && page < a[|a| - 1].first
  {
    var front := Covered(a[..|a| - 1]);
    forall page | page in front ensures page < a[|a| - 1].first {
      BeforeTheLast(a, pageCount, page);
    }
  }

  /** Separate ranges are determined by the pages they cover. */
  lemma {:induction false} SeparateRangesAreUnique(a: seq<Pages>, b: seq<Pages>, pageCount: int)
    requires Separate(a, pageCount) && Separate(b, pageCount) && Covered(a) == Covered(b)
    ensures a == b
    decreases |a|
  {
    hide Covered;
    if a != [] { LastPages(a, pageCount); }
    if b != [] { LastPages(b, pageCount); }
    Nowhere(pageCount);
    if a != [] && b != [] {
      var x, y := a[|a| - 1], b[|b| - 1];
      assert x.last == y.last;
      SameStart(Covered(a), x, y);
      FrontIsTheRest(a, pageCount);
      FrontIsTheRest(b, pageCount);
      SeparateRangesAreUnique(a[..|a| - 1], b[..|b| - 1], pageCount);
      assert a == a[..|a| - 1] + [x] && b == b[..|b| - 1] + [y];
    }
  }

  lemma SameStart(pages: iset<int>, x: Pages, y: Pages)
    requires x.last == y.last && x.first <= x.last && y.first <= y.last && x.first - 1 !in pages
    requires y.first - 1 !in pages
    requires forall page | x.first <= page <= x.last :: page in pages
    requires forall page | y.first <= page <= y.last :: page in pages
    ensures x == y
  {
    assert x.first < y.first ==> y.first - 1 in pages;
    assert y.first < x.first ==> x.first - 1 in pages;
  }

  // ----- Fitting an inspection -----

  /** `about` stands for the fields that never change. */
  datatype Entry = Entry(pages: Pages, preview: string, evidence: seq<string>, previewOmitted: bool, about: string)
  datatype Coverage = Coverage(represented: seq<Pages>, uncovered: seq<Pages>, omittedEntries: int,
    omittedPreviews: int, truncated: bool)
  datatype Inspection = Inspection(abstractText: Option<string>, entries: seq<Entry>, coverage: Coverage, about: string)

  function RangesOf(entries: seq<Entry>): (r: seq<Pages>)
    ensures |r| == |entries| && forall i | 0 <= i < |r| :: r[i] == entries[i].pages
  {
    seq(|entries|, i requires 0 <= i < |entries| => entries[i].pages)
  }

  function OmittedPreviews(entries: seq<Entry>, available: seq<bool>): nat {
    if entries == [] then 0
    else
      var n := |entries| - 1;
      OmittedPreviews(entries[..n], available) +
        (if n < |available| && available[n] && entries[n].preview == "" then 1 else 0)
  }

  /** The coverage is that of the entries that are left: represented and uncovered
      pages together are 1..pageCount, and none is both. */
  ghost predicate CoverageFits(
    c: Coverage, entries: seq<Entry>, totalEntries: int, pageCount: int, available: seq<bool>) {
    && Separate(c.represented, pageCount) && Separate(c.uncovered, pageCount)
    && Covered(c.represented) == Represented(RangesOf(entries), pageCount)
    && Covered(c.uncovered) == (iset page | 1 <= page <= pageCount && page !in Covered(c.represented))
    && c.omittedEntries == totalEntries - |entries|
    && c.omittedPreviews == OmittedPreviews(entries, available)
    && (c.truncated <==> c.omittedEntries > 0 || c.omittedPreviews > 0 || c.uncovered != [])
  }

  method RefreshInspectionCoverage(entries: seq<Entry>, totalEntries: int, pageCount: int, available: seq<bool>)
    returns (c: Coverage)
    ensures CoverageFits(c, entries, totalEntries, pageCount, available)
  {
    hide Separate, Covered, Represented;
    var ranges: seq<Pages> := [];
    var omittedPreviews := 0;
    for i := 0 to |entries|
      invariant ranges == RangesOf(entries[..i]) && omittedPreviews == OmittedPreviews(entries[..i], available)
    {
      assert entries[..i + 1][..i] == entries[..i];
      ranges := ranges + [entries[i].pages];
      if i < |available| && available[i] && entries[i].preview == "" {
        omittedPreviews := omittedPreviews + 1;
      }
    }
    assert entries[..|entries|] == entries;
    var represented := MergeInspectionRanges(ranges, pageCount);
    var uncovered := ComplementInspectionRanges(represented, pageCount);
    var omittedEntries := totalEntries - |entries|;
    c := Coverage(represented, uncovered, omittedEntries, omittedPreviews,
      omittedEntries > 0 || omittedPreviews > 0 || |uncovered| > 0);
  }

  function TruncateRunes(value: string, limit: int): (r: string)
    ensures r <= value && (limit <= 0 ==> r == "") && (0 < limit <= |value| ==> |r| == limit)
  {
    if limit <= 0 then "" else if |value| <= limit then value else value[..limit]
  }

  const MINIMUM_PREVIEW := 48

  function PreviewRunes(entries: seq<Entry>): nat {
    if entries == [] then 0 else PreviewRunes(entries[..|entries| - 1]) + |entries[|entries| - 1].preview|
  }

  lemma {:induction false} ShorterPreview(entries: seq<Entry>, i: nat, shorter: Entry)
    requires i < |entries| && |shorter.preview| < |entries[i].preview|
    ensures PreviewRunes(entries[i := shorter]) < PreviewRunes(entries)
    decreases |entries|
  {
    var n := |entries| - 1;
    if i < n {
      ShorterPreview(entries[..n], i, shorter);
      assert entries[i := shorter][..n] == entries[..n][i := shorter];
    } else {
      assert entries[i := shorter][..n] == entries[..n];
    }
  }

  method LongestPreview(entries: seq<Entry>) returns (longest: int, longestRunes: nat)
    ensures longestRunes > 0 ==> 0 <= longest < |entries| && |entries[longest].preview| == longestRunes
    ensures forall i | 0 <= i < |entries| :: |entries[i].preview| <= longestRunes
  {
    longest, longestRunes := -1, 0;
    for i := 0 to |entries|
      invariant longestRunes > 0 ==> 0 <= longest < i && |entries[longest].preview| == longestRunes
      invariant forall j | 0 <= j < i :: |entries[j].preview| <= longestRunes
    {
      if |entries[i].preview| > longestRunes {
        longest, longestRunes := i, |entries[i].preview|;
      }
    }
  }

  /** An entry as it was, or with a shorter preview: cut, or gone together with its
      evidence. */
  predicate ShrunkFrom(e: Entry, was: Entry) {
    e.pages == was.pages && e.about == was.about && e.preview <= was.preview &&
    (e == was || e.previewOmitted || (e.evidence == was.evidence && |e.preview| >= MINIMUM_PREVIEW / 2)) &&
    (e.previewOmitted && !was.previewOmitted ==> e.preview == "" && e.evidence == [])
  }

  predicate AllShrunkFrom(entries: seq<Entry>, were: seq<Entry>) {
    |entries| <= |were| && forall i | 0 <= i < |entries| :: ShrunkFrom(entries[i], were[i])
  }

  lemma ShrinkOne(entries: seq<Entry>, were: seq<Entry>, i: nat, shorter: Entry)
    requires AllShrunkFrom(entries, were) && i < |entries| && ShrunkFrom(shorter, were[i])
    ensures AllShrunkFrom(entries[i := shorter], were)
  {
    hide ShrunkFrom;
  }

  /** The longest preview, halved, or gone if less than the minimum would be left. */
  function Shorter(e: Entry): Entry {
    var half := |e.preview| / 2;
    if half < MINIMUM_PREVIEW then e.(preview := "", previewOmitted := true, evidence := [])
    else e.(preview := TruncateRunes(e.preview, half))
  }

  lemma ShorterShrinks(e: Entry, was: Entry)
    requires ShrunkFrom(e, was) && e.preview != ""
    ensures ShrunkFrom(Shorter(e), was) && |Shorter(e).preview| < |e.preview|
  {
  }

  /** Nothing is left that could be dropped. */
  predicate Bare(i: Inspection) {
    i.abstractText.None? && |i.entries| <= 1 && forall k | 0 <= k < |i.entries| :: i.entries[k].preview == ""
  }

  predicate NoPreviews(i: Inspection) {
    forall k | 0 <= k < |i.entries| :: i.entries[k].preview == ""
  }

  function AbstractRunes(i: Inspection): nat {
    if i.abstractText.Some? then |i.abstractText.value| else 0
  }

  /** Neither the abstract nor any preview is longer than this. */
  predicate NoTextOver(i: Inspection, runes: nat) {
    AbstractRunes(i) <= runes && forall k | 0 <= k < |i.entries| :: |i.entries[k].preview| <= runes
  }

  /** The longest text there can have been when one was cut to `runes`. */
  function BeforeCut(runes: nat): nat {
    if runes == 0 then 2 * MINIMUM_PREVIEW - 1 else 2 * runes + 1
  }

  /** Only what was the longest text was cut: nothing that is left is longer than what
      a cut text was before it. */
  predicate LongestFirst(i: Inspection, was: Inspection)
    requires |i.entries| <= |was.entries|
  {
    (AbstractRunes(i) < AbstractRunes(was) ==> NoTextOver(i, 2 * AbstractRunes(i) + 1) || NoPreviews(i)) &&
    forall k | 0 <= k < |i.entries| && |i.entries[k].preview| < |was.entries[k].preview| ::
      NoTextOver(i, BeforeCut(|i.entries[k].preview|))
  }

  /** The abstract is dropped only when no preview is left, an entry only when there is
      no abstract either. */
  predicate GivenUpInOrder(i: Inspection, was: Inspection) {
    |i.entries| <= |was.entries| && LongestFirst(i, was) &&
    (i.abstractText.Some? ==> was.abstractText.Some? && i.abstractText.value <= was.abstractText.value) &&
    (i.abstractText.None? && was.abstractText.Some? ==> NoPreviews(i)) &&
    (|i.entries| < |was.entries| ==> i.abstractText.None? && NoPreviews(i))
  }

  /** With the entry after these it would still be too large. */
  ghost predicate NextEntryIsTooMuch(
    size: Inspection -> nat, limit: nat, i: Inspection, totalEntries: int, pageCount: int, available: seq<bool>)
  {
    exists more: Inspection ::
      |more.entries| == |i.entries| + 1 && more.entries[..|i.entries|] == i.entries && more.abstractText.None? &&
      NoPreviews(more) && more.about == i.about && size(more) > limit &&
      CoverageFits(more.coverage, more.entries, totalEntries, pageCount, available)
  }

  /** With its coverage the inspection is too large as it was given. */
  ghost predicate AllIsTooMuch(
    size: Inspection -> nat, limit: nat, i: Inspection, totalEntries: int, pageCount: int, available: seq<bool>)
  {
    exists c :: CoverageFits(c, i.entries, totalEntries, pageCount, available) && size(i.(coverage := c)) > limit
  }

  predicate SameTexts(i: Inspection, was: Inspection) {
    i.entries == was.entries && i.abstractText == was.abstractText
  }

  /** Shrinks an inspection until its encoding fits. The longest text is cut first,
      abstract or preview; the abstract is dropped when no preview is left, then
      entries from the end. Nothing is given up before the inspection with it was
      found too large, and it fails only if not even a bare inspection fits. */
  method FitSourceInspectionResult(
    size: Inspection -> nat, limit: nat, result: Inspection, totalEntries: int, pageCount: int,
    previewAvailable: seq<bool>)
    returns (r: Option<Inspection>)
    requires |previewAvailable| >= |result.entries|
    ensures r.Some? ==>
      size(r.value) <= limit && AllShrunkFrom(r.value.entries, result.entries) && r.value.about == result.about
    ensures r.Some? ==> CoverageFits(r.value.coverage, r.value.entries, totalEntries, pageCount, previewAvailable)
    ensures r.Some? && result.entries != [] ==> r.value.entries != []
    ensures r.Some? ==> GivenUpInOrder(r.value, result)
    ensures r.Some? && |r.value.entries| < |result.entries| ==>
      NextEntryIsTooMuch(size, limit, r.value, totalEntries, pageCount, previewAvailable)
    ensures r.Some? && !SameTexts(r.value, result) ==>
      AllIsTooMuch(size, limit, result, totalEntries, pageCount, previewAvailable)
    ensures r.None? ==>
      exists last: Inspection :: Bare(last) && size(last) > limit && AllShrunkFrom(last.entries, result.entries) &&
        GivenUpInOrder(last, result)
  {
    hide CoverageFits, ShrunkFrom, GivenUpInOrder, NextEntryIsTooMuch, AllIsTooMuch, SameTexts;
    var current := result;
    var available := previewAvailable;
    UnchangedIsShrunk(result);
    while true
      invariant AllShrunkFrom(current.entries, result.entries) && current.about == result.about
      invariant |current.entries| <= |available| <= |previewAvailable| && available == previewAvailable[..|available|]
      invariant result.entries != [] ==> current.entries != []
      invariant GivenUpInOrder(current, result)
      invariant |current.entries| < |result.entries| ==>
        NextEntryIsTooMuch(size, limit, current, totalEntries, pageCount, previewAvailable)
      invariant !SameTexts(current, result) ==>
        AllIsTooMuch(size, limit, result, totalEntries, pageCount, previewAvailable)
      decreases |current.entries|, if current.abstractText.Some? then 1 else 0,
        PreviewRunes(current.entries) + (if current.abstractText.Some? then |current.abstractText.value| else 0)
    {
      var coverage := RefreshInspectionCoverage(current.entries, totalEntries, pageCount, available);
      SameOmissions(coverage, current.entries, totalEntries, pageCount, available, previewAvailable);
      OtherCoverage(size, limit, current, coverage, result, totalEntries, pageCount, previewAvailable);
      current := current.(coverage := coverage);
      if size(current) <= limit {
        return Some(current);
      }
      if SameTexts(current, result) {
        TooMuch(size, limit, current, result, totalEntries, pageCount, previewAvailable);
      }
      var longest, longestRunes := LongestPreview(current.entries);
      if current.abstractText.Some? && |current.abstractText.value| > longestRunes {
        var text := TruncateRunes(current.abstractText.value, |current.abstractText.value| / 2);
        AbstractCutInOrder(current, result, text);
        current := current.(abstractText := Some(text));
        continue;
      }
      if longest >= 0 && longestRunes > 0 {
        var entry := current.entries[longest];
        var newLimit := longestRunes / 2;
        if newLimit < MINIMUM_PREVIEW {
          newLimit := 0;
        }
        var shorter := entry.(preview := TruncateRunes(entry.preview, newLimit));
        if newLimit == 0 {
          shorter := shorter.(previewOmitted := true, evidence := []);
        }
        assert shorter == Shorter(entry);
        ShorterShrinks(entry, result.entries[longest]);
        ShorterPreview(current.entries, longest, shorter);
        ShrinkOne(current.entries, result.entries, longest, shorter);
        PreviewCutInOrder(current, result, longest);
        current := current.(entries := current.entries[longest := shorter]);
        continue;
      }
      assert NoPreviews(current);
      if current.abstractText.Some? {
        AbstractDroppedInOrder(current, result);
        current := current.(abstractText := None);
        continue;
      }
      if |current.entries| > 1 {
        EntryDroppedInOrder(size, limit, current, result, totalEntries, pageCount, previewAvailable);
        current := current.(entries := current.entries[..|current.entries| - 1]);
        available := available[..|current.entries|];
        continue;
      }
      assert Bare(current);
      return None;
    }
  }

  lemma OtherCoverage(
    size: Inspection -> nat, limit: nat, i: Inspection, c: Coverage, was: Inspection, totalEntries: int, pageCount: int,
    available: seq<bool>)
    ensures GivenUpInOrder(i, was) ==> GivenUpInOrder(i.(coverage := c), was)
    ensures SameTexts(i.(coverage := c), was) <==> SameTexts(i, was)
    ensures NextEntryIsTooMuch(size, limit, i, totalEntries, pageCount, available) ==>
      NextEntryIsTooMuch(size, limit, i.(coverage := c), totalEntries, pageCount, available)
  {
    hide CoverageFits;
  }

  lemma TooMuch(
    size: Inspection -> nat, limit: nat, i: Inspection, was: Inspection, totalEntries: int, pageCount: int,
    available: seq<bool>)
    requires SameTexts(i, was) && i.about == was.about && size(i) > limit
    requires CoverageFits(i.coverage, i.entries, totalEntries, pageCount, available)
    ensures AllIsTooMuch(size, limit, was, totalEntries, pageCount, available)
  {
    hide CoverageFits;
    assert i == was.(coverage := i.coverage);
  }

  lemma AbstractCutInOrder(i: Inspection, was: Inspection, text: string)
    requires GivenUpInOrder(i, was) && i.abstractText.Some?
    requires forall k | 0 <= k < |i.entries| :: |i.entries[k].preview| < |i.abstractText.value|
    requires text == TruncateRunes(i.abstractText.value, |i.abstractText.value| / 2)
    ensures GivenUpInOrder(i.(abstractText := Some(text)), was) && |i.entries| == |was.entries|
  {
  }

  lemma PreviewCutInOrder(i: Inspection, was: Inspection, longest: nat)
    requires GivenUpInOrder(i, was) && longest < |i.entries| && i.entries[longest].preview != ""
    requires NoTextOver(i, |i.entries[longest].preview|)
    ensures GivenUpInOrder(i.(entries := i.entries[longest := Shorter(i.entries[longest])]), was)
    ensures |i.entries| == |was.entries|
  {
    var cut := i.(entries := i.entries[longest := Shorter(i.entries[longest])]);
    assert |cut.entries[longest].preview| < |i.entries[longest].preview|;
    forall k | 0 <= k < |cut.entries| && |cut.entries[k].preview| < |was.entries[k].preview|
      ensures NoTextOver(cut, BeforeCut(|cut.entries[k].preview|))
    {
    }
  }

  lemma AbstractDroppedInOrder(i: Inspection, was: Inspection)
    requires GivenUpInOrder(i, was) && NoPreviews(i) && i.abstractText.Some?
    ensures GivenUpInOrder(i.(abstractText := None), was) && |i.entries| == |was.entries|
  {
  }

  lemma EntryDroppedInOrder(
    size: Inspection -> nat, limit: nat, i: Inspection, was: Inspection, totalEntries: int, pageCount: int,
    available: seq<bool>)
    requires GivenUpInOrder(i, was) && NoPreviews(i) && i.abstractText.None? && i.entries != [] && size(i) > limit
    requires CoverageFits(i.coverage, i.entries, totalEntries, pageCount, available)
    ensures var fewer := i.(entries := i.entries[..|i.entries| - 1]);
      GivenUpInOrder(fewer, was) && NextEntryIsTooMuch(size, limit, fewer, totalEntries, pageCount, available)
  {
    hide CoverageFits;
  }

  lemma UnchangedIsShrunk(i: Inspection)
    ensures AllShrunkFrom(i.entries, i.entries) && GivenUpInOrder(i, i) && SameTexts(i, i)
  {
  }

  lemma {:induction false} SameOmissionCount(entries: seq<Entry>, a: seq<bool>, b: seq<bool>)
    requires |entries| <= |a| <= |b| && a == b[..|a|]
    ensures OmittedPreviews(entries, a) == OmittedPreviews(entries, b)
    decreases |entries|
  {
    if entries != [] {
      SameOmissionCount(entries[..|entries| - 1], a, b);
    }
  }

  lemma SameOmissions(c: Coverage, entries: seq<Entry>, totalEntries: int, pageCount: int, a: seq<bool>, b: seq<bool>)
    requires CoverageFits(c, entries, totalEntries, pageCount, a) && |entries| <= |a| <= |b| && a == b[..|a|]
    ensures CoverageFits(c, entries, totalEntries, pageCount, b)
  {
    hide Separate, Covered, Represented;
    SameOmissionCount(entries, a, b);
  }
}
