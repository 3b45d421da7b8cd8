/** The category filter: the stored list of excluded category ids, its edit
    when a category pill is toggled, and the re-filtering of the cached
    snapshot that closing the configuration panel performs.

    The list is stored as the text `JSON.stringify` gives it. The re-filter
    tests each item's category id against that TEXT with a substring test, not
    against the list: an id that occurs as a piece of a longer id's digits is
    excluded too (the text "[10]" excludes category 1 and the unknown id 0). */
module Filters {
  import opened Common
  import opened Feed

  /** The decimal texts of the ids. */
  function Texts(f: seq<nat>): (r: seq<string>)
    ensures |r| == |f|
  {
    if f == [] then [] else [NatToString(f[0])] + Texts(f[1..])
  }

  /** `JSON.stringify` of a list of ids: "[" ids joined by "," "]". */
  function FilterJson(f: seq<nat>): (r: string)
    ensures |r| >= 2 && r[0] == '[' && r[|r| - 1] == ']'
    ensures f == [] <==> r == "[]"
  {
    "[" + Join(Texts(f), ",") + "]"
  }

  /** The text read from a filter key, with "[]" when the key is absent. */
  function FilterText(f: Option<seq<nat>>): (r: string)
    ensures f.None? ==> r == "[]"
  {
    FilterJson(f.GetOr([]))
  }

  predicate Sorted(s: seq<nat>) {
    forall i, j :: 0 <= i < j < |s| ==> s[i] <= s[j]
  }

  /** An element no larger than the head of an ascending list extends it. */
  lemma ConsSorted(h: nat, t: seq<nat>)
    requires Sorted(t) && (t == [] || h <= t[0])
    ensures Sorted([h] + t)
  {
    var r := [h] + t;
    forall i, j | 0 <= i < j < |r|
      ensures r[i] <= r[j]
    {
      if i > 0 {
        assert r[i] == t[i - 1] && r[j] == t[j - 1];
      } else {
        assert r[j] == t[j - 1] && t[0] <= t[j - 1];
      }
    }
  }

  /** `x` placed into the sorted list `s`, before the first larger-or-equal element. */
  function Insert(x: nat, s: seq<nat>): (r: seq<nat>)
    requires Sorted(s)
    ensures Sorted(r)
    ensures multiset(r) == multiset(s) + multiset{x}
    ensures |r| == |s| + 1
    ensures r[0] == x || (s != [] && r[0] == s[0])
  {
    if s == [] || x <= s[0] then
      ConsSorted(x, s);
      [x] + s
    else
      SortedTail(s);
      var t := Insert(x, s[1..]);
      assert s == [s[0]] + s[1..];
      ConsSorted(s[0], t);
      [s[0]] + t
  }

  /** `Array.prototype.sort((a, b) => a - b)`: the ascending permutation (for
      numbers the result does not depend on the sorting algorithm). */
  function SortAscending(s: seq<nat>): (r: seq<nat>)
    ensures Sorted(r)
    ensures multiset(r) == multiset(s)
    ensures |r| == |s|
  {
    if s == [] then []
    else
      assert s == [s[0]] + s[1..];
      Insert(s[0], SortAscending(s[1..]))
  }

  /** The position `Array.prototype.splice(start, 1)` removes from: a negative
      start counts from the end (and stops at 0); a start at or past the end
      removes nothing. */
  function SpliceStart(len: nat, start: int): (k: nat)
    ensures start >= 0 ==> k == start
    ensures start < 0 ==> k < len || len == 0
    ensures start < 0 && len + start >= 0 ==> k == len + start
  {
    if start < 0 then (if len + start < 0 then 0 else len + start) else start
  }

  /** `Array.prototype.splice(start, 1)`, keeping what remains. */
  function SpliceOne(s: seq<nat>, start: int): (r: seq<nat>)
    ensures var k := SpliceStart(|s|, start);
      && (k < |s| ==> |r| == |s| - 1 && multiset(r) == multiset(s) - multiset{s[k]})
      && (k < |s| ==> r[..k] == s[..k] && r[k..] == s[k + 1..])
      && (k >= |s| ==> r == s)
  {
    var k := SpliceStart(|s|, start);
    if k < |s| then
      assert s == s[..k] + [s[k]] + s[k + 1..];
      s[..k] + s[k + 1..]
    else s
  }

  /** The filter list after the pill of category `id` is toggled: re-checking a
      category (showing it again) splices out the element at `indexOf(id)`,
      which for an absent id is the last element; unchecking (hiding it)
      appends `id`. The list is then sorted ascending. */
  function Toggled(f: seq<nat>, checked: bool, id: nat): (r: seq<nat>)
    ensures Sorted(r)
    ensures !checked ==> |r| == |f| + 1 && multiset(r) == multiset(f) + multiset{id}
    ensures checked && id in f ==> |r| == |f| - 1 && multiset(r) == multiset(f) - multiset{id}
    ensures checked && id !in f && f != [] ==>
              |r| == |f| - 1 && multiset(r) == multiset(f) - multiset{f[|f| - 1]}
    ensures checked && f == [] ==> r == []
  {
    var edited := if checked then SpliceOne(f, IndexOf(f, id)) else f + [id];
    assert !checked ==> multiset(edited) == multiset(f) + multiset{id};
    assert checked && id in f ==> SpliceStart(|f|, IndexOf(f, id)) == IndexOf(f, id);
    assert checked && id !in f ==> SpliceStart(|f|, IndexOf(f, id)) == |f| - 1 || f == [];
    assert checked && f == [] ==> edited == [];
    SortAscending(edited)
  }

  lemma SortedHeadLeast(s: seq<nat>, v: nat)
    requires Sorted(s) && v in s
    ensures s[0] <= v
  {
  }

  lemma MultisetCancel(x: nat, p: multiset<nat>, q: multiset<nat>)
    requires multiset{x} + p == multiset{x} + q
    ensures p == q
  {
    assert forall e :: p[e] == (multiset{x} + p)[e] - multiset{x}[e];
    assert forall e :: q[e] == (multiset{x} + q)[e] - multiset{x}[e];
  }

  /** Two ascending lists with the same elements are the same list. */
  lemma {:induction false} SortedUnique(a: seq<nat>, b: seq<nat>)
    requires Sorted(a) && Sorted(b) && multiset(a) == multiset(b)
    ensures a == b
  {
    if a == [] || b == [] {
      assert |multiset(a)| == |a| && |multiset(b)| == |b|;
    } else {
      SortedHeadsAgree(a, b);
      SortedTail(a);
      SortedTail(b);
      SortedUnique(a[1..], b[1..]);
      assert a == [a[0]] + a[1..] && b == [b[0]] + b[1..];
    }
  }

  /** Two non-empty ascending lists with the same elements start alike and
      have tails with the same elements. */
  lemma SortedHeadsAgree(a: seq<nat>, b: seq<nat>)
    requires Sorted(a) && Sorted(b) && multiset(a) == multiset(b) && a != [] && b != []
    ensures a[0] == b[0] && multiset(a[1..]) == multiset(b[1..])
  {
    assert a[0] in multiset(b) && b[0] in multiset(a);
    SortedHeadLeast(a, b[0]);
    SortedHeadLeast(b, a[0]);
    var x, ta, tb := a[0], a[1..], b[1..];
    assert a == [x] + ta && b == [x] + tb;
    assert multiset(a) == multiset{x} + multiset(ta);
    assert multiset(b) == multiset{x} + multiset(tb);
    MultisetCancel(x, multiset(ta), multiset(tb));
  }

  lemma SortedTail(s: seq<nat>)
    requires Sorted(s) && s != []
    ensures Sorted(s[1..])
  {
    forall i, j | 0 <= i < j < |s| - 1
      ensures s[1..][i] <= s[1..][j]
    {
      assert s[1..][i] == s[i + 1] && s[1..][j] == s[j + 1];
    }
  }

  lemma AddThenRemove(m: multiset<nat>, x: nat)
    ensures (m + multiset{x}) - multiset{x} == m
  {
    assert forall e :: ((m + multiset{x}) - multiset{x})[e] == m[e];
  }

  lemma RemoveThenAdd(m: multiset<nat>, x: nat)
    requires x in m
    ensures (m - multiset{x}) + multiset{x} == m
  {
    assert forall e :: ((m - multiset{x}) + multiset{x})[e] == m[e];
  }

  /** Hiding a category and showing it again restores an ascending filter list. */
  lemma HideThenShowRestores(f: seq<nat>, id: nat)
    requires Sorted(f)
    ensures Toggled(Toggled(f, false, id), true, id) == f
  {
    var g := Toggled(f, false, id);
    assert multiset(g) == multiset(f) + multiset{id};
    assert id in multiset(g);
    var h := Toggled(g, true, id);
    assert multiset(h) == multiset(g) - multiset{id};
    AddThenRemove(multiset(f), id);
    SortedUnique(h, f);
  }

  /** Showing a hidden category and hiding it again restores an ascending
      filter list. */
  lemma ShowThenHideRestores(f: seq<nat>, id: nat)
    requires Sorted(f) && id in f
    ensures Toggled(Toggled(f, true, id), false, id) == f
  {
    var g := Toggled(f, true, id);
    assert multiset(g) == multiset(f) - multiset{id};
    assert id in multiset(f);
    var h := Toggled(g, false, id);
    assert multiset(h) == multiset(g) + multiset{id};
    RemoveThenAdd(multiset(f), id);
    SortedUnique(h, f);
  }

  /** The substring test of the re-filter: the text of the source's category
      id occurs somewhere in the filter text. */
  predicate ExcludedBy(filterText: string, source: Source) {
    Contains(filterText, NatToString(CategoryId(source.category)))
  }

  /** The exclusion test of the filter text `filterText`, as a test on sources. */
  function Excluder(filterText: string): Source -> bool {
    s => ExcludedBy(filterText, s)
  }

  /** An item survives the re-filter: its source exists and is not excluded. */
  predicate Kept(filterText: string, sources: seq<Source>, item: FeedItem) {
    KeptBy(Excluder(filterText), sources, item)
  }

  /** `a` is `b` with some elements left out, the others in their order. */
  predicate IsSubsequence<T(==)>(a: seq<T>, b: seq<T>)
    decreases |b|
  {
    if b == [] then a == []
    else (a != [] && a[0] == b[0] && IsSubsequence(a[1..], b[1..])) || IsSubsequence(a, b[1..])
  }

  /** The filter loop for any exclusion test `drop` on sources: nothing when
      some item's source is missing (looking up its category throws), and
      otherwise the items whose source `drop` does not exclude, in order. */
  function FilterBy(feeds: seq<FeedItem>, sources: seq<Source>, drop: Source -> bool): Option<seq<FeedItem>>
  {
    if feeds == [] then Some([])
    else
      var src := FindSource(sources, feeds[0].sourceId);
      var tail := FilterBy(feeds[1..], sources, drop);
      if src.None? || tail.None? then None
      else if drop(src.value) then tail
      else Some([feeds[0]] + tail.value)
  }

  /** An item survives the filter loop with the test `drop`. */
  predicate KeptBy(drop: Source -> bool, sources: seq<Source>, item: FeedItem) {
    var src := FindSource(sources, item.sourceId);
    src.Some? && !drop(src.value)
  }

  lemma {:induction false} FilterByFailsIffSourceMissing(feeds: seq<FeedItem>, sources: seq<Source>, drop: Source -> bool)
    ensures FilterBy(feeds, sources, drop).None?
        <==> exists x :: x in feeds && FindSource(sources, x.sourceId).None?
  {
    if feeds != [] {
      FilterByFailsIffSourceMissing(feeds[1..], sources, drop);
      assert feeds == [feeds[0]] + feeds[1..];
    }
  }

  lemma {:induction false} FilterByKeepsExactly(feeds: seq<FeedItem>, sources: seq<Source>, drop: Source -> bool)
    requires FilterBy(feeds, sources, drop).Some?
    ensures var kept := FilterBy(feeds, sources, drop).value;
      && IsSubsequence(kept, feeds)
      && (forall x :: x in kept ==> KeptBy(drop, sources, x))
      && (forall x :: x in feeds && KeptBy(drop, sources, x) ==> x in kept)
      && (forall x :: multiset(kept)[x] == if KeptBy(drop, sources, x) then multiset(feeds)[x] else 0)
  {
    if feeds != [] {
      FilterByKeepsExactly(feeds[1..], sources, drop);
      var kept := FilterBy(feeds, sources, drop).value;
      var tail := FilterBy(feeds[1..], sources, drop).value;
      assert feeds == [feeds[0]] + feeds[1..];
      assert multiset(feeds) == multiset{feeds[0]} + multiset(feeds[1..]);
      if KeptBy(drop, sources, feeds[0]) {
        assert kept == [feeds[0]] + tail;
        assert kept[1..] == tail;
        assert multiset(kept) == multiset{feeds[0]} + multiset(tail);
      } else {
        assert kept == tail;
        forall x | KeptBy(drop, sources, x)
          ensures multiset(feeds)[x] == multiset(feeds[1..])[x]
        {
          assert x != feeds[0];
        }
      }
    }
  }

  lemma {:induction false} FilterByIdempotent(feeds: seq<FeedItem>, sources: seq<Source>, drop: Source -> bool)
    requires FilterBy(feeds, sources, drop).Some?
    ensures var kept := FilterBy(feeds, sources, drop).value;
      FilterBy(kept, sources, drop) == Some(kept)
  {
    if feeds != [] {
      FilterByIdempotent(feeds[1..], sources, drop);
      var kept := FilterBy(feeds, sources, drop).value;
      var tail := FilterBy(feeds[1..], sources, drop).value;
      if !drop(FindSource(sources, feeds[0].sourceId).value) {
        assert kept == [feeds[0]] + tail;
        assert kept[1..] == tail;
      }
    }
  }

  /** `feeds.filter(...)` as `closeConfig` runs it, with the substring test. */
  function ReFilter(feeds: seq<FeedItem>, sources: seq<Source>, filterText: string): Option<seq<FeedItem>>
  {
    FilterBy(feeds, sources, Excluder(filterText))
  }

  /** The re-filter fails exactly when some item has no source. */
  lemma ReFilterFailsIffSourceMissing(feeds: seq<FeedItem>, sources: seq<Source>, filterText: string)
    ensures ReFilter(feeds, sources, filterText).None?
        <==> exists x :: x in feeds && FindSource(sources, x.sourceId).None?
  {
    FilterByFailsIffSourceMissing(feeds, sources, Excluder(filterText));
  }

  /** When every cached item has its source, the re-filter succeeds and
      yields an order-preserving subsequence of the cached items, holding every kept item as often as the cache does, and
      nothing else. */
  lemma ReFilterKeepsExactly(feeds: seq<FeedItem>, sources: seq<Source>, filterText: string)
    requires forall x :: x in feeds ==> FindSource(sources, x.sourceId).Some?
    ensures ReFilter(feeds, sources, filterText).Some?
    ensures var kept := ReFilter(feeds, sources, filterText).value;
      && IsSubsequence(kept, feeds)
      && (forall x :: x in kept ==> Kept(filterText, sources, x))
      && (forall x :: x in feeds && Kept(filterText, sources, x) ==> x in kept)
      && (forall x :: multiset(kept)[x] == if Kept(filterText, sources, x) then multiset(feeds)[x] else 0)
  {
    ReFilterFailsIffSourceMissing(feeds, sources, filterText);
    FilterByKeepsExactly(feeds, sources, Excluder(filterText));
  }

  /** When every item has its source, re-filtering succeeds and is idempotent:
      filtering the kept items again keeps them all. */
  lemma ReFilterIdempotent(feeds: seq<FeedItem>, sources: seq<Source>, filterText: string)
    requires forall x :: x in feeds ==> FindSource(sources, x.sourceId).Some?
    ensures ReFilter(feeds, sources, filterText).Some?
    ensures var kept := ReFilter(feeds, sources, filterText).value;
      ReFilter(kept, sources, filterText) == Some(kept)
  {
    ReFilterFailsIffSourceMissing(feeds, sources, filterText);
    FilterByIdempotent(feeds, sources, Excluder(filterText));
  }

  /** For a single-digit text, the digit occurs in the joined ids exactly
      when the id is in the list, as long as every id has one digit. */
  lemma {:induction false} DigitInJoined(f: seq<nat>, c: nat)
    requires forall i :: 0 <= i < |f| ==> 1 <= f[i] <= 9
    requires c <= 9
    ensures DigitChar(c) in Join(Texts(f), ",") <==> c in f
  {
    if |f| == 1 {
      DigitCharInjective(c, f[0]);
    } else if |f| > 1 {
      DigitInJoined(f[1..], c);
      DigitCharInjective(c, f[0]);
      assert Texts(f)[1..] == Texts(f[1..]);
      assert Join(Texts(f), ",") == [DigitChar(f[0])] + "," + Join(Texts(f[1..]), ",");
      assert f == [f[0]] + f[1..];
    }
  }

  /** When every id in the list and the category id have one digit, the
      substring test agrees with list membership: the quirk needs an id of
      ten or more in the list. */
  lemma SubstringTestIsMembershipForSingleDigits(f: seq<nat>, c: nat)
    requires forall i :: 0 <= i < |f| ==> 1 <= f[i] <= 9
    requires c <= 9
    ensures Contains(FilterJson(f), NatToString(c)) <==> c in f
  {
    ContainsChar(FilterJson(f), DigitChar(c));
    DigitInJoined(f, c);
    assert FilterJson(f) == ['['] + Join(Texts(f), ",") + [']'];
  }

  /** The text "[10]" (category 10, "latest", hidden) also hides the items of
      category 1 ("general") and those of unknown category, though neither
      id is in the list. */
  lemma TenAlsoHidesGeneralAndUnknown(src: Source)
    requires src.category == Some("general") || src.category.None?
    ensures ExcludedBy(FilterJson([10]), src)
    ensures CategoryId(src.category) !in [10]
  {
    assert NatToString(10) == "10" by {
      assert NatToString(1) == "1";
      assert DigitChar(0) == '0';
    }
    assert FilterJson([10]) == "[10]";
    assert Categories[0] == "general";
    var text := NatToString(CategoryId(src.category));
    assert text == "1" || text == "0";
    ContainsChar("[10]", text[0]);
    assert [text[0]] == text;
  }

  /** After `closeConfig` copies the filter text into `old-filter`, the next
      close sees no change and does not re-filter. */
  lemma CopiedFilterTextIsEqual(f: Option<seq<nat>>)
    ensures FilterText(Some(f.GetOr([]))) == FilterText(f)
  {
  }
}
