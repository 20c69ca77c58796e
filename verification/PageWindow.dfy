/** The links under a list in pages: both ends, the page shown and its neighbours, with gaps for the rest. */
module PageWindow {

  datatype PageLink = Page(number: int) | Gap

  function Max(a: int, b: int): int {
    if a < b then b else a
  }

  function LastOf(at: int, count: int): (last: int)
    ensures last >= 1 && last >= at && last >= count && (last == 1 || last == at || last == count)
  {
    Max(Max(count, at), 1)
  }

  function Inside(pages: set<int>, last: int): set<int> {
    set page | page in pages && 1 <= page <= last
  }

  function Base(at: int, last: int): set<int> {
    Inside({1, at - 1, at, at + 1, last}, last)
  }

  /** The pages of a set with each page that stands alone between two of them. */
  function Filled(pages: set<int>): set<int> {
    pages + (set page | page in pages :: page + 1) * (set page | page in pages :: page - 1)
  }

  lemma FilledMember(pages: set<int>, page: int)
    ensures page in Filled(pages) <==> page in pages || (page - 1 in pages && page + 1 in pages)
  {
    if page - 1 in pages && page + 1 in pages {
      assert page - 1 + 1 == page && page + 1 - 1 == page;
    }
  }

  function Reached(pages: set<int>, at: int, reach: int -> bool): set<int> {
    set page | page in pages && (page == at || reach(page))
  }

  /** The members of a set from `low` to `high`, sorted. */
  function Ascending(pages: set<int>, low: int, high: int): seq<int>
    decreases high - low
  {
    if low > high then []
    else (if low in pages then [low] else []) + Ascending(pages, low + 1, high)
  }

  predicate Climbs(pages: seq<int>) {
    forall i, j :: 0 <= i < j < |pages| ==> pages[i] < pages[j]
  }

  lemma {:induction false} AscendingShape(pages: set<int>, low: int, high: int)
    ensures Climbs(Ascending(pages, low, high))
    ensures forall page :: page in Ascending(pages, low, high) <==> page in pages && low <= page <= high
    decreases high - low
  {
    if low <= high {
      AscendingShape(pages, low + 1, high);
      var rest := Ascending(pages, low + 1, high);
      assert forall i :: 0 <= i < |rest| ==> rest[i] in rest;
    }
  }

  /** Two climbing lists of the same pages are the same list. */
  lemma {:induction false} SamePages(one: seq<int>, other: seq<int>)
    requires Climbs(one) && Climbs(other)
    requires forall page :: page in one <==> page in other
    ensures one == other
  {
    EmptyTogether(one, other);
    if one != [] {
      assert one[0] in one && other[0] in other;
      SameFirst(one, other);
      TailPages(one);
      TailPages(other);
      SamePages(one[1..], other[1..]);
    }
  }

  lemma EmptyTogether(one: seq<int>, other: seq<int>)
    requires forall page :: page in one <==> page in other
    ensures one == [] <==> other == []
  {
    if one != [] {
      var page := one[0];
      assert page in one;
    }
    if other != [] {
      var page := other[0];
      assert page in other;
    }
  }

  lemma SameFirst(one: seq<int>, other: seq<int>)
    requires Climbs(one) && Climbs(other) && one != [] && other != []
    requires one[0] in other && other[0] in one
    ensures one[0] == other[0]
  {
    var i :| 0 <= i < |other| && other[i] == one[0];
    var j :| 0 <= j < |one| && one[j] == other[0];
  }

  lemma TailPages(pages: seq<int>)
    requires Climbs(pages) && pages != []
    ensures Climbs(pages[1..]) && forall page :: page in pages[1..] <==> page in pages && page != pages[0]
  {
    assert pages == [pages[0]] + pages[1..];
  }

  /** The link of a page, with a gap before it when it does not follow the page before. */
  function LinkAfter(previous: int, page: int): seq<PageLink> {
    if page - previous > 1 then [Gap, Page(page)] else [Page(page)]
  }

  /** The links of pages that climb, after the page `previous` and up to `last`. */
  function LinksOf(shown: seq<int>, previous: int, last: int): seq<PageLink>
    decreases |shown|
  {
    if shown == [] then (if previous < last then [Gap] else [])
    else LinkAfter(previous, shown[0]) + LinksOf(shown[1..], shown[0], last)
  }

  function Shown(at: int, last: int, reach: int -> bool): seq<int> {
    Ascending(Reached(Filled(Base(at, last)), at, reach), 1, last)
  }

  function Window(at: int, count: int, reach: int -> bool): seq<PageLink> {
    LinksOf(Shown(at, LastOf(at, count), reach), 0, LastOf(at, count))
  }

  // ---------- the loops of the source ----------

  /** What the first loop added after `n` turns: the page before each that is two after the one before it. */
  function Added(sorted: seq<int>, n: nat): set<int>
    requires n <= |sorted|
  {
    if n <= 1 then {}
    else Added(sorted, n - 1) + if sorted[n - 1] - sorted[n - 2] == 2 then {sorted[n - 1] - 1} else {}
  }

  lemma {:induction false} AddedHas(sorted: seq<int>, n: nat, i: nat)
    requires 0 < i < n <= |sorted| && sorted[i] - sorted[i - 1] == 2
    ensures sorted[i] - 1 in Added(sorted, n)
  {
    if i < n - 1 {
      AddedHas(sorted, n - 1, i);
    }
  }

  lemma {:induction false} AddedFrom(sorted: seq<int>, n: nat, page: int)
    requires n <= |sorted| && page in Added(sorted, n)
    ensures page - 1 in sorted && page + 1 in sorted
  {
    if page in Added(sorted, n - 1) {
      AddedFrom(sorted, n - 1, page);
    } else {
      assert sorted[n - 1] in sorted && sorted[n - 2] in sorted;
    }
  }

  /** The first loop adds the pages that stand alone between two of them. */
  lemma AddedAll(pages: set<int>, sorted: seq<int>)
    requires Climbs(sorted) && forall page :: page in sorted <==> page in pages
    ensures pages + Added(sorted, |sorted|) == Filled(pages)
  {
    forall page
      ensures page in pages || page in Added(sorted, |sorted|) <==> page in Filled(pages)
    {
      FilledMember(pages, page);
      if page in Added(sorted, |sorted|) {
        AddedFrom(sorted, |sorted|, page);
      } else if page !in pages && page - 1 in pages && page + 1 in pages {
        AloneIsAdded(sorted, page);
      }
    }
  }

  lemma AloneIsAdded(sorted: seq<int>, page: int)
    requires Climbs(sorted) && page !in sorted && page - 1 in sorted && page + 1 in sorted
    ensures page in Added(sorted, |sorted|)
  {
    var i :| 0 <= i < |sorted| && sorted[i] == page - 1;
    var j :| 0 <= j < |sorted| && sorted[j] == page + 1;
    assert i < j;
    assert sorted[i + 1] in sorted;
    assert j == i + 1;
    AddedHas(sorted, |sorted|, j);
  }

  method PagesOf(at: int, last: int, reach: int -> bool) returns (shown: seq<int>)
    ensures shown == Shown(at, last, reach)
  {
    var base := Base(at, last);
    var wanted := base;
    var sorted := Ascending(base, 1, last);
    AscendingShape(base, 1, last);
    for index := 0 to |sorted|
      invariant wanted == base + Added(sorted, index)
    {
      if index > 0 && sorted[index] - sorted[index - 1] == 2 {
        wanted := wanted + {sorted[index] - 1};
      }
    }
    AddedAll(base, sorted);
    shown := Ascending(Reached(wanted, at, reach), 1, last);
  }

  function Previous(shown: seq<int>, n: nat, start: int): int
    requires n <= |shown|
  {
    if n == 0 then start else shown[n - 1]
  }

  /** The links of the first pages, before the end is known. */
  function LinksTo(shown: seq<int>, n: nat, start: int): seq<PageLink>
    requires n <= |shown|
    decreases n
  {
    if n == 0 then [] else LinksTo(shown, n - 1, start) + LinkAfter(Previous(shown, n - 1, start), shown[n - 1])
  }

  lemma {:induction false} LinksSplit(shown: seq<int>, n: nat, start: int, last: int)
    requires n <= |shown|
    ensures LinksOf(shown, start, last) ==
      LinksTo(shown, n, start) + LinksOf(shown[n..], Previous(shown, n, start), last)
    decreases n
  {
    if n > 0 {
      LinksSplit(shown, n - 1, start, last);
      assert shown[n - 1..][1..] == shown[n..];
    }
  }

  method FindWindow(at: int, count: int, reach: int -> bool) returns (links: seq<PageLink>)
    ensures links == Window(at, count, reach)
  {
    var last := LastOf(at, count);
    var shown := PagesOf(at, last, reach);
    links := [];
    var previous := 0;
    for i := 0 to |shown|
      invariant links == LinksTo(shown, i, 0)
      invariant previous == Previous(shown, i, 0)
    {
      if shown[i] - previous > 1 {
        links := links + [Gap];
      }
      links := links + [Page(shown[i])];
      previous := shown[i];
    }
    if previous < last {
      links := links + [Gap];
    }
    LinksSplit(shown, |shown|, 0, last);
  }

  // ---------- what a list of links says ----------

  function PagesIn(links: seq<PageLink>): seq<int> {
    if links == [] then []
    else (if links[0].Page? then [links[0].number] else []) + PagesIn(links[1..])
  }

  /**
   * A gap stands exactly where pages are missing, and never beside another: two pages side by side
   * follow each other, the list opens on a gap or right after `start`, and ends on a gap or on `last`.
   */
  predicate GapsRight(links: seq<PageLink>, start: int, last: int)
    decreases |links|
  {
    if links == [] then start >= last
    else if links[0].Page? then
      links[0].number == start + 1 && GapsRight(links[1..], links[0].number, last)
    else if |links| == 1 then start < last
    else
      links[1].Page? && links[1].number > start + 1 && GapsRight(links[2..], links[1].number, last)
  }

  /** The pages after `start`, up to `last`. */
  predicate After(shown: seq<int>, start: int, last: int) {
    Climbs(shown) && forall i :: 0 <= i < |shown| ==> start < shown[i] <= last
  }

  lemma AfterTail(shown: seq<int>, start: int, last: int)
    requires After(shown, start, last) && shown != []
    ensures After(shown[1..], shown[0], last)
  {
  }

  lemma {:induction false} LinksPages(shown: seq<int>, start: int, last: int)
    ensures PagesIn(LinksOf(shown, start, last)) == shown
    decreases |shown|
  {
    if shown != [] {
      var rest := LinksOf(shown[1..], shown[0], last);
      LinksPages(shown[1..], shown[0], last);
      PageThen(start, shown[0], rest);
    }
  }

  lemma PageThen(previous: int, page: int, rest: seq<PageLink>)
    ensures PagesIn(LinkAfter(previous, page) + rest) == [page] + PagesIn(rest)
  {
    assert ([Page(page)] + rest)[1..] == rest;
    assert ([Gap, Page(page)] + rest)[1..] == [Page(page)] + rest;
  }

  lemma {:induction false} LinksGaps(shown: seq<int>, start: int, last: int)
    requires After(shown, start, last)
    ensures GapsRight(LinksOf(shown, start, last), start, last)
    decreases |shown|
  {
    if shown != [] {
      AfterTail(shown, start, last);
      LinksGaps(shown[1..], shown[0], last);
      GapThen(start, shown[0], LinksOf(shown[1..], shown[0], last), last);
    }
  }

  lemma GapThen(previous: int, page: int, rest: seq<PageLink>, last: int)
    requires previous < page && GapsRight(rest, page, last)
    ensures GapsRight(LinkAfter(previous, page) + rest, previous, last)
  {
    assert ([Page(page)] + rest)[1..] == rest;
    assert ([Gap, Page(page)] + rest)[2..] == rest;
  }

  /**
   * For any page and any reach: the pages climb from 1 to the last, the one shown is there, the others
   * are wanted and reached, and the gaps tell exactly where pages are missing.
   */
  lemma WindowRight(at: int, count: int, reach: int -> bool)
    requires at >= 1
    ensures var links := Window(at, count, reach);
      var last := LastOf(at, count);
      && Climbs(PagesIn(links)) && GapsRight(links, 0, last) && at in PagesIn(links)
      && forall page :: page in PagesIn(links) <==>
           page in Filled(Base(at, last)) && 1 <= page <= last && (page == at || reach(page))
  {
    var last := LastOf(at, count);
    var pages := Reached(Filled(Base(at, last)), at, reach);
    AscendingShape(pages, 1, last);
    var shown := Ascending(pages, 1, last);
    assert forall i :: 0 <= i < |shown| ==> shown[i] in shown;
    LinksPages(shown, 0, last);
    LinksGaps(shown, 0, last);
  }

  // ---------- with every page reached ----------

  function LeftPages(at: int): seq<int> {
    if at <= 1 then [] else if at == 2 then [1] else if at == 3 then [1, 2]
    else if at == 4 then [1, 2, 3] else [1, at - 1]
  }

  function RightPages(at: int, last: int): seq<int> {
    if last <= at then []
    else if last == at + 1 then [at + 1]
    else if last == at + 2 then [at + 1, at + 2]
    else if last == at + 3 then [at + 1, at + 2, at + 3]
    else [at + 1, last]
  }

  function FullList(at: int, last: int): seq<int> {
    LeftPages(at) + [at] + RightPages(at, last)
  }

  lemma FullPages(at: int, last: int, reach: int -> bool)
    requires 1 <= at <= last && forall page :: reach(page)
    ensures Shown(at, last, reach) == FullList(at, last)
  {
    var pages := Reached(Filled(Base(at, last)), at, reach);
    var all := FullList(at, last);
    FullSet(at, last, reach);
    AscendingShape(pages, 1, last);
    FullClimbs(at, last);
    SamePages(Ascending(pages, 1, last), all);
  }

  lemma FullSet(at: int, last: int, reach: int -> bool)
    requires 1 <= at <= last && forall page :: reach(page)
    ensures forall page :: page in FullList(at, last) <==>
      page in Reached(Filled(Base(at, last)), at, reach) && 1 <= page <= last
  {
    var all := FullList(at, last);
    forall page
      ensures page in all <==> page in Reached(Filled(Base(at, last)), at, reach) && 1 <= page <= last
    {
      FullMember(at, last, page);
    }
  }

  lemma FullClimbs(at: int, last: int)
    requires 1 <= at <= last
    ensures Climbs(FullList(at, last))
  {
  }

  lemma FullMember(at: int, last: int, page: int)
    requires 1 <= at <= last
    ensures page in FullList(at, last) <==> page in Filled(Base(at, last))
    ensures page in FullList(at, last) ==> 1 <= page <= last
  {
    FilledMember(Base(at, last), page);
    assert page in FullList(at, last) <==> page in LeftPages(at) || page == at || page in RightPages(at, last);
    assert page in Base(at, last) <==> 1 <= page <= last && (page == 1 || at - 1 <= page <= at + 1 || page == last);
  }

  function Left(at: int): seq<PageLink> {
    if at <= 1 then [] else if at == 2 then [Page(1)] else if at == 3 then [Page(1), Page(2)]
    else [Page(1), if at == 4 then Page(2) else Gap, Page(at - 1)]
  }

  function Right(at: int, last: int): seq<PageLink> {
    if last <= at then []
    else if last == at + 1 then [Page(last)]
    else if last == at + 2 then [Page(at + 1), Page(last)]
    else [Page(at + 1), if last == at + 3 then Page(at + 2) else Gap, Page(last)]
  }

  /**
   * With every page reached, the window is the page shown between two ends of at most three links: the
   * first page and the last are there, and each gap hides at least two pages.
   */
  lemma FullWindow(at: int, count: int, reach: int -> bool)
    requires at >= 1 && forall page :: reach(page)
    ensures var last := LastOf(at, count);
      Window(at, count, reach) == Left(at) + [Page(at)] + Right(at, last)
    ensures |Window(at, count, reach)| <= 7
  {
    var last := LastOf(at, count);
    var n := |LeftPages(at)|;
    var all := FullList(at, last);
    FullPages(at, last, reach);
    LinksSplit(all, n + 1, 0, last);
    LeftLinks(at, last);
    RightLinks(at, last);
    assert all[n + 1..] == RightPages(at, last);
  }

  lemma LeftLinks(at: int, last: int)
    requires at >= 1
    ensures LinksTo(FullList(at, last), |LeftPages(at)| + 1, 0) == Left(at) + [Page(at)]
  {
    var all := FullList(at, last);
    assert LinksTo(all, 1, 0) == LinkAfter(0, all[0]);
    if at >= 2 {
      assert LinksTo(all, 2, 0) == LinksTo(all, 1, 0) + LinkAfter(all[0], all[1]);
    }
    if 3 <= at {
      assert LinksTo(all, 3, 0) == LinksTo(all, 2, 0) + LinkAfter(all[1], all[2]);
    }
    if at == 4 {
      assert LinksTo(all, 4, 0) == LinksTo(all, 3, 0) + LinkAfter(all[2], all[3]);
    }
  }

  lemma RightLinks(at: int, last: int)
    requires 1 <= at <= last
    ensures LinksOf(RightPages(at, last), at, last) == Right(at, last)
  {
    var pages := RightPages(at, last);
    if |pages| == 2 {
      assert pages[1..] == [pages[1]] && pages[1..][1..] == [];
    }
    if |pages| == 3 {
      assert pages[1..] == [at + 2, at + 3] && pages[1..][1..] == [at + 3];
      assert LinksOf(pages[1..][1..], at + 2, last) == [Page(at + 3)];
      assert LinksOf(pages[1..], at + 1, last) == [Page(at + 2)] + LinksOf(pages[1..][1..], at + 2, last);
    }
  }
}
