/**
 * `find_schedule_buttons_sorted` (check_pass.py:169-201): collect the
 * "Schedule" controls a fixed list of selectors finds, at most 50 per
 * selector, and order them top to bottom by the y coordinate of their
 * bounding box, with 1e9 for a control that has no box or cannot be
 * measured.
 */
module Ranking {
  import opened Wrappers
  import opened StableSort

  /** The `nth` match of `selector`, as `page.locator(selector).nth(nth)` designates it. */
  datatype Loc = Loc(selector: string, nth: nat)

  /** What `bounding_box()` gives for a control. */
  datatype Measure =
    | Box(y: int)   // a box whose top edge is at `y`
    | NoBox         // `None`: the control is not rendered
    | Fails         // the call raised

  /**
   * The page as far as ranking sees it: how many elements each selector
   * matches (`None` when `locator(sel).count()` raises), and the
   * measurement of each control.
   */
  datatype ControlPage = ControlPage(count: string -> Option<nat>, measure: Loc -> Measure)

  /** The sort key for a control that has no usable box. */
  const Sentinel: int := 1000000000

  /** At most this many matches are taken from each selector. */
  const PerSelector: nat := 50

  const ScheduleSelectors: seq<string> := [
    "button:has-text(\"Schedule\")",
    "a:has-text(\"Schedule\")",
    "[role=\"button\"]:has-text(\"Schedule\")",
    "input[type=\"button\"][value*=\"Schedule\"]",
    "input[type=\"submit\"][value*=\"Schedule\"]"
  ]

  /** `y_of`: the box's y, or the sentinel. */
  function YOf(m: Measure): (y: int)
    ensures m.Box? ==> y == m.y
    ensures !m.Box? ==> y == Sentinel
  {
    match m
    case Box(y) => y
    case _ => Sentinel
  }

  function Key(page: ControlPage): Loc -> int {
    l => YOf(page.measure(l))
  }

  /** How many matches of `sel` are taken: `min(count, 50)`, none when counting raises. */
  function Taken(page: ControlPage, sel: string): (n: nat)
    ensures n <= PerSelector
    ensures page.count(sel).None? ==> n == 0
    ensures page.count(sel).Some? ==>
      n <= page.count(sel).value && (n == page.count(sel).value || n == PerSelector)
  {
    match page.count(sel)
    case None => 0
    case Some(c) => if c < PerSelector then c else PerSelector
  }

  /** The matches of `sel` in index order. */
  function Matches(page: ControlPage, sel: string): (r: seq<Loc>)
    ensures |r| == Taken(page, sel)
    ensures forall i :: 0 <= i < |r| ==> r[i] == Loc(sel, i)
  {
    seq(Taken(page, sel), i requires 0 <= i => Loc(sel, i))
  }

  /** The controls collected from `selectors`, selector after selector. */
  function Collected(page: ControlPage, selectors: seq<string>): seq<Loc> {
    if selectors == [] then []
    else Collected(page, selectors[..|selectors| - 1]) + Matches(page, selectors[|selectors| - 1])
  }

  /** The ranked controls: the collected ones, stably sorted by y. */
  function Ranked(page: ControlPage): seq<Loc> {
    SortBy(Collected(page, ScheduleSelectors), Key(page))
  }

  /** `find_schedule_buttons_sorted(page)` */
  method FindScheduleButtonsSorted(page: ControlPage) returns (ranked: seq<Loc>)
    ensures ranked == Ranked(page)
  {
    var locs: seq<Loc> := [];
    var k := 0;
    while k < |ScheduleSelectors|
      invariant k <= |ScheduleSelectors|
      invariant locs == Collected(page, ScheduleSelectors[..k])
    {
      var sel := ScheduleSelectors[k];
      assert ScheduleSelectors[..k + 1][..k] == ScheduleSelectors[..k];
      match page.count(sel) {
        case None =>
        case Some(count) =>
          var n := if count < PerSelector then count else PerSelector;
          var i := 0;
          ghost var before := locs;
          while i < n
            invariant i <= n
            invariant locs == before + Matches(page, sel)[..i]
          {
            locs := locs + [Loc(sel, i)];
            i := i + 1;
            assert Matches(page, sel)[..i] == Matches(page, sel)[..i - 1] + [Loc(sel, i - 1)];
          }
          assert Matches(page, sel)[..n] == Matches(page, sel);
      }
      k := k + 1;
    }
    assert ScheduleSelectors[..k] == ScheduleSelectors;
    ranked := SortBy(locs, Key(page));
  }

  // ---------------------------------------------------------------------------
  // Collection

  /** A control is collected iff its selector is in the list and its index is below what that selector yields. */
  lemma {:induction false} CollectedMember(page: ControlPage, selectors: seq<string>, l: Loc)
    ensures l in Collected(page, selectors) <==> l.selector in selectors && l.nth < Taken(page, l.selector)
    decreases |selectors|
  {
    if selectors != [] {
      var init, last := selectors[..|selectors| - 1], selectors[|selectors| - 1];
      CollectedMember(page, init, l);
      assert selectors == init + [last];
      if l.selector == last && l.nth < Taken(page, last) {
        assert Matches(page, last)[l.nth] == l;
      }
    }
  }

  /** Each selector contributes at most 50 controls, so the list holds at most 50 per selector listed. */
  lemma {:induction false} CollectedBound(page: ControlPage, selectors: seq<string>)
    ensures forall s :: |Matches(page, s)| <= PerSelector
    ensures |Collected(page, selectors)| <= PerSelector * |selectors|
    decreases |selectors|
  {
    if selectors != [] {
      CollectedBound(page, selectors[..|selectors| - 1]);
    }
  }

  function IndexOf(selectors: seq<string>, s: string): (i: nat)
    requires s in selectors
    ensures i < |selectors| && selectors[i] == s
    ensures forall j :: 0 <= j < i ==> selectors[j] != s
  {
    if selectors[0] == s then 0 else 1 + IndexOf(selectors[1..], s)
  }

  predicate Distinct(selectors: seq<string>) {
    forall i, j :: 0 <= i < j < |selectors| ==> selectors[i] != selectors[j]
  }

  /** `a` comes before `b` in selector-major, then index, order. */
  predicate Before(selectors: seq<string>, a: Loc, b: Loc)
    requires a.selector in selectors && b.selector in selectors
  {
    var ia, ib := IndexOf(selectors, a.selector), IndexOf(selectors, b.selector);
    ia < ib || (ia == ib && a.nth < b.nth)
  }

  lemma IndexOfPrefix(selectors: seq<string>, s: string)
    requires selectors != [] && s in selectors[..|selectors| - 1]
    ensures IndexOf(selectors, s) == IndexOf(selectors[..|selectors| - 1], s)
  {
    var init := selectors[..|selectors| - 1];
    var i, j := IndexOf(selectors, s), IndexOf(init, s);
    assert selectors[j] == s;
  }

  /** `c` lists its controls selector by selector, in list order, and by index within a selector. */
  predicate SelectorMajor(selectors: seq<string>, c: seq<Loc>) {
    forall p, q :: 0 <= p < q < |c| ==> InOrder(selectors, c[p], c[q])
  }

  /** Both controls come from listed selectors and `a` is collected before `b`. */
  predicate InOrder(selectors: seq<string>, a: Loc, b: Loc) {
    a.selector in selectors && b.selector in selectors && Before(selectors, a, b)
  }

  /** One pair of positions of the collected list, given the order of the list without its last selector. */
  lemma CollectedOrderPair(page: ControlPage, selectors: seq<string>, p: int, q: int)
    requires selectors != [] && Distinct(selectors)
    requires SelectorMajor(selectors[..|selectors| - 1], Collected(page, selectors[..|selectors| - 1]))
    requires 0 <= p < q < |Collected(page, selectors)|
    ensures var c := Collected(page, selectors); InOrder(selectors, c[p], c[q])
  {
    var init, last := selectors[..|selectors| - 1], selectors[|selectors| - 1];
    var c0, m := Collected(page, init), Matches(page, last);
    var c := c0 + m;
    assert Collected(page, selectors) == c;
    if q < |c0| {
      assert c[p] == c0[p] && c[q] == c0[q];
      assert InOrder(init, c0[p], c0[q]);
      IndexOfPrefix(selectors, c0[p].selector);
      IndexOfPrefix(selectors, c0[q].selector);
    } else if p < |c0| {
      assert c[p] == c0[p] && c[q] == m[q - |c0|];
      CollectedMember(page, init, c0[p]);
      var s := c0[p].selector;
      IndexOfPrefix(selectors, s);
      var i := IndexOf(init, s);
      assert selectors[i] == s;
      assert IndexOf(selectors, last) == |selectors| - 1;
    } else {
      assert c[p] == m[p - |c0|] && c[q] == m[q - |c0|];
    }
  }

  /** Collection order is selector-major, then by index, when the selectors are distinct. */
  lemma {:induction false} CollectedOrder(page: ControlPage, selectors: seq<string>)
    requires Distinct(selectors)
    ensures SelectorMajor(selectors, Collected(page, selectors))
    decreases |selectors|
  {
    if selectors != [] {
      var init := selectors[..|selectors| - 1];
      CollectedOrder(page, init);
      var c := Collected(page, selectors);
      forall p, q | 0 <= p < q < |c|
        ensures InOrder(selectors, c[p], c[q])
      {
        CollectedOrderPair(page, selectors, p, q);
      }
    }
  }

  /** The schedule controls are collected selector by selector, in the order of the selector list, and by index within each. */
  lemma ScheduleCollectionOrder(page: ControlPage)
    ensures SelectorMajor(ScheduleSelectors, Collected(page, ScheduleSelectors))
    ensures |Collected(page, ScheduleSelectors)| <= 250
  {
    assert Distinct(ScheduleSelectors);
    CollectedOrder(page, ScheduleSelectors);
    CollectedBound(page, ScheduleSelectors);
  }

  // ---------------------------------------------------------------------------
  // Ranking

  /** The ranked controls are the collected ones, reordered. */
  lemma RankedPermutes(page: ControlPage)
    ensures multiset(Ranked(page)) == multiset(Collected(page, ScheduleSelectors))
  {
    SortByPermutes(Collected(page, ScheduleSelectors), Key(page));
  }

  /** The ranked controls go top to bottom. */
  lemma RankedTopDown(page: ControlPage)
    ensures var r := Ranked(page);
      forall i, j :: 0 <= i < j < |r| ==> YOf(page.measure(r[i])) <= YOf(page.measure(r[j]))
  {
    SortBySorted(Collected(page, ScheduleSelectors), Key(page));
  }

  /** Controls at the same height keep the order in which they were collected. */
  lemma RankedStable(page: ControlPage, y: int)
    ensures WithKey(Ranked(page), Key(page), y) == WithKey(Collected(page, ScheduleSelectors), Key(page), y)
  {
    SortByStable(Collected(page, ScheduleSelectors), Key(page), y);
  }

  /** A control whose box has y below 1e9 is ranked before every control without a box. */
  lemma MeasuredBeforeUnmeasured(page: ControlPage, i: int, j: int)
    requires var r := Ranked(page); 0 <= i < |r| && 0 <= j < |r|
    requires var r := Ranked(page); page.measure(r[i]).Box? && page.measure(r[i]).y < Sentinel
    requires var r := Ranked(page); 0 <= j < |r| && !page.measure(r[j]).Box?
    ensures i < j
  {
    RankedTopDown(page);
  }
}
