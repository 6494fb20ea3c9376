/** The grouping step of `generate_html`: items are collected per source, the
    sources in order of first appearance, each source's items in list order
    (automation_news_daily.py, `generate_html`). The surrounding markup is
    presentation and is not modelled. */
module Grouping {
  import opened News

  /** The items of one source, under that source's heading. */
  datatype Group = Group(source: string, items: seq<Item>)

  /** What `generate_html` renders: the fixed message for an empty digest, or
      one section per source. */
  datatype Page = NoItems(message: string) | BySource(groups: seq<Group>)

  const NoItemsMessage: string := "<p>No news items found.</p>"

  /** Appends `x` to the first group of its source, opening a new group at
      the end when there is none (an insertion-ordered dictionary). */
  function Place(gs: seq<Group>, x: Item): seq<Group>
    decreases |gs|
  {
    if |gs| == 0 then [Group(x.source, [x])]
    else if gs[0].source == x.source then [Group(x.source, gs[0].items + [x])] + gs[1..]
    else [gs[0]] + Place(gs[1..], x)
  }

  /** The loop over the items, in order. */
  function GroupBySource(items: seq<Item>): seq<Group>
    decreases |items|
  {
    if |items| == 0 then []
    else Place(GroupBySource(items[..|items| - 1]), items[|items| - 1])
  }

  function RenderPlan(items: seq<Item>): (p: Page)
    ensures p.NoItems? <==> |items| == 0
    ensures p.NoItems? ==> p.message == NoItemsMessage
  {
    if |items| == 0 then NoItems(NoItemsMessage) else BySource(GroupBySource(items))
  }

  /** All groups' items, group after group. */
  function Flatten(gs: seq<Group>): seq<Item>
    decreases |gs|
  {
    if |gs| == 0 then [] else gs[0].items + Flatten(gs[1..])
  }

  /** The items of `items` from source `s`, in order. */
  function FromSource(items: seq<Item>, s: string): seq<Item>
    decreases |items|
  {
    if |items| == 0 then []
    else (if items[0].source == s then [items[0]] else []) + FromSource(items[1..], s)
  }

  /** The position of the first item from source `s`, or `|items|` when there is none. */
  function FirstIndex(items: seq<Item>, s: string): (r: nat)
    ensures r <= |items|
    ensures r < |items| ==> items[r].source == s
    ensures forall j :: 0 <= j < r ==> items[j].source != s
    decreases |items|
  {
    if |items| == 0 then 0
    else if items[0].source == s then 0
    else 1 + FirstIndex(items[1..], s)
  }

  /** Each group holds exactly its source's items, in order. */
  ghost predicate GroupsExact(gs: seq<Group>, items: seq<Item>) {
    forall k :: 0 <= k < |gs| ==> gs[k].items == FromSource(items, gs[k].source)
  }

  /** Every group's source occurs among the items. */
  ghost predicate GroupsOccur(gs: seq<Group>, items: seq<Item>) {
    forall k :: 0 <= k < |gs| ==> FirstIndex(items, gs[k].source) < |items|
  }

  /** Groups follow the order in which their sources first appear. */
  ghost predicate GroupsOrdered(gs: seq<Group>, items: seq<Item>) {
    forall k, l :: 0 <= k < l < |gs| ==> FirstIndex(items, gs[k].source) < FirstIndex(items, gs[l].source)
  }

  /** Every item's source has a group. */
  ghost predicate GroupsCover(gs: seq<Group>, items: seq<Item>) {
    forall i :: 0 <= i < |items| ==> HasSource(gs, items[i].source)
  }

  predicate HasSource(gs: seq<Group>, s: string) {
    exists k :: 0 <= k < |gs| && gs[k].source == s
  }

  predicate DistinctSources(gs: seq<Group>) {
    forall k, l :: 0 <= k < l < |gs| ==> gs[k].source != gs[l].source
  }

  /** `gs` groups `items`: each group holds exactly its source's items in order,
      every group's source occurs, groups follow first appearance, and every
      item's source has a group. */
  ghost predicate WellGrouped(gs: seq<Group>, items: seq<Item>) {
    GroupsExact(gs, items) && GroupsOccur(gs, items) && GroupsOrdered(gs, items) && GroupsCover(gs, items)
  }

  lemma {:induction false} FromSourceSnoc(p: seq<Item>, x: Item, s: string)
    ensures FromSource(p + [x], s) == FromSource(p, s) + (if x.source == s then [x] else [])
    decreases |p|
  {
    if |p| == 0 {
      assert p + [x] == [x];
      assert [x][1..] == [];
    } else {
      assert (p + [x])[1..] == p[1..] + [x];
      FromSourceSnoc(p[1..], x, s);
    }
  }

  lemma FirstIndexSnoc(p: seq<Item>, x: Item, s: string)
    ensures FirstIndex(p, s) < |p| ==> FirstIndex(p + [x], s) == FirstIndex(p, s)
    ensures FirstIndex(p, s) == |p| && x.source == s ==> FirstIndex(p + [x], s) == |p|
  {
    var f, g := FirstIndex(p + [x], s), FirstIndex(p, s);
    if g < |p| {
      assert (p + [x])[g].source == s;
      assert forall j :: 0 <= j < |p| ==> p[j] == (p + [x])[j];
    } else if x.source == s {
      assert (p + [x])[|p|].source == s;
      assert forall j :: 0 <= j < |p| ==> p[j] == (p + [x])[j];
    }
  }

  /** With distinct sources, placing `x` appends it to the group of its source
      when there is one and opens a new last group otherwise. */
  lemma {:induction false} PlaceShape(gs: seq<Group>, x: Item)
    requires DistinctSources(gs)
    ensures var r := Place(gs, x);
      && |r| == |gs| + (if HasSource(gs, x.source) then 0 else 1)
      && (forall k :: 0 <= k < |gs| ==> r[k].source == gs[k].source)
      && (forall k :: 0 <= k < |gs| ==> r[k].items == gs[k].items + (if gs[k].source == x.source then [x] else []))
      && (!HasSource(gs, x.source) ==> r[|gs|] == Group(x.source, [x]))
    decreases |gs|
  {
    if |gs| > 0 {
      var r := Place(gs, x);
      if gs[0].source == x.source {
        assert HasSource(gs, x.source);
        assert forall k :: 0 < k < |gs| ==> gs[k].source != x.source;
      } else {
        assert DistinctSources(gs[1..]) by {
          forall k, l | 0 <= k < l < |gs| - 1 ensures gs[1..][k].source != gs[1..][l].source {
            assert gs[1..][k] == gs[k + 1] && gs[1..][l] == gs[l + 1];
          }
        }
        PlaceShape(gs[1..], x);
        assert r == [gs[0]] + Place(gs[1..], x);
        assert HasSource(gs, x.source) == HasSource(gs[1..], x.source) by {
          if HasSource(gs, x.source) {
            var k :| 0 <= k < |gs| && gs[k].source == x.source;
            assert gs[1..][k - 1].source == x.source;
          }
          if HasSource(gs[1..], x.source) {
            var k :| 0 <= k < |gs[1..]| && gs[1..][k].source == x.source;
            assert gs[k + 1].source == x.source;
          }
        }
      }
    }
  }

  /** Placing an item adds exactly that item to the flattened groups. */
  lemma {:induction false} FlattenPlace(gs: seq<Group>, x: Item)
    ensures multiset(Flatten(Place(gs, x))) == multiset(Flatten(gs)) + multiset{x}
    decreases |gs|
  {
    if |gs| == 0 {
      assert Flatten([Group(x.source, [x])]) == [x];
    } else if gs[0].source == x.source {
      var r := Place(gs, x);
      assert r[0].items == gs[0].items + [x] && r[1..] == gs[1..];
    } else {
      FlattenPlace(gs[1..], x);
      var r := Place(gs, x);
      assert r[0] == gs[0] && r[1..] == Place(gs[1..], x);
    }
  }

  /** Grouping is a permutation: flattening the groups gives back every item
      exactly as often as it occurs. */
  lemma {:induction false} GroupingIsPermutation(items: seq<Item>)
    ensures multiset(Flatten(GroupBySource(items))) == multiset(items)
    decreases |items|
  {
    if |items| > 0 {
      var p, x := items[..|items| - 1], items[|items| - 1];
      GroupingIsPermutation(p);
      FlattenPlace(GroupBySource(p), x);
      assert items == p + [x];
    }
  }

  lemma {:induction false} GroupingIsWellGrouped(items: seq<Item>)
    ensures WellGrouped(GroupBySource(items), items)
    decreases |items|
  {
    if |items| > 0 {
      var p, x := items[..|items| - 1], items[|items| - 1];
      assert items == p + [x];
      GroupingIsWellGrouped(p);
      var gs := GroupBySource(p);
      OrderedIsDistinct(gs, p);
      PlaceShape(gs, x);
      if !HasSource(gs, x.source) {
        forall i | 0 <= i < |p| ensures p[i].source != x.source {
          assert HasSource(gs, p[i].source);
        }
        FromSourceNone(p, x.source);
      }
      ExactStep(gs, p, x);
      OrderStep(gs, p, x);
      CoverStep(gs, p, x);
    }
  }

  lemma OrderedIsDistinct(gs: seq<Group>, items: seq<Item>)
    requires GroupsOrdered(gs, items)
    ensures DistinctSources(gs)
  {
  }

  lemma ExactStep(gs: seq<Group>, p: seq<Item>, x: Item)
    requires GroupsExact(gs, p) && DistinctSources(gs)
    requires !HasSource(gs, x.source) ==> FromSource(p, x.source) == []
    ensures GroupsExact(Place(gs, x), p + [x])
  {
    PlaceShape(gs, x);
    var r := Place(gs, x);
    forall k | 0 <= k < |r| ensures r[k].items == FromSource(p + [x], r[k].source) {
      FromSourceSnoc(p, x, r[k].source);
    }
  }

  lemma OrderStep(gs: seq<Group>, p: seq<Item>, x: Item)
    requires GroupsOccur(gs, p) && GroupsOrdered(gs, p) && DistinctSources(gs)
    requires !HasSource(gs, x.source) ==> forall i :: 0 <= i < |p| ==> p[i].source != x.source
    ensures GroupsOccur(Place(gs, x), p + [x]) && GroupsOrdered(Place(gs, x), p + [x])
  {
    PlaceShape(gs, x);
    var r := Place(gs, x);
    var items := p + [x];
    forall k | 0 <= k < |gs| ensures FirstIndex(items, r[k].source) == FirstIndex(p, gs[k].source) < |p| {
      FirstIndexSnoc(p, x, gs[k].source);
    }
    if !HasSource(gs, x.source) {
      assert FirstIndex(p, x.source) == |p|;
      FirstIndexSnoc(p, x, x.source);
      assert FirstIndex(items, r[|gs|].source) == |p|;
    }
    forall k | 0 <= k < |r| ensures FirstIndex(items, r[k].source) < |items| {
    }
    forall k, l | 0 <= k < l < |r| ensures FirstIndex(items, r[k].source) < FirstIndex(items, r[l].source) {
    }
  }

  lemma CoverStep(gs: seq<Group>, p: seq<Item>, x: Item)
    requires GroupsCover(gs, p) && DistinctSources(gs)
    ensures GroupsCover(Place(gs, x), p + [x])
  {
    PlaceShape(gs, x);
    var r := Place(gs, x);
    var items := p + [x];
    forall i | 0 <= i < |items| ensures HasSource(r, items[i].source) {
      if i < |p| {
        assert items[i] == p[i];
        assert HasSource(gs, p[i].source);
        var k :| 0 <= k < |gs| && gs[k].source == p[i].source;
        assert r[k].source == items[i].source;
      } else if HasSource(gs, x.source) {
        var k :| 0 <= k < |gs| && gs[k].source == x.source;
        assert r[k].source == items[i].source;
      } else {
        assert r[|gs|].source == items[i].source;
      }
    }
  }

  lemma {:induction false} FromSourceNone(items: seq<Item>, s: string)
    requires forall i :: 0 <= i < |items| ==> items[i].source != s
    ensures FromSource(items, s) == []
    decreases |items|
  {
    if |items| > 0 {
      FromSourceNone(items[1..], s);
    }
  }

  /** The sections of a non-empty digest: one per distinct source, in order of
      first appearance; each holds exactly that source's items in list order;
      and together they hold every item exactly once. */
  lemma RenderPlanSections(items: seq<Item>)
    requires |items| > 0
    ensures var gs := RenderPlan(items).groups;
      && multiset(Flatten(gs)) == multiset(items)
      && (forall k :: 0 <= k < |gs| ==> gs[k].items == FromSource(items, gs[k].source) && |gs[k].items| > 0)
      && (forall k, l :: 0 <= k < l < |gs| ==> gs[k].source != gs[l].source)
      && (forall k, l :: 0 <= k < l < |gs| ==> FirstIndex(items, gs[k].source) < FirstIndex(items, gs[l].source))
      && (forall i :: 0 <= i < |items| ==> exists k :: 0 <= k < |gs| && gs[k].source == items[i].source)
  {
    var gs := GroupBySource(items);
    GroupingIsWellGrouped(items);
    GroupingIsPermutation(items);
    forall k | 0 <= k < |gs| ensures |gs[k].items| > 0 {
      var f := FirstIndex(items, gs[k].source);
      FromSourceHas(items, gs[k].source, f);
    }
  }

  lemma {:induction false} FromSourceHas(items: seq<Item>, s: string, i: nat)
    requires i < |items| && items[i].source == s
    ensures |FromSource(items, s)| > 0
    decreases |items|
  {
    if i > 0 && items[0].source != s {
      FromSourceHas(items[1..], s, i - 1);
    }
  }
}
