/** ConfigurationFile::addOrUpdate: merging the children of a node of another document into a node of this one. */
module ConfigurationMerge {
  import opened ConfigurationTree
  import opened ConfigurationInsert

  // ---------------------------------------------------------------------------------------------------------
  // The merge on values
  // ---------------------------------------------------------------------------------------------------------

  /** What a node and everything below it look like. */
  datatype Element = Element(tag: string, attrs: map<string, string>, kids: seq<Element>)

  ghost function View(nodes: Nodes, x: Id): (e: Element)
    requires Tree(nodes) && x < |nodes|
    ensures e.tag == nodes[x].tag && e.attrs == nodes[x].attrs && |e.kids| == |nodes[x].children|
    decreases |nodes| - x
  {
    var ids := nodes[x].children;
    Element(nodes[x].tag, nodes[x].attrs, seq(|ids|, k requires 0 <= k < |ids| => View(nodes, ids[k])))
  }

  /** The right-biased deep merge of his element into this one with the same tag. */
  function MergeOne(this': Element, his: Element): (e: Element)
    ensures e.tag == this'.tag
    decreases his, 3
  {
    Element(this'.tag, this'.attrs + his.attrs, MergeKids(this'.kids, his.kids))
  }

  /** This child after all of his children have been tried on it in turn. */
  function MergeAll(this': Element, his: seq<Element>): (e: Element)
    ensures e.tag == this'.tag
    decreases his, 0
  {
    if his == [] then this'
    else
      var e := MergeAll(this', his[..|his| - 1]);
      var last := his[|his| - 1];
      if last.tag == this'.tag then MergeOne(e, last) else e
  }

  function MergeEach(these: seq<Element>, his: seq<Element>): (r: seq<Element>)
    ensures |r| == |these|
    ensures forall k | 0 <= k < |these| :: r[k] == MergeAll(these[k], his)
    decreases his, 1, |these|
  {
    if these == [] then [] else MergeEach(these[..|these| - 1], his) + [MergeAll(these[|these| - 1], his)]
  }

  predicate Tagged(es: seq<Element>, tag: string) {
    exists k :: 0 <= k < |es| && es[k].tag == tag
  }

  /** His children whose tag no child of this has, in his order. */
  function Fresh(his: seq<Element>, these: seq<Element>): seq<Element> {
    if his == [] then []
    else
      var rest, last := Fresh(his[..|his| - 1], these), his[|his| - 1];
      if Tagged(these, last.tag) then rest else rest + [last]
  }

  /** Children of this stay in place, each merged with his children of the same tag; then come his others. */
  function MergeKids(these: seq<Element>, his: seq<Element>): seq<Element>
    decreases his, 2
  {
    MergeEach(these, his) + Fresh(his, these)
  }

  // ---------------------------------------------------------------------------------------------------------
  // The merge with distinct sibling tags
  // ---------------------------------------------------------------------------------------------------------

  ghost predicate DistinctTags(es: seq<Element>) {
    forall i, j | 0 <= i < j < |es| :: es[i].tag != es[j].tag
  }

  /** Sibling tags are distinct at every level. */
  ghost predicate Distinct(e: Element) {
    DistinctTags(e.kids) && forall k | 0 <= k < |e.kids| :: Distinct(e.kids[k])
  }

  lemma {:induction false} NoneMerges(e: Element, his: seq<Element>)
    requires !Tagged(his, e.tag)
    ensures MergeAll(e, his) == e
    decreases |his|
  {
    if his != [] {
      var init, last := his[..|his| - 1], his[|his| - 1];
      assert forall k | 0 <= k < |init| :: init[k] == his[k];
      assert last == his[|his| - 1] && last.tag != e.tag;
      NoneMerges(e, init);
    }
  }

  /** With distinct tags a child meets at most one of his children. */
  lemma {:induction false} OneMerges(e: Element, his: seq<Element>, j: nat)
    requires DistinctTags(his) && j < |his| && his[j].tag == e.tag
    ensures MergeAll(e, his) == MergeOne(e, his[j])
    decreases |his|
  {
    var init, last := his[..|his| - 1], his[|his| - 1];
    assert forall k | 0 <= k < |init| :: init[k] == his[k];
    if j == |his| - 1 {
      NoneMerges(e, init);
    } else {
      OneMerges(e, init, j);
    }
  }

  /** What the merge computes where his sibling tags are distinct: a common tag merges the two children, his attribute
      values winning; a child only this has stays; his other children follow in his order. */
  lemma MergeIsRightBiased(these: seq<Element>, his: seq<Element>)
    requires DistinctTags(his)
    ensures var r := MergeKids(these, his);
            && |r| == |these| + |Fresh(his, these)| && r[|these|..] == Fresh(his, these)
            && (forall k, j | 0 <= k < |these| && 0 <= j < |his| && his[j].tag == these[k].tag ::
                  && r[k].tag == these[k].tag && r[k].kids == MergeKids(these[k].kids, his[j].kids)
                  && (forall a :: a in r[k].attrs <==> a in these[k].attrs || a in his[j].attrs)
                  && (forall a | a in r[k].attrs ::
                        r[k].attrs[a] == if a in his[j].attrs then his[j].attrs[a] else these[k].attrs[a]))
            && (forall k | 0 <= k < |these| && !Tagged(his, these[k].tag) :: r[k] == these[k])
  {
    var r := MergeKids(these, his);
    forall k, j | 0 <= k < |these| && 0 <= j < |his| && his[j].tag == these[k].tag
      ensures r[k] == MergeOne(these[k], his[j])
    {
      OneMerges(these[k], his, j);
    }
    forall k | 0 <= k < |these| && !Tagged(his, these[k].tag) ensures r[k] == these[k] {
      NoneMerges(these[k], his);
    }
  }

  /** The positions of his children whose tags no child of this has, in order. */
  ghost predicate Positions(at: seq<nat>, his: seq<Element>, these: seq<Element>) {
    && (forall k | 0 <= k < |at| :: at[k] < |his| && !Tagged(these, his[at[k]].tag))
    && (forall k, l | 0 <= k < l < |at| :: at[k] < at[l])
    && (forall j | 0 <= j < |his| && !Tagged(these, his[j].tag) :: j in at)
  }

  /** Fresh is his children with unmatched tags: exactly those, and in his order. */
  lemma {:induction false} FreshAre(his: seq<Element>, these: seq<Element>) returns (at: seq<nat>)
    ensures Positions(at, his, these) && |at| == |Fresh(his, these)|
    ensures forall k | 0 <= k < |at| :: Fresh(his, these)[k] == his[at[k]]
    decreases |his|
  {
    if his == [] {
      at := [];
    } else {
      var n := |his| - 1;
      at := FreshAre(his[..n], these);
      if Tagged(these, his[n].tag) {
        SamePositions(at, his, these);
      } else {
        at := at + [n];
      }
    }
  }

  lemma SamePositions(at: seq<nat>, his: seq<Element>, these: seq<Element>)
    requires his != [] && Positions(at, his[..|his| - 1], these) && Tagged(these, his[|his| - 1].tag)
    ensures Positions(at, his, these)
  {
    assert forall j | 0 <= j < |his| - 1 :: his[..|his| - 1][j] == his[j];
  }

  lemma {:induction false} NothingFresh(his: seq<Element>, these: seq<Element>)
    requires forall j | 0 <= j < |his| :: Tagged(these, his[j].tag)
    ensures Fresh(his, these) == []
    decreases |his|
  {
    if his != [] {
      assert forall j | 0 <= j < |his| - 1 :: his[..|his| - 1][j] == his[j];
      NothingFresh(his[..|his| - 1], these);
    }
  }

  /** An element merged with itself is itself. */
  lemma {:induction false} MergeSelf(e: Element)
    requires Distinct(e)
    ensures MergeOne(e, e) == e
    decreases e
  {
    assert e.attrs + e.attrs == e.attrs;
    forall k | 0 <= k < |e.kids| ensures MergeAll(e.kids[k], e.kids) == e.kids[k] {
      OneMerges(e.kids[k], e.kids, k);
      MergeSelf(e.kids[k]);
    }
    assert MergeEach(e.kids, e.kids) == e.kids;
    forall j | 0 <= j < |e.kids| ensures Tagged(e.kids, e.kids[j].tag) {}
    NothingFresh(e.kids, e.kids);
  }

  lemma {:induction false} MergeOneTwice(e: Element, his: Element)
    requires Distinct(his)
    ensures MergeOne(MergeOne(e, his), his) == MergeOne(e, his)
    decreases his, 1
  {
    assert e.attrs + his.attrs + his.attrs == e.attrs + his.attrs;
    MergeTwice(e.kids, his);
  }

  /** Merging the same element's children again changes nothing. */
  lemma {:induction false} MergeTwice(these: seq<Element>, his: Element)
    requires Distinct(his)
    ensures MergeKids(MergeKids(these, his.kids), his.kids) == MergeKids(these, his.kids)
    decreases his, 0
  {
    var h := his.kids;
    var r := MergeKids(these, h);
    var at := FreshAre(h, these);
    forall k | 0 <= k < |r| ensures MergeAll(r[k], h) == r[k] {
      if k < |these| {
        if j: nat :| j < |h| && h[j].tag == these[k].tag {
          OneMerges(these[k], h, j);
          OneMerges(r[k], h, j);
          MergeOneTwice(these[k], h[j]);
        } else {
          NoneMerges(these[k], h);
        }
      } else {
        var j := at[k - |these|];
        OneMerges(h[j], h, j);
        MergeSelf(h[j]);
      }
    }
    assert MergeEach(r, h) == r;
    forall j | 0 <= j < |h| ensures Tagged(r, h[j].tag) {
      if k: nat :| k < |these| && these[k].tag == h[j].tag {
        assert r[k].tag == h[j].tag;
      } else {
        var l :| 0 <= l < |at| && at[l] == j;
        assert r[|these| + l] == h[j];
      }
    }
    NothingFresh(h, r);
  }

  // ---------------------------------------------------------------------------------------------------------
  // When merging again changes nothing, exactly
  // ---------------------------------------------------------------------------------------------------------

  /** The right-biased union of the attributes of his children with the tag. */
  function Union(tag: string, his: seq<Element>): map<string, string> {
    if his == [] then map[]
    else
      var union, last := Union(tag, his[..|his| - 1]), his[|his| - 1];
      if last.tag == tag then union + last.attrs else union
  }

  /** The lists of children of his children with the tag. */
  function KidLists(tag: string, his: seq<Element>): seq<seq<Element>> {
    if his == [] then []
    else
      var lists, last := KidLists(tag, his[..|his| - 1]), his[|his| - 1];
      if last.tag == tag then lists + [last.kids] else lists
  }

  function Flat(lists: seq<seq<Element>>): seq<Element> {
    if lists == [] then [] else Flat(lists[..|lists| - 1]) + lists[|lists| - 1]
  }

  /** One list after the other merged into these. */
  function MergeLists(these: seq<Element>, lists: seq<seq<Element>>): seq<Element> {
    if lists == [] then these else MergeKids(MergeLists(these, lists[..|lists| - 1]), lists[|lists| - 1])
  }

  /** What that imports: children of a later list are merged into those imported earlier. */
  function Imports(these: seq<Element>, lists: seq<seq<Element>>): seq<Element> {
    if lists == [] then []
    else
      var earlier, last := Imports(these, lists[..|lists| - 1]), lists[|lists| - 1];
      MergeEach(earlier, last) + Fresh(last, these + earlier)
  }

  /** c has what his children with its tag would give it: their attributes, a child for each child of theirs, and each
      of its children in turn has what those would give it. */
  ghost predicate Absorbs(c: Element, his: seq<Element>)
    decreases c
  {
    var union, kids := Union(c.tag, his), Flat(KidLists(c.tag, his));
    && (forall a | a in union :: a in c.attrs && c.attrs[a] == union[a])
    && (forall j | 0 <= j < |kids| :: Tagged(c.kids, kids[j].tag))
    && (forall k | 0 <= k < |c.kids| :: Absorbs(c.kids[k], kids))
  }

  lemma {:induction false} MergeAllParts(c: Element, his: seq<Element>)
    ensures MergeAll(c, his)
            == Element(c.tag, c.attrs + Union(c.tag, his), MergeLists(c.kids, KidLists(c.tag, his)))
    decreases |his|
  {
    if his == [] {
      assert c.attrs + map[] == c.attrs;
    } else {
      var init, last := his[..|his| - 1], his[|his| - 1];
      MergeAllParts(c, init);
      if last.tag == c.tag {
        var lists := KidLists(c.tag, init);
        assert c.attrs + Union(c.tag, init) + last.attrs == c.attrs + (Union(c.tag, init) + last.attrs);
        assert (lists + [last.kids])[..|lists|] == lists;
      }
    }
  }

  lemma {:induction false} MergeAllAppend(c: Element, a: seq<Element>, b: seq<Element>)
    ensures MergeAll(c, a + b) == MergeAll(MergeAll(c, a), b)
    decreases |b|
  {
    if b == [] {
      assert a + b == a;
    } else {
      MergeAllAppend(c, a, b[..|b| - 1]);
      assert (a + b)[..|a + b| - 1] == a + b[..|b| - 1];
    }
  }

  lemma MergeEachAppend(these: seq<Element>, a: seq<Element>, b: seq<Element>)
    ensures MergeEach(MergeEach(these, a), b) == MergeEach(these, a + b)
  {
    forall k | 0 <= k < |these| ensures MergeAll(MergeAll(these[k], a), b) == MergeAll(these[k], a + b) {
      MergeAllAppend(these[k], a, b);
    }
  }

  lemma {:induction false} FreshByTags(his: seq<Element>, these: seq<Element>, those: seq<Element>)
    requires |these| == |those| && forall k | 0 <= k < |these| :: these[k].tag == those[k].tag
    ensures Fresh(his, these) == Fresh(his, those)
    decreases |his|
  {
    if his != [] {
      FreshByTags(his[..|his| - 1], these, those);
      assert Tagged(these, his[|his| - 1].tag) <==> Tagged(those, his[|his| - 1].tag);
    }
  }

  /** Merging list after list: each of these meets all children of all lists, and the imports follow. */
  lemma {:induction false} MergeListsParts(these: seq<Element>, lists: seq<seq<Element>>)
    ensures MergeLists(these, lists) == MergeEach(these, Flat(lists)) + Imports(these, lists)
    decreases |lists|
  {
    if lists == [] {
      assert MergeEach(these, []) == these;
    } else {
      var init, last := lists[..|lists| - 1], lists[|lists| - 1];
      MergeListsParts(these, init);
      OneMoreList(these, Flat(init), Imports(these, init), last);
    }
  }

  lemma OneMoreList(these: seq<Element>, a: seq<Element>, earlier: seq<Element>, last: seq<Element>)
    ensures MergeKids(MergeEach(these, a) + earlier, last)
            == MergeEach(these, a + last) + (MergeEach(earlier, last) + Fresh(last, these + earlier))
  {
    var merged := MergeEach(these, a);
    MergeEachAppend(these, a, last);
    MergeEachOfBoth(merged, earlier, last);
    FreshByTags(last, merged + earlier, these + earlier);
    Regroup(MergeEach(these, a + last), MergeEach(earlier, last), Fresh(last, these + earlier));
  }

  lemma Regroup<T>(a: seq<T>, b: seq<T>, c: seq<T>)
    ensures (a + b) + c == a + (b + c)
  {
  }

  lemma MergeEachOfBoth(a: seq<Element>, b: seq<Element>, his: seq<Element>)
    ensures MergeEach(a + b, his) == MergeEach(a, his) + MergeEach(b, his)
  {
  }

  lemma {:induction false} FreshNoneExactly(his: seq<Element>, these: seq<Element>)
    ensures Fresh(his, these) == [] <==> forall j | 0 <= j < |his| :: Tagged(these, his[j].tag)
  {
    var at := FreshAre(his, these);
    if Fresh(his, these) == [] {
      assert forall j | 0 <= j < |his| :: j !in at;
    } else if forall j | 0 <= j < |his| :: Tagged(these, his[j].tag) {
      NothingFresh(his, these);
    }
  }

  lemma {:induction false} ImportsNoneExactly(these: seq<Element>, lists: seq<seq<Element>>)
    ensures Imports(these, lists) == [] <==> forall j | 0 <= j < |Flat(lists)| :: Tagged(these, Flat(lists)[j].tag)
    decreases |lists|
  {
    if lists != [] {
      var init, last := lists[..|lists| - 1], lists[|lists| - 1];
      ImportsNoneExactly(these, init);
      FreshNoneExactly(last, these);
      assert these + [] == these;
      assert forall j | 0 <= j < |Flat(init)| :: Flat(lists)[j] == Flat(init)[j];
      assert forall j | 0 <= j < |last| :: Flat(lists)[|Flat(init)| + j] == last[j];
    }
  }

  /** A child is left as it is by all of his children exactly if it absorbs them. */
  lemma {:induction false} AbsorbsExactly(c: Element, his: seq<Element>)
    ensures MergeAll(c, his) == c <==> Absorbs(c, his)
    decreases c
  {
    var union, lists := Union(c.tag, his), KidLists(c.tag, his);
    var kids := Flat(lists);
    MergeAllParts(c, his);
    MergeListsParts(c.kids, lists);
    ImportsNoneExactly(c.kids, lists);
    forall k | 0 <= k < |c.kids| ensures MergeAll(c.kids[k], kids) == c.kids[k] <==> Absorbs(c.kids[k], kids) {
      AbsorbsExactly(c.kids[k], kids);
    }
  }

  /** None of these is changed by his children. */
  ghost predicate Kept(these: seq<Element>, his: seq<Element>) {
    forall k | 0 <= k < |these| :: MergeAll(these[k], his) == these[k]
  }

  lemma BothKept(a: seq<Element>, b: seq<Element>, his: seq<Element>)
    ensures Kept(a + b, his) <==> Kept(a, his) && Kept(b, his)
  {
    var all := a + b;
    assert forall k | 0 <= k < |a| :: all[k] == a[k];
    assert forall k | 0 <= k < |b| :: all[|a| + k] == b[k];
  }

  /** Every child imported, at this level or below, absorbs all of what it came with. */
  ghost predicate Settled(these: seq<Element>, lists: seq<seq<Element>>)
    decreases these
  {
    var kids := Flat(lists);
    && (forall k | 0 <= k < |these| :: Settled(these[k].kids, KidLists(these[k].tag, kids)))
    && (forall k | 0 <= k < |Imports(these, lists)| :: Absorbs(Imports(these, lists)[k], kids))
  }

  /** After merging the lists, merging their children again leaves every child as it is exactly if all is settled. */
  lemma {:induction false} SettledExactly(these: seq<Element>, lists: seq<seq<Element>>)
    ensures Kept(MergeLists(these, lists), Flat(lists)) <==> Settled(these, lists)
    decreases these
  {
    var kids, imports := Flat(lists), Imports(these, lists);
    var merged := MergeEach(these, kids);
    forall k | 0 <= k < |these|
      ensures MergeAll(merged[k], kids) == merged[k] <==> Settled(these[k].kids, KidLists(these[k].tag, kids))
    {
      ChildSettledExactly(these[k], kids);
    }
    forall k | 0 <= k < |imports| ensures MergeAll(imports[k], kids) == imports[k] <==> Absorbs(imports[k], kids) {
      AbsorbsExactly(imports[k], kids);
    }
    MergeListsParts(these, lists);
    BothKept(merged, imports, kids);
  }

  lemma {:induction false} ChildSettledExactly(c: Element, his: seq<Element>)
    ensures MergeAll(MergeAll(c, his), his) == MergeAll(c, his) <==> Settled(c.kids, KidLists(c.tag, his))
    decreases c
  {
    var d, lists := MergeAll(c, his), KidLists(c.tag, his);
    MergeAllParts(c, his);
    MergeAllParts(d, his);
    assert d.attrs + Union(c.tag, his) == d.attrs;
    SettledExactly(c.kids, lists);
    MergeListsParts(d.kids, lists);
    ListsTagged(c.kids, lists);
    ImportsNoneExactly(d.kids, lists);
  }

  /** After the merge there is a child for every tag of the lists. */
  lemma {:induction false} ListsTagged(these: seq<Element>, lists: seq<seq<Element>>)
    ensures forall k | 0 <= k < |these| :: Tagged(MergeLists(these, lists), these[k].tag)
    ensures forall j | 0 <= j < |Flat(lists)| :: Tagged(MergeLists(these, lists), Flat(lists)[j].tag)
    decreases |lists|
  {
    if lists != [] {
      var init, last := lists[..|lists| - 1], lists[|lists| - 1];
      ListsTagged(these, init);
      var before, r := MergeLists(these, init), MergeLists(these, lists);
      KidsTagged(before, last);
      forall tag | Tagged(before, tag) ensures Tagged(r, tag) {
        var k :| 0 <= k < |before| && before[k].tag == tag;
        assert r[k].tag == tag;
      }
      assert forall j | 0 <= j < |Flat(init)| :: Flat(lists)[j] == Flat(init)[j];
      assert forall j | |Flat(init)| <= j < |Flat(lists)| :: Flat(lists)[j] == last[j - |Flat(init)|];
    } else {
      assert forall k | 0 <= k < |these| :: these[k].tag == these[k].tag;
    }
  }

  lemma KidsTagged(these: seq<Element>, his: seq<Element>)
    ensures forall j | 0 <= j < |his| :: Tagged(MergeKids(these, his), his[j].tag)
  {
    var r := MergeKids(these, his);
    var at := FreshAre(his, these);
    forall j | 0 <= j < |his| ensures Tagged(r, his[j].tag) {
      if Tagged(these, his[j].tag) {
        var k :| 0 <= k < |these| && these[k].tag == his[j].tag;
        assert r[k] == MergeAll(these[k], his);
      } else {
        assert j in at;
        var l :| 0 <= l < |at| && at[l] == j;
        assert r[|these| + l] == Fresh(his, these)[l];
      }
    }
  }

  lemma SingleList(these: seq<Element>, his: seq<Element>)
    ensures MergeLists(these, [his]) == MergeKids(these, his) && Flat([his]) == his
    ensures Imports(these, [his]) == Fresh(his, these)
  {
    assert [his][..0] == [];
    assert these + [] == these;
    assert Imports(these, []) == [] && MergeLists(these, []) == these;
  }

  /** Merging the same children a second time changes nothing exactly if every imported child absorbs them. */
  lemma MergeTwiceExactly(these: seq<Element>, his: seq<Element>)
    ensures MergeKids(MergeKids(these, his), his) == MergeKids(these, his) <==> Settled(these, [his])
  {
    var r := MergeKids(these, his);
    SingleList(these, his);
    SettledExactly(these, [his]);
    KidsTagged(these, his);
    FreshNoneExactly(his, r);
  }

  lemma {:induction false} InUnion(his: seq<Element>, j: nat, a: string)
    requires j < |his| && a in his[j].attrs
    ensures a in Union(his[j].tag, his)
    decreases |his|
  {
    if j < |his| - 1 { InUnion(his[..|his| - 1], j, a); }
  }

  /** So a second merge does change something whenever two of his children with one tag, which no child of this has,
      disagree on an attribute. */
  lemma ConflictMergesAgain(these: seq<Element>, his: seq<Element>, i: nat, j: nat, a: string)
    requires i < |his| && j < |his| && his[i].tag == his[j].tag && !Tagged(these, his[i].tag)
    requires a in his[i].attrs && a in his[j].attrs && his[i].attrs[a] != his[j].attrs[a]
    ensures MergeKids(MergeKids(these, his), his) != MergeKids(these, his)
  {
    MergeTwiceExactly(these, his);
    SingleList(these, his);
    InUnion(his, i, a);
    if Settled(these, [his]) {
      ImportAbsorbs(these, his, i);
      ImportAbsorbs(these, his, j);
    }
  }

  lemma ImportAbsorbs(these: seq<Element>, his: seq<Element>, i: nat)
    requires i < |his| && !Tagged(these, his[i].tag) && Settled(these, [his])
    ensures Absorbs(his[i], his)
  {
    SingleList(these, his);
    var at := FreshAre(his, these);
    var k :| 0 <= k < |at| && at[k] == i;
    assert Imports(these, [his])[k] == his[i];
  }

  // ---------------------------------------------------------------------------------------------------------
  // What lookup finds after a merge
  // ---------------------------------------------------------------------------------------------------------

  /** Some route below e spells the tags. */
  ghost predicate HasPath(e: Element, tags: seq<string>)
    decreases |tags|
  {
    tags == [] || exists k :: 0 <= k < |e.kids| && e.kids[k].tag == tags[0] && HasPath(e.kids[k], tags[1..])
  }

  /** A tag path exists in the merge exactly if it exists on one of the two sides; repeated tags do not matter. */
  lemma {:induction false} MergePaths(e: Element, his: Element, tags: seq<string>)
    ensures HasPath(MergeOne(e, his), tags) <==> HasPath(e, tags) || HasPath(his, tags)
    decreases |tags|, 0
  {
    if tags != [] {
      var r := MergeOne(e, his);
      assert r.kids == MergeKids(e.kids, his.kids) == MergeEach(e.kids, his.kids) + Fresh(his.kids, e.kids);
      forall k | 0 <= k < |e.kids| ensures KidPaths(r.kids[k], e.kids[k], his, tags[1..]) {
        MergeAllPaths(e.kids[k], his.kids, tags[1..]);
      }
      var at := FreshAre(his.kids, e.kids);
      forall l | 0 <= l < |at| ensures r.kids[|e.kids| + l] == his.kids[at[l]] {}
      if HasPath(r, tags) { MergedPathIsOld(e, his, r, at, tags); }
    }
  }

  /** What a merged child can spell: what it could, and what his children of the same tag can. */
  ghost predicate KidPaths(merged: Element, kid: Element, his: Element, tags: seq<string>) {
    && merged.tag == kid.tag
    && (HasPath(merged, tags) <==> HasPath(kid, tags) || SomeHasPath(his.kids, kid.tag, tags))
  }

  ghost predicate SomeHasPath(es: seq<Element>, tag: string, tags: seq<string>) {
    exists j :: 0 <= j < |es| && es[j].tag == tag && HasPath(es[j], tags)
  }

  lemma {:induction false} MergeAllPaths(e: Element, his: seq<Element>, tags: seq<string>)
    ensures HasPath(MergeAll(e, his), tags) <==> HasPath(e, tags) || SomeHasPath(his, e.tag, tags)
    decreases |tags|, 1 + |his|
  {
    if his != [] {
      var init, last := his[..|his| - 1], his[|his| - 1];
      MergeAllPaths(e, init, tags);
      MergePaths(MergeAll(e, init), last, tags);
      assert his == init + [last];
      SomeHasPathNext(init, last, e.tag, tags);
    }
  }

  lemma SomeHasPathNext(init: seq<Element>, last: Element, tag: string, tags: seq<string>)
    ensures SomeHasPath(init + [last], tag, tags) <==>
              SomeHasPath(init, tag, tags) || (last.tag == tag && HasPath(last, tags))
  {
    var all := init + [last];
    assert all[|init|] == last && forall j | 0 <= j < |init| :: all[j] == init[j];
  }

  /** r has e's children, merged, and then his children at the positions `at`. */
  ghost predicate Joined(e: Element, his: Element, r: Element, at: seq<nat>, tags: seq<string>) {
    && |r.kids| == |e.kids| + |at|
    && (forall k | 0 <= k < |e.kids| :: KidPaths(r.kids[k], e.kids[k], his, tags))
    && (forall l | 0 <= l < |at| :: at[l] < |his.kids| && r.kids[|e.kids| + l] == his.kids[at[l]])
  }

  lemma MergedPathIsOld(e: Element, his: Element, r: Element, at: seq<nat>, tags: seq<string>)
    requires tags != [] && HasPath(r, tags) && Joined(e, his, r, at, tags[1..])
    ensures HasPath(e, tags) || HasPath(his, tags)
  {
    var k: nat :| k < |r.kids| && r.kids[k].tag == tags[0] && HasPath(r.kids[k], tags[1..]);
    if k < |e.kids| {
      assert KidPaths(r.kids[k], e.kids[k], his, tags[1..]);
    } else {
      var l := k - |e.kids|;
      assert r.kids[|e.kids| + l] == his.kids[at[l]];
    }
  }

  /** The tag paths of a node's view are what lookup matches below the node. */
  lemma {:induction false} ViewPaths(nodes: Nodes, x: Id, tags: seq<string>)
    requires Tree(nodes) && x < |nodes|
    ensures HasPath(View(nodes, x), tags) <==> Matches(nodes, x, tags) != []
    decreases |tags|
  {
    if tags != [] {
      var ids, kids := nodes[x].children, View(nodes, x).kids;
      forall k | 0 <= k < |ids|
        ensures kids[k].tag == nodes[ids[k]].tag
        ensures HasPath(kids[k], tags[1..]) <==> Matches(nodes, ids[k], tags[1..]) != []
      {
        ViewPaths(nodes, ids[k], tags[1..]);
      }
      SomeMatchIn(nodes, ids, tags);
    }
  }

  lemma {:induction false} SomeMatchIn(nodes: Nodes, ids: seq<Id>, tags: seq<string>)
    requires Tree(nodes) && tags != [] && Ids(nodes, ids)
    ensures MatchesIn(nodes, ids, tags) != [] <==>
              exists k :: 0 <= k < |ids| && nodes[ids[k]].tag == tags[0] && Matches(nodes, ids[k], tags[1..]) != []
    decreases |ids|
  {
    if ids != [] {
      var rest := ids[1..];
      SomeMatchIn(nodes, rest, tags);
      assert forall k | 0 < k < |ids| :: ids[k] == rest[k - 1];
      assert forall k | 0 <= k < |rest| :: rest[k] == ids[k + 1];
    }
  }

  // ---------------------------------------------------------------------------------------------------------
  // The merge in the store
  // ---------------------------------------------------------------------------------------------------------

  /** The store grew, and among the old nodes only those below `a` may differ, in attributes and children. */
  ghost predicate Changes(nodes: Nodes, nodes': Nodes, a: Id)
    requires Tree(nodes)
  {
    && Tree(nodes') && a < |nodes| <= |nodes'|
    && (forall x | 0 <= x < |nodes| :: nodes'[x].parent == nodes[x].parent && nodes'[x].tag == nodes[x].tag)
    && (forall x | 0 <= x < |nodes| && !Under(nodes, x, a) :: nodes'[x] == nodes[x])
  }

  /** In nodes', the children of `current` are the merge of the earlier ones with his. */
  ghost predicate Merged(nodes: Nodes, nodes': Nodes, current: Id, his: seq<Element>)
    requires Tree(nodes)
  {
    && Changes(nodes, nodes', current)
    && View(nodes', current) == View(nodes, current).(kids := MergeKids(View(nodes, current).kids, his))
  }

  lemma ChangesNothing(nodes: Nodes, a: Id)
    requires Tree(nodes) && a < |nodes|
    ensures Changes(nodes, nodes, a)
  {
  }

  lemma ChangesTwice(n0: Nodes, n1: Nodes, n2: Nodes, a: Id, b: Id)
    requires Tree(n0) && Changes(n0, n1, a) && Changes(n1, n2, b) && b < |n0| && Under(n0, b, a)
    ensures Changes(n0, n2, a)
  {
    forall x | 0 <= x < |n0| && !Under(n0, x, a) ensures n2[x] == n0[x] {
      UnderKept(n0, n1, x, b);
      if Under(n0, x, b) { UnderTrans(n0, x, b, a); }
    }
  }

  lemma {:induction false} SameView(nodes: Nodes, nodes': Nodes, a: Id)
    requires Tree(nodes) && Tree(nodes') && a < |nodes| <= |nodes'|
    requires forall x | 0 <= x < |nodes| && Under(nodes, x, a) :: nodes'[x] == nodes[x]
    ensures View(nodes', a) == View(nodes, a)
    decreases |nodes| - a
  {
    assert Under(nodes, a, a);
    var ids := nodes[a].children;
    forall k | 0 <= k < |ids| ensures View(nodes', ids[k]) == View(nodes, ids[k]) {
      assert Under(nodes, ids[k], a) by { assert Under(nodes, nodes[ids[k]].parent, a); }
      forall x | 0 <= x < |nodes| && Under(nodes, x, ids[k]) ensures nodes'[x] == nodes[x] {
        UnderTrans(nodes, x, ids[k], a);
      }
      SameView(nodes, nodes', ids[k]);
    }
    assert View(nodes', a).kids == View(nodes, a).kids;
  }

  /** A change below child i leaves the node and the other children's views alone. */
  lemma ChangeInChild(nodes: Nodes, nodes': Nodes, current: Id, i: nat)
    requires Tree(nodes) && current < |nodes| && i < |nodes[current].children|
    requires Changes(nodes, nodes', nodes[current].children[i])
    ensures nodes'[current] == nodes[current]
    ensures forall k | 0 <= k < |nodes[current].children| && k != i ::
              View(nodes', nodes[current].children[k]) == View(nodes, nodes[current].children[k])
  {
    var ids := nodes[current].children;
    assert !Under(nodes, current, ids[i]);
    forall k | 0 <= k < |ids| && k != i ensures View(nodes', ids[k]) == View(nodes, ids[k]) {
      forall x | 0 <= x < |nodes| && Under(nodes, x, ids[k]) ensures nodes'[x] == nodes[x] {
        if Under(nodes, x, ids[i]) { SiblingsDisjoint(nodes, current, i, k, x); }
      }
      SameView(nodes, nodes', ids[k]);
    }
  }

  /** Two stores that differ in the attributes of x only. */
  ghost predicate OnlyAttributes(nodes: Nodes, nodes': Nodes, x: Id) {
    && x < |nodes| == |nodes'|
    && nodes'[x].tag == nodes[x].tag && nodes'[x].children == nodes[x].children && nodes'[x].parent == nodes[x].parent
    && (forall y | 0 <= y < |nodes| && y != x :: nodes'[y] == nodes[y])
  }

  lemma OnlyAttributesView(nodes: Nodes, nodes': Nodes, x: Id)
    requires Tree(nodes) && Tree(nodes') && OnlyAttributes(nodes, nodes', x)
    ensures Changes(nodes, nodes', x) && View(nodes', x) == View(nodes, x).(attrs := nodes'[x].attrs)
  {
    assert Under(nodes, x, x);
    var ids := nodes[x].children;
    forall k | 0 <= k < |ids| ensures View(nodes', ids[k]) == View(nodes, ids[k]) {
      SameView(nodes, nodes', ids[k]);
    }
    assert View(nodes', x).kids == View(nodes, x).kids;
  }

  lemma AttributesChange(nodes: Nodes, x: Id, attrs: map<string, string>)
    requires Tree(nodes) && x < |nodes|
    ensures Tree(WithAttributes(nodes, x, attrs))
    ensures Changes(nodes, WithAttributes(nodes, x, attrs), x)
    ensures View(WithAttributes(nodes, x, attrs), x) == View(nodes, x).(attrs := nodes[x].attrs + attrs)
  {
    OnlyAttributesView(nodes, WithAttributes(nodes, x, attrs), x);
  }

  lemma ChangesHere(n0: Nodes, n1: Nodes, n2: Nodes, a: Id)
    requires Tree(n0) && Changes(n0, n1, a) && Changes(n1, n2, a)
    ensures Changes(n0, n2, a)
  {
    assert Under(n0, a, a);
    ChangesTwice(n0, n1, n2, a, a);
  }

  /** Children merged, then attributes: the child has met one of his. */
  lemma PairMerged(n1: Nodes, n2: Nodes, child: Id, his: Element)
    requires Tree(n1) && Merged(n1, n2, child, his.kids) && n1[child].tag == his.tag
    ensures var n3 := WithAttributes(n2, child, his.attrs);
            Changes(n1, n3, child) && View(n3, child) == MergeOne(View(n1, child), his)
  {
    AttributesChange(n2, child, his.attrs);
    ChangesHere(n1, n2, WithAttributes(n2, child, his.attrs), child);
  }

  lemma MergeAllNext(e: Element, his: seq<Element>, j: nat)
    requires j < |his|
    ensures MergeAll(e, his[..j + 1]) ==
              if his[j].tag == e.tag then MergeOne(MergeAll(e, his[..j]), his[j]) else MergeAll(e, his[..j])
  {
    assert his[..j + 1][..j] == his[..j] && his[..j + 1][j] == his[j];
  }

  /** The inner loop after j of his children: the child has been merged with those of its tag. */
  ghost predicate MetUpTo(n0: Nodes, nodes: Nodes, child: Id, his: seq<Element>, j: nat, matched: bool)
    requires Tree(n0)
  {
    && Changes(n0, nodes, child) && j <= |his|
    && View(nodes, child) == MergeAll(View(n0, child), his[..j])
    && matched == Tagged(his[..j], n0[child].tag)
  }

  lemma OneMoreMet(n0: Nodes, n1: Nodes, n2: Nodes, child: Id, his: seq<Element>, j: nat)
    requires Tree(n0) && j < |his| && Changes(n0, n1, child) && Changes(n1, n2, child) && his[j].tag == n0[child].tag
    requires View(n1, child) == MergeAll(View(n0, child), his[..j])
    requires View(n2, child) == MergeOne(View(n1, child), his[j])
    ensures MetUpTo(n0, n2, child, his, j + 1, true)
  {
    ChangesHere(n0, n1, n2, child);
    MergeAllNext(View(n0, child), his, j);
  }

  lemma OneMorePassed(n0: Nodes, n1: Nodes, child: Id, his: seq<Element>, j: nat, matched: bool)
    requires Tree(n0) && j < |his| && MetUpTo(n0, n1, child, his, j, matched) && his[j].tag != n0[child].tag
    ensures MetUpTo(n0, n1, child, his, j + 1, matched)
  {
    MergeAllNext(View(n0, child), his, j);
  }

  /** The first loop of addOrUpdate after i children. */
  ghost predicate EachMerged(n0: Nodes, nodes: Nodes, current: Id, his: seq<Element>, i: nat)
    requires Tree(n0)
  {
    && Changes(n0, nodes, current) && nodes[current] == n0[current] && i <= |n0[current].children|
    && (forall k | 0 <= k < i ::
          View(nodes, n0[current].children[k]) == MergeAll(View(n0, n0[current].children[k]), his))
    && (forall k | i <= k < |n0[current].children| ::
          View(nodes, n0[current].children[k]) == View(n0, n0[current].children[k]))
  }

  lemma OneMoreMerged(n0: Nodes, n1: Nodes, n2: Nodes, current: Id, his: seq<Element>, i: nat)
    requires Tree(n0) && EachMerged(n0, n1, current, his, i) && i < |n0[current].children|
    requires Changes(n1, n2, n0[current].children[i])
    requires View(n2, n0[current].children[i]) == MergeAll(View(n1, n0[current].children[i]), his)
    ensures EachMerged(n0, n2, current, his, i + 1)
  {
    var c := n0[current].children[i];
    assert Under(n0, c, current) by { assert Under(n0, n0[c].parent, current); }
    ChangesTwice(n0, n1, n2, current, c);
    ChangeInChild(n1, n2, current, i);
  }

  lemma EachMergedView(n0: Nodes, nodes: Nodes, current: Id, his: seq<Element>)
    requires Tree(n0) && current < |n0| && EachMerged(n0, nodes, current, his, |n0[current].children|)
    ensures ImportedUpTo(n0, nodes, current, his, 0)
  {
    assert View(nodes, current).kids == MergeEach(View(n0, current).kids, his);
    assert his[..0] == [];
  }

  /** The second loop of addOrUpdate after j of his children. */
  ghost predicate ImportedUpTo(n0: Nodes, nodes: Nodes, current: Id, his: seq<Element>, j: nat)
    requires Tree(n0) && Tree(nodes) && current < |n0| <= |nodes| && j <= |his|
  {
    var these := View(n0, current).kids;
    View(nodes, current) == View(n0, current).(kids := MergeEach(these, his) + Fresh(his[..j], these))
  }

  /** `node` is a copy of e, appended as the last child of `parent`; nothing else changed. */
  ghost predicate Imported(n0: Nodes, nodes: Nodes, parent: Id, node: Id, e: Element)
    requires Tree(n0)
  {
    && Tree(nodes) && parent < |n0| < |nodes| && node == |n0|
    && nodes[parent] == n0[parent].(children := n0[parent].children + [node])
    && (forall x | 0 <= x < |n0| && x != parent :: nodes[x] == n0[x])
    && View(nodes, node) == e
  }

  lemma ImportedView(n1: Nodes, n2: Nodes, parent: Id, node: Id, e: Element)
    requires Tree(n1) && Imported(n1, n2, parent, node, e)
    ensures View(n2, parent) == View(n1, parent).(kids := View(n1, parent).kids + [e])
    ensures Changes(n1, n2, parent)
  {
    assert Under(n1, parent, parent);
    var ids := n1[parent].children;
    forall k | 0 <= k < |ids| ensures View(n2, ids[k]) == View(n1, ids[k]) {
      SameView(n1, n2, ids[k]);
    }
    assert View(n2, parent).kids == View(n1, parent).kids + [e];
  }

  lemma OneMoreImported(n0: Nodes, n1: Nodes, n2: Nodes, current: Id, node: Id, his: seq<Element>, j: nat)
    requires Tree(n0) && Changes(n0, n1, current) && j < |his| && ImportedUpTo(n0, n1, current, his, j)
    requires Imported(n1, n2, current, node, his[j])
    requires !Tagged(View(n0, current).kids, his[j].tag)
    ensures Changes(n0, n2, current) && ImportedUpTo(n0, n2, current, his, j + 1)
  {
    assert Under(n0, current, current);
    ImportedView(n1, n2, current, node, his[j]);
    ChangesTwice(n0, n1, n2, current, current);
    FreshNext(his, j, View(n0, current).kids);
  }

  lemma NoneMoreImported(n0: Nodes, n1: Nodes, current: Id, his: seq<Element>, j: nat)
    requires Tree(n0) && Tree(n1) && current < |n0| <= |n1| && j < |his| && ImportedUpTo(n0, n1, current, his, j)
    requires Tagged(View(n0, current).kids, his[j].tag)
    ensures ImportedUpTo(n0, n1, current, his, j + 1)
  {
    FreshNext(his, j, View(n0, current).kids);
  }

  lemma AllImported(n0: Nodes, n1: Nodes, current: Id, his: seq<Element>)
    requires Tree(n0) && Changes(n0, n1, current) && ImportedUpTo(n0, n1, current, his, |his|)
    ensures Merged(n0, n1, current, his)
  {
    assert his[..|his|] == his;
  }

  lemma FreshNext(his: seq<Element>, j: nat, these: seq<Element>)
    requires j < |his|
    ensures Fresh(his[..j + 1], these) == Fresh(his[..j], these) + if Tagged(these, his[j].tag) then [] else [his[j]]
  {
    assert his[..j + 1][..j] == his[..j];
  }

  /** tagsInHis after i children: the tags found on both sides. */
  ghost predicate TagsOf(n0: Nodes, current: Id, i: nat, his: seq<Element>, tags: set<string>)
    requires current < |n0|
  {
    && Ids(n0, n0[current].children) && i <= |n0[current].children|
    && forall tag :: tag in tags <==>
         Tagged(his, tag) && exists k :: 0 <= k < i && n0[n0[current].children[k]].tag == tag
  }

  lemma TagsNext(n0: Nodes, current: Id, i: nat, his: seq<Element>, tags: set<string>)
    requires Tree(n0) && current < |n0| && i < |n0[current].children| && TagsOf(n0, current, i, his, tags)
    ensures var tag := n0[n0[current].children[i]].tag;
            TagsOf(n0, current, i + 1, his, if Tagged(his, tag) then tags + {tag} else tags)
  {
    var ids := n0[current].children;
    var mine := n0[ids[i]].tag;
    var tags' := if Tagged(his, mine) then tags + {mine} else tags;
    forall tag
      ensures tag in tags' <==> Tagged(his, tag) && exists k :: 0 <= k < i + 1 && n0[ids[k]].tag == tag
    {
      if Tagged(his, tag) && tag !in tags && exists k :: 0 <= k < i + 1 && n0[ids[k]].tag == tag {
        var k :| 0 <= k < i + 1 && n0[ids[k]].tag == tag;
        assert k == i;
      }
      if tag == mine { assert n0[ids[i]].tag == tag; }
    }
  }

  /** The collected tags tell his children that met one of these from the others. */
  ghost predicate Splits(tags: set<string>, his: seq<Element>, these: seq<Element>) {
    forall j | 0 <= j < |his| :: his[j].tag in tags <==> Tagged(these, his[j].tag)
  }

  lemma TagsSplit(n0: Nodes, current: Id, his: seq<Element>, tags: set<string>)
    requires Tree(n0) && current < |n0| && TagsOf(n0, current, |n0[current].children|, his, tags)
    ensures Splits(tags, his, View(n0, current).kids)
  {
    var kids := View(n0, current).kids;
    assert forall k | 0 <= k < |kids| :: kids[k].tag == n0[n0[current].children[k]].tag;
    forall j | 0 <= j < |his| ensures his[j].tag in tags <==> Tagged(kids, his[j].tag) {
      assert Tagged(his, his[j].tag);
    }
  }

  /** A copied element gains one more of his children. */
  lemma OneMoreCopied(n0: Nodes, n1: Nodes, n2: Nodes, parent: Id, node: Id, copy: Id, e: Element, k: nat)
    requires Tree(n0) && k < |e.kids| && Imported(n0, n1, parent, node, e.(kids := e.kids[..k]))
    requires Imported(n1, n2, node, copy, e.kids[k])
    ensures Imported(n0, n2, parent, node, e.(kids := e.kids[..k + 1]))
  {
    ImportedView(n1, n2, node, copy, e.kids[k]);
    assert e.kids[..k + 1] == e.kids[..k] + [e.kids[k]];
  }

  // ---------------------------------------------------------------------------------------------------------
  // Calls of addOrUpdate
  // ---------------------------------------------------------------------------------------------------------

  /** After merging the children of his node into those of this one, a lookup below it finds something exactly if it
      found something before or the same lookup finds something below his node. */
  lemma LookupAfterMerge(nodes: Nodes, nodes': Nodes, current: Id, his: Nodes, hisCurrent: Id, tags: seq<string>)
    requires Tree(nodes) && Tree(his) && hisCurrent < |his| && tags != []
    requires Merged(nodes, nodes', current, View(his, hisCurrent).kids)
    ensures Matches(nodes', current, tags) != [] <==>
              Matches(nodes, current, tags) != [] || Matches(his, hisCurrent, tags) != []
  {
    var e, h, e' := View(nodes, current), View(his, hisCurrent), View(nodes', current);
    ViewPaths(nodes, current, tags);
    ViewPaths(his, hisCurrent, tags);
    ViewPaths(nodes', current, tags);
    MergePaths(e, h, tags);
    assert e'.kids == MergeOne(e, h).kids;
  }

  /** A second call with the same node leaves the children as they are exactly if what the first one imported absorbs
      them. */
  lemma MergeAgainExactly(n0: Nodes, n1: Nodes, n2: Nodes, current: Id, his: seq<Element>)
    requires Tree(n0) && Merged(n0, n1, current, his) && Merged(n1, n2, current, his)
    ensures View(n2, current) == View(n1, current) <==> Settled(View(n0, current).kids, [his])
  {
    MergeTwiceExactly(View(n0, current).kids, his);
  }

  /** It is so with distinct sibling tags on his side. */
  lemma MergeAgain(n0: Nodes, n1: Nodes, n2: Nodes, current: Id, his: Element)
    requires Tree(n0) && Merged(n0, n1, current, his.kids) && Merged(n1, n2, current, his.kids) && Distinct(his)
    ensures View(n2, current) == View(n1, current)
  {
    MergeTwice(View(n0, current).kids, his);
  }
}
