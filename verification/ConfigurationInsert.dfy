/** ConfigurationFile::addConfigurationNode: what inserting at a path does to what lookup finds at that path. */
module ConfigurationInsert {
  import opened ConfigurationTree
  import opened Runs

  // ---------------------------------------------------------------------------------------------------------
  // Insertion as a function
  // ---------------------------------------------------------------------------------------------------------

  /** createElement and appendChild. */
  function Create(nodes: Nodes, current: Id, tag: string): Nodes
    requires current < |nodes|
  {
    nodes[current := nodes[current].(children := nodes[current].children + [|nodes|])]
    + [Node(tag, map[], [], current)]
  }

  function WithAttributes(nodes: Nodes, x: Id, attrs: map<string, string>): Nodes {
    if x < |nodes| then nodes[x := nodes[x].(attrs := nodes[x].attrs + attrs)] else nodes
  }

  /** The last child with the tag. */
  function LastTagged(nodes: Nodes, ids: seq<Id>, tag: string): (i: Option<nat>)
    requires Ids(nodes, ids)
    ensures i.Some? ==> i.value < |ids| && nodes[ids[i.value]].tag == tag
    ensures i.Some? ==> forall k | i.value < k < |ids| :: nodes[ids[k]].tag != tag
    ensures i.None? ==> NoneTagged(nodes, ids, tag)
    decreases |ids|
  {
    if ids == [] then None
    else
      var last := |ids| - 1;
      if nodes[ids[last]].tag == tag then Some(last) else LastTagged(nodes, ids[..last], tag)
  }

  /** Go down the last matching child, creating where there is none, and always create the final tag. */
  ghost function Insert(nodes: Nodes, current: Id, tags: seq<string>): (r: (Nodes, Id))
    requires Tree(nodes) && current < |nodes| && tags != []
    decreases |tags|
  {
    if |tags| == 1 then (Create(nodes, current, tags[0]), |nodes|)
    else
      match LastTagged(nodes, nodes[current].children, tags[0])
      case Some(i) => Insert(nodes, nodes[current].children[i], tags[1..])
      case None =>
        CreateKeepsTree(nodes, current, tags[0]);
        Insert(Create(nodes, current, tags[0]), |nodes|, tags[1..])
  }

  lemma CreateKeepsTree(nodes: Nodes, current: Id, tag: string)
    requires Tree(nodes) && current < |nodes|
    ensures Tree(Create(nodes, current, tag))
  {
    var nodes' := Create(nodes, current, tag);
    forall x, k | 0 <= x < |nodes'| && 0 <= k < |nodes'[x].children|
      ensures x < nodes'[x].children[k] < |nodes'| && nodes'[nodes'[x].children[k]].parent == x
    {
      if x < |nodes| && k < |nodes[x].children| { assert nodes'[x].children[k] == nodes[x].children[k]; }
    }
    forall x, i, j | 0 <= x < |nodes'| && 0 <= i < j < |nodes'[x].children|
      ensures nodes'[x].children[i] != nodes'[x].children[j]
    {
      if x < |nodes| && i < |nodes[x].children| { assert nodes'[x].children[i] == nodes[x].children[i]; }
      if x < |nodes| && j < |nodes[x].children| { assert nodes'[x].children[j] == nodes[x].children[j]; }
    }
  }

  // ---------------------------------------------------------------------------------------------------------
  // Subtrees are disjoint
  // ---------------------------------------------------------------------------------------------------------

  /** Node x is a or below a. */
  ghost predicate Under(nodes: Nodes, x: Id, a: Id)
    requires Tree(nodes) && x < |nodes|
    decreases x
  {
    x == a || (x > a && Under(nodes, nodes[x].parent, a))
  }

  lemma {:induction false} UnderTrans(nodes: Nodes, x: Id, b: Id, a: Id)
    requires Tree(nodes) && x < |nodes| && b < |nodes| && Under(nodes, x, b) && Under(nodes, b, a)
    ensures Under(nodes, x, a)
    decreases x
  {
    if x != b { UnderTrans(nodes, nodes[x].parent, b, a); }
  }

  lemma {:induction false} UnderChain(nodes: Nodes, x: Id, a: Id, b: Id)
    requires Tree(nodes) && x < |nodes| && b < |nodes| && a <= b && Under(nodes, x, a) && Under(nodes, x, b)
    ensures Under(nodes, b, a)
    decreases x
  {
    if x != b { UnderChain(nodes, nodes[x].parent, a, b); }
  }

  /** No node is below two different children of one node. */
  lemma SiblingsDisjoint(nodes: Nodes, current: Id, i: nat, j: nat, x: Id)
    requires Tree(nodes) && current < |nodes| && i < |nodes[current].children| && j < |nodes[current].children|
    requires x < |nodes| && Under(nodes, x, nodes[current].children[i]) && Under(nodes, x, nodes[current].children[j])
    ensures i == j
  {
    var a, b := nodes[current].children[i], nodes[current].children[j];
    if a < b {
      UnderChain(nodes, x, a, b);
    } else if b < a {
      UnderChain(nodes, x, b, a);
    }
  }

  /** The store only grew, and below `a` it is as before. */
  ghost predicate SameBelow(nodes: Nodes, nodes': Nodes, a: Id)
    requires Tree(nodes) && Tree(nodes')
  {
    && |nodes| <= |nodes'|
    && forall x | 0 <= x < |nodes| && Under(nodes, x, a) ::
         nodes'[x].tag == nodes[x].tag && nodes'[x].children == nodes[x].children
  }

  lemma {:induction false} SameBelowSameMatches(nodes: Nodes, nodes': Nodes, a: Id, segments: seq<string>)
    requires Tree(nodes) && Tree(nodes') && a < |nodes| && SameBelow(nodes, nodes', a)
    ensures Matches(nodes', a, segments) == Matches(nodes, a, segments)
    decreases |segments|, 1, 0
  {
    assert Under(nodes, a, a);
    if segments != [] {
      var ids := nodes[a].children;
      forall k | 0 <= k < |ids| ensures SameBelow(nodes, nodes', ids[k]) { ChildSameBelow(nodes, nodes', a, k); }
      SameBelowSameMatchesIn(nodes, nodes', ids, segments);
    }
  }

  lemma ChildSameBelow(nodes: Nodes, nodes': Nodes, a: Id, k: nat)
    requires Tree(nodes) && Tree(nodes') && a < |nodes| && k < |nodes[a].children| && SameBelow(nodes, nodes', a)
    ensures SameBelow(nodes, nodes', nodes[a].children[k])
  {
    var c := nodes[a].children[k];
    assert Under(nodes, nodes[c].parent, a);
    forall x | 0 <= x < |nodes| && Under(nodes, x, c)
      ensures nodes'[x].tag == nodes[x].tag && nodes'[x].children == nodes[x].children
    {
      UnderTrans(nodes, x, c, a);
    }
  }

  lemma {:induction false} SameBelowSameMatchesIn(nodes: Nodes, nodes': Nodes, ids: seq<Id>, segments: seq<string>)
    requires Tree(nodes) && Tree(nodes') && |nodes| <= |nodes'| && segments != [] && Ids(nodes, ids)
    requires forall k | 0 <= k < |ids| :: SameBelow(nodes, nodes', ids[k])
    ensures MatchesIn(nodes', ids, segments) == MatchesIn(nodes, ids, segments)
    decreases |segments|, 0, |ids|
  {
    if ids != [] {
      assert Under(nodes, ids[0], ids[0]);
      SameBelowSameMatches(nodes, nodes', ids[0], segments[1..]);
      forall k | 0 <= k < |ids[1..]| ensures SameBelow(nodes, nodes', ids[1..][k]) {
        assert ids[1..][k] == ids[k + 1];
      }
      SameBelowSameMatchesIn(nodes, nodes', ids[1..], segments);
    }
  }

  // ---------------------------------------------------------------------------------------------------------
  // The frame of insertion
  // ---------------------------------------------------------------------------------------------------------

  /** Old nodes keep tag, attributes and parent and at most gain children; those not below `a` are untouched. */
  ghost predicate GrowsBelow(nodes: Nodes, nodes': Nodes, a: Id)
    requires Tree(nodes) && a < |nodes|
  {
    && Tree(nodes') && |nodes| <= |nodes'|
    && (forall x | 0 <= x < |nodes| ::
          && nodes'[x].tag == nodes[x].tag && nodes'[x].attrs == nodes[x].attrs && nodes'[x].parent == nodes[x].parent
          && nodes[x].children <= nodes'[x].children)
    && (forall x | 0 <= x < |nodes| && !Under(nodes, x, a) :: nodes'[x] == nodes[x])
  }

  lemma {:induction false} UnderKept(nodes: Nodes, nodes': Nodes, x: Id, a: Id)
    requires Tree(nodes) && Tree(nodes') && |nodes| <= |nodes'| && x < |nodes|
    requires forall y | 0 <= y < |nodes| :: nodes'[y].parent == nodes[y].parent
    ensures Under(nodes', x, a) <==> Under(nodes, x, a)
    decreases x
  {
    if x > a { UnderKept(nodes, nodes', nodes[x].parent, a); }
  }

  lemma CreateGrows(nodes: Nodes, current: Id, tag: string)
    requires Tree(nodes) && current < |nodes|
    ensures GrowsBelow(nodes, Create(nodes, current, tag), current)
  {
    CreateKeepsTree(nodes, current, tag);
    assert Under(nodes, current, current);
  }

  lemma {:induction false} InsertGrows(nodes: Nodes, current: Id, tags: seq<string>)
    requires Tree(nodes) && current < |nodes| && tags != []
    ensures var (nodes', new') := Insert(nodes, current, tags);
            && GrowsBelow(nodes, nodes', current) && |nodes| <= new' < |nodes'|
            && forall x | |nodes| <= x < |nodes'| :: nodes'[x].attrs == map[]
    decreases |tags|
  {
    CreateGrows(nodes, current, tags[0]);
    if |tags| > 1 {
      match LastTagged(nodes, nodes[current].children, tags[0])
      case Some(i) =>
        var c := nodes[current].children[i];
        InsertGrows(nodes, c, tags[1..]);
        assert Under(nodes, c, current);
        forall x | 0 <= x < |nodes| && !Under(nodes, x, current) ensures !Under(nodes, x, c) {
          if Under(nodes, x, c) { UnderTrans(nodes, x, c, current); }
        }
      case None =>
        var nodes1 := Create(nodes, current, tags[0]);
        InsertGrows(nodes1, |nodes|, tags[1..]);
        var nodes' := Insert(nodes1, |nodes|, tags[1..]).0;
        forall x | 0 <= x < |nodes|
          ensures nodes'[x] == nodes1[x]
        {
          assert !Under(nodes1, x, |nodes|);
        }
    }
  }

  // ---------------------------------------------------------------------------------------------------------
  // Which nodes are reused
  // ---------------------------------------------------------------------------------------------------------

  /** How many levels insertion goes down existing nodes. */
  ghost function Reused(nodes: Nodes, current: Id, tags: seq<string>): nat
    requires Tree(nodes) && current < |nodes| && tags != []
    decreases |tags|
  {
    if |tags| == 1 then 0
    else
      match LastTagged(nodes, nodes[current].children, tags[0])
      case Some(i) => 1 + Reused(nodes, nodes[current].children[i], tags[1..])
      case None => 0
  }

  /** It is the length of the longest proper prefix of the tags along which the last candidates lead. */
  lemma {:induction false} ReusedIsLongest(nodes: Nodes, current: Id, tags: seq<string>, m: nat)
    requires Tree(nodes) && current < |nodes| && m < |tags|
    ensures Reused(nodes, current, tags) < |tags|
    ensures LastRoute(nodes, current, tags[..m]) <==> m <= Reused(nodes, current, tags)
    decreases |tags|
  {
    if |tags| > 1 {
      match LastTagged(nodes, nodes[current].children, tags[0])
      case Some(i) => ReusedIsLongest(nodes, nodes[current].children[i], tags[1..], if m == 0 then 0 else m - 1);
      case None =>
    }
    if m == 0 {
      assert TakesLast(nodes, current, [], tags[..0]);
    } else {
      PrefixRoute(nodes, current, tags, m);
    }
  }

  lemma PrefixRoute(nodes: Nodes, current: Id, tags: seq<string>, m: nat)
    requires Tree(nodes) && current < |nodes| && 0 < m < |tags|
    ensures var i := LastTagged(nodes, nodes[current].children, tags[0]);
            LastRoute(nodes, current, tags[..m]) <==>
              i.Some? && LastRoute(nodes, nodes[current].children[i.value], tags[1..][..m - 1])
  {
    var segments := tags[..m];
    assert segments[1..] == tags[1..][..m - 1];
    match LastTagged(nodes, nodes[current].children, tags[0])
    case Some(i) => LastRouteStep(nodes, current, segments, i);
    case None =>
      NoCandidate(nodes, nodes[current].children, segments);
      FoundExactly(nodes, current, segments);
  }

  /** Insertion creates exactly the nodes it cannot reuse, and the one it returns last. */
  lemma {:induction false} InsertCreates(nodes: Nodes, current: Id, tags: seq<string>)
    requires Tree(nodes) && current < |nodes| && tags != []
    ensures var (nodes', new') := Insert(nodes, current, tags);
            |nodes'| == |nodes| + |tags| - Reused(nodes, current, tags) && new' == |nodes'| - 1
    decreases |tags|
  {
    if |tags| > 1 {
      match LastTagged(nodes, nodes[current].children, tags[0])
      case Some(i) => InsertCreates(nodes, nodes[current].children[i], tags[1..]);
      case None =>
        CreateKeepsTree(nodes, current, tags[0]);
        InsertCreates(Create(nodes, current, tags[0]), |nodes|, tags[1..]);
    }
  }

  // ---------------------------------------------------------------------------------------------------------
  // What lookup finds afterwards
  // ---------------------------------------------------------------------------------------------------------

  /** The children other than i are outside what an insertion below child i touches. */
  lemma OtherChildSame(nodes: Nodes, nodes': Nodes, current: Id, i: nat, k: nat)
    requires Tree(nodes) && current < |nodes| && i != k
    requires i < |nodes[current].children| && k < |nodes[current].children|
    requires GrowsBelow(nodes, nodes', nodes[current].children[i])
    ensures SameBelow(nodes, nodes', nodes[current].children[k])
  {
    forall x | 0 <= x < |nodes| && Under(nodes, x, nodes[current].children[k]) ensures nodes'[x] == nodes[x] {
      if Under(nodes, x, nodes[current].children[i]) { SiblingsDisjoint(nodes, current, i, k, x); }
    }
  }

  /** Inserting below child i, the last one tagged tags[0], changes a lookup only through that child. */
  lemma InsertBelowChild(nodes: Nodes, nodes': Nodes, current: Id, i: nat, segments: seq<string>)
    requires Tree(nodes) && current < |nodes| && i < |nodes[current].children| && segments != []
    requires GrowsBelow(nodes, nodes', nodes[current].children[i])
    ensures nodes'[current].children == nodes[current].children
    ensures var ids := nodes[current].children;
            && MatchesIn(nodes', ids[..i], segments) == MatchesIn(nodes, ids[..i], segments)
            && MatchesIn(nodes', ids[i + 1..], segments) == MatchesIn(nodes, ids[i + 1..], segments)
  {
    var ids := nodes[current].children;
    assert !Under(nodes, current, ids[i]);
    forall k | 0 <= k < |ids| && k != i ensures SameBelow(nodes, nodes', ids[k]) {
      OtherChildSame(nodes, nodes', current, i, k);
    }
    SameBelowSameMatchesIn(nodes, nodes', ids[..i], segments);
    SameBelowSameMatchesIn(nodes, nodes', ids[i + 1..], segments);
  }

  /** The children of `current` look as before when the store grew by a new last child and below it. */
  lemma OldChildrenSame(nodes: Nodes, nodes': Nodes, current: Id, segments: seq<string>)
    requires Tree(nodes) && Tree(nodes') && current < |nodes| <= |nodes'| && segments != []
    requires forall x | current < x < |nodes| :: nodes'[x] == nodes[x]
    ensures MatchesIn(nodes', nodes[current].children, segments) == MatchesIn(nodes, nodes[current].children, segments)
  {
    var ids := nodes[current].children;
    forall k | 0 <= k < |ids| ensures SameBelow(nodes, nodes', ids[k]) {
      forall x | 0 <= x < |nodes| && Under(nodes, x, ids[k]) ensures nodes'[x] == nodes[x] {}
    }
    SameBelowSameMatchesIn(nodes, nodes', ids, segments);
  }

  lemma MatchesSplit(nodes: Nodes, ids: seq<Id>, i: nat, segments: seq<string>)
    requires Tree(nodes) && segments != [] && Ids(nodes, ids) && i < |ids|
    ensures MatchesIn(nodes, ids, segments) ==
              MatchesIn(nodes, ids[..i], segments)
              + (if nodes[ids[i]].tag == segments[0] then Matches(nodes, ids[i], segments[1..]) else [])
              + MatchesIn(nodes, ids[i + 1..], segments)
  {
    assert ids == ids[..i + 1] + ids[i + 1..];
    MatchesInAppend(nodes, ids[..i + 1], ids[i + 1..], segments);
    MatchesInNext(nodes, ids, i + 1, segments);
  }

  /** The nodes created are found along the prefixes of the tags that insertion could not reuse, one for each of them in
      the order of their creation; the rest of what lookup finds is as before. */
  ghost function Gained(count: nat, reused: nat, tags: seq<string>, segments: seq<string>): seq<Id> {
    if reused < |segments| && segments <= tags then [count + |segments| - reused - 1] else []
  }

  ghost predicate Appended(nodes: Nodes, current: Id, segments: seq<string>, nodes': Nodes, more: seq<Id>)
    requires Tree(nodes) && current < |nodes|
  {
    && Tree(nodes') && current < |nodes'|
    && Matches(nodes', current, segments) == Matches(nodes, current, segments) + more
  }

  /** Every lookup after an insertion finds what it found before and then, exactly if it looks up a prefix of the tags
      along which the last candidates did not lead, or the tags themselves, the one node created for that prefix. */
  lemma {:induction false} InsertThenLookup(nodes: Nodes, current: Id, tags: seq<string>, segments: seq<string>)
    requires Tree(nodes) && current < |nodes| && tags != []
    ensures Appended(nodes, current, segments, Insert(nodes, current, tags).0,
                     Gained(|nodes|, Reused(nodes, current, tags), tags, segments))
    decreases |tags|, 1
  {
    if segments == [] {
      InsertGrows(nodes, current, tags);
    } else if |tags| == 1 {
      FinalTag(nodes, current, tags[0], segments);
      OneTag(tags, segments);
    } else if LastTagged(nodes, nodes[current].children, tags[0]).Some? {
      ReuseThenLookup(nodes, current, tags, segments);
    } else {
      CreateThenLookup(nodes, current, tags, segments);
    }
  }

  lemma {:induction false} ReuseThenLookup(nodes: Nodes, current: Id, tags: seq<string>, segments: seq<string>)
    requires Tree(nodes) && current < |nodes| && |tags| > 1 && segments != []
    requires LastTagged(nodes, nodes[current].children, tags[0]).Some?
    ensures Appended(nodes, current, segments, Insert(nodes, current, tags).0,
                     Gained(|nodes|, Reused(nodes, current, tags), tags, segments))
    decreases |tags|, 0
  {
    var i := LastTagged(nodes, nodes[current].children, tags[0]).value;
    var c := nodes[current].children[i];
    InsertReuses(nodes, current, tags, i);
    var nodes', reused := Insert(nodes, current, tags).0, Reused(nodes, current, tags) - 1;
    InsertThenLookup(nodes, c, tags[1..], segments[1..]);
    InsertGrows(nodes, c, tags[1..]);
    ThroughChild(nodes, current, tags, segments, i, nodes', reused);
  }

  lemma {:induction false} CreateThenLookup(nodes: Nodes, current: Id, tags: seq<string>, segments: seq<string>)
    requires Tree(nodes) && current < |nodes| && |tags| > 1 && segments != []
    requires LastTagged(nodes, nodes[current].children, tags[0]).None?
    ensures Appended(nodes, current, segments, Insert(nodes, current, tags).0,
                     Gained(|nodes|, Reused(nodes, current, tags), tags, segments))
    decreases |tags|, 0
  {
    var nodes1 := InsertGoesNew(nodes, current, tags);
    InsertThenLookup(nodes1, |nodes|, tags[1..], segments[1..]);
    InsertGrows(nodes1, |nodes|, tags[1..]);
    ThroughNew(nodes, current, tags, segments, nodes1, Insert(nodes1, |nodes|, tags[1..]).0);
  }

  lemma InsertReuses(nodes: Nodes, current: Id, tags: seq<string>, i: nat)
    requires Tree(nodes) && current < |nodes| && |tags| > 1
    requires LastTagged(nodes, nodes[current].children, tags[0]) == Some(i)
    ensures var c := nodes[current].children[i];
            && Insert(nodes, current, tags) == Insert(nodes, c, tags[1..])
            && Reused(nodes, current, tags) == Reused(nodes, c, tags[1..]) + 1
  {
  }

  lemma InsertGoesNew(nodes: Nodes, current: Id, tags: seq<string>) returns (nodes1: Nodes)
    requires Tree(nodes) && current < |nodes| && |tags| > 1
    requires LastTagged(nodes, nodes[current].children, tags[0]).None?
    ensures nodes1 == Create(nodes, current, tags[0]) && Tree(nodes1)
    ensures Insert(nodes, current, tags) == Insert(nodes1, |nodes|, tags[1..])
    ensures Reused(nodes, current, tags) == Reused(nodes1, |nodes|, tags[1..]) == 0
  {
    nodes1 := Create(nodes, current, tags[0]);
    CreateKeepsTree(nodes, current, tags[0]);
  }

  lemma OneTag(tags: seq<string>, segments: seq<string>)
    requires |tags| == 1 && segments != []
    ensures segments <= tags <==> segments == [tags[0]]
  {
  }

  /** Among lookups at least as deep as the insertion, only that of the tags themselves finds the new node as well,
      after all it found before. */
  lemma InsertAppendsMatch(nodes: Nodes, current: Id, tags: seq<string>, segments: seq<string>)
    requires Tree(nodes) && current < |nodes| && tags != [] && |segments| >= |tags|
    ensures var (nodes', new') := Insert(nodes, current, tags);
            Appended(nodes, current, segments, nodes', if segments == tags then [new'] else [])
  {
    InsertThenLookup(nodes, current, tags, segments);
    InsertCreates(nodes, current, tags);
    ReusedIsLongest(nodes, current, tags, 0);
  }

  lemma FinalTag(nodes: Nodes, current: Id, tag: string, segments: seq<string>)
    requires Tree(nodes) && current < |nodes| && segments != []
    ensures var nodes' := Create(nodes, current, tag);
            && Tree(nodes')
            && Matches(nodes', current, segments)
               == Matches(nodes, current, segments) + if segments == [tag] then [|nodes|] else []
  {
    var nodes' := Create(nodes, current, tag);
    CreateKeepsTree(nodes, current, tag);
    LeafMatches(nodes', |nodes|, segments[1..]);
    LastChildAdded(nodes, nodes', current, |nodes|, segments);
    assert nodes'[|nodes|].tag == tag;
  }

  lemma LeafMatches(nodes: Nodes, leaf: Id, segments: seq<string>)
    requires Tree(nodes) && leaf < |nodes| && nodes[leaf].children == []
    ensures Matches(nodes, leaf, segments) == if segments == [] then [leaf] else []
  {
    if segments != [] { assert MatchesIn(nodes, [], segments) == []; }
  }

  /** A new last child c, and nothing else new below `current`. */
  lemma LastChildAdded(nodes: Nodes, nodes': Nodes, current: Id, c: Id, segments: seq<string>)
    requires Tree(nodes) && Tree(nodes') && current < |nodes| <= |nodes'| && c < |nodes'| && segments != []
    requires forall x | current < x < |nodes| :: nodes'[x] == nodes[x]
    requires nodes'[current].children == nodes[current].children + [c]
    ensures Matches(nodes', current, segments)
            == Matches(nodes, current, segments)
               + if nodes'[c].tag == segments[0] then Matches(nodes', c, segments[1..]) else []
  {
    OldChildrenSame(nodes, nodes', current, segments);
    MatchesInAppend(nodes', nodes[current].children, [c], segments);
    MatchesInOne(nodes', c, segments);
  }

  lemma SameHeadAndTail(a: seq<string>, b: seq<string>)
    requires a != [] && b != []
    ensures a == b <==> a[0] == b[0] && a[1..] == b[1..]
  {
    assert a == [a[0]] + a[1..] && b == [b[0]] + b[1..];
  }

  lemma ThroughChild(nodes: Nodes, current: Id, tags: seq<string>, segments: seq<string>, i: nat,
                     nodes': Nodes, reused: nat)
    requires Tree(nodes) && current < |nodes| && tags != [] && segments != []
    requires LastTagged(nodes, nodes[current].children, tags[0]) == Some(i)
    requires GrowsBelow(nodes, nodes', nodes[current].children[i])
    requires Appended(nodes, nodes[current].children[i], segments[1..], nodes',
                      Gained(|nodes|, reused, tags[1..], segments[1..]))
    ensures Appended(nodes, current, segments, nodes', Gained(|nodes|, reused + 1, tags, segments))
  {
    MoreInChild(nodes, nodes', current, i, segments, Gained(|nodes|, reused, tags[1..], segments[1..]));
    GainedBelow(|nodes|, reused, tags, segments);
  }

  lemma PrefixHeadAndTail(a: seq<string>, b: seq<string>)
    requires a != [] && b != []
    ensures a <= b <==> a[0] == b[0] && a[1..] <= b[1..]
  {
    assert a == [a[0]] + a[1..] && b == [b[0]] + b[1..];
  }

  lemma GainedBelow(count: nat, reused: nat, tags: seq<string>, segments: seq<string>)
    requires tags != [] && segments != []
    ensures Gained(count, reused + 1, tags, segments)
            == if segments[0] == tags[0] then Gained(count, reused, tags[1..], segments[1..]) else []
  {
    PrefixHeadAndTail(segments, tags);
  }

  lemma MoreInChild(nodes: Nodes, nodes': Nodes, current: Id, i: nat, segments: seq<string>, more: seq<Id>)
    requires Tree(nodes) && current < |nodes| && i < |nodes[current].children| && segments != []
    requires GrowsBelow(nodes, nodes', nodes[current].children[i])
    requires var ids := nodes[current].children;
             && NoneTagged(nodes, ids[i + 1..], nodes[ids[i]].tag)
             && Matches(nodes', ids[i], segments[1..]) == Matches(nodes, ids[i], segments[1..]) + more
    ensures Matches(nodes', current, segments)
            == Matches(nodes, current, segments)
               + if segments[0] == nodes[nodes[current].children[i]].tag then more else []
  {
    var ids := nodes[current].children;
    InsertBelowChild(nodes, nodes', current, i, segments);
    MatchesSplit(nodes, ids, i, segments);
    MatchesSplit(nodes', ids, i, segments);
    if segments[0] == nodes[ids[i]].tag {
      NoneTaggedNoMatch(nodes, ids[i + 1..], segments);
      NothingAfter(MatchesIn(nodes, ids[..i], segments), Matches(nodes, ids[i], segments[1..]), more);
    }
  }

  lemma NothingAfter<T>(a: seq<T>, b: seq<T>, more: seq<T>)
    ensures a + (b + more) + [] == (a + b + []) + more
  {
  }

  lemma ThroughNew(nodes: Nodes, current: Id, tags: seq<string>, segments: seq<string>, nodes1: Nodes, nodes': Nodes)
    requires Tree(nodes) && current < |nodes| && tags != [] && segments != []
    requires nodes1 == Create(nodes, current, tags[0]) && Tree(nodes1) && GrowsBelow(nodes1, nodes', |nodes|)
    requires Appended(nodes1, |nodes|, segments[1..], nodes', Gained(|nodes| + 1, 0, tags[1..], segments[1..]))
    ensures Appended(nodes, current, segments, nodes', Gained(|nodes|, 0, tags, segments))
  {
    LeafMatches(nodes1, |nodes|, segments[1..]);
    GainedFirst(|nodes|, tags, segments);
    MoreInNew(nodes, nodes', current, tags[0], segments, Matches(nodes', |nodes|, segments[1..]));
  }

  lemma GainedFirst(count: nat, tags: seq<string>, segments: seq<string>)
    requires tags != [] && segments != []
    ensures Gained(count, 0, tags, segments)
            == if segments[0] != tags[0] then []
               else (if segments[1..] == [] then [count] else []) + Gained(count + 1, 0, tags[1..], segments[1..])
  {
    PrefixHeadAndTail(segments, tags);
  }

  lemma MoreInNew(nodes: Nodes, nodes': Nodes, current: Id, tag: string, segments: seq<string>, more: seq<Id>)
    requires Tree(nodes) && current < |nodes| && segments != []
    requires Tree(Create(nodes, current, tag)) && GrowsBelow(Create(nodes, current, tag), nodes', |nodes|)
    requires Matches(nodes', |nodes|, segments[1..]) == more
    ensures Matches(nodes', current, segments)
            == Matches(nodes, current, segments) + if segments[0] == tag then more else []
  {
    var nodes1 := Create(nodes, current, tag);
    assert nodes1[|nodes|].tag == tag && nodes1[current].children == nodes[current].children + [|nodes|];
    forall x | 0 <= x < |nodes| ensures nodes'[x] == nodes1[x] { assert !Under(nodes1, x, |nodes|); }
    LastChildAdded(nodes, nodes', current, |nodes|, segments);
  }

  // ---------------------------------------------------------------------------------------------------------
  // What lookup answers afterwards
  // ---------------------------------------------------------------------------------------------------------

  lemma {:induction false} SameBelowSameFound(nodes: Nodes, nodes': Nodes, a: Id, segments: seq<string>)
    requires Tree(nodes) && Tree(nodes') && a < |nodes| && SameBelow(nodes, nodes', a)
    ensures Found(nodes', a, segments) == Found(nodes, a, segments)
    decreases |segments|, 1, 0
  {
    assert Under(nodes, a, a);
    if segments != [] {
      var ids := nodes[a].children;
      forall k | 0 <= k < |ids| ensures SameBelow(nodes, nodes', ids[k]) && nodes'[ids[k]].tag == nodes[ids[k]].tag {
        ChildSameBelow(nodes, nodes', a, k);
        assert Under(nodes, ids[k], ids[k]);
      }
      SameFoundIn(nodes, nodes', ids, segments);
    }
  }

  /** The answer depends only on the children with the wanted tag. */
  lemma {:induction false} SameFoundIn(nodes: Nodes, nodes': Nodes, ids: seq<Id>, segments: seq<string>)
    requires Tree(nodes) && Tree(nodes') && |nodes| <= |nodes'| && segments != [] && Ids(nodes, ids)
    requires forall k | 0 <= k < |ids| ::
               && nodes'[ids[k]].tag == nodes[ids[k]].tag
               && (nodes[ids[k]].tag == segments[0] ==> SameBelow(nodes, nodes', ids[k]))
    ensures FoundIn(nodes', ids, segments) == FoundIn(nodes, ids, segments)
    decreases |segments|, 0, |ids|
  {
    if ids != [] {
      var last := |ids| - 1;
      if nodes[ids[last]].tag == segments[0] {
        SameBelowSameFound(nodes, nodes', ids[last], segments[1..]);
      } else {
        SameFoundIn(nodes, nodes', ids[..last], segments);
      }
    }
  }

  /** The answer of a lookup after an insertion, given the answer before: true along the tags; false along another path
      through the first node created, which is the last candidate from then on; and otherwise as before. */
  function AnswerThen(reused: nat, tags: seq<string>, segments: seq<string>, before: bool): bool
    requires reused < |tags|
  {
    segments <= tags || (!(tags[..reused + 1] <= segments) && before)
  }

  ghost predicate Answers(nodes: Nodes, current: Id, tags: seq<string>, segments: seq<string>, nodes': Nodes,
                          reused: nat)
    requires Tree(nodes) && current < |nodes| && reused < |tags|
  {
    && Tree(nodes') && current < |nodes'|
    && Found(nodes', current, segments) == AnswerThen(reused, tags, segments, Found(nodes, current, segments))
  }

  lemma {:induction false} InsertThenFound(nodes: Nodes, current: Id, tags: seq<string>, segments: seq<string>)
    requires Tree(nodes) && current < |nodes| && tags != []
    ensures Reused(nodes, current, tags) < |tags|
    ensures Answers(nodes, current, tags, segments, Insert(nodes, current, tags).0, Reused(nodes, current, tags))
    decreases |tags|, 1
  {
    ReusedIsLongest(nodes, current, tags, 0);
    if segments == [] {
      InsertGrows(nodes, current, tags);
    } else if |tags| == 1 {
      CreateKeepsTree(nodes, current, tags[0]);
      NewFound(nodes, current, tags, segments, Create(nodes, current, tags[0]), Create(nodes, current, tags[0]));
    } else if LastTagged(nodes, nodes[current].children, tags[0]).Some? {
      ReuseThenFound(nodes, current, tags, segments);
    } else {
      CreateThenFound(nodes, current, tags, segments);
    }
  }

  lemma {:induction false} ReuseThenFound(nodes: Nodes, current: Id, tags: seq<string>, segments: seq<string>)
    requires Tree(nodes) && current < |nodes| && |tags| > 1 && segments != []
    requires LastTagged(nodes, nodes[current].children, tags[0]).Some? && Reused(nodes, current, tags) < |tags|
    ensures Answers(nodes, current, tags, segments, Insert(nodes, current, tags).0, Reused(nodes, current, tags))
    decreases |tags|, 0
  {
    var i := LastTagged(nodes, nodes[current].children, tags[0]).value;
    var c := nodes[current].children[i];
    InsertReuses(nodes, current, tags, i);
    var nodes', reused := Insert(nodes, current, tags).0, Reused(nodes, current, tags) - 1;
    InsertThenFound(nodes, c, tags[1..], segments[1..]);
    InsertGrows(nodes, c, tags[1..]);
    FoundThroughChild(nodes, current, tags, segments, i, nodes', reused);
  }

  lemma {:induction false} CreateThenFound(nodes: Nodes, current: Id, tags: seq<string>, segments: seq<string>)
    requires Tree(nodes) && current < |nodes| && |tags| > 1 && segments != []
    requires LastTagged(nodes, nodes[current].children, tags[0]).None?
    ensures Reused(nodes, current, tags) == 0
    ensures Answers(nodes, current, tags, segments, Insert(nodes, current, tags).0, 0)
    decreases |tags|, 0
  {
    var nodes1 := InsertGoesNew(nodes, current, tags);
    InsertThenFound(nodes1, |nodes|, tags[1..], segments[1..]);
    InsertGrows(nodes1, |nodes|, tags[1..]);
    LeafFound(nodes1, |nodes|, segments[1..]);
    NewFound(nodes, current, tags, segments, nodes1, Insert(nodes1, |nodes|, tags[1..]).0);
  }

  lemma LeafFound(nodes: Nodes, leaf: Id, segments: seq<string>)
    requires Tree(nodes) && leaf < |nodes| && nodes[leaf].children == []
    ensures Found(nodes, leaf, segments) <==> segments == []
  {
  }

  lemma FoundThroughChild(nodes: Nodes, current: Id, tags: seq<string>, segments: seq<string>, i: nat,
                          nodes': Nodes, reused: nat)
    requires Tree(nodes) && current < |nodes| && reused + 1 < |tags| && segments != []
    requires LastTagged(nodes, nodes[current].children, tags[0]) == Some(i)
    requires GrowsBelow(nodes, nodes', nodes[current].children[i])
    requires Answers(nodes, nodes[current].children[i], tags[1..], segments[1..], nodes', reused)
    ensures Answers(nodes, current, tags, segments, nodes', reused + 1)
  {
    AnswerBelow(reused, tags, segments, Found(nodes, current, segments));
    if segments[0] == tags[0] {
      FoundInChild(nodes, nodes', current, i, segments);
    } else {
      FoundElsewhere(nodes, nodes', current, i, segments);
    }
  }

  lemma AnswerBelow(reused: nat, tags: seq<string>, segments: seq<string>, before: bool)
    requires reused + 1 < |tags| && segments != []
    ensures AnswerThen(reused + 1, tags, segments, before)
            == if segments[0] == tags[0] then AnswerThen(reused, tags[1..], segments[1..], before) else before
  {
    PrefixHeadAndTail(segments, tags);
    PrefixHeadAndTail(tags[..reused + 2], segments);
    assert tags[..reused + 2][1..] == tags[1..][..reused + 1];
  }

  lemma FoundInChild(nodes: Nodes, nodes': Nodes, current: Id, i: nat, segments: seq<string>)
    requires Tree(nodes) && current < |nodes| && segments != []
    requires LastTagged(nodes, nodes[current].children, segments[0]) == Some(i)
    requires GrowsBelow(nodes, nodes', nodes[current].children[i])
    ensures var c := nodes[current].children[i];
            && Found(nodes, current, segments) == Found(nodes, c, segments[1..])
            && Found(nodes', current, segments) == Found(nodes', c, segments[1..])
  {
    ChildrenKept(nodes, nodes', current, i);
    FoundIsLast(nodes, nodes[current].children, segments, i);
    FoundIsLast(nodes', nodes[current].children, segments, i);
  }

  lemma FoundElsewhere(nodes: Nodes, nodes': Nodes, current: Id, i: nat, segments: seq<string>)
    requires Tree(nodes) && current < |nodes| && segments != [] && i < |nodes[current].children|
    requires nodes[nodes[current].children[i]].tag != segments[0]
    requires GrowsBelow(nodes, nodes', nodes[current].children[i])
    ensures Found(nodes', current, segments) == Found(nodes, current, segments)
  {
    var ids := nodes[current].children;
    ChildrenKept(nodes, nodes', current, i);
    forall k | 0 <= k < |ids| && k != i ensures SameBelow(nodes, nodes', ids[k]) {
      OtherChildSame(nodes, nodes', current, i, k);
    }
    SameFoundIn(nodes, nodes', ids, segments);
  }

  /** A new last child, with nothing below it but the rest of the tags. */
  lemma NewFound(nodes: Nodes, current: Id, tags: seq<string>, segments: seq<string>, nodes1: Nodes, nodes': Nodes)
    requires Tree(nodes) && current < |nodes| && tags != [] && segments != []
    requires nodes1 == Create(nodes, current, tags[0]) && Tree(nodes1) && GrowsBelow(nodes1, nodes', |nodes|)
    requires Found(nodes', |nodes|, segments[1..]) <==> segments[1..] <= tags[1..]
    ensures Answers(nodes, current, tags, segments, nodes', 0)
  {
    var c, ids := |nodes|, nodes[current].children;
    forall x | 0 <= x < |nodes| ensures nodes'[x] == nodes1[x] { assert !Under(nodes1, x, c); }
    assert nodes'[c].tag == tags[0] && nodes'[current].children == ids + [c];
    PrefixHeadAndTail(segments, tags);
    PrefixHeadAndTail(tags[..1], segments);
    if segments[0] == tags[0] {
      FoundIsLast(nodes', ids + [c], segments, |ids|);
    } else {
      NoneTaggedAfter(nodes', ids, [c], segments);
      OldChildrenFound(nodes, nodes', current, segments);
    }
  }

  lemma OldChildrenFound(nodes: Nodes, nodes': Nodes, current: Id, segments: seq<string>)
    requires Tree(nodes) && Tree(nodes') && current < |nodes| <= |nodes'| && segments != []
    requires forall x | current < x < |nodes| :: nodes'[x] == nodes[x]
    ensures FoundIn(nodes', nodes[current].children, segments) == FoundIn(nodes, nodes[current].children, segments)
  {
    var ids := nodes[current].children;
    forall k | 0 <= k < |ids| ensures SameBelow(nodes, nodes', ids[k]) {
      forall x | 0 <= x < |nodes| && Under(nodes, x, ids[k]) ensures nodes'[x] == nodes[x] {}
    }
    SameFoundIn(nodes, nodes', ids, segments);
  }

  /** In particular looking up the tags just inserted along answers true. */
  lemma InsertIsFound(nodes: Nodes, current: Id, tags: seq<string>)
    requires Tree(nodes) && current < |nodes| && tags != []
    ensures var nodes' := Insert(nodes, current, tags).0;
            Tree(nodes') && current < |nodes'| && Found(nodes', current, tags)
  {
    InsertThenFound(nodes, current, tags, tags);
  }

  lemma ChildrenKept(nodes: Nodes, nodes': Nodes, current: Id, i: nat)
    requires Tree(nodes) && current < |nodes| && i < |nodes[current].children|
    requires GrowsBelow(nodes, nodes', nodes[current].children[i])
    ensures nodes'[current].children == nodes[current].children
    ensures forall k | 0 <= k < |nodes[current].children| ::
              nodes'[nodes[current].children[k]].tag == nodes[nodes[current].children[k]].tag
  {
    assert !Under(nodes, current, nodes[current].children[i]);
  }

  /** Attributes do not matter to the answer of a lookup. */
  lemma AttributesKeepFound(nodes: Nodes, nodes': Nodes, current: Id, segments: seq<string>)
    requires Tree(nodes) && Tree(nodes') && current < |nodes| == |nodes'|
    requires forall x | 0 <= x < |nodes| :: nodes'[x].tag == nodes[x].tag && nodes'[x].children == nodes[x].children
    ensures Found(nodes', current, segments) == Found(nodes, current, segments)
  {
    FoundExactly(nodes, current, segments);
    FoundExactly(nodes', current, segments);
    forall route ensures TakesLast(nodes', current, route, segments) == TakesLast(nodes, current, route, segments) {
      SameLastRoute(nodes, nodes', current, route, segments);
    }
  }

  lemma {:induction false} SameLastRoute(nodes: Nodes, nodes': Nodes, current: Id, route: seq<nat>,
                                         segments: seq<string>)
    requires Tree(nodes) && Tree(nodes') && current < |nodes| == |nodes'|
    requires forall x | 0 <= x < |nodes| :: nodes'[x].tag == nodes[x].tag && nodes'[x].children == nodes[x].children
    ensures TakesLast(nodes', current, route, segments) == TakesLast(nodes, current, route, segments)
    decreases |segments|
  {
    if segments != [] && |route| == |segments| && route[0] < |nodes[current].children| {
      SameLastRoute(nodes, nodes', nodes[current].children[route[0]], route[1..], segments[1..]);
    }
  }
}
