/** IntactInfra/ConfigurationFile.cpp over a DOM document. A document is a store of nodes addressed by their position;
    a DOMElement pointer is such a position. The document element is node 0, a node is created after its parent, and
    only element nodes are stored. */
module ConfigurationTree {

  type Id = nat

  datatype Node = Node(tag: string, attrs: map<string, string>, children: seq<Id>, parent: Id)

  type Nodes = seq<Node>

  /** Children come after their parent and point back to it; no child is listed twice. */
  ghost predicate Tree(nodes: Nodes) {
    && (forall x, k | 0 <= x < |nodes| && 0 <= k < |nodes[x].children| ::
          x < nodes[x].children[k] < |nodes| && nodes[nodes[x].children[k]].parent == x)
    && (forall x, i, j | 0 <= x < |nodes| && 0 <= i < j < |nodes[x].children| ::
          nodes[x].children[i] != nodes[x].children[j])
    && (forall x | 0 < x < |nodes| :: nodes[x].parent < x)
  }

  // ---------------------------------------------------------------------------------------------------------
  // Paths
  // ---------------------------------------------------------------------------------------------------------

  const SEPARATOR := '/'

  /** path.find(pathSeparator), with -1 for npos. */
  function Find(path: string): (i: int)
    ensures -1 <= i < |path|
    ensures i >= 0 ==> path[i] == SEPARATOR && SEPARATOR !in path[..i]
    ensures i == -1 ==> SEPARATOR !in path
  {
    if path == "" then -1
    else if path[0] == SEPARATOR then 0
    else
      var i := Find(path[1..]);
      if i == -1 then -1 else assert path[..i + 1] == [path[0]] + path[1..][..i]; i + 1
  }

  /** What lookup leaves of a path after its next tag. */
  function Remaining(path: string): string {
    var i := Find(path);
    if i == -1 then "" else path[i + 1..]
  }

  function NextTag(path: string): string {
    var i := Find(path);
    if i == -1 then path else path[..i]
  }

  /** The tags lookup goes through below its current node. */
  function Segments(path: string): seq<string>
    decreases |path|
  {
    if path == "" then [] else [NextTag(path)] + Segments(Remaining(path))
  }

  // ---------------------------------------------------------------------------------------------------------
  // Lookup
  // ---------------------------------------------------------------------------------------------------------

  ghost predicate Ids(nodes: Nodes, ids: seq<Id>) {
    forall k | 0 <= k < |ids| :: ids[k] < |nodes|
  }

  /** The nodes below `current` whose tags spell `segments`, in document order. */
  ghost function Matches(nodes: Nodes, current: Id, segments: seq<string>): seq<Id>
    requires Tree(nodes) && current < |nodes|
    decreases |segments|, 1, 0
  {
    if segments == [] then [current] else MatchesIn(nodes, nodes[current].children, segments)
  }

  ghost function MatchesIn(nodes: Nodes, ids: seq<Id>, segments: seq<string>): seq<Id>
    requires Tree(nodes) && segments != [] && Ids(nodes, ids)
    decreases |segments|, 0, |ids|
  {
    if ids == [] then []
    else
      (if nodes[ids[0]].tag == segments[0] then Matches(nodes, ids[0], segments[1..]) else [])
      + MatchesIn(nodes, ids[1..], segments)
  }

  lemma {:induction false} MatchesInAppend(nodes: Nodes, a: seq<Id>, b: seq<Id>, segments: seq<string>)
    requires Tree(nodes) && segments != [] && Ids(nodes, a) && Ids(nodes, b)
    ensures Ids(nodes, a + b)
    ensures MatchesIn(nodes, a + b, segments) == MatchesIn(nodes, a, segments) + MatchesIn(nodes, b, segments)
    decreases |a|
  {
    if a == [] {
      assert a + b == b;
    } else {
      var first := if nodes[a[0]].tag == segments[0] then Matches(nodes, a[0], segments[1..]) else [];
      var more, later := MatchesIn(nodes, a[1..], segments), MatchesIn(nodes, b, segments);
      MatchesInAppend(nodes, a[1..], b, segments);
      assert (a + b)[1..] == a[1..] + b && (a + b)[0] == a[0];
      assert first + (more + later) == (first + more) + later;
    }
  }

  /** One more child in the list. */
  lemma MatchesInNext(nodes: Nodes, ids: seq<Id>, n: nat, segments: seq<string>)
    requires Tree(nodes) && segments != [] && Ids(nodes, ids) && 0 < n <= |ids|
    ensures MatchesIn(nodes, ids[..n], segments) ==
              MatchesIn(nodes, ids[..n - 1], segments)
              + if nodes[ids[n - 1]].tag == segments[0] then Matches(nodes, ids[n - 1], segments[1..]) else []
  {
    var child := ids[n - 1];
    assert ids[..n] == ids[..n - 1] + [child];
    MatchesInAppend(nodes, ids[..n - 1], [child], segments);
    MatchesInOne(nodes, child, segments);
  }

  lemma MatchesInOne(nodes: Nodes, child: Id, segments: seq<string>)
    requires Tree(nodes) && segments != [] && child < |nodes|
    ensures MatchesIn(nodes, [child], segments) ==
              if nodes[child].tag == segments[0] then Matches(nodes, child, segments[1..]) else []
  {
    assert [child][1..] == [];
  }

  /** What lookup returns: `foundAny` is overwritten, so the last matching sibling decides at each level. */
  ghost function Found(nodes: Nodes, current: Id, segments: seq<string>): bool
    requires Tree(nodes) && current < |nodes|
    decreases |segments|, 1, 0
  {
    segments == [] || FoundIn(nodes, nodes[current].children, segments)
  }

  ghost function FoundIn(nodes: Nodes, ids: seq<Id>, segments: seq<string>): bool
    requires Tree(nodes) && segments != [] && Ids(nodes, ids)
    decreases |segments|, 0, |ids|
  {
    if ids == [] then false
    else
      var last := ids[|ids| - 1];
      if nodes[last].tag == segments[0] then Found(nodes, last, segments[1..])
      else FoundIn(nodes, ids[..|ids| - 1], segments)
  }

  // ---------------------------------------------------------------------------------------------------------
  // What lookup finds, in terms of tag paths
  // ---------------------------------------------------------------------------------------------------------

  /** A route goes down by child positions; it spells `segments` if each node it enters has the tag of its turn. */
  ghost predicate Spells(nodes: Nodes, current: Id, route: seq<nat>, segments: seq<string>)
    requires Tree(nodes) && current < |nodes|
    decreases |segments|
  {
    |route| == |segments| &&
    (segments != [] ==>
      && route[0] < |nodes[current].children|
      && nodes[nodes[current].children[route[0]]].tag == segments[0]
      && Spells(nodes, nodes[current].children[route[0]], route[1..], segments[1..]))
  }

  ghost function End(nodes: Nodes, current: Id, route: seq<nat>, segments: seq<string>): Id
    requires Tree(nodes) && current < |nodes| && Spells(nodes, current, route, segments)
    decreases |segments|
  {
    if segments == [] then current
    else End(nodes, nodes[current].children[route[0]], route[1..], segments[1..])
  }

  /** Document order of two routes of the same length. */
  predicate Before(a: seq<nat>, b: seq<nat>)
    requires |a| == |b|
  {
    a != [] && (a[0] < b[0] || (a[0] == b[0] && Before(a[1..], b[1..])))
  }

  /** The routes listed are exactly those that spell the segments, in document order, and they end at `found`. */
  ghost predicate Lists(nodes: Nodes, current: Id, segments: seq<string>, routes: seq<seq<nat>>, found: seq<Id>)
    requires Tree(nodes) && current < |nodes|
  {
    && |routes| == |found|
    && (forall i | 0 <= i < |routes| ::
          Spells(nodes, current, routes[i], segments) && End(nodes, current, routes[i], segments) == found[i])
    && (forall i, j | 0 <= i < j < |routes| :: Before(routes[i], routes[j]))
    && (forall route :: Spells(nodes, current, route, segments) ==> route in routes)
  }

  /** The same for the routes whose first step is below `n`. */
  ghost predicate ListsUpTo(nodes: Nodes, current: Id, segments: seq<string>, n: nat,
                            routes: seq<seq<nat>>, found: seq<Id>)
    requires Tree(nodes) && current < |nodes| && segments != []
  {
    && |routes| == |found|
    && (forall i | 0 <= i < |routes| ::
          && Spells(nodes, current, routes[i], segments) && routes[i][0] < n
          && End(nodes, current, routes[i], segments) == found[i])
    && (forall i, j | 0 <= i < j < |routes| :: Before(routes[i], routes[j]))
    && (forall route :: Spells(nodes, current, route, segments) && route[0] < n ==> route in routes)
  }

  ghost function Prefixed(n: nat, routes: seq<seq<nat>>): seq<seq<nat>> {
    seq(|routes|, i requires 0 <= i < |routes| => [n] + routes[i])
  }

  /** Lookup returns, in document order, exactly the nodes whose tag path below `current` equals the segments. */
  lemma {:induction false} MatchesAreTagPaths(nodes: Nodes, current: Id, segments: seq<string>)
    returns (routes: seq<seq<nat>>)
    requires Tree(nodes) && current < |nodes|
    ensures Lists(nodes, current, segments, routes, Matches(nodes, current, segments))
    decreases |segments|, 1, 0
  {
    if segments == [] {
      routes := [[]];
    } else {
      routes := MatchesUpTo(nodes, current, segments, |nodes[current].children|);
      AllChildren(nodes, current, segments);
      ListsAll(nodes, current, segments, routes, Matches(nodes, current, segments));
    }
  }

  lemma ListsAll(nodes: Nodes, current: Id, segments: seq<string>, routes: seq<seq<nat>>, found: seq<Id>)
    requires Tree(nodes) && current < |nodes| && segments != []
    requires ListsUpTo(nodes, current, segments, |nodes[current].children|, routes, found)
    ensures Lists(nodes, current, segments, routes, found)
  {
  }

  lemma AllChildren(nodes: Nodes, current: Id, segments: seq<string>)
    requires Tree(nodes) && current < |nodes| && segments != []
    ensures var ids := nodes[current].children;
            MatchesIn(nodes, ids[..|ids|], segments) == Matches(nodes, current, segments)
  {
    var ids := nodes[current].children;
    assert ids[..|ids|] == ids;
  }

  lemma {:induction false} MatchesUpTo(nodes: Nodes, current: Id, segments: seq<string>, n: nat)
    returns (routes: seq<seq<nat>>)
    requires Tree(nodes) && current < |nodes| && segments != [] && n <= |nodes[current].children|
    ensures ListsUpTo(nodes, current, segments, n, routes, MatchesIn(nodes, nodes[current].children[..n], segments))
    decreases |segments|, 0, n
  {
    if n == 0 {
      routes := [];
    } else {
      var early := MatchesUpTo(nodes, current, segments, n - 1);
      var child := nodes[current].children[n - 1];
      if nodes[child].tag == segments[0] {
        var below := MatchesAreTagPaths(nodes, child, segments[1..]);
        routes := TakeChild(nodes, current, segments, n, early, below);
      } else {
        SkipChild(nodes, current, segments, n, early);
        routes := early;
      }
    }
  }

  lemma TakeChild(nodes: Nodes, current: Id, segments: seq<string>, n: nat, early: seq<seq<nat>>, below: seq<seq<nat>>)
    returns (routes: seq<seq<nat>>)
    requires Tree(nodes) && current < |nodes| && segments != [] && 0 < n <= |nodes[current].children|
    requires ListsUpTo(nodes, current, segments, n - 1, early,
                       MatchesIn(nodes, nodes[current].children[..n - 1], segments))
    requires var child := nodes[current].children[n - 1];
             && nodes[child].tag == segments[0]
             && Lists(nodes, child, segments[1..], below, Matches(nodes, child, segments[1..]))
    ensures ListsUpTo(nodes, current, segments, n, routes, MatchesIn(nodes, nodes[current].children[..n], segments))
  {
    var ids := nodes[current].children;
    routes := JoinRoutes(nodes, current, segments, n, early, MatchesIn(nodes, ids[..n - 1], segments),
                         below, Matches(nodes, ids[n - 1], segments[1..]));
    MatchesInNext(nodes, ids, n, segments);
  }

  lemma SkipChild(nodes: Nodes, current: Id, segments: seq<string>, n: nat, routes: seq<seq<nat>>)
    requires Tree(nodes) && current < |nodes| && segments != [] && 0 < n <= |nodes[current].children|
    requires nodes[nodes[current].children[n - 1]].tag != segments[0]
    requires ListsUpTo(nodes, current, segments, n - 1, routes,
                       MatchesIn(nodes, nodes[current].children[..n - 1], segments))
    ensures ListsUpTo(nodes, current, segments, n, routes, MatchesIn(nodes, nodes[current].children[..n], segments))
  {
    var ids := nodes[current].children;
    MatchesInNext(nodes, ids, n, segments);
    SkipRoutes(nodes, current, segments, n, routes, MatchesIn(nodes, ids[..n - 1], segments));
    assert MatchesIn(nodes, ids[..n], segments) == MatchesIn(nodes, ids[..n - 1], segments);
  }

  lemma SkipRoutes(nodes: Nodes, current: Id, segments: seq<string>, n: nat, routes: seq<seq<nat>>, found: seq<Id>)
    requires Tree(nodes) && current < |nodes| && segments != [] && 0 < n <= |nodes[current].children|
    requires nodes[nodes[current].children[n - 1]].tag != segments[0]
    requires ListsUpTo(nodes, current, segments, n - 1, routes, found)
    ensures ListsUpTo(nodes, current, segments, n, routes, found)
  {
    forall route | Spells(nodes, current, route, segments) && route[0] < n ensures route in routes {
      assert route[0] < n - 1;
    }
  }

  lemma JoinRoutes(nodes: Nodes, current: Id, segments: seq<string>, n: nat, early: seq<seq<nat>>, earlyFound: seq<Id>,
                   below: seq<seq<nat>>, belowFound: seq<Id>) returns (routes: seq<seq<nat>>)
    requires Tree(nodes) && current < |nodes| && segments != [] && 0 < n <= |nodes[current].children|
    requires ListsUpTo(nodes, current, segments, n - 1, early, earlyFound)
    requires var child := nodes[current].children[n - 1];
             nodes[child].tag == segments[0] && Lists(nodes, child, segments[1..], below, belowFound)
    ensures ListsUpTo(nodes, current, segments, n, routes, earlyFound + belowFound)
  {
    routes := early + Prefixed(n - 1, below);
    JoinSound(nodes, current, segments, n, early, earlyFound, below, belowFound);
    JoinSorted(early, below, n - 1);
    forall route | Spells(nodes, current, route, segments) && route[0] < n ensures route in routes {
      if route[0] == n - 1 {
        RouteIsPrefixed(nodes, current, segments, route, below, belowFound);
      } else {
        assert route in early;
      }
    }
  }

  lemma JoinSound(nodes: Nodes, current: Id, segments: seq<string>, n: nat, early: seq<seq<nat>>, earlyFound: seq<Id>,
                  below: seq<seq<nat>>, belowFound: seq<Id>)
    requires Tree(nodes) && current < |nodes| && segments != [] && 0 < n <= |nodes[current].children|
    requires ListsUpTo(nodes, current, segments, n - 1, early, earlyFound)
    requires var child := nodes[current].children[n - 1];
             nodes[child].tag == segments[0] && Lists(nodes, child, segments[1..], below, belowFound)
    ensures var routes, found := early + Prefixed(n - 1, below), earlyFound + belowFound;
            && |routes| == |found|
            && forall i | 0 <= i < |routes| ::
                 && Spells(nodes, current, routes[i], segments) && routes[i][0] < n
                 && End(nodes, current, routes[i], segments) == found[i]
  {
    var routes, found := early + Prefixed(n - 1, below), earlyFound + belowFound;
    forall i | 0 <= i < |routes|
      ensures Spells(nodes, current, routes[i], segments) && routes[i][0] < n
      ensures End(nodes, current, routes[i], segments) == found[i]
    {
      if i >= |early| {
        DownOne(nodes, current, segments, n - 1, below[i - |early|]);
      } else {
        assert routes[i] == early[i];
      }
    }
  }

  lemma RouteIsPrefixed(nodes: Nodes, current: Id, segments: seq<string>, route: seq<nat>,
                        below: seq<seq<nat>>, belowFound: seq<Id>)
    requires Tree(nodes) && current < |nodes| && segments != [] && Spells(nodes, current, route, segments)
    requires Lists(nodes, nodes[current].children[route[0]], segments[1..], below, belowFound)
    ensures route in Prefixed(route[0], below)
  {
    assert route[1..] in below;
    var k :| 0 <= k < |below| && below[k] == route[1..];
    assert Prefixed(route[0], below)[k] == route;
  }

  lemma DownOne(nodes: Nodes, current: Id, segments: seq<string>, k: nat, route: seq<nat>)
    requires Tree(nodes) && current < |nodes| && segments != [] && k < |nodes[current].children|
    requires var child := nodes[current].children[k];
             nodes[child].tag == segments[0] && Spells(nodes, child, route, segments[1..])
    ensures Spells(nodes, current, [k] + route, segments)
    ensures End(nodes, current, [k] + route, segments) ==
              End(nodes, nodes[current].children[k], route, segments[1..])
  {
    assert ([k] + route)[1..] == route;
  }

  lemma JoinSorted(early: seq<seq<nat>>, below: seq<seq<nat>>, k: nat)
    requires forall i | 0 <= i < |early| :: early[i] != [] && early[i][0] < k
    requires forall i, j | 0 <= i < |early| && 0 <= j < |below| :: |early[i]| == |below[j]| + 1
    requires forall i, j | 0 <= i < j < |early| :: |early[i]| == |early[j]| && Before(early[i], early[j])
    requires forall i, j | 0 <= i < j < |below| :: |below[i]| == |below[j]| && Before(below[i], below[j])
    ensures var routes := early + Prefixed(k, below);
            forall i, j | 0 <= i < j < |routes| :: |routes[i]| == |routes[j]| && Before(routes[i], routes[j])
  {
    var routes := early + Prefixed(k, below);
    forall i, j | 0 <= i < j < |routes| ensures |routes[i]| == |routes[j]| && Before(routes[i], routes[j]) {
      if i >= |early| {
        assert routes[i][1..] == below[i - |early|] && routes[j][1..] == below[j - |early|];
      }
    }
  }

  // ---------------------------------------------------------------------------------------------------------
  // What the result of lookup means
  // ---------------------------------------------------------------------------------------------------------

  lemma {:induction false} FoundMeansMatch(nodes: Nodes, current: Id, segments: seq<string>)
    requires Tree(nodes) && current < |nodes| && Found(nodes, current, segments)
    ensures Matches(nodes, current, segments) != []
    decreases |segments|, 1, 0
  {
    if segments != [] { FoundInMeansMatch(nodes, nodes[current].children, segments); }
  }

  lemma {:induction false} FoundInMeansMatch(nodes: Nodes, ids: seq<Id>, segments: seq<string>)
    requires Tree(nodes) && segments != [] && Ids(nodes, ids) && FoundIn(nodes, ids, segments)
    ensures MatchesIn(nodes, ids, segments) != []
    decreases |segments|, 0, |ids|
  {
    var init, last := ids[..|ids| - 1], ids[|ids| - 1];
    assert ids == init + [last];
    MatchesInAppend(nodes, init, [last], segments);
    if nodes[last].tag == segments[0] {
      FoundMeansMatch(nodes, last, segments[1..]);
    } else {
      FoundInMeansMatch(nodes, init, segments);
    }
  }

  /** At most one sibling has the wanted tag, at each level the path reaches. */
  ghost predicate Unambiguous(nodes: Nodes, current: Id, segments: seq<string>)
    requires Tree(nodes) && current < |nodes|
    decreases |segments|
  {
    segments != [] ==>
      var ids := nodes[current].children;
      && (forall i, j | 0 <= i < j < |ids| :: !(nodes[ids[i]].tag == segments[0] == nodes[ids[j]].tag))
      && (forall i | 0 <= i < |ids| && nodes[ids[i]].tag == segments[0] :: Unambiguous(nodes, ids[i], segments[1..]))
  }

  ghost predicate NoneTagged(nodes: Nodes, ids: seq<Id>, tag: string)
    requires Ids(nodes, ids)
  {
    forall k | 0 <= k < |ids| :: nodes[ids[k]].tag != tag
  }

  /** Siblings with another tag do not matter to lookup. */
  lemma {:induction false} NoneTaggedNoMatch(nodes: Nodes, ids: seq<Id>, segments: seq<string>)
    requires Tree(nodes) && segments != [] && Ids(nodes, ids) && NoneTagged(nodes, ids, segments[0])
    ensures MatchesIn(nodes, ids, segments) == []
    decreases |ids|
  {
    if ids != [] { NoneTaggedNoMatch(nodes, ids[1..], segments); }
  }

  lemma {:induction false} NoneTaggedAfter(nodes: Nodes, ids: seq<Id>, later: seq<Id>, segments: seq<string>)
    requires Tree(nodes) && segments != [] && Ids(nodes, ids) && Ids(nodes, later)
    requires NoneTagged(nodes, later, segments[0])
    ensures Ids(nodes, ids + later) && FoundIn(nodes, ids + later, segments) == FoundIn(nodes, ids, segments)
    decreases |later|
  {
    var all := ids + later;
    if later == [] {
      assert all == ids;
    } else {
      assert all[..|all| - 1] == ids + later[..|later| - 1];
      NoneTaggedAfter(nodes, ids, later[..|later| - 1], segments);
    }
  }

  /** With child i the last one tagged segments[0], lookup's answer is that child's. */
  lemma FoundIsLast(nodes: Nodes, ids: seq<Id>, segments: seq<string>, i: nat)
    requires Tree(nodes) && segments != [] && Ids(nodes, ids) && i < |ids|
    requires nodes[ids[i]].tag == segments[0] && NoneTagged(nodes, ids[i + 1..], segments[0])
    ensures FoundIn(nodes, ids, segments) == Found(nodes, ids[i], segments[1..])
    ensures MatchesIn(nodes, ids, segments)
            == MatchesIn(nodes, ids[..i], segments) + Matches(nodes, ids[i], segments[1..])
  {
    assert ids == ids[..i + 1] + ids[i + 1..];
    NoneTaggedAfter(nodes, ids[..i + 1], ids[i + 1..], segments);
    MatchesInAppend(nodes, ids[..i + 1], ids[i + 1..], segments);
    NoneTaggedNoMatch(nodes, ids[i + 1..], segments);
    MatchesInNext(nodes, ids, i + 1, segments);
  }

  /** A route that spells the segments and at each level takes the last child with the wanted tag. */
  ghost predicate TakesLast(nodes: Nodes, current: Id, route: seq<nat>, segments: seq<string>)
    requires Tree(nodes) && current < |nodes|
    decreases |segments|
  {
    |route| == |segments| &&
    (segments != [] ==>
      var ids := nodes[current].children;
      && route[0] < |ids| && nodes[ids[route[0]]].tag == segments[0]
      && (forall k | route[0] < k < |ids| :: nodes[ids[k]].tag != segments[0])
      && TakesLast(nodes, ids[route[0]], route[1..], segments[1..]))
  }

  ghost predicate LastRoute(nodes: Nodes, current: Id, segments: seq<string>)
    requires Tree(nodes) && current < |nodes|
  {
    exists route :: TakesLast(nodes, current, route, segments)
  }

  lemma {:induction false} LastCandidate(nodes: Nodes, ids: seq<Id>, tag: string) returns (i: nat)
    requires Ids(nodes, ids) && !NoneTagged(nodes, ids, tag)
    ensures i < |ids| && nodes[ids[i]].tag == tag && forall k | i < k < |ids| :: nodes[ids[k]].tag != tag
    decreases |ids|
  {
    i := |ids| - 1;
    if nodes[ids[i]].tag != tag {
      i := LastCandidate(nodes, ids[..i], tag);
    }
  }

  /** Lookup answers true exactly if taking the last candidate at every level leads to the end of the path. */
  lemma {:induction false} FoundExactly(nodes: Nodes, current: Id, segments: seq<string>)
    requires Tree(nodes) && current < |nodes|
    ensures Found(nodes, current, segments) <==> LastRoute(nodes, current, segments)
    decreases |segments|
  {
    if segments == [] {
      assert TakesLast(nodes, current, [], segments);
    } else {
      var ids := nodes[current].children;
      if NoneTagged(nodes, ids, segments[0]) {
        NoCandidate(nodes, ids, segments);
      } else {
        var i := LastCandidate(nodes, ids, segments[0]);
        FoundIsLast(nodes, ids, segments, i);
        FoundExactly(nodes, ids[i], segments[1..]);
        LastRouteStep(nodes, current, segments, i);
      }
    }
  }

  lemma LastRouteStep(nodes: Nodes, current: Id, segments: seq<string>, i: nat)
    requires Tree(nodes) && current < |nodes| && segments != [] && i < |nodes[current].children|
    requires var ids := nodes[current].children;
             nodes[ids[i]].tag == segments[0] && forall k | i < k < |ids| :: nodes[ids[k]].tag != segments[0]
    ensures LastRoute(nodes, current, segments) <==> LastRoute(nodes, nodes[current].children[i], segments[1..])
  {
    var child := nodes[current].children[i];
    if route :| TakesLast(nodes, current, route, segments) {
      assert route[0] == i;
      assert TakesLast(nodes, child, route[1..], segments[1..]);
    }
    if route :| TakesLast(nodes, child, route, segments[1..]) {
      assert ([i] + route)[1..] == route;
      assert TakesLast(nodes, current, [i] + route, segments);
    }
  }

  /** The answer agrees with the documented "at least one node matches" exactly if nothing matches or the last
      candidates lead to the end of the path. */
  lemma AnswerIsRightExactly(nodes: Nodes, current: Id, segments: seq<string>)
    requires Tree(nodes) && current < |nodes|
    ensures (Found(nodes, current, segments) <==> Matches(nodes, current, segments) != []) <==>
              Matches(nodes, current, segments) == [] || LastRoute(nodes, current, segments)
  {
    FoundExactly(nodes, current, segments);
    if Found(nodes, current, segments) { FoundMeansMatch(nodes, current, segments); }
  }

  /** In particular it does where no level has two candidates. */
  lemma {:induction false} UnambiguousIsRight(nodes: Nodes, current: Id, segments: seq<string>)
    requires Tree(nodes) && current < |nodes| && Unambiguous(nodes, current, segments)
    ensures Found(nodes, current, segments) <==> Matches(nodes, current, segments) != []
    decreases |segments|
  {
    if segments != [] {
      var ids := nodes[current].children;
      if i: nat :| i < |ids| && nodes[ids[i]].tag == segments[0] {
        OnlyCandidate(nodes, ids, segments, i);
        UnambiguousIsRight(nodes, ids[i], segments[1..]);
      } else {
        NoCandidate(nodes, ids, segments);
      }
    }
  }

  lemma OnlyCandidate(nodes: Nodes, ids: seq<Id>, segments: seq<string>, i: nat)
    requires Tree(nodes) && segments != [] && Ids(nodes, ids) && i < |ids| && nodes[ids[i]].tag == segments[0]
    requires forall k | 0 <= k < |ids| && k != i :: nodes[ids[k]].tag != segments[0]
    ensures FoundIn(nodes, ids, segments) == Found(nodes, ids[i], segments[1..])
    ensures MatchesIn(nodes, ids, segments) == Matches(nodes, ids[i], segments[1..])
  {
    FoundIsLast(nodes, ids, segments, i);
    NoneTaggedNoMatch(nodes, ids[..i], segments);
  }

  lemma NoCandidate(nodes: Nodes, ids: seq<Id>, segments: seq<string>)
    requires Tree(nodes) && segments != [] && Ids(nodes, ids) && NoneTagged(nodes, ids, segments[0])
    ensures !FoundIn(nodes, ids, segments) && MatchesIn(nodes, ids, segments) == []
  {
    NoneTaggedNoMatch(nodes, ids, segments);
    NoneTaggedAfter(nodes, [], ids, segments);
    assert [] + ids == ids;
  }

  /** Where two candidates compete and the last one leads nowhere, lookup finds nodes and still answers false. */
  lemma MatchWithoutFound(nodes: Nodes, current: Id, segments: seq<string>, i: nat, j: nat)
    requires Tree(nodes) && current < |nodes| && segments != [] && i < j < |nodes[current].children|
    requires var ids := nodes[current].children;
             && nodes[ids[i]].tag == segments[0] == nodes[ids[j]].tag
             && (forall k | j < k < |ids| :: nodes[ids[k]].tag != segments[0])
             && Matches(nodes, ids[i], segments[1..]) != [] && Matches(nodes, ids[j], segments[1..]) == []
    ensures Matches(nodes, current, segments) != [] && !Found(nodes, current, segments)
  {
    var ids := nodes[current].children;
    FoundIsLast(nodes, ids, segments, j);
    if Found(nodes, ids[j], segments[1..]) { FoundMeansMatch(nodes, ids[j], segments[1..]); }
    OneMatchesAll(nodes, ids, segments, i);
  }

  lemma OneMatchesAll(nodes: Nodes, ids: seq<Id>, segments: seq<string>, i: nat)
    requires Tree(nodes) && segments != [] && Ids(nodes, ids) && i < |ids|
    requires nodes[ids[i]].tag == segments[0] && Matches(nodes, ids[i], segments[1..]) != []
    ensures MatchesIn(nodes, ids, segments) != []
  {
    assert ids == ids[..i + 1] + ids[i + 1..];
    MatchesInAppend(nodes, ids[..i + 1], ids[i + 1..], segments);
    MatchesInNext(nodes, ids, i + 1, segments);
  }

  /** The non-empty attribute maps of a list of nodes, in order. */
  function Attributes(nodes: Nodes, ids: seq<Id>): seq<map<string, string>>
    requires forall k | 0 <= k < |ids| :: ids[k] < |nodes|
  {
    if ids == [] then []
    else Attributes(nodes, ids[..|ids| - 1])
         + (if nodes[ids[|ids| - 1]].attrs == map[] then [] else [nodes[ids[|ids| - 1]].attrs])
  }

  /** The positions `at` are, in order, all whose nodes have attributes, and these are `found`. */
  ghost predicate Picks(nodes: Nodes, ids: seq<Id>, at: seq<nat>, found: seq<map<string, string>>)
    requires Ids(nodes, ids)
  {
    && |at| == |found|
    && (forall k | 0 <= k < |at| :: at[k] < |ids| && found[k] == nodes[ids[at[k]]].attrs)
    && (forall j, k | 0 <= j < k < |at| :: at[j] < at[k])
    && (forall i: nat | i < |ids| :: i in at <==> nodes[ids[i]].attrs != map[])
  }

  lemma {:induction false} AttributesAre(nodes: Nodes, ids: seq<Id>) returns (at: seq<nat>)
    requires Ids(nodes, ids)
    ensures Picks(nodes, ids, at, Attributes(nodes, ids))
    decreases |ids|
  {
    at := [];
    if ids != [] {
      var last := |ids| - 1;
      at := AttributesAre(nodes, ids[..last]);
      PickNext(nodes, ids, at, Attributes(nodes, ids[..last]));
      if nodes[ids[last]].attrs != map[] { at := at + [last]; }
    }
  }

  lemma PickNext(nodes: Nodes, ids: seq<Id>, at: seq<nat>, found: seq<map<string, string>>)
    requires Ids(nodes, ids) && ids != [] && Picks(nodes, ids[..|ids| - 1], at, found)
    ensures var last := |ids| - 1;
            if nodes[ids[last]].attrs == map[] then Picks(nodes, ids, at, found + [])
            else Picks(nodes, ids, at + [last], found + [nodes[ids[last]].attrs])
  {
    var last := |ids| - 1;
    var at' := at + [last];
    forall i: nat | i < last ensures i in at <==> nodes[ids[i]].attrs != map[] { assert ids[..last][i] == ids[i]; }
    assert forall i: nat :: i in at' <==> i in at || i == last;
    assert found + [] == found;
  }

  lemma {:induction false} AttributesAppend(nodes: Nodes, a: seq<Id>, b: seq<Id>)
    requires Ids(nodes, a) && Ids(nodes, b)
    ensures Ids(nodes, a + b) && Attributes(nodes, a + b) == Attributes(nodes, a) + Attributes(nodes, b)
    decreases |b|
  {
    if b == [] {
      assert a + b == a;
    } else {
      AttributesAppend(nodes, a, b[..|b| - 1]);
      assert (a + b)[..|a + b| - 1] == a + b[..|b| - 1];
    }
  }

  lemma {:induction false} MatchesAreIds(nodes: Nodes, current: Id, segments: seq<string>)
    requires Tree(nodes) && current < |nodes|
    ensures Ids(nodes, Matches(nodes, current, segments))
    decreases |segments|, 1, 0
  {
    if segments != [] { MatchesInAreIds(nodes, nodes[current].children, segments); }
  }

  lemma {:induction false} MatchesInAreIds(nodes: Nodes, ids: seq<Id>, segments: seq<string>)
    requires Tree(nodes) && segments != [] && Ids(nodes, ids)
    ensures Ids(nodes, MatchesIn(nodes, ids, segments))
    decreases |segments|, 0, |ids|
  {
    if ids != [] {
      if nodes[ids[0]].tag == segments[0] { MatchesAreIds(nodes, ids[0], segments[1..]); }
      MatchesInAreIds(nodes, ids[1..], segments);
    }
  }
}
