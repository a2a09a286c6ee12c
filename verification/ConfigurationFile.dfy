/** IntactInfra/ConfigurationFile.cpp: lookup, addConfigurationNode and addOrUpdate on the loaded document. */
module ConfigurationFile {
  import opened ConfigurationTree
  import opened ConfigurationInsert
  import opened ConfigurationMerge
  import opened Runs

  // ---------------------------------------------------------------------------------------------------------
  // The path loop of addConfigurationNode
  // ---------------------------------------------------------------------------------------------------------

  /** One level down: to the last child with the tag, or to a new one. */
  ghost function Descend(nodes: Nodes, current: Id, tag: string): (r: (Nodes, Id))
    requires Tree(nodes) && current < |nodes|
    ensures Tree(r.0) && r.1 < |r.0|
  {
    match LastTagged(nodes, nodes[current].children, tag)
    case Some(k) => (nodes, nodes[current].children[k])
    case None =>
      CreateKeepsTree(nodes, current, tag);
      (Create(nodes, current, tag), |nodes|)
  }

  /** The loop, tag by tag: a tag equal to the path's own beginning of the same length is skipped as the root tag. */
  ghost function Walk(nodes: Nodes, current: Id, remaining: string, path: string): (Nodes, Id)
    requires Tree(nodes) && current < |nodes|
    decreases |remaining|
  {
    var i := Find(remaining);
    if i == -1 then
      if remaining == path then (nodes, current) else (Create(nodes, current, remaining), |nodes|)
    else
      var tag, rest := remaining[..i], remaining[i + 1..];
      if tag <= path then Walk(nodes, current, rest, path)
      else
        var (nodes', child) := Descend(nodes, current, tag);
        Walk(nodes', child, rest, path)
  }

  /** The tags the loop does not skip. */
  function Kept(remaining: string, path: string): seq<string>
    decreases |remaining|
  {
    var i := Find(remaining);
    if i == -1 then if remaining == path then [] else [remaining]
    else (if remaining[..i] <= path then [] else [remaining[..i]]) + Kept(remaining[i + 1..], path)
  }

  /** All tags but the last. */
  function Middles(remaining: string): seq<string>
    decreases |remaining|
  {
    var i := Find(remaining);
    if i == -1 then [] else [remaining[..i]] + Middles(remaining[i + 1..])
  }

  function FinalTagOf(remaining: string): string
    decreases |remaining|
  {
    var i := Find(remaining);
    if i == -1 then remaining else FinalTagOf(remaining[i + 1..])
  }

  /** The loop is insertion along the tags it keeps. */
  ghost predicate Inserts(nodes: Nodes, current: Id, remaining: string, path: string)
    requires Tree(nodes) && current < |nodes|
  {
    && Kept(remaining, path) != []
    && Walk(nodes, current, remaining, path) == Insert(nodes, current, Kept(remaining, path))
  }

  lemma {:induction false} WalkIsInsert(nodes: Nodes, current: Id, remaining: string, path: string)
    requires Tree(nodes) && current < |nodes| && |remaining| < |path|
    ensures Inserts(nodes, current, remaining, path)
    decreases |remaining|
  {
    var i := Find(remaining);
    if i == -1 {
      assert Kept(remaining, path) == [remaining];
    } else if remaining[..i] <= path {
      WalkIsInsert(nodes, current, remaining[i + 1..], path);
      WalkSkips(nodes, current, remaining, path, i);
    } else {
      var d := Descend(nodes, current, remaining[..i]);
      WalkIsInsert(d.0, d.1, remaining[i + 1..], path);
    }
  }

  lemma WalkSkips(nodes: Nodes, current: Id, remaining: string, path: string, i: nat)
    requires Tree(nodes) && current < |nodes| && Find(remaining) == i && remaining[..i] <= path
    requires Inserts(nodes, current, remaining[i + 1..], path)
    ensures Inserts(nodes, current, remaining, path)
  {
    assert [] + Kept(remaining[i + 1..], path) == Kept(remaining[i + 1..], path);
  }

  predicate NoneBegins(tags: seq<string>, path: string) {
    forall k | 0 <= k < |tags| :: !(tags[k] <= path)
  }

  lemma NoneBeginsCons(tag: string, tags: seq<string>, path: string)
    ensures NoneBegins([tag] + tags, path) <==> !(tag <= path) && NoneBegins(tags, path)
  {
    if NoneBegins([tag] + tags, path) {
      assert !(([tag] + tags)[0] <= path);
      assert forall k | 0 <= k < |tags| :: ([tag] + tags)[k + 1] == tags[k];
    }
  }

  /** The loop keeps every tag lookup goes through exactly if no middle tag begins the path, and never more. */
  lemma {:induction false} KeptAgainstSegments(remaining: string, path: string)
    requires |remaining| < |path| && FinalTagOf(remaining) != ""
    ensures |Kept(remaining, path)| <= |Segments(remaining)|
    ensures Kept(remaining, path) == Segments(remaining) <==> NoneBegins(Middles(remaining), path)
    decreases |remaining|
  {
    var i := Find(remaining);
    if i == -1 {
      assert Segments(remaining) == [remaining] + Segments("");
    } else {
      var tag, rest := remaining[..i], remaining[i + 1..];
      KeptAgainstSegments(rest, path);
      assert Segments(remaining) == [tag] + Segments(rest);
      assert Middles(remaining) == [tag] + Middles(rest);
      assert NoneBegins([tag] + Middles(rest), path) <==> !(tag <= path) && NoneBegins(Middles(rest), path) by {
        NoneBeginsCons(tag, Middles(rest), path);
      }
      if tag <= path {
        assert |Kept(remaining, path)| < |Segments(remaining)|;
      } else {
        assert Kept(remaining, path) == [tag] + Kept(rest, path);
        SameHeadAndTail(Kept(remaining, path), Segments(remaining));
      }
    }
  }

  lemma {:induction false} MiddlesHaveNoSeparator(remaining: string)
    ensures forall k | 0 <= k < |Middles(remaining)| :: SEPARATOR !in Middles(remaining)[k]
    decreases |remaining|
  {
    var i := Find(remaining);
    if i != -1 { MiddlesHaveNoSeparator(remaining[i + 1..]); }
  }

  /** No middle segment of the path is a prefix of its root segment. */
  predicate Clear(path: string) {
    NoneBegins(Middles(Remaining(path)), NextTag(path))
  }

  lemma NoneBeginsRoot(tags: seq<string>, path: string)
    requires Find(path) != -1 && forall k | 0 <= k < |tags| :: SEPARATOR !in tags[k]
    ensures NoneBegins(tags, path) <==> NoneBegins(tags, NextTag(path))
  {
    forall k | 0 <= k < |tags| ensures tags[k] <= path <==> tags[k] <= NextTag(path) {
      assert SEPARATOR !in tags[k];
    }
  }

  /** Adding at a path of two or more segments, then looking the path up: the earlier list with the one new node
      appended last, exactly if no middle segment is a prefix of the root segment; otherwise the earlier list. */
  lemma AddThenLookup(nodes: Nodes, path: string)
    requires Tree(nodes) && nodes != [] && Find(path) != -1 && FinalTagOf(path) != ""
    ensures var (nodes', new') := Walk(nodes, 0, path, path);
            var before := Matches(nodes, 0, Segments(Remaining(path)));
            && GrowsBelow(nodes, nodes', 0) && |nodes| <= new' < |nodes'|
            && Matches(nodes', 0, Segments(Remaining(path))) == before + (if Clear(path) then [new'] else [])
            && (Clear(path) ==> Found(nodes', 0, Segments(Remaining(path))))
  {
    var rest := Remaining(path);
    var tags := Kept(rest, path);
    ClearMeansKept(path);
    assert Walk(nodes, 0, path, path) == Walk(nodes, 0, rest, path) by { assert path[..Find(path)] <= path; }
    WalkIsInsert(nodes, 0, rest, path);
    InsertGrows(nodes, 0, tags);
    InsertAppendsMatch(nodes, 0, tags, Segments(rest));
    InsertIsFound(nodes, 0, tags);
  }

  /** What adding at a path leaves of the document: the nodes on the longest part of the kept tags that the last
      candidates lead along are reused, a node is created for each tag after it, and every lookup finds and answers
      what that makes of its earlier result. */
  ghost predicate Adds(nodes: Nodes, path: string, nodes': Nodes, new': Id)
    requires Tree(nodes) && nodes != []
  {
    var tags := Kept(Remaining(path), path);
    && tags != []
    && var reused := Reused(nodes, 0, tags);
       && reused < |tags| && |nodes'| == |nodes| + |tags| - reused && new' == |nodes'| - 1
       && Tree(nodes')
       && forall segments ::
            && Matches(nodes', 0, segments)
               == Matches(nodes, 0, segments) + Gained(|nodes|, reused, tags, segments)
            && Found(nodes', 0, segments) == AnswerThen(reused, tags, segments, Found(nodes, 0, segments))
  }

  lemma AddThenAnyLookup(nodes: Nodes, path: string)
    requires Tree(nodes) && nodes != [] && Find(path) != -1
    ensures Adds(nodes, path, Walk(nodes, 0, path, path).0, Walk(nodes, 0, path, path).1)
  {
    var rest := Remaining(path);
    var tags := Kept(rest, path);
    assert Walk(nodes, 0, path, path) == Walk(nodes, 0, rest, path) by { assert path[..Find(path)] <= path; }
    WalkIsInsert(nodes, 0, rest, path);
    InsertAdds(nodes, path);
  }

  lemma InsertAdds(nodes: Nodes, path: string)
    requires Tree(nodes) && nodes != [] && Kept(Remaining(path), path) != []
    ensures var (nodes', new') := Insert(nodes, 0, Kept(Remaining(path), path)); Adds(nodes, path, nodes', new')
  {
    var tags := Kept(Remaining(path), path);
    var nodes' := Insert(nodes, 0, tags).0;
    InsertCreates(nodes, 0, tags);
    ReusedIsLongest(nodes, 0, tags, 0);
    InsertGrows(nodes, 0, tags);
    forall segments
      ensures Matches(nodes', 0, segments)
              == Matches(nodes, 0, segments) + Gained(|nodes|, Reused(nodes, 0, tags), tags, segments)
    {
      InsertThenLookup(nodes, 0, tags, segments);
    }
    forall segments
      ensures Found(nodes', 0, segments)
              == AnswerThen(Reused(nodes, 0, tags), tags, segments, Found(nodes, 0, segments))
    {
      InsertThenFound(nodes, 0, tags, segments);
    }
  }

  function Unbegun(tags: seq<string>, path: string): seq<string> {
    if tags == [] then [] else (if tags[0] <= path then [] else [tags[0]]) + Unbegun(tags[1..], path)
  }

  /** The tags kept are the final one and, before it, the middle ones that do not begin the path, in order. */
  lemma {:induction false} KeptAre(remaining: string, path: string)
    requires |remaining| < |path|
    ensures Kept(remaining, path) == Unbegun(Middles(remaining), path) + [FinalTagOf(remaining)]
    decreases |remaining|
  {
    var i := Find(remaining);
    if i != -1 {
      KeptAre(remaining[i + 1..], path);
      var first := if remaining[..i] <= path then [] else [remaining[..i]];
      Regroup(first, Unbegun(Middles(remaining[i + 1..]), path), [FinalTagOf(remaining)]);
      assert Middles(remaining)[1..] == Middles(remaining[i + 1..]);
    }
  }

  lemma ClearMeansKept(path: string)
    requires Find(path) != -1 && FinalTagOf(path) != ""
    ensures |Kept(Remaining(path), path)| <= |Segments(Remaining(path))|
    ensures Clear(path) <==> Segments(Remaining(path)) == Kept(Remaining(path), path)
  {
    var rest := Remaining(path);
    KeptAgainstSegments(rest, path);
    MiddlesHaveNoSeparator(rest);
    NoneBeginsRoot(Middles(rest), path);
  }

  // ---------------------------------------------------------------------------------------------------------
  // The class
  // ---------------------------------------------------------------------------------------------------------

  lemma AttributesDoNotMatch(nodes: Nodes, x: Id, attrs: map<string, string>, segments: seq<string>)
    requires Tree(nodes) && x < |nodes|
    ensures var nodes' := WithAttributes(nodes, x, attrs);
            && Tree(nodes') && |nodes'| == |nodes| && Matches(nodes', 0, segments) == Matches(nodes, 0, segments)
            && Found(nodes', 0, segments) == Found(nodes, 0, segments)
  {
    var nodes' := WithAttributes(nodes, x, attrs);
    assert forall y | 0 <= y < |nodes| ::
             && nodes'[y].tag == nodes[y].tag && nodes'[y].children == nodes[y].children
             && nodes'[y].parent == nodes[y].parent;
    SameBelowSameMatches(nodes, nodes', 0, segments);
    AttributesKeepFound(nodes, nodes', 0, segments);
  }

  lemma AttributesKeepAdds(nodes: Nodes, path: string, nodes': Nodes, new': Id, attrs: map<string, string>)
    requires Tree(nodes) && nodes != [] && Adds(nodes, path, nodes', new')
    ensures Adds(nodes, path, WithAttributes(nodes', new', attrs), new')
  {
    var with := WithAttributes(nodes', new', attrs);
    forall segments
      ensures Tree(with) && |with| == |nodes'| && Matches(with, 0, segments) == Matches(nodes', 0, segments)
              && Found(with, 0, segments) == Found(nodes', 0, segments)
    {
      AttributesDoNotMatch(nodes', new', attrs, segments);
    }
  }

  /** The path's own lookup finds the new node last, and answers true, where no middle segment begins the root's. */
  ghost predicate FoundLast(nodes: Nodes, path: string, nodes': Nodes, new': Id)
    requires Tree(nodes) && nodes != []
  {
    var segments := Segments(Remaining(path));
    && Tree(nodes') && |nodes| <= new' < |nodes'|
    && Matches(nodes', 0, segments) == Matches(nodes, 0, segments) + (if Clear(path) then [new'] else [])
    && (Clear(path) ==> Found(nodes', 0, segments))
  }

  /** The new node has the given attributes, those of a node that was there already being overridden; other nodes keep
      theirs, and new ones have none. */
  ghost predicate Attributed(nodes: Nodes, nodes': Nodes, x: Id, attrs: map<string, string>) {
    forall y | 0 <= y < |nodes'| ::
      var before := if y < |nodes| then nodes[y].attrs else map[];
      nodes'[y].attrs == if y == x then before + attrs else before
  }

  lemma WalkThenAttributes(nodes: Nodes, path: string, attrs: map<string, string>)
    requires Tree(nodes) && nodes != [] && (Find(path) != -1 ==> FinalTagOf(path) != "")
    ensures var (nodes', x) := Walk(nodes, 0, path, path);
            var with := WithAttributes(nodes', x, attrs);
            && Tree(with) && |with| == |nodes'| && Attributed(nodes, with, x, attrs)
            && (Find(path) == -1 ==> x == 0)
            && (Find(path) != -1 ==> FoundLast(nodes, path, with, x) && Adds(nodes, path, with, x))
  {
    WalkAttributes(nodes, path);
    var (nodes', x) := Walk(nodes, 0, path, path);
    if Find(path) != -1 {
      AddThenLookup(nodes, path);
      AddThenAnyLookup(nodes, path);
      AttributesKeepAdds(nodes, path, nodes', x, attrs);
      AttributesDoNotMatch(nodes', x, attrs, Segments(Remaining(path)));
    } else {
      AttributesDoNotMatch(nodes', x, attrs, []);
    }
  }

  /** The path loop gives no node attributes. */
  lemma WalkAttributes(nodes: Nodes, path: string)
    requires Tree(nodes) && nodes != []
    ensures var nodes' := Walk(nodes, 0, path, path).0;
            && |nodes| <= |nodes'|
            && forall x | 0 <= x < |nodes'| :: nodes'[x].attrs == if x < |nodes| then nodes[x].attrs else map[]
  {
    if Find(path) != -1 {
      var rest := Remaining(path);
      assert Walk(nodes, 0, path, path) == Walk(nodes, 0, rest, path) by { assert path[..Find(path)] <= path; }
      WalkIsInsert(nodes, 0, rest, path);
      InsertGrows(nodes, 0, Kept(rest, path));
    }
  }

  /** What the i-th child adds to the matches. */
  ghost function More(nodes: Nodes, lst: seq<Id>, i: nat, segments: seq<string>): seq<Id>
    requires Tree(nodes) && segments != [] && Ids(nodes, lst) && i < |lst|
  {
    if nodes[lst[i]].tag == segments[0] then Matches(nodes, lst[i], segments[1..]) else []
  }

  /** One turn of the loop over the children, for the answer. */
  lemma FoundTurn(nodes: Nodes, ids: seq<Id>, i: nat, segments: seq<string>)
    requires Tree(nodes) && Ids(nodes, ids) && i < |ids| && segments != []
    ensures FoundIn(nodes, ids[..i + 1], segments) ==
              if nodes[ids[i]].tag == segments[0] then Found(nodes, ids[i], segments[1..])
              else FoundIn(nodes, ids[..i], segments)
  {
    assert ids[..i + 1][..i] == ids[..i];
  }

  /** One turn, for the attribute maps of the matches. */
  lemma AttributesTurn(nodes: Nodes, lst: seq<Id>, i: nat, segments: seq<string>)
    requires Tree(nodes) && Ids(nodes, lst) && i < |lst| && segments != []
    requires Ids(nodes, MatchesIn(nodes, lst[..i], segments))
    ensures Ids(nodes, More(nodes, lst, i, segments)) && Ids(nodes, MatchesIn(nodes, lst[..i + 1], segments))
    ensures Attributes(nodes, MatchesIn(nodes, lst[..i + 1], segments)) ==
              Attributes(nodes, MatchesIn(nodes, lst[..i], segments)) + Attributes(nodes, More(nodes, lst, i, segments))
  {
    if nodes[lst[i]].tag == segments[0] { MatchesAreIds(nodes, lst[i], segments[1..]); }
    MatchesInNext(nodes, lst, i + 1, segments);
    AttributesAppend(nodes, MatchesIn(nodes, lst[..i], segments), More(nodes, lst, i, segments));
  }

  /** lookup for elements from a given node on: the part that recurses. It changes nothing in the document. */
  method LookupElementsBelow(nodes: Nodes, resultSet: seq<Id>, current: Id, path: string)
    returns (result: seq<Id>, found: bool)
    requires Tree(nodes) && current < |nodes|
    ensures result == resultSet + Matches(nodes, current, Segments(path))
    ensures found == Found(nodes, current, Segments(path))
    decreases |path|, 1
  {
    if path == "" {
      result, found := resultSet + [current], true;
    } else {
      result, found := LookupElementsIn(nodes, resultSet, nodes[current].children, NextTag(path), Remaining(path));
    }
  }

  /** Its loop over the children. */
  method LookupElementsIn(nodes: Nodes, resultSet: seq<Id>, lst: seq<Id>, findTag: string, remainingPath: string)
    returns (result: seq<Id>, found: bool)
    requires Tree(nodes) && Ids(nodes, lst)
    ensures result == resultSet + MatchesIn(nodes, lst, [findTag] + Segments(remainingPath))
    ensures found == FoundIn(nodes, lst, [findTag] + Segments(remainingPath))
    decreases |remainingPath| + 1, 0
  {
    ghost var segments := [findTag] + Segments(remainingPath);
    assert segments[1..] == Segments(remainingPath);
    result, found := resultSet, false;
    var i := 0;
    while i < |lst|
      invariant 0 <= i <= |lst|
      invariant result == resultSet + MatchesIn(nodes, lst[..i], segments)
      invariant found == FoundIn(nodes, lst[..i], segments)
    {
      FoundTurn(nodes, lst, i, segments);
      MatchesInNext(nodes, lst, i + 1, segments);
      Regroup(resultSet, MatchesIn(nodes, lst[..i], segments), More(nodes, lst, i, segments));
      if nodes[lst[i]].tag == findTag {
        result, found := LookupElementsBelow(nodes, result, lst[i], remainingPath);
      }
      i := i + 1;
    }
    assert lst[..i] == lst;
  }

  /** lookup for attribute maps from a given node on. */
  method LookupAttributesBelow(nodes: Nodes, resultSet: seq<map<string, string>>, current: Id, path: string)
    returns (result: seq<map<string, string>>, found: bool)
    requires Tree(nodes) && current < |nodes|
    ensures Ids(nodes, Matches(nodes, current, Segments(path)))
    ensures result == resultSet + Attributes(nodes, Matches(nodes, current, Segments(path)))
    ensures found == Found(nodes, current, Segments(path))
    decreases |path|, 1
  {
    if path == "" {
      var confNode := nodes[current].attrs;
      result, found := resultSet, true;
      if confNode != map[] {
        result := result + [confNode];
      }
    } else {
      result, found := LookupAttributesIn(nodes, resultSet, nodes[current].children, NextTag(path), Remaining(path));
    }
  }

  method LookupAttributesIn(nodes: Nodes, resultSet: seq<map<string, string>>, lst: seq<Id>,
                            findTag: string, remainingPath: string)
    returns (result: seq<map<string, string>>, found: bool)
    requires Tree(nodes) && Ids(nodes, lst)
    ensures Ids(nodes, MatchesIn(nodes, lst, [findTag] + Segments(remainingPath)))
    ensures result == resultSet + Attributes(nodes, MatchesIn(nodes, lst, [findTag] + Segments(remainingPath)))
    ensures found == FoundIn(nodes, lst, [findTag] + Segments(remainingPath))
    decreases |remainingPath| + 1, 0
  {
    ghost var segments := [findTag] + Segments(remainingPath);
    assert segments[1..] == Segments(remainingPath);
    result, found := resultSet, false;
    var i := 0;
    while i < |lst|
      invariant 0 <= i <= |lst|
      invariant Ids(nodes, MatchesIn(nodes, lst[..i], segments))
      invariant result == resultSet + Attributes(nodes, MatchesIn(nodes, lst[..i], segments))
      invariant found == FoundIn(nodes, lst[..i], segments)
    {
      FoundTurn(nodes, lst, i, segments);
      AttributesTurn(nodes, lst, i, segments);
      Regroup(resultSet, Attributes(nodes, MatchesIn(nodes, lst[..i], segments)),
              Attributes(nodes, More(nodes, lst, i, segments)));
      if nodes[lst[i]].tag == findTag {
        result, found := LookupAttributesBelow(nodes, result, lst[i], remainingPath);
      }
      i := i + 1;
    }
    assert lst[..i] == lst;
  }

  /** xmlDocument; no nodes means none is loaded. */
  class ConfigurationFile {
    var nodes: Nodes

    ghost predicate Valid()
      reads this
    {
      Tree(nodes)
    }

    constructor ()
      ensures Valid() && nodes == []
    {
      nodes := [];
    }

    /** lookup for elements. A missing current node means the document element, whatever the path's first tag is. */
    method LookupElements(resultSet: seq<Id>, current: Option<Id>, path: string) returns (result: seq<Id>, found: bool)
      requires Valid() && nodes != [] && (current.Some? ==> current.value < |nodes|)
      ensures var c := if current.Some? then current.value else 0;
              var segments := Segments(if current.Some? then path else Remaining(path));
              result == resultSet + Matches(nodes, c, segments) && found == Found(nodes, c, segments)
    {
      if current.None? {
        result, found := LookupElementsBelow(nodes, resultSet, 0, Remaining(path));
      } else {
        result, found := LookupElementsBelow(nodes, resultSet, current.value, path);
      }
    }

    /** lookup for attribute maps: the non-empty ones among the same nodes; nothing if no document is loaded. */
    method LookupAttributes(resultSet: seq<map<string, string>>, current: Option<Id>, path: string)
      returns (result: seq<map<string, string>>, found: bool)
      requires Valid() && (current.Some? ==> current.value < |nodes|)
      ensures nodes == [] ==> result == resultSet && !found
      ensures nodes != [] ==>
                var c := if current.Some? then current.value else 0;
                var segments := Segments(if current.Some? then path else Remaining(path));
                && Ids(nodes, Matches(nodes, c, segments))
                && result == resultSet + Attributes(nodes, Matches(nodes, c, segments))
                && found == Found(nodes, c, segments)
    {
      if nodes == [] {
        return resultSet, false;
      }
      if current.None? {
        result, found := LookupAttributesBelow(nodes, resultSet, 0, Remaining(path));
      } else {
        result, found := LookupAttributesBelow(nodes, resultSet, current.value, path);
      }
    }

    /** getDOMElements */
    method GetDOMElements(path: string, current: Option<Id>) returns (result: seq<Id>)
      requires Valid() && nodes != [] && (current.Some? ==> current.value < |nodes|)
      ensures result == if current.Some? then Matches(nodes, current.value, Segments(path))
                        else Matches(nodes, 0, Segments(Remaining(path)))
    {
      var found;
      result, found := LookupElements([], current, path);
    }

    /** hasConfigurationNode: the answer of the attribute lookup, or false if no document is loaded. */
    method HasConfigurationNode(path: string, current: Option<Id>) returns (found: bool)
      requires Valid() && (current.Some? ==> current.value < |nodes|)
      ensures found <==>
                && nodes != []
                && if current.Some? then LastRoute(nodes, current.value, Segments(path))
                   else LastRoute(nodes, 0, Segments(Remaining(path)))
    {
      var result;
      result, found := LookupAttributes([], current, path);
      if nodes != [] {
        FoundExactly(nodes, if current.Some? then current.value else 0,
                     Segments(if current.Some? then path else Remaining(path)));
      }
    }

    /** addConfigurationNode. DOM demands non-empty tag names of the elements it is asked to create. */
    method AddConfigurationNode(path: string, newNode: map<string, string>) returns (added: Id)
      requires Valid() && (nodes == [] ==> NextTag(path) != "") && (Find(path) != -1 ==> FinalTagOf(path) != "")
      modifies this
      ensures Valid() && nodes != [] && added < |nodes|
      ensures var loaded := if old(nodes) == [] then [Node(NextTag(path), map[], [], 0)] else old(nodes);
              && Tree(loaded)
              && added == Walk(loaded, 0, path, path).1
              && nodes == WithAttributes(Walk(loaded, 0, path, path).0, added, newNode)
              && (Find(path) == -1 ==> added == 0)
              && (Find(path) != -1 ==> FoundLast(loaded, path, nodes, added) && Adds(loaded, path, nodes, added))
              && Attributed(loaded, nodes, added, newNode)
    {
      if nodes == [] {
        var rootTag := NextTag(path);
        nodes := [Node(rootTag, map[], [], 0)];
      }
      ghost var loaded := nodes;
      var currentNode := WalkPath(path);
      WalkThenAttributes(loaded, path, newNode);
      SetAttributes(currentNode, newNode);
      added := currentNode;
    }

    /** The loop that separates tag after tag from the path. */
    method WalkPath(path: string) returns (currentNode: Id)
      requires Valid() && nodes != []
      modifies this
      ensures Valid() && currentNode < |nodes| && (nodes, currentNode) == Walk(old(nodes), 0, path, path)
    {
      currentNode := 0;
      var remainingPath := path;
      var finalTag := false;
      while !finalTag
        invariant Valid() && currentNode < |nodes| && |remainingPath| <= |path|
        invariant !finalTag ==> Walk(nodes, currentNode, remainingPath, path) == Walk(old(nodes), 0, path, path)
        invariant finalTag ==> (nodes, currentNode) == Walk(old(nodes), 0, path, path)
        decreases !finalTag, |remainingPath|
      {
        var idx := Find(remainingPath);
        if idx == -1 {
          finalTag := true;
        }
        var nextTag := if idx == -1 then remainingPath else remainingPath[..idx];
        remainingPath := remainingPath[idx + 1..];
        if nextTag == (if idx == -1 then path else path[..idx]) {
          continue;
        }
        if finalTag {
          currentNode := AppendElement(currentNode, nextTag);
        } else {
          currentNode := ContinueOn(currentNode, nextTag);
        }
      }
    }

    /** Traversal continues on the last child with the tag, or on a new one. */
    method ContinueOn(current: Id, tag: string) returns (child: Id)
      requires Valid() && current < |nodes|
      modifies this
      ensures Valid() && (nodes, child) == Descend(old(nodes), current, tag)
      ensures var ids := old(nodes)[current].children;
              if NoneTagged(old(nodes), ids, tag)
              then child == |old(nodes)| && nodes == Create(old(nodes), current, tag)
              else
                && nodes == old(nodes)
                && exists k | 0 <= k < |ids| ::
                     child == ids[k] && nodes[child].tag == tag && NoneTagged(nodes, ids[k + 1..], tag)
    {
      var lastChild := FindLastChild(current, tag);
      if lastChild.Some? {
        child := nodes[current].children[lastChild.value];
      } else {
        child := AppendElement(current, tag);
      }
    }

    /** createElement and appendChild. */
    method AppendElement(current: Id, tag: string) returns (node: Id)
      requires Valid() && current < |nodes|
      modifies this
      ensures Valid() && node == |old(nodes)| && nodes == Create(old(nodes), current, tag)
    {
      CreateKeepsTree(nodes, current, tag);
      node := |nodes|;
      nodes := nodes[current := nodes[current].(children := nodes[current].children + [node])]
               + [Node(tag, map[], [], current)];
    }

    /** The loop over all children that remembers the last match. */
    method FindLastChild(current: Id, tag: string) returns (lastChild: Option<nat>)
      requires Valid() && current < |nodes|
      ensures lastChild == LastTagged(nodes, nodes[current].children, tag)
    {
      var children := nodes[current].children;
      lastChild := None;
      var i := 0;
      while i < |children|
        invariant 0 <= i <= |children|
        invariant lastChild == LastTagged(nodes, children[..i], tag)
      {
        assert children[..i + 1][..i] == children[..i];
        if nodes[children[i]].tag == tag {
          lastChild := Some(i);
        }
        i := i + 1;
      }
      assert children[..|children|] == children;
    }

    /** The loop that fills the element from the given map. */
    method SetAttributes(x: Id, newNode: map<string, string>)
      requires x < |nodes|
      modifies this
      ensures nodes == WithAttributes(old(nodes), x, newNode)
    {
      var rest := newNode.Keys;
      ghost var before := nodes[x].attrs;
      while rest != {}
        invariant rest <= newNode.Keys
        invariant |nodes| == |old(nodes)|
        invariant nodes == old(nodes)[x := old(nodes)[x].(attrs := nodes[x].attrs)]
        invariant nodes[x].attrs == before + (newNode - rest)
      {
        var k :| k in rest;
        rest := rest - {k};
        nodes := nodes[x := nodes[x].(attrs := nodes[x].attrs[k := newNode[k]])];
      }
      assert newNode - {} == newNode;
    }

    // -------------------------------------------------------------------------------------------------------
    // addOrUpdate
    // -------------------------------------------------------------------------------------------------------

    /** addOrUpdate: the children of thisCurrent become the merge of the two lists of children; nothing outside
        thisCurrent's subtree changes. `his` is the other document's store, which is only read. */
    method AddOrUpdate(his: Nodes, hisCurrent: Id, thisCurrent: Id)
      requires Valid() && thisCurrent < |nodes| && Tree(his) && hisCurrent < |his|
      modifies this
      ensures Valid() && Merged(old(nodes), nodes, thisCurrent, View(his, hisCurrent).kids)
      decreases |his| - hisCurrent, 2
    {
      ghost var n0 := nodes;
      var tagsInHis := MergeChildren(his, hisCurrent, thisCurrent);
      EachMergedView(n0, nodes, thisCurrent, View(his, hisCurrent).kids);
      TagsSplit(n0, thisCurrent, View(his, hisCurrent).kids, tagsInHis);
      ImportOthers(n0, his, hisCurrent, thisCurrent, tagsInHis);
    }

    /** The first loop: every child of this meets all of his. */
    method MergeChildren(his: Nodes, hisCurrent: Id, thisCurrent: Id) returns (tagsInHis: set<string>)
      requires Valid() && thisCurrent < |nodes| && Tree(his) && hisCurrent < |his|
      modifies this
      ensures var n0, h := old(nodes), View(his, hisCurrent).kids;
              && Valid() && EachMerged(n0, nodes, thisCurrent, h, |n0[thisCurrent].children|)
              && TagsOf(n0, thisCurrent, |n0[thisCurrent].children|, h, tagsInHis)
      decreases |his| - hisCurrent, 1
    {
      ghost var n0 := nodes;
      var thisChildren := nodes[thisCurrent].children;
      ghost var h := View(his, hisCurrent).kids;
      tagsInHis := {};
      ChangesNothing(nodes, thisCurrent);
      var i := 0;
      while i < |thisChildren|
        invariant 0 <= i <= |thisChildren|
        invariant Valid() && EachMerged(n0, nodes, thisCurrent, h, i)
        invariant TagsOf(n0, thisCurrent, i, h, tagsInHis)
      {
        ghost var n1 := nodes;
        var matched := MergeChild(his, hisCurrent, thisChildren[i]);
        OneMoreMerged(n0, n1, nodes, thisCurrent, h, i);
        TagsNext(n0, thisCurrent, i, h, tagsInHis);
        if matched {
          tagsInHis := tagsInHis + {nodes[thisChildren[i]].tag};
        }
        i := i + 1;
      }
    }

    /** The second loop: his children with other tags are imported. */
    method ImportOthers(ghost n0: Nodes, his: Nodes, hisCurrent: Id, thisCurrent: Id, tagsInHis: set<string>)
      requires Valid() && Tree(n0) && thisCurrent < |n0| && Tree(his) && hisCurrent < |his|
      requires Changes(n0, nodes, thisCurrent) && ImportedUpTo(n0, nodes, thisCurrent, View(his, hisCurrent).kids, 0)
      requires Splits(tagsInHis, View(his, hisCurrent).kids, View(n0, thisCurrent).kids)
      modifies this
      ensures Valid() && Merged(n0, nodes, thisCurrent, View(his, hisCurrent).kids)
    {
      ghost var h := View(his, hisCurrent).kids;
      var hisChildren := his[hisCurrent].children;
      var j := 0;
      while j < |hisChildren|
        invariant 0 <= j <= |hisChildren|
        invariant Valid() && Changes(n0, nodes, thisCurrent)
        invariant ImportedUpTo(n0, nodes, thisCurrent, h, j)
      {
        ImportIfOther(n0, his, hisCurrent, thisCurrent, tagsInHis, j);
        j := j + 1;
      }
      AllImported(n0, nodes, thisCurrent, h);
    }

    /** One turn of that loop. */
    method ImportIfOther(ghost n0: Nodes, his: Nodes, hisCurrent: Id, thisCurrent: Id, tagsInHis: set<string>, j: nat)
      requires Valid() && Tree(n0) && thisCurrent < |n0| && Tree(his) && hisCurrent < |his|
      requires j < |his[hisCurrent].children|
      requires Changes(n0, nodes, thisCurrent) && ImportedUpTo(n0, nodes, thisCurrent, View(his, hisCurrent).kids, j)
      requires Splits(tagsInHis, View(his, hisCurrent).kids, View(n0, thisCurrent).kids)
      modifies this
      ensures Valid() && Changes(n0, nodes, thisCurrent)
      ensures ImportedUpTo(n0, nodes, thisCurrent, View(his, hisCurrent).kids, j + 1)
      decreases |his| - hisCurrent, 0
    {
      ghost var n1 := nodes;
      ghost var h := View(his, hisCurrent).kids;
      var hisChild := his[hisCurrent].children[j];
      assert h[j] == View(his, hisChild);
      if his[hisChild].tag !in tagsInHis {
        var node := ImportNode(his, hisChild, thisCurrent);
        OneMoreImported(n0, n1, nodes, thisCurrent, node, h, j);
      } else {
        NoneMoreImported(n0, nodes, thisCurrent, h, j);
      }
    }

    /** The inner loop: all children of hisCurrent are tried on one child of this. */
    method MergeChild(his: Nodes, hisCurrent: Id, thisChild: Id) returns (matched: bool)
      requires Valid() && thisChild < |nodes| && Tree(his) && hisCurrent < |his|
      modifies this
      ensures Valid() && Changes(old(nodes), nodes, thisChild)
      ensures View(nodes, thisChild) == MergeAll(View(old(nodes), thisChild), View(his, hisCurrent).kids)
      ensures matched == Tagged(View(his, hisCurrent).kids, old(nodes)[thisChild].tag)
      decreases |his| - hisCurrent, 0
    {
      ghost var n0 := nodes;
      ghost var h := View(his, hisCurrent).kids;
      var hisChildren := his[hisCurrent].children;
      matched := false;
      ChangesNothing(nodes, thisChild);
      var j := 0;
      while j < |hisChildren|
        invariant 0 <= j <= |hisChildren|
        invariant Valid() && MetUpTo(n0, nodes, thisChild, h, j, matched)
      {
        assert h[j] == View(his, hisChildren[j]);
        if nodes[thisChild].tag == his[hisChildren[j]].tag {
          matched := true;
          ghost var n1 := nodes;
          MergePair(his, hisChildren[j], thisChild);
          OneMoreMet(n0, n1, nodes, thisChild, h, j);
        } else {
          OneMorePassed(n0, nodes, thisChild, h, j, matched);
        }
        j := j + 1;
      }
      assert h[..j] == h;
    }

    /** Two children with the same tag: first their children are merged, then the attributes. */
    method MergePair(his: Nodes, x: Id, thisChild: Id)
      requires Valid() && thisChild < |nodes| && Tree(his) && x < |his| && nodes[thisChild].tag == his[x].tag
      modifies this
      ensures Valid() && Changes(old(nodes), nodes, thisChild)
      ensures View(nodes, thisChild) == MergeOne(View(old(nodes), thisChild), View(his, x))
      decreases |his| - x, 3
    {
      ghost var n1 := nodes;
      AddOrUpdate(his, x, thisChild);
      ghost var n2 := nodes;
      MergeAttributes(thisChild, his[x].attrs);
      PairMerged(n1, n2, thisChild, View(his, x));
    }

    /** The two attribute loops: replace the values of common names, then set his other attributes. */
    method MergeAttributes(x: Id, his: map<string, string>)
      requires x < |nodes|
      modifies this
      ensures nodes == WithAttributes(old(nodes), x, his)
    {
      var this0 := nodes[x].attrs;
      var attrs := this0;
      var valuesInHis: set<string> := {};
      var rest := this0.Keys;
      while rest != {}
        invariant rest <= this0.Keys && attrs.Keys == this0.Keys
        invariant forall a :: a in valuesInHis <==> a in this0 && a in his && a !in rest
        invariant forall a | a in attrs :: attrs[a] == if a !in rest && a in his then his[a] else this0[a]
      {
        var a :| a in rest;
        rest := rest - {a};
        if a in his {
          valuesInHis := valuesInHis + {a};
          if attrs[a] != his[a] {
            attrs := attrs[a := his[a]];
          }
        }
      }
      rest := his.Keys;
      while rest != {}
        invariant rest <= his.Keys
        invariant attrs.Keys == this0.Keys + (his.Keys - rest)
        invariant forall a | a in attrs :: attrs[a] == if a in his then his[a] else this0[a]
      {
        var a :| a in rest;
        rest := rest - {a};
        if a !in valuesInHis {
          attrs := attrs[a := his[a]];
        }
      }
      assert attrs == this0 + his;
      nodes := nodes[x := nodes[x].(attrs := attrs)];
    }

    /** importNode(..., deep) followed by appendChild: a copy of his subtree as the last child. */
    method ImportNode(his: Nodes, x: Id, parent: Id) returns (node: Id)
      requires Valid() && parent < |nodes| && Tree(his) && x < |his|
      modifies this
      ensures Valid() && Imported(old(nodes), nodes, parent, node, View(his, x))
      decreases |his| - x
    {
      ghost var n0 := nodes;
      ghost var e := View(his, x);
      node := AppendElement(parent, his[x].tag);
      AttributesChange(nodes, node, his[x].attrs);
      nodes := nodes[node := nodes[node].(attrs := his[x].attrs)];
      assert map[] + his[x].attrs == his[x].attrs;
      assert nodes == WithAttributes(Create(n0, parent, his[x].tag), node, his[x].attrs);
      var hisChildren := his[x].children;
      var k := 0;
      while k < |hisChildren|
        invariant 0 <= k <= |hisChildren|
        invariant Valid() && Imported(n0, nodes, parent, node, e.(kids := e.kids[..k]))
      {
        ghost var n1 := nodes;
        var copy := ImportNode(his, hisChildren[k], node);
        OneMoreCopied(n0, n1, nodes, parent, node, copy, e, k);
        k := k + 1;
      }
      assert e.kids[..k] == e.kids;
    }
  }
}
