/** MembershipManager/GroupManager.cpp: four cross-linked maps behind one mutex, changed by remote calls and by a
    periodic sweep. Every public call and every sweep runs under the mutex, so each is one operation here. */
module GroupManager {
  import opened HostInformation
  import opened Runs

  const LATE_CHECKIN_DEADLINE_SECONDS := 2

  /** hosts is the master copy; groups holds each group's copies; joined is the inverse of group membership; alive is
      the time of each component's last check-in. */
  datatype Registry = Registry(hosts: map<string, Host>, groups: map<string, Group>,
                               joined: map<string, set<string>>, alive: map<string, int>)

  const EMPTY := Registry(map[], map[], map[], map[])

  /** Component c is a member of group g. */
  predicate Has(r: Registry, g: string, c: string) {
    g in r.groups && c in r.groups[g].members
  }

  function JoinedBy(r: Registry, c: string): set<string> {
    if c in r.joined then r.joined[c] else {}
  }

  // ---------------------------------------------------------------------------------------------------------
  // The private functions
  // ---------------------------------------------------------------------------------------------------------

  /** The assertions addOrUpdateHostInfo evaluates. */
  predicate HostAsserts(r: Registry, h: Host) {
    h.componentName in r.hosts ==>
      h.componentName in r.joined && forall g | g in r.joined[h.componentName] :: g in r.groups
  }

  function UpdateCopies(groups: map<string, Group>, h: Host, names: set<string>): map<string, Group> {
    map g | g in groups :: if g in names then groups[g].UpdateHost(h) else groups[g]
  }

  function WithHostInfo(r: Registry, h: Host): Registry {
    var r' := r.(hosts := r.hosts[h.componentName := h]);
    if h.componentName in r.hosts then r'.(groups := UpdateCopies(r.groups, h, JoinedBy(r, h.componentName))) else r'
  }

  function WithoutMember(r: Registry, h: Host, g: string): Registry {
    var c := h.componentName;
    if g in r.groups && r.groups[g].IsMember(c)
    then r.(joined := r.joined[c := JoinedBy(r, c) - {g}], groups := r.groups[g := r.groups[g].RemoveHost(c)])
    else r
  }

  function OpenGroup(r: Registry, g: string): Registry {
    if g in r.groups then r else r.(groups := r.groups[g := Group(g, map[])])
  }

  function WithMember(r: Registry, h: Host, g: string): Registry {
    var c, r' := h.componentName, OpenGroup(r, g);
    if r'.groups[g].IsMember(c) then r'
    else r'.(joined := r'.joined[c := JoinedBy(r', c) + {g}], groups := r'.groups[g := r'.groups[g].AddHost(h)])
  }

  function Stamp(r: Registry, c: string, now: int): Registry {
    r.(alive := r.alive[c := now])
  }

  // ---------------------------------------------------------------------------------------------------------
  // The operations
  // ---------------------------------------------------------------------------------------------------------

  datatype Op =
    | Join(h: Host, g: string, now: int)
    | Change(h: Host, from: string, to: string, now: int)
    | Leave(h: Host, g: string)
    | Alive(h: Host, g: string, now: int)
    | Sweep(clock: string -> int)           // clock(c): time(NULL) when the sweep reaches component c

  function JoinGroup(r: Registry, h: Host, g: string, now: int): Registry {
    Stamp(WithMember(WithHostInfo(r, h), h, g), h.componentName, now)
  }

  function GroupChange(r: Registry, h: Host, from: string, to: string, now: int): Registry {
    Stamp(WithMember(WithoutMember(WithHostInfo(r, h), h, from), h, to), h.componentName, now)
  }

  function LeaveGroup(r: Registry, h: Host, g: string): Registry {
    WithoutMember(WithHostInfo(r, h), h, g)
  }

  function AliveChecker(r: Registry, h: Host, g: string, now: int): Registry {
    if g !in r.groups then r
    else Stamp(r.(groups := r.groups[g := r.groups[g].UpdateHost(h)]), h.componentName, now)
  }

  /** The sweep's verdict on one component. */
  function Judge(h: Host, lastSeen: int, now: int): Host {
    if lastSeen > now - LATE_CHECKIN_DEADLINE_SECONDS then h.(status := Online)
    else if h.status == Online then h.(status := Offline)
    else h
  }

  /** The registry once the sweep has visited the components in `done`: the verdict reaches every copy. */
  function Swept(r: Registry, clock: string -> int, done: set<string>): Registry
    requires done <= r.alive.Keys <= r.hosts.Keys
  {
    var hosts := map c | c in r.hosts :: if c in done then Judge(r.hosts[c], r.alive[c], clock(c)) else r.hosts[c];
    r.(hosts := hosts,
       groups := map g | g in r.groups ::
         r.groups[g].(members := map c | c in r.groups[g].members ::
           if c in done then hosts[c] else r.groups[g].members[c]))
  }

  /** No assertion fails in this operation. */
  predicate AssertsPass(r: Registry, op: Op) {
    match op
    case Join(h, _, _) => HostAsserts(r, h)
    case Change(h, _, _, _) => HostAsserts(r, h)
    case Leave(h, _) => HostAsserts(r, h)
    case Alive(h, g, _) => g in r.groups ==> r.groups[g].CanUpdate(h)
    case Sweep(clock) => forall c | c in r.alive :: c in r.hosts && HostAsserts(r, r.hosts[c])
  }

  function Apply(r: Registry, op: Op): Registry
    requires AssertsPass(r, op)
  {
    match op
    case Join(h, g, now) => JoinGroup(r, h, g, now)
    case Change(h, from, to, now) => GroupChange(r, h, from, to, now)
    case Leave(h, g) => LeaveGroup(r, h, g)
    case Alive(h, g, now) => AliveChecker(r, h, g, now)
    case Sweep(clock) => Swept(r, clock, r.alive.Keys)
  }

  /** Where a run of operations ends, or None if an assertion stopped the program on the way. */
  function After(ops: seq<Op>): Option<Registry> {
    if ops == [] then Some(EMPTY)
    else
      match After(ops[..|ops| - 1])
      case None => None
      case Some(r) => if AssertsPass(r, ops[|ops| - 1]) then Some(Apply(r, ops[|ops| - 1])) else None
  }

  // ---------------------------------------------------------------------------------------------------------
  // The cross-map invariant
  // ---------------------------------------------------------------------------------------------------------

  ghost predicate Named(r: Registry) {
    && (forall c | c in r.hosts :: r.hosts[c].componentName == c)
    && (forall g | g in r.groups :: r.groups[g].name == g)
    && (forall g, c | Has(r, g, c) :: r.groups[g].members[c].componentName == c)
  }

  /** joined is the inverse of membership; exactly the joined components are watched; all of them have host info. */
  ghost predicate Inv(r: Registry) {
    && Named(r)
    && (forall g, c :: g in JoinedBy(r, c) <==> Has(r, g, c))
    && r.alive.Keys == r.joined.Keys
    && r.joined.Keys <= r.hosts.Keys
  }

  /** r' is r with h written to the master copy and to every group's copy. */
  ghost predicate Updated(r: Registry, h: Host, r': Registry) {
    && r'.joined == r.joined && r'.alive == r.alive
    && r'.hosts == r.hosts[h.componentName := h]
    && (forall g, c :: Has(r', g, c) <==> Has(r, g, c))
    && (forall g, c | Has(r, g, c) ::
          r'.groups[g].members[c] == if c == h.componentName then h else r.groups[g].members[c])
  }

  /** r' is r without c0 in g0, if its copy there was ONLINE. */
  ghost predicate Removed(r: Registry, c0: string, g0: string, r': Registry) {
    && r'.hosts == r.hosts && r'.alive == r.alive
    && (forall g, c :: Has(r', g, c) <==>
          Has(r, g, c) && !(g == g0 && c == c0 && r.groups[g0].members[c0].status == Online))
    && (forall g, c | Has(r', g, c) :: r'.groups[g].members[c] == r.groups[g].members[c])
  }

  /** r' is r with h as a member of g0, seen now. */
  ghost predicate Added(r: Registry, h: Host, g0: string, now: int, r': Registry) {
    && r'.hosts == r.hosts && r'.alive == r.alive[h.componentName := now]
    && (forall g, c :: Has(r', g, c) <==> Has(r, g, c) || (g == g0 && c == h.componentName))
    && (forall g, c | Has(r', g, c) ::
          r'.groups[g].members[c] == if g == g0 && c == h.componentName then h else r.groups[g].members[c])
  }

  /** Writing h into the groups that have its component, and only those, is writing it to all its copies. */
  lemma CopiesUpdated(groups: map<string, Group>, h: Host, names: set<string>)
    requires forall g | g in groups :: g in names <==> h.componentName in groups[g].members
    ensures var groups', c0 := UpdateCopies(groups, h, names), h.componentName;
            && groups'.Keys == groups.Keys
            && forall g | g in groups ::
                 && groups'[g].name == groups[g].name && groups'[g].members.Keys == groups[g].members.Keys
                 && forall c | c in groups[g].members ::
                      groups'[g].members[c] == if c == c0 then h else groups[g].members[c]
  {
  }

  lemma UpdateIsUpdated(r: Registry, h: Host)
    requires Inv(r)
    ensures var r' := WithHostInfo(r, h);
            Updated(r, h, r') && r'.groups.Keys == r.groups.Keys && forall g | g in r.groups :: r'.groups[g].name == g
  {
    var c0 := h.componentName;
    forall g | g in r.groups ensures g in JoinedBy(r, c0) <==> c0 in r.groups[g].members {
      assert g in JoinedBy(r, c0) <==> Has(r, g, c0);
    }
    if c0 in r.hosts {
      CopiesUpdated(r.groups, h, JoinedBy(r, c0));
    } else {
      assert forall g | Has(r, g, c0) :: g in JoinedBy(r, c0);
    }
  }

  lemma UpdateKeeps(r: Registry, h: Host)
    requires Inv(r)
    ensures Inv(WithHostInfo(r, h)) && Updated(r, h, WithHostInfo(r, h))
  {
    UpdateIsUpdated(r, h);
    var r' := WithHostInfo(r, h);
    forall g, c ensures g in JoinedBy(r', c) <==> Has(r', g, c) {
      assert JoinedBy(r', c) == JoinedBy(r, c);
    }
  }

  lemma RemoveKeeps(r: Registry, h: Host, g0: string)
    requires Inv(r)
    ensures Inv(WithoutMember(r, h, g0)) && Removed(r, h.componentName, g0, WithoutMember(r, h, g0))
  {
    var r', c0 := WithoutMember(r, h, g0), h.componentName;
    if g0 in r.groups && r.groups[g0].IsMember(c0) {
      assert Has(r, g0, c0) && g0 in JoinedBy(r, c0);
      assert r'.joined.Keys == r.joined.Keys;
      forall g, c ensures Has(r', g, c) <==> Has(r, g, c) && !(g == g0 && c == c0) {}
      forall g, c ensures g in JoinedBy(r', c) <==> Has(r', g, c) {
        assert g in JoinedBy(r, c) <==> Has(r, g, c);
      }
    }
  }

  lemma OpenKeeps(r: Registry, g0: string)
    requires Inv(r)
    ensures var o := OpenGroup(r, g0);
            && Inv(o) && g0 in o.groups && o.hosts == r.hosts && o.alive == r.alive && o.joined == r.joined
            && (forall g, c :: Has(o, g, c) <==> Has(r, g, c))
            && (forall g, c | Has(r, g, c) :: o.groups[g].members[c] == r.groups[g].members[c])
  {
    var o := OpenGroup(r, g0);
    forall g, c ensures Has(o, g, c) <==> Has(r, g, c) {}
    forall g, c ensures g in JoinedBy(o, c) <==> Has(o, g, c) {
      assert JoinedBy(o, c) == JoinedBy(r, c);
    }
  }

  function Insert(r: Registry, h: Host, g: string, now: int): Registry
    requires g in r.groups
  {
    var c := h.componentName;
    Registry(r.hosts, r.groups[g := r.groups[g].AddHost(h)], r.joined[c := JoinedBy(r, c) + {g}], r.alive[c := now])
  }

  lemma InsertKeeps(r: Registry, h: Host, g0: string, now: int)
    requires Inv(r) && h.componentName in r.hosts && g0 in r.groups
    ensures var r', c0 := Insert(r, h, g0, now), h.componentName;
            && Inv(r')
            && (forall g, c :: Has(r', g, c) <==> Has(r, g, c) || (g == g0 && c == c0))
            && (forall g, c | Has(r', g, c) ::
                  r'.groups[g].members[c] == if g == g0 && c == c0 then h else r.groups[g].members[c])
  {
    var r', c0 := Insert(r, h, g0, now), h.componentName;
    forall g, c ensures Has(r', g, c) <==> Has(r, g, c) || (g == g0 && c == c0) {}
    forall g, c ensures g in JoinedBy(r', c) <==> Has(r', g, c) {
      assert g in JoinedBy(r, c) <==> Has(r, g, c);
    }
  }

  /** Adding makes h's component a member of g0 with the copy h, provided a present ONLINE copy already is h. */
  lemma AddKeeps(r: Registry, h: Host, g0: string, now: int)
    requires Inv(r) && h.componentName in r.hosts
    requires Has(r, g0, h.componentName) ==> r.groups[g0].members[h.componentName] == h
    ensures var r' := Stamp(WithMember(r, h, g0), h.componentName, now); Inv(r') && Added(r, h, g0, now, r')
  {
    var r', c0 := Stamp(WithMember(r, h, g0), h.componentName, now), h.componentName;
    OpenKeeps(r, g0);
    var o := OpenGroup(r, g0);
    if o.groups[g0].IsMember(c0) {
      assert Has(r, g0, c0) && g0 in JoinedBy(o, c0);
      assert r'.alive.Keys == r.alive.Keys;
      assert forall c :: JoinedBy(r', c) == JoinedBy(o, c);
      assert forall g, c :: Has(r', g, c) <==> Has(o, g, c);
    } else {
      InsertKeeps(o, h, g0, now);
      assert r' == Insert(o, h, g0, now);
    }
  }

  lemma SweptKeeps(r: Registry, clock: string -> int, done: set<string>)
    requires Inv(r) && done <= r.alive.Keys
    ensures var r' := Swept(r, clock, done);
            && Inv(r') && r'.joined == r.joined && r'.alive == r.alive && r'.hosts.Keys == r.hosts.Keys
            && (forall g, c :: Has(r', g, c) <==> Has(r, g, c))
  {
    var r' := Swept(r, clock, done);
    forall g, c ensures Has(r', g, c) <==> Has(r, g, c) {}
    forall g, c ensures g in JoinedBy(r', c) <==> Has(r', g, c) {
      assert JoinedBy(r', c) == JoinedBy(r, c);
    }
  }

  /** The refinement: membership as a plain relation, and what each operation does to it. Leaving with host info that
      is not ONLINE removes nobody, because IsMember asks for an ONLINE copy and the copy has just been replaced. */
  ghost predicate MembershipAfter(r: Registry, op: Op, g: string, c: string) {
    match op
    case Join(h, g0, _) => Has(r, g, c) || (g == g0 && c == h.componentName)
    case Change(h, from, to, _) =>
      (Has(r, g, c) && !(h.status == Online && g == from && c == h.componentName)) || (g == to && c == h.componentName)
    case Leave(h, g0) => Has(r, g, c) && !(h.status == Online && g == g0 && c == h.componentName)
    case Alive(_, _, _) => Has(r, g, c)
    case Sweep(_) => Has(r, g, c)
  }

  predicate ByName(op: Op) {
    op.Join? || op.Change? || op.Leave?
  }

  /** What joining, changing and leaving have in common: the master copy and all remaining copies become h. */
  ghost predicate Announced(r: Registry, op: Op, r': Registry)
    requires ByName(op)
  {
    var h := op.h;
    && Inv(r')
    && r'.hosts == r.hosts[h.componentName := h]
    && r'.alive == (if op.Leave? then r.alive else r.alive[h.componentName := op.now])
    && (forall g, c :: Has(r', g, c) <==> MembershipAfter(r, op, g, c))
    && (forall g, c | Has(r', g, c) ::
          r'.groups[g].members[c] == if c == h.componentName then h else r.groups[g].members[c])
  }

  lemma Announces(r: Registry, op: Op)
    requires Inv(r) && ByName(op) && AssertsPass(r, op)
    ensures Announced(r, op, Apply(r, op))
  {
    match op
    case Join(h, g, now) => JoinAnnounces(r, h, g, now);
    case Change(h, from, to, now) => ChangeAnnounces(r, h, from, to, now);
    case Leave(h, g) => LeaveAnnounces(r, h, g);
  }

  lemma JoinAnnounces(r: Registry, h: Host, g: string, now: int)
    requires Inv(r) && HostAsserts(r, h)
    ensures Announced(r, Join(h, g, now), JoinGroup(r, h, g, now))
  {
    UpdateKeeps(r, h);
    AddKeeps(WithHostInfo(r, h), h, g, now);
    JoinIsTwoSteps(r, WithHostInfo(r, h), JoinGroup(r, h, g, now), h, g, now);
  }

  lemma JoinIsTwoSteps(r: Registry, u: Registry, w: Registry, h: Host, g: string, now: int)
    requires Updated(r, h, u) && Added(u, h, g, now, w) && Inv(w)
    ensures Announced(r, Join(h, g, now), w)
  {
  }

  lemma LeaveAnnounces(r: Registry, h: Host, g: string)
    requires Inv(r) && HostAsserts(r, h)
    ensures Announced(r, Leave(h, g), LeaveGroup(r, h, g))
  {
    UpdateKeeps(r, h);
    RemoveKeeps(WithHostInfo(r, h), h, g);
  }

  lemma ChangeAnnounces(r: Registry, h: Host, from: string, to: string, now: int)
    requires Inv(r) && HostAsserts(r, h)
    ensures Announced(r, Change(h, from, to, now), GroupChange(r, h, from, to, now))
  {
    var u := WithHostInfo(r, h);
    var v := WithoutMember(u, h, from);
    UpdateKeeps(r, h);
    RemoveKeeps(u, h, from);
    AddKeeps(v, h, to, now);
    ChangeIsThreeSteps(r, u, v, GroupChange(r, h, from, to, now), h, from, to, now);
  }

  lemma ChangeIsThreeSteps(r: Registry, u: Registry, v: Registry, w: Registry,
                           h: Host, from: string, to: string, now: int)
    requires Updated(r, h, u) && Removed(u, h.componentName, from, v) && Added(v, h, to, now, w) && Inv(w)
    ensures Announced(r, Change(h, from, to, now), w)
  {
  }

  lemma ApplyKeeps(r: Registry, op: Op)
    requires Inv(r) && AssertsPass(r, op)
    ensures Inv(Apply(r, op))
    ensures forall g, c :: Has(Apply(r, op), g, c) <==> MembershipAfter(r, op, g, c)
  {
    match op
    case Alive(h, g, now) => AliveKeeps(r, h, g, now);
    case Sweep(clock) => SweptKeeps(r, clock, r.alive.Keys);
    case _ => Announces(r, op);
  }

  /** An alive message writes the caller's copy in the named group, which must be there, and no other info. */
  lemma AliveKeeps(r: Registry, h: Host, g0: string, now: int)
    requires Inv(r) && (g0 in r.groups ==> r.groups[g0].CanUpdate(h))
    ensures var r' := AliveChecker(r, h, g0, now);
            && Inv(r') && r'.hosts == r.hosts && r'.joined == r.joined
            && (forall g, c :: Has(r', g, c) <==> Has(r, g, c))
            && (forall g, c | Has(r, g, c) ::
                  r'.groups[g].members[c] == if g == g0 && c == h.componentName then h else r.groups[g].members[c])
  {
    var r' := AliveChecker(r, h, g0, now);
    if g0 in r.groups {
      assert Has(r, g0, h.componentName) && g0 in JoinedBy(r, h.componentName);
      forall g, c ensures Has(r', g, c) <==> Has(r, g, c) {}
      forall g, c ensures g in JoinedBy(r', c) <==> Has(r', g, c) {
        assert JoinedBy(r', c) == JoinedBy(r, c);
      }
    }
  }

  /** In every registry a run reaches, the four maps agree with one another. */
  lemma {:induction false} MapsAgree(ops: seq<Op>)
    requires After(ops).Some?
    ensures Inv(After(ops).value)
    decreases |ops|
  {
    if ops != [] {
      var n := |ops| - 1;
      MapsAgree(ops[..n]);
      ApplyKeeps(After(ops[..n]).value, ops[n]);
    }
  }

  /** Membership read off the calls alone. */
  function Member(ops: seq<Op>, g: string, c: string): bool {
    ops != [] &&
    var before, last := Member(ops[..|ops| - 1], g, c), ops[|ops| - 1];
    match last
    case Join(h, g0, _) => before || (g == g0 && c == h.componentName)
    case Change(h, from, to, _) =>
      (before && !(h.status == Online && g == from && c == h.componentName)) || (g == to && c == h.componentName)
    case Leave(h, g0) => before && !(h.status == Online && g == g0 && c == h.componentName)
    case _ => before
  }

  /** Some call has joined g or changed to it. */
  function Opened(ops: seq<Op>, g: string): bool {
    ops != [] &&
    var last := ops[|ops| - 1];
    (last.Join? && last.g == g) || (last.Change? && last.to == g) || Opened(ops[..|ops| - 1], g)
  }

  lemma GroupsAfter(r: Registry, op: Op)
    requires Inv(r) && AssertsPass(r, op)
    ensures Apply(r, op).groups.Keys ==
              r.groups.Keys + if op.Join? then {op.g} else if op.Change? then {op.to} else {}
  {
    match op
    case Join(h, g, now) => UpdateIsUpdated(r, h);
    case Change(h, from, to, now) => UpdateIsUpdated(r, h);
    case Leave(h, g) => UpdateIsUpdated(r, h);
    case _ =>
  }

  /** In every reachable registry the groups and their members are those the history of the calls gives. */
  lemma {:induction false} MembershipIsHistory(ops: seq<Op>, g: string, c: string)
    requires After(ops).Some?
    ensures Has(After(ops).value, g, c) <==> Member(ops, g, c)
    ensures g in After(ops).value.groups <==> Opened(ops, g)
    decreases |ops|
  {
    if ops != [] {
      var n := |ops| - 1;
      var r := After(ops[..n]).value;
      MembershipIsHistory(ops[..n], g, c);
      MapsAgree(ops[..n]);
      ApplyKeeps(r, ops[n]);
      GroupsAfter(r, ops[n]);
      assert Has(Apply(r, ops[n]), g, c) <==> MembershipAfter(r, ops[n], g, c);
    }
  }

  // ---------------------------------------------------------------------------------------------------------
  // When the assertions hold, exactly
  // ---------------------------------------------------------------------------------------------------------

  /** Component c once joined: it called JoinGroup or GroupChange. */
  ghost predicate OnceJoined(ops: seq<Op>, c: string) {
    exists i :: 0 <= i < |ops| && (ops[i].Join? || ops[i].Change?) && ops[i].h.componentName == c
  }

  /** Component c once registered host info: it called JoinGroup, GroupChange or LeaveGroup. */
  ghost predicate OnceSeen(ops: seq<Op>, c: string) {
    exists i :: 0 <= i < |ops| && (ops[i].Join? || ops[i].Change? || ops[i].Leave?) && ops[i].h.componentName == c
  }

  lemma OnceJoinedSplit(ops: seq<Op>, c: string)
    requires ops != []
    ensures var last := ops[|ops| - 1];
            OnceJoined(ops, c) <==>
              OnceJoined(ops[..|ops| - 1], c) || ((last.Join? || last.Change?) && last.h.componentName == c)
  {
    var init, last := ops[..|ops| - 1], ops[|ops| - 1];
    if i :| 0 <= i < |init| && (init[i].Join? || init[i].Change?) && init[i].h.componentName == c {
      assert ops[i] == init[i];
    }
    if i :| 0 <= i < |ops| && (ops[i].Join? || ops[i].Change?) && ops[i].h.componentName == c {
      assert i < |init| ==> init[i] == ops[i];
    }
  }

  lemma OnceSeenSplit(ops: seq<Op>, c: string)
    requires ops != []
    ensures var last := ops[|ops| - 1];
            OnceSeen(ops, c) <==>
              || OnceSeen(ops[..|ops| - 1], c)
              || ((last.Join? || last.Change? || last.Leave?) && last.h.componentName == c)
  {
    var init, last := ops[..|ops| - 1], ops[|ops| - 1];
    if i :| 0 <= i < |init| && (init[i].Join? || init[i].Change? || init[i].Leave?) && init[i].h.componentName == c {
      assert ops[i] == init[i];
    }
    if i :| 0 <= i < |ops| && (ops[i].Join? || ops[i].Change? || ops[i].Leave?) && ops[i].h.componentName == c {
      assert i < |init| ==> init[i] == ops[i];
    }
  }

  lemma KeysAfter(r: Registry, op: Op)
    requires Inv(r) && AssertsPass(r, op)
    ensures Apply(r, op).joined.Keys == r.joined.Keys + (if op.Join? || op.Change? then {op.h.componentName} else {})
    ensures Apply(r, op).hosts.Keys == r.hosts.Keys + (if ByName(op) then {op.h.componentName} else {})
  {
    match op
    case Alive(h, g, now) => AliveKeeps(r, h, g, now);
    case Sweep(clock) => SweptKeeps(r, clock, r.alive.Keys);
    case _ =>
      Announces(r, op);
      AnnouncedKeys(r, op, Apply(r, op));
  }

  lemma AnnouncedKeys(r: Registry, op: Op, r': Registry)
    requires Inv(r) && ByName(op) && Announced(r, op, r')
    ensures r'.joined.Keys == r.joined.Keys + (if op.Leave? then {} else {op.h.componentName})
    ensures r'.hosts.Keys == r.hosts.Keys + {op.h.componentName}
  {
    if op.Leave? {
      assert r'.alive.Keys == r.alive.Keys;
    } else {
      assert r'.alive.Keys == r.alive.Keys + {op.h.componentName};
    }
  }

  /** The key sets of the maps are the history of the calls. */
  lemma {:induction false} KeysAreHistory(ops: seq<Op>, c: string)
    requires After(ops).Some?
    ensures c in After(ops).value.joined <==> OnceJoined(ops, c)
    ensures c in After(ops).value.hosts <==> OnceSeen(ops, c)
    decreases |ops|
  {
    if ops != [] {
      var n := |ops| - 1;
      KeysAreHistory(ops[..n], c);
      MapsAgree(ops[..n]);
      KeysAfter(After(ops[..n]).value, ops[n]);
      OnceJoinedSplit(ops, c);
      OnceSeenSplit(ops, c);
    }
  }

  /** By the calls so far: a joining, changing or leaving component that was ever seen once joined; an alive message
      names a group nobody joined, or comes from a member. */
  ghost predicate InOrder(ops: seq<Op>, op: Op) {
    if op.Sweep? then true
    else if op.Alive? then Opened(ops, op.g) ==> Member(ops, op.g, op.h.componentName)
    else OnceSeen(ops, op.h.componentName) ==> OnceJoined(ops, op.h.componentName)
  }

  /** After any run that got this far, the next call's assertions pass exactly if it is in order by the calls so far; a
      sweep's always do. */
  lemma AssertionsExactly(ops: seq<Op>, op: Op)
    requires After(ops).Some?
    ensures AssertsPass(After(ops).value, op) <==> InOrder(ops, op)
  {
    var r := After(ops).value;
    MapsAgree(ops);
    if op.Sweep? {
      forall c | c in r.alive ensures c in r.hosts && HostAsserts(r, r.hosts[c]) {
        HostAssertsHold(r, r.hosts[c]);
      }
    } else if op.Alive? {
      MembershipIsHistory(ops, op.g, op.h.componentName);
    } else {
      KeysAreHistory(ops, op.h.componentName);
      HostAssertsHold(r, op.h);
    }
  }

  lemma HostAssertsHold(r: Registry, h: Host)
    requires Inv(r)
    ensures HostAsserts(r, h) <==> (h.componentName in r.hosts ==> h.componentName in r.joined)
  {
    if h.componentName in r.joined {
      forall g | g in r.joined[h.componentName] ensures g in r.groups {
        assert g in JoinedBy(r, h.componentName);
      }
    }
  }

  /** LeaveGroup is called only by components that once joined, AliveChecker only by current members. */
  ghost predicate Disciplined(ops: seq<Op>) {
    ops == [] ||
    var init, last := ops[..|ops| - 1], ops[|ops| - 1];
    && Disciplined(init)
    && (last.Leave? ==> OnceJoined(init, last.h.componentName))
    && (last.Alive? ==> Member(init, last.g, last.h.componentName))
  }

  lemma {:induction false} SeenMeansJoined(ops: seq<Op>, c: string)
    requires Disciplined(ops)
    ensures OnceSeen(ops, c) ==> OnceJoined(ops, c)
    decreases |ops|
  {
    if ops != [] {
      SeenMeansJoined(ops[..|ops| - 1], c);
      OnceJoinedSplit(ops, c);
      OnceSeenSplit(ops, c);
    }
  }

  /** No assertion of the class fails in a disciplined run. */
  lemma {:induction false} DisciplinedRunsPass(ops: seq<Op>)
    requires Disciplined(ops)
    ensures After(ops).Some?
    decreases |ops|
  {
    if ops != [] {
      var n := |ops| - 1;
      DisciplinedRunsPass(ops[..n]);
      AssertionsExactly(ops[..n], ops[n]);
      if !ops[n].Alive? && !ops[n].Sweep? { SeenMeansJoined(ops[..n], ops[n].h.componentName); }
    }
  }

  /** Without the discipline one assertion does fail: leaving twice without ever joining. */
  lemma LeavingTwiceFails(h: Host, g: string)
    ensures After([Leave(h, g)]).Some? && After([Leave(h, g), Leave(h, g)]).None?
  {
    var one, two := [Leave(h, g)], [Leave(h, g), Leave(h, g)];
    assert one[..0] == [] && two[..1] == one;
    var r := LeaveGroup(EMPTY, h, g);
    assert After(one) == Some(r);
    assert h.componentName in r.hosts && h.componentName !in r.joined;
  }

  // ---------------------------------------------------------------------------------------------------------
  // The replicated copies
  // ---------------------------------------------------------------------------------------------------------

  /** Components whose copies may differ from the master copy: those whose latest operation since the last sweep is
      AliveChecker, which updates one group's copy and not the master. */
  function Dirty(ops: seq<Op>): set<string> {
    if ops == [] then {}
    else
      var before, last := Dirty(ops[..|ops| - 1]), ops[|ops| - 1];
      match last
      case Alive(h, _, _) => before + {h.componentName}
      case Sweep(_) => {}
      case _ => before - {last.h.componentName}
  }

  ghost predicate CopiesAgree(r: Registry, except: set<string>) {
    forall g, c | Has(r, g, c) && c !in except :: c in r.hosts && r.groups[g].members[c] == r.hosts[c]
  }

  lemma CopiesAfter(r: Registry, op: Op, dirty: set<string>)
    requires Inv(r) && AssertsPass(r, op) && CopiesAgree(r, dirty)
    ensures CopiesAgree(Apply(r, op),
              match op
              case Alive(h, _, _) => dirty + {h.componentName}
              case Sweep(_) => {}
              case _ => dirty - {op.h.componentName})
  {
    match op
    case Alive(h, g, now) => AliveKeeps(r, h, g, now);
    case Sweep(clock) => SweepSettles(r, clock);
    case _ => Announces(r, op);
  }

  /** After a sweep every copy equals the master copy. A watched component is ONLINE exactly if its last check-in is
      later than two seconds before the sweep reached it; one that was ONLINE and is late becomes OFFLINE, and any other
      late one keeps its status. Everything else about a component is unchanged. */
  lemma SweepSettles(r: Registry, clock: string -> int)
    requires Inv(r)
    ensures var r' := Swept(r, clock, r.alive.Keys);
            && CopiesAgree(r', {})
            && (forall c | c in r.alive ::
                  && (r'.hosts[c].status == Online <==> r.alive[c] > clock(c) - LATE_CHECKIN_DEADLINE_SECONDS)
                  && (r.alive[c] <= clock(c) - LATE_CHECKIN_DEADLINE_SECONDS ==>
                        r'.hosts[c].status == if r.hosts[c].status == Online then Offline else r.hosts[c].status)
                  && r'.hosts[c] == r.hosts[c].(status := r'.hosts[c].status))
            && (forall c | c in r.hosts && c !in r.alive :: r'.hosts[c] == r.hosts[c])
  {
    var r' := Swept(r, clock, r.alive.Keys);
    forall g, c | Has(r', g, c) ensures c in r'.hosts && r'.groups[g].members[c] == r'.hosts[c] {
      assert Has(r, g, c);
      assert g in JoinedBy(r, c);
    }
  }

  /** A call that counts as a sign of life of c. */
  predicate ChecksIn(r: Registry, op: Op, c: string) {
    match op
    case Join(h, _, _) => h.componentName == c
    case Change(h, _, _, _) => h.componentName == c
    case Alive(h, g, _) => h.componentName == c && g in r.groups
    case _ => false
  }

  /** When c last checked in, if ever. */
  function LastCheckIn(ops: seq<Op>, c: string): Option<int>
    requires After(ops).Some?
  {
    if ops == [] then None
    else
      var init, last := ops[..|ops| - 1], ops[|ops| - 1];
      if ChecksIn(After(init).value, last, c) then Some(last.now) else LastCheckIn(init, c)
  }

  lemma AliveAfter(r: Registry, op: Op, c: string)
    requires Inv(r) && AssertsPass(r, op)
    ensures var before, after := r.alive, Apply(r, op).alive;
            if ChecksIn(r, op, c) then c in after && after[c] == op.now
            else (c in after <==> c in before) && (c in after ==> after[c] == before[c])
  {
    if ByName(op) { Announces(r, op); }
  }

  lemma {:induction false} AliveIsLastCheckIn(ops: seq<Op>, c: string)
    requires After(ops).Some?
    ensures var r := After(ops).value;
            if c in r.alive then LastCheckIn(ops, c) == Some(r.alive[c]) else LastCheckIn(ops, c) == None
    decreases |ops|
  {
    if ops != [] {
      var n := |ops| - 1;
      AliveIsLastCheckIn(ops[..n], c);
      MapsAgree(ops[..n]);
      AliveAfter(After(ops[..n]).value, ops[n], c);
    }
  }

  /** After any run and one more sweep: a component that ever checked in is ONLINE, in the master copy and in all
      copies alike, exactly if its last check-in is recent enough; one that never did keeps its last known info. */
  lemma SweepJudgesLastCheckIn(ops: seq<Op>, clock: string -> int, c: string)
    requires After(ops).Some? && c in After(ops).value.hosts
    ensures AssertsPass(After(ops).value, Sweep(clock))
    ensures var r, r' := After(ops).value, Apply(After(ops).value, Sweep(clock));
            && CopiesAgree(r', {}) && c in r'.hosts
            && match LastCheckIn(ops, c)
               case Some(t) =>
                 r'.hosts[c].status ==
                   if t > clock(c) - LATE_CHECKIN_DEADLINE_SECONDS then Online
                   else if r.hosts[c].status == Online then Offline
                   else r.hosts[c].status
               case None => r'.hosts[c] == r.hosts[c]
  {
    AssertionsExactly(ops, Sweep(clock));
    MapsAgree(ops);
    AliveIsLastCheckIn(ops, c);
    SweepSettles(After(ops).value, clock);
  }

  /** Between sweeps the copies can disagree with the master copy only for components that sent an alive message since
      the last sweep, and have not joined, changed or left since. */
  lemma {:induction false} OnlyDirtyCopiesDiffer(ops: seq<Op>)
    requires After(ops).Some?
    ensures CopiesAgree(After(ops).value, Dirty(ops))
    decreases |ops|
  {
    if ops != [] {
      var n := |ops| - 1;
      OnlyDirtyCopiesDiffer(ops[..n]);
      MapsAgree(ops[..n]);
      CopiesAfter(After(ops[..n]).value, ops[n], Dirty(ops[..n]));
    }
  }

  // ---------------------------------------------------------------------------------------------------------
  // Where the info comes from
  // ---------------------------------------------------------------------------------------------------------

  /** The master copy by the history of the calls: what the component last joined, changed or left with, under the
      verdicts of the sweeps since. */
  function MasterInfo(ops: seq<Op>, c: string): Option<Host>
    requires After(ops).Some?
  {
    if ops == [] then None
    else
      var init, last := ops[..|ops| - 1], ops[|ops| - 1];
      var before := MasterInfo(init, c);
      if ByName(last) then if last.h.componentName == c then Some(last.h) else before
      else if last.Sweep? && before.Some? && LastCheckIn(init, c).Some?
      then Some(Judge(before.value, LastCheckIn(init, c).value, last.clock(c)))
      else before
  }

  /** The copy that the group g has of c: what c last sent that reached it, or the master copy if a sweep came later. */
  function CopyInfo(ops: seq<Op>, g: string, c: string): Option<Host>
    requires After(ops).Some?
  {
    if ops == [] then None
    else
      var init, last := ops[..|ops| - 1], ops[|ops| - 1];
      if last.Sweep? then MasterInfo(ops, c)
      else if Reaches(last, g, c) then Some(last.h)
      else CopyInfo(init, g, c)
  }

  function InfoOf(hosts: map<string, Host>, c: string): Option<Host> {
    if c in hosts then Some(hosts[c]) else None
  }

  lemma MasterStep(r: Registry, op: Op, c: string)
    requires Inv(r) && AssertsPass(r, op)
    ensures InfoOf(Apply(r, op).hosts, c) ==
              if ByName(op) && op.h.componentName == c then Some(op.h)
              else if op.Sweep? && c in r.alive then Some(Judge(r.hosts[c], r.alive[c], op.clock(c)))
              else InfoOf(r.hosts, c)
  {
    if ByName(op) { Announces(r, op); }
  }

  function InfoIn(r: Registry, g: string, c: string): Option<Host> {
    if Has(r, g, c) then Some(r.groups[g].members[c]) else None
  }

  /** The call is c's own and reaches its copy in g, if there is one. */
  predicate Reaches(op: Op, g: string, c: string) {
    !op.Sweep? && op.h.componentName == c && (op.Alive? ==> op.g == g)
  }

  lemma CopyStep(r: Registry, op: Op, g: string, c: string)
    requires Inv(r) && AssertsPass(r, op) && Has(Apply(r, op), g, c)
    ensures InfoIn(Apply(r, op), g, c) ==
              if op.Sweep? then InfoOf(Apply(r, op).hosts, c)
              else if Reaches(op, g, c) then Some(op.h)
              else InfoIn(r, g, c)
  {
    match op
    case Alive(h, g0, now) => AliveKeeps(r, h, g0, now);
    case Sweep(clock) => SweepSettles(r, clock);
    case _ => Announces(r, op);
  }

  /** In every reachable registry the master copies are those the history of the calls gives. */
  lemma {:induction false} MasterIsHistory(ops: seq<Op>, c: string)
    requires After(ops).Some?
    ensures InfoOf(After(ops).value.hosts, c) == MasterInfo(ops, c)
    decreases |ops|
  {
    if ops != [] {
      var n := |ops| - 1;
      MasterIsHistory(ops[..n], c);
      MapsAgree(ops[..n]);
      AliveIsLastCheckIn(ops[..n], c);
      MasterStep(After(ops[..n]).value, ops[n], c);
    }
  }

  /** ... and so is each copy in each group. */
  lemma {:induction false} CopyIsHistory(ops: seq<Op>, g: string, c: string)
    requires After(ops).Some? && Has(After(ops).value, g, c)
    ensures InfoIn(After(ops).value, g, c) == CopyInfo(ops, g, c)
    decreases |ops|
  {
    if ops != [] {
      var n := |ops| - 1;
      MapsAgree(ops[..n]);
      CopyStep(After(ops[..n]).value, ops[n], g, c);
      if ops[n].Sweep? {
        MasterIsHistory(ops, c);
      } else if !Reaches(ops[n], g, c) {
        CopyIsHistory(ops[..n], g, c);
      }
    }
  }

  // ---------------------------------------------------------------------------------------------------------
  // The class
  // ---------------------------------------------------------------------------------------------------------

  /** One component's turn in the sweep is the closed form with one more component done. */
  lemma SweepOneMore(r: Registry, clock: string -> int, done: set<string>, c: string)
    requires Inv(r) && done <= r.alive.Keys && c in r.alive && c !in done
    ensures var m := Swept(r, clock, done);
            var h := Judge(r.hosts[c], r.alive[c], clock(c));
            && m.hosts[c] == r.hosts[c]
            && WithHostInfo(m.(hosts := m.hosts[c := h]), h) == Swept(r, clock, done + {c})
  {
    var m := Swept(r, clock, done);
    var h := Judge(r.hosts[c], r.alive[c], clock(c));
    var x, y := WithHostInfo(m.(hosts := m.hosts[c := h]), h), Swept(r, clock, done + {c});
    assert h.componentName == c;
    assert x.hosts == y.hosts;
    assert x.groups.Keys == y.groups.Keys;
    forall g | g in x.groups ensures x.groups[g] == y.groups[g] {
      assert g in JoinedBy(r, c) <==> Has(r, g, c);
      assert x.groups[g].members == y.groups[g].members;
    }
    assert x.groups == y.groups;
  }

  class GroupManager {
    var mapHostInformation: map<string, Host>
    var mapGroupInformation: map<string, Group>
    var mapComponentNameGroups: map<string, set<string>>
    var mapAliveCheck: map<string, int>

    function State(): Registry
      reads this
    {
      Registry(mapHostInformation, mapGroupInformation, mapComponentNameGroups, mapAliveCheck)
    }

    constructor ()
      ensures State() == EMPTY
    {
      mapHostInformation, mapGroupInformation, mapComponentNameGroups, mapAliveCheck := map[], map[], map[], map[];
    }

    method AddOrUpdateHostInfo(h: Host) returns (known: bool)
      requires HostAsserts(State(), h)
      modifies this
      ensures State() == WithHostInfo(old(State()), h) && known == (h.componentName in old(mapHostInformation))
    {
      if h.componentName !in mapHostInformation {
        mapHostInformation := mapHostInformation[h.componentName := h];
        return false;
      }
      mapHostInformation := mapHostInformation[h.componentName := h];
      assert h.componentName in mapComponentNameGroups;
      var setGroup := mapComponentNameGroups[h.componentName];
      var rest := setGroup;
      ghost var groups := mapGroupInformation;
      while rest != {}
        invariant rest <= setGroup
        invariant mapGroupInformation == UpdateCopies(groups, h, setGroup - rest)
        invariant mapHostInformation == old(mapHostInformation)[h.componentName := h]
        invariant mapComponentNameGroups == old(mapComponentNameGroups) && mapAliveCheck == old(mapAliveCheck)
      {
        var groupName :| groupName in rest;
        assert groupName in mapGroupInformation;
        mapGroupInformation := mapGroupInformation[groupName := mapGroupInformation[groupName].UpdateHost(h)];
        rest := rest - {groupName};
      }
      assert setGroup - rest == setGroup;
      known := true;
    }

    method RemoveHostFromGroup(h: Host, groupName: string) returns (removed: bool)
      modifies this
      ensures State() == WithoutMember(old(State()), h, groupName)
      ensures removed <==> groupName in old(mapGroupInformation)
                           && old(mapGroupInformation)[groupName].IsMember(h.componentName)
    {
      if groupName !in mapGroupInformation {
        return false;
      }
      var groupInfo := mapGroupInformation[groupName];
      if groupInfo.IsMember(h.componentName) {
        mapComponentNameGroups :=
          mapComponentNameGroups[h.componentName := JoinedBy(State(), h.componentName) - {groupName}];
        mapGroupInformation := mapGroupInformation[groupName := groupInfo.RemoveHost(h.componentName)];
        return true;
      }
      removed := false;
    }

    method AddHostToGroup(h: Host, groupName: string)
      modifies this
      ensures State() == WithMember(old(State()), h, groupName)
    {
      if groupName !in mapGroupInformation {
        mapGroupInformation := mapGroupInformation[groupName := Group(groupName, map[])];
      }
      var groupInfo := mapGroupInformation[groupName];
      if !groupInfo.IsMember(h.componentName) {
        mapComponentNameGroups :=
          mapComponentNameGroups[h.componentName := JoinedBy(State(), h.componentName) + {groupName}];
        mapGroupInformation := mapGroupInformation[groupName := groupInfo.AddHost(h)];
      }
    }

    /** The caller gets the group it joined, with itself in it. */
    method JoinGroup(h: Host, groupName: string, now: int) returns (group: Group)
      requires Inv(State()) && AssertsPass(State(), Join(h, groupName, now))
      modifies this
      ensures State() == Apply(old(State()), Join(h, groupName, now)) && Inv(State())
      ensures group == State().groups[groupName] && group.name == groupName
      ensures h.componentName in group.members && group.members[h.componentName] == h
    {
      Announces(State(), Join(h, groupName, now));
      var known := AddOrUpdateHostInfo(h);
      AddHostToGroup(h, groupName);
      mapAliveCheck := mapAliveCheck[h.componentName := now];
      group := mapGroupInformation[groupName];
      assert Has(State(), groupName, h.componentName);
    }

    method GroupChange(h: Host, current: string, next: string, now: int) returns (group: Group)
      requires Inv(State()) && AssertsPass(State(), Change(h, current, next, now))
      modifies this
      ensures State() == Apply(old(State()), Change(h, current, next, now)) && Inv(State())
      ensures Has(State(), next, h.componentName) && group == State().groups[next] && group.name == next
      ensures group.members[h.componentName] == h
    {
      Announces(State(), Change(h, current, next, now));
      var known := AddOrUpdateHostInfo(h);
      var removed := RemoveHostFromGroup(h, current);
      AddHostToGroup(h, next);
      mapAliveCheck := mapAliveCheck[h.componentName := now];
      assert Has(State(), next, h.componentName);
      group := mapGroupInformation[next];
    }

    /** Answers whether the component was removed, which is whether it was a member and calls with ONLINE host info. */
    method LeaveGroup(h: Host, groupName: string) returns (removed: bool)
      requires Inv(State()) && AssertsPass(State(), Leave(h, groupName))
      modifies this
      ensures State() == Apply(old(State()), Leave(h, groupName)) && Inv(State())
      ensures removed <==> Has(old(State()), groupName, h.componentName) && h.status == Online
    {
      ApplyKeeps(State(), Leave(h, groupName));
      UpdateKeeps(State(), h);
      assert Has(State(), groupName, h.componentName) <==>
             Has(WithHostInfo(State(), h), groupName, h.componentName);
      var known := AddOrUpdateHostInfo(h);
      removed := RemoveHostFromGroup(h, groupName);
    }

    method AliveChecker(h: Host, groupName: string, now: int) returns (group: Group)
      requires Inv(State()) && AssertsPass(State(), Alive(h, groupName, now))
      modifies this
      ensures State() == Apply(old(State()), Alive(h, groupName, now)) && Inv(State())
      ensures group == if groupName in State().groups then State().groups[groupName] else NO_GROUP
      ensures groupName in old(State()).groups ==>
                h.componentName in group.members && group.members[h.componentName] == h
    {
      AliveKeeps(State(), h, groupName, now);
      if groupName !in mapGroupInformation {
        return NO_GROUP;
      }
      var ret := mapGroupInformation[groupName].CanUpdate(h);
      mapGroupInformation := mapGroupInformation[groupName := mapGroupInformation[groupName].UpdateHost(h)];
      assert ret;
      mapAliveCheck := mapAliveCheck[h.componentName := now];
      group := mapGroupInformation[groupName];
    }

    /** One round of run: the loop over mapAliveCheck_, with the clock read anew for each component. */
    method SweepOnce(clock: string -> int)
      requires Inv(State())
      modifies this
      ensures AssertsPass(old(State()), Sweep(clock))
      ensures State() == Apply(old(State()), Sweep(clock)) && Inv(State())
    {
      ghost var r := State();
      forall c | c in r.alive ensures HostAsserts(r, r.hosts[c]) {
        HostAssertsHold(r, r.hosts[c]);
      }
      ApplyKeeps(r, Sweep(clock));
      var rest := mapAliveCheck.Keys;
      ghost var done: set<string> := {};
      SweptNothing(r, clock);
      while rest != {}
        invariant done + rest == r.alive.Keys && done !! rest
        invariant State() == Swept(r, clock, done)
      {
        var c :| c in rest;
        SweepTurn(r, clock, done, c);
        done, rest := done + {c}, rest - {c};
      }
      assert done == r.alive.Keys;
    }

    /** The body of that loop. */
    method SweepTurn(ghost r: Registry, clock: string -> int, ghost done: set<string>, c: string)
      requires Inv(r) && done <= r.alive.Keys && c in r.alive && c !in done && State() == Swept(r, clock, done)
      modifies this
      ensures State() == Swept(r, clock, done + {c})
    {
      SweptKeeps(r, clock, done);
      SweepOneMore(r, clock, done, c);
      assert c in mapHostInformation;
      if mapAliveCheck[c] > clock(c) - LATE_CHECKIN_DEADLINE_SECONDS {
        mapHostInformation := mapHostInformation[c := mapHostInformation[c].(status := Online)];
      } else if mapHostInformation[c].status == Online {
        mapHostInformation := mapHostInformation[c := mapHostInformation[c].(status := Offline)];
      }
      assert mapHostInformation == Swept(r, clock, done).hosts[c := Judge(r.hosts[c], r.alive[c], clock(c))];
      HostAssertsHold(Swept(r, clock, done), mapHostInformation[c]);
      var known := AddOrUpdateHostInfo(mapHostInformation[c]);
    }
  }

  lemma SweptNothing(r: Registry, clock: string -> int)
    requires Inv(r)
    ensures Swept(r, clock, {}) == r
  {
    var r' := Swept(r, clock, {});
    assert r'.hosts == r.hosts;
    forall g | g in r.groups ensures r'.groups[g] == r.groups[g] {
      assert r'.groups[g].members == r.groups[g].members;
    }
    assert r'.groups == r.groups;
  }
}
