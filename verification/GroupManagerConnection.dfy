/** MembershipManager/GroupManagerConnection.cpp: the client half. Clients with distinct component names and the
    GroupManager form a protocol over remote calls that may lose the request or the reply. A poll is one step (Poll),
    or its parts apart: the IsInGroup test (PollTest), the AliveChecker call (PollCall) and the assignment of the answer
    under the client's mutex (PollAssign), with anything else in between. */
module GroupManagerConnection {
  import opened HostInformation
  import opened GroupManager
  import opened Runs

  datatype Rpc = RequestLost | ReplyLost | Delivered

  /** The client object's own view: isInGroup_ and groupInformation_, with its fixed host info and group name. polling:
      its thread has found it in its group and is about to call AliveChecker. answer: what the call has returned to the
      thread (currGroupInformation), not yet assigned. */
  datatype Client =
    Client(host: Host, groupName: string, inGroup: bool, view: Group, polling: bool, answer: Option<Group>)

  datatype World = World(server: Registry, clients: map<string, Client>)

  datatype Label =
    | Create(c: string, host: Host, groupName: string)
    | Join(c: string, rpc: Rpc, now: int)       // one attempt of the joinGroup loop
    | Leave(c: string, rpc: Rpc)
    | Poll(c: string, rpc: Rpc, now: int)
    | PollTest(c: string)
    | PollCall(c: string, rpc: Rpc, now: int)
    | PollAssign(c: string)
    | Destroy(c: string)
    | Sweep(clock: string -> int)

  /** The call a step makes at the server, if any. */
  function Call(w: World, l: Label): Option<Op> {
    if l.Sweep? then Some(Op.Sweep(l.clock))
    else if l.Create? || l.Destroy? || l.PollTest? || l.PollAssign? then None
    else if l.c !in w.clients || l.rpc == RequestLost then None
    else
      var client := w.clients[l.c];
      match l
      case Join(_, _, now) => if client.inGroup then None else Some(Op.Join(client.host, client.groupName, now))
      case Leave(_, _) => if client.inGroup then Some(Op.Leave(client.host, client.groupName)) else None
      case Poll(_, _, now) => if client.inGroup then Some(Op.Alive(client.host, client.groupName, now)) else None
      case PollCall(_, _, now) => Some(Op.Alive(client.host, client.groupName, now))
  }

  predicate ServerAsserts(w: World, l: Label) {
    Call(w, l).Some? ==> AssertsPass(w.server, Call(w, l).value)
  }

  /** Join, after the server has answered (or not). The joined group counts only if it carries the right name. */
  function AfterJoin(client: Client, rpc: Rpc, server: Registry): Client {
    if client.inGroup then client
    else if rpc != Delivered || client.groupName !in server.groups then client.(inGroup := false)
    else
      var group := server.groups[client.groupName];
      client.(view := group.RemoveHost(client.host.componentName), inGroup := group.name == client.groupName)
  }

  function AfterPoll(client: Client, rpc: Rpc, server: Registry): Client {
    if client.inGroup then Assigned(AfterCall(client, rpc, server)) else client
  }

  /** What AliveChecker returns for the client. */
  function Answer(client: Client, server: Registry): Group {
    if client.groupName in server.groups then server.groups[client.groupName] else NO_GROUP
  }

  /** The call has returned to the thread, or thrown. */
  function AfterCall(client: Client, rpc: Rpc, server: Registry): Client {
    client.(polling := false, answer := if rpc == Delivered then Some(Answer(client, server)) else None)
  }

  function Assigned(client: Client): Client {
    if client.answer.None? then client
    else client.(view := client.answer.value.RemoveHost(client.host.componentName), answer := None)
  }

  predicate Init(w: World) {
    w == World(EMPTY, map[])
  }

  /** The client's thread is not in the middle of a poll. */
  predicate Idle(client: Client) {
    !client.polling && client.answer.None?
  }

  predicate Enabled(w: World, l: Label) {
    match l
    case Create(c, host, _) => c !in w.clients && host.componentName == c && host.status == Online
    case Poll(c, _, _) => c in w.clients && Idle(w.clients[c])
    case PollTest(c) => c in w.clients && Idle(w.clients[c])
    case PollCall(c, _, _) => c in w.clients && w.clients[c].polling
    case PollAssign(c) => c in w.clients && w.clients[c].answer.Some?
    case Destroy(c) => c in w.clients && !w.clients[c].inGroup && Idle(w.clients[c])
    case Sweep(_) => true
    case _ => l.c in w.clients
  }

  /** The server after the step's call, if it makes one. */
  function ServerAfter(w: World, l: Label): Registry
    requires ServerAsserts(w, l)
  {
    match Call(w, l) case None => w.server case Some(op) => Apply(w.server, op)
  }

  function Next(w: World, l: Label): World
    requires Enabled(w, l) && ServerAsserts(w, l)
  {
    var server := ServerAfter(w, l);
    match l
    case Create(c, host, groupName) =>
      w.(clients := w.clients[c := Client(host, groupName, false, NO_GROUP, false, None)])
    case Destroy(c) => w.(clients := w.clients - {c})
    case Sweep(_) => w.(server := server)
    case Join(c, rpc, _) => World(server, w.clients[c := AfterJoin(w.clients[c], rpc, server)])
    case Leave(c, _) => World(server, w.clients[c := w.clients[c].(inGroup := false)])
    case Poll(c, rpc, _) => World(server, w.clients[c := AfterPoll(w.clients[c], rpc, server)])
    case PollTest(c) => w.(clients := w.clients[c := w.clients[c].(polling := w.clients[c].inGroup)])
    case PollCall(c, rpc, _) => World(server, w.clients[c := AfterCall(w.clients[c], rpc, server)])
    case PollAssign(c) => w.(clients := w.clients[c := Assigned(w.clients[c])])
  }

  predicate Step(w: World, l: Label, w': World) {
    Enabled(w, l) && ServerAsserts(w, l) && w' == Next(w, l)
  }

  ghost predicate Run(states: seq<World>, labels: seq<Label>) {
    IsRun(Init, Step, states, labels)
  }

  // ---------------------------------------------------------------------------------------------------------
  // Safety over every run
  // ---------------------------------------------------------------------------------------------------------

  /** c's client: if it believes to be in its group, it is a member at the server. */
  ghost predicate Believer(client: Client, c: string, r: Registry) {
    && client.host.componentName == c && client.host.status == Online
    && (client.inGroup ==> Has(r, client.groupName, c))
  }

  /** Whoever believes to be in its group is a member at the server. */
  ghost predicate Believers(w: World) {
    forall c | c in w.clients :: Believer(w.clients[c], c, w.server)
  }

  /** Nobody is known to the server without having joined. */
  ghost predicate ServerReady(r: Registry) {
    Inv(r) && r.hosts.Keys == r.joined.Keys
  }

  ghost predicate WorldInv(w: World) {
    ServerReady(w.server) && Believers(w)
  }

  lemma CallsPass(w: World, l: Label)
    requires WorldInv(w) && Enabled(w, l) && !l.PollCall?
    ensures ServerAsserts(w, l)
  {
    if l.Sweep? {
      forall c | c in w.server.alive ensures HostAsserts(w.server, w.server.hosts[c]) {
        HostAssertsHold(w.server, w.server.hosts[c]);
      }
    } else if Call(w, l).Some? {
      HostAssertsHold(w.server, w.clients[l.c].host);
    }
  }

  lemma OpKeepsReady(r: Registry, op: Op)
    requires ServerReady(r) && AssertsPass(r, op) && !op.Change?
    requires op.Leave? ==> Has(r, op.g, op.h.componentName)
    ensures ServerReady(Apply(r, op)) && forall g, c :: Has(Apply(r, op), g, c) <==> MembershipAfter(r, op, g, c)
  {
    ApplyKeeps(r, op);
    KeysAfter(r, op);
    if op.Leave? { assert op.g in JoinedBy(r, op.h.componentName); }
  }

  lemma ServerInvKept(w: World, l: Label)
    requires WorldInv(w) && Enabled(w, l) && ServerAsserts(w, l)
    ensures var r := ServerAfter(w, l);
            && ServerReady(r)
            && forall g, c | Has(w.server, g, c) && !(l.Leave? && c == l.c) :: Has(r, g, c)
    ensures l.Join? && Call(w, l).Some? ==> Has(ServerAfter(w, l), w.clients[l.c].groupName, l.c)
  {
    if Call(w, l).Some? {
      OpKeepsReady(w.server, Call(w, l).value);
    }
  }

  lemma OwnClientAfter(w: World, l: Label)
    requires WorldInv(w) && Enabled(w, l) && ServerAsserts(w, l) && !l.Sweep? && l.c in w.clients
    ensures var w' := Next(w, l);
            && (l.c in w'.clients <==> !l.Destroy?)
            && (l.c in w'.clients ==>
                  && w'.clients[l.c].host == w.clients[l.c].host
                  && w'.clients[l.c].groupName == w.clients[l.c].groupName
                  && (w'.clients[l.c].inGroup ==> !l.Leave? && (l.Join? || w.clients[l.c].inGroup))
                  && (l.Join? && w'.clients[l.c].inGroup ==> w.clients[l.c].inGroup || l.rpc == Delivered)
                  && (!l.PollTest? && !l.PollCall? ==> w'.clients[l.c].polling == w.clients[l.c].polling))
  {
  }

  lemma WorldInvKept(w: World, l: Label)
    requires WorldInv(w) && Enabled(w, l) && ServerAsserts(w, l)
    ensures WorldInv(Next(w, l))
  {
    ServerInvKept(w, l);
    if !l.Sweep? { OwnBelieverKept(w, l); }
    OthersKeepBelieving(w, l, Next(w, l).clients, ServerAfter(w, l));
  }

  lemma OwnBelieverKept(w: World, l: Label)
    requires WorldInv(w) && Enabled(w, l) && ServerAsserts(w, l) && !l.Sweep?
    requires forall g | Has(w.server, g, l.c) && !l.Leave? :: Has(ServerAfter(w, l), g, l.c)
    requires l.Join? && Call(w, l).Some? ==> Has(ServerAfter(w, l), w.clients[l.c].groupName, l.c)
    ensures l.c in Next(w, l).clients ==> Believer(Next(w, l).clients[l.c], l.c, ServerAfter(w, l))
  {
    if l.c in w.clients { OwnClientAfter(w, l); }
  }

  lemma OthersKeepBelieving(w: World, l: Label, clients: map<string, Client>, r: Registry)
    requires Believers(w)
    requires forall g, c | Has(w.server, g, c) && !(l.Leave? && c == l.c) :: Has(r, g, c)
    requires l.Sweep? ==> clients == w.clients
    requires !l.Sweep? ==> forall c | c != l.c ::
               (c in clients <==> c in w.clients) && (c in w.clients ==> clients[c] == w.clients[c])
    requires !l.Sweep? && l.c in clients ==> Believer(clients[l.c], l.c, r)
    ensures Believers(World(r, clients))
  {
  }

  lemma RunInv(states: seq<World>, labels: seq<Label>, n: nat)
    requires Run(states, labels) && n < |states|
    ensures WorldInv(states[n])
  {
    assert Inductive(Init, Step, WorldInv) by {
      forall w, l, w' | WorldInv(w) && Step(w, l, w') ensures WorldInv(w') {
        WorldInvKept(w, l);
      }
    }
    InductiveHolds(Init, Step, WorldInv, states, labels, n);
  }

  /** Whatever messages are lost, no step of any client and no sweep makes an assertion of the server fail, a poll being
      one step. */
  lemma ServerAssertionsNeverFail(states: seq<World>, labels: seq<Label>, n: nat, l: Label)
    requires Run(states, labels) && n < |states| && Enabled(states[n], l) && !l.PollCall?
    ensures ServerAsserts(states[n], l)
  {
    RunInv(states, labels, n);
    CallsPass(states[n], l);
  }

  lemma BelieversAreMembers(states: seq<World>, labels: seq<Label>, n: nat, c: string)
    requires Run(states, labels) && n < |states| && c in states[n].clients && states[n].clients[c].inGroup
    ensures Has(states[n].server, states[n].clients[c].groupName, c)
  {
    RunInv(states, labels, n);
  }

  /** Right after an answered poll or join the client is in its group and sees the server's group minus itself. */
  lemma ViewIsServerGroup(states: seq<World>, labels: seq<Label>, n: nat)
    requires Run(states, labels) && n < |labels|
    requires (labels[n].Join? || labels[n].Poll?) && labels[n].rpc == Delivered
    requires labels[n].c in states[n].clients && (labels[n].Poll? <==> states[n].clients[labels[n].c].inGroup)
    ensures var w, c := states[n + 1], labels[n].c;
            && c in w.clients && w.clients[c].inGroup
            && w.clients[c].groupName in w.server.groups
            && w.clients[c].view == w.server.groups[w.clients[c].groupName].RemoveHost(c)
  {
    RunInv(states, labels, n);
    RunInv(states, labels, n + 1);
    assert Step(states[n], labels[n], states[n + 1]);
    var w, l := states[n], labels[n];
    ApplyKeeps(w.server, Call(w, l).value);
    assert Has(Next(w, l).server, w.clients[l.c].groupName, l.c);
  }

  /** Of c's creation, its leaves and its answered joins before step n, the last is a join. */
  predicate JoinedLast(labels: seq<Label>, n: nat, c: string)
    requires n <= |labels|
  {
    n > 0 &&
    var l := labels[n - 1];
    if l.Sweep? || l.c != c then JoinedLast(labels, n - 1, c)
    else if l.Create? || l.Leave? then false
    else (l.Join? && l.rpc == Delivered) || JoinedLast(labels, n - 1, c)
  }

  lemma BeliefStep(w: World, l: Label, c: string)
    requires WorldInv(w) && Enabled(w, l) && ServerAsserts(w, l) && c in Next(w, l).clients
    ensures var b, b' := c in w.clients && w.clients[c].inGroup, Next(w, l).clients[c].inGroup;
            && (c !in w.clients ==> l.Create? && l.c == c)
            && (b' <==> if l.Sweep? || l.c != c then b
                        else if l.Create? || l.Leave? then false
                        else (l.Join? && l.rpc == Delivered) || b)
  {
    if l.Join? && l.c == c && l.rpc == Delivered && !w.clients[c].inGroup {
      ServerInvKept(w, l);
    }
  }

  /** Whatever messages are lost, a client believes to be in its group exactly if a join of its has been answered and it
      has not left since. */
  lemma {:induction false} BeliefIsHistory(states: seq<World>, labels: seq<Label>, n: nat, c: string)
    requires Run(states, labels) && n <= |labels| && c in states[n].clients
    ensures states[n].clients[c].inGroup <==> JoinedLast(labels, n, c)
    decreases n
  {
    if n > 0 {
      RunInv(states, labels, n - 1);
      assert Step(states[n - 1], labels[n - 1], states[n - 1 + 1]);
      BeliefStep(states[n - 1], labels[n - 1], c);
      if c in states[n - 1].clients { BeliefIsHistory(states, labels, n - 1, c); }
    }
  }

  /** A client's view is changed by answers only: those of its own join and poll, and the assignment of one. */
  lemma ViewIsOfAnswers(states: seq<World>, labels: seq<Label>, n: nat, c: string)
    requires Run(states, labels) && n < |labels| && c in states[n].clients && c in states[n + 1].clients
    ensures var l := labels[n];
            states[n + 1].clients[c].view == states[n].clients[c].view
            || l == PollAssign(c) || ((l.Join? || l.Poll?) && l.c == c && l.rpc == Delivered)
  {
    assert Step(states[n], labels[n], states[n + 1]);
  }

  // ---------------------------------------------------------------------------------------------------------
  // Runs that lose nothing
  // ---------------------------------------------------------------------------------------------------------

  predicate Lossless(l: Label) {
    l.Join? || l.Leave? || l.Poll? ==> l.rpc == Delivered
  }

  predicate LosslessStep(w: World, l: Label, w': World) {
    Step(w, l, w') && Lossless(l)
  }

  predicate Believes(w: World, g: string, c: string) {
    c in w.clients && w.clients[c].inGroup && w.clients[c].groupName == g
  }

  /** The server's membership relation is exactly what the clients believe. */
  ghost predicate Exact(w: World) {
    WorldInv(w) && forall g, c :: Has(w.server, g, c) <==> Believes(w, g, c)
  }

  /** A lossless step changes the server's membership relation and the clients' beliefs by the same pair. */
  ghost predicate ChangesOnePair(w: World, l: Label, holds: bool, holds': bool, g: string, c: string) {
    var mine := !l.Sweep? && c == l.c && c in w.clients && w.clients[c].groupName == g;
    if l.Join? && mine then holds' else if l.Leave? && mine then !holds' else holds' == holds
  }

  lemma BeliefsChange(w: World, l: Label, g: string, c: string)
    requires WorldInv(w) && Enabled(w, l) && Lossless(l) && ServerAsserts(w, l) && WorldInv(Next(w, l))
    requires l.Join? && !w.clients[l.c].inGroup ==> Has(Next(w, l).server, w.clients[l.c].groupName, l.c)
    ensures ChangesOnePair(w, l, Believes(w, g, c), Believes(Next(w, l), g, c), g, c)
  {
    if l.Sweep? || c != l.c {
      OtherBeliefsStay(w, l, g, c);
    } else {
      OwnBeliefChanges(w, l, g);
    }
  }

  lemma OtherBeliefsStay(w: World, l: Label, g: string, c: string)
    requires Enabled(w, l) && ServerAsserts(w, l) && (l.Sweep? || c != l.c)
    ensures Believes(Next(w, l), g, c) <==> Believes(w, g, c)
  {
  }

  lemma OwnBeliefChanges(w: World, l: Label, g: string)
    requires WorldInv(w) && Enabled(w, l) && Lossless(l) && ServerAsserts(w, l) && WorldInv(Next(w, l)) && !l.Sweep?
    requires l.Join? && !w.clients[l.c].inGroup ==> Has(Next(w, l).server, w.clients[l.c].groupName, l.c)
    ensures ChangesOnePair(w, l, Believes(w, g, l.c), Believes(Next(w, l), g, l.c), g, l.c)
  {
  }

  lemma MembershipChanges(w: World, l: Label, g: string, c: string)
    requires Exact(w) && Enabled(w, l) && Lossless(l) && ServerAsserts(w, l)
    ensures ChangesOnePair(w, l, Has(w.server, g, c), Has(Next(w, l).server, g, c), g, c)
  {
    assert Has(w.server, g, c) <==> Believes(w, g, c);
    ServerMembership(w, l, g, c);
  }

  lemma ServerMembership(w: World, l: Label, g: string, c: string)
    requires WorldInv(w) && Enabled(w, l) && ServerAsserts(w, l)
    ensures Next(w, l).server == ServerAfter(w, l)
    ensures Has(ServerAfter(w, l), g, c) <==>
              if Call(w, l).None? then Has(w.server, g, c) else MembershipAfter(w.server, Call(w, l).value, g, c)
  {
    if Call(w, l).Some? { ApplyKeeps(w.server, Call(w, l).value); }
  }

  lemma ExactKept(w: World, l: Label)
    requires Exact(w) && Enabled(w, l) && Lossless(l) && ServerAsserts(w, l)
    ensures Exact(Next(w, l))
  {
    WorldInvKept(w, l);
    var w' := Next(w, l);
    if l.Join? && !w.clients[l.c].inGroup {
      MembershipChanges(w, l, w.clients[l.c].groupName, l.c);
    }
    forall g, c ensures Has(w'.server, g, c) <==> Believes(w', g, c) {
      assert Has(w.server, g, c) <==> Believes(w, g, c);
      BeliefsChange(w, l, g, c);
      MembershipChanges(w, l, g, c);
    }
  }

  /** If no message is lost, a component is a member of a group at the server exactly if its client believes so. */
  lemma LosslessBeliefsAreExact(states: seq<World>, labels: seq<Label>, n: nat, g: string, c: string)
    requires IsRun(Init, LosslessStep, states, labels) && n < |states|
    ensures Has(states[n].server, g, c) <==> Believes(states[n], g, c)
  {
    assert Inductive(Init, LosslessStep, Exact) by {
      forall w, l, w' | Exact(w) && LosslessStep(w, l, w') ensures Exact(w') {
        ExactKept(w, l);
      }
    }
    InductiveHolds(Init, LosslessStep, Exact, states, labels, n);
  }

  // ---------------------------------------------------------------------------------------------------------
  // A poll that a leave overtakes
  // ---------------------------------------------------------------------------------------------------------

  /** Of the leaves and joins of c that reached the server in steps i to n - 1, the last one was a leave. */
  predicate Left(states: seq<World>, labels: seq<Label>, i: nat, n: nat, c: string)
    requires i <= n <= |labels| < |states|
  {
    i < n &&
    var l := labels[n - 1];
    if (l.Leave? || l.Join?) && l.c == c && Call(states[n - 1], l).Some? then l.Leave?
    else Left(states, labels, i, n - 1, c)
  }

  ghost predicate Polling(states: seq<World>, labels: seq<Label>, i: nat, n: nat, c: string) {
    && Run(states, labels) && i < n <= |labels|
    && labels[i] == PollTest(c) && c in states[i].clients && states[i].clients[c].inGroup
    && forall m | i < m < n :: !(labels[m].PollCall? && labels[m].c == c)
  }

  lemma {:induction false} MemberUnlessLeft(states: seq<World>, labels: seq<Label>, i: nat, n: nat, c: string)
    requires Polling(states, labels, i, n, c)
    ensures MidPoll(states[n], c, Left(states, labels, i + 1, n, c))
    decreases n
  {
    RunInv(states, labels, n - 1);
    if n - 1 > i {
      MemberUnlessLeft(states, labels, i, n - 1, c);
      OneMoreMidPoll(states, labels, i, n, c);
    } else {
      FirstMidPoll(states, labels, i, c);
    }
  }

  lemma FirstMidPoll(states: seq<World>, labels: seq<Label>, i: nat, c: string)
    requires Polling(states, labels, i, i + 1, c) && WorldInv(states[i])
    ensures MidPoll(states[i + 1], c, Left(states, labels, i + 1, i + 1, c))
  {
    assert Step(states[i], labels[i], states[i + 1]);
  }

  lemma OneMoreMidPoll(states: seq<World>, labels: seq<Label>, i: nat, n: nat, c: string)
    requires Polling(states, labels, i, n, c) && i + 1 < n && WorldInv(states[n - 1])
    requires MidPoll(states[n - 1], c, Left(states, labels, i + 1, n - 1, c))
    ensures MidPoll(states[n], c, Left(states, labels, i + 1, n, c))
  {
    var w, l, gone := states[n - 1], labels[n - 1], Left(states, labels, i + 1, n - 1, c);
    assert Step(w, l, states[n - 1 + 1]);
    var gone' := if (l.Leave? || l.Join?) && l.c == c && Call(w, l).Some? then l.Leave? else gone;
    assert Left(states, labels, i + 1, n, c) == gone';
    MidPollKept(w, l, c, gone);
  }

  /** c has found itself in its group; gone: since then its membership has been taken away, and not given back. */
  ghost predicate MidPoll(w: World, c: string, gone: bool) {
    && c in w.clients && w.clients[c].polling && w.clients[c].groupName in w.server.groups
    && (Has(w.server, w.clients[c].groupName, c) <==> !gone)
  }

  lemma MidPollKept(w: World, l: Label, c: string, gone: bool)
    requires WorldInv(w) && Enabled(w, l) && ServerAsserts(w, l) && MidPoll(w, c, gone) && !(l.PollCall? && l.c == c)
    ensures MidPoll(Next(w, l), c, if (l.Leave? || l.Join?) && l.c == c && Call(w, l).Some? then l.Leave? else gone)
  {
    MembershipOf(w, l, w.clients[c].groupName, c);
  }

  /** A step changes c's membership of its group only if it is c's own join or leave, and reaches the server. */
  lemma MembershipOf(w: World, l: Label, g: string, c: string)
    requires WorldInv(w) && Enabled(w, l) && ServerAsserts(w, l) && c in w.clients && w.clients[c].groupName == g
    ensures g in w.server.groups ==> g in Next(w, l).server.groups
    ensures Has(Next(w, l).server, g, c) <==>
              if (l.Leave? || l.Join?) && l.c == c && Call(w, l).Some? then l.Join? else Has(w.server, g, c)
  {
    if Call(w, l).Some? {
      ApplyKeeps(w.server, Call(w, l).value);
      GroupsAfter(w.server, Call(w, l).value);
    }
  }

  /** A poll in two steps. When the call is made, the server's assertion holds exactly if the request is lost, or no
      leave of the client has reached the server since the test, or a join has after the last one that did. */
  lemma OvertakenPollExactly(states: seq<World>, labels: seq<Label>, i: nat, n: nat, c: string, rpc: Rpc, now: int)
    requires Polling(states, labels, i, n, c)
    ensures Enabled(states[n], PollCall(c, rpc, now))
    ensures ServerAsserts(states[n], PollCall(c, rpc, now)) <==>
              rpc == RequestLost || !Left(states, labels, i + 1, n, c)
  {
    RunInv(states, labels, n);
    MemberUnlessLeft(states, labels, i, n, c);
  }

  /** c's answered call was step i, and its answer has not been assigned before step n. */
  ghost predicate Answered(states: seq<World>, labels: seq<Label>, i: nat, n: nat, c: string) {
    && Run(states, labels) && i < n <= |labels|
    && labels[i].PollCall? && labels[i].c == c && labels[i].rpc == Delivered
    && forall m | i < m < n :: labels[m] != PollAssign(c)
  }

  lemma {:induction false} AnswerStays(states: seq<World>, labels: seq<Label>, i: nat, n: nat, c: string)
    requires Answered(states, labels, i, n, c)
    ensures c in states[i].clients && states[i].clients[c].host.componentName == c
    ensures Waiting(states[n], states[i].clients[c], Answer(states[i].clients[c], states[i + 1].server))
    decreases n
  {
    RunInv(states, labels, i);
    assert Step(states[n - 1], labels[n - 1], states[n - 1 + 1]);
    if i < n - 1 {
      AnswerStays(states, labels, i, n - 1, c);
      var client := states[i].clients[c];
      AnswerStep(states[n - 1], labels[n - 1], client, Answer(client, states[i + 1].server));
    }
  }

  predicate Waiting(w: World, client: Client, answer: Group) {
    var c := client.host.componentName;
    && c in w.clients && w.clients[c].host == client.host && w.clients[c].groupName == client.groupName
    && !w.clients[c].polling && w.clients[c].answer == Some(answer)
  }

  lemma AnswerStep(w: World, l: Label, client: Client, answer: Group)
    requires Enabled(w, l) && ServerAsserts(w, l) && Waiting(w, client, answer)
    requires l != PollAssign(client.host.componentName)
    ensures Waiting(Next(w, l), client, answer)
  {
  }

  /** A poll in parts. The view that is assigned is the server's group as it was right after the call, minus the client,
      whatever leaves, joins and changes came in between; and whether the client is in its group stays as it is. So a
      client that has left gets a view all the same, and the view of one that has joined again is put back. */
  lemma AssignedViewIsOfTheCall(states: seq<World>, labels: seq<Label>, i: nat, n: nat, c: string)
    requires Answered(states, labels, i, n, c)
    ensures Enabled(states[n], PollAssign(c))
    ensures var client := Next(states[n], PollAssign(c)).clients[c];
            && client.view == Answer(client, states[i + 1].server).RemoveHost(c)
            && client.inGroup == states[n].clients[c].inGroup && Idle(client)
  {
    RunInv(states, labels, i);
    AnswerStays(states, labels, i, n, c);
  }

  // ---------------------------------------------------------------------------------------------------------
  // The class
  // ---------------------------------------------------------------------------------------------------------

  /** One turn of the joinGroup loop: the connection is down, or a call is made and answered or not. */
  datatype Attempt = NotConnected | Called(rpc: Rpc, now: int)

  lemma JoinPasses(r: Registry, client: Client, now: int)
    requires ServerReady(r)
    ensures AssertsPass(r, Op.Join(client.host, client.groupName, now))
    ensures ServerReady(Apply(r, Op.Join(client.host, client.groupName, now)))
  {
    HostAssertsHold(r, client.host);
    ApplyKeeps(r, Op.Join(client.host, client.groupName, now));
    KeysAfter(r, Op.Join(client.host, client.groupName, now));
  }

  /** The loop, attempt by attempt, until it succeeds or the connection is stopped. */
  ghost function Attempts(r: Registry, client: Client, attempts: seq<Attempt>): (Registry, Client)
    requires ServerReady(r)
    decreases |attempts|
  {
    if client.inGroup || attempts == [] then (r, client)
    else
      match attempts[0]
      case NotConnected => Attempts(r, client, attempts[1..])
      case Called(rpc, now) =>
        JoinPasses(r, client, now);
        var r' := if rpc == RequestLost then r else Apply(r, Op.Join(client.host, client.groupName, now));
        Attempts(r', AfterJoin(client, rpc, r'), attempts[1..])
  }

  /** joinGroup succeeds exactly if some attempt is answered. */
  lemma {:induction false} JoinSucceedsExactly(r: Registry, client: Client, attempts: seq<Attempt>)
    requires ServerReady(r) && !client.inGroup
    ensures Attempts(r, client, attempts).1.inGroup <==>
              exists i :: 0 <= i < |attempts| && attempts[i].Called? && attempts[i].rpc == Delivered
    decreases |attempts|
  {
    if attempts != [] {
      var rest := attempts[1..];
      assert forall i :: 0 < i < |attempts| ==> attempts[i] == rest[i - 1];
      match attempts[0]
      case NotConnected => JoinSucceedsExactly(r, client, rest);
      case Called(rpc, now) =>
        JoinPasses(r, client, now);
        var op := Op.Join(client.host, client.groupName, now);
        var r' := if rpc == RequestLost then r else Apply(r, op);
        if rpc == Delivered {
          ApplyKeeps(r, op);
          assert Has(r', client.groupName, client.host.componentName);
        } else {
          assert AfterJoin(client, rpc, r') == client;
          JoinSucceedsExactly(r', client, rest);
        }
    }
  }

  predicate Reached(attempts: seq<Attempt>) {
    exists i :: 0 <= i < |attempts| && attempts[i].Called? && attempts[i].rpc != RequestLost
  }

  lemma ReachedStep(attempts: seq<Attempt>)
    requires attempts != []
    ensures Reached(attempts) <==>
              (attempts[0].Called? && attempts[0].rpc != RequestLost) || Reached(attempts[1..])
  {
    var rest := attempts[1..];
    assert forall i :: 0 < i < |attempts| ==> attempts[i] == rest[i - 1];
    if i :| 0 <= i < |rest| && rest[i].Called? && rest[i].rpc != RequestLost {
      assert attempts[i + 1] == rest[i];
    }
  }

  /** At the server the loop makes the client a member of its group exactly if some attempt reaches the server, answered
      or not, and changes no other membership. */
  lemma {:induction false} JoinReachesExactly(r: Registry, client: Client, attempts: seq<Attempt>, g: string, c: string)
    requires ServerReady(r) && !client.inGroup
    ensures Has(Attempts(r, client, attempts).0, g, c) <==>
              Has(r, g, c) || (g == client.groupName && c == client.host.componentName && Reached(attempts))
    decreases |attempts|
  {
    if attempts != [] {
      ReachedStep(attempts);
      match attempts[0]
      case NotConnected => JoinReachesExactly(r, client, attempts[1..], g, c);
      case Called(rpc, now) =>
        JoinPasses(r, client, now);
        var op := Op.Join(client.host, client.groupName, now);
        ApplyKeeps(r, op);
        if rpc == Delivered {
          assert Has(Apply(r, op), client.groupName, client.host.componentName);
        } else {
          var r' := if rpc == RequestLost then r else Apply(r, op);
          assert AfterJoin(client, rpc, r') == client;
          JoinReachesExactly(r', client, attempts[1..], g, c);
        }
    }
  }

  class GroupManagerConnection {
    const myHostInformation: Host
    const groupName: string
    var isInGroup: bool
    var groupInformation: Group
    var polling: bool
    var answer: Option<Group>

    function Me(): Client
      reads this
    {
      Client(myHostInformation, groupName, isInGroup, groupInformation, polling, answer)
    }

    constructor (info: Host, name: string)
      ensures Me() == Client(info.(status := Online), name, false, NO_GROUP, false, None)
    {
      myHostInformation, groupName := info.(status := Online), name;
      isInGroup, groupInformation, polling, answer := false, NO_GROUP, false, None;
    }

    /** joinGroup: retries until a reply comes or the thread is stopped, which is when the attempts run out. */
    method JoinGroup(server: GroupManager, attempts: seq<Attempt>) returns (joined: bool)
      requires ServerReady(server.State())
      modifies this, server
      ensures (server.State(), Me()) == Attempts(old(server.State()), old(Me()), attempts)
      ensures ServerReady(server.State()) && joined == isInGroup
    {
      if isInGroup {
        return true;
      }
      var i := 0;
      while i < |attempts|
        invariant 0 <= i <= |attempts| && !isInGroup && ServerReady(server.State())
        invariant Attempts(old(server.State()), old(Me()), attempts) == Attempts(server.State(), Me(), attempts[i..])
      {
        assert attempts[i..][0] == attempts[i] && attempts[i..][1..] == attempts[i + 1..];
        if attempts[i].Called? {
          JoinOnce(server, attempts[i].rpc, attempts[i].now);
          if isInGroup {
            return true;
          }
        }
        i := i + 1;
      }
      joined := isInGroup;
    }

    /** One call of the loop and what the client makes of the answer. */
    method JoinOnce(server: GroupManager, rpc: Rpc, now: int)
      requires ServerReady(server.State()) && !isInGroup
      modifies this, server
      ensures AssertsPass(old(server.State()), Op.Join(old(Me()).host, old(Me()).groupName, now))
      ensures var r := old(server.State());
              server.State() ==
                if rpc == RequestLost then r else Apply(r, Op.Join(old(Me()).host, old(Me()).groupName, now))
      ensures ServerReady(server.State()) && Me() == AfterJoin(old(Me()), rpc, server.State())
    {
      JoinPasses(server.State(), Me(), now);
      if rpc == RequestLost {
        isInGroup := false;
      } else {
        var reply := server.JoinGroup(myHostInformation, groupName, now);
        if rpc == ReplyLost {
          isInGroup := false;
        } else {
          groupInformation := reply.RemoveHost(myHostInformation.componentName);
          if reply.name == groupName {
            isInGroup := true;
          } else {
            assert false;  // the error branch for a wrong group name is never taken
          }
        }
      }
    }

    /** leaveGroup: whatever the call does, the client no longer believes to be in the group. */
    method LeaveGroup(server: GroupManager, rpc: Rpc)
      requires Inv(server.State())
      requires isInGroup ==> AssertsPass(server.State(), Op.Leave(myHostInformation, groupName))
      modifies this, server
      ensures Me() == old(Me()).(inGroup := false)
      ensures server.State() ==
                if old(isInGroup) && rpc != RequestLost
                then Apply(old(server.State()), Op.Leave(myHostInformation, groupName)) else old(server.State())
    {
      if !isInGroup {
        return;
      }
      if rpc != RequestLost {
        var removed := server.LeaveGroup(myHostInformation, groupName);
      }
      isInGroup := false;
    }

    /** One round of run, nothing coming between the test and the call. */
    method Poll(server: GroupManager, rpc: Rpc, now: int)
      requires Inv(server.State()) && Idle(Me())
      requires isInGroup ==> AssertsPass(server.State(), Op.Alive(myHostInformation, groupName, now))
      modifies this, server
      ensures server.State() ==
                if old(isInGroup) && rpc != RequestLost
                then Apply(old(server.State()), Op.Alive(myHostInformation, groupName, now)) else old(server.State())
      ensures Me() == AfterPoll(old(Me()), rpc, server.State())
    {
      PollTest();
      if polling {
        PollCall(server, rpc, now);
        if answer.Some? {
          PollAssign();
        }
      }
    }

    /** The IsInGroup test. */
    method PollTest()
      requires Idle(Me())
      modifies this`polling
      ensures Me() == old(Me()).(polling := isInGroup)
    {
      polling := isInGroup;
    }

    /** The AliveChecker call. */
    method PollCall(server: GroupManager, rpc: Rpc, now: int)
      requires Inv(server.State()) && polling
      requires rpc != RequestLost ==> AssertsPass(server.State(), Op.Alive(myHostInformation, groupName, now))
      modifies this, server
      ensures server.State() ==
                if rpc != RequestLost
                then Apply(old(server.State()), Op.Alive(myHostInformation, groupName, now)) else old(server.State())
      ensures Me() == AfterCall(old(Me()), rpc, server.State())
    {
      polling, answer := false, None;
      if rpc != RequestLost {
        var current := server.AliveChecker(myHostInformation, groupName, now);
        if rpc == Delivered {
          answer := Some(current);
        }
      }
    }

    /** The critical section after the call. */
    method PollAssign()
      requires answer.Some?
      modifies this`groupInformation, this`answer
      ensures Me() == Assigned(old(Me()))
    {
      groupInformation := answer.value.RemoveHost(myHostInformation.componentName);
      answer := None;
    }
  }
}
