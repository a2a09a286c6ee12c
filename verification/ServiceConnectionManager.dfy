/** IntactMiddleware/ServiceConnectionManager.cpp: a write-behind queue of registrations and removals, flushed to a
    lookup server by the service thread, with a subscriber index on the side. Every public call (but see
    ServiceHistory for SubscribeService(INetInterface*)) and every round of the service thread runs under the mutex.
    Calls into INetConnectionManager are taken to succeed. */
module ServiceConnectionManager {
  import opened HostInformation
  import opened Runs

  /** What RegisterService reads off an INetInterface. */
  datatype Interface = Interface(serviceName: string, kind: Description, connectedTo: string)

  /** pending is mapServicesToRegisterOrRemove_, subscriptions is setSubscribedServices_. */
  datatype Manager = Manager(
    pending: map<string, Host>, registered: map<string, Host>, subscribed: map<string, Host>,
    subscriptions: set<string>, subscribers: map<string, set<string>>, interfaces: map<string, Interface>)

  const EMPTY := Manager(map[], map[], map[], {}, map[], map[])

  predicate Subscribes(d: Description) {
    d.Proxy? || d.Subscriber?
  }

  predicate Serves(d: Description) {
    d.Stub? || d.Publisher?
  }

  function Lookup(subscribers: map<string, set<string>>, service: string): set<string> {
    if service in subscribers then subscribers[service] else {}
  }

  function SubscribersOf(m: Manager, service: string): set<string> {
    Lookup(m.subscribers, service)
  }

  // ---------------------------------------------------------------------------------------------------------
  // The simple form: one set of services, changed at once
  // ---------------------------------------------------------------------------------------------------------

  /** Registered minus pending-OFFLINE, plus pending-ONLINE. */
  function Combined(registered: map<string, Host>, pending: map<string, Host>): (e: map<string, Host>)
    ensures forall n :: n in e <==> if n in pending then pending[n].status == Online else n in registered
    ensures forall n | n in e :: e[n] == if n in pending then pending[n] else registered[n]
  {
    map n | n in registered.Keys + pending.Keys && (n in pending ==> pending[n].status == Online) ::
      if n in pending then pending[n] else registered[n]
  }

  function Effective(m: Manager): map<string, Host> {
    Combined(m.registered, m.pending)
  }

  // ---------------------------------------------------------------------------------------------------------
  // The operations
  // ---------------------------------------------------------------------------------------------------------

  datatype Op =
    | RegisterHandle(h: Host)                             // RegisterService(HostInformation&)
    | RegisterInterface(i: Interface, info: Host)         // RegisterService(INetInterface*); info: Runtime's host info
    | Remove(name: string)
    | Subscribe(name: string)                             // SubscribeService(const string&, ..., wait = false)
    | Flush(reply: map<string, Host>)                     // serviceRegistration, answered
    | FlushFails(partial: map<string, Host>)              // serviceRegistration throws, reply read in part
    | Round(reply: map<string, Host>, current: map<string, Host>)   // flush, AliveChecker, change check

  function Announced(h: Host): Host {
    h.(status := Online)
  }

  function InterfaceInfo(i: Interface, info: Host): Host {
    info.(componentName := i.serviceName, connectedTo := i.connectedTo, status := Online, description := i.kind)
  }

  function DoRegisterHandle(m: Manager, h: Host): Manager {
    if h.componentName in m.pending then m
    else m.(pending := m.pending[h.componentName := Announced(h)])
  }

  function DoRegisterInterface(m: Manager, i: Interface, info: Host): Manager {
    if i.serviceName in m.pending then m
    else
      var m' := m.(interfaces := m.interfaces[i.serviceName := i],
                   pending := m.pending[i.serviceName := InterfaceInfo(i, info)]);
      if !Subscribes(i.kind) then m'
      else m'.(subscriptions := m.subscriptions + {i.connectedTo},
               subscribers := m.subscribers[i.connectedTo := SubscribersOf(m, i.connectedTo) + {i.serviceName}])
  }

  predicate Removes(m: Manager, name: string) {
    name in m.registered && name !in m.pending
  }

  /** What RemoveService does about the interface of the service. */
  function DropInterface(m: Manager, name: string): Manager {
    if name !in m.interfaces then m
    else
      var i := m.interfaces[name];
      if Subscribes(i.kind) then
        m.(interfaces := m.interfaces - {name},
           subscribers := m.subscribers[i.connectedTo := SubscribersOf(m, i.connectedTo) - {name}])
      else if Serves(i.kind) then m.(interfaces := m.interfaces - {name})
      else m
  }

  /** RemoveService drops the registered entry even when it then finds the name pending and answers false. */
  function DoRemove(m: Manager, name: string): Manager {
    if name !in m.registered then m
    else
      var m1 := m.(registered := m.registered - {name});
      if name in m.pending then m1
      else DropInterface(m1, name).(pending := m.pending[name := m.registered[name].(status := Offline)])
  }

  function DoSubscribe(m: Manager, name: string): Manager {
    if name in m.subscribed then m else m.(subscriptions := m.subscriptions + {name})
  }

  function OnlineOnes(p: map<string, Host>): map<string, Host> {
    map n | n in p && p[n].status == Online :: p[n]
  }

  function DoFlush(m: Manager, reply: map<string, Host>): Manager {
    m.(registered := m.registered + OnlineOnes(m.pending + reply), pending := map[])
  }

  function Apply(m: Manager, op: Op): Manager {
    match op
    case RegisterHandle(h) => DoRegisterHandle(m, h)
    case RegisterInterface(i, info) => DoRegisterInterface(m, i, info)
    case Remove(name) => DoRemove(m, name)
    case Subscribe(name) => DoSubscribe(m, name)
    case Flush(reply) => DoFlush(m, reply)
    case FlushFails(partial) => m.(pending := m.pending + partial)
    case Round(reply, current) => DoFlush(m, reply).(subscribed := current)
  }

  /** A reply speaks of pending services only and keeps their name and status. */
  ghost predicate HonestReply(pending: map<string, Host>, reply: map<string, Host>) {
    && reply.Keys <= pending.Keys
    && forall n | n in reply ::
         reply[n].componentName == pending[n].componentName && reply[n].status == pending[n].status
  }

  ghost predicate Honest(m: Manager, reply: map<string, Host>) {
    HonestReply(m.pending, reply)
  }

  /** What callers and server are held to: registered names and targets are not empty, replies are honest, and the
      server returns valid info on requested names only. */
  ghost predicate Legal(m: Manager, op: Op) {
    match op
    case RegisterHandle(h) => h.componentName != ""
    case RegisterInterface(i, _) => i.serviceName != "" && (Subscribes(i.kind) ==> i.connectedTo != "")
    case Remove(_) => true
    case Subscribe(_) => true
    case Flush(reply) => Honest(m, reply)
    case FlushFails(partial) => Honest(m, partial)
    case Round(reply, current) =>
      Honest(m, reply) && current.Keys <= m.subscriptions && forall s | s in current :: current[s].componentName != ""
  }

  // ---------------------------------------------------------------------------------------------------------
  // The class's assertions
  // ---------------------------------------------------------------------------------------------------------

  ghost predicate FlushAsserts(m: Manager, reply: map<string, Host>) {
    var p := m.pending + reply;
    forall n | n in p ::
      && n != "" && p[n].componentName == n && p[n].status != NoOnlineStatus
      && (p[n].status == Offline ==> n !in m.registered)
  }

  ghost predicate RemoveAsserts(m: Manager, name: string) {
    Removes(m, name) && name in m.interfaces ==>
      var i := m.interfaces[name];
      && i.serviceName == name
      && (Subscribes(i.kind) ==> i.connectedTo in m.subscribers && name in m.subscribers[i.connectedTo])
  }

  /** The change check reaches subscriber n of the service now known as `new` and before as `curr`. */
  ghost predicate Reaches(m: Manager, current: map<string, Host>, s: string, n: string) {
    && s in current && s in m.subscribed && current[s].status != Offline
    && n in SubscribersOf(m, current[s].componentName)
  }

  ghost predicate Rebinds(m: Manager, current: map<string, Host>, s: string, n: string) {
    Reaches(m, current, s, n) && current[s].handle != m.subscribed[s].handle && n in m.interfaces
  }

  /** What updateSubscribersToServices asserts of one subscriber: it is registered, as a proxy or subscriber; and if it
      is to be bound anew, it is a proxy and its service a stub. The branch for a SUBSCRIBER asserts that the handle has
      not changed, and is only reached when it has. */
  ghost predicate Passes(m: Manager, current: map<string, Host>, s: string, n: string) {
    Reaches(m, current, s, n) ==>
      && n in m.registered && Subscribes(m.registered[n].description)
      && (Rebinds(m, current, s, n) ==> m.registered[n].description == Proxy && current[s].description == Stub)
  }

  ghost predicate ChangeAsserts(m: Manager, current: map<string, Host>) {
    forall s, n :: Passes(m, current, s, n)
  }

  /** Its first part: every subscriber is registered, as a proxy or subscriber. */
  ghost predicate SubscriberAsserts(m: Manager, current: map<string, Host>) {
    forall s, n | Reaches(m, current, s, n) :: n in m.registered && Subscribes(m.registered[n].description)
  }

  /** The second: whoever is to be bound anew is a proxy of a stub. */
  ghost predicate RebindAsserts(m: Manager, current: map<string, Host>) {
    forall s, n | Rebinds(m, current, s, n) ::
      n in m.registered && m.registered[n].description == Proxy && current[s].description == Stub
  }

  ghost predicate SubscribeAsserts(m: Manager, name: string) {
    name in m.subscribed ==> name in m.subscriptions
  }

  // ---------------------------------------------------------------------------------------------------------
  // Invariants
  // ---------------------------------------------------------------------------------------------------------

  ghost predicate QueueInv(registered: map<string, Host>, pending: map<string, Host>) {
    && (forall n | n in pending :: n != "" && pending[n].componentName == n && pending[n].status != NoOnlineStatus)
    && (forall n | n in registered :: n != "" && registered[n].componentName == n && registered[n].status == Online)
    && (forall n | n in pending && pending[n].status == Offline :: n !in registered)
  }

  ghost predicate InterfaceInv(interfaces: map<string, Interface>, subscribers: map<string, set<string>>) {
    forall n | n in interfaces ::
      && interfaces[n].serviceName == n
      && (Subscribes(interfaces[n].kind) ==> n in Lookup(subscribers, interfaces[n].connectedTo))
  }

  ghost predicate Inv(m: Manager) {
    && QueueInv(m.registered, m.pending)
    && InterfaceInv(m.interfaces, m.subscribers)
    && m.subscribed.Keys <= m.subscriptions
  }

  /** The subscriber index is exact: who is in it has an interface connected to that service, and is in effect. */
  ghost predicate Indexed(m: Manager) {
    forall s, n | n in SubscribersOf(m, s) ::
      && n in m.interfaces && Subscribes(m.interfaces[n].kind) && m.interfaces[n].connectedTo == s
      && n in Effective(m) && Subscribes(Effective(m)[n].description)
  }

  lemma QueueAfterReply(registered: map<string, Host>, pending: map<string, Host>, reply: map<string, Host>)
    requires QueueInv(registered, pending) && HonestReply(pending, reply)
    ensures QueueInv(registered, pending + reply)
    ensures QueueInv(registered + OnlineOnes(pending + reply), map[])
  {
  }

  lemma QueueAfterRemove(registered: map<string, Host>, pending: map<string, Host>, n: string)
    requires QueueInv(registered, pending) && n in registered
    ensures QueueInv(registered - {n}, pending)
    ensures QueueInv(registered - {n}, pending[n := registered[n].(status := Offline)])
  {
  }

  lemma InterfacesAfterRegister(interfaces: map<string, Interface>, subscribers: map<string, set<string>>, i: Interface)
    requires InterfaceInv(interfaces, subscribers)
    ensures !Subscribes(i.kind) ==> InterfaceInv(interfaces[i.serviceName := i], subscribers)
    ensures InterfaceInv(interfaces[i.serviceName := i],
              subscribers[i.connectedTo := Lookup(subscribers, i.connectedTo) + {i.serviceName}])
  {
  }

  lemma InterfacesAfterRemove(interfaces: map<string, Interface>, subscribers: map<string, set<string>>, n: string)
    requires InterfaceInv(interfaces, subscribers) && n in interfaces
    ensures InterfaceInv(interfaces - {n}, subscribers)
    ensures var s := interfaces[n].connectedTo;
            InterfaceInv(interfaces - {n}, subscribers[s := Lookup(subscribers, s) - {n}])
  {
  }

  lemma RemoveKeepsInv(m: Manager, name: string)
    requires Inv(m)
    ensures Inv(DoRemove(m, name))
  {
    if name in m.registered { QueueAfterRemove(m.registered, m.pending, name); }
    if name in m.interfaces { InterfacesAfterRemove(m.interfaces, m.subscribers, name); }
  }

  lemma InvKept(m: Manager, op: Op)
    requires Inv(m) && Legal(m, op)
    ensures Inv(Apply(m, op))
  {
    match op
    case RegisterHandle(h) =>
    case RegisterInterface(i, info) => RegisterKeepsInv(m, i, info);
    case Remove(name) => RemoveKeepsInv(m, name);
    case Subscribe(name) =>
    case Flush(reply) => QueueAfterReply(m.registered, m.pending, reply);
    case FlushFails(partial) => QueueAfterReply(m.registered, m.pending, partial);
    case Round(reply, current) => QueueAfterReply(m.registered, m.pending, reply);
  }

  lemma RegisterKeepsInv(m: Manager, i: Interface, info: Host)
    requires Inv(m) && i.serviceName != ""
    ensures Inv(DoRegisterInterface(m, i, info))
  {
    InterfacesAfterRegister(m.interfaces, m.subscribers, i);
  }

  // ---------------------------------------------------------------------------------------------------------
  // Refinement of the immediate set
  // ---------------------------------------------------------------------------------------------------------

  /** What an operation does to the immediate set. Each successful register or remove does exactly that; each call
      answering false leaves it alone; a reply only refreshes the info of services in effect. */
  function Immediate(m: Manager, op: Op): map<string, Host> {
    var e := Effective(m);
    match op
    case RegisterHandle(h) => if h.componentName in m.pending then e else e[h.componentName := Announced(h)]
    case RegisterInterface(i, info) =>
      if i.serviceName in m.pending then e else e[i.serviceName := InterfaceInfo(i, info)]
    case Remove(name) => if Removes(m, name) then e - {name} else e
    case Subscribe(_) => e
    case Flush(reply) => e + OnlineOnes(reply)
    case FlushFails(partial) => e + OnlineOnes(partial)
    case Round(reply, _) => e + OnlineOnes(reply)
  }

  lemma SameMap<K, V>(a: map<K, V>, b: map<K, V>)
    requires forall k :: k in a <==> k in b
    requires forall k | k in a :: a[k] == b[k]
    ensures a == b
  {
  }

  lemma RegisterRefines(registered: map<string, Host>, pending: map<string, Host>, n: string, h: Host)
    requires h.status == Online
    ensures Combined(registered, pending[n := h]) == Combined(registered, pending)[n := h]
  {
    SameMap(Combined(registered, pending[n := h]), Combined(registered, pending)[n := h]);
  }

  /** Dropping a registered entry shows in the immediate set only if no pending entry stands for it. */
  lemma RemoveRefines(registered: map<string, Host>, pending: map<string, Host>, n: string)
    requires QueueInv(registered, pending) && n in registered
    ensures n in pending ==> Combined(registered - {n}, pending) == Combined(registered, pending)
    ensures n !in pending ==>
              Combined(registered - {n}, pending[n := registered[n].(status := Offline)])
              == Combined(registered, pending) - {n}
  {
    if n in pending {
      SameMap(Combined(registered - {n}, pending), Combined(registered, pending));
    } else {
      SameMap(Combined(registered - {n}, pending[n := registered[n].(status := Offline)]),
              Combined(registered, pending) - {n});
    }
  }

  lemma ReplyRefines(registered: map<string, Host>, pending: map<string, Host>, reply: map<string, Host>)
    requires HonestReply(pending, reply)
    ensures Combined(registered, pending + reply) == Combined(registered, pending) + OnlineOnes(reply)
  {
    SameMap(Combined(registered, pending + reply), Combined(registered, pending) + OnlineOnes(reply));
  }

  /** Moving the ONLINE entries over changes nothing in effect, because OFFLINE entries are not registered. */
  lemma DrainRefines(registered: map<string, Host>, pending: map<string, Host>)
    requires QueueInv(registered, pending)
    ensures registered + OnlineOnes(pending) == Combined(registered, pending)
    ensures Combined(registered + OnlineOnes(pending), map[]) == Combined(registered, pending)
  {
    SameMap(registered + OnlineOnes(pending), Combined(registered, pending));
    SameMap(Combined(registered + OnlineOnes(pending), map[]), registered + OnlineOnes(pending));
  }

  lemma FlushRefines(m: Manager, reply: map<string, Host>)
    requires Inv(m) && Honest(m, reply)
    ensures DoFlush(m, reply).registered == Effective(DoFlush(m, reply)) == Effective(m) + OnlineOnes(reply)
  {
    QueueAfterReply(m.registered, m.pending, reply);
    ReplyRefines(m.registered, m.pending, reply);
    DrainRefines(m.registered, m.pending + reply);
  }

  lemma RegistersImmediately(m: Manager, op: Op)
    requires op.RegisterHandle? || op.RegisterInterface?
    ensures Effective(Apply(m, op)) == Immediate(m, op)
  {
    var (n, h) :=
      match op
      case RegisterHandle(h) => (h.componentName, Announced(h))
      case RegisterInterface(i, info) => (i.serviceName, InterfaceInfo(i, info));
    assert Apply(m, op).registered == m.registered;
    assert Apply(m, op).pending == if n in m.pending then m.pending else m.pending[n := h];
    RegisterRefines(m.registered, m.pending, n, h);
  }

  lemma RemovesImmediately(m: Manager, name: string)
    requires Inv(m)
    ensures Effective(DoRemove(m, name)) == if Removes(m, name) then Effective(m) - {name} else Effective(m)
  {
    if name in m.registered {
      var m' := DoRemove(m, name);
      assert m'.registered == m.registered - {name};
      assert m'.pending ==
             if name in m.pending then m.pending else m.pending[name := m.registered[name].(status := Offline)];
      RemoveRefines(m.registered, m.pending, name);
    }
  }

  /** The pending/registered pair behaves as the immediate set; a flush makes the registered side equal to it. */
  lemma RefinesImmediateSet(m: Manager, op: Op)
    requires Inv(m) && Legal(m, op)
    ensures Effective(Apply(m, op)) == Immediate(m, op)
    ensures op.Flush? || op.Round? ==> Apply(m, op).registered == Immediate(m, op) && Apply(m, op).pending == map[]
  {
    match op
    case RegisterHandle(_) => RegistersImmediately(m, op);
    case RegisterInterface(_, _) => RegistersImmediately(m, op);
    case Remove(name) => RemovesImmediately(m, name);
    case Subscribe(_) =>
    case Flush(reply) => FlushRefines(m, reply);
    case FlushFails(partial) => ReplyRefines(m.registered, m.pending, partial);
    case Round(reply, current) => FlushRefines(m, reply);
  }

  // ---------------------------------------------------------------------------------------------------------
  // Runs, and the assertions no run makes fail
  // ---------------------------------------------------------------------------------------------------------

  predicate Init(m: Manager) {
    m == EMPTY
  }

  ghost predicate Step(m: Manager, op: Op, m': Manager) {
    Legal(m, op) && m' == Apply(m, op)
  }

  ghost predicate Run(states: seq<Manager>, ops: seq<Op>) {
    IsRun(Init, Step, states, ops)
  }

  lemma RunInv(states: seq<Manager>, ops: seq<Op>, n: nat)
    requires Run(states, ops) && n < |states|
    ensures Inv(states[n])
  {
    assert Inductive(Init, Step, Inv) by {
      forall m, op, m' | Inv(m) && Step(m, op, m') ensures Inv(m') { InvKept(m, op); }
    }
    InductiveHolds(Init, Step, Inv, states, ops, n);
  }

  /** In every run, a flush never finds a removed service still registered, a removal never finds the subscriber index
      without the service it removes, and subscribed information is always about something subscribed to. */
  lemma QueueAssertionsNeverFail(states: seq<Manager>, ops: seq<Op>, n: nat, reply: map<string, Host>, name: string)
    requires Run(states, ops) && n < |states| && Honest(states[n], reply)
    ensures FlushAsserts(states[n], reply)
    ensures RemoveAsserts(states[n], name)
    ensures SubscribeAsserts(states[n], name)
  {
    RunInv(states, ops, n);
    var m := states[n];
    QueueAfterReply(m.registered, m.pending, reply);
  }

  // ---------------------------------------------------------------------------------------------------------
  // The subscriber index
  // ---------------------------------------------------------------------------------------------------------

  /** An ONLINE reply about a name that has a subscribing interface is about a proxy or subscriber. */
  predicate KeepsSubscribers(m: Manager, reply: map<string, Host>) {
    forall n | n in reply && reply[n].status == Online && n in m.interfaces && Subscribes(m.interfaces[n].kind) ::
      Subscribes(reply[n].description)
  }

  /** An accepted registration of a name that has a subscribing interface keeps its type and connected-to name, and so
      does the server. */
  predicate Fair(m: Manager, op: Op) {
    match op
    case RegisterHandle(h) =>
      var n := h.componentName;
      n !in m.pending && n in m.interfaces && Subscribes(m.interfaces[n].kind) ==> Subscribes(h.description)
    case RegisterInterface(i, _) =>
      var n := i.serviceName;
      n !in m.pending && n in m.interfaces && Subscribes(m.interfaces[n].kind) ==>
        Subscribes(i.kind) && i.connectedTo == m.interfaces[n].connectedTo
    case Flush(reply) => KeepsSubscribers(m, reply)
    case FlushFails(partial) => KeepsSubscribers(m, partial)
    case Round(reply, _) => KeepsSubscribers(m, reply)
    case _ => true
  }

  /** What Indexed asks of one entry. */
  predicate Entry(interfaces: map<string, Interface>, effective: map<string, Host>, s: string, n: string) {
    && n in interfaces && Subscribes(interfaces[n].kind) && interfaces[n].connectedTo == s
    && n in effective && Subscribes(effective[n].description)
  }

  lemma SubscribersAfter(m: Manager, op: Op, s: string)
    ensures SubscribersOf(Apply(m, op), s) ==
              match op
              case RegisterInterface(i, _) =>
                if i.serviceName !in m.pending && Subscribes(i.kind) && s == i.connectedTo
                then SubscribersOf(m, s) + {i.serviceName} else SubscribersOf(m, s)
              case Remove(n) =>
                if Removes(m, n) && n in m.interfaces && Subscribes(m.interfaces[n].kind)
                   && s == m.interfaces[n].connectedTo
                then SubscribersOf(m, s) - {n} else SubscribersOf(m, s)
              case _ => SubscribersOf(m, s)
  {
  }

  lemma InterfacesAfter(m: Manager, op: Op)
    ensures Apply(m, op).interfaces ==
              match op
              case RegisterInterface(i, _) =>
                if i.serviceName in m.pending then m.interfaces else m.interfaces[i.serviceName := i]
              case Remove(n) =>
                if Removes(m, n) && n in m.interfaces
                   && (Subscribes(m.interfaces[n].kind) || Serves(m.interfaces[n].kind))
                then m.interfaces - {n} else m.interfaces
              case _ => m.interfaces
  {
  }

  lemma EntryKept(m: Manager, op: Op, s: string, n: string)
    requires Inv(m) && Legal(m, op) && Indexed(m) && Fair(m, op) && n in SubscribersOf(Apply(m, op), s)
    ensures Entry(Apply(m, op).interfaces, Immediate(m, op), s, n)
  {
    SubscribersAfter(m, op, s);
    InterfacesAfter(m, op);
    if n in SubscribersOf(m, s) { assert Entry(m.interfaces, Effective(m), s, n); }
  }

  lemma UnfairBreaks(m: Manager, op: Op)
    requires Inv(m) && Legal(m, op) && Indexed(m) && !Fair(m, op)
    ensures !Indexed(Apply(m, op))
  {
    if op.RegisterHandle? || op.RegisterInterface? {
      UnfairRegisterBreaks(m, op);
    } else {
      UnfairReplyBreaks(m, op, if op.FlushFails? then op.partial else op.reply);
    }
  }

  lemma UnfairReplyBreaks(m: Manager, op: Op, reply: map<string, Host>)
    requires Inv(m) && Legal(m, op) && Indexed(m) && !KeepsSubscribers(m, reply)
    requires op == Flush(reply) || op == FlushFails(reply) || (op.Round? && op.reply == reply)
    ensures !Indexed(Apply(m, op))
  {
    var n :| n in reply && reply[n].status == Online && n in m.interfaces && Subscribes(m.interfaces[n].kind)
             && !Subscribes(reply[n].description);
    var s := m.interfaces[n].connectedTo;
    RefinesImmediateSet(m, op);
    assert n in SubscribersOf(m, s);
    SubscribersAfter(m, op, s);
    assert !Entry(Apply(m, op).interfaces, Immediate(m, op), s, n);
  }

  lemma UnfairRegisterBreaks(m: Manager, op: Op)
    requires Inv(m) && Legal(m, op) && Indexed(m) && !Fair(m, op) && (op.RegisterHandle? || op.RegisterInterface?)
    ensures !Indexed(Apply(m, op))
  {
    var n := if op.RegisterHandle? then op.h.componentName else op.i.serviceName;
    var s := m.interfaces[n].connectedTo;
    assert n in SubscribersOf(m, s);
    SubscribersAfter(m, op, s);
    InterfacesAfter(m, op);
    RegistersImmediately(m, op);
    assert n in SubscribersOf(Apply(m, op), s);
    assert !Entry(Apply(m, op).interfaces, Effective(Apply(m, op)), s, n);
  }

  /** An operation keeps the subscriber index exact if and only if it is fair. */
  lemma IndexKeptExactly(m: Manager, op: Op)
    requires Inv(m) && Legal(m, op) && Indexed(m)
    ensures Indexed(Apply(m, op)) <==> Fair(m, op)
  {
    if Fair(m, op) {
      RefinesImmediateSet(m, op);
      forall s, n | n in SubscribersOf(Apply(m, op), s)
        ensures Entry(Apply(m, op).interfaces, Effective(Apply(m, op)), s, n)
      {
        EntryKept(m, op, s, n);
      }
    } else {
      UnfairBreaks(m, op);
    }
  }

  ghost predicate FairStep(m: Manager, op: Op, m': Manager) {
    Step(m, op, m') && Fair(m, op)
  }

  ghost predicate FairInv(m: Manager) {
    Inv(m) && Indexed(m)
  }

  lemma FairRunInv(states: seq<Manager>, ops: seq<Op>, n: nat)
    requires IsRun(Init, FairStep, states, ops) && n < |states|
    ensures FairInv(states[n])
  {
    assert Inductive(Init, FairStep, FairInv) by {
      forall m, op, m' | FairInv(m) && FairStep(m, op, m') ensures FairInv(m') {
        InvKept(m, op);
        IndexKeptExactly(m, op);
      }
    }
    InductiveHolds(Init, FairStep, FairInv, states, ops, n);
  }

  /** In fair runs every name in the subscriber index is registered or pending-ONLINE. */
  lemma SubscribersAreInEffect(states: seq<Manager>, ops: seq<Op>, n: nat, s: string, name: string)
    requires IsRun(Init, FairStep, states, ops) && n < |states| && name in SubscribersOf(states[n], s)
    ensures name in Effective(states[n])
  {
    FairRunInv(states, ops, n);
  }

  /** ... so when a round of the service thread, having flushed, reaches the change check, every subscriber it looks up
      is registered as a proxy or subscriber. */
  lemma ChangeCheckFindsSubscribers(states: seq<Manager>, ops: seq<Op>, n: nat)
    requires IsRun(Init, FairStep, states, ops) && n < |ops| && ops[n].Round?
    ensures SubscriberAsserts(DoFlush(states[n], ops[n].reply), ops[n].current)
  {
    FairRunInv(states, ops, n);
    assert FairStep(states[n], ops[n], states[n + 1]);
    IndexKeptExactly(states[n], Flush(ops[n].reply));
    FlushRefines(states[n], ops[n].reply);
    var f := DoFlush(states[n], ops[n].reply);
    assert Indexed(f) && f.registered == Effective(f);
  }

  /** In fair runs the change check passes exactly if, of the services that moved, those with a subscriber to be bound
      anew are stubs and these subscribers proxies. */
  lemma FairRoundPassesExactly(states: seq<Manager>, ops: seq<Op>, n: nat)
    requires IsRun(Init, FairStep, states, ops) && n < |ops| && ops[n].Round?
    ensures var f, current := DoFlush(states[n], ops[n].reply), ops[n].current;
            ChangeAsserts(f, current) <==> RebindAsserts(f, current)
  {
    ChangeCheckFindsSubscribers(states, ops, n);
    AssertsSplit(DoFlush(states[n], ops[n].reply), ops[n].current);
  }

  lemma AssertsSplit(m: Manager, current: map<string, Host>)
    ensures ChangeAsserts(m, current) <==> SubscriberAsserts(m, current) && RebindAsserts(m, current)
  {
    if ChangeAsserts(m, current) {
      forall s, n | Reaches(m, current, s, n) ensures n in m.registered && Subscribes(m.registered[n].description) {
        assert Passes(m, current, s, n);
      }
      forall s, n | Rebinds(m, current, s, n)
        ensures n in m.registered && m.registered[n].description == Proxy && current[s].description == Stub
      {
        assert Passes(m, current, s, n);
      }
    }
  }

  /** The change check of the service s that found m then, whatever it has been told, would fail. */
  ghost predicate CheckFails(m: Manager, s: string) {
    forall current: map<string, Host> |
      s in current && s in m.subscribed && current[s].status != Offline && current[s].componentName == s ::
      !SubscriberAsserts(DoFlush(m, map[]), current)
  }

  lemma MissingSubscriber(m: Manager, s: string, n: string)
    requires Inv(m) && n in SubscribersOf(m, s)
    requires n in Effective(m) ==> !Subscribes(Effective(m)[n].description)
    ensures CheckFails(m, s)
  {
    FlushRefines(m, map[]);
    var f := DoFlush(m, map[]);
    assert f.registered == Effective(m) + OnlineOnes(map[]) == Effective(m);
    forall current: map<string, Host> |
      s in current && s in m.subscribed && current[s].status != Offline && current[s].componentName == s
      ensures !SubscriberAsserts(f, current)
    {
      assert Reaches(f, current, s, n);
    }
  }

  /** An unfair operation other than registering a subscribing interface announces one of the subscribers as something
      else, and the next change check of its service makes the assertion fail. */
  lemma UnfairFailsAtOnce(m: Manager, op: Op) returns (n: string)
    requires FairInv(m) && Legal(m, op) && !Fair(m, op) && !(op.RegisterInterface? && Subscribes(op.i.kind))
    ensures n in m.interfaces && Subscribes(m.interfaces[n].kind)
    ensures CheckFails(Apply(m, op), m.interfaces[n].connectedTo)
  {
    n := UnfairlyAnnounced(m, op);
    InvKept(m, op);
    MissingSubscriber(Apply(m, op), m.interfaces[n].connectedTo, n);
  }

  lemma UnfairlyAnnounced(m: Manager, op: Op) returns (n: string)
    requires FairInv(m) && Legal(m, op) && !Fair(m, op) && !(op.RegisterInterface? && Subscribes(op.i.kind))
    ensures n in m.interfaces && Subscribes(m.interfaces[n].kind)
    ensures n in SubscribersOf(Apply(m, op), m.interfaces[n].connectedTo)
    ensures n in Effective(Apply(m, op)) && !Subscribes(Effective(Apply(m, op))[n].description)
  {
    if op.RegisterHandle? {
      n := op.h.componentName;
    } else if op.RegisterInterface? {
      n := op.i.serviceName;
    } else {
      var reply := if op.FlushFails? then op.partial else op.reply;
      n :| n in reply && reply[n].status == Online && n in m.interfaces && Subscribes(m.interfaces[n].kind)
           && !Subscribes(reply[n].description);
    }
    RefinesImmediateSet(m, op);
    SubscribersAfter(m, op, m.interfaces[n].connectedTo);
  }

  /** What registering a subscribing interface unfairly leads to, or one that serves: once the service is flushed and
      removed, the old index entry is orphaned, and the next change check of that service fails. */
  lemma UnfairOrphansSubscriber(m: Manager, i: Interface, info: Host)
    requires FairInv(m) && Legal(m, RegisterInterface(i, info)) && !Fair(m, RegisterInterface(i, info))
    requires Subscribes(i.kind) || Serves(i.kind)
    ensures var n, s := i.serviceName, m.interfaces[i.serviceName].connectedTo;
            var removed := Apply(Apply(Apply(m, RegisterInterface(i, info)), Flush(map[])), Remove(n));
            n in SubscribersOf(removed, s) && n !in Effective(removed) && CheckFails(removed, s)
  {
    var n, s := i.serviceName, m.interfaces[i.serviceName].connectedTo;
    var m1 := Apply(m, RegisterInterface(i, info));
    var m2 := Apply(m1, Flush(map[]));
    var m3 := Apply(m2, Remove(n));
    assert n in SubscribersOf(m, s);
    SubscribersAfter(m, RegisterInterface(i, info), s);
    SubscribersAfter(m1, Flush(map[]), s);
    SubscribersAfter(m2, Remove(n), s);
    InterfacesAfter(m, RegisterInterface(i, info));
    InvKept(m, RegisterInterface(i, info));
    InvKept(m1, Flush(map[]));
    InvKept(m2, Remove(n));
    RefinesImmediateSet(m, RegisterInterface(i, info));
    RefinesImmediateSet(m1, Flush(map[]));
    assert Removes(m2, n);
    RemovesImmediately(m2, n);
    MissingSubscriber(m3, s, n);
  }

  lemma Extend(states: seq<Manager>, ops: seq<Op>, op: Op) returns (states': seq<Manager>, ops': seq<Op>)
    requires Run(states, ops) && Legal(states[|ops|], op)
    ensures Run(states', ops') && ops' == ops + [op] && states'[|ops'|] == Apply(states[|ops|], op)
  {
    states', ops' := states + [Apply(states[|ops|], op)], ops + [op];
    forall i | 0 <= i < |ops'| ensures Step(states'[i], ops'[i], states'[i + 1]) {
      if i < |ops| { assert Step(states[i], ops[i], states[i + 1]); }
    }
  }

  /** The first half of such a run: p is a proxy to A, and both are known to the service thread. */
  lemma ProxyAnnounced(toA: Interface, info: Host, current: map<string, Host>)
    returns (states: seq<Manager>, ops: seq<Op>)
    requires toA == Interface("p", Proxy, "A") && current == map["A" := Host("A", "", Online, Stub, "h", "")]
    ensures Run(states, ops)
    ensures var m := states[|ops|];
            && FairInv(m) && "p" !in m.pending && "p" in m.interfaces && m.interfaces["p"] == toA
            && m.subscribed == current && "A" in m.subscriptions
  {
    var op1, op2 := RegisterInterface(toA, info), Round(map[], current);
    states, ops := [EMPTY], [];
    InvKept(EMPTY, op1);
    IndexKeptExactly(EMPTY, op1);
    states, ops := Extend(states, ops, op1);
    var m1 := states[|ops|];
    assert m1.subscriptions == {"A"} && m1.interfaces == map["p" := toA];
    InvKept(m1, op2);
    IndexKeptExactly(m1, op2);
    states, ops := Extend(states, ops, op2);
  }

  /** Then p is registered again as a proxy to B, announced and removed. The next change check of A fails. */
  lemma UnfairRunFails() returns (states: seq<Manager>, ops: seq<Op>, current: map<string, Host>)
    ensures Run(states, ops) && Legal(states[|ops|], Round(map[], current))
    ensures !ChangeAsserts(DoFlush(states[|ops|], map[]), current)
  {
    var info := Host("", "", Online, OtherDescription, "", "");
    var op := RegisterInterface(Interface("p", Proxy, "B"), info);
    current := map["A" := Host("A", "", Online, Stub, "h", "")];
    states, ops := ProxyAnnounced(Interface("p", Proxy, "A"), info, current);
    var m := states[|ops|];
    UnfairOrphansSubscriber(m, op.i, info);
    StillSubscribed(m, op);
    states, ops := Extend(states, ops, op);
    StillSubscribed(states[|ops|], Flush(map[]));
    states, ops := Extend(states, ops, Flush(map[]));
    StillSubscribed(states[|ops|], Remove("p"));
    states, ops := Extend(states, ops, Remove("p"));
    AssertsSplit(DoFlush(states[|ops|], map[]), current);
  }

  lemma StillSubscribed(m: Manager, op: Op)
    requires !op.Round?
    ensures Apply(m, op).subscribed == m.subscribed && m.subscriptions <= Apply(m, op).subscriptions
  {
  }

  // ---------------------------------------------------------------------------------------------------------
  // The class
  // ---------------------------------------------------------------------------------------------------------

  function OnlineAmong(p: map<string, Host>, done: set<string>): map<string, Host> {
    map n | n in p && n in done && p[n].status == Online :: p[n]
  }

  /** One turn of the flush loop: what the assertions need of the entry, and what it adds to the registered map. */
  lemma RecordTurn(registered: map<string, Host>, p: map<string, Host>, done: set<string>, n: string)
    requires QueueInv(registered, p) && n in p && n !in done
    ensures n != "" && p[n].componentName == n && p[n].status != NoOnlineStatus
    ensures p[n].status == Offline ==> n !in registered + OnlineAmong(p, done)
    ensures registered + OnlineAmong(p, done + {n}) ==
              if p[n].status == Online then (registered + OnlineAmong(p, done))[n := p[n]]
              else registered + OnlineAmong(p, done)
  {
    if p[n].status == Online {
      SameMap(registered + OnlineAmong(p, done + {n}), (registered + OnlineAmong(p, done))[n := p[n]]);
    } else {
      SameMap(OnlineAmong(p, done + {n}), OnlineAmong(p, done));
    }
  }

  lemma FlushKeeps(m: Manager, reply: map<string, Host>)
    requires Inv(m) && Honest(m, reply)
    ensures Inv(DoFlush(m, reply)) && QueueInv(m.registered, m.pending + reply)
    ensures DoFlush(m, reply).registered == Immediate(m, Flush(reply))
    ensures m.pending == map[] ==> DoFlush(m, reply) == m
  {
    InvKept(m, Flush(reply));
    FlushRefines(m, reply);
    QueueAfterReply(m.registered, m.pending, reply);
    if m.pending == map[] { assert m.registered + OnlineOnes(m.pending + reply) == m.registered; }
  }

  class ServiceConnectionManager {
    var mapServicesToRegisterOrRemove: map<string, Host>
    var mapRegisteredServices: map<string, Host>
    var mapSubscribedServices: map<string, Host>
    var setSubscribedServices: set<string>
    var mapServiceToSubscribers: map<string, set<string>>
    var mapServiceToInterface: map<string, Interface>

    function State(): Manager
      reads this
    {
      Manager(mapServicesToRegisterOrRemove, mapRegisteredServices, mapSubscribedServices, setSubscribedServices,
              mapServiceToSubscribers, mapServiceToInterface)
    }

    constructor ()
      ensures State() == EMPTY
    {
      mapServicesToRegisterOrRemove, mapRegisteredServices, mapSubscribedServices := map[], map[], map[];
      setSubscribedServices, mapServiceToSubscribers, mapServiceToInterface := {}, map[], map[];
    }

    method RegisterServiceHandle(h: Host) returns (accepted: bool)
      requires h.componentName != ""
      modifies this
      ensures State() == Apply(old(State()), RegisterHandle(h))
      ensures accepted == (h.componentName !in old(mapServicesToRegisterOrRemove))
    {
      if h.componentName in mapServicesToRegisterOrRemove {
        return false;
      }
      mapServicesToRegisterOrRemove := mapServicesToRegisterOrRemove[h.componentName := h.(status := Online)];
      accepted := true;
    }

    method RegisterServiceInterface(i: Interface, info: Host) returns (accepted: bool)
      requires Legal(State(), RegisterInterface(i, info))
      modifies this
      ensures State() == Apply(old(State()), RegisterInterface(i, info))
      ensures accepted == (i.serviceName !in old(mapServicesToRegisterOrRemove))
    {
      if i.serviceName in mapServicesToRegisterOrRemove {
        return false;
      }
      mapServiceToInterface := mapServiceToInterface[i.serviceName := i];
      mapServicesToRegisterOrRemove := mapServicesToRegisterOrRemove[i.serviceName := InterfaceInfo(i, info)];
      if i.kind.Proxy? || i.kind.Subscriber? {
        setSubscribedServices := setSubscribedServices + {i.connectedTo};
        var subscribers := SubscribersOf(State(), i.connectedTo) + {i.serviceName};
        mapServiceToSubscribers := mapServiceToSubscribers[i.connectedTo := subscribers];
      }
      accepted := true;
    }

    method RemoveService(serviceName: string) returns (removed: bool)
      requires Inv(State())
      modifies this
      ensures State() == Apply(old(State()), Remove(serviceName)) && Inv(State())
      ensures removed == Removes(old(State()), serviceName)
      ensures Effective(State()) == if removed then old(Effective(State())) - {serviceName} else old(Effective(State()))
    {
      InvKept(State(), Remove(serviceName));
      RemovesImmediately(State(), serviceName);
      if serviceName == "" || serviceName !in mapRegisteredServices {
        return false;
      }
      var info := mapRegisteredServices[serviceName];
      mapRegisteredServices := mapRegisteredServices - {serviceName};
      if info.componentName in mapServicesToRegisterOrRemove {
        return false;
      }
      RemoveInterface(serviceName);
      mapServicesToRegisterOrRemove := mapServicesToRegisterOrRemove[serviceName := info.(status := Offline)];
      removed := true;
    }

    /** The part of RemoveService about the interface, with its assertions. */
    method RemoveInterface(serviceName: string)
      requires InterfaceInv(mapServiceToInterface, mapServiceToSubscribers)
      modifies this`mapServiceToInterface, this`mapServiceToSubscribers
      ensures State() == DropInterface(old(State()), serviceName)
    {
      if serviceName in mapServiceToInterface {
        var inetInterface := mapServiceToInterface[serviceName];
        assert inetInterface.serviceName == serviceName;
        if Subscribes(inetInterface.kind) {
          assert inetInterface.connectedTo in mapServiceToSubscribers;
          assert inetInterface.serviceName in mapServiceToSubscribers[inetInterface.connectedTo];
          mapServiceToInterface := mapServiceToInterface - {serviceName};
          var subscribers := mapServiceToSubscribers[inetInterface.connectedTo] - {inetInterface.serviceName};
          mapServiceToSubscribers := mapServiceToSubscribers[inetInterface.connectedTo := subscribers];
        } else if Serves(inetInterface.kind) {
          mapServiceToInterface := mapServiceToInterface - {serviceName};
        }
      }
    }

    /** The flush, given the server's reply: the loop over the queue, with its assertions. */
    method ServiceRegistration(reply: map<string, Host>) returns (flushed: bool)
      requires Inv(State()) && Honest(State(), reply)
      modifies this
      ensures State() == Apply(old(State()), Flush(reply)) && Inv(State())
      ensures mapRegisteredServices == Immediate(old(State()), Flush(reply)) && mapServicesToRegisterOrRemove == map[]
      ensures flushed == (old(mapServicesToRegisterOrRemove) != map[])
    {
      FlushKeeps(State(), reply);
      flushed := Drain(reply);
    }

    method Drain(reply: map<string, Host>) returns (flushed: bool)
      requires QueueInv(mapRegisteredServices, mapServicesToRegisterOrRemove + reply)
      requires mapServicesToRegisterOrRemove == map[] ==> DoFlush(State(), reply) == State()
      modifies this`mapRegisteredServices, this`mapServicesToRegisterOrRemove
      ensures State() == DoFlush(old(State()), reply) && flushed == (old(mapServicesToRegisterOrRemove) != map[])
    {
      flushed := mapServicesToRegisterOrRemove != map[];
      if flushed {
        mapServicesToRegisterOrRemove := mapServicesToRegisterOrRemove + reply;
        RecordReply(mapRegisteredServices);
        mapServicesToRegisterOrRemove := map[];
      }
    }

    /** The loop of serviceRegistration over the queue the reply came back in. */
    method RecordReply(ghost registered: map<string, Host>)
      requires QueueInv(registered, mapServicesToRegisterOrRemove) && mapRegisteredServices == registered
      modifies this`mapRegisteredServices
      ensures mapRegisteredServices == registered + OnlineOnes(mapServicesToRegisterOrRemove)
    {
      var queue := mapServicesToRegisterOrRemove;
      var rest := queue.Keys;
      ghost var done: set<string> := {};
      while rest != {}
        invariant done + rest == queue.Keys && done !! rest
        invariant mapRegisteredServices == registered + OnlineAmong(queue, done)
      {
        var serviceName :| serviceName in rest;
        var serviceInfo := queue[serviceName];
        RecordTurn(registered, queue, done, serviceName);
        assert serviceInfo.componentName != "" && serviceName == serviceInfo.componentName;
        if serviceInfo.status == Online {
          mapRegisteredServices := mapRegisteredServices[serviceName := serviceInfo];
        } else {
          assert serviceInfo.status == Offline;
          assert serviceName !in mapRegisteredServices;
        }
        done, rest := done + {serviceName}, rest - {serviceName};
      }
      assert done == queue.Keys;
    }

    /** SubscribeService(serviceName, ..., wait = false), with its assertion; answers whether the service is known. */
    method SubscribeService(serviceName: string) returns (info: Option<Host>)
      requires Inv(State())
      modifies this`setSubscribedServices
      ensures State() == Apply(old(State()), Subscribe(serviceName)) && Inv(State())
      ensures info == if serviceName in mapSubscribedServices then Some(mapSubscribedServices[serviceName]) else None
    {
      if serviceName in mapSubscribedServices {
        assert serviceName in setSubscribedServices;
        return Some(mapSubscribedServices[serviceName]);
      }
      if serviceName !in setSubscribedServices {
        setSubscribedServices := setSubscribedServices + {serviceName};
      }
      info := None;
    }

    /** serviceRegistration when the call throws after the reply has been read in part. */
    method ServiceRegistrationFails(partial: map<string, Host>)
      requires Inv(State()) && Honest(State(), partial)
      modifies this`mapServicesToRegisterOrRemove
      ensures State() == Apply(old(State()), FlushFails(partial)) && Inv(State())
      ensures Effective(State()) == Immediate(old(State()), FlushFails(partial))
    {
      InvKept(State(), FlushFails(partial));
      RefinesImmediateSet(State(), FlushFails(partial));
      mapServicesToRegisterOrRemove := mapServicesToRegisterOrRemove + partial;
    }

    /** One round of run: the flush, AliveChecker answered with `current`, the change check. It ends in an assertion
        that fails, or with the new information in place. */
    method Round(reply: map<string, Host>, current: map<string, Host>) returns (ok: bool, rebind: set<(string, string)>)
      requires Inv(State()) && Legal(State(), Op.Round(reply, current))
      modifies this
      ensures Inv(State()) && (ok <==> ChangeAsserts(DoFlush(old(State()), reply), current))
      ensures State() == if ok then Apply(old(State()), Op.Round(reply, current)) else DoFlush(old(State()), reply)
      ensures ok ==> forall s, n :: (s, n) in rebind <==> Rebinds(DoFlush(old(State()), reply), current, s, n)
    {
      InvKept(State(), Op.Round(reply, current));
      var flushed := ServiceRegistration(reply);
      ok, rebind := CheckSubscribedServiceInformationForChanges(current);
      if ok {
        mapSubscribedServices := current;
      }
    }

    /** The change check: ok if no assertion in it fails, and then the subscribers bound anew, as (service, subscriber)
        pairs. */
    method CheckSubscribedServiceInformationForChanges(current: map<string, Host>)
      returns (ok: bool, rebind: set<(string, string)>)
      requires forall s | s in current :: current[s].componentName != ""
      ensures ok <==> ChangeAsserts(State(), current)
      ensures ok ==> forall s, n :: (s, n) in rebind <==> Rebinds(State(), current, s, n)
    {
      ok, rebind := true, {};
      var rest := current.Keys;
      while rest != {}
        invariant ok && rest <= current.Keys
        invariant forall s, n | s !in rest :: Passes(State(), current, s, n)
        invariant forall s, n :: (s, n) in rebind <==> s !in rest && Rebinds(State(), current, s, n)
      {
        var s :| s in rest;
        rest := rest - {s};
        if s in mapSubscribedServices && current[s].status != Offline {
          var found;
          ok, found := UpdateSubscribersToServices(current, s);
          if !ok {
            return;
          }
          rebind := rebind + found;
        }
      }
    }

    method UpdateSubscribersToServices(current: map<string, Host>, s: string)
      returns (ok: bool, rebind: set<(string, string)>)
      requires s in current && s in mapSubscribedServices && current[s].status != Offline
      requires current[s].componentName != ""
      ensures ok <==> forall n :: Passes(State(), current, s, n)
      ensures ok ==> forall t, n :: (t, n) in rebind <==> t == s && Rebinds(State(), current, s, n)
    {
      var service, known := current[s], mapSubscribedServices[s];
      assert service.componentName != "";
      ok, rebind := true, {};
      if service.componentName !in mapServiceToSubscribers {
        return;
      }
      var rest := mapServiceToSubscribers[service.componentName];
      while rest != {}
        invariant ok && rest <= SubscribersOf(State(), service.componentName)
        invariant forall n | n !in rest :: Passes(State(), current, s, n)
        invariant forall t, n :: (t, n) in rebind <==> t == s && n !in rest && Rebinds(State(), current, s, n)
      {
        var n :| n in rest;
        rest := rest - {n};
        assert Reaches(State(), current, s, n);
        if n !in mapRegisteredServices || !Subscribes(mapRegisteredServices[n].description) {
          assert !Passes(State(), current, s, n);
          return false, rebind;
        }
        if service.handle != known.handle && n in mapServiceToInterface {
          assert Rebinds(State(), current, s, n);
          if mapRegisteredServices[n].description != Proxy || service.description != Stub {
            assert !Passes(State(), current, s, n);
            return false, rebind;
          }
          rebind := rebind + {(s, n)};
        }
      }
    }
  }
}
