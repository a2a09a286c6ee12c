/** What the maps of ServiceConnectionManager hold, in terms of the calls made and of what they answered, and what that
    says about the assertions that can fail: those of the change check and of SubscribeService(INetInterface*). */
module ServiceHistory {
  import opened HostInformation
  import opened Runs
  import opened ServiceConnectionManager

  // ---------------------------------------------------------------------------------------------------------
  // The interfaces
  // ---------------------------------------------------------------------------------------------------------

  /** Call number b registered an interface under the name n. */
  predicate Accepts(states: seq<Manager>, ops: seq<Op>, b: nat, n: string)
    requires b < |ops| < |states|
  {
    ops[b].RegisterInterface? && ops[b].i.serviceName == n && n !in states[b].pending
  }

  /** Call number b removed the service n, which has an interface of that kind, and answered true. */
  predicate Drops(states: seq<Manager>, ops: seq<Op>, b: nat, n: string, kind: Description)
    requires b < |ops| < |states|
  {
    ops[b] == Remove(n) && Removes(states[b], n) && kind in {Proxy, Subscriber, Stub, Publisher}
  }

  /** Call number a was the last before k to register an interface under n, and no removal has dropped it since. */
  predicate LastRegistered(states: seq<Manager>, ops: seq<Op>, a: nat, k: nat, n: string)
    requires a < k <= |ops| < |states|
  {
    && Accepts(states, ops, a, n)
    && forall b | a < b < k :: !Accepts(states, ops, b, n) && !Drops(states, ops, b, n, ops[a].i.kind)
  }

  ghost predicate HasRegistered(states: seq<Manager>, ops: seq<Op>, k: nat, n: string)
    requires k <= |ops| < |states|
  {
    exists a: nat :: a < k && LastRegistered(states, ops, a, k, n)
  }

  /** The interface map is the history of the calls. */
  lemma {:induction false} InterfacesAreHistory(states: seq<Manager>, ops: seq<Op>, k: nat, n: string)
    requires Run(states, ops) && k <= |ops|
    ensures n in states[k].interfaces <==> HasRegistered(states, ops, k, n)
    ensures forall a: nat | a < k && LastRegistered(states, ops, a, k, n) ::
              n in states[k].interfaces && states[k].interfaces[n] == ops[a].i
    decreases k
  {
    if k > 0 {
      InterfacesAreHistory(states, ops, k - 1, n);
      assert Step(states[k - 1], ops[k - 1], states[k - 1 + 1]);
      InterfacesAfter(states[k - 1], ops[k - 1]);
      HistoryStep(states, ops, k, n);
    }
  }

  lemma HistoryStep(states: seq<Manager>, ops: seq<Op>, k: nat, n: string)
    requires Run(states, ops) && 0 < k <= |ops|
    requires n in states[k - 1].interfaces <==> HasRegistered(states, ops, k - 1, n)
    requires forall a: nat | a < k - 1 && LastRegistered(states, ops, a, k - 1, n) ::
               n in states[k - 1].interfaces && states[k - 1].interfaces[n] == ops[a].i
    requires states[k].interfaces == Apply(states[k - 1], ops[k - 1]).interfaces
    ensures n in states[k].interfaces <==> HasRegistered(states, ops, k, n)
    ensures forall a: nat | a < k && LastRegistered(states, ops, a, k, n) ::
              n in states[k].interfaces && states[k].interfaces[n] == ops[a].i
  {
    InterfacesAfter(states[k - 1], ops[k - 1]);
    if Accepts(states, ops, k - 1, n) {
      assert LastRegistered(states, ops, k - 1, k, n);
    } else {
      forall a: nat | a < k
        ensures LastRegistered(states, ops, a, k, n) <==>
                  a < k - 1 && LastRegistered(states, ops, a, k - 1, n) && !Drops(states, ops, k - 1, n, ops[a].i.kind)
      {
      }
    }
  }

  // ---------------------------------------------------------------------------------------------------------
  // The subscriber index
  // ---------------------------------------------------------------------------------------------------------

  predicate IsProxy(d: Description) {
    d == Proxy
  }

  predicate IsSubscribing(d: Description) {
    d == Proxy || d == Subscriber
  }

  /** Call number a registered an interface that puts n down as a subscriber of s. */
  predicate PutsDown(states: seq<Manager>, ops: seq<Op>, a: nat, n: string, s: string)
    requires a < |ops| < |states|
  {
    Accepts(states, ops, a, n) && IsSubscribing(ops[a].i.kind) && ops[a].i.connectedTo == s
  }

  /** Call number b removed the service n and answered true. */
  predicate Withdraws(states: seq<Manager>, ops: seq<Op>, b: nat, n: string)
    requires b < |ops| < |states|
  {
    ops[b] == Remove(n) && Removes(states[b], n)
  }

  /** ... and the interface that n had then was a subscriber of s. */
  ghost predicate TakesOff(states: seq<Manager>, ops: seq<Op>, b: nat, n: string, s: string)
    requires b < |ops| < |states|
  {
    && Withdraws(states, ops, b, n)
    && exists a: nat :: a < b && LastRegistered(states, ops, a, b, n) && PutsDown(states, ops, a, n, s)
  }

  /** Before step k some call has put n down as a subscriber of s, and none has taken it off since. */
  ghost predicate IsDown(states: seq<Manager>, ops: seq<Op>, k: nat, n: string, s: string)
    requires k <= |ops| < |states|
  {
    exists a: nat :: a < k && PutsDownLast(states, ops, a, k, n, s)
  }

  ghost predicate PutsDownLast(states: seq<Manager>, ops: seq<Op>, a: nat, k: nat, n: string, s: string)
    requires a < k <= |ops| < |states|
  {
    PutsDown(states, ops, a, n, s) && forall b | a < b < k :: !TakesOff(states, ops, b, n, s)
  }

  /** The subscriber index is the history of the calls. */
  lemma {:induction false} SubscribersAreHistory(states: seq<Manager>, ops: seq<Op>, k: nat, n: string, s: string)
    requires Run(states, ops) && k <= |ops|
    ensures n in SubscribersOf(states[k], s) <==> IsDown(states, ops, k, n, s)
    decreases k
  {
    if k > 0 {
      SubscribersAreHistory(states, ops, k - 1, n, s);
      IndexStep(states, ops, k, n, s);
      IsDownStep(states, ops, k, n, s);
    }
  }

  lemma IndexStep(states: seq<Manager>, ops: seq<Op>, k: nat, n: string, s: string)
    requires Run(states, ops) && 0 < k <= |ops|
    ensures n in SubscribersOf(states[k], s) <==>
              || PutsDown(states, ops, k - 1, n, s)
              || (n in SubscribersOf(states[k - 1], s) && !TakesOff(states, ops, k - 1, n, s))
  {
    assert Step(states[k - 1], ops[k - 1], states[k - 1 + 1]);
    SubscribersAfter(states[k - 1], ops[k - 1], s);
    if Withdraws(states, ops, k - 1, n) { TakesOffMeans(states, ops, k - 1, n, s); }
  }

  lemma TakesOffMeans(states: seq<Manager>, ops: seq<Op>, b: nat, n: string, s: string)
    requires Run(states, ops) && b < |ops| && Withdraws(states, ops, b, n)
    ensures TakesOff(states, ops, b, n, s) <==>
              var i := states[b].interfaces; n in i && Subscribes(i[n].kind) && i[n].connectedTo == s
  {
    InterfacesAreHistory(states, ops, b, n);
  }

  lemma IsDownStep(states: seq<Manager>, ops: seq<Op>, k: nat, n: string, s: string)
    requires 0 < k <= |ops| < |states|
    ensures IsDown(states, ops, k, n, s) <==>
              || PutsDown(states, ops, k - 1, n, s)
              || (IsDown(states, ops, k - 1, n, s) && !TakesOff(states, ops, k - 1, n, s))
  {
    forall a: nat | a < k
      ensures PutsDownLast(states, ops, a, k, n, s) <==>
                if a == k - 1 then PutsDown(states, ops, a, n, s)
                else PutsDownLast(states, ops, a, k - 1, n, s) && !TakesOff(states, ops, k - 1, n, s)
    {
    }
    assert PutsDownLast(states, ops, k - 1, k, n, s) <==> PutsDown(states, ops, k - 1, n, s);
  }

  // ---------------------------------------------------------------------------------------------------------
  // The services in effect
  // ---------------------------------------------------------------------------------------------------------

  /** The operation registers the service n, as a handle or an interface. */
  predicate Registers(m: Manager, op: Op, n: string) {
    && n !in m.pending
    && ((op.RegisterHandle? && op.h.componentName == n) || (op.RegisterInterface? && op.i.serviceName == n))
  }

  predicate Announces(states: seq<Manager>, ops: seq<Op>, a: nat, n: string)
    requires a < |ops| < |states|
  {
    Registers(states[a], ops[a], n)
  }

  /** Before step k some call has registered n, and no removal has answered true since. */
  predicate IsAnnounced(states: seq<Manager>, ops: seq<Op>, k: nat, n: string)
    requires k <= |ops| < |states|
  {
    exists a: nat :: a < k && AnnouncesLast(states, ops, a, k, n)
  }

  predicate AnnouncesLast(states: seq<Manager>, ops: seq<Op>, a: nat, k: nat, n: string)
    requires a < k <= |ops| < |states|
  {
    Announces(states, ops, a, n) && forall b | a < b < k :: !Withdraws(states, ops, b, n)
  }

  /** What an ONLINE reply says about n. */
  function Answered(reply: map<string, Host>, n: string): Option<Host> {
    if n in reply && reply[n].status == Online then Some(reply[n]) else None
  }

  /** What an operation says about n: an accepted registration, or an ONLINE reply. An interface is announced under its
      own name, connected-to name and kind, with the handle and the rest of the runtime's host info. */
  function Word(m: Manager, op: Op, n: string): Option<Host> {
    match op
    case RegisterHandle(h) =>
      if Registers(m, op, n) then Some(Host(n, h.connectedTo, Online, h.description, h.handle, h.rest)) else None
    case RegisterInterface(i, info) =>
      if Registers(m, op, n) then Some(Host(n, i.connectedTo, Online, i.kind, info.handle, info.rest)) else None
    case Flush(reply) => Answered(reply, n)
    case FlushFails(partial) => Answered(partial, n)
    case Round(reply, _) => Answered(reply, n)
    case _ => None
  }

  function Later(before: Option<Host>, word: Option<Host>): Option<Host> {
    if word.Some? then word else before
  }

  /** The last that was said about n before step k. */
  function LastWord(states: seq<Manager>, ops: seq<Op>, k: nat, n: string): Option<Host>
    requires k <= |ops| < |states|
  {
    if k == 0 then None else Later(LastWord(states, ops, k - 1, n), Word(states[k - 1], ops[k - 1], n))
  }

  /** The immediate set is the history of the calls, and each service's info is the last word about it. */
  lemma {:induction false} EffectiveIsHistory(states: seq<Manager>, ops: seq<Op>, k: nat, n: string)
    requires Run(states, ops) && k <= |ops|
    ensures n in Effective(states[k]) <==> IsAnnounced(states, ops, k, n)
    ensures n in Effective(states[k]) ==> LastWord(states, ops, k, n) == Some(Effective(states[k])[n])
    decreases k
  {
    if k > 0 {
      EffectiveIsHistory(states, ops, k - 1, n);
      EffectiveNext(states, ops, k, n);
      IsAnnouncedStep(states, ops, k, n);
    }
  }

  lemma EffectiveNext(states: seq<Manager>, ops: seq<Op>, k: nat, n: string)
    requires Run(states, ops) && 0 < k <= |ops|
    ensures var m, op, e, e' := states[k - 1], ops[k - 1], Effective(states[k - 1]), Effective(states[k]);
            && (n in e' <==> Registers(m, op, n) || (n in e && !(op == Remove(n) && Removes(m, n))))
            && (n in e' ==> InfoOf(e', n) == Later(InfoOf(e, n), Word(m, op, n)))
  {
    RunInv(states, ops, k - 1);
    assert Step(states[k - 1], ops[k - 1], states[k - 1 + 1]);
    EffectiveStep(states[k - 1], ops[k - 1], n);
  }

  function InfoOf(e: map<string, Host>, n: string): Option<Host> {
    if n in e then Some(e[n]) else None
  }

  lemma EffectiveStep(m: Manager, op: Op, n: string)
    requires Inv(m) && Legal(m, op)
    ensures var e, e' := Effective(m), Effective(Apply(m, op));
            && (n in e' <==> Registers(m, op, n) || (n in e && !(op == Remove(n) && Removes(m, n))))
            && (n in e' ==> InfoOf(e', n) == Later(InfoOf(e, n), Word(m, op, n)))
  {
    RefinesImmediateSet(m, op);
    if op.Flush? || op.FlushFails? || op.Round? {
      AnsweredStep(m, if op.FlushFails? then op.partial else op.reply, n);
    } else {
      CalledStep(m, op, n);
    }
  }

  lemma CalledStep(m: Manager, op: Op, n: string)
    requires !op.Flush? && !op.FlushFails? && !op.Round?
    ensures var e, e' := Effective(m), Immediate(m, op);
            && (n in e' <==> Registers(m, op, n) || (n in e && !(op == Remove(n) && Removes(m, n))))
            && (n in e' ==> InfoOf(e', n) == Later(InfoOf(e, n), Word(m, op, n)))
  {
  }

  /** An honest reply adds and removes nothing. */
  lemma AnsweredStep(m: Manager, reply: map<string, Host>, n: string)
    requires Honest(m, reply)
    ensures var e, e' := Effective(m), Effective(m) + OnlineOnes(reply);
            && (n in e' <==> n in e)
            && InfoOf(e', n) == Later(InfoOf(e, n), Answered(reply, n))
  {
  }

  lemma IsAnnouncedStep(states: seq<Manager>, ops: seq<Op>, k: nat, n: string)
    requires 0 < k <= |ops| < |states|
    ensures IsAnnounced(states, ops, k, n) <==>
              || Announces(states, ops, k - 1, n)
              || (IsAnnounced(states, ops, k - 1, n) && !Withdraws(states, ops, k - 1, n))
  {
    forall a: nat | a < k
      ensures AnnouncesLast(states, ops, a, k, n) <==>
                if a == k - 1 then Announces(states, ops, a, n)
                else AnnouncesLast(states, ops, a, k - 1, n) && !Withdraws(states, ops, k - 1, n)
    {
    }
    assert AnnouncesLast(states, ops, k - 1, k, n) <==> Announces(states, ops, k - 1, n);
  }

  /** Nothing has been said about n since call number a, which registered it. */
  predicate SpeaksLast(states: seq<Manager>, ops: seq<Op>, a: nat, k: nat, n: string)
    requires a < k <= |ops| < |states|
  {
    Announces(states, ops, a, n) && forall b | a < b < k :: Word(states[b], ops[b], n).None?
  }

  lemma {:induction false} LastWordIs(states: seq<Manager>, ops: seq<Op>, a: nat, k: nat, n: string)
    requires a < k <= |ops| < |states| && SpeaksLast(states, ops, a, k, n)
    ensures LastWord(states, ops, k, n) == Word(states[a], ops[a], n)
    decreases k
  {
    if a < k - 1 { LastWordIs(states, ops, a, k - 1, n); }
  }

  /** A service in effect that was last spoken of by an accepted registration of an interface has the interface's name,
      kind and connected-to name, is ONLINE, and has the handle and the rest of the host info it was registered with. */
  lemma InterfaceIsAnnounced(states: seq<Manager>, ops: seq<Op>, a: nat, k: nat, i: Interface, info: Host)
    requires Run(states, ops) && a < k <= |ops| && ops[a] == RegisterInterface(i, info)
    requires SpeaksLast(states, ops, a, k, i.serviceName) && i.serviceName in Effective(states[k])
    ensures var e := Effective(states[k])[i.serviceName];
            && e.componentName == i.serviceName && e.description == i.kind && e.connectedTo == i.connectedTo
            && e.status == Online && e.handle == info.handle && e.rest == info.rest
  {
    EffectiveIsHistory(states, ops, k, i.serviceName);
    LastWordIs(states, ops, a, k, i.serviceName);
  }

  /** ... and one last spoken of by an accepted registration of a handle has that info, ONLINE. */
  lemma HandleIsAnnounced(states: seq<Manager>, ops: seq<Op>, a: nat, k: nat, h: Host)
    requires Run(states, ops) && a < k <= |ops| && ops[a] == RegisterHandle(h)
    requires SpeaksLast(states, ops, a, k, h.componentName) && h.componentName in Effective(states[k])
    ensures Effective(states[k])[h.componentName] == h.(status := Online)
  {
    EffectiveIsHistory(states, ops, k, h.componentName);
    LastWordIs(states, ops, a, k, h.componentName);
  }

  // ---------------------------------------------------------------------------------------------------------
  // The queue, the registered map and the subscriptions
  // ---------------------------------------------------------------------------------------------------------

  predicate Flushes(op: Op) {
    op.Flush? || op.Round?
  }

  /** Call number a put n in the queue, and no flush has been answered since. */
  predicate QueuesLast(states: seq<Manager>, ops: seq<Op>, a: nat, k: nat, n: string)
    requires a < k <= |ops| < |states|
  {
    && (Announces(states, ops, a, n) || Withdraws(states, ops, a, n))
    && forall b | a < b < k :: !Flushes(ops[b])
  }

  predicate IsQueued(states: seq<Manager>, ops: seq<Op>, k: nat, n: string)
    requires k <= |ops| < |states|
  {
    exists a: nat :: a < k && QueuesLast(states, ops, a, k, n)
  }

  predicate Queues(m: Manager, op: Op, n: string) {
    Registers(m, op, n) || (op == Remove(n) && Removes(m, n))
  }

  /** What an operation does to the queue. */
  ghost predicate QueueAfter(m: Manager, op: Op, n: string, pending': map<string, Host>) {
    && (n in pending' <==> !Flushes(op) && (Queues(m, op, n) || n in m.pending))
    && (Queues(m, op, n) ==> n !in m.pending && pending'[n].status == if op.Remove? then Offline else Online)
    && (n in pending' && n in m.pending ==> pending'[n].status == m.pending[n].status)
  }

  lemma QueueStep(m: Manager, op: Op, n: string)
    requires Inv(m) && Legal(m, op)
    ensures QueueAfter(m, op, n, Apply(m, op).pending)
  {
    match op
    case RegisterInterface(i, info) => QueueInterface(m, i, info, n);
    case _ =>
  }

  lemma QueueInterface(m: Manager, i: Interface, info: Host, n: string)
    ensures QueueAfter(m, RegisterInterface(i, info), n, DoRegisterInterface(m, i, info).pending)
  {
  }

  /** The queue is the history of the calls: a service is in it exactly if it has been registered, or removed with the
      answer true, and no flush has been answered since; and ONLINE exactly if it has been registered. */
  lemma {:induction false} QueueIsHistory(states: seq<Manager>, ops: seq<Op>, k: nat, n: string)
    requires Run(states, ops) && k <= |ops|
    ensures n in states[k].pending <==> IsQueued(states, ops, k, n)
    ensures forall a: nat | a < k && QueuesLast(states, ops, a, k, n) ::
              && n in states[k].pending
              && states[k].pending[n].status == if Announces(states, ops, a, n) then Online else Offline
    decreases k
  {
    if k > 0 {
      QueueIsHistory(states, ops, k - 1, n);
      RunInv(states, ops, k - 1);
      assert Step(states[k - 1], ops[k - 1], states[k - 1 + 1]);
      QueueStep(states[k - 1], ops[k - 1], n);
      IsQueuedStep(states, ops, k, n);
    }
  }

  lemma IsQueuedStep(states: seq<Manager>, ops: seq<Op>, k: nat, n: string)
    requires 0 < k <= |ops| < |states|
    ensures forall a: nat | a < k ::
              QueuesLast(states, ops, a, k, n) <==>
                if a == k - 1 then Announces(states, ops, a, n) || Withdraws(states, ops, a, n)
                else QueuesLast(states, ops, a, k - 1, n) && !Flushes(ops[k - 1])
    ensures IsQueued(states, ops, k, n) <==>
              || Announces(states, ops, k - 1, n) || Withdraws(states, ops, k - 1, n)
              || (IsQueued(states, ops, k - 1, n) && !Flushes(ops[k - 1]))
  {
    assert QueuesLast(states, ops, k - 1, k, n) <==>
           Announces(states, ops, k - 1, n) || Withdraws(states, ops, k - 1, n);
  }

  /** A flush was answered in step f, when n had been announced, and n has not been asked to be removed since. */
  predicate FlushedLast(states: seq<Manager>, ops: seq<Op>, f: nat, k: nat, n: string)
    requires f < k <= |ops| < |states|
  {
    Flushes(ops[f]) && IsAnnounced(states, ops, f, n) && forall b | f < b < k :: ops[b] != Remove(n)
  }

  predicate IsFlushed(states: seq<Manager>, ops: seq<Op>, k: nat, n: string)
    requires k <= |ops| < |states|
  {
    exists f: nat :: f < k && FlushedLast(states, ops, f, k, n)
  }

  lemma RegisteredStep(m: Manager, op: Op, n: string)
    requires Inv(m) && Legal(m, op)
    ensures n in Apply(m, op).registered <==>
              if Flushes(op) then n in Effective(m) else n in m.registered && op != Remove(n)
    ensures n in m.registered ==> n in Effective(m)
  {
    if Flushes(op) { RefinesImmediateSet(m, op); }
  }

  /** The registered map, of which the server is told in each round, is the history of the calls: a service is in it
      exactly if it was in effect at some answered flush and nobody has asked for its removal since, whatever the
      answer. */
  lemma {:induction false} RegisteredAreFlushed(states: seq<Manager>, ops: seq<Op>, k: nat, n: string)
    requires Run(states, ops) && k <= |ops|
    ensures n in states[k].registered <==> IsFlushed(states, ops, k, n)
    decreases k
  {
    if k > 0 {
      RegisteredAreFlushed(states, ops, k - 1, n);
      RunInv(states, ops, k - 1);
      assert Step(states[k - 1], ops[k - 1], states[k - 1 + 1]);
      RegisteredStep(states[k - 1], ops[k - 1], n);
      EffectiveIsHistory(states, ops, k - 1, n);
      IsFlushedStep(states, ops, k, n);
    }
  }

  lemma IsFlushedStep(states: seq<Manager>, ops: seq<Op>, k: nat, n: string)
    requires 0 < k <= |ops| < |states|
    ensures IsFlushed(states, ops, k, n) <==>
              || (Flushes(ops[k - 1]) && IsAnnounced(states, ops, k - 1, n))
              || (IsFlushed(states, ops, k - 1, n) && ops[k - 1] != Remove(n))
  {
    forall f: nat | f < k
      ensures FlushedLast(states, ops, f, k, n) <==>
                if f == k - 1 then Flushes(ops[f]) && IsAnnounced(states, ops, f, n)
                else FlushedLast(states, ops, f, k - 1, n) && ops[k - 1] != Remove(n)
    {
    }
    assert FlushedLast(states, ops, k - 1, k, n) <==> Flushes(ops[k - 1]) && IsAnnounced(states, ops, k - 1, n);
  }

  /** Call number a subscribed to s: it asked for a service unknown then, or registered an interface that subscribes. */
  predicate SubscribesTo(states: seq<Manager>, ops: seq<Op>, a: nat, s: string)
    requires a < |ops| < |states|
  {
    || (ops[a] == Subscribe(s) && s !in Told(ops, a))
    || (ops[a].RegisterInterface? && PutsDown(states, ops, a, ops[a].i.serviceName, s))
  }

  lemma SubscriptionStep(states: seq<Manager>, ops: seq<Op>, k: nat, s: string)
    requires Run(states, ops) && 0 < k <= |ops|
    ensures s in states[k].subscriptions <==> s in states[k - 1].subscriptions || SubscribesTo(states, ops, k - 1, s)
  {
    SubscribedIsTold(states, ops, k - 1);
    assert Step(states[k - 1], ops[k - 1], states[k - 1 + 1]);
  }

  /** The subscriptions, the services that each round asks the server about, are the history of the calls. */
  lemma {:induction false} SubscriptionsAreHistory(states: seq<Manager>, ops: seq<Op>, k: nat, s: string)
    requires Run(states, ops) && k <= |ops|
    ensures s in states[k].subscriptions <==> exists a: nat :: a < k && SubscribesTo(states, ops, a, s)
    decreases k
  {
    if k > 0 {
      SubscriptionsAreHistory(states, ops, k - 1, s);
      SubscriptionStep(states, ops, k, s);
    }
  }

  // ---------------------------------------------------------------------------------------------------------
  // When the change check passes
  // ---------------------------------------------------------------------------------------------------------

  /** What the service thread has been told of the services it looks up: the server's answer in the last round. */
  function Told(ops: seq<Op>, k: nat): map<string, Host>
    requires k <= |ops|
  {
    if k == 0 then map[] else if ops[k - 1].Round? then ops[k - 1].current else Told(ops, k - 1)
  }

  lemma {:induction false} SubscribedIsTold(states: seq<Manager>, ops: seq<Op>, k: nat)
    requires Run(states, ops) && k <= |ops|
    ensures states[k].subscribed == Told(ops, k)
  {
    if k > 0 {
      SubscribedIsTold(states, ops, k - 1);
      assert Step(states[k - 1], ops[k - 1], states[k - 1 + 1]);
      if !ops[k - 1].Round? { StillSubscribed(states[k - 1], ops[k - 1]); }
    }
  }

  /** A round made at step k, answered `current`, looks up the subscriber n of s: s was there in the last round too and
      is not OFFLINE, and n is down as a subscriber of the service that s now stands for. */
  ghost predicate LooksUp(states: seq<Manager>, ops: seq<Op>, k: nat, current: map<string, Host>, s: string, n: string)
    requires k <= |ops| < |states|
  {
    && s in current && s in Told(ops, k) && current[s].status != Offline
    && IsDown(states, ops, k, n, current[s].componentName)
  }

  /** n is registered, and the last word about it, the reply in this round included, calls it that. */
  ghost predicate KnownAs(states: seq<Manager>, ops: seq<Op>, k: nat, reply: map<string, Host>, n: string,
                          described: Description -> bool)
    requires k <= |ops| < |states|
  {
    && IsAnnounced(states, ops, k, n)
    && var word := Later(LastWord(states, ops, k, n), Answered(reply, n));
       word.Some? && described(word.value.description)
  }

  /** The service that the subscriber n of s is to be bound to anew has moved, and n has an interface. */
  ghost predicate Moved(states: seq<Manager>, ops: seq<Op>, k: nat, current: map<string, Host>, s: string, n: string)
    requires k <= |ops| < |states|
  {
    LooksUp(states, ops, k, current, s, n) && current[s].handle != Told(ops, k)[s].handle
    && HasRegistered(states, ops, k, n)
  }

  lemma LookupsAreHistory(states: seq<Manager>, ops: seq<Op>, k: nat, reply: map<string, Host>,
                          current: map<string, Host>, s: string, n: string)
    requires Run(states, ops) && k <= |ops|
    ensures Reaches(DoFlush(states[k], reply), current, s, n) <==> LooksUp(states, ops, k, current, s, n)
    ensures Rebinds(DoFlush(states[k], reply), current, s, n) <==> Moved(states, ops, k, current, s, n)
  {
    SubscribedIsTold(states, ops, k);
    InterfacesAreHistory(states, ops, k, n);
    if s in current { SubscribersAreHistory(states, ops, k, n, current[s].componentName); }
  }

  lemma RegisteredIsHistory(states: seq<Manager>, ops: seq<Op>, k: nat, reply: map<string, Host>, n: string,
                            described: Description -> bool)
    requires Run(states, ops) && k <= |ops| && Honest(states[k], reply)
    ensures var registered := DoFlush(states[k], reply).registered;
            (n in registered && described(registered[n].description))
            <==> KnownAs(states, ops, k, reply, n, described)
  {
    RunInv(states, ops, k);
    EffectiveIsHistory(states, ops, k, n);
    FlushRefines(states[k], reply);
    AnsweredStep(states[k], reply, n);
  }

  /** The change check of a round finds every subscriber it looks up registered as a proxy or subscriber exactly if each
      name that is down as a subscriber of a service it looks at has been registered and not removed since, and was last
      called a proxy or subscriber, by its registration or by the server. In every run, for every reply and answer. */
  lemma SubscribersFoundExactly(states: seq<Manager>, ops: seq<Op>, k: nat, reply: map<string, Host>,
                                current: map<string, Host>)
    requires Run(states, ops) && k <= |ops| && Honest(states[k], reply)
    ensures SubscriberAsserts(DoFlush(states[k], reply), current) <==>
              forall s, n | LooksUp(states, ops, k, current, s, n) :: KnownAs(states, ops, k, reply, n, IsSubscribing)
  {
    forall s, n
      ensures Reaches(DoFlush(states[k], reply), current, s, n) <==> LooksUp(states, ops, k, current, s, n)
    {
      LookupsAreHistory(states, ops, k, reply, current, s, n);
    }
    forall n
      ensures var registered := DoFlush(states[k], reply).registered;
              (n in registered && IsSubscribing(registered[n].description))
              <==> KnownAs(states, ops, k, reply, n, IsSubscribing)
    {
      RegisteredIsHistory(states, ops, k, reply, n, IsSubscribing);
    }
  }

  /** ... and all its assertions hold exactly if, moreover, each subscriber with an interface whose service has moved is
      a proxy, and that service a stub. */
  lemma RoundPassesExactly(states: seq<Manager>, ops: seq<Op>, k: nat, reply: map<string, Host>,
                           current: map<string, Host>)
    requires Run(states, ops) && k <= |ops| && Honest(states[k], reply)
    ensures ChangeAsserts(DoFlush(states[k], reply), current) <==>
              && (forall s, n | LooksUp(states, ops, k, current, s, n) ::
                    KnownAs(states, ops, k, reply, n, IsSubscribing))
              && (forall s, n | Moved(states, ops, k, current, s, n) ::
                    KnownAs(states, ops, k, reply, n, IsProxy) && current[s].description == Stub)
  {
    AssertsSplit(DoFlush(states[k], reply), current);
    SubscribersFoundExactly(states, ops, k, reply, current);
    RebindsExactly(states, ops, k, reply, current);
  }

  lemma RebindsExactly(states: seq<Manager>, ops: seq<Op>, k: nat, reply: map<string, Host>,
                       current: map<string, Host>)
    requires Run(states, ops) && k <= |ops| && Honest(states[k], reply)
    ensures RebindAsserts(DoFlush(states[k], reply), current) <==>
              forall s, n | Moved(states, ops, k, current, s, n) ::
                KnownAs(states, ops, k, reply, n, IsProxy) && current[s].description == Stub
  {
    forall s, n
      ensures Rebinds(DoFlush(states[k], reply), current, s, n) <==> Moved(states, ops, k, current, s, n)
    {
      LookupsAreHistory(states, ops, k, reply, current, s, n);
    }
    forall n
      ensures var registered := DoFlush(states[k], reply).registered;
              (n in registered && registered[n].description == Proxy)
              <==> KnownAs(states, ops, k, reply, n, IsProxy)
    {
      RegisteredIsHistory(states, ops, k, reply, n, IsProxy);
    }
  }

  // ---------------------------------------------------------------------------------------------------------
  // SubscribeService(INetInterface*)
  // ---------------------------------------------------------------------------------------------------------

  /** SubscribeService(INetInterface*) registers the interface in step k, and takes the mutex again before step j,
      however much later. It then asserts that a refused registration left an interface behind, and, when the service
      is known to be ONLINE, that the name has an interface in any case and that the service is subscribed to. The first
      two hold exactly if some call, this one included, has registered an interface under the name which no removal has
      dropped since; the third always holds. */
  lemma ResubscribeAssertionExactly(states: seq<Manager>, ops: seq<Op>, k: nat, j: nat, i: Interface, info: Host)
    requires Run(states, ops) && k < j <= |ops| && ops[k] == RegisterInterface(i, info)
    ensures i.serviceName in states[j].interfaces <==> HasRegistered(states, ops, j, i.serviceName)
    ensures SubscribeAsserts(states[j], i.connectedTo)
  {
    InterfacesAreHistory(states, ops, j, i.serviceName);
    RunInv(states, ops, j);
  }

  /** An earlier registration does not help if the service is flushed and removed before the mutex is taken again. */
  lemma ResubscribeOvertaken(i: Interface, info: Host) returns (states: seq<Manager>, ops: seq<Op>)
    requires Legal(EMPTY, RegisterInterface(i, info)) && (Subscribes(i.kind) || Serves(i.kind))
    ensures Run(states, ops) && |ops| == 4
    ensures ops[1] == RegisterInterface(i, info) && i.serviceName in states[1].pending
    ensures HasRegistered(states, ops, 1, i.serviceName) && i.serviceName !in states[4].interfaces
  {
    states, ops := [EMPTY], [];
    states, ops := Extend(states, ops, RegisterInterface(i, info));
    states, ops := Extend(states, ops, RegisterInterface(i, info));
    states, ops := Extend(states, ops, Flush(map[]));
    states, ops := Extend(states, ops, Remove(i.serviceName));
    assert LastRegistered(states, ops, 0, 1, i.serviceName);
  }

  /** With nothing in between, it fails for every service removed and not yet flushed. */
  lemma ResubscribeAfterRemoveFails(states: seq<Manager>, ops: seq<Op>, n: nat, i: Interface, info: Host)
    requires Run(states, ops) && n < |ops| && ops[n] == Remove(i.serviceName) && Removes(states[n], i.serviceName)
    requires i.serviceName in states[n].interfaces ==>
               var k := states[n].interfaces[i.serviceName].kind; Subscribes(k) || Serves(k)
    ensures var m := states[n + 1];
            i.serviceName in m.pending && i.serviceName !in DoRegisterInterface(m, i, info).interfaces
  {
    assert Step(states[n], ops[n], states[n + 1]);
    InterfacesAfter(states[n], ops[n]);
  }
}
