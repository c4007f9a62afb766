/**
  What holds of every copy of every frame, in every reachable state: a principle for
  proving such facts.
 */
module MeshCopies {
  import opened DupCache
  import opened Mesh
  import R = Reliable

  // ---- an induction principle over copies ----------------------------------------------

  ghost predicate NodeAll(node: Node, P: Copy -> bool) {
    && (forall j :: 0 <= j < |node.table.slots| && node.table.slots[j].Pending? ==>
          P(node.table.slots[j].wire) && node.table.slots[j].wire.relays == 0)
    && (forall j :: 0 <= j < |node.uplinked| ==> P(node.uplinked[j]) && !node.uplinked[j].frame.viaMqtt)
  }

  ghost predicate RxAll(rx: seq<Rx>, P: Copy -> bool) {
    forall k :: 0 <= k < |rx| ==> P(rx[k].copy)
  }

  ghost predicate BornAll(born: map<Pair, Frame>, P: Copy -> bool) {
    forall k :: k in born ==> P(Launch(born[k], false)) || P(Launch(born[k], true))
  }

  ghost predicate EffectAll(e: Effect, P: Copy -> bool) {
    NodeAll(e.node, P) && RxAll(e.rx, P) && BornAll(e.born, P)
  }

  /** `P` holds of every copy in flight, stored for retransmission, or queued for the broker. */
  ghost predicate AllCopies(net: Net, P: Copy -> bool) {
    && (forall i :: 0 <= i < |net.nodes| ==> NodeAll(net.nodes[i], P))
    && RxAll(net.air, P)
    && BornAll(net.origin, P)
  }

  lemma AllImplies(net: Net, P: Copy -> bool, Q: Copy -> bool)
    requires AllCopies(net, P) && forall c :: P(c) ==> Q(c)
    ensures AllCopies(net, Q)
  {
  }

  function AckCopy(node: Node, f: Frame): Copy {
    Launch(Prepare(node, AckRequest(node, f)), false)
  }

  /** `P` survives relaying and holds of every acknowledgement. */
  ghost predicate Hereditary(P: Copy -> bool) {
    && (forall c: Copy :: P(c) && c.frame.hopLimit > 0 ==> P(RelayOf(c)))
    && (forall n: Node, f: Frame :: P(AckCopy(n, f)))
  }

  /** `P` holds of what a step puts on the air for the first time. */
  ghost predicate SeedsOk(net: Net, s: Step, P: Copy -> bool)
    requires Possible(net, s)
  {
    match s
    case AppSend(n, q, _, _, _, _) => P(Launch(Prepare(net.nodes[n], q), false))
    case Downlink(n, q, payload, _, _, _, _, _) =>
      !payload.Missing? ==> P(Launch(InjectedFrame(net.nodes[n], Bridged(q), payload.Sealed?), true))
    case _ => true
  }

  lemma TrackAll(cfg: R.Config, st: R.State<Copy>, me: nat, p: R.Packet, c: Copy, len: nat, now: int, delay: nat, P: Copy -> bool)
    requires P(c) && c.relays == 0
    requires forall j :: 0 <= j < |st.slots| && st.slots[j].Pending? ==> P(st.slots[j].wire) && st.slots[j].wire.relays == 0
    ensures var slots := R.Track(cfg, st, me, p, c, len, now, delay).0.slots;
      forall j :: 0 <= j < |slots| && slots[j].Pending? ==> P(slots[j].wire) && slots[j].wire.relays == 0
  {
    hide R.EarliestDue;
  }

  lemma AllocAll(node: Node, P: Copy -> bool)
    requires NodeAll(node, P)
    ensures NodeAll(AfterAlloc(node), P) && AfterAlloc(node).table == node.table
  {
  }

  lemma UplinkAll(node: Node, c: Copy, P: Copy -> bool)
    requires NodeAll(node, P) && P(c)
    ensures NodeAll(Uplink(node, c), P) && Uplink(node, c).table == node.table
  {
  }

  lemma SpreadRxAll(tx: Tx, c: Copy, P: Copy -> bool)
    requires P(c)
    ensures RxAll(Spread(tx, c), P)
  {
  }

  lemma SendAll(node: Node, q: Request, bridged: bool, tx: Tx, forever: bool, now: int, delay: nat, P: Copy -> bool)
    requires NodeAll(node, P) && P(Launch(Prepare(node, q), bridged))
    ensures EffectAll(Send(node, q, bridged, tx, forever, now, delay), P)
  {
    hide R.Track, Prepare, AfterAlloc, Uplink, Spread;
    var c := Launch(Prepare(node, q), bridged);
    TrackAll(node.cfg, node.table, node.id, c.frame.Header(), c, HDR_LEN + |q.data.payload|, now, delay, P);
    var n0 := if q.id == 0 then AfterAlloc(node) else node;
    AllocAll(node, P);
    UplinkAll(n0, c, P);
    SpreadRxAll(tx, c, P);
  }

  lemma OnDecodedAll(node: Node, f: Frame, tx: Tx, now: int, P: Copy -> bool)
    requires NodeAll(node, P) && Hereditary(P)
    ensures EffectAll(OnDecoded(node, f, tx, now), P)
  {
    var (table, events) := R.Settle(node.table, node.id, f.Header());
    var n := node.(table := table, events := node.events + events);
    assert P(AckCopy(n, f));
    SendAll(n, AckRequest(n, f), false, tx, true, now, 0, P);
  }

  lemma ThenAll(first: Effect, second: Effect, P: Copy -> bool)
    requires RxAll(first.rx, P) && BornAll(first.born, P) && EffectAll(second, P)
    ensures EffectAll(Then(first, second), P)
  {
  }

  lemma HandleAll(node: Node, c: Copy, decodes: bool, ack: Tx, now: int, P: Copy -> bool)
    requires NodeAll(node, P) && Hereditary(P) && P(c)
    ensures EffectAll(Handle(node, c, decodes, ack, now), P)
  {
    OnDecodedAll(if c.frame.src != node.id then Uplink(node, c) else node, c.frame, ack, now, P);
  }

  lemma ReceiveFreshAll(node: Node, c: Copy, decodes: bool, ack: Tx, relay: Tx, now: int, P: Copy -> bool)
    requires NodeAll(node, P) && Hereditary(P) && P(c)
    ensures EffectAll(ReceiveFresh(node, c, decodes, ack, relay, now), P)
  {
    var n := Admit(node, Accept(c.frame.Key(), decodes && Delivers(node, c.frame), Relays(node, c.frame)));
    var handled := Handle(n, c, decodes, ack, now);
    HandleAll(n, c, decodes, ack, now, P);
    if Relays(node, c.frame) {
      assert P(RelayOf(c));
      ThenAll(handled, Relay(handled.node, c, relay), P);
    }
  }

  lemma ReceiveAll(node: Node, c: Copy, decodes: bool, ack: Tx, relay: Tx, now: int, P: Copy -> bool)
    requires NodeAll(node, P) && Hereditary(P) && P(c)
    ensures EffectAll(Receive(node, c, decodes, ack, relay, now), P)
  {
    OnDecodedAll(node, c.frame, ack, now, P);
    ReceiveFreshAll(node, c, decodes, ack, relay, now, P);
  }

  lemma {:induction false} ResentRxAll(events: seq<R.Event<Copy>>, txs: nat -> Tx, P: Copy -> bool)
    requires forall k :: 0 <= k < |events| && events[k].Resent? ==> P(events[k].wire)
    ensures RxAll(ResentRx(events, txs), P)
  {
    if events != [] {
      ResentRxAll(events[1..], txs, P);
    }
  }

  lemma {:induction false} GatherAll(slots: seq<R.Slot<Copy>>, now: int, n: nat, P: Copy -> bool)
    requires n <= |slots| && forall j :: 0 <= j < |slots| && slots[j].Pending? ==> P(slots[j].wire)
    ensures forall e :: e in R.Gather(R.ResendParts(slots, now), n) && e.Resent? ==> P(e.wire)
    ensures forall e :: e in R.Gather(R.ExpiryParts(slots, now), n) ==> !e.Resent?
  {
    if n > 0 {
      GatherAll(slots, now, n - 1, P);
    }
  }

  lemma RunTimerAll(node: Node, now: int, delays: nat -> nat, txs: nat -> Tx, P: Copy -> bool)
    requires NodeAll(node, P)
    ensures EffectAll(RunTimer(node, now, delays, txs), P)
  {
    hide R.EarliestDue, R.Gather, ResentRx, ResentCount;
    GatherAll(node.table.slots, now, |node.table.slots|, P);
    ResentRxAll(R.Sweep(node.table, now, delays).1, txs, P);
  }

  lemma DownlinkFirstAll(node: Node, q: Request, encrypted: bool, tx: Tx, now: int, delay: nat, P: Copy -> bool)
    requires NodeAll(node, P) && P(Launch(InjectedFrame(node, Bridged(q), encrypted), true))
    ensures EffectAll(DownlinkFirst(node, q, encrypted, tx, now, delay), P)
  {
    hide Send, Prepare, AfterAlloc, Uplink, Spread;
    if !encrypted {
      SendAll(node, Bridged(q), true, tx, true, now, delay, P);
    } else {
      var c := Launch(InjectedFrame(node, Bridged(q), true), true);
      AllocAll(node, P);
      UplinkAll(if Bridged(q).id == 0 then AfterAlloc(node) else node, c, P);
      SpreadRxAll(tx, c, P);
    }
  }

  lemma InjectAdmittedAll(node: Node, q: Request, encrypted: bool, opens: bool, tx: Tx, ack: Tx, now: int, delay: nat, P: Copy -> bool)
    requires NodeAll(node, P) && Hereditary(P) && P(Launch(InjectedFrame(node, Bridged(q), encrypted), true))
    ensures EffectAll(InjectAdmitted(node, q, encrypted, opens, tx, ack, now, delay), P)
  {
    var first := DownlinkFirst(node, q, encrypted, tx, now, delay);
    DownlinkFirstAll(node, q, encrypted, tx, now, delay, P);
    if opens {
      OnDecodedAll(first.node, DownlinkFrame(q), ack, now, P);
      var local := if Delivers(node, DownlinkFrame(q)) then [DownlinkFrame(q)] else [];
      ThenAll(first.(delivered := local), OnDecoded(first.node, DownlinkFrame(q), ack, now), P);
    }
  }

  lemma SameInjected(node: Node, n: Node, q: Request, encrypted: bool)
    requires n.id == node.id && n.nextId == node.nextId && n.hopLimit == node.hopLimit
    ensures InjectedFrame(n, q, encrypted) == InjectedFrame(node, q, encrypted)
  {
  }

  lemma InjectAll(node: Node, q: Request, payload: Payload, decodes: bool, tx: Tx, ack: Tx, now: int, delay: nat, P: Copy -> bool)
    requires NodeAll(node, P) && Hereditary(P)
    requires !payload.Missing? ==> P(Launch(InjectedFrame(node, Bridged(q), payload.Sealed?), true))
    ensures EffectAll(Inject(node, q, payload, decodes, tx, ack, now, delay), P)
  {
    var encrypted := payload.Sealed?;
    hide InjectAdmitted, Prepare, DownlinkOpens, DownlinkRelays, Delivers;
    var key, opens := Pair(q.src, q.id), DownlinkOpens(node, q, encrypted, decodes, tx);
    if !node.ring.Contains(key) && !payload.Missing? {
      var n := Admit(node, Accept(key, opens && Delivers(node, DownlinkFrame(q)), DownlinkRelays(node, q, encrypted)));
      SameInjected(node, n, Bridged(q), encrypted);
      InjectAdmittedAll(n, q, encrypted, opens, tx, ack, now, delay, P);
    }
  }

  lemma ActAll(net: Net, s: Step, P: Copy -> bool)
    requires Possible(net, s) && !s.Lose?
    requires AllCopies(net, P) && Hereditary(P) && SeedsOk(net, s, P)
    ensures EffectAll(Act(net, s), P)
  {
    var node := net.nodes[Actor(net, s)];
    assert NodeAll(node, P);
    match s
    case AppSend(_, q, tx, forever, now, delay) => SendAll(node, q, false, tx, forever, now, delay, P);
    case Hear(k, decodes, ack, relay, now) => ReceiveAll(node, net.air[k].copy, decodes, ack, relay, now, P);
    case TimerFires(_) =>
    case TimerRuns(_, now, delays, txs) => RunTimerAll(node, now, delays, txs, P);
    case Downlink(_, q, payload, decodes, tx, ack, now, delay) =>
      InjectAll(node, q, payload, decodes, tx, ack, now, delay, P);
    case Reinit(_) =>
  }

  lemma CommitAll(net: Net, air: seq<Rx>, n: nat, e: Effect, P: Copy -> bool)
    requires AllCopies(net, P) && RxAll(air, P) && n < |net.nodes| && EffectAll(e, P)
    ensures AllCopies(Commit(net, air, n, e), P)
  {
    hide NodeAll;
  }

  /** One step keeps a hereditary property of all copies. */
  lemma StepAll(net: Net, s: Step, P: Copy -> bool)
    requires Possible(net, s)
    requires AllCopies(net, P) && Hereditary(P) && SeedsOk(net, s, P)
    ensures AllCopies(Perform(net, s), P)
  {
    hide Act, EffectAll, Hereditary, SeedsOk;
    if !s.Lose? {
      ActAll(net, s, P);
      CommitAll(net, if s.Hear? then Without(net.air, s.k) else net.air, Actor(net, s), Act(net, s), P);
    }
  }
}
