/**
  End-to-end acknowledgement safety.  The sender matches an acknowledgement by packet id alone
  and never looks at who sent it, so "ACKED means delivered" is not a local check: it is an
  invariant of the whole network.
 */
module MeshAck {
  import opened DupCache
  import opened Mesh
  import MC = MeshCopies
  import R = Reliable

  type Origin = map<Pair, Frame>
  type Decoded = set<Decoding>

  // ---- the invariant -------------------------------------------------------------------

  /** A frame is, hop limit aside, the one its source put on the air under that id. */
  predicate OnRecord(origin: Origin, f: Frame) {
    f.Key() in origin && origin[f.Key()].Essence() == f.Essence()
  }

  /** And the copy's original is that very frame. */
  predicate Traced(origin: Origin, c: Copy) {
    OnRecord(origin, c.frame) && origin[c.frame.Key()] == c.original
  }

  /** The packet `id` of `from` went to `to`, and `to` decoded it. */
  ghost predicate Reached(origin: Origin, decoded: Decoded, from: nat, id: nat, to: nat) {
    && Pair(from, id) in origin
    && origin[Pair(from, id)].dest == to
    && Decoding(to, origin[Pair(from, id)].Essence()) in decoded
  }

  /** Every acknowledgement ever sent answers a packet its sender had decoded. */
  ghost predicate OriginOk(origin: Origin, decoded: Decoded) {
    forall k :: k in origin ==>
      && origin[k].Key() == k && k.src != 0
      && (origin[k].data.portnum == PORT_ROUTING ==>
            Reached(origin, decoded, origin[k].dest, origin[k].data.requestId, k.src))
  }

  ghost predicate SlotOk(origin: Origin, me: nat, s: R.Slot<Copy>) {
    s.Pending? ==>
      && Traced(origin, s.wire) && s.wire.frame.src == me
      && s.id == s.wire.frame.id && s.dest == s.wire.frame.dest && s.portnum == s.wire.frame.data.portnum
  }

  /** `from` has sent `me` a positive reply about its packet `id`. */
  ghost predicate Affirmed(origin: Origin, me: nat, id: nat, from: nat) {
    exists k :: k in origin && origin[k].src == from && origin[k].dest == me
             && origin[k].data.portnum == 5 && origin[k].data.requestId == id && !origin[k].data.nak
  }

  ghost predicate EventOk(origin: Origin, decoded: Decoded, me: nat, e: R.Event<Copy>) {
    e.Acked? ==>
      && Reached(origin, decoded, me, e.id, e.dest) && origin[Pair(me, e.id)].data.portnum == e.portnum
      && Affirmed(origin, me, e.id, e.dest)
  }

  ghost predicate NodeOk(origin: Origin, decoded: Decoded, node: Node) {
    && node.id != 0 && node.id != BROADCAST
    && (forall j :: 0 <= j < |node.table.slots| ==> SlotOk(origin, node.id, node.table.slots[j]))
    && (forall j :: 0 <= j < |node.events| ==> EventOk(origin, decoded, node.id, node.events[j]))
  }

  ghost predicate RxTraced(origin: Origin, rx: seq<Rx>) {
    forall k :: 0 <= k < |rx| ==> Traced(origin, rx[k].copy)
  }

  ghost predicate DistinctIds(nodes: seq<Node>) {
    forall i, j :: 0 <= i < j < |nodes| ==> nodes[i].id != nodes[j].id
  }

  ghost predicate Inv(net: Net) {
    && DistinctIds(net.nodes)
    && (forall i :: 0 <= i < |net.nodes| ==> NodeOk(net.origin, net.decoded, net.nodes[i]))
    && RxTraced(net.origin, net.air)
    && OriginOk(net.origin, net.decoded)
  }

  // ---- one node's effect keeps it --------------------------------------------------------

  /** No id is put on record a second time. */
  ghost predicate NewIds(origin: Origin, e: Effect) {
    forall k :: k in e.born ==> k !in origin
  }

  /** What an effect of `node` must be for the invariant to survive committing it. */
  ghost predicate Good(origin: Origin, decoded: Decoded, node: Node, e: Effect) {
    && e.node.id == node.id
    && NewIds(origin, e)
    && NodeOk(origin + e.born, decoded + e.decoded, e.node)
    && RxTraced(origin + e.born, e.rx)
    && OriginOk(origin + e.born, decoded + e.decoded)
  }

  lemma NodeOkGrows(origin: Origin, decoded: Decoded, born: Origin, more: Decoded, node: Node)
    requires NodeOk(origin, decoded, node)
    requires forall k :: k in born ==> k !in origin
    ensures NodeOk(origin + born, decoded + more, node)
  {
  }

  lemma CommitKeeps(net: Net, air: seq<Rx>, n: nat, e: Effect)
    requires Inv(net) && n < |net.nodes| && RxTraced(net.origin, air)
    requires Good(net.origin, net.decoded, net.nodes[n], e)
    ensures Inv(Commit(net, air, n, e))
  {
    var nodes := net.nodes[n := e.node];
    forall i | 0 <= i < |net.nodes|
      ensures NodeOk(net.origin + e.born, net.decoded + e.decoded, nodes[i])
    {
      if i != n {
        NodeOkGrows(net.origin, net.decoded, e.born, e.decoded, net.nodes[i]);
      }
    }
  }

  lemma NothingGood(origin: Origin, decoded: Decoded, node: Node, n: Node)
    requires OriginOk(origin, decoded) && NodeOk(origin, decoded, n) && n.id == node.id
    ensures Good(origin, decoded, node, Nothing(n))
  {
    assert origin + map[] == origin && decoded + {} == decoded;
  }

  /** What a send does to the node, its slots aside. */
  lemma SendNode(node: Node, q: Request, tx: Tx, forever: bool, now: int, delay: nat)
    requires Sendable(q)
    ensures var e, f := Send(node, q, false, tx, forever, now, delay), Prepare(node, q);
      && e.node.id == node.id && e.born == map[f.Key() := f] && e.decoded == {}
      && node.events <= e.node.events
      && forall j :: |node.events| <= j < |e.node.events| ==> !e.node.events[j].Acked?
  {
    hide R.Reschedule, Prepare, Spread;
  }

  /** A packet put on record under a new id; an acknowledgement must be a sound one. */
  lemma OriginGrows(origin: Origin, decoded: Decoded, f: Frame)
    requires OriginOk(origin, decoded) && f.Key() !in origin && f.src != 0
    requires f.data.portnum == PORT_ROUTING ==> Reached(origin, decoded, f.dest, f.data.requestId, f.src)
    ensures OriginOk(origin + map[f.Key() := f], decoded)
  {
  }

  lemma EventsGrow(origin: Origin, decoded: Decoded, f: Frame, me: nat, events: seq<R.Event<Copy>>, more: seq<R.Event<Copy>>)
    requires forall j :: 0 <= j < |events| ==> EventOk(origin, decoded, me, events[j])
    requires f.Key() !in origin && events <= more && forall j :: |events| <= j < |more| ==> !more[j].Acked?
    ensures forall j :: 0 <= j < |more| ==> EventOk(origin + map[f.Key() := f], decoded, me, more[j])
  {
  }

  lemma SlotsGrow(origin: Origin, f: Frame, me: nat, slots: seq<R.Slot<Copy>>)
    requires f.Key() !in origin && forall j :: 0 <= j < |slots| ==> SlotOk(origin, me, slots[j])
    ensures forall j :: 0 <= j < |slots| ==> SlotOk(origin + map[f.Key() := f], me, slots[j])
  {
  }

  /** The node sends in its own name. */
  predicate OwnName(node: Node, q: Request) {
    q.src == 0 || q.src == node.id
  }

  /** A send under a new id; an acknowledgement must be a sound one. */
  lemma SendGood(origin: Origin, decoded: Decoded, node: Node, q: Request, tx: Tx, forever: bool, now: int, delay: nat)
    requires NodeOk(origin, decoded, node) && OriginOk(origin, decoded) && OwnName(node, q)
    requires NewIds(origin, Send(node, q, false, tx, forever, now, delay))
    requires q.data.portnum == PORT_ROUTING ==> Reached(origin, decoded, q.dest, q.data.requestId, node.id)
    ensures Good(origin, decoded, node, Send(node, q, false, tx, forever, now, delay))
  {
    if !Sendable(q) {
      NothingGood(origin, decoded, node, node);
    } else {
      var e, f := Send(node, q, false, tx, forever, now, delay), Prepare(node, q);
      SendNode(node, q, tx, forever, now, delay);
      hide Send, SlotOk, EventOk, OriginOk, Reached, RxTraced;
      assert f.Key() in e.born;
      assert e.born == map[f.Key() := f] && decoded + e.decoded == decoded;
      OriginGrows(origin, decoded, f);
      EventsGrow(origin, decoded, f, node.id, node.events, e.node.events);
      SlotsGrow(origin, f, node.id, node.table.slots);
      SendSlots(origin + e.born, node, q, tx, forever, now, delay);
    }
  }

  lemma SendSlots(origin: Origin, node: Node, q: Request, tx: Tx, forever: bool, now: int, delay: nat)
    requires forall j :: 0 <= j < |node.table.slots| ==> SlotOk(origin, node.id, node.table.slots[j])
    requires Sendable(q) && OwnName(node, q) && Traced(origin, Launch(Prepare(node, q), false))
    ensures var e := Send(node, q, false, tx, forever, now, delay);
      && RxTraced(origin, e.rx)
      && forall j :: 0 <= j < |e.node.table.slots| ==> SlotOk(origin, node.id, e.node.table.slots[j])
  {
    hide R.Track, SlotOk, Traced;
    var c := Launch(Prepare(node, q), false);
    TrackSlots(origin, node, c, HDR_LEN + |q.data.payload|, now, delay);
  }

  lemma TrackSlots(origin: Origin, node: Node, c: Copy, len: nat, now: int, delay: nat)
    requires forall j :: 0 <= j < |node.table.slots| ==> SlotOk(origin, node.id, node.table.slots[j])
    requires Traced(origin, c) && c.frame.src == node.id
    ensures var slots := R.Track(node.cfg, node.table, node.id, c.frame.Header(), c, len, now, delay).0.slots;
      forall j :: 0 <= j < |slots| ==> SlotOk(origin, node.id, slots[j])
  {
    hide R.EarliestDue, Traced;
  }

  /** The heart of it: whatever settles an entry comes from that entry's destination. */
  lemma SettleSound(origin: Origin, decoded: Decoded, node: Node, f: Frame)
    requires NodeOk(origin, decoded, node) && OriginOk(origin, decoded) && OnRecord(origin, f)
    ensures var (table, events) := R.Settle(node.table, node.id, f.Header());
      && NodeOk(origin, decoded, node.(table := table, events := node.events + events))
      && forall j :: 0 <= j < |events| ==> (events[j].Acked? || events[j].Nacked?) && events[j].dest == f.src
  {
    var k := R.FirstHolding(node.table.slots, f.data.requestId);
    if f.data.portnum == PORT_ROUTING && f.dest == node.id && f.data.requestId != 0 && k < |node.table.slots| {
      var s := node.table.slots[k];
      var ack := origin[f.Key()];
      assert ack.dest == node.id && ack.data == f.data;
      assert Reached(origin, decoded, node.id, s.id, f.src);
      assert SlotOk(origin, node.id, s);
      assert s.wire.frame.Key() == Pair(node.id, s.id);
      assert s.dest == f.src;
    }
  }

  lemma OnDecodedGood(origin: Origin, decoded: Decoded, node: Node, f: Frame, tx: Tx, now: int)
    requires NodeOk(origin, decoded, node) && OriginOk(origin, decoded) && OnRecord(origin, f)
    requires Decoding(node.id, f.Essence()) in decoded && NewIds(origin, OnDecoded(node, f, tx, now))
    ensures Good(origin, decoded, node, OnDecoded(node, f, tx, now))
  {
    hide Send, Good;
    if (f.dest != node.id && f.dest != BROADCAST) || f.src == node.id {
      NothingGood(origin, decoded, node, node);
    } else {
      var (table, events) := R.Settle(node.table, node.id, f.Header());
      var n := node.(table := table, events := node.events + events);
      SettleSound(origin, decoded, node, f);
      if f.wantAck && f.dest == node.id {
        assert Reached(origin, decoded, f.src, f.id, node.id);
        SendGood(origin, decoded, n, AckRequest(n, f), tx, true, now, 0);
        GoodFor(origin, decoded, node, n, Send(n, AckRequest(n, f), false, tx, true, now, 0));
      } else {
        NothingGood(origin, decoded, node, n);
      }
    }
  }

  lemma GoodFor(origin: Origin, decoded: Decoded, node: Node, n: Node, e: Effect)
    requires Good(origin, decoded, n, e) && n.id == node.id
    ensures Good(origin, decoded, node, e)
  {
  }

  /** Noting a decoding first. */
  lemma DecodeFirst(origin: Origin, decoded: Decoded, node: Node, n: Node, d: Decoding, local: seq<Frame>, e: Effect)
    requires Good(origin, decoded + {d}, node, e)
    ensures Good(origin, decoded, node, Then(Nothing(n).(decoded := {d}, delivered := local), e))
  {
    assert map[] + e.born == e.born && [] + e.rx == e.rx;
    assert decoded + ({d} + e.decoded) == decoded + {d} + e.decoded;
  }

  lemma MoreDecoded(origin: Origin, decoded: Decoded, node: Node, d: Decoding)
    requires NodeOk(origin, decoded, node) && OriginOk(origin, decoded)
    ensures NodeOk(origin, decoded + {d}, node) && OriginOk(origin, decoded + {d})
  {
  }

  lemma HandleGood(origin: Origin, decoded: Decoded, node: Node, c: Copy, decodes: bool, ack: Tx, now: int)
    requires NodeOk(origin, decoded, node) && OriginOk(origin, decoded) && Traced(origin, c)
    requires NewIds(origin, Handle(node, c, decodes, ack, now))
    ensures Good(origin, decoded, node, Handle(node, c, decodes, ack, now))
  {
    hide OnDecoded, Good, OriginOk;
    if !decodes {
      NothingGood(origin, decoded, node, node);
    } else {
      var n := if c.frame.src != node.id then Uplink(node, c) else node;
      var d := Decoding(node.id, c.frame.Essence());
      assert NodeOk(origin, decoded, n);
      MoreDecoded(origin, decoded, n, d);
      OnDecodedGood(origin, decoded + {d}, n, c.frame, ack, now);
      GoodFor(origin, decoded + {d}, node, n, OnDecoded(n, c.frame, ack, now));
      DecodeFirst(origin, decoded, node, n, d, if Delivers(node, c.frame) then [c.frame] else [], OnDecoded(n, c.frame, ack, now));
    }
  }

  lemma RelayGood(origin: Origin, decoded: Decoded, node: Node, e: Effect, c: Copy, tx: Tx)
    requires Good(origin, decoded, node, e) && Traced(origin, c) && c.frame.hopLimit > 0
    ensures Good(origin, decoded, node, Then(e, Relay(e.node, c, tx)))
  {
    assert e.born + map[] == e.born && e.decoded + {} == e.decoded;
    assert RelayOf(c).frame.Key() == c.frame.Key() && RelayOf(c).frame.Essence() == c.frame.Essence();
  }

  lemma ReceiveGood(origin: Origin, decoded: Decoded, node: Node, c: Copy, decodes: bool, ack: Tx, relay: Tx, now: int)
    requires NodeOk(origin, decoded, node) && OriginOk(origin, decoded) && Traced(origin, c)
    requires NewIds(origin, Receive(node, c, decodes, ack, relay, now))
    ensures Good(origin, decoded, node, Receive(node, c, decodes, ack, relay, now))
  {
    hide OnDecoded, Good, OriginOk, Handle;
    if node.ignoresMqtt && c.frame.viaMqtt {
      NothingGood(origin, decoded, node, node);
    } else if node.ring.Contains(c.frame.Key()) {
      var d := Decoding(node.id, c.frame.Essence());
      if c.frame.wantAck && c.frame.dest == node.id && decodes {
        MoreDecoded(origin, decoded, node, d);
        OnDecodedGood(origin, decoded + {d}, node, c.frame, ack, now);
        DecodeFirst(origin, decoded, node, node, d, [], OnDecoded(node, c.frame, ack, now));
      } else {
        NothingGood(origin, decoded, node, node);
      }
    } else {
      var n := Admit(node, Accept(c.frame.Key(), decodes && Delivers(node, c.frame), Relays(node, c.frame)));
      assert NodeOk(origin, decoded, n);
      HandleGood(origin, decoded, n, c, decodes, ack, now);
      var handled := Handle(n, c, decodes, ack, now);
      GoodFor(origin, decoded, node, n, handled);
      if Relays(node, c.frame) {
        RelayGood(origin, decoded, node, handled, c, relay);
      }
    }
  }

  lemma {:induction false} SweepNeverAcks(slots: seq<R.Slot<Copy>>, now: int, n: nat)
    requires n <= |slots|
    ensures forall e :: e in R.Gather(R.ResendParts(slots, now), n) ==> !e.Acked?
    ensures forall e :: e in R.Gather(R.ExpiryParts(slots, now), n) ==> !e.Acked?
  {
    if n > 0 {
      SweepNeverAcks(slots, now, n - 1);
    }
  }

  lemma TimerGood(origin: Origin, decoded: Decoded, node: Node, now: int, delays: nat -> nat, txs: nat -> Tx)
    requires NodeOk(origin, decoded, node) && OriginOk(origin, decoded)
    ensures Good(origin, decoded, node, RunTimer(node, now, delays, txs))
  {
    var slots, e := node.table.slots, RunTimer(node, now, delays, txs);
    assert origin + map[] == origin && decoded + {} == decoded;
    SweepNeverAcks(slots, now, |slots|);
    var events := R.Sweep(node.table, now, delays).1;
    var P := (c: Copy) => Traced(origin, c);
    MC.GatherAll(slots, now, |slots|, P);
    MC.ResentRxAll(events, txs, P);
    assert forall j :: 0 <= j < |slots| ==> SlotOk(origin, node.id, R.SweepSlot(slots[j], now, delays(j)));
  }

  lemma {:induction false} ResetNeverAcks(slots: seq<R.Slot<Copy>>, n: nat)
    requires n <= |slots|
    ensures forall e :: e in R.Gather(R.DropParts(slots), n) ==> !e.Acked?
  {
    if n > 0 {
      ResetNeverAcks(slots, n - 1);
    }
  }

  lemma ReinitGood(origin: Origin, decoded: Decoded, node: Node, n: Node)
    requires NodeOk(origin, decoded, node) && OriginOk(origin, decoded)
    requires n.id == node.id && n.table == R.Reset(node.table).0 && n.events == node.events + R.Reset(node.table).1
    ensures Good(origin, decoded, node, Nothing(n))
  {
    ResetNeverAcks(node.table.slots, |node.table.slots|);
    NothingGood(origin, decoded, node, n);
  }

  // ---- runs ------------------------------------------------------------------------------

  /** Applications send in their node's name and do not fabricate ROUTING traffic; no gateway injects anything. */
  predicate Genuine(net: Net, s: Step)
    requires Possible(net, s)
  {
    match s
    case AppSend(n, q, _, _, _, _) => OwnName(net.nodes[n], q) && q.data.portnum != PORT_ROUTING
    case Downlink(_, _, _, _, _, _, _, _) => false
    case _ => true
  }

  /** Every step is genuine, and no node ever uses a packet id twice - whoever chose the ids. */
  ghost predicate Trusted(net: Net, run: seq<Step>)
    requires IsRun(net, run)
    decreases |run|
  {
    run != [] ==>
      && Genuine(net, run[0]) && (!run[0].Lose? ==> NewIds(net.origin, Act(net, run[0])))
      && Trusted(Perform(net, run[0]), run[1..])
  }

  lemma StepKeeps(net: Net, s: Step)
    requires Possible(net, s) && Genuine(net, s) && Inv(net)
    requires !s.Lose? ==> NewIds(net.origin, Act(net, s))
    ensures Inv(Perform(net, s))
  {
    hide Good, Send, Receive, RunTimer, NodeOk, OriginOk, Traced, NewIds, R.Reset;
    if s.Lose? {
    } else {
      var n := Actor(net, s);
      var node := net.nodes[n];
      match s
      case AppSend(_, q, tx, forever, now, delay) =>
        SendGood(net.origin, net.decoded, node, q, tx, forever, now, delay);
        CommitKeeps(net, net.air, n, Act(net, s));
      case Hear(k, decodes, ack, relay, now) =>
        ReceiveGood(net.origin, net.decoded, node, net.air[k].copy, decodes, ack, relay, now);
        CommitKeeps(net, Without(net.air, k), n, Act(net, s));
      case TimerFires(_) =>
        FireOk(net.origin, net.decoded, node);
        NothingGood(net.origin, net.decoded, node, node.(table := R.Fire(node.table)));
        CommitKeeps(net, net.air, n, Act(net, s));
      case TimerRuns(_, now, delays, txs) =>
        TimerGood(net.origin, net.decoded, node, now, delays, txs);
        CommitKeeps(net, net.air, n, Act(net, s));
      case Reinit(_) =>
        ReinitGood(net.origin, net.decoded, node, Act(net, s).node);
        CommitKeeps(net, net.air, n, Act(net, s));
    }
  }

  lemma FireOk(origin: Origin, decoded: Decoded, node: Node)
    requires NodeOk(origin, decoded, node)
    ensures NodeOk(origin, decoded, node.(table := R.Fire(node.table)))
  {
  }

  lemma {:induction false} RunKeeps(net: Net, run: seq<Step>)
    requires IsRun(net, run) && Inv(net) && Trusted(net, run)
    ensures Inv(After(net, run))
    decreases |run|
  {
    hide Inv, Act;
    if run != [] {
      StepKeeps(net, run[0]);
      RunKeeps(Perform(net, run[0]), run[1..]);
    }
  }

  lemma FreshInv(net: Net)
    requires FreshNet(net)
    ensures Inv(net)
  {
  }

  /**
    Node `i`'s report `j` is true: it sent that packet, and the destination it names has decoded it and
    answered that it has.
   */
  ghost predicate ReportTrue(net: Net, i: nat, j: nat)
    requires i < |net.nodes| && j < |net.nodes[i].events| && net.nodes[i].events[j].Acked?
  {
    var me, e := net.nodes[i].id, net.nodes[i].events[j];
    && Pair(me, e.id) in net.origin
    && var packet := net.origin[Pair(me, e.id)];
       && packet.src == me && packet.id == e.id && packet.dest == e.dest && packet.data.portnum == e.portnum
       && Decoding(e.dest, packet.Essence()) in net.decoded
       && Affirmed(net.origin, me, e.id, e.dest)
  }

  /**
    In every run in which no packet id is used twice, applications leave ROUTING traffic to the stack
    and nothing is injected: if a node reports a packet as acknowledged, it sent that packet, and the
    very destination it names has decoded it - whatever was lost, delayed, reordered, relayed or
    re-initialised, and whoever chose the ids.
   */
  lemma {:induction false} AckedMeansDecoded(net: Net, run: seq<Step>, i: nat, j: nat)
    requires FreshNet(net) && IsRun(net, run) && Trusted(net, run)
    requires i < |After(net, run).nodes| && j < |After(net, run).nodes[i].events|
    requires After(net, run).nodes[i].events[j].Acked?
    ensures ReportTrue(After(net, run), i, j)
  {
    FreshInv(net);
    RunKeeps(net, run);
    var end := After(net, run);
    assert EventOk(end.origin, end.decoded, end.nodes[i].id, end.nodes[i].events[j]);
  }

  // ---- ids handed out by the stack ------------------------------------------------------------

  /** Ids are handed out in order, and nothing on record carries a later one. */
  ghost predicate IdsOk(origin: Origin, node: Node) {
    && node.idsUsed < ID_SPACE
    && node.nextId == (if node.idsUsed + 1 == ID_SPACE then 0 else node.idsUsed + 1)
    && forall k :: k in origin && k.src == node.id ==> 1 <= k.id <= node.idsUsed
  }

  /** Nodes only run this code: applications leave source and id to the stack, and no node restarts its counter. */
  predicate Honest(s: Step) {
    match s
    case AppSend(_, q, _, _, _, _) => q.src == 0 && q.id == 0 && q.data.portnum != PORT_ROUTING
    case Downlink(_, _, _, _, _, _, _, _) => false
    case Reinit(_) => false
    case _ => true
  }

  ghost predicate IdsInv(net: Net) {
    DistinctIds(net.nodes) && forall i :: 0 <= i < |net.nodes| ==> IdsOk(net.origin, net.nodes[i])
  }

  /** An effect that takes at most one id off the counter, and puts nothing else on record. */
  ghost predicate OneId(node: Node, e: Effect) {
    && e.node.id == node.id
    && (|| (e.born == map[] && e.node.nextId == node.nextId && e.node.idsUsed == node.idsUsed)
        || (&& e.born.Keys == {Pair(node.id, FreshId(node))}
            && e.node.nextId == AfterAlloc(node).nextId && e.node.idsUsed == node.idsUsed + 1))
  }

  lemma SendOneId(node: Node, q: Request, tx: Tx, forever: bool, now: int, delay: nat)
    requires q.src == 0 && q.id == 0
    ensures OneId(node, Send(node, q, false, tx, forever, now, delay))
  {
    hide R.Track, Spread;
  }

  lemma OnDecodedOneId(node: Node, f: Frame, tx: Tx, now: int)
    ensures OneId(node, OnDecoded(node, f, tx, now))
  {
    hide R.Settle, Send;
    var (table, events) := R.Settle(node.table, node.id, f.Header());
    var n := node.(table := table, events := node.events + events);
    SendOneId(n, AckRequest(n, f), tx, true, now, 0);
  }

  lemma HandleOneId(node: Node, c: Copy, decodes: bool, ack: Tx, now: int)
    ensures OneId(node, Handle(node, c, decodes, ack, now))
  {
    hide OnDecoded;
    var n := if c.frame.src != node.id then Uplink(node, c) else node;
    OnDecodedOneId(n, c.frame, ack, now);
    assert map[] + OnDecoded(n, c.frame, ack, now).born == OnDecoded(n, c.frame, ack, now).born;
  }

  lemma StillOneId(node: Node, n: Node, e: Effect, e': Effect)
    requires OneId(n, e) && n.id == node.id && n.nextId == node.nextId && n.idsUsed == node.idsUsed
    requires e'.node == e.node && e'.born == e.born
    ensures OneId(node, e')
  {
  }

  lemma ReceiveOneId(node: Node, c: Copy, decodes: bool, ack: Tx, relay: Tx, now: int)
    ensures OneId(node, Receive(node, c, decodes, ack, relay, now))
  {
    hide OnDecoded, Handle, Spread, OneId;
    SameIds(node, Nothing(node));
    if node.ring.Contains(c.frame.Key()) {
      OnDecodedOneId(node, c.frame, ack, now);
      var d := OnDecoded(node, c.frame, ack, now);
      assert map[] + d.born == d.born;
      StillOneId(node, node, d, Then(Nothing(node).(decoded := {Decoding(node.id, c.frame.Essence())}), d));
    } else {
      var n := Admit(node, Accept(c.frame.Key(), decodes && Delivers(node, c.frame), Relays(node, c.frame)));
      HandleOneId(n, c, decodes, ack, now);
      var h := Handle(n, c, decodes, ack, now);
      assert h.born + map[] == h.born;
      StillOneId(node, n, h, ReceiveFresh(node, c, decodes, ack, relay, now));
    }
  }

  lemma ActOneId(net: Net, s: Step)
    requires Possible(net, s) && Honest(s) && !s.Lose?
    ensures OneId(net.nodes[Actor(net, s)], Act(net, s))
  {
    hide Send, Receive, OneId, R.Sweep;
    var node := net.nodes[Actor(net, s)];
    match s
    case AppSend(_, q, tx, forever, now, delay) => SendOneId(node, q, tx, forever, now, delay);
    case Hear(k, decodes, ack, relay, now) => ReceiveOneId(node, net.air[k].copy, decodes, ack, relay, now);
    case TimerFires(_) => SameIds(node, Act(net, s));
    case TimerRuns(_, _, _, _) => SameIds(node, Act(net, s));
  }

  lemma SameIds(node: Node, e: Effect)
    requires e.node.id == node.id && e.born == map[] && e.node.nextId == node.nextId && e.node.idsUsed == node.idsUsed
    ensures OneId(node, e)
  {
  }

  /** While ids last, an honest step uses a new one. */
  lemma StepNewIds(net: Net, s: Step)
    requires Possible(net, s) && Honest(s) && IdsInv(net)
    requires !s.Lose? ==> Act(net, s).node.idsUsed < ID_SPACE
    ensures !s.Lose? ==> NewIds(net.origin, Act(net, s))
    ensures IdsInv(Perform(net, s))
  {
    hide Act;
    if !s.Lose? {
      var n := Actor(net, s);
      var node, e := net.nodes[n], Act(net, s);
      ActOneId(net, s);
      assert IdsOk(net.origin, node);
      var nodes := net.nodes[n := e.node];
      forall i | 0 <= i < |net.nodes|
        ensures IdsOk(net.origin + e.born, nodes[i])
      {
        assert IdsOk(net.origin, net.nodes[i]);
        if i != n {
          assert net.nodes[i].id != node.id;
        }
      }
    }
  }

  lemma StepIds(net: Net, s: Step)
    requires Possible(net, s) && Honest(s)
    ensures |Perform(net, s).nodes| == |net.nodes|
    ensures forall i :: 0 <= i < |net.nodes| ==> net.nodes[i].idsUsed <= Perform(net, s).nodes[i].idsUsed
  {
    if !s.Lose? {
      ActOneId(net, s);
      hide Act;
    }
  }

  lemma {:induction false} RunIds(net: Net, run: seq<Step>)
    requires IsRun(net, run) && forall i :: 0 <= i < |run| ==> Honest(run[i])
    ensures |After(net, run).nodes| == |net.nodes|
    ensures forall i :: 0 <= i < |net.nodes| ==> net.nodes[i].idsUsed <= After(net, run).nodes[i].idsUsed
    decreases |run|
  {
    if run != [] {
      StepIds(net, run[0]);
      RunIds(Perform(net, run[0]), run[1..]);
    }
  }

  /** Nobody has handed out more ids than there are. */
  ghost predicate IdsLast(net: Net) {
    forall i :: 0 <= i < |net.nodes| ==> net.nodes[i].idsUsed < ID_SPACE
  }

  /** Honest runs are trusted for as long as ids last. */
  lemma {:induction false} HonestTrusted(net: Net, run: seq<Step>)
    requires IsRun(net, run) && IdsInv(net) && forall i :: 0 <= i < |run| ==> Honest(run[i])
    requires IdsLast(After(net, run))
    ensures Trusted(net, run)
    decreases |run|
  {
    hide IdsInv, Act;
    if run != [] {
      var net' := Perform(net, run[0]);
      assert After(net, run) == After(net', run[1..]);
      StepIds(net, run[0]);
      RunIds(net', run[1..]);
      if !run[0].Lose? {
        var n := Actor(net, run[0]);
        assert net'.nodes[n].idsUsed < ID_SPACE;
        assert net'.nodes[n] == Act(net, run[0]).node;
      }
      StepNewIds(net, run[0]);
      HonestTrusted(net', run[1..]);
    }
  }

  /** With ids from the stack, reports are true until some node has handed out 2^32 - 1 of them. */
  lemma {:induction false} HonestReportsTrue(net: Net, run: seq<Step>, i: nat, j: nat)
    requires FreshNet(net) && IsRun(net, run) && (forall k :: 0 <= k < |run| ==> Honest(run[k])) && IdsLast(After(net, run))
    requires i < |After(net, run).nodes| && j < |After(net, run).nodes[i].events|
    requires After(net, run).nodes[i].events[j].Acked?
    ensures ReportTrue(After(net, run), i, j)
  {
    HonestTrusted(net, run);
    AckedMeansDecoded(net, run, i, j);
  }
}
