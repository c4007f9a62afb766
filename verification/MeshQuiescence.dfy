/**
  Quiescence: once the applications stop sending, a mesh of any size and topology falls
  silent.  A natural-number weight of the network pays for every reception and every
  transmission still to come.
 */
module MeshQuiescence {
  import opened Mesh
  import R = Reliable

  // ---- the weight --------------------------------------------------------------------

  /** `n` times `w`. */
  function Fan(n: nat, w: nat): nat {
    if n == 0 then 0 else Fan(n - 1, w) + w
  }

  /** How long a chain of acknowledgements a frame can still start. */
  function Rank(f: Frame): nat {
    if !f.wantAck then 0
    else if f.data.portnum == PORT_TEXT || f.data.portnum == PORT_TEXT_COMPRESSED then 2
    else 1
  }

  /**
    What a reception can still cost in a network of `d` nodes: itself, an acknowledgement of
    lower rank with a full hop budget, and a relay with one hop less, each heard by up to `d`.
   */
  function HopWeight(d: nat, rank: nat, hop: nat): nat
    decreases rank, hop
  {
    1
    + (if rank > 0 then 1 + Fan(d, HopWeight(d, rank - 1, 7)) else 0)
    + (if hop > 0 then 1 + Fan(d, HopWeight(d, rank, hop - 1)) else 0)
  }

  function CopyWeight(d: nat, c: Copy): nat {
    HopWeight(d, Rank(c.frame), c.frame.hopLimit)
  }

  /** The share of a frame's weight set aside for acknowledging it, and for relaying it. */
  function AckBudget(d: nat, f: Frame): nat {
    if f.wantAck then 1 + Fan(d, HopWeight(d, Rank(f) - 1, 7)) else 0
  }

  function RelayBudget(d: nat, c: Copy): nat {
    if c.frame.hopLimit > 0 then 1 + Fan(d, CopyWeight(d, RelayOf(c))) else 0
  }

  lemma Budgets(d: nat, c: Copy)
    ensures CopyWeight(d, c) == 1 + AckBudget(d, c.frame) + RelayBudget(d, c)
  {
  }

  function AirWeight(d: nat, air: seq<Rx>): nat {
    if air == [] then 0 else CopyWeight(d, air[0].copy) + AirWeight(d, air[1..])
  }

  function SlotWeight(d: nat, s: R.Slot<Copy>): nat {
    if s.Free? then 0 else 1 + Fan(s.attemptsLeft, 1 + Fan(d, CopyWeight(d, s.wire)))
  }

  /** The first `n` slots of a table. */
  function TableWeight(d: nat, slots: seq<R.Slot<Copy>>, n: nat): nat
    requires n <= |slots|
  {
    if n == 0 then 0 else TableWeight(d, slots, n - 1) + SlotWeight(d, slots[n - 1])
  }

  function NodeWeight(d: nat, node: Node): nat {
    TableWeight(d, node.table.slots, |node.table.slots|)
  }

  function NodesWeight(d: nat, nodes: seq<Node>, n: nat): nat
    requires n <= |nodes|
  {
    if n == 0 then 0 else NodesWeight(d, nodes, n - 1) + NodeWeight(d, nodes[n - 1])
  }

  function NetWeight(net: Net): nat {
    NodesWeight(|net.nodes|, net.nodes, |net.nodes|) + AirWeight(|net.nodes|, net.air)
  }

  // ---- sums --------------------------------------------------------------------------

  lemma {:induction false} FanMonotone(n: nat, m: nat, w: nat, v: nat)
    requires n <= m && w <= v
    ensures Fan(n, w) <= Fan(m, v)
  {
    if n > 0 {
      FanMonotone(n - 1, m - 1, w, v);
    }
  }

  lemma {:induction false} HopWeightMonotone(d: nat, r: nat, h: nat, r': nat, h': nat)
    requires r <= r' && h <= h'
    ensures HopWeight(d, r, h) <= HopWeight(d, r', h')
    decreases r', h'
  {
    hide Fan;
    if r > 0 {
      HopWeightMonotone(d, r - 1, 7, r' - 1, 7);
      FanMonotone(d, d, HopWeight(d, r - 1, 7), HopWeight(d, r' - 1, 7));
    }
    if h > 0 {
      HopWeightMonotone(d, r, h - 1, r', h' - 1);
      FanMonotone(d, d, HopWeight(d, r, h - 1), HopWeight(d, r', h' - 1));
    }
  }

  lemma {:induction false} AirAppend(d: nat, a: seq<Rx>, b: seq<Rx>)
    ensures AirWeight(d, a + b) == AirWeight(d, a) + AirWeight(d, b)
  {
    if a == [] {
      assert a + b == b;
    } else {
      assert (a + b)[1..] == a[1..] + b;
      AirAppend(d, a[1..], b);
    }
  }

  lemma AirRemove(d: nat, air: seq<Rx>, k: nat)
    requires k < |air|
    ensures AirWeight(d, Without(air, k)) + CopyWeight(d, air[k].copy) == AirWeight(d, air)
  {
    AirAppend(d, air[..k], air[k + 1..]);
    AirAppend(d, air[..k], air[k..]);
    assert air == air[..k] + air[k..];
    assert air[k..][1..] == air[k + 1..];
  }

  lemma {:induction false} SpreadAll(d: nat, heard: seq<nat>, c: Copy)
    ensures AirWeight(d, Spread(Tx(true, heard), c)) == Fan(|heard|, CopyWeight(d, c))
  {
    if heard != [] {
      SpreadAll(d, heard[1..], c);
      assert Spread(Tx(true, heard), c)[1..] == Spread(Tx(true, heard[1..]), c);
    }
  }

  lemma SpreadWeight(d: nat, tx: Tx, c: Copy)
    requires |tx.heard| <= d
    ensures AirWeight(d, Spread(tx, c)) <= Fan(d, CopyWeight(d, c))
  {
    if tx.ok {
      SpreadAll(d, tx.heard, c);
      FanMonotone(|tx.heard|, d, CopyWeight(d, c), CopyWeight(d, c));
    }
  }

  lemma {:induction false} TableUpdate(d: nat, slots: seq<R.Slot<Copy>>, k: nat, s: R.Slot<Copy>, n: nat)
    requires k < |slots| && n <= |slots|
    ensures TableWeight(d, slots[k := s], n) + (if k < n then SlotWeight(d, slots[k]) else 0)
      == TableWeight(d, slots, n) + (if k < n then SlotWeight(d, s) else 0)
  {
    if n > 0 {
      TableUpdate(d, slots, k, s, n - 1);
    }
  }

  lemma {:induction false} NodesUpdate(d: nat, nodes: seq<Node>, k: nat, node: Node, n: nat)
    requires k < |nodes| && n <= |nodes|
    ensures NodesWeight(d, nodes[k := node], n) + (if k < n then NodeWeight(d, nodes[k]) else 0)
      == NodesWeight(d, nodes, n) + (if k < n then NodeWeight(d, node) else 0)
  {
    if n > 0 {
      NodesUpdate(d, nodes, k, node, n - 1);
    }
  }

  // ---- acknowledging and relaying ----------------------------------------------------

  /** An acknowledgement ranks below what it acknowledges. */
  lemma AckCost(d: nat, node: Node, f: Frame, c: Copy)
    requires f.wantAck && c.frame == Prepare(node, AckRequest(node, f))
    ensures CopyWeight(d, c) <= HopWeight(d, Rank(f) - 1, 7)
  {
    HopWeightMonotone(d, Rank(c.frame), c.frame.hopLimit, Rank(f) - 1, 7);
  }

  lemma OnDecodedCost(d: nat, node: Node, f: Frame, tx: Tx, now: int)
    requires |tx.heard| <= d
    ensures var e := OnDecoded(node, f, tx, now);
      NodeWeight(d, e.node) + AirWeight(d, e.rx) + e.sent
        <= NodeWeight(d, node) + AckBudget(d, f)
  {
    var (table, events) := R.Settle(node.table, node.id, f.Header());
    SettleCost(d, node.table, node.id, f.Header());
    var n := node.(table := table, events := node.events + events);
    if f.wantAck && f.dest == node.id && f.src != node.id {
      var c := Launch(Prepare(n, AckRequest(n, f)), false);
      AckCost(d, n, f, c);
      SpreadWeight(d, tx, c);
      FanMonotone(d, d, CopyWeight(d, c), HopWeight(d, Rank(f) - 1, 7));
      AckUntracked(n, f, tx, now);
    }
  }

  lemma SettleCost(d: nat, st: R.State<Copy>, me: nat, p: R.Packet)
    ensures var slots := R.Settle(st, me, p).0.slots;
      |slots| == |st.slots| && TableWeight(d, slots, |slots|) <= TableWeight(d, st.slots, |st.slots|)
  {
    var k := R.FirstHolding(st.slots, p.requestId);
    if k < |st.slots| {
      TableUpdate(d, st.slots, k, R.Free, |st.slots|);
    }
  }

  /** Acknowledgements themselves never enter the table. */
  lemma AckUntracked(n: Node, f: Frame, tx: Tx, now: int)
    ensures var e := Send(n, AckRequest(n, f), false, tx, true, now, 0);
      && e.node.table == n.table && e.sent <= 1
      && (e.rx == [] || e.rx == Spread(tx, Launch(Prepare(n, AckRequest(n, f)), false)))
  {
  }

  lemma ReceiveCost(d: nat, node: Node, c: Copy, decodes: bool, ack: Tx, relay: Tx, now: int)
    requires |ack.heard| <= d && |relay.heard| <= d
    ensures var e := Receive(node, c, decodes, ack, relay, now);
      NodeWeight(d, e.node) + AirWeight(d, e.rx) + e.sent + 1 <= NodeWeight(d, node) + CopyWeight(d, c)
  {
    hide OnDecoded, ReceiveFresh, AckBudget, RelayBudget, CopyWeight, NodeWeight;
    Budgets(d, c);
    if node.ignoresMqtt && c.frame.viaMqtt {
    } else if node.ring.Contains(c.frame.Key()) {
      OnDecodedCost(d, node, c.frame, ack, now);
      assert [] + OnDecoded(node, c.frame, ack, now).rx == OnDecoded(node, c.frame, ack, now).rx;
    } else {
      ReceiveFreshCost(d, node, c, decodes, ack, relay, now);
    }
  }

  lemma ReceiveFreshCost(d: nat, node: Node, c: Copy, decodes: bool, ack: Tx, relay: Tx, now: int)
    requires |ack.heard| <= d && |relay.heard| <= d
    ensures var e := ReceiveFresh(node, c, decodes, ack, relay, now);
      NodeWeight(d, e.node) + AirWeight(d, e.rx) + e.sent
        <= NodeWeight(d, node) + AckBudget(d, c.frame) + RelayBudget(d, c)
  {
    var n := Admit(node, Accept(c.frame.Key(), decodes && Delivers(node, c.frame), Relays(node, c.frame)));
    var handled := Handle(n, c, decodes, ack, now);
    HandleCost(d, n, c, decodes, ack, now);
    if Relays(node, c.frame) {
      SpreadWeight(d, relay, RelayOf(c));
      AirAppend(d, handled.rx, Spread(relay, RelayOf(c)));
    }
  }

  lemma HandleCost(d: nat, node: Node, c: Copy, decodes: bool, ack: Tx, now: int)
    requires |ack.heard| <= d
    ensures var e := Handle(node, c, decodes, ack, now);
      NodeWeight(d, e.node) + AirWeight(d, e.rx) + e.sent
        <= NodeWeight(d, node) + AckBudget(d, c.frame)
  {
    var n := if c.frame.src != node.id then Uplink(node, c) else node;
    OnDecodedCost(d, n, c.frame, ack, now);
    assert [] + OnDecoded(n, c.frame, ack, now).rx == OnDecoded(n, c.frame, ack, now).rx;
  }

  // ---- retrying ----------------------------------------------------------------------

  lemma {:induction false} ResentAppend(a: seq<R.Event<Copy>>, b: seq<R.Event<Copy>>, txs: nat -> Tx)
    ensures ResentRx(a + b, txs) == ResentRx(a, txs) + ResentRx(b, txs)
    ensures ResentCount(a + b) == ResentCount(a) + ResentCount(b)
  {
    if a == [] {
      assert a + b == b;
    } else {
      assert (a + b)[1..] == a[1..] + b;
      ResentAppend(a[1..], b, txs);
    }
  }

  /** What the retransmissions among `events` cost. */
  function ResendsPrice(d: nat, events: seq<R.Event<Copy>>, txs: nat -> Tx): nat {
    AirWeight(d, ResentRx(events, txs)) + ResentCount(events)
  }

  lemma PriceAppend(d: nat, a: seq<R.Event<Copy>>, b: seq<R.Event<Copy>>, txs: nat -> Tx)
    ensures ResendsPrice(d, a + b, txs) == ResendsPrice(d, a, txs) + ResendsPrice(d, b, txs)
  {
    ResentAppend(a, b, txs);
    AirAppend(d, ResentRx(a, txs), ResentRx(b, txs));
  }

  /** If every slot pays for the events it contributes, the table pays for all of them. */
  lemma {:induction false} SlotsPay(d: nat, slots: seq<R.Slot<Copy>>, slots': seq<R.Slot<Copy>>,
                                    parts: seq<seq<R.Event<Copy>>>, n: nat, txs: nat -> Tx)
    requires |slots'| == |parts| == |slots| && n <= |slots|
    requires forall i :: 0 <= i < |slots| ==>
      SlotWeight(d, slots'[i]) + ResendsPrice(d, parts[i], txs) <= SlotWeight(d, slots[i])
    ensures TableWeight(d, slots', n) + ResendsPrice(d, R.Gather(parts, n), txs) <= TableWeight(d, slots, n)
  {
    if n > 0 {
      SlotsPay(d, slots, slots', parts, n - 1, txs);
      PriceAppend(d, R.Gather(parts, n - 1), parts[n - 1], txs);
    }
  }

  lemma ResendCost(d: nat, s: R.Slot<Copy>, now: int, delay: nat, i: nat, txs: nat -> Tx)
    requires |txs(i).heard| <= d
    ensures SlotWeight(d, R.SweepSlot(s, now, delay)) + ResendsPrice(d, R.ResendOf(s, now, i), txs) <= SlotWeight(d, s)
  {
    if R.Due(s, now) && s.attemptsLeft > 0 {
      SpreadWeight(d, txs(i), s.wire);
      OnePrice(d, R.Resent(i, now, s.wire), txs);
    }
  }

  lemma OnePrice(d: nat, e: R.Event<Copy>, txs: nat -> Tx)
    ensures ResendsPrice(d, [e], txs) == if e.Resent? then AirWeight(d, Spread(txs(e.slot), e.wire)) + 1 else 0
  {
    assert [e][1..] == [];
    assert ResentCount([e]) == (if e.Resent? then 1 else 0) + ResentCount([e][1..]);
    assert ResentRx([e], txs) == (if e.Resent? then Spread(txs(e.slot), e.wire) else []) + ResentRx([e][1..], txs);
    assert ResentRx([e], txs) == if e.Resent? then Spread(txs(e.slot), e.wire) else [];
  }

  lemma TimerCost(d: nat, node: Node, now: int, delays: nat -> nat, txs: nat -> Tx)
    requires forall i :: |txs(i).heard| <= d
    ensures var e := RunTimer(node, now, delays, txs);
      NodeWeight(d, e.node) + AirWeight(d, e.rx) + e.sent <= NodeWeight(d, node)
  {
    var slots, n := node.table.slots, |node.table.slots|;
    var resends, expiries := R.ResendParts(slots, now), R.ExpiryParts(slots, now);
    var swept := R.SweepSlots(slots, now, delays);
    forall i | 0 <= i < n
      ensures SlotWeight(d, swept[i]) + ResendsPrice(d, resends[i], txs) <= SlotWeight(d, slots[i])
      ensures ResendsPrice(d, expiries[i], txs) == 0
    {
      ResendCost(d, slots[i], now, delays(i), i, txs);
      if expiries[i] != [] {
        OnePrice(d, expiries[i][0], txs);
      }
    }
    SlotsPay(d, slots, swept, resends, n, txs);
    SlotsPay(d, slots, slots, expiries, n, txs);
    PriceAppend(d, R.Gather(resends, n), R.Gather(expiries, n), txs);
  }

  lemma {:induction false} FreeCost(d: nat, slots: seq<R.Slot<Copy>>, n: nat)
    requires n <= |slots| && forall i :: 0 <= i < n ==> slots[i].Free?
    ensures TableWeight(d, slots, n) == 0
  {
    if n > 0 {
      FreeCost(d, slots, n - 1);
    }
  }

  // ---- the network -------------------------------------------------------------------

  /** Neither an application nor a gateway puts anything new on the air. */
  predicate Quiet(s: Step) {
    !s.AppSend? && !s.Downlink?
  }

  ghost function Sent(net: Net, s: Step): nat
    requires Possible(net, s)
  {
    if s.Lose? then 0 else Act(net, s).sent
  }

  lemma ActCost(net: Net, s: Step)
    requires Possible(net, s) && Quiet(s) && !s.Lose?
    ensures var d, e, node := |net.nodes|, Act(net, s), net.nodes[Actor(net, s)];
      NodeWeight(d, e.node) + AirWeight(d, e.rx) + e.sent
        <= NodeWeight(d, node) + (if s.Hear? then CopyWeight(d, net.air[s.k].copy) - 1 else 0)
  {
    var d, node := |net.nodes|, net.nodes[Actor(net, s)];
    match s
    case Hear(k, decodes, ack, relay, now) => ReceiveCost(d, node, net.air[k].copy, decodes, ack, relay, now);
    case TimerFires(_) =>
    case TimerRuns(_, now, delays, txs) =>
      forall i ensures |txs(i).heard| <= d {
        assert TxOk(net, txs(i));
      }
      TimerCost(d, node, now, delays, txs);
    case Reinit(_) => FreeCost(d, R.Reset(node.table).0.slots, |node.table.slots|);
  }

  /** Every reception, relay, acknowledgement, re-acknowledgement and retransmission is paid for. */
  lemma StepCost(net: Net, s: Step)
    requires Possible(net, s) && Quiet(s)
    ensures |Perform(net, s).nodes| == |net.nodes|
    ensures NetWeight(Perform(net, s)) + Sent(net, s) + (if s.Hear? || s.Lose? then 1 else 0) <= NetWeight(net)
  {
    var d := |net.nodes|;
    if s.Lose? {
      AirRemove(d, net.air, s.k);
    } else {
      ActCost(net, s);
      var e := Act(net, s);
      NodesUpdate(d, net.nodes, Actor(net, s), e.node, d);
      if s.Hear? {
        AirRemove(d, net.air, s.k);
        AirAppend(d, Without(net.air, s.k), e.rx);
      } else {
        AirAppend(d, net.air, e.rx);
      }
    }
  }

  ghost function Transmissions(net: Net, run: seq<Step>): nat
    requires IsRun(net, run)
    decreases |run|
  {
    if run == [] then 0 else Sent(net, run[0]) + Transmissions(Perform(net, run[0]), run[1..])
  }

  function Receptions(run: seq<Step>): nat {
    if run == [] then 0 else (if run[0].Hear? || run[0].Lose? then 1 else 0) + Receptions(run[1..])
  }

  /** However long it runs, a mesh left alone transmits and receives only so much. */
  lemma {:induction false} Quiescence(net: Net, run: seq<Step>)
    requires IsRun(net, run) && forall i :: 0 <= i < |run| ==> Quiet(run[i])
    ensures Transmissions(net, run) + Receptions(run) + NetWeight(After(net, run)) <= NetWeight(net)
    decreases |run|
  {
    if run != [] {
      StepCost(net, run[0]);
      Quiescence(Perform(net, run[0]), run[1..]);
    }
  }
}
