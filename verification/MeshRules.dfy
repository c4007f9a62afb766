/**
  What one node does in one step, rule by rule, with every condition and every field written out:
  what is handed to the application, passed on, acknowledged, settled, queued for the broker, put on
  the air by a send or a downlink, and sent again by the timer.
 */
module MeshRules {
  import opened Options
  import opened DupCache
  import opened Mesh
  import opened MeshFlood
  import MeshCopies
  import MeshQuiescence
  import R = Reliable

  const EVERYONE := 0xFFFF_FFFF

  // ---- reception: delivery and relaying -----------------------------------------------------------

  /** Ignored altogether: it came over MQTT, and the build does not want that. */
  predicate Ignored(node: Node, c: Copy) {
    node.ignoresMqtt && c.frame.viaMqtt
  }

  predicate FirstTime(node: Node, c: Copy) {
    !Ignored(node, c) && !node.ring.Contains(c.frame.Key())
  }

  /** Addressed to this node or to all, on a port its mode lets through. */
  predicate Wanted(node: Node, dest: nat, port: nat) {
    (dest == node.id || dest == EVERYONE) && (!node.coreOnly || port in {1, 3, 4, 5, 67})
  }

  /** The application gets a packet the first time it is heard, if it can be read and is meant for it, and never else. */
  lemma DeliveryRule(node: Node, c: Copy, decodes: bool, ack: Tx, relay: Tx, now: int)
    ensures Receive(node, c, decodes, ack, relay, now).delivered
         == if FirstTime(node, c) && decodes && Wanted(node, c.frame.dest, c.frame.data.portnum) then [c.frame] else []
  {
    hide Handle, ReceiveDuplicate;
    DuplicateOwn(node, c, decodes, ack, now);
    HandleOwn(Admit(node, Receipt(node, c, decodes)), c, decodes, ack, now);
  }

  /** A rebroadcasting node passes on what it hears first, is neither from nor to it, has hops left, and has an id if it is for all. */
  predicate PassesOn(node: Node, c: Copy) {
    && FirstTime(node, c) && node.rebroadcasts
    && c.frame.src != node.id && c.frame.dest != node.id && c.frame.hopLimit > 0
    && !(c.frame.dest == EVERYONE && c.frame.id == 0)
  }

  /** The copy passed on: one hop shorter, nothing else changed. */
  function Shorter(c: Copy): Copy
    requires c.frame.hopLimit > 0
  {
    Copy(c.frame.(hopLimit := c.frame.hopLimit - 1), c.relays + 1, c.bridged, c.original)
  }

  lemma SpreadHas(tx: Tx, c: Copy, i: nat)
    requires tx.ok && i < |tx.heard|
    ensures Rx(tx.heard[i], c) in Spread(tx, c)
  {
    assert Spread(tx, c)[i] == Rx(tx.heard[i], c);
  }

  lemma RelayRule(node: Node, c: Copy, decodes: bool, ack: Tx, relay: Tx, now: int)
    ensures var e := Receive(node, c, decodes, ack, relay, now);
      && (!PassesOn(node, c) ==> forall k :: 0 <= k < |e.rx| ==> e.rx[k].copy.relays == 0)
      && (PassesOn(node, c) && relay.ok ==> forall i :: 0 <= i < |relay.heard| ==> Rx(relay.heard[i], Shorter(c)) in e.rx)
  {
    hide Handle, ReceiveDuplicate, Spread;
    DuplicateOwn(node, c, decodes, ack, now);
    var n := Admit(node, Receipt(node, c, decodes));
    HandleOwn(n, c, decodes, ack, now);
    if PassesOn(node, c) && relay.ok {
      forall i | 0 <= i < |relay.heard|
        ensures Rx(relay.heard[i], Shorter(c)) in Receive(node, c, decodes, ack, relay, now).rx
      {
        SpreadHas(relay, Shorter(c), i);
        assert RelayOf(c) == Shorter(c);
      }
    }
  }

  lemma IgnoredRule(node: Node, c: Copy, decodes: bool, ack: Tx, relay: Tx, now: int)
    requires Ignored(node, c)
    ensures Receive(node, c, decodes, ack, relay, now) == Effect(node, [], 0, map[], {}, [])
  {
  }

  // ---- reception: acknowledging, settling, uplink ---------------------------------------------------

  /** Asked to by a packet from somebody else to this very node. */
  predicate MustAck(node: Node, f: Frame) {
    f.wantAck && f.dest == node.id && f.src != node.id
  }

  /** The hops of an answer: as many as the way here took, up to two more, and the own limit where that is unknown. */
  function AnswerHops(own: nat, f: Frame): nat {
    if f.hopStart == 0 || f.hopStart < f.hopLimit then own
    else Max(f.hopStart - f.hopLimit, Min(f.hopStart - f.hopLimit + 2, own))
  }

  /** The answer, field by field; an answer to a text asks to be answered itself. */
  function AnswerTo(node: Node, f: Frame): Frame {
    var hops := AnswerHops(node.hopLimit, f) % 8;
    Frame(if f.src == 0 then EVERYONE else f.src, node.id, if node.nextId == 0 then 1 else node.nextId, hops, hops,
          f.data.portnum == 1 || f.data.portnum == 7, false, Data(5, f.id, false, []))
  }

  lemma AnswerPrepared(node: Node, f: Frame)
    requires MustAck(node, f)
    ensures Prepare(node, AckRequest(node, f)) == AnswerTo(node, f) && Sendable(AckRequest(node, f))
    ensures AckRequest(node, f).id == 0 && !AckRequest(node, f).viaMqtt
  {
  }

  /** One answer, heard by whoever hears it, to what must be acknowledged; nothing to anything else. */
  lemma AckRule(node: Node, f: Frame, tx: Tx, now: int)
    ensures var e := OnDecoded(node, f, tx, now);
      && e.sent == (if MustAck(node, f) then 1 else 0)
      && e.rx == if MustAck(node, f) then Spread(tx, Launch(AnswerTo(node, f), false)) else []
  {
    hide R.Settle, R.Track, Prepare, AckRequest, Spread, AnswerTo;
    if MustAck(node, f) {
      var (table, events) := R.Settle(node.table, node.id, f.Header());
      var n := node.(table := table, events := node.events + events);
      AnswerPrepared(n, f);
      SameAnswer(node, n, f);
      SpreadNone(tx, Launch(AnswerTo(node, f), false));
    }
  }

  lemma SpreadNone(tx: Tx, c: Copy)
    ensures !tx.ok ==> Spread(tx, c) == []
  {
  }

  lemma SameAnswer(node: Node, n: Node, f: Frame)
    requires n.id == node.id && n.nextId == node.nextId && n.hopLimit == node.hopLimit
    ensures AnswerTo(n, f) == AnswerTo(node, f)
  {
  }

  /** A readable packet is acted upon when it is new, and again when it asks this node for an acknowledgement. */
  predicate ActsOn(node: Node, c: Copy, decodes: bool) {
    decodes && !Ignored(node, c)
    && (!node.ring.Contains(c.frame.Key()) || (c.frame.wantAck && c.frame.dest == node.id))
  }

  lemma ReceiveAckRule(node: Node, c: Copy, decodes: bool, ack: Tx, relay: Tx, now: int)
    ensures var e := Receive(node, c, decodes, ack, relay, now);
      && (ActsOn(node, c, decodes) && MustAck(node, c.frame) && ack.ok ==>
            forall i :: 0 <= i < |ack.heard| ==> Rx(ack.heard[i], Launch(AnswerTo(node, c.frame), false)) in e.rx)
      && (!(ActsOn(node, c, decodes) && MustAck(node, c.frame)) ==> forall k :: 0 <= k < |e.rx| ==> e.rx[k].copy.relays > 0)
      && e.sent == (if ActsOn(node, c, decodes) && MustAck(node, c.frame) then 1 else 0) + (if PassesOn(node, c) then 1 else 0)
  {
    hide OnDecoded, AnswerTo, Spread;
    var n := Admit(node, Receipt(node, c, decodes));
    var m := if c.frame.src != n.id then Uplink(n, c) else n;
    AckRule(node, c.frame, ack, now);
    AckRule(m, c.frame, ack, now);
    SameAnswer(node, m, c.frame);
    var answer := Launch(AnswerTo(node, c.frame), false);
    if ack.ok {
      forall i | 0 <= i < |ack.heard|
        ensures Rx(ack.heard[i], answer) in Spread(ack, answer)
      {
        SpreadHas(ack, answer, i);
      }
    }
    if PassesOn(node, c) {
      SpreadOnly(relay, RelayOf(c));
    }
  }

  lemma SpreadOnly(tx: Tx, c: Copy)
    ensures forall k :: 0 <= k < |Spread(tx, c)| ==> Spread(tx, c)[k].copy == c
  {
  }

  /** The first entry waiting for packet `id`. */
  ghost predicate FirstWaiting(node: Node, id: nat, i: nat) {
    && i < |node.table.slots| && node.table.slots[i].Pending? && node.table.slots[i].id == id
    && forall j :: 0 <= j < i ==> node.table.slots[j].Free? || node.table.slots[j].id != id
  }

  /** A ROUTING packet from somebody else to this node, about one of its packets. */
  predicate IsReply(node: Node, f: Frame) {
    f.src != node.id && f.dest == node.id && f.data.portnum == 5 && f.data.requestId != 0
  }

  lemma OnDecodedSettles(node: Node, f: Frame, tx: Tx, now: int, i: nat)
    requires IsReply(node, f) && FirstWaiting(node, f.data.requestId, i)
    ensures var (e, s) := (OnDecoded(node, f, tx, now), node.table.slots[i]);
      && e.node.table.slots == node.table.slots[i := R.Free]
      && e.node.events == node.events
         + [if f.data.nak then R.Nacked(i, s.id, s.dest, s.portnum) else R.Acked(i, s.id, s.dest, s.portnum)]
  {
    SettleExact(node, f, i);
    var (table, events) := R.Settle(node.table, node.id, f.Header());
    var n := node.(table := table, events := node.events + events);
    hide R.Settle, Send, AckRequest;
    AnswerNotTracked(n, f, tx, now);
  }

  lemma SettleExact(node: Node, f: Frame, i: nat)
    requires IsReply(node, f) && FirstWaiting(node, f.data.requestId, i)
    ensures var ((table, events), s) := (R.Settle(node.table, node.id, f.Header()), node.table.slots[i]);
      && table.slots == node.table.slots[i := R.Free]
      && events == [if f.data.nak then R.Nacked(i, s.id, s.dest, s.portnum) else R.Acked(i, s.id, s.dest, s.portnum)]
  {
    var k := R.FirstHolding(node.table.slots, f.data.requestId);
    assert k <= i;
    assert k == i;
    hide R.FirstHolding;
  }

  /** A reply that is acted upon settles its entry for good or for bad. */
  lemma SettleRule(node: Node, c: Copy, decodes: bool, ack: Tx, relay: Tx, now: int, i: nat)
    requires ActsOn(node, c, decodes) && IsReply(node, c.frame) && FirstWaiting(node, c.frame.data.requestId, i)
    ensures var (e, s) := (Receive(node, c, decodes, ack, relay, now), node.table.slots[i]);
      && e.node.table.slots == node.table.slots[i := R.Free]
      && e.node.events == node.events
         + [if c.frame.data.nak then R.Nacked(i, s.id, s.dest, s.portnum) else R.Acked(i, s.id, s.dest, s.portnum)]
  {
    hide OnDecoded;
    var n := Admit(node, Receipt(node, c, decodes));
    OnDecodedSettles(node, c.frame, ack, now, i);
    OnDecodedSettles(Uplink(n, c), c.frame, ack, now, i);
  }

  /** With the gates open, what a node hears first from others and what it answers goes to the broker, unless it came from there. */
  lemma UplinkRule(node: Node, c: Copy, decodes: bool, ack: Tx, relay: Tx, now: int)
    ensures Receive(node, c, decodes, ack, relay, now).node.uplinked == node.uplinked
         + (if FirstTime(node, c) && decodes && c.frame.src != node.id && node.uplinks && !c.frame.viaMqtt then [c] else [])
         + (if ActsOn(node, c, decodes) && MustAck(node, c.frame) && ack.ok && node.uplinks
            then [Launch(AnswerTo(node, c.frame), false)] else [])
  {
    hide OnDecoded, AnswerTo;
    var n := Admit(node, Receipt(node, c, decodes));
    var m := if c.frame.src != n.id then Uplink(n, c) else n;
    OnDecodedUplinks(node, c.frame, ack, now);
    OnDecodedUplinks(m, c.frame, ack, now);
    SameAnswer(node, m, c.frame);
  }

  lemma OnDecodedUplinks(node: Node, f: Frame, tx: Tx, now: int)
    ensures OnDecoded(node, f, tx, now).node.uplinked == node.uplinked
         + if MustAck(node, f) && tx.ok && node.uplinks then [Launch(AnswerTo(node, f), false)] else []
  {
    hide R.Settle, R.Track, Prepare, AckRequest, Spread, AnswerTo;
    if MustAck(node, f) {
      var (table, events) := R.Settle(node.table, node.id, f.Header());
      var n := node.(table := table, events := node.events + events);
      AnswerPrepared(n, f);
      SameAnswer(node, n, f);
      OwnAnswer(node, f);
    }
  }

  lemma OwnAnswer(node: Node, f: Frame)
    ensures AnswerTo(node, f).src == node.id && !AnswerTo(node, f).viaMqtt
  {
  }

  /** Nothing else touches the table or is reported. */
  lemma UnsettledRule(node: Node, c: Copy, decodes: bool, ack: Tx, relay: Tx, now: int)
    requires !(ActsOn(node, c, decodes) && IsReply(node, c.frame)) || forall i :: !FirstWaiting(node, c.frame.data.requestId, i)
    ensures var e := Receive(node, c, decodes, ack, relay, now); e.node.table == node.table && e.node.events == node.events
  {
    hide OnDecoded;
    var n := Admit(node, Receipt(node, c, decodes));
    var m := if c.frame.src != n.id then Uplink(n, c) else n;
    if ActsOn(node, c, decodes) {
      if IsReply(node, c.frame) {
        forall i ensures !FirstWaiting(m, c.frame.data.requestId, i) {
          assert !FirstWaiting(node, c.frame.data.requestId, i);
        }
      }
      OnDecodedLeaves(node, c.frame, ack, now);
      OnDecodedLeaves(m, c.frame, ack, now);
    }
  }

  lemma OnDecodedLeaves(node: Node, f: Frame, tx: Tx, now: int)
    requires !IsReply(node, f) || forall i :: !FirstWaiting(node, f.data.requestId, i)
    ensures var e := OnDecoded(node, f, tx, now); e.node.table == node.table && e.node.events == node.events
  {
    SettleLeaves(node, f);
    var (table, events) := R.Settle(node.table, node.id, f.Header());
    var n := node.(table := table, events := node.events + events);
    hide R.Settle, Send, Prepare, AckRequest;
    AnswerNotTracked(n, f, tx, now);
  }

  lemma AnswerNotTracked(n: Node, f: Frame, tx: Tx, now: int)
    ensures var e := Send(n, AckRequest(n, f), false, tx, true, now, 0); e.node.table == n.table && e.node.events == n.events
  {
    hide Send;
    var q := AckRequest(n, f);
    assert Fills(n, q, Prepare(n, q));
    NotTrackedRule(n, q, false, tx, true, now, 0, Prepare(n, q));
  }

  lemma SettleLeaves(node: Node, f: Frame)
    requires !IsReply(node, f) || forall i :: !FirstWaiting(node, f.data.requestId, i)
    ensures f.src == node.id || R.Settle(node.table, node.id, f.Header()) == (node.table, [])
  {
    var k := R.FirstHolding(node.table.slots, f.data.requestId);
    assert k == |node.table.slots| || FirstWaiting(node, f.data.requestId, k);
  }

  // ---- sending ------------------------------------------------------------------------------------

  /** A transmission that the radio takes is heard by exactly those who hear it; one it refuses by nobody. */
  lemma SpreadRule(tx: Tx, c: Copy)
    ensures |Spread(tx, c)| == if tx.ok then |tx.heard| else 0
    ensures forall i :: 0 <= i < |Spread(tx, c)| ==> Spread(tx, c)[i] == Rx(tx.heard[i], c)
  {
  }

  /** What a caller gives is kept, and what it leaves open is filled in. */
  predicate Fills(node: Node, q: Request, f: Frame) {
    && f.dest == q.dest && f.wantAck == q.wantAck && f.viaMqtt == q.viaMqtt && f.data == q.data
    && f.src == (if q.src == 0 then node.id else q.src)
    && f.id == (if q.id != 0 then q.id else if node.nextId == 0 then 1 else node.nextId)
    && f.hopLimit == (if q.hopLimit != 0 then q.hopLimit else node.hopLimit) % 8
    && f.hopStart == (if q.hopStart != 0 then q.hopStart else if q.hopLimit != 0 then q.hopLimit else node.hopLimit) % 8
  }

  predicate Acceptable(q: Request) {
    q.dest != 0 && |q.data.payload| <= 233
  }

  /** Everybody hears the filled-in frame; the waiting caller's own packets go to the broker. */
  lemma SendRule(node: Node, q: Request, bridged: bool, tx: Tx, forever: bool, now: int, delay: nat)
    ensures var e := Send(node, q, bridged, tx, forever, now, delay);
      && (!Acceptable(q) ==> e == Effect(node, [], 0, map[], {}, []))
      && (Acceptable(q) ==>
            && e.sent == 1
            && exists f :: && Fills(node, q, f) && e.rx == Spread(tx, Launch(f, bridged))
                           && e.node.uplinked == node.uplinked
                              + if tx.ok && forever && f.src == node.id && node.uplinks && !q.viaMqtt then [Launch(f, bridged)] else [])
  {
    hide R.Track, Spread;
    if Acceptable(q) {
      var f := Prepare(node, q);
      SpreadNone(tx, Launch(f, bridged));
      assert Fills(node, q, f);
    }
  }

  /** An id left to the stack is taken off the 32-bit counter, which skips 0; an id the caller gives is not. */
  lemma AllocRule(node: Node, q: Request, bridged: bool, tx: Tx, forever: bool, now: int, delay: nat)
    requires node.nextId < 0x1_0000_0000
    ensures var (e, id) := (Send(node, q, bridged, tx, forever, now, delay), if node.nextId == 0 then 1 else node.nextId);
      e.node.nextId == if Acceptable(q) && q.id == 0 then (id + 1) % 0x1_0000_0000 else node.nextId
  {
    hide R.Track, Spread, Prepare, AfterAlloc;
    CounterStep(node);
  }

  lemma CounterStep(node: Node)
    requires node.nextId < 0x1_0000_0000
    ensures AfterAlloc(node).nextId == ((if node.nextId == 0 then 1 else node.nextId) + 1) % 0x1_0000_0000
  {
  }

  /** What asks to be acknowledged by somebody else, and is not ROUTING traffic itself, waits in the first free slot. */
  predicate Waits(node: Node, f: Frame) {
    f.wantAck && f.id != 0 && f.dest != EVERYONE && f.dest != node.id && f.data.portnum != 5
  }

  lemma TrackRule(node: Node, q: Request, bridged: bool, tx: Tx, forever: bool, now: int, delay: nat, f: Frame, i: nat)
    requires Acceptable(q) && tx.ok && Fills(node, q, f) && Waits(node, f)
    requires i < |node.table.slots| && node.table.slots[i].Free? && forall j :: 0 <= j < i ==> node.table.slots[j].Pending?
    ensures var e := Send(node, q, bridged, tx, forever, now, delay);
      e.node.table.slots == node.table.slots
        [i := R.Pending(f.id, f.dest, f.data.portnum, now + delay, node.cfg.retransmissions, Launch(f, bridged))]
  {
    hide R.EarliestDue, Spread;
    assert f == Prepare(node, q);
    assert R.FirstFree(node.table.slots) == i;
  }

  lemma NotTrackedRule(node: Node, q: Request, bridged: bool, tx: Tx, forever: bool, now: int, delay: nat, f: Frame)
    requires Fills(node, q, f)
    requires !Acceptable(q) || !tx.ok || !Waits(node, f) || forall j :: 0 <= j < |node.table.slots| ==> node.table.slots[j].Pending?
    ensures var e := Send(node, q, bridged, tx, forever, now, delay);
      e.node.table == node.table && e.node.events == node.events
  {
    hide R.EarliestDue, Spread;
    assert f == Prepare(node, q);
    var k := R.FirstFree(node.table.slots);
  }

  // ---- retrying -----------------------------------------------------------------------------------

  lemma {:induction false} ResendHeard(parts: seq<seq<R.Event<Copy>>>, n: nat, txs: nat -> Tx, j: nat, rx: Rx)
    requires j < n <= |parts| && rx in ResentRx(parts[j], txs)
    ensures rx in ResentRx(R.Gather(parts, n), txs)
  {
    hide ResentRx;
    MeshQuiescence.ResentAppend(R.Gather(parts, n - 1), parts[n - 1], txs);
    if j < n - 1 {
      ResendHeard(parts, n - 1, txs, j, rx);
    }
  }

  lemma OneResent(j: nat, now: int, c: Copy, txs: nat -> Tx)
    ensures ResentRx([R.Resent(j, now, c)], txs) == Spread(txs(j), c)
  {
    var e := [R.Resent(j, now, c)];
    assert e[1..] == [];
    assert ResentRx(e, txs) == Spread(txs(j), c) + ResentRx(e[1..], txs);
  }

  /** A due entry with attempts left is heard again, as it was first sent, and waits for its next turn. */
  lemma RetryRule(node: Node, now: int, delays: nat -> nat, txs: nat -> Tx, j: nat, i: nat)
    requires j < |node.table.slots| && node.table.slots[j].Pending?
    requires node.table.slots[j].due <= now && node.table.slots[j].attemptsLeft > 0
    requires txs(j).ok && i < |txs(j).heard|
    ensures var (e, s) := (RunTimer(node, now, delays, txs), node.table.slots[j]);
      && Rx(txs(j).heard[i], s.wire) in e.rx
      && |e.node.table.slots| == |node.table.slots|
      && e.node.table.slots[j] == s.(attemptsLeft := s.attemptsLeft - 1, due := now + delays(j))
  {
    hide R.EarliestDue, Spread, R.Gather, ResentRx;
    var slots, n := node.table.slots, |node.table.slots|;
    var resends, expiries := R.ResendParts(slots, now), R.ExpiryParts(slots, now);
    assert resends[j] == [R.Resent(j, now, slots[j].wire)];
    OneResent(j, now, slots[j].wire, txs);
    SpreadHas(txs(j), slots[j].wire, i);
    ResendHeard(resends, n, txs, j, Rx(txs(j).heard[i], slots[j].wire));
    MeshQuiescence.ResentAppend(R.Gather(resends, n), R.Gather(expiries, n), txs);
  }

  /** An entry out of attempts is given up and reported; one that is not due stays as it is. */
  lemma ExpiryRule(node: Node, now: int, delays: nat -> nat, txs: nat -> Tx, j: nat)
    requires j < |node.table.slots| && node.table.slots[j].Pending?
    ensures var (e, s) := (RunTimer(node, now, delays, txs), node.table.slots[j]);
      && |e.node.table.slots| == |node.table.slots|
      && (s.due > now ==> e.node.table.slots[j] == s)
      && (s.due <= now && s.attemptsLeft == 0 ==>
            e.node.table.slots[j].Free? && R.TimedOut(j, now, s.id, s.dest, s.portnum) in e.node.events)
  {
    hide R.EarliestDue, ResentRx, ResentCount;
    var slots, n := node.table.slots, |node.table.slots|;
    var expiries := R.ExpiryParts(slots, now);
    var s := slots[j];
    if s.due <= now && s.attemptsLeft == 0 {
      assert expiries[j] == [R.TimedOut(j, now, s.id, s.dest, s.portnum)];
      InGather(expiries, n, j, expiries[j][0]);
    }
  }

  lemma {:induction false} InGather(parts: seq<seq<R.Event<Copy>>>, n: nat, j: nat, e: R.Event<Copy>)
    requires j < n <= |parts| && e in parts[j]
    ensures e in R.Gather(parts, n)
  {
    if j < n - 1 {
      InGather(parts, n - 1, j, e);
    }
  }

  // ---- gateway downlinks --------------------------------------------------------------------------

  /** New, with something to pass on, not for this node, and with hops left unless it is encrypted. */
  predicate GoesOut(node: Node, q: Request, payload: Payload) {
    && !node.ring.Contains(Pair(q.src, q.id)) && !payload.Missing? && q.dest != node.id
    && (q.hopLimit > 0 || payload.Sealed?) && (payload.Sealed? || |q.data.payload| <= 233)
  }

  /** The frame on the air: flagged, a missing destination is everyone, and an encrypted packet without hops stays without. */
  predicate DownlinkFills(node: Node, q: Request, payload: Payload, f: Frame) {
    && f.viaMqtt && f.wantAck == q.wantAck && f.data == q.data
    && f.dest == (if q.dest == 0 then EVERYONE else q.dest)
    && f.src == (if q.src == 0 then node.id else q.src)
    && f.id == (if q.id != 0 then q.id else if node.nextId == 0 then 1 else node.nextId)
    && f.hopLimit == q.hopLimit % 8
    && f.hopStart == (if q.hopStart == 0 then q.hopLimit else q.hopStart) % 8
  }

  lemma DownlinkFrameFilled(node: Node, n: Node, q: Request, payload: Payload)
    requires GoesOut(node, q, payload) && n.id == node.id && n.nextId == node.nextId && n.hopLimit == node.hopLimit
    ensures DownlinkFills(node, q, payload, InjectedFrame(n, Bridged(q), payload.Sealed?))
  {
  }

  /** The relaying half of an injection past the filter. */
  lemma FirstHears(node: Node, q: Request, encrypted: bool, tx: Tx, now: int, delay: nat)
    ensures DownlinkFirst(node, q, encrypted, tx, now, delay).rx
         == if q.dest != node.id && (q.hopLimit > 0 || encrypted) && (encrypted || |q.data.payload| <= 233)
            then Spread(tx, Launch(InjectedFrame(node, Bridged(q), encrypted), true)) else []
  {
    hide R.Track, Spread;
    SpreadNone(tx, Launch(InjectedFrame(node, Bridged(q), encrypted), true));
  }

  /** What is heard of an injection: its relay, then an acknowledgement of this node's own. */
  lemma InjectHeard(node: Node, q: Request, payload: Payload, decodes: bool, tx: Tx, ack: Tx, now: int, delay: nat)
    ensures var e := Inject(node, q, payload, decodes, tx, ack, now, delay);
      exists own: seq<Rx> :: && (forall k :: 0 <= k < |own| ==> !own[k].copy.bridged)
        && e.rx == (if GoesOut(node, q, payload)
                    then Spread(tx, Launch(InjectedFrame(node, Bridged(q), payload.Sealed?), true)) else []) + own
  {
    hide OnDecoded, DownlinkFirst, Spread, InjectedFrame, DownlinkOpens;
    var e := Inject(node, q, payload, decodes, tx, ack, now, delay);
    if node.ring.Contains(Pair(q.src, q.id)) || payload.Missing? {
      assert e.rx == [] + [];
    } else {
      var n := Admit(node, DownlinkReceipt(node, q, payload, decodes, tx));
      var first := DownlinkFirst(n, q, payload.Sealed?, tx, now, delay);
      FirstHears(n, q, payload.Sealed?, tx, now, delay);
      MeshCopies.SameInjected(node, n, Bridged(q), payload.Sealed?);
      var d := OnDecoded(first.node, DownlinkFrame(q), ack, now);
      OnDecodedOwn(first.node, DownlinkFrame(q), ack, now);
      var own := if DownlinkOpens(node, q, payload.Sealed?, decodes, tx) then d.rx else [];
      assert e.rx == first.rx + own;
    }
  }

  /** Whoever hears the radio hears the filled-in frame of a downlink that goes out, and no other downlink is heard. */
  lemma DownlinkRule(node: Node, q: Request, payload: Payload, decodes: bool, tx: Tx, ack: Tx, now: int, delay: nat)
    ensures var e := Inject(node, q, payload, decodes, tx, ack, now, delay);
      && (!GoesOut(node, q, payload) ==> forall k :: 0 <= k < |e.rx| ==> !e.rx[k].copy.bridged)
      && (GoesOut(node, q, payload) && tx.ok ==>
            exists f :: DownlinkFills(node, q, payload, f)
              && forall i :: 0 <= i < |tx.heard| ==> Rx(tx.heard[i], Launch(f, true)) in e.rx)
  {
    InjectHeard(node, q, payload, decodes, tx, ack, now, delay);
    hide Inject, Spread, InjectedFrame, DownlinkFills;
    var f := InjectedFrame(node, Bridged(q), payload.Sealed?);
    if GoesOut(node, q, payload) && tx.ok {
      DownlinkFrameFilled(node, node, q, payload);
      forall i | 0 <= i < |tx.heard|
        ensures Rx(tx.heard[i], Launch(f, true)) in Inject(node, q, payload, decodes, tx, ack, now, delay).rx
      {
        SpreadHas(tx, Launch(f, true), i);
      }
    }
  }

  /** The application gets a new downlink it can read and wants, unless relaying it first was tried and failed. */
  lemma DownlinkDeliveryRule(node: Node, q: Request, payload: Payload, decodes: bool, tx: Tx, ack: Tx, now: int, delay: nat)
    ensures var tried := q.dest != node.id && (q.hopLimit > 0 || payload.Sealed?);
      var done := tx.ok && (payload.Sealed? || |q.data.payload| <= 233);
      Inject(node, q, payload, decodes, tx, ack, now, delay).delivered
         == if && !node.ring.Contains(Pair(q.src, q.id)) && (payload.Plain? || (payload.Sealed? && decodes))
               && Wanted(node, q.dest, q.data.portnum) && (tried ==> done)
            then [Frame(q.dest, q.src, q.id, q.hopLimit % 8, q.hopStart % 8, q.wantAck, true, q.data)] else []
  {
    hide Inject;
    InjectAccounts(node, q, payload, decodes, tx, ack, now, delay);
  }
}
