/** Whole-run promises about flooding: hop accounting, MQTT loop freedom, duplicate suppression. */
module MeshFlood {
  import opened Options
  import opened DupCache
  import opened Mesh
  import opened MeshCopies
  import MeshAck
  import R = Reliable

  // ---- every copy is its original ----------------------------------------------------------

  /** Nothing but the hop limit has changed on the way, and that by one for each relay. */
  predicate Unchanged(c: Copy) {
    c.relays <= c.original.hopLimit && c.frame == c.original.(hopLimit := c.original.hopLimit - c.relays)
  }

  lemma {:induction false} UnchangedFrom(net: Net, run: seq<Step>)
    requires IsRun(net, run) && AllCopies(net, Unchanged)
    ensures AllCopies(After(net, run), Unchanged)
    decreases |run|
  {
    if run != [] {
      StepAll(net, run[0], Unchanged);
      UnchangedFrom(Perform(net, run[0]), run[1..]);
    }
  }

  /**
    In every run whatsoever, every copy on the air, stored for retransmission or queued for the
    broker is its original with exactly its relays' hops taken off.
   */
  lemma {:induction false} CopiesAreOriginals(net: Net, run: seq<Step>)
    requires FreshNet(net) && IsRun(net, run)
    ensures AllCopies(After(net, run), Unchanged)
  {
    UnchangedFrom(net, run);
  }

  /** Where ids are unique, that original is the frame its source put on the air under that id. */
  lemma {:induction false} OriginalsOnRecord(net: Net, run: seq<Step>, k: nat)
    requires FreshNet(net) && IsRun(net, run) && MeshAck.Trusted(net, run)
    requires k < |After(net, run).air|
    ensures var end := After(net, run);
      var c := end.air[k].copy;
      c.frame.Key() in end.origin && c.original == end.origin[c.frame.Key()] && Unchanged(c)
  {
    CopiesAreOriginals(net, run);
    MeshAck.FreshInv(net);
    MeshAck.RunKeeps(net, run);
    var end := After(net, run);
    assert MeshAck.Traced(end.origin, end.air[k].copy);
    assert Unchanged(end.air[k].copy);
  }

  // ---- hop accounting ------------------------------------------------------------------

  /** Each relay took exactly one hop off the initial budget. */
  predicate HopsHold(c: Copy) {
    c.frame.hopLimit + c.relays == c.frame.hopStart
  }

  /** Its sender left `hop_start` to the stack, or set it to the hop limit. */
  predicate Balanced(f: Frame) {
    f.hopStart == f.hopLimit
  }

  predicate Accounted(c: Copy) {
    Balanced(c.original) ==> HopsHold(c)
  }

  /**
    In every run, whatever other senders do, every copy anywhere of a frame that started out
    balanced has lost one hop per relay and no more; frames whose hop_start is left to the stack,
    acknowledgements among them, start out balanced.
   */
  lemma {:induction false} HopAccounting(net: Net, run: seq<Step>)
    requires FreshNet(net) && IsRun(net, run)
    ensures AllCopies(After(net, run), Accounted)
    ensures forall node: Node, q: Request :: q.hopStart == 0 ==> Balanced(Prepare(node, q))
    ensures forall node: Node, f: Frame :: Balanced(Prepare(node, AckRequest(node, f)))
  {
    CopiesAreOriginals(net, run);
    AllImplies(After(net, run), Unchanged, Accounted);
  }

  /** The acknowledgement of a received copy can always travel back as far as the copy came. */
  lemma ReturnBudget(node: Node, c: Copy)
    requires HopsHold(c) && 1 <= node.hopLimit <= 7
    ensures var ack := Prepare(node, AckRequest(node, c.frame));
      && 1 <= ack.hopLimit <= 7 && ack.hopStart == ack.hopLimit && c.relays <= ack.hopLimit
      && ack.hopLimit == if c.frame.hopStart == 0 then node.hopLimit
                         else Max(c.relays, Min(c.relays + REPLY_HOP_MARGIN, node.hopLimit))
  {
    var hops := ReplyHops(node.hopLimit, c.frame);
    assert hops == 0 || c.relays <= hops;
    assert Prepare(node, AckRequest(node, c.frame)).hopLimit == if hops == 0 then node.hopLimit else hops;
  }

  /** An answer to every copy there can be has hops, and enough for the way back. */
  ghost predicate AnswersReach(node: Node) {
    forall c: Copy :: HopsHold(c) ==>
      var ack := Prepare(node, AckRequest(node, c.frame)); 1 <= ack.hopLimit && c.relays <= ack.hopLimit
  }

  /** A copy after `relays` relays of a frame with that many hops and one to spare. */
  function Travelled(relays: Hop): Copy
    requires relays < 7
  {
    var f := Frame(1, 2, 3, 1, relays + 1, true, false, Data(PORT_TEXT, 0, false, []));
    Copy(f, relays, false, f.(hopLimit := relays + 1))
  }

  /** The answer to a copy after six relays would get eight hops or more, which is none on the air. */
  lemma Stranded(node: Node)
    requires node.hopLimit > 7
    ensures HopsHold(Travelled(6))
    ensures var ack := Prepare(node, AckRequest(node, Travelled(6).frame)); ack.hopLimit < 6
  {
  }

  /** A frame sent without any hops, as it was sent. */
  function NoHops(): Copy {
    Launch(Frame(1, 2, 3, 0, 0, true, false, Data(PORT_TEXT, 0, false, [])), false)
  }

  lemma Hopless(node: Node)
    requires node.hopLimit == 0
    ensures HopsHold(NoHops()) && Prepare(node, AckRequest(node, NoHops().frame)).hopLimit == 0
  {
    assert ReplyHops(node.hopLimit, NoHops().frame) == 0;
  }

  /** That takes a configured hop limit of 1 to 7, which the code does not check. */
  lemma AnswersReachIff(node: Node)
    ensures AnswersReach(node) <==> 1 <= node.hopLimit <= 7
  {
    hide Prepare, AckRequest;
    if 1 <= node.hopLimit <= 7 {
      forall c: Copy | HopsHold(c)
        ensures var ack := Prepare(node, AckRequest(node, c.frame)); 1 <= ack.hopLimit && c.relays <= ack.hopLimit
      {
        ReturnBudget(node, c);
      }
    } else if node.hopLimit == 0 {
      Hopless(node);
    } else {
      Stranded(node);
    }
  }

  /** In every run, whoever hears a copy of a balanced frame can answer it with hops enough for the way back. */
  lemma {:induction false} AnswersComeBack(net: Net, run: seq<Step>, k: nat, node: Node)
    requires FreshNet(net) && IsRun(net, run) && 1 <= node.hopLimit <= 7
    requires k < |After(net, run).air| && Balanced(After(net, run).air[k].copy.original)
    ensures var c := After(net, run).air[k].copy;
      var ack := Prepare(node, AckRequest(node, c.frame));
      1 <= ack.hopLimit <= 7 && c.relays <= ack.hopLimit
  {
    HopAccounting(net, run);
    assert Accounted(After(net, run).air[k].copy);
    ReturnBudget(node, After(net, run).air[k].copy);
  }

  // ---- MQTT loop freedom ---------------------------------------------------------------

  /** Whatever descends from a downlink says so on the air. */
  predicate Flagged(c: Copy) {
    c.bridged ==> c.frame.viaMqtt
  }

  lemma {:induction false} FlaggedFrom(net: Net, run: seq<Step>)
    requires IsRun(net, run) && AllCopies(net, Flagged)
    ensures AllCopies(After(net, run), Flagged)
    decreases |run|
  {
    if run != [] {
      StepAll(net, run[0], Flagged);
      FlaggedFrom(Perform(net, run[0]), run[1..]);
    }
  }

  /**
    Every frame on the air or stored for retransmission that descends from a downlink carries
    the VIA_MQTT flag, and no gateway ever queues such a frame for the broker again.
   */
  lemma MqttLoopFreedom(net: Net, run: seq<Step>)
    requires FreshNet(net) && IsRun(net, run)
    ensures var net' := After(net, run);
      && (forall k :: 0 <= k < |net'.air| ==> Flagged(net'.air[k].copy))
      && (forall i, j :: 0 <= i < |net'.nodes| && 0 <= j < |net'.nodes[i].table.slots| && net'.nodes[i].table.slots[j].Pending?
            ==> Flagged(net'.nodes[i].table.slots[j].wire))
      && (forall i, j :: 0 <= i < |net'.nodes| && 0 <= j < |net'.nodes[i].uplinked| ==>
            !net'.nodes[i].uplinked[j].frame.viaMqtt && !net'.nodes[i].uplinked[j].bridged)
  {
    FlaggedFrom(net, run);
    var net' := After(net, run);
    assert forall i :: 0 <= i < |net'.nodes| ==> NodeAll(net'.nodes[i], Flagged);
  }

  // ---- duplicate suppression -----------------------------------------------------------

  function Keys(log: seq<Accept>): (keys: seq<Pair>)
    ensures |keys| == |log| && forall i :: 0 <= i < |log| ==> keys[i] == log[i].key
  {
    seq(|log|, i requires 0 <= i < |log| => log[i].key)
  }

  ghost predicate FilterOk(node: Node) {
    Remembers(|node.ring.cells|, node.ring, Keys(node.accepted))
  }

  /** Sending and acknowledging do not touch the filter. */
  ghost predicate SameFilter(node: Node, node': Node) {
    node'.ring == node.ring && node'.accepted == node.accepted
  }

  lemma SendFilters(node: Node, q: Request, bridged: bool, tx: Tx, forever: bool, now: int, delay: nat)
    ensures SameFilter(node, Send(node, q, bridged, tx, forever, now, delay).node)
  {
  }

  lemma OnDecodedFilters(node: Node, f: Frame, tx: Tx, now: int)
    ensures SameFilter(node, OnDecoded(node, f, tx, now).node)
  {
    var (table, events) := R.Settle(node.table, node.id, f.Header());
    var n := node.(table := table, events := node.events + events);
    SendFilters(n, AckRequest(n, f), false, tx, true, now, 0);
    hide Send;
  }

  lemma DownlinkFirstFilters(node: Node, q: Request, encrypted: bool, tx: Tx, now: int, delay: nat)
    ensures SameFilter(node, DownlinkFirst(node, q, encrypted, tx, now, delay).node)
  {
    SendFilters(node, Bridged(q), true, tx, true, now, delay);
    hide Send;
  }

  lemma TimerFilters(node: Node, now: int, delays: nat -> nat, txs: nat -> Tx)
    ensures SameFilter(node, RunTimer(node, now, delays, txs).node)
  {
  }

  // ---- what is relayed or delivered has just been accepted ---------------------------------------

  /** Exactly one new acceptance, of a pair that was unknown. */
  ghost predicate JustAccepted(node: Node, node': Node, a: Accept) {
    !node.ring.Contains(a.key) && node'.ring == node.ring.Add(a.key) && node'.accepted == node.accepted + [a]
  }

  /** Everything heard of this effect was launched by the node itself, and nothing goes to its application. */
  ghost predicate OwnOnly(e: Effect, bridged: bool) {
    && e.delivered == []
    && forall k :: 0 <= k < |e.rx| ==> e.rx[k].copy.relays == 0 && e.rx[k].copy.bridged == bridged
  }

  lemma SendOwn(node: Node, q: Request, bridged: bool, tx: Tx, forever: bool, now: int, delay: nat)
    ensures OwnOnly(Send(node, q, bridged, tx, forever, now, delay), bridged)
  {
    hide R.Track, Prepare;
  }

  lemma OnDecodedOwn(node: Node, f: Frame, tx: Tx, now: int)
    ensures OwnOnly(OnDecoded(node, f, tx, now), false)
  {
    hide R.Settle, Send, AckRequest;
    var (table, events) := R.Settle(node.table, node.id, f.Header());
    var n := node.(table := table, events := node.events + events);
    SendOwn(n, AckRequest(n, f), false, tx, true, now, 0);
  }

  lemma DuplicateOwn(node: Node, c: Copy, decodes: bool, ack: Tx, now: int)
    ensures OwnOnly(ReceiveDuplicate(node, c, decodes, ack, now), false)
  {
    OnDecodedOwn(node, c.frame, ack, now);
    hide OnDecoded;
  }

  lemma DownlinkFirstOwn(node: Node, q: Request, encrypted: bool, tx: Tx, now: int, delay: nat)
    ensures OwnOnly(DownlinkFirst(node, q, encrypted, tx, now, delay), true)
  {
    SendOwn(node, Bridged(q), true, tx, true, now, delay);
    hide Send, Prepare;
  }

  lemma TimerOwn(node: Node, now: int, delays: nat -> nat, txs: nat -> Tx, P: Copy -> bool)
    requires NodeAll(node, P)
    ensures var e := RunTimer(node, now, delays, txs);
      e.delivered == [] && forall k :: 0 <= k < |e.rx| ==> e.rx[k].copy.relays == 0
  {
    var own := (c: Copy) => c.relays == 0;
    assert NodeAll(node.(uplinked := []), own);
    RunTimerAll(node.(uplinked := []), now, delays, txs, own);
    assert RunTimer(node.(uplinked := []), now, delays, txs).rx == RunTimer(node, now, delays, txs).rx;
  }

  lemma HandleOwn(node: Node, c: Copy, decodes: bool, ack: Tx, now: int)
    ensures var e := Handle(node, c, decodes, ack, now);
      && OwnOnly(e.(delivered := []), false) && SameFilter(node, e.node)
      && e.delivered == if decodes && Delivers(node, c.frame) then [c.frame] else []
  {
    var n := if c.frame.src != node.id then Uplink(node, c) else node;
    OnDecodedOwn(n, c.frame, ack, now);
    OnDecodedFilters(n, c.frame, ack, now);
    hide OnDecoded;
  }

  /** What the filter records of a reception it lets through. */
  function Receipt(node: Node, c: Copy, decodes: bool): Accept {
    Accept(c.frame.Key(), decodes && Delivers(node, c.frame), Relays(node, c.frame))
  }

  /** Delivered and passed on are exactly what the record says. */
  ghost predicate FreshAccount(node: Node, e: Effect, c: Copy, a: Accept) {
    && a.key == c.frame.Key() && JustAccepted(node, e.node, a)
    && e.delivered == (if a.delivered then [c.frame] else [])
    && forall k :: 0 <= k < |e.rx| && e.rx[k].copy.relays > 0 ==>
         a.relayed && c.frame.hopLimit > 0 && e.rx[k].copy == RelayOf(c)
  }

  lemma FreshAccounts(node: Node, c: Copy, decodes: bool, ack: Tx, relay: Tx, now: int)
    requires !node.ring.Contains(c.frame.Key())
    ensures FreshAccount(node, ReceiveFresh(node, c, decodes, ack, relay, now), c, Receipt(node, c, decodes))
  {
    hide Handle;
    HandleOwn(Admit(node, Receipt(node, c, decodes)), c, decodes, ack, now);
  }

  /** What a reception relays or delivers is a packet accepted in that very step, and recorded as such. */
  lemma ReceiveAccounts(node: Node, c: Copy, decodes: bool, ack: Tx, relay: Tx, now: int)
    ensures var e := Receive(node, c, decodes, ack, relay, now);
      if (node.ignoresMqtt && c.frame.viaMqtt) || node.ring.Contains(c.frame.Key())
      then SameFilter(node, e.node) && OwnOnly(e, false)
      else FreshAccount(node, e, c, Receipt(node, c, decodes))
  {
    hide ReceiveFresh, OnDecoded, FreshAccount;
    if !(node.ignoresMqtt && c.frame.viaMqtt) {
      if node.ring.Contains(c.frame.Key()) {
        DuplicateOwn(node, c, decodes, ack, now);
        OnDecodedFilters(node, c.frame, ack, now);
      } else {
        FreshAccounts(node, c, decodes, ack, relay, now);
      }
    }
  }

  function DownlinkReceipt(node: Node, q: Request, payload: Payload, decodes: bool, tx: Tx): Accept {
    if payload.Missing? then Accept(Pair(q.src, q.id), false, false)
    else Accept(Pair(q.src, q.id), DownlinkOpens(node, q, payload.Sealed?, decodes, tx) && Delivers(node, DownlinkFrame(q)),
                DownlinkRelays(node, q, payload.Sealed?))
  }

  /** The same of an injection; its relay is the node's own launch, marked as bridged. */
  ghost predicate DownlinkAccount(node: Node, e: Effect, q: Request, a: Accept) {
    && a.key == Pair(q.src, q.id) && JustAccepted(node, e.node, a)
    && e.delivered == (if a.delivered then [DownlinkFrame(q)] else [])
    && forall k :: 0 <= k < |e.rx| ==> e.rx[k].copy.relays == 0 && (e.rx[k].copy.bridged ==> a.relayed)
  }

  lemma InjectAccounts(node: Node, q: Request, payload: Payload, decodes: bool, tx: Tx, ack: Tx, now: int, delay: nat)
    ensures var e := Inject(node, q, payload, decodes, tx, ack, now, delay);
      if node.ring.Contains(Pair(q.src, q.id)) then SameFilter(node, e.node) && OwnOnly(e, false) && e.rx == []
      else DownlinkAccount(node, e, q, DownlinkReceipt(node, q, payload, decodes, tx))
  {
    hide InjectAdmitted, DownlinkOpens, DownlinkRelays, Delivers, DownlinkFrame;
    if !node.ring.Contains(Pair(q.src, q.id)) && !payload.Missing? {
      var opens := DownlinkOpens(node, q, payload.Sealed?, decodes, tx);
      var n := Admit(node, DownlinkReceipt(node, q, payload, decodes, tx));
      AdmittedOwn(n, q, payload.Sealed?, opens, tx, ack, now, delay);
      SameGates(node, n, q, payload.Sealed?);
    }
  }

  lemma SameGates(node: Node, n: Node, q: Request, encrypted: bool)
    requires n.id == node.id && n.coreOnly == node.coreOnly
    ensures DownlinkRelays(n, q, encrypted) == DownlinkRelays(node, q, encrypted)
    ensures Delivers(n, DownlinkFrame(q)) == Delivers(node, DownlinkFrame(q))
  {
  }

  lemma AdmittedOwn(node: Node, q: Request, encrypted: bool, opens: bool, tx: Tx, ack: Tx, now: int, delay: nat)
    ensures var e := InjectAdmitted(node, q, encrypted, opens, tx, ack, now, delay);
      && SameFilter(node, e.node)
      && e.delivered == (if opens && Delivers(node, DownlinkFrame(q)) then [DownlinkFrame(q)] else [])
      && (forall k :: 0 <= k < |e.rx| ==>
            e.rx[k].copy.relays == 0 && (e.rx[k].copy.bridged ==> DownlinkRelays(node, q, encrypted)))
  {
    var first := DownlinkFirst(node, q, encrypted, tx, now, delay);
    DownlinkFirstOwn(node, q, encrypted, tx, now, delay);
    DownlinkFirstFilters(node, q, encrypted, tx, now, delay);
    OnDecodedOwn(first.node, DownlinkFrame(q), ack, now);
    OnDecodedFilters(first.node, DownlinkFrame(q), ack, now);
    assert !DownlinkRelays(node, q, encrypted) ==> first == Nothing(node);
    hide OnDecoded, DownlinkFirst;
  }

  // ---- the duplicate window over runs ----------------------------------------------------------------

  /** A node's filter stays, or accepts one unknown pair. */
  ghost predicate FilterMoves(node: Node, node': Node) {
    SameFilter(node, node') || exists a: Accept :: JustAccepted(node, node', a)
  }

  lemma MovesKeep(node: Node, node': Node)
    requires FilterOk(node) && FilterMoves(node, node')
    ensures FilterOk(node') && |node'.ring.cells| == |node.ring.cells| && node.accepted <= node'.accepted
  {
    if !SameFilter(node, node') {
      var a: Accept :| JustAccepted(node, node', a);
      AcceptRemembers(|node.ring.cells|, node.ring, Keys(node.accepted), a.key);
      assert Keys(node.accepted + [a]) == Keys(node.accepted) + [a.key];
    }
  }

  lemma ActMoves(net: Net, s: Step)
    requires Possible(net, s) && !s.Lose? && !s.Reinit?
    ensures FilterMoves(net.nodes[Actor(net, s)], Act(net, s).node)
  {
    hide Send, Receive, Inject, RunTimer, JustAccepted;
    var node := net.nodes[Actor(net, s)];
    match s
    case AppSend(_, q, tx, forever, now, delay) => SendFilters(node, q, false, tx, forever, now, delay);
    case Hear(k, decodes, ack, relay, now) => ReceiveAccounts(node, net.air[k].copy, decodes, ack, relay, now);
    case TimerFires(_) =>
    case TimerRuns(_, now, delays, txs) => TimerFilters(node, now, delays, txs);
    case Downlink(_, q, payload, decodes, tx, ack, now, delay) =>
      InjectAccounts(node, q, payload, decodes, tx, ack, now, delay);
  }

  lemma StepFilters(net: Net, s: Step)
    requires Possible(net, s) && forall i :: 0 <= i < |net.nodes| ==> FilterOk(net.nodes[i])
    ensures |Perform(net, s).nodes| == |net.nodes|
    ensures forall i :: 0 <= i < |net.nodes| ==>
      FilterOk(Perform(net, s).nodes[i]) && |Perform(net, s).nodes[i].ring.cells| == |net.nodes[i].ring.cells|
  {
    if s.Reinit? {
      EmptyRemembers(|net.nodes[s.node].ring.cells|);
      assert Keys([]) == [];
    } else if !s.Lose? {
      hide Act, FilterOk, FilterMoves;
      ActMoves(net, s);
      MovesKeep(net.nodes[Actor(net, s)], Act(net, s).node);
    }
  }

  lemma {:induction false} FiltersFrom(net: Net, run: seq<Step>)
    requires IsRun(net, run) && forall i :: 0 <= i < |net.nodes| ==> FilterOk(net.nodes[i])
    ensures |After(net, run).nodes| == |net.nodes|
    ensures forall i :: 0 <= i < |net.nodes| ==>
      FilterOk(After(net, run).nodes[i]) && |After(net, run).nodes[i].ring.cells| == |net.nodes[i].ring.cells|
    decreases |run|
  {
    hide FilterOk;
    if run != [] {
      StepFilters(net, run[0]);
      FiltersFrom(Perform(net, run[0]), run[1..]);
    }
  }

  lemma FreshFilters(net: Net)
    requires FreshNet(net)
    ensures forall j :: 0 <= j < |net.nodes| ==> FilterOk(net.nodes[j])
  {
    forall j | 0 <= j < |net.nodes|
      ensures FilterOk(net.nodes[j])
    {
      EmptyRemembers(|net.nodes[j].ring.cells|);
      assert Keys([]) == [];
    }
  }

  /** In every run, LoRa and MQTT arrivals mixed, no pair repeats among N + 1 consecutive acceptances of a node. */
  lemma {:induction false} AcceptedOncePerWindow(net: Net, run: seq<Step>, i: nat)
    requires FreshNet(net) && IsRun(net, run) && i < |net.nodes|
    ensures |After(net, run).nodes| == |net.nodes|
    ensures var node := After(net, run).nodes[i];
      && |node.ring.cells| == |net.nodes[i].ring.cells|
      && WindowsDistinct(|node.ring.cells|, Keys(node.accepted))
  {
    FreshFilters(net);
    FiltersFrom(net, run);
  }

  /**
    Node `i` relays pair `p` in this step, or hands it to its application: somebody hears a copy it
    passed on, or a downlink of that pair that it put on the air, or its application gets it.
   */
  ghost predicate Handles(net: Net, s: Step, i: nat, p: Pair)
    requires Possible(net, s)
  {
    && !s.Lose? && Actor(net, s) == i
    && var e := Act(net, s);
       || (exists k :: 0 <= k < |e.delivered| && e.delivered[k].Key() == p)
       || (exists k :: 0 <= k < |e.rx| && e.rx[k].copy.relays > 0 && e.rx[k].copy.frame.Key() == p)
       || (s.Downlink? && Pair(s.request.src, s.request.id) == p && exists k :: 0 <= k < |e.rx| && e.rx[k].copy.bridged)
  }

  /** Step `k` of the run is one in which node `i` handles pair `p`. */
  ghost predicate HandlesAt(net: Net, run: seq<Step>, k: nat, i: nat, p: Pair)
    requires IsRun(net, run) && k < |run|
  {
    NextState(net, run, k);
    Handles(StateAt(net, run, k), run[k], i, p)
  }

  /** And steps `s` and `t` both are, with no re-initialisation of the node in between. */
  ghost predicate HandledTwice(net: Net, run: seq<Step>, i: nat, p: Pair, s: nat, t: nat)
    requires IsRun(net, run) && s < t < |run|
  {
    && HandlesAt(net, run, s, i, p) && HandlesAt(net, run, t, i, p)
    && forall k :: s < k < t ==> !(run[k].Reinit? && run[k].node == i)
  }

  /** How many packets the node has accepted after step `s` and before step `t`. */
  ghost function AcceptedBetween(net: Net, run: seq<Step>, i: nat, s: nat, t: nat): int
    requires FreshNet(net) && IsRun(net, run) && i < |net.nodes| && s < t < |run|
  {
    FiltersAt(net, run, s + 1);
    FiltersAt(net, run, t);
    |StateAt(net, run, t).nodes[i].accepted| - |StateAt(net, run, s + 1).nodes[i].accepted|
  }

  /** Whatever a step relays or delivers, it has accepted in that step. */
  lemma HandledIsAccepted(net: Net, s: Step, i: nat, p: Pair, P: Copy -> bool)
    requires Possible(net, s) && AllCopies(net, P) && Handles(net, s, i, p)
    ensures exists a: Accept :: a.key == p && JustAccepted(net.nodes[i], Act(net, s).node, a)
  {
    hide Send, Receive, Inject, RunTimer, JustAccepted;
    var node := net.nodes[i];
    assert NodeAll(node, P);
    match s
    case AppSend(_, q, tx, forever, now, delay) => SendOwn(node, q, false, tx, forever, now, delay);
    case Hear(k, decodes, ack, relay, now) => ReceiveAccounts(node, net.air[k].copy, decodes, ack, relay, now);
    case TimerFires(_) =>
    case TimerRuns(_, now, delays, txs) => TimerOwn(node, now, delays, txs, P);
    case Downlink(_, q, payload, decodes, tx, ack, now, delay) =>
      InjectAccounts(node, q, payload, decodes, tx, ack, now, delay);
    case Reinit(_) =>
  }

  lemma StepGrows(net: Net, s: Step, i: nat)
    requires Possible(net, s) && i < |net.nodes| && FilterOk(net.nodes[i]) && !(s.Reinit? && s.node == i)
    ensures |Perform(net, s).nodes| == |net.nodes| && net.nodes[i].accepted <= Perform(net, s).nodes[i].accepted
  {
    hide Act, FilterOk;
    if !s.Lose? && !s.Reinit? && Actor(net, s) == i {
      ActMoves(net, s);
      MovesKeep(net.nodes[i], Act(net, s).node);
    }
  }

  lemma {:induction false} FiltersAt(net: Net, run: seq<Step>, k: nat)
    requires FreshNet(net) && IsRun(net, run) && k <= |run|
    ensures |StateAt(net, run, k).nodes| == |net.nodes|
    ensures forall i :: 0 <= i < |net.nodes| ==> FilterOk(StateAt(net, run, k).nodes[i])
  {
    FreshFilters(net);
    RunSplits(net, run, k);
    FiltersFrom(net, run[..k]);
  }

  /** Acceptances are forgotten only by a re-initialisation. */
  lemma {:induction false} AcceptedGrows(net: Net, run: seq<Step>, i: nat, from: nat, more: nat)
    requires FreshNet(net) && IsRun(net, run) && i < |net.nodes| && from + more <= |run|
    requires forall k :: from <= k < from + more ==> !(run[k].Reinit? && run[k].node == i)
    ensures |StateAt(net, run, from).nodes| == |net.nodes| && |StateAt(net, run, from + more).nodes| == |net.nodes|
    ensures StateAt(net, run, from).nodes[i].accepted <= StateAt(net, run, from + more).nodes[i].accepted
  {
    hide StateAt, FilterOk, Possible, Perform, FreshNet, IsRun;
    FiltersAt(net, run, from);
    if more > 0 {
      AcceptedGrows(net, run, i, from, more - 1);
      var k := from + more - 1;
      FiltersAt(net, run, k);
      NextState(net, run, k);
      StepGrows(StateAt(net, run, k), run[k], i);
    }
  }

  /**
    In every run, LoRa and MQTT arrivals mixed: if a node relays or delivers a pair in two steps and
    is not re-initialised in between, it has accepted at least N other packets between the two.
   */
  lemma {:induction false} AtMostOncePerWindow(net: Net, run: seq<Step>, i: nat, p: Pair, s: nat, t: nat)
    requires FreshNet(net) && IsRun(net, run) && i < |net.nodes| && s < t < |run|
    ensures HandledTwice(net, run, i, p, s, t) ==> AcceptedBetween(net, run, i, s, t) >= |net.nodes[i].ring.cells|
  {
    hide IsRun, FreshNet, After, HandlesAt, WindowsDistinct, StateAt;
    if HandledTwice(net, run, i, p, s, t) {
      AcceptedIn(net, run, i, p, s);
      AcceptedIn(net, run, i, p, t);
      AcceptedGrows(net, run, i, s + 1, t - s - 1);
      WindowAt(net, run, i, t + 1);
      var (before, after) := (StateAt(net, run, s + 1).nodes[i].accepted, StateAt(net, run, t).nodes[i].accepted);
      WindowGap(|net.nodes[i].ring.cells|, before, after, StateAt(net, run, t + 1).nodes[i].accepted, p);
    }
  }

  lemma WindowAt(net: Net, run: seq<Step>, i: nat, k: nat)
    requires FreshNet(net) && IsRun(net, run) && i < |net.nodes| && k <= |run|
    ensures i < |StateAt(net, run, k).nodes|
    ensures WindowsDistinct(|net.nodes[i].ring.cells|, Keys(StateAt(net, run, k).nodes[i].accepted))
  {
    RunSplits(net, run, k);
    hide IsRun, FreshNet, After, WindowsDistinct;
    AcceptedOncePerWindow(net, run[..k], i);
  }

  /** Two acceptances of one pair lie a window apart. */
  lemma WindowGap(n: nat, before: seq<Accept>, after: seq<Accept>, all: seq<Accept>, p: Pair)
    requires WindowsDistinct(n, Keys(all)) && before <= after <= all && before != [] && |all| == |after| + 1
    requires before[|before| - 1].key == p == all[|after|].key
    ensures |after| - |before| >= n
  {
    var k := |before| - 1;
    assert all[k] == before[k];
    assert Keys(all)[k] == Keys(all)[|after|];
  }

  /** The step that handles a pair ends with its acceptance. */
  lemma AcceptedIn(net: Net, run: seq<Step>, i: nat, p: Pair, k: nat)
    requires FreshNet(net) && IsRun(net, run) && i < |net.nodes| && k < |run|
    ensures i < |StateAt(net, run, k).nodes| == |StateAt(net, run, k + 1).nodes|
    ensures var (was, now) := (StateAt(net, run, k).nodes[i].accepted, StateAt(net, run, k + 1).nodes[i].accepted);
      HandlesAt(net, run, k, i, p) ==> |now| == |was| + 1 && was <= now && now[|was|].key == p
  {
    FiltersAt(net, run, k);
    FiltersAt(net, run, k + 1);
    if HandlesAt(net, run, k, i, p) {
      NextState(net, run, k);
      RunSplits(net, run, k);
      CopiesAreOriginals(net, run[..k]);
      var now := StateAt(net, run, k);
      assert AllCopies(now, Unchanged);
      HandledIsAccepted(now, run[k], i, p, Unchanged);
      hide StateAt, Act, Handles, AllCopies;
      var a: Accept :| a.key == p && JustAccepted(now.nodes[i], Act(now, run[k]).node, a);
    }
  }

  /** Only acknowledgements of packet `id` by `me`. */
  ghost predicate OnlyAcks(rx: seq<Rx>, me: nat, id: nat) {
    forall k :: 0 <= k < |rx| ==>
      var f := rx[k].copy.frame; f.src == me && f.data.portnum == PORT_ROUTING && f.data.requestId == id
  }

  lemma OnDecodedOnlyAcks(node: Node, f: Frame, tx: Tx, now: int)
    ensures OnlyAcks(OnDecoded(node, f, tx, now).rx, node.id, f.id)
    ensures OnDecoded(node, f, tx, now).sent <= 1
  {
  }

  /** A duplicate is neither delivered nor relayed: at most an acknowledgement goes out. */
  lemma DuplicateOnlyReacks(node: Node, c: Copy, decodes: bool, ack: Tx, relay: Tx, now: int)
    requires node.ring.Contains(c.frame.Key())
    ensures var e := Receive(node, c, decodes, ack, relay, now);
      SameFilter(node, e.node) && e.delivered == [] && e.sent <= 1 && OnlyAcks(e.rx, node.id, c.frame.id)
  {
    OnDecodedOwn(node, c.frame, ack, now);
    OnDecodedOnlyAcks(node, c.frame, ack, now);
    OnDecodedFilters(node, c.frame, ack, now);
    hide OnDecoded;
  }
}
