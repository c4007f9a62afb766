/**
  A mesh of nodes: the receive path, relay rule, acknowledgement rule and send path of
  src/meshtastic_router.c, src/meshtastic_routing.c and src/meshtastic.c, one atomic
  step at a time, over a radio medium that may lose and reorder anything.

  Fields and values marked "history" are not read by any step; they only record what
  happened, so that properties of runs can be stated.
 */
module Mesh {
  import opened DupCache
  import R = Reliable

  const BROADCAST := 0xFFFF_FFFF
  const ID_SPACE := 0x1_0000_0000
  const PORT_TEXT := 1
  const PORT_POSITION := 3
  const PORT_NODEINFO := 4
  const PORT_ROUTING := 5
  const PORT_TEXT_COMPRESSED := 7
  const PORT_TELEMETRY := 67
  const HDR_LEN := 16
  const MAX_PAYLOAD_LEN := 233
  const REPLY_HOP_MARGIN := 2

  /** The 3-bit hop fields of the wire header. */
  type Hop = h: nat | h <= 7

  /** `nak`: the payload is a routing error other than NONE. */
  datatype Data = Data(portnum: nat, requestId: nat, nak: bool, payload: seq<nat>)

  datatype Frame = Frame(dest: nat, src: nat, id: nat, hopLimit: Hop, hopStart: Hop,
                         wantAck: bool, viaMqtt: bool, data: Data) {
    function Key(): Pair {
      Pair(src, id)
    }

    /** Everything a relay must not touch. */
    function Essence(): Frame {
      this.(hopLimit := 0)
    }

    function Header(): R.Packet {
      R.Packet(dest, id, data.portnum, wantAck, data.requestId, data.nak)
    }
  }

  /**
    A frame on its way. History: relays passed, whether it descends from a downlink, and the frame
    as it was first put on the air.
   */
  datatype Copy = Copy(frame: Frame, relays: nat, bridged: bool, original: Frame)

  /** A frame put on the air for the first time. */
  function Launch(f: Frame, bridged: bool): Copy {
    Copy(f, 0, bridged, f)
  }

  /** A transmission reaching one radio. */
  datatype Rx = Rx(to: nat, copy: Copy)

  /** How one transmission turned out: accepted by the radio, and who heard it. */
  datatype Tx = Tx(ok: bool, heard: seq<nat>)

  /** One acceptance by the duplicate filter (history), and what it led to. */
  datatype Accept = Accept(key: Pair, delivered: bool, relayed: bool)

  datatype Node = Node(
    id: nat,
    hopLimit: nat,            // as configured, not checked against 7
    rebroadcasts: bool,       // role and mode allow relaying
    coreOnly: bool,           // CORE_PORTNUMS_ONLY
    ignoresMqtt: bool,        // MQTT_IGNORE_MQTT
    uplinks: bool,            // every uplink gate other than via_mqtt is open
    cfg: R.Config,
    nextId: nat,
    ring: LiveRing,
    table: R.State<Copy>,
    idsUsed: nat,                       // history: packet ids handed out
    accepted: seq<Accept>,              // history
    events: seq<R.Event<Copy>>,         // history: what the table reported
    uplinked: seq<Copy>)                // history: what was queued for the broker

  /** What a caller of the send path fills in; zero fields are left to the stack. */
  datatype Request = Request(src: nat, dest: nat, id: nat, hopLimit: nat, hopStart: nat,
                             wantAck: bool, viaMqtt: bool, data: Data)

  /** History: `node` decoded a packet. */
  datatype Decoding = Decoding(node: nat, packet: Frame)

  /** What one node does in one step; `delivered`: what it hands to its application. */
  datatype Effect = Effect(node: Node, rx: seq<Rx>, sent: nat, born: map<Pair, Frame>, decoded: set<Decoding>,
                           delivered: seq<Frame>)

  /** `origin`, `decoded`: history. */
  datatype Net = Net(nodes: seq<Node>, air: seq<Rx>, origin: map<Pair, Frame>, decoded: set<Decoding>)

  // ---- sending -----------------------------------------------------------------------

  function Nothing(node: Node): Effect {
    Effect(node, [], 0, map[], {}, [])
  }

  /** `first`, then `second`, where `second` started from `first.node`. */
  function Then(first: Effect, second: Effect): Effect {
    Effect(second.node, first.rx + second.rx, first.sent + second.sent,
           first.born + second.born, first.decoded + second.decoded, first.delivered + second.delivered)
  }

  function Spread(tx: Tx, c: Copy): seq<Rx> {
    if tx.ok then seq(|tx.heard|, i requires 0 <= i < |tx.heard| => Rx(tx.heard[i], c)) else []
  }

  /** A packet id, never 0, from the wrapping 32-bit counter. */
  function FreshId(node: Node): nat {
    if node.nextId == 0 then 1 else node.nextId
  }

  function AfterAlloc(node: Node): Node {
    var id := FreshId(node);
    node.(nextId := if id + 1 == ID_SPACE then 0 else id + 1, idsUsed := node.idsUsed + 1)
  }

  /** The frame `send_packet_prepare` builds, defaults filled in. */
  function Prepare(node: Node, q: Request): Frame {
    var hopLimit := if q.hopLimit == 0 then node.hopLimit else q.hopLimit;
    var hopStart := if q.hopStart == 0 then hopLimit else q.hopStart;
    Frame(q.dest, if q.src == 0 then node.id else q.src, if q.id == 0 then FreshId(node) else q.id,
          hopLimit % 8, hopStart % 8, q.wantAck, q.viaMqtt, q.data)
  }

  /** The MQTT uplink gates. */
  function Uplink(node: Node, c: Copy): Node {
    if node.uplinks && !c.frame.viaMqtt then node.(uplinked := node.uplinked + [c]) else node
  }

  function Sendable(q: Request): bool {
    q.dest != 0 && |q.data.payload| <= MAX_PAYLOAD_LEN
  }

  /** `meshtastic_send_packet`; `forever`: the caller waits for the radio. */
  function Send(node: Node, q: Request, bridged: bool, tx: Tx, forever: bool, now: int, delay: nat): Effect {
    if !Sendable(q) then Nothing(node)
    else
      var c := Launch(Prepare(node, q), bridged);
      var n0 := if q.id == 0 then AfterAlloc(node) else node;
      var born := map[c.frame.Key() := c.frame];
      if !tx.ok then Effect(n0, [], 1, born, {}, [])
      else
        var n1 := if forever && c.frame.src == node.id then Uplink(n0, c) else n0;
        var (table, events) :=
          R.Track(node.cfg, n1.table, node.id, c.frame.Header(), c, HDR_LEN + |q.data.payload|, now, delay);
        Effect(n1.(table := table, events := n1.events + events), Spread(tx, c), 1, born, {}, [])
  }

  // ---- acknowledging -----------------------------------------------------------------

  /** `routing_hop_limit_for_reply` */
  function ReplyHops(own: nat, f: Frame): nat {
    if f.hopStart == 0 then 0
    else if f.hopStart < f.hopLimit then own
    else
      var used := f.hopStart - f.hopLimit;
      if used > own then used
      else if used + REPLY_HOP_MARGIN < own then used + REPLY_HOP_MARGIN
      else own
  }

  /** Direct texts ask for an acknowledgement of the acknowledgement. */
  predicate AckWantsAck(node: Node, f: Frame) {
    f.wantAck && f.dest == node.id && (f.data.portnum == PORT_TEXT || f.data.portnum == PORT_TEXT_COMPRESSED)
  }

  function AckRequest(node: Node, f: Frame): Request {
    var hops := ReplyHops(node.hopLimit, f);
    Request(0, if f.src == 0 then BROADCAST else f.src, 0, hops, hops, AckWantsAck(node, f), false,
            Data(PORT_ROUTING, f.id, false, []))
  }

  /** `meshtastic_routing_on_decoded`: settle our own packet, then acknowledge if asked. */
  function OnDecoded(node: Node, f: Frame, tx: Tx, now: int): Effect {
    if (f.dest != node.id && f.dest != BROADCAST) || f.src == node.id then Nothing(node)
    else
      var (table, events) := R.Settle(node.table, node.id, f.Header());
      var n := node.(table := table, events := node.events + events);
      if f.wantAck && f.dest == node.id then Send(n, AckRequest(n, f), false, tx, true, now, 0) else Nothing(n)
  }

  // ---- receiving ---------------------------------------------------------------------

  predicate CorePort(port: nat) {
    port in {PORT_TEXT, PORT_POSITION, PORT_NODEINFO, PORT_ROUTING, PORT_TELEMETRY}
  }

  predicate Delivers(node: Node, f: Frame) {
    (node.coreOnly ==> CorePort(f.data.portnum)) && (f.dest == node.id || f.dest == BROADCAST)
  }

  /** `meshtastic_routing_sniff_rebroadcast` */
  predicate Relays(node: Node, f: Frame) {
    && node.rebroadcasts
    && f.src != node.id && f.dest != node.id
    && f.hopLimit > 0
    && !(f.dest == BROADCAST && f.id == 0)
  }

  function RelayOf(c: Copy): Copy
    requires c.frame.hopLimit > 0
  {
    c.(frame := c.frame.(hopLimit := c.frame.hopLimit - 1), relays := c.relays + 1)
  }

  /** A retry of something already seen: acknowledge again, nothing else. */
  function ReceiveDuplicate(node: Node, c: Copy, decodes: bool, ack: Tx, now: int): Effect {
    if c.frame.wantAck && c.frame.dest == node.id && decodes
    then Then(Nothing(node).(decoded := {Decoding(node.id, c.frame.Essence())}), OnDecoded(node, c.frame, ack, now))
    else Nothing(node)
  }

  /** The duplicate filter accepts a pair. */
  function Admit(node: Node, a: Accept): Node {
    node.(ring := node.ring.Add(a.key), accepted := node.accepted + [a])
  }

  /** The part of a first reception that depends on decoding it. */
  function Handle(node: Node, c: Copy, decodes: bool, ack: Tx, now: int): Effect {
    if !decodes then Nothing(node)
    else
      var n := if c.frame.src != node.id then Uplink(node, c) else node;
      var read := Nothing(n).(decoded := {Decoding(node.id, c.frame.Essence())},
                              delivered := if Delivers(node, c.frame) then [c.frame] else []);
      Then(read, OnDecoded(n, c.frame, ack, now))
  }

  function Relay(node: Node, c: Copy, tx: Tx): Effect
    requires c.frame.hopLimit > 0
  {
    Effect(node, Spread(tx, RelayOf(c)), 1, map[], {}, [])
  }

  function ReceiveFresh(node: Node, c: Copy, decodes: bool, ack: Tx, relay: Tx, now: int): Effect {
    var n := Admit(node, Accept(c.frame.Key(), decodes && Delivers(node, c.frame), Relays(node, c.frame)));
    var handled := Handle(n, c, decodes, ack, now);
    if Relays(node, c.frame) then Then(handled, Relay(handled.node, c, relay)) else handled
  }

  /** `meshtastic_router_process_lora_rx`; `decodes`: some channel key opens the frame. */
  function Receive(node: Node, c: Copy, decodes: bool, ack: Tx, relay: Tx, now: int): Effect {
    if node.ignoresMqtt && c.frame.viaMqtt then Nothing(node)
    else if node.ring.Contains(c.frame.Key()) then ReceiveDuplicate(node, c, decodes, ack, now)
    else ReceiveFresh(node, c, decodes, ack, relay, now)
  }

  // ---- retrying ----------------------------------------------------------------------

  function ResentRx(events: seq<R.Event<Copy>>, txs: nat -> Tx): seq<Rx> {
    if events == [] then []
    else (if events[0].Resent? then Spread(txs(events[0].slot), events[0].wire) else []) + ResentRx(events[1..], txs)
  }

  function ResentCount(events: seq<R.Event<Copy>>): nat {
    if events == [] then 0 else (if events[0].Resent? then 1 else 0) + ResentCount(events[1..])
  }

  function RunTimer(node: Node, now: int, delays: nat -> nat, txs: nat -> Tx): Effect {
    var (table, events) := R.Sweep(node.table, now, delays);
    Effect(node.(table := table, events := node.events + events), ResentRx(events, txs), ResentCount(events), map[], {}, [])
  }

  // ---- gateway downlink --------------------------------------------------------------

  /** The frame put on air for a downlink. `encrypted` packets keep a zero hop limit. */
  function InjectedFrame(node: Node, q: Request, encrypted: bool): Frame {
    if encrypted && q.hopLimit == 0
    then Prepare(node, q).(hopLimit := 0, hopStart := q.hopStart % 8)
    else Prepare(node, q)
  }

  /** Encrypted downlinks bypass the send path: no tracking, only the header is filled in. */
  function InjectRelay(node: Node, q: Request, encrypted: bool, tx: Tx, now: int, delay: nat): Effect {
    if !encrypted then Send(node, q, true, tx, true, now, delay)
    else
      var c := Launch(InjectedFrame(node, q, true), true);
      var n0 := if q.id == 0 then AfterAlloc(node) else node;
      var n1 := if tx.ok && c.frame.src == node.id then Uplink(n0, c) else n0;
      Effect(n1, Spread(tx, c), 1, map[c.frame.Key() := c.frame], {}, [])
  }

  /** A downlink is marked as coming from MQTT before anything else happens to it. */
  function Bridged(q: Request): Request {
    q.(viaMqtt := true, dest := if q.dest == 0 then BROADCAST else q.dest)
  }

  /** The downlink as the local stack sees it. */
  function DownlinkFrame(q: Request): Frame {
    Frame(q.dest, q.src, q.id, q.hopLimit % 8, q.hopStart % 8, q.wantAck, true, q.data)
  }

  predicate DownlinkRelays(node: Node, q: Request, encrypted: bool) {
    q.dest != node.id && (q.hopLimit > 0 || encrypted)
  }

  /** Local delivery is reached: addressed to us, readable, and any relay before it succeeded. */
  predicate DownlinkOpens(node: Node, q: Request, encrypted: bool, decodes: bool, tx: Tx) {
    && (q.dest == node.id || q.dest == BROADCAST)
    && (decodes || !encrypted)
    && (DownlinkRelays(node, q, encrypted) ==> tx.ok && (encrypted || Sendable(Bridged(q))))
  }

  function DownlinkFirst(node: Node, q: Request, encrypted: bool, tx: Tx, now: int, delay: nat): Effect {
    if DownlinkRelays(node, q, encrypted) then InjectRelay(node, Bridged(q), encrypted, tx, now, delay)
    else Nothing(node)
  }

  function InjectAdmitted(node: Node, q: Request, encrypted: bool, opens: bool, tx: Tx, ack: Tx, now: int, delay: nat): Effect {
    var first := DownlinkFirst(node, q, encrypted, tx, now, delay);
    if !opens then first
    else
      var local := if Delivers(node, DownlinkFrame(q)) then [DownlinkFrame(q)] else [];
      Then(first.(delivered := local), OnDecoded(first.node, DownlinkFrame(q), ack, now))
  }

  /** What a downlink carries: decoded data, ciphertext, or neither, which is neither relayed nor opened. */
  datatype Payload = Plain | Sealed | Missing

  /** `meshtastic_inject_downlink_mesh_packet` */
  function Inject(node: Node, q: Request, payload: Payload, decodes: bool, tx: Tx, ack: Tx, now: int, delay: nat): Effect {
    var key := Pair(q.src, q.id);
    if node.ring.Contains(key) then Nothing(node)
    else if payload.Missing? then Nothing(Admit(node, Accept(key, false, false)))
    else
      var encrypted := payload.Sealed?;
      var opens := DownlinkOpens(node, q, encrypted, decodes, tx);
      var n := Admit(node, Accept(key, opens && Delivers(node, DownlinkFrame(q)), DownlinkRelays(node, q, encrypted)));
      InjectAdmitted(n, q, encrypted, opens, tx, ack, now, delay)
  }

  // ---- the network -------------------------------------------------------------------

  datatype Step =
    | AppSend(node: nat, request: Request, tx: Tx, forever: bool, now: int, delay: nat)
    | Hear(k: nat, decodes: bool, ack: Tx, relay: Tx, now: int)
    | Lose(k: nat)
    | TimerFires(node: nat)
    | TimerRuns(node: nat, now: int, delays: nat -> nat, txs: nat -> Tx)
    | Downlink(node: nat, request: Request, payload: Payload, decodes: bool, tx: Tx, ack: Tx, now: int, delay: nat)
    | Reinit(node: nat)

  /** One transmission is heard no more often than there are nodes. */
  predicate TxOk(net: Net, tx: Tx) {
    |tx.heard| <= |net.nodes|
  }

  ghost predicate Possible(net: Net, s: Step) {
    match s
    case AppSend(n, _, tx, _, _, _) => n < |net.nodes| && TxOk(net, tx)
    case Hear(k, _, ack, relay, _) => k < |net.air| && net.air[k].to < |net.nodes| && TxOk(net, ack) && TxOk(net, relay)
    case Lose(k) => k < |net.air|
    case TimerFires(n) => n < |net.nodes|
    case TimerRuns(n, _, _, txs) => n < |net.nodes| && forall i :: TxOk(net, txs(i))
    case Downlink(n, q, _, _, tx, ack, _, _) =>
      n < |net.nodes| && TxOk(net, tx) && TxOk(net, ack) && q.hopLimit <= 7 && q.hopStart <= 7
    case Reinit(n) => n < |net.nodes|
  }

  /** The node that acts in a step and what it does; `Lose` involves nobody. */
  ghost function Actor(net: Net, s: Step): nat
    requires Possible(net, s) && !s.Lose?
    ensures Actor(net, s) < |net.nodes|
  {
    if s.Hear? then net.air[s.k].to else s.node
  }

  ghost function Act(net: Net, s: Step): Effect
    requires Possible(net, s) && !s.Lose?
  {
    var node := net.nodes[Actor(net, s)];
    match s
    case AppSend(_, q, tx, forever, now, delay) => Send(node, q, false, tx, forever, now, delay)
    case Hear(k, decodes, ack, relay, now) => Receive(node, net.air[k].copy, decodes, ack, relay, now)
    case TimerFires(_) => Nothing(node.(table := R.Fire(node.table)))
    case TimerRuns(_, now, delays, txs) => RunTimer(node, now, delays, txs)
    case Downlink(_, q, payload, decodes, tx, ack, now, delay) =>
      Inject(node, q, payload, decodes, tx, ack, now, delay)
    case Reinit(_) =>
      Nothing(node.(nextId := 1, ring := Empty(|node.ring.cells|), accepted := [],
                    table := R.Reset(node.table).0, events := node.events + R.Reset(node.table).1))
  }

  function Without(air: seq<Rx>, k: nat): seq<Rx>
    requires k < |air|
  {
    air[..k] + air[k + 1..]
  }

  function Commit(net: Net, air: seq<Rx>, n: nat, e: Effect): Net
    requires n < |net.nodes|
  {
    Net(net.nodes[n := e.node], air + e.rx, net.origin + e.born, net.decoded + e.decoded)
  }

  ghost function Perform(net: Net, s: Step): Net
    requires Possible(net, s)
  {
    match s
    case Lose(k) => net.(air := Without(net.air, k))
    case Hear(k, _, _, _, _) => Commit(net, Without(net.air, k), Actor(net, s), Act(net, s))
    case _ => Commit(net, net.air, Actor(net, s), Act(net, s))
  }

  // ---- runs --------------------------------------------------------------------------

  ghost predicate IsRun(net: Net, run: seq<Step>)
    decreases |run|
  {
    run != [] ==>
      Possible(net, run[0]) && IsRun(Perform(net, run[0]), run[1..])
  }

  ghost function After(net: Net, run: seq<Step>): Net
    requires IsRun(net, run)
    decreases |run|
  {
    if run == [] then net else After(Perform(net, run[0]), run[1..])
  }

  lemma {:induction false} RunsCompose(net: Net, a: seq<Step>, b: seq<Step>)
    requires IsRun(net, a) && IsRun(After(net, a), b)
    ensures IsRun(net, a + b) && After(net, a + b) == After(After(net, a), b)
    decreases |a|
  {
    hide Possible, Perform;
    if a == [] {
      assert a + b == b;
    } else {
      assert (a + b)[1..] == a[1..] + b;
      RunsCompose(Perform(net, a[0]), a[1..], b);
    }
  }

  lemma RunOne(net: Net, s: Step)
    requires Possible(net, s)
    ensures IsRun(net, [s]) && After(net, [s]) == Perform(net, s)
  {
    assert [s][1..] == [];
    assert IsRun(Perform(net, s), [s][1..]);
  }

  lemma TwoSteps(net: Net, s: Step, t: Step)
    requires Possible(net, s) && Possible(Perform(net, s), t)
    ensures IsRun(net, [s, t]) && After(net, [s, t]) == Perform(Perform(net, s), t)
  {
    hide Possible, Perform;
    RunOne(net, s);
    RunOne(Perform(net, s), t);
    RunsCompose(net, [s], [t]);
    assert [s] + [t] == [s, t];
  }

  /** A run can be cut anywhere. */
  lemma {:induction false} RunSplits(net: Net, run: seq<Step>, k: nat)
    requires IsRun(net, run) && k <= |run|
    ensures IsRun(net, run[..k]) && IsRun(After(net, run[..k]), run[k..])
    ensures After(net, run) == After(After(net, run[..k]), run[k..])
    decreases k
  {
    if k > 0 {
      assert run[..k][1..] == run[1..][..k - 1] && run[1..][k - 1..] == run[k..];
      RunSplits(Perform(net, run[0]), run[1..], k - 1);
    }
  }

  /** The state before step `k` of a run. */
  ghost function StateAt(net: Net, run: seq<Step>, k: nat): Net
    requires IsRun(net, run) && k <= |run|
  {
    RunSplits(net, run, k);
    After(net, run[..k])
  }

  lemma NextState(net: Net, run: seq<Step>, k: nat)
    requires IsRun(net, run) && k < |run|
    ensures Possible(StateAt(net, run, k), run[k])
    ensures StateAt(net, run, k + 1) == Perform(StateAt(net, run, k), run[k])
  {
    RunSplits(net, run, k);
    RunSplits(net, run, k + 1);
    RunSplits(net, run[..k + 1], k);
    var last := run[..k + 1][k..];
    assert run[..k + 1][..k] == run[..k] && last == [run[k]] && last[1..] == [];
    assert run[k..][0] == run[k];
    hide Perform, Possible;
    assert After(StateAt(net, run, k), last) == After(Perform(StateAt(net, run, k), run[k]), last[1..]);
  }

  /** A node as `meshtastic_init` leaves it, with a usable id and some hop limit. */
  ghost predicate FreshNode(node: Node) {
    && node.id != 0 && node.id != BROADCAST && node.hopLimit > 0 && node.cfg.Valid()
    && node.nextId == 1 && node.ring == Empty(|node.ring.cells|) && node.table == R.Initial(node.cfg)
    && node.idsUsed == 0 && node.accepted == [] && node.events == [] && node.uplinked == []
  }

  /** Any number of freshly initialised nodes with distinct ids, and a silent medium. */
  ghost predicate FreshNet(net: Net) {
    && (forall i :: 0 <= i < |net.nodes| ==> FreshNode(net.nodes[i]))
    && (forall i, j :: 0 <= i < j < |net.nodes| ==> net.nodes[i].id != net.nodes[j].id)
    && net.air == [] && net.origin == map[] && net.decoded == {}
  }
}
