/**
  What the mesh can achieve: over any path of willing relays no longer than the hop limit, a packet
  reaches its destination or, if it is for all, every node on the way and beyond; an acknowledgement
  comes back over any path within its own budget, and a lost first transmission is made up for.
 */
module MeshDelivery {
  import opened Options
  import opened DupCache
  import opened Mesh
  import MeshAck
  import MeshFlood
  import MeshRules
  import MeshQuiescence
  import R = Reliable

  const LOST := Tx(true, [])

  // ---- one hop -------------------------------------------------------------------------------

  /** The node has not seen the packet and may pass it on. */
  predicate CanRelay(node: Node, f: Frame) {
    && node.rebroadcasts && node.id != f.src && node.id != f.dest && (f.dest == 0xFFFF_FFFF ==> f.id != 0)
    && !f.viaMqtt && !node.ring.Contains(f.Key())
  }

  /** A copy after `n` relays. */
  function Relayed(c: Copy, n: nat): Copy
    requires n <= c.frame.hopLimit
  {
    c.(frame := c.frame.(hopLimit := c.frame.hopLimit - n), relays := c.relays + n)
  }

  /** A relay that cannot read the packet remembers it and passes it on, and does nothing else. */
  lemma RelayStep(node: Node, c: Copy, to: nat, now: int)
    requires CanRelay(node, c.frame) && c.frame.hopLimit > 0
    ensures var e := Receive(node, c, false, LOST, Tx(true, [to]), now);
      && e.rx == [Rx(to, Relayed(c, 1))] && e.born == map[] && e.decoded == {}
      && e.node == Admit(node, Accept(c.frame.Key(), false, true))
  {
  }

  /** The copy to be heard next. */
  ghost predicate Incoming(net: Net, to: nat, c: Copy) {
    net.air != [] && net.air[|net.air| - 1] == Rx(to, c)
  }

  predicate Distinct(route: seq<nat>) {
    forall i, j :: 0 <= i < j < |route| ==> route[i] != route[j]
  }

  ghost predicate RouteOk(net: Net, route: seq<nat>, f: Frame) {
    Distinct(route) && forall i :: 0 <= i < |route| ==> route[i] < |net.nodes| && CanRelay(net.nodes[route[i]], f)
  }

  function FirstOf(route: seq<nat>, to: nat): nat {
    if route == [] then to else route[0]
  }

  /** Only the caches of the nodes on the route have changed, and only by this one packet. */
  ghost predicate OnlyRelayed(net: Net, net': Net, route: seq<nat>, key: Pair) {
    && |net'.nodes| == |net.nodes|
    && forall i :: 0 <= i < |net.nodes| ==>
         net'.nodes[i] == if i in route then Admit(net.nodes[i], Accept(key, false, true)) else net.nodes[i]
  }

  lemma OneHop(net: Net, route: seq<nat>, to: nat, c: Copy) returns (s: Step)
    requires route != [] && RouteOk(net, route, c.frame) && to < |net.nodes| && c.frame.hopLimit > 0
    requires Incoming(net, route[0], c)
    ensures s.Hear? && Possible(net, s)
    ensures var net' := Perform(net, s);
      && Incoming(net', FirstOf(route[1..], to), Relayed(c, 1))
      && net'.nodes == net.nodes[route[0] := Admit(net.nodes[route[0]], Accept(c.frame.Key(), false, true))]
  {
    hide Receive;
    RelayStep(net.nodes[route[0]], c, FirstOf(route[1..], to), 0);
    s := Hear(|net.air| - 1, false, LOST, Tx(true, [FirstOf(route[1..], to)]), 0);
  }

  /** Relays on a route no longer than the hop limit hand the packet on to the end of it. */
  lemma {:induction false} Carried(net: Net, route: seq<nat>, to: nat, c: Copy) returns (run: seq<Step>)
    requires RouteOk(net, route, c.frame) && to < |net.nodes| && |route| <= c.frame.hopLimit
    requires Incoming(net, FirstOf(route, to), c)
    ensures IsRun(net, run) && forall i :: 0 <= i < |run| ==> run[i].Hear?
    ensures Incoming(After(net, run), to, Relayed(c, |route|))
    ensures OnlyRelayed(net, After(net, run), route, c.frame.Key())
    decreases |route|
  {
    hide Possible, Perform, Admit;
    if route == [] {
      run := [];
      assert Relayed(c, 0) == c;
    } else {
      var s := OneHop(net, route, to, c);
      var net', rest := Perform(net, s), route[1..];
      var c' := Relayed(c, 1);
      forall i | 0 <= i < |rest|
        ensures rest[i] < |net'.nodes| && CanRelay(net'.nodes[rest[i]], c'.frame)
      {
        assert rest[i] == route[i + 1] != route[0];
      }
      var more := Carried(net', rest, to, c');
      RunOne(net, s);
      RunsCompose(net, [s], more);
      run := [s] + more;
      assert Relayed(c', |rest|) == Relayed(c, |route|);
      RouteSplit(net, net', After(net, run), route, c.frame.Key());
    }
  }

  lemma RouteSplit(net: Net, net': Net, net'': Net, route: seq<nat>, key: Pair)
    requires route != [] && Distinct(route) && route[0] < |net.nodes|
    requires net'.nodes == net.nodes[route[0] := Admit(net.nodes[route[0]], Accept(key, false, true))]
    requires OnlyRelayed(net', net'', route[1..], key)
    ensures OnlyRelayed(net, net'', route, key)
  {
    hide Admit;
    forall i | 0 <= i < |net.nodes|
      ensures net''.nodes[i] == if i in route then Admit(net.nodes[i], Accept(key, false, true)) else net.nodes[i]
    {
      assert i in route <==> i == route[0] || i in route[1..];
      if i == route[0] {
        assert i !in route[1..];
      }
    }
  }

  // ---- the ends of the path --------------------------------------------------------------------

  /** An application request for an acknowledged unicast, with everything else left to the stack. */
  predicate Asks(node: Node, q: Request, dest: nat) {
    && q.src == 0 && q.id == 0 && q.hopStart == 0 && q.wantAck && !q.viaMqtt && Sendable(q)
    && q.dest == dest && dest != BROADCAST && dest != node.id && q.data.portnum != PORT_ROUTING
  }

  /** The table has room, and holds nothing under the id handed out next. */
  predicate HasRoom(node: Node) {
    R.FirstFree(node.table.slots) < |node.table.slots|
    && R.FirstHolding(node.table.slots, FreshId(node)) == |node.table.slots|
  }

  /** The first entry for packet `id` is the one sent to `dest` on `port`. */
  predicate Waiting(node: Node, id: nat, dest: nat, port: nat) {
    var k := R.FirstHolding(node.table.slots, id);
    k < |node.table.slots| && node.table.slots[k].dest == dest && node.table.slots[k].portnum == port
  }

  lemma {:induction false} HoldingAfter(slots: seq<R.Slot<Copy>>, k: nat, s: R.Slot<Copy>, id: nat)
    requires k < |slots| && R.Holds(s, id) && R.FirstHolding(slots, id) == |slots|
    ensures R.FirstHolding(slots[k := s], id) == k
  {
    assert slots[k := s][k] == s;
  }

  lemma SendTracks(node: Node, q: Request, dest: nat, now: int, delay: nat)
    requires Asks(node, q, dest) && HasRoom(node)
    ensures var f, k := Prepare(node, q), R.FirstFree(node.table.slots);
      var (st, events) := R.Track(node.cfg, node.table, node.id, f.Header(), Launch(f, false), HDR_LEN + |q.data.payload|, now, delay);
      && events == [R.Accepted(k, now, FreshId(node), dest, q.data.portnum, Launch(f, false))]
      && R.FirstHolding(st.slots, FreshId(node)) == k && k < |st.slots|
      && st.slots[k].dest == dest && st.slots[k].portnum == q.data.portnum
  {
    hide R.EarliestDue;
    var f, k := Prepare(node, q), R.FirstFree(node.table.slots);
    var entry := R.Pending(FreshId(node), dest, q.data.portnum, now + delay, node.cfg.retransmissions, Launch(f, false));
    HoldingAfter(node.table.slots, k, entry, FreshId(node));
  }

  lemma SendHeard(node: Node, q: Request, dest: nat, to: nat, now: int, delay: nat)
    requires Asks(node, q, dest) && HasRoom(node)
    ensures var e := Send(node, q, false, Tx(true, [to]), true, now, delay);
      && e.rx == [Rx(to, Launch(Prepare(node, q), false))]
      && e.node.id == node.id && e.node.ring == node.ring
      && Waiting(e.node, FreshId(node), dest, q.data.portnum)
      && |e.node.events| == |node.events| + 1
  {
    SendTracks(node, q, dest, now, delay);
    hide R.Track, R.FirstHolding, R.FirstFree;
  }

  /** An acknowledgement of packet `id` by `me`. */
  predicate Answer(c: Copy, me: nat, myId: nat, dest: nat, id: nat) {
    && c.relays == 0 && c.frame.src == me && c.frame.id == myId && c.frame.dest == dest && !c.frame.viaMqtt
    && c.frame.data == Data(PORT_ROUTING, id, false, [])
  }

  /** The hops an answer gets after `r` relays, from a node with hop limit `own`. */
  function BackBudget(r: nat, own: nat): int {
    Max(r, Min(r + REPLY_HOP_MARGIN, own))
  }

  lemma DecodedAnswers(node: Node, c: Copy, to: nat, now: int)
    requires c.frame.dest == node.id && c.frame.wantAck && c.frame.src != node.id && c.frame.src != 0 && node.id != 0
    requires MeshFlood.HopsHold(c) && 1 <= node.hopLimit <= 7
    ensures var e := OnDecoded(node, c.frame, Tx(true, [to]), now);
      && |e.rx| == 1 && e.rx[0].to == to && e.node.id == node.id
      && Answer(e.rx[0].copy, node.id, FreshId(node), c.frame.src, c.frame.id)
      && BackBudget(c.relays, node.hopLimit) <= e.rx[0].copy.frame.hopLimit
  {
    hide R.Settle, R.Track, ReplyHops;
    MeshFlood.ReturnBudget(node, c);
  }

  /** The destination answers, whether or not it has seen the packet before. */
  lemma DestinationAnswers(node: Node, c: Copy, to: nat, now: int)
    requires c.frame.dest == node.id && c.frame.wantAck && c.frame.src != node.id && c.frame.src != 0 && node.id != 0
    requires MeshFlood.HopsHold(c) && 1 <= node.hopLimit <= 7 && !c.frame.viaMqtt
    ensures var e := Receive(node, c, true, Tx(true, [to]), LOST, now);
      && |e.rx| == 1 && e.rx[0].to == to
      && Answer(e.rx[0].copy, node.id, FreshId(node), c.frame.src, c.frame.id)
      && BackBudget(c.relays, node.hopLimit) <= e.rx[0].copy.frame.hopLimit
      && Decoding(node.id, c.frame.Essence()) in e.decoded
  {
    hide OnDecoded;
    DecodedAnswers(node, c, to, now);
    var n := Admit(node, Accept(c.frame.Key(), Delivers(node, c.frame), Relays(node, c.frame)));
    DecodedAnswers(Uplink(n, c), c, to, now);
  }

  /** A fresh acknowledgement settles the entry that waits for it. */
  lemma AnswerSettles(node: Node, c: Copy, id: nat, dest: nat, port: nat, now: int)
    requires c.frame.src != node.id && c.frame.dest == node.id && !c.frame.viaMqtt && id != 0
    requires c.frame.data == Data(PORT_ROUTING, id, false, []) && !node.ring.Contains(c.frame.Key())
    requires Waiting(node, id, dest, port)
    ensures var e := Receive(node, c, true, LOST, LOST, now);
      var k := R.FirstHolding(node.table.slots, id);
      e.node.events == node.events + [R.Acked(k, id, dest, port)]
  {
    hide OnDecoded, R.FirstHolding;
    var n := Admit(node, Accept(c.frame.Key(), Delivers(node, c.frame), Relays(node, c.frame)));
    DecodedSettles(Uplink(n, c), c.frame, id, dest, port, now);
  }

  lemma DecodedSettles(node: Node, f: Frame, id: nat, dest: nat, port: nat, now: int)
    requires f.src != node.id && f.dest == node.id && id != 0 && f.data == Data(PORT_ROUTING, id, false, [])
    requires Waiting(node, id, dest, port)
    ensures OnDecoded(node, f, LOST, now).node.events
         == node.events + [R.Acked(R.FirstHolding(node.table.slots, id), id, dest, port)]
  {
    hide R.FirstHolding;
  }

  // ---- there and back -----------------------------------------------------------------------------

  /** Nodes on a route are willing to relay a packet of this key between these two ids. */
  ghost predicate Ready(net: Net, route: seq<nat>, one: nat, other: nat, key: Pair) {
    && Distinct(route)
    && forall i :: 0 <= i < |route| ==>
         && route[i] < |net.nodes|
         && var n := net.nodes[route[i]]; n.rebroadcasts && n.id != one && n.id != other && !n.ring.Contains(key)
  }

  function KeyOf(node: Node): Pair {
    Pair(node.id, FreshId(node))
  }

  /**
    A path of relays from node `a` to node `b` and another one back, neither of which has seen the
    packets that are about to travel them.
   */
  ghost predicate Connected(net: Net, a: nat, b: nat, out: seq<nat>, back: seq<nat>) {
    && a < |net.nodes| && b < |net.nodes| && a != b && a !in out && a !in back && b !in out && b !in back
    && var (me, you) := (net.nodes[a], net.nodes[b]);
       && me.id !in {0, BROADCAST, you.id} && you.id !in {0, BROADCAST} && 1 <= you.hopLimit <= 7
       && Ready(net, out, me.id, you.id, KeyOf(me)) && Ready(net, back, me.id, you.id, KeyOf(you))
       && !me.ring.Contains(KeyOf(you))
  }

  lemma Launched(net: Net, a: nat, q: Request, dest: nat, to: nat, now: int, delay: nat) returns (s: Step)
    requires a < |net.nodes| && to < |net.nodes| && Asks(net.nodes[a], q, dest) && HasRoom(net.nodes[a])
    ensures s == AppSend(a, q, Tx(true, [to]), true, now, delay) && Possible(net, s)
    ensures var me, net' := net.nodes[a], Perform(net, s);
      && Incoming(net', to, Launch(Prepare(me, q), false))
      && net'.nodes == net.nodes[a := net'.nodes[a]]
      && var me' := net'.nodes[a];
         && me'.id == me.id && me'.ring == me.ring && |me'.events| == |me.events| + 1
         && Waiting(me', FreshId(me), dest, q.data.portnum)
  {
    hide Send, Waiting, FreshId;
    SendHeard(net.nodes[a], q, dest, to, now, delay);
    s := AppSend(a, q, Tx(true, [to]), true, now, delay);
  }

  lemma Replied(net: Net, b: nat, c: Copy, to: nat, now: int) returns (s: Step, answer: Copy)
    requires b < |net.nodes| && to < |net.nodes| && Incoming(net, b, c)
    requires var you := net.nodes[b];
      c.frame.dest == you.id && c.frame.wantAck && c.frame.src != you.id && c.frame.src != 0 && you.id != 0 && 1 <= you.hopLimit <= 7
    requires MeshFlood.HopsHold(c) && !c.frame.viaMqtt
    ensures s.Hear? && s.k == |net.air| - 1 && s.decodes && Possible(net, s)
    ensures var you, net' := net.nodes[b], Perform(net, s);
      && Incoming(net', to, answer) && Answer(answer, you.id, FreshId(you), c.frame.src, c.frame.id)
      && BackBudget(c.relays, you.hopLimit) <= answer.frame.hopLimit
      && net'.nodes == net.nodes[b := net'.nodes[b]]
      && Decoding(you.id, c.frame.Essence()) in net'.decoded
  {
    hide Receive, FreshId, Answer;
    DestinationAnswers(net.nodes[b], c, to, now);
    s := Hear(|net.air| - 1, true, Tx(true, [to]), LOST, now);
    answer := Receive(net.nodes[b], c, true, Tx(true, [to]), LOST, now).rx[0].copy;
  }

  lemma Confirmed(net: Net, a: nat, c: Copy, id: nat, dest: nat, port: nat, now: int) returns (s: Step)
    requires a < |net.nodes| && Incoming(net, a, c) && Waiting(net.nodes[a], id, dest, port) && id != 0
    requires var me := net.nodes[a];
      c.frame.src != me.id && c.frame.dest == me.id && !c.frame.viaMqtt && !me.ring.Contains(c.frame.Key())
    requires c.frame.data == Data(PORT_ROUTING, id, false, [])
    ensures s.Hear? && Possible(net, s)
    ensures |Perform(net, s).nodes| == |net.nodes|
    ensures var me' := Perform(net, s).nodes[a];
      exists k :: me'.events == net.nodes[a].events + [R.Acked(k, id, dest, port)]
  {
    hide Receive, R.FirstHolding;
    AnswerSettles(net.nodes[a], c, id, dest, port, now);
    s := Hear(|net.air| - 1, true, LOST, LOST, now);
  }

  /** The id handed out next. */
  function NextId(node: Node): nat {
    if node.nextId == 0 then 1 else node.nextId
  }

  /** The hops a request gets. */
  function GivenHops(node: Node, q: Request): nat {
    if q.hopLimit == 0 then node.hopLimit else q.hopLimit
  }

  /** A request of `node`, source, id and hop_start left to the stack, on the air after `n` relays. */
  function Travelling(node: Node, q: Request, n: nat): Frame
    requires n <= GivenHops(node, q) <= 7
  {
    Frame(q.dest, node.id, NextId(node), GivenHops(node, q) - n, GivenHops(node, q), q.wantAck, false, q.data)
  }

  lemma PreparedTravels(node: Node, q: Request)
    requires q.src == 0 && q.id == 0 && q.hopStart == 0 && !q.viaMqtt && GivenHops(node, q) <= 7
    ensures Prepare(node, q) == Travelling(node, q, 0) && FreshId(node) == NextId(node)
  {
  }

  /** The packet has just been sent: it is about to be heard, and its sender waits for an answer. */
  ghost predicate Underway(net: Net, net1: Net, a: nat, first: nat, q: Request)
    requires a < |net.nodes| && GivenHops(net.nodes[a], q) <= 7
  {
    var me := net.nodes[a];
    && |net1.nodes| == |net.nodes| && (forall i :: 0 <= i < |net.nodes| && i != a ==> net1.nodes[i] == net.nodes[i])
    && Incoming(net1, first, Launch(Travelling(me, q, 0), false))
    && net1.nodes[a].id == me.id && net1.nodes[a].ring == me.ring
    && Waiting(net1.nodes[a], NextId(me), q.dest, q.data.portnum)
  }

  /** The way there: heard by `b` after |out| relays. */
  lemma WayThere(net: Net, net1: Net, a: nat, b: nat, out: seq<nat>, back: seq<nat>, q: Request) returns (run: seq<Step>)
    requires Connected(net, a, b, out, back) && Asks(net.nodes[a], q, net.nodes[b].id)
    requires |out| <= GivenHops(net.nodes[a], q) <= 7 && Underway(net, net1, a, FirstOf(out, b), q)
    ensures IsRun(net1, run) && forall i :: 0 <= i < |run| ==> run[i].Hear?
    ensures var net', me, you := After(net1, run), net.nodes[a], net.nodes[b];
      && |net'.nodes| == |net.nodes| && net'.nodes[b] == you && net'.nodes[a] == net1.nodes[a]
      && Incoming(net', b, Relayed(Launch(Travelling(me, q, 0), false), |out|))
      && Ready(net', back, me.id, you.id, KeyOf(you))
  {
    hide Perform, Possible, Waiting;
    var me, you := net.nodes[a], net.nodes[b];
    var c := Launch(Travelling(me, q, 0), false);
    assert c.frame.Key() == KeyOf(me);
    assert RouteOk(net1, out, c.frame);
    run := Carried(net1, out, b, c);
    assert Ready(net1, back, me.id, you.id, KeyOf(you));
    StillReady(net1, After(net1, run), out, c.frame.Key(), back, me.id, you.id, KeyOf(you));
  }

  lemma StillReady(net: Net, net': Net, route: seq<nat>, key: Pair, back: seq<nat>, one: nat, other: nat, key': Pair)
    requires OnlyRelayed(net, net', route, key) && Ready(net, back, one, other, key') && key != key'
    ensures Ready(net', back, one, other, key')
  {
    forall i | 0 <= i < |back|
      ensures !net'.nodes[back[i]].ring.Contains(key')
    {
      AddOnly(net.nodes[back[i]].ring, key, key');
    }
  }

  lemma AddOnly(ring: LiveRing, key: Pair, key': Pair)
    requires !ring.Contains(key') && key != key'
    ensures !ring.Add(key).Contains(key')
  {
    var cells := ring.cells[ring.head := key];
    assert forall i :: 0 <= i < |cells| ==> cells[i] == key || cells[i] == ring.cells[i];
  }

  /** The way back: answered by `b`, confirmed by `a`. */
  lemma WayBack(net: Net, a: nat, b: nat, back: seq<nat>, c: Copy, port: nat, now: int) returns (run: seq<Step>)
    requires a < |net.nodes| && b < |net.nodes| && a != b && a !in back && b !in back && Incoming(net, b, c)
    requires var (me, you) := (net.nodes[a], net.nodes[b]);
      && me.id !in {0, BROADCAST, you.id} && you.id !in {0, BROADCAST} && 1 <= you.hopLimit <= 7
      && c.frame.src == me.id && c.frame.dest == you.id && c.frame.wantAck && !c.frame.viaMqtt && c.frame.id != 0
      && Waiting(me, c.frame.id, you.id, port) && !me.ring.Contains(KeyOf(you))
      && Ready(net, back, me.id, you.id, KeyOf(you))
    requires MeshFlood.HopsHold(c) && |back| <= BackBudget(c.relays, net.nodes[b].hopLimit)
    ensures IsRun(net, run) && forall i :: 0 <= i < |run| ==> run[i].Hear?
    ensures run != [] && run[0].k == |net.air| - 1 && run[0].decodes
    ensures |After(net, run).nodes| == |net.nodes|
    ensures exists k :: After(net, run).nodes[a].events == net.nodes[a].events + [R.Acked(k, c.frame.id, net.nodes[b].id, port)]
  {
    hide Perform, Possible, Waiting;
    var me, you := net.nodes[a], net.nodes[b];
    var s, answer := Replied(net, b, c, FirstOf(back, a), now);
    var net1 := Perform(net, s);
    assert RouteOk(net1, back, answer.frame);
    var carry := Carried(net1, back, a, answer);
    var net2 := After(net1, carry);
    assert net2.nodes[a] == me;
    var last := Confirmed(net2, a, Relayed(answer, |back|), c.frame.id, you.id, port, now);
    RunOne(net2, last);
    RunsCompose(net1, carry, [last]);
    RunOne(net, s);
    RunsCompose(net, [s], carry + [last]);
    run := [s] + (carry + [last]);
  }

  /** In step `k` node `b` reads this frame, and its application gets it if it is new and wanted there. */
  ghost predicate ReadAt(net: Net, run: seq<Step>, k: nat, b: nat, f: Frame)
    requires IsRun(net, run) && k < |run|
  {
    NextState(net, run, k);
    var (now, s) := (StateAt(net, run, k), run[k]);
    && s.Hear? && Actor(now, s) == b
    && Decoding(now.nodes[b].id, f.Essence()) in Act(now, s).decoded
    && (!now.nodes[b].ring.Contains(f.Key()) && MeshRules.Wanted(now.nodes[b], f.dest, f.data.portnum) ==>
          Act(now, s).delivered == [f])
  }

  /** Whoever hears a readable copy that asks it for an acknowledgement, or that is new, reads it. */
  lemma HeardIsRead(node: Node, c: Copy, ack: Tx, relay: Tx, now: int)
    requires !c.frame.viaMqtt && (!node.ring.Contains(c.frame.Key()) || (c.frame.wantAck && c.frame.dest == node.id))
    ensures var e := Receive(node, c, true, ack, relay, now);
      && Decoding(node.id, c.frame.Essence()) in e.decoded
      && (!node.ring.Contains(c.frame.Key()) && MeshRules.Wanted(node, c.frame.dest, c.frame.data.portnum) ==>
            e.delivered == [c.frame])
  {
    MeshRules.DeliveryRule(node, c, true, ack, relay, now);
    hide OnDecoded;
  }

  /** The first of some steps is the reception of what is about to be heard. */
  lemma FirstReads(net: Net, there: seq<Step>, home: seq<Step>, b: nat, c: Copy)
    requires IsRun(net, there) && IsRun(After(net, there), home) && home != [] && home[0].Hear? && home[0].decodes
    requires var now := After(net, there);
      && home[0].k == |now.air| - 1 && Incoming(now, b, c) && b < |now.nodes| && !c.frame.viaMqtt
      && (!now.nodes[b].ring.Contains(c.frame.Key()) || (c.frame.wantAck && c.frame.dest == now.nodes[b].id))
    ensures IsRun(net, there + home) && After(net, there + home) == After(After(net, there), home)
    ensures ReadAt(net, there + home, |there|, b, c.frame)
  {
    RunsCompose(net, there, home);
    var run, k := there + home, |there|;
    var (now, s) := (After(net, there), home[0]);
    assert run[..k] == there && run[k] == s;
    assert StateAt(net, run, k) == now;
    NextState(net, run, k);
    HeardIsRead(now.nodes[b], c, s.ack, s.relay, s.now);
    hide Receive, IsRun, After, StateAt;
  }

  /** What is underway arrives, is read, and is acknowledged. */
  lemma RoundTripFrom(net: Net, net1: Net, a: nat, b: nat, out: seq<nat>, back: seq<nat>, q: Request, now: int)
    returns (run: seq<Step>, k: nat)
    requires Connected(net, a, b, out, back) && Asks(net.nodes[a], q, net.nodes[b].id)
    requires |out| <= GivenHops(net.nodes[a], q) <= 7 && |back| <= BackBudget(|out|, net.nodes[b].hopLimit)
    requires Underway(net, net1, a, FirstOf(out, b), q)
    ensures IsRun(net1, run) && (forall i :: 0 <= i < |run| ==> run[i].Hear?) && k < |run|
    ensures ReadAt(net1, run, k, b, Travelling(net.nodes[a], q, |out|))
    ensures |After(net1, run).nodes| == |net.nodes|
    ensures var events := After(net1, run).nodes[a].events;
      events != [] && var e := events[|events| - 1];
        e.Acked? && e.id == NextId(net.nodes[a]) && e.dest == net.nodes[b].id && e.portnum == q.data.portnum
  {
    hide Perform, Possible, Waiting, Ready;
    var c := Relayed(Launch(Travelling(net.nodes[a], q, 0), false), |out|);
    assert c.frame == Travelling(net.nodes[a], q, |out|);
    var there := WayThere(net, net1, a, b, out, back, q);
    var home := WayBack(After(net1, there), a, b, back, c, q.data.portnum, now);
    FirstReads(net1, there, home, b, c);
    run, k := there + home, |there|;
    hide IsRun, After, ReadAt;
    assert forall i :: 0 <= i < |run| ==> run[i].Hear?;
  }

  /** The run ends with `a` reporting this request as acknowledged, `b` having read it in step `k`. */
  ghost predicate Acknowledges(net: Net, run: seq<Step>, k: nat, a: nat, b: nat, q: Request, n: nat)
    requires a < |net.nodes| && b < |net.nodes| && n <= GivenHops(net.nodes[a], q) <= 7
  {
    && IsRun(net, run) && (forall i :: 0 <= i < |run| ==> MeshAck.Honest(run[i])) && k < |run|
    && ReadAt(net, run, k, b, Travelling(net.nodes[a], q, n))
    && |After(net, run).nodes| == |net.nodes|
    && var events := After(net, run).nodes[a].events;
       events != [] && var e := events[|events| - 1];
         e.Acked? && e.id == NextId(net.nodes[a]) && e.dest == net.nodes[b].id && e.portnum == q.data.portnum
  }

  /** Steps taken first do not change what is read later. */
  lemma ReadLater(net: Net, first: seq<Step>, run: seq<Step>, k: nat, b: nat, f: Frame)
    requires IsRun(net, first) && IsRun(After(net, first), run) && k < |run| && ReadAt(After(net, first), run, k, b, f)
    ensures IsRun(net, first + run) && After(net, first + run) == After(After(net, first), run)
    ensures ReadAt(net, first + run, |first| + k, b, f)
  {
    RunsCompose(net, first, run);
    RunSplits(After(net, first), run, k);
    RunsCompose(net, first, run[..k]);
    var all := first + run;
    assert all[..|first| + k] == first + run[..k] && all[|first| + k] == run[k];
    assert StateAt(net, all, |first| + k) == StateAt(After(net, first), run, k);
    NextState(net, all, |first| + k);
    NextState(After(net, first), run, k);
    hide IsRun, After, StateAt, Act, Possible;
  }

  /** Whatever honest steps got the packet underway, the rest follows. */
  lemma AcknowledgedAfter(net: Net, first: seq<Step>, a: nat, b: nat, out: seq<nat>, back: seq<nat>, q: Request, now: int)
    requires Connected(net, a, b, out, back) && Asks(net.nodes[a], q, net.nodes[b].id)
    requires |out| <= GivenHops(net.nodes[a], q) <= 7 && |back| <= BackBudget(|out|, net.nodes[b].hopLimit)
    requires IsRun(net, first) && forall i :: 0 <= i < |first| ==> MeshAck.Honest(first[i])
    requires Underway(net, After(net, first), a, FirstOf(out, b), q)
    ensures exists run, k :: Acknowledges(net, run, k, a, b, q, |out|)
  {
    hide IsRun, After, ReadAt, Ready, Waiting;
    var rest, k := RoundTripFrom(net, After(net, first), a, b, out, back, q, now);
    ReadLater(net, first, rest, k, b, Travelling(net.nodes[a], q, |out|));
    var run := first + rest;
    assert forall i :: 0 <= i < |run| ==> MeshAck.Honest(run[i]);
    assert Acknowledges(net, run, |first| + k, a, b, q, |out|);
  }

  lemma LaunchedUnderway(net: Net, a: nat, b: nat, out: seq<nat>, back: seq<nat>, q: Request, now: int, delay: nat) returns (s: Step)
    requires Connected(net, a, b, out, back) && Asks(net.nodes[a], q, net.nodes[b].id) && HasRoom(net.nodes[a])
    requires GivenHops(net.nodes[a], q) <= 7
    ensures Possible(net, s) && MeshAck.Honest(s) && Underway(net, Perform(net, s), a, FirstOf(out, b), q)
  {
    hide Perform, Possible, Waiting, HasRoom;
    PreparedTravels(net.nodes[a], q);
    s := Launched(net, a, q, net.nodes[b].id, FirstOf(out, b), now, delay);
  }

  /**
    In every network and every state of it: if there is a path of willing relays from `a` to `b` no
    longer than the packet's hop limit, and one back within the hops its answer gets - as many as the
    way there, and up to two more - then in some run of honest steps `b` reads the packet, its
    application gets it if it is new and wanted, and `a` reports it as acknowledged.
   */
  lemma PathAcknowledges(net: Net, a: nat, b: nat, out: seq<nat>, back: seq<nat>, q: Request, now: int, delay: nat)
    requires Connected(net, a, b, out, back) && Asks(net.nodes[a], q, net.nodes[b].id) && HasRoom(net.nodes[a])
    requires |out| <= GivenHops(net.nodes[a], q) <= 7 && |back| <= BackBudget(|out|, net.nodes[b].hopLimit)
    ensures exists run, k :: Acknowledges(net, run, k, a, b, q, |out|)
  {
    hide Perform, Possible, Waiting, HasRoom, Ready, Underway;
    var s := LaunchedUnderway(net, a, b, out, back, q, now, delay);
    RunOne(net, s);
    AcknowledgedAfter(net, [s], a, b, out, back, q, now);
  }

  // ---- a lost first transmission --------------------------------------------------------------------

  lemma SendLost(node: Node, q: Request, dest: nat, now: int, delay: nat)
    requires Asks(node, q, dest) && HasRoom(node)
    ensures var e := Send(node, q, false, LOST, true, now, delay);
      && e.rx == [] && e.node.id == node.id && e.node.ring == node.ring
      && Waiting(e.node, FreshId(node), dest, q.data.portnum)
      && var s := e.node.table.slots[R.FirstHolding(e.node.table.slots, FreshId(node))];
         s.wire == Launch(Prepare(node, q), false) && s.due == now + delay && s.attemptsLeft == node.cfg.retransmissions
  {
    SendTracks(node, q, dest, now, delay);
    hide R.Track, R.FirstHolding, R.FirstFree;
  }

  /** Only slot `k` is heard. */
  function OnlySlot(k: nat, to: nat): nat -> Tx {
    j => if j == k then Tx(true, [to]) else LOST
  }

  /** If only part `k` is heard, so is the whole. */
  lemma {:induction false} OnlyPartHeard(parts: seq<seq<R.Event<Copy>>>, txs: nat -> Tx, k: nat, rx: seq<Rx>, n: nat)
    requires n <= |parts| && forall i :: 0 <= i < |parts| ==> ResentRx(parts[i], txs) == if i == k then rx else []
    ensures ResentRx(R.Gather(parts, n), txs) == if k < n then rx else []
  {
    hide ResentRx;
    if n == 0 {
      NothingResent(txs);
    } else {
      OnlyPartHeard(parts, txs, k, rx, n - 1);
      MeshQuiescence.ResentAppend(R.Gather(parts, n - 1), parts[n - 1], txs);
      assert ResentRx(parts[n - 1], txs) == if n - 1 == k then rx else [];
    }
  }

  lemma NothingResent(txs: nat -> Tx)
    ensures ResentRx([], txs) == []
  {
  }

  lemma OnlySlotHeard(slots: seq<R.Slot<Copy>>, now: int, k: nat, to: nat, n: nat)
    requires n <= |slots| && k < |slots| && R.Due(slots[k], now) && slots[k].attemptsLeft > 0
    ensures ResentRx(R.Gather(R.ResendParts(slots, now), n), OnlySlot(k, to))
         == if k < n then [Rx(to, slots[k].wire)] else []
    ensures ResentRx(R.Gather(R.ExpiryParts(slots, now), n), OnlySlot(k, to)) == []
  {
    hide ResentRx, R.ResendOf, R.ExpiryOf, R.Gather;
    var (resends, expiries) := (R.ResendParts(slots, now), R.ExpiryParts(slots, now));
    forall i | 0 <= i < |slots|
      ensures ResentRx(resends[i], OnlySlot(k, to)) == if i == k then [Rx(to, slots[k].wire)] else []
      ensures ResentRx(expiries[i], OnlySlot(k, to)) == []
    {
      PartHeard(slots[i], now, i, k, to);
    }
    OnlyPartHeard(resends, OnlySlot(k, to), k, [Rx(to, slots[k].wire)], n);
    OnlyPartHeard(expiries, OnlySlot(k, to), k, [], n);
  }

  lemma PartHeard(s: R.Slot<Copy>, now: int, i: nat, k: nat, to: nat)
    ensures ResentRx(R.ResendOf(s, now, i), OnlySlot(k, to))
         == if R.Due(s, now) && s.attemptsLeft > 0 && i == k then [Rx(to, s.wire)] else []
    ensures ResentRx(R.ExpiryOf(s, now, i), OnlySlot(k, to)) == []
  {
    if R.Due(s, now) && s.attemptsLeft > 0 {
      MeshRules.OneResent(i, now, s.wire, OnlySlot(k, to));
    }
  }

  /** The timer sends a waiting packet again, heard by `to` alone, and it goes on waiting. */
  lemma RetryHeard(node: Node, id: nat, dest: nat, port: nat, to: nat, now: int, delays: nat -> nat)
    requires Waiting(node, id, dest, port)
    requires var s := node.table.slots[R.FirstHolding(node.table.slots, id)]; s.due <= now && s.attemptsLeft > 0
    ensures var k := R.FirstHolding(node.table.slots, id);
      var e := RunTimer(node, now, delays, OnlySlot(k, to));
      && e.rx == [Rx(to, node.table.slots[k].wire)] && e.node.id == node.id && e.node.ring == node.ring
      && Waiting(e.node, id, dest, port)
  {
    hide R.EarliestDue, R.Gather, ResentRx, ResentCount;
    var (slots, k) := (node.table.slots, R.FirstHolding(node.table.slots, id));
    OnlySlotHeard(slots, now, k, to, |slots|);
    MeshQuiescence.ResentAppend(R.Gather(R.ResendParts(slots, now), |slots|), R.Gather(R.ExpiryParts(slots, now), |slots|), OnlySlot(k, to));
    var swept := R.SweepSlots(slots, now, delays);
    assert R.Holds(swept[k], id);
    assert forall j :: 0 <= j < |slots| && R.Holds(swept[j], id) ==> R.Holds(slots[j], id);
    assert R.FirstHolding(swept, id) == k;
  }

  lemma LostThenRetried(net: Net, a: nat, b: nat, out: seq<nat>, back: seq<nat>, q: Request, now: int, delay: nat)
    returns (first: seq<Step>)
    requires Connected(net, a, b, out, back) && Asks(net.nodes[a], q, net.nodes[b].id) && HasRoom(net.nodes[a])
    requires GivenHops(net.nodes[a], q) <= 7 && net.nodes[a].cfg.retransmissions > 0
    ensures |first| == 2 && first[0] == AppSend(a, q, LOST, true, now, delay) && first[1].TimerRuns?
    ensures IsRun(net, first) && Underway(net, After(net, first), a, FirstOf(out, b), q)
  {
    hide Send, RunTimer, Waiting, R.FirstHolding;
    var me := net.nodes[a];
    PreparedTravels(me, q);
    SendLost(me, q, net.nodes[b].id, now, delay);
    var s := AppSend(a, q, LOST, true, now, delay);
    var net1 := Perform(net, s);
    var me1 := net1.nodes[a];
    WaitingBound(me1, NextId(me), q.dest, q.data.portnum);
    var k := R.FirstHolding(me1.table.slots, NextId(me));
    var t := TimerRuns(a, now + delay, _ => 0, OnlySlot(k, FirstOf(out, b)));
    RetryHeard(me1, NextId(me), q.dest, q.data.portnum, FirstOf(out, b), now + delay, _ => 0);
    TwoSteps(net, s, t);
    first := [s, t];
  }

  lemma WaitingBound(node: Node, id: nat, dest: nat, port: nat)
    requires Waiting(node, id, dest, port)
    ensures R.FirstHolding(node.table.slots, id) < |node.table.slots|
  {
  }

  /** The same if nobody hears the first transmission, as long as there is a retransmission to come. */
  lemma RetryAcknowledges(net: Net, a: nat, b: nat, out: seq<nat>, back: seq<nat>, q: Request, now: int, delay: nat)
    requires Connected(net, a, b, out, back) && Asks(net.nodes[a], q, net.nodes[b].id) && HasRoom(net.nodes[a])
    requires |out| <= GivenHops(net.nodes[a], q) <= 7 && |back| <= BackBudget(|out|, net.nodes[b].hopLimit)
    requires net.nodes[a].cfg.retransmissions > 0
    ensures exists run, k :: Acknowledges(net, run, k, a, b, q, |out|) && run[0] == AppSend(a, q, LOST, true, now, delay)
  {
    hide IsRun, After, ReadAt, Ready, Waiting, HasRoom, Underway;
    var first := LostThenRetried(net, a, b, out, back, q, now, delay);
    var rest, k := RoundTripFrom(net, After(net, first), a, b, out, back, q, now);
    ReadLater(net, first, rest, k, b, Travelling(net.nodes[a], q, |out|));
    var run := first + rest;
    assert forall i :: 0 <= i < |run| ==> MeshAck.Honest(run[i]);
    assert Acknowledges(net, run, |first| + k, a, b, q, |out|);
  }

  // ---- packets for all ---------------------------------------------------------------------------------

  /** A request to everyone, with source, id and hop_start left to the stack. */
  predicate Tells(q: Request) {
    && q.src == 0 && q.id == 0 && q.hopStart == 0 && !q.viaMqtt && q.dest == 0xFFFF_FFFF && |q.data.payload| <= 233
  }

  /** Every node of the route has accepted the pair as a packet it passes on. */
  ghost predicate PassedOn(net: Net, route: seq<nat>, key: Pair) {
    forall i :: 0 <= i < |route| ==>
      route[i] < |net.nodes| && var log := net.nodes[route[i]].accepted;
        log != [] && log[|log| - 1] == Accept(key, false, true)
  }

  /** In step `k` node `b` reads the request to all, after every node of the route has passed it on. */
  ghost predicate Floods(net: Net, run: seq<Step>, k: nat, a: nat, b: nat, out: seq<nat>, q: Request)
    requires a < |net.nodes| && b < |net.nodes| && |out| <= GivenHops(net.nodes[a], q) <= 7
  {
    && IsRun(net, run) && k < |run|
    && ReadAt(net, run, k, b, Travelling(net.nodes[a], q, |out|))
    && PassedOn(StateAt(net, run, k), out, Pair(net.nodes[a].id, NextId(net.nodes[a])))
  }

  lemma ToldUnderway(net: Net, a: nat, q: Request, to: nat, now: int, delay: nat) returns (s: Step)
    requires a < |net.nodes| && to < |net.nodes| && Tells(q) && GivenHops(net.nodes[a], q) <= 7
    ensures s.AppSend? && Possible(net, s)
    ensures var net1 := Perform(net, s);
      && Incoming(net1, to, Launch(Travelling(net.nodes[a], q, 0), false))
      && net1.nodes == net.nodes[a := net1.nodes[a]]
  {
    hide R.Track;
    PreparedTravels(net.nodes[a], q);
    hide Prepare;
    s := AppSend(a, q, Tx(true, [to]), true, now, delay);
    assert Spread(Tx(true, [to]), Launch(Travelling(net.nodes[a], q, 0), false))
      == [Rx(to, Launch(Travelling(net.nodes[a], q, 0), false))];
  }

  /**
    In every network and every state of it: over any path of willing relays within the hop limit, a
    packet for all is passed on by each of them in some run, and read by whoever is at the end, whose
    application gets it if it is new and wanted.
   */
  lemma BroadcastReaches(net: Net, a: nat, b: nat, out: seq<nat>, q: Request, now: int, delay: nat)
    requires a < |net.nodes| && b < |net.nodes| && a != b && a !in out && b !in out && Tells(q)
    requires |out| <= GivenHops(net.nodes[a], q) <= 7
    requires Ready(net, out, net.nodes[a].id, 0xFFFF_FFFF, KeyOf(net.nodes[a])) && !net.nodes[b].ring.Contains(KeyOf(net.nodes[a]))
    ensures exists run, k :: Floods(net, run, k, a, b, out, q)
  {
    hide Perform, Possible, ReadAt;
    var me, you := net.nodes[a], net.nodes[b];
    var s := ToldUnderway(net, a, q, FirstOf(out, b), now, delay);
    RunOne(net, s);
    var net1 := Perform(net, s);
    var c := Launch(Travelling(me, q, 0), false);
    assert c.frame.Key() == KeyOf(me) && c.frame.id != 0;
    assert RouteOk(net1, out, c.frame);
    var carry := Carried(net1, out, b, c);
    var net2 := After(net1, carry);
    var c' := Relayed(c, |out|);
    assert c'.frame == Travelling(me, q, |out|);
    var t := Hear(|net2.air| - 1, true, LOST, LOST, now);
    HearPossible(net2, b, c', t);
    RunOne(net2, t);
    RunsCompose(net, [s], carry);
    var there := [s] + carry;
    assert net2.nodes[b] == you;
    RoutePassed(net1, net2, out, KeyOf(me));
    FirstReads(net, there, [t], b, c');
    var run, k := there + [t], |there|;
    assert run[..k] == there;
    assert StateAt(net, run, k) == net2;
    hide IsRun, After;
    assert Floods(net, run, k, a, b, out, q);
  }

  lemma HearPossible(net: Net, b: nat, c: Copy, s: Step)
    requires Incoming(net, b, c) && b < |net.nodes| && s.Hear? && s.k == |net.air| - 1 && s.ack == LOST && s.relay == LOST
    ensures Possible(net, s)
  {
  }

  lemma RoutePassed(net: Net, net': Net, route: seq<nat>, key: Pair)
    requires OnlyRelayed(net, net', route, key) && forall i :: 0 <= i < |route| ==> route[i] < |net.nodes|
    ensures PassedOn(net', route, key)
  {
  }
}
