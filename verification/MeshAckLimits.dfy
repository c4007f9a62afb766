/**
  Why `MeshAck.Trusted` is needed: five short runs in which a node reports a packet as
  acknowledged although its destination has decoded nothing at all.
 */
module MeshAckLimits {
  import opened DupCache
  import opened Mesh
  import R = Reliable

  const ALICE := 0xA
  const BOB := 0xB
  const CAROL := 0xC
  const DAVE := 0xD

  function NodeNamed(id: nat): Node {
    var cfg := R.Config(1, 0, 1000, 0);
    Node(id, 3, true, false, false, false, cfg, 1, Empty(4), R.Initial(cfg), 0, [], [], [])
  }

  function Trio(): Net {
    Net([NodeNamed(ALICE), NodeNamed(BOB), NodeNamed(CAROL)], [], map[], {})
  }

  lemma TrioFresh()
    ensures FreshNet(Trio())
  {
    NamedFresh(ALICE);
    NamedFresh(BOB);
    NamedFresh(CAROL);
    hide NodeNamed, FreshNode;
  }

  lemma NamedFresh(id: nat)
    requires id != 0 && id != BROADCAST
    ensures FreshNode(NodeNamed(id)) && NodeNamed(id).id == id
  {
  }

  function Ask(to: nat, port: nat, requestId: nat, wantAck: bool): Request {
    Request(0, to, 0, 0, 0, wantAck, false, Data(port, requestId, false, []))
  }

  /** Node 0 was told that its packet to `CAROL` arrived, yet `CAROL` never decoded anything. */
  ghost predicate FalselyAcked(net: Net) {
    && |net.nodes| == 3
    && (exists j :: 0 <= j < |net.nodes[0].events| && net.nodes[0].events[j].Acked? && net.nodes[0].events[j].dest == CAROL)
    && (forall d :: d in net.decoded ==> d.node != CAROL)
  }

  const LOST := Tx(true, [])

  /** A first tracked send that nobody hears. */
  lemma SendTracks(node: Node, to: nat, port: nat)
    requires node.id !in {0, to} && to !in {0, BROADCAST} && port != PORT_ROUTING && node.table == R.Initial(node.cfg)
    requires node.cfg == R.Config(1, 0, 1000, 0) && !node.uplinks && node.nextId == 1
    ensures var e := Send(node, Ask(to, port, 0, true), false, LOST, true, 0, 1000);
      && e.rx == [] && e.decoded == {} && e.node.id == node.id && e.node.ring == node.ring
      && e.node.ignoresMqtt == node.ignoresMqtt && e.node.uplinks == node.uplinks
      && |e.node.table.slots| == 1 && R.Holds(e.node.table.slots[0], 1) && e.node.table.slots[0].dest == to
  {
  }

  /** Any unseen ROUTING packet that names the first pending id settles it, whoever sent it. */
  lemma HearSettles(node: Node, c: Copy)
    requires c.frame.dest == node.id && c.frame.src != node.id && !c.frame.wantAck && !c.frame.viaMqtt
    requires c.frame.data.portnum == PORT_ROUTING && c.frame.data.requestId == 1 && !c.frame.data.nak
    requires !node.ring.Contains(c.frame.Key()) && !node.uplinks
    requires |node.table.slots| > 0 && R.Holds(node.table.slots[0], 1)
    ensures var e := Receive(node, c, true, LOST, LOST, 0);
      && e.decoded == {Decoding(node.id, c.frame.Essence())}
      && e.node.events == node.events + [R.Acked(0, 1, node.table.slots[0].dest, node.table.slots[0].portnum)]
  {
  }

  /** An application on a third node that sends ROUTING traffic of its own can forge an acknowledgement. */
  function ForgedRun(): seq<Step> {
    [AppSend(0, Ask(CAROL, 256, 0, true), LOST, true, 0, 1000),
     AppSend(1, Ask(ALICE, PORT_ROUTING, 1, false), Tx(true, [0]), true, 0, 0),
     Hear(0, true, LOST, LOST, 0)]
  }

  lemma ForgedAck()
    ensures FreshNet(Trio()) && IsRun(Trio(), ForgedRun()) && FalselyAcked(After(Trio(), ForgedRun()))
  {
    hide Send, Receive;
    TrioFresh();
    var run := ForgedRun();
    SendTracks(NodeNamed(ALICE), CAROL, 256);
    var n1 := Perform(Trio(), run[0]);
    var n2 := Perform(n1, run[1]);
    ForgeryHeard(NodeNamed(BOB));
    HearSettles(n2.nodes[0], n2.air[0].copy);
    var n3 := Perform(n2, run[2]);
    assert n3.nodes[0].events[|n3.nodes[0].events| - 1].Acked?;
    assert run[1..][0] == run[1] && run[1..][1..][0] == run[2] && run[1..][1..][1..] == [];
    assert IsRun(n2, run[1..][1..]);
  }

  /** An acknowledgement of packet 1, as it reaches node 0. */
  ghost predicate AckOfOne(rx: seq<Rx>, from: nat) {
    && |rx| == 1 && rx[0].to == 0
    && var f := rx[0].copy.frame;
       && f.src == from && f.id == 1 && f.dest == ALICE && !f.wantAck && !f.viaMqtt
       && f.data == Data(PORT_ROUTING, 1, false, [])
  }

  lemma ForgeryHeard(node: Node)
    requires node.id != 0 && !node.uplinks && node.nextId == 1
    ensures var e := Send(node, Ask(ALICE, PORT_ROUTING, 1, false), false, Tx(true, [0]), true, 0, 0);
      AckOfOne(e.rx, node.id) && e.decoded == {}
  {
  }

  // ---- a late acknowledgement and an id that is in use again ------------------------------------

  lemma FirstHop()
    ensures var e := Send(NodeNamed(ALICE), Ask(BOB, 256, 0, true), false, Tx(true, [1]), true, 0, 1000);
      && |e.rx| == 1 && e.rx[0].to == 1 && e.decoded == {}
      && e.rx[0].copy.frame == Frame(BOB, ALICE, 1, 3, 3, true, false, Data(256, 0, false, []))
      && e.node.id == ALICE && e.node.cfg == NodeNamed(ALICE).cfg && !e.node.uplinks && !e.node.ignoresMqtt
      && e.node.ring == Empty(4) && |e.node.table.slots| == 1
      && R.Due(e.node.table.slots[0], 1000) && e.node.table.slots[0].attemptsLeft == 0
  {
  }

  lemma BobAcks(c: Copy)
    requires c.frame == Frame(BOB, ALICE, 1, 3, 3, true, false, Data(256, 0, false, []))
    ensures var e := Receive(NodeNamed(BOB), c, true, Tx(true, [0]), LOST, 0);
      AckOfOne(e.rx, BOB) && e.decoded == {Decoding(BOB, c.frame.Essence())}
  {
  }

  /** Node 0 has sent packet 1 to `BOB`, who has answered; the answer is still on the air. */
  function Answered(): seq<Step> {
    [AppSend(0, Ask(BOB, 256, 0, true), Tx(true, [1]), true, 0, 1000), Hear(0, true, Tx(true, [0]), LOST, 0)]
  }

  ghost predicate AnswerDue(net: Net) {
    && |net.nodes| == 3 && AckOfOne(net.air, BOB) && (forall d :: d in net.decoded ==> d.node == BOB)
    && var a := net.nodes[0];
       && a.id == ALICE && a.cfg == NodeNamed(ALICE).cfg && !a.uplinks && !a.ignoresMqtt && a.ring == Empty(4)
       && |a.table.slots| == 1
  }

  lemma AfterAnswer()
    ensures IsRun(Trio(), Answered())
    ensures var net := After(Trio(), Answered());
      AnswerDue(net) && var s := net.nodes[0].table.slots[0]; R.Due(s, 1000) && s.attemptsLeft == 0
  {
    hide Send, Receive;
    var run := Answered();
    FirstHop();
    var n1 := Perform(Trio(), run[0]);
    BobAcks(n1.air[0].copy);
    assert run[1..][1..] == [] && run[1..][0] == run[1];
    assert IsRun(n1, run[1..]);
  }

  /** Node 0 has given up waiting, so that its table is free again. */
  ghost predicate GivenUp(net: Net) {
    AnswerDue(net) && net.nodes[0].table.slots[0].Free?
  }

  const EXPIRE := TimerRuns(0, 1000, _ => 1000, _ => LOST)

  lemma Expires(net: Net)
    requires AnswerDue(net) && R.Due(net.nodes[0].table.slots[0], 1000) && net.nodes[0].table.slots[0].attemptsLeft == 0
    ensures Possible(net, EXPIRE) && GivenUp(Perform(net, EXPIRE))
  {
    var slots := net.nodes[0].table.slots;
    assert R.ResendParts(slots, 1000) == [[]];
    assert R.Gather(R.ResendParts(slots, 1000), 0) == [];
    NoResends(R.Sweep(net.nodes[0].table, 1000, _ => 1000).1, _ => LOST);
  }

  /** Retransmissions that nobody hears. */
  lemma {:induction false} NoResends(events: seq<R.Event<Copy>>, txs: nat -> Tx)
    requires forall i :: txs(i) == LOST
    ensures ResentRx(events, txs) == []
  {
    if events != [] {
      NoResends(events[1..], txs);
      if events[0].Resent? {
        assert Spread(txs(events[0].slot), events[0].wire) == [];
      }
    }
  }

  lemma Restarts(net: Net)
    requires AnswerDue(net)
    ensures Possible(net, Reinit(0)) && GivenUp(Perform(net, Reinit(0))) && Perform(net, Reinit(0)).nodes[0].nextId == 1
  {
    var net' := Perform(net, Reinit(0));
    assert net'.air == net.air && net'.decoded == net.decoded;
    assert |net.nodes[0].ring.cells| == 4 && net'.nodes[0].ring == Empty(4);
    assert net'.nodes[0].table.slots == R.Initial<Copy>(NodeNamed(ALICE).cfg).slots;
  }

  /** A step by which node 0 starts waiting for packet 1 to `CAROL`, whom nothing reaches. */
  ghost predicate WaitsForCarol(node: Node, e: Effect) {
    && e.rx == [] && e.decoded == {} && e.node.id == node.id
    && !e.node.ring.Contains(Pair(BOB, 1)) && !e.node.uplinks && !e.node.ignoresMqtt
    && |e.node.table.slots| == 1 && R.Holds(e.node.table.slots[0], 1) && e.node.table.slots[0].dest == CAROL
  }

  const HEAR_IT := Hear(0, true, LOST, LOST, 0)

  lemma LateAnswer(net: Net, s: Step)
    requires GivenUp(net) && Possible(net, s) && !s.Lose? && !s.Hear? && s.node == 0
    requires WaitsForCarol(net.nodes[0], Act(net, s))
    ensures IsRun(net, [s, HEAR_IT]) && FalselyAcked(After(net, [s, HEAR_IT]))
  {
    hide Act, Receive;
    var n1 := Perform(net, s);
    assert n1.air == net.air;
    HearSettles(n1.nodes[0], n1.air[0].copy);
    SettlesAtHear(n1);
    var n2 := Perform(n1, HEAR_IT);
    TwoSteps(net, s, HEAR_IT);
    var last := n2.nodes[0].events[|n2.nodes[0].events| - 1];
    assert last.Acked? && last.dest == CAROL;
  }

  lemma SettlesAtHear(net: Net)
    requires |net.nodes| == 3 && net.air != [] && net.air[0].to == 0
    ensures Possible(net, HEAR_IT)
    ensures Act(net, HEAR_IT) == Receive(net.nodes[0], net.air[0].copy, true, LOST, LOST, 0)
  {
  }

  /** By these two steps node 0 gives up waiting for `BOB`, and starts waiting for `CAROL` under the same id. */
  ghost predicate Switches(net: Net, third: Step, fourth: Step) {
    && Possible(net, third) && GivenUp(Perform(net, third))
    && var net' := Perform(net, third);
       && Possible(net', fourth) && !fourth.Lose? && !fourth.Hear? && fourth.node == 0
       && WaitsForCarol(net'.nodes[0], Act(net', fourth))
  }

  lemma FalseReport(third: Step, fourth: Step)
    ensures FreshNet(Trio()) && IsRun(Trio(), Answered())
    ensures Switches(After(Trio(), Answered()), third, fourth) ==>
      && IsRun(Trio(), Answered() + [third, fourth, HEAR_IT])
      && FalselyAcked(After(Trio(), Answered() + [third, fourth, HEAR_IT]))
  {
    TrioFresh();
    AfterAnswer();
    var net := After(Trio(), Answered());
    hide GivenUp, FalselyAcked, WaitsForCarol, Act, AnswerDue, Trio, Answered;
    if Switches(net, third, fourth) {
      var net' := Perform(net, third);
      LateAnswer(net', fourth);
      hide Perform, Switches;
      var rest := [third, fourth, HEAR_IT];
      assert rest[1..] == [fourth, HEAR_IT];
      assert IsRun(net, rest);
      RunsCompose(Trio(), Answered(), rest);
    }
  }

  /** After a restart the stack hands out id 1 again. */
  const AFTER_RESTART := AppSend(0, Ask(CAROL, 256, 0, true), LOST, true, 0, 1000)

  lemma StaleAck()
    ensures FreshNet(Trio()) && IsRun(Trio(), Answered() + [Reinit(0), AFTER_RESTART, HEAR_IT])
    ensures FalselyAcked(After(Trio(), Answered() + [Reinit(0), AFTER_RESTART, HEAR_IT]))
  {
    hide After, IsRun, Trio, FalselyAcked, Perform, Possible, Act;
    AfterAnswer();
    var net := After(Trio(), Answered());
    Restarts(net);
    RestartWaits(Perform(net, Reinit(0)));
    FalseReport(Reinit(0), AFTER_RESTART);
  }

  /** An application may choose an id that is in use. */
  const WITH_OWN_ID := AppSend(0, Ask(CAROL, 256, 0, true).(id := 1), LOST, true, 0, 1000)

  lemma ReusedId()
    ensures FreshNet(Trio()) && IsRun(Trio(), Answered() + [EXPIRE, WITH_OWN_ID, HEAR_IT])
    ensures FalselyAcked(After(Trio(), Answered() + [EXPIRE, WITH_OWN_ID, HEAR_IT]))
  {
    hide After, IsRun, Trio, FalselyAcked, Perform, Possible, Act;
    AfterAnswer();
    var net := After(Trio(), Answered());
    Expires(net);
    OwnIdWaits(Perform(net, EXPIRE));
    FalseReport(EXPIRE, WITH_OWN_ID);
  }

  /** An application may send in another node's name, under an id that is new for that node. */
  const IN_OTHER_NAME := AppSend(0, Ask(CAROL, 256, 0, true).(id := 1, src := DAVE), LOST, true, 0, 1000)

  lemma BorrowedName()
    ensures FreshNet(Trio()) && IsRun(Trio(), Answered() + [EXPIRE, IN_OTHER_NAME, HEAR_IT])
    ensures FalselyAcked(After(Trio(), Answered() + [EXPIRE, IN_OTHER_NAME, HEAR_IT]))
  {
    hide After, IsRun, Trio, FalselyAcked, Perform, Possible, Act;
    AfterAnswer();
    var net := After(Trio(), Answered());
    Expires(net);
    OtherNameWaits(Perform(net, EXPIRE));
    FalseReport(EXPIRE, IN_OTHER_NAME);
  }

  /** A gateway tracks what it injects, although another node chose the id. */
  const FOREIGN := Downlink(0, Request(DAVE, CAROL, 1, 3, 0, true, false, Data(256, 0, false, [])), Plain, false, LOST, LOST, 0, 1000)

  lemma InjectedId()
    ensures FreshNet(Trio()) && IsRun(Trio(), Answered() + [EXPIRE, FOREIGN, HEAR_IT])
    ensures FalselyAcked(After(Trio(), Answered() + [EXPIRE, FOREIGN, HEAR_IT]))
  {
    hide After, IsRun, Trio, FalselyAcked, Perform, Possible, Act;
    AfterAnswer();
    var net := After(Trio(), Answered());
    Expires(net);
    ForeignWaits(Perform(net, EXPIRE));
    FalseReport(EXPIRE, FOREIGN);
  }

  ghost predicate Idle(node: Node) {
    && node.id == ALICE && node.cfg == NodeNamed(ALICE).cfg && !node.uplinks && !node.ignoresMqtt && node.ring == Empty(4)
    && |node.table.slots| == 1 && node.table.slots[0].Free?
  }

  lemma SendWaits(node: Node, q: Request)
    requires Idle(node) && (q.id == 1 || (q.id == 0 && node.nextId == 1)) && q == Ask(CAROL, 256, 0, true).(id := q.id, src := q.src)
    ensures WaitsForCarol(node, Send(node, q, false, LOST, true, 0, 1000))
  {
  }

  lemma InjectWaits(node: Node)
    requires Idle(node)
    ensures WaitsForCarol(node, Inject(node, FOREIGN.request, Plain, false, LOST, LOST, 0, 1000))
  {
    var n := Admit(node, Accept(Pair(DAVE, 1), false, true));
    SendBridged(n);
    var cells := n.ring.cells;
    assert forall i :: 0 <= i < |cells| ==> cells[i] == Pair(DAVE, 1) || cells[i] == node.ring.cells[i];
    hide Send;
  }

  lemma SendBridged(node: Node)
    requires node.id == ALICE && node.cfg == NodeNamed(ALICE).cfg && !node.uplinks
    requires |node.table.slots| == 1 && node.table.slots[0].Free?
    ensures var e := Send(node, Bridged(FOREIGN.request), true, LOST, true, 0, 1000);
      && e.rx == [] && e.decoded == {} && e.node.id == node.id && e.node.ring == node.ring
      && e.node.uplinks == node.uplinks && e.node.ignoresMqtt == node.ignoresMqtt
      && |e.node.table.slots| == 1 && R.Holds(e.node.table.slots[0], 1) && e.node.table.slots[0].dest == CAROL
  {
  }

  lemma RestartWaits(net: Net)
    requires GivenUp(net) && net.nodes[0].nextId == 1
    ensures Possible(net, AFTER_RESTART) && WaitsForCarol(net.nodes[0], Act(net, AFTER_RESTART))
  {
    SendWaits(net.nodes[0], AFTER_RESTART.request);
    hide Send;
  }

  lemma OwnIdWaits(net: Net)
    requires GivenUp(net)
    ensures Possible(net, WITH_OWN_ID) && WaitsForCarol(net.nodes[0], Act(net, WITH_OWN_ID))
  {
    SendWaits(net.nodes[0], WITH_OWN_ID.request);
    hide Send;
  }

  lemma OtherNameWaits(net: Net)
    requires GivenUp(net)
    ensures Possible(net, IN_OTHER_NAME) && WaitsForCarol(net.nodes[0], Act(net, IN_OTHER_NAME))
  {
    SendWaits(net.nodes[0], IN_OTHER_NAME.request);
    hide Send;
  }

  lemma ForeignWaits(net: Net)
    requires GivenUp(net)
    ensures Possible(net, FOREIGN) && WaitsForCarol(net.nodes[0], Act(net, FOREIGN))
  {
    InjectWaits(net.nodes[0]);
    hide Inject;
  }
}
