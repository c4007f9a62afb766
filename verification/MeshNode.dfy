/**
  One node as the C code has it: the state of src/meshtastic.c and src/meshtastic_router.c updated
  in place, with the duplicate cache and the acknowledgement table as objects.  Every method is
  proved equal to the step of module Mesh that the network runs are made of.
 */
module MeshNode {
  import opened DupCache
  import opened Mesh
  import MeshFlood
  import R = Reliable

  const DEFAULT_HOP_LIMIT := 3

  class Router {
    const id: nat
    const hopLimit: nat
    const rebroadcasts: bool
    const coreOnly: bool
    const ignoresMqtt: bool
    const uplinks: bool
    const cfg: R.Config
    const cache: Cache
    const table: R.Table<Copy>
    var nextId: nat
    ghost var idsUsed: nat
    ghost var accepted: seq<Accept>
    var events: seq<R.Event<Copy>>
    var uplinked: seq<Copy>

    ghost predicate Valid()
      reads this, cache, cache.cells
    {
      cache.View().Valid() && table.cfg == cfg && nextId < ID_SPACE
    }

    ghost function View(): Node
      requires Valid()
      reads this, cache, cache.cells, table, table.slots
    {
      Node(id, hopLimit, rebroadcasts, coreOnly, ignoresMqtt, uplinks, cfg, nextId, cache.View(), table.View(),
           idsUsed, accepted, events, uplinked)
    }

    /** `meshtastic_init`, with a cache of `n` pairs. */
    constructor (id: nat, hopLimit: nat, rebroadcasts: bool, coreOnly: bool, ignoresMqtt: bool, uplinks: bool,
                 cfg: R.Config, n: nat)
      requires n > 0 && id != 0 && id != BROADCAST && cfg.Valid()
      ensures fresh(cache) && fresh(cache.cells) && fresh(table) && fresh(table.slots)
      ensures Valid() && FreshNode(View()) && View().id == id
      ensures View().hopLimit == if hopLimit == 0 then DEFAULT_HOP_LIMIT else hopLimit
    {
      this.id, this.rebroadcasts, this.coreOnly := id, rebroadcasts, coreOnly;
      this.hopLimit := if hopLimit == 0 then DEFAULT_HOP_LIMIT else hopLimit;
      this.ignoresMqtt, this.uplinks, this.cfg := ignoresMqtt, uplinks, cfg;
      cache := new Cache(n);
      table := new R.Table(cfg);
      nextId, idsUsed, accepted, events, uplinked := 1, 0, [], [], [];
    }

    /** `meshtastic_allocate_packet_id` */
    method AllocateId() returns (newId: nat)
      requires Valid()
      modifies this`nextId, this`idsUsed
      ensures Valid() && View() == AfterAlloc(old(View())) && newId == FreshId(old(View()))
      ensures 0 < newId < ID_SPACE
    {
      newId := nextId;
      nextId := (nextId + 1) % ID_SPACE;
      if newId == 0 {
        newId := nextId;
        nextId := (nextId + 1) % ID_SPACE;
      }
      idsUsed := idsUsed + 1;
    }

    /** The gates in front of the publish queue. */
    method QueueUplink(c: Copy)
      requires Valid()
      modifies this`uplinked
      ensures Valid() && View() == Uplink(old(View()), c)
    {
      if c.frame.viaMqtt || !uplinks {
        return;
      }
      uplinked := uplinked + [c];
    }

    /** `send_packet_prepare`: defaults are filled into a local copy of the request. */
    method PrepareFrame(q: Request) returns (f: Frame)
      requires Valid()
      modifies this`nextId, this`idsUsed
      ensures Valid() && f == Prepare(old(View()), q)
      ensures View() == if q.id == 0 then AfterAlloc(old(View())) else old(View())
    {
      var local := q;
      if local.src == 0 {
        local := local.(src := id);
      }
      if local.id == 0 {
        var newId := AllocateId();
        local := local.(id := newId);
      }
      if local.hopLimit == 0 {
        local := local.(hopLimit := hopLimit);
      }
      if local.hopStart == 0 {
        local := local.(hopStart := local.hopLimit);
      }
      f := Frame(local.dest, local.src, local.id, local.hopLimit % 8, local.hopStart % 8,
                 local.wantAck, local.viaMqtt, local.data);
    }

    /** `meshtastic_send_packet` */
    method SendPacket(q: Request, bridged: bool, tx: Tx, forever: bool, now: int, rnd: nat) returns (rx: seq<Rx>, sent: nat)
      requires Valid()
      modifies this, table, table.slots
      ensures Valid()
      ensures var e := Send(old(View()), q, bridged, tx, forever, now, cfg.Delay(rnd));
        View() == e.node && rx == e.rx && sent == e.sent
    {
      hide R.Track, Prepare, AfterAlloc, Uplink, Spread;
      if q.dest == 0 || |q.data.payload| > MAX_PAYLOAD_LEN {
        return [], 0;
      }
      var f := PrepareFrame(q);
      if !tx.ok {
        return [], 1;
      }
      var c := Launch(f, bridged);
      if forever && f.src == id {
        QueueUplink(c);
      }
      var news := table.TrackPacket(id, f.Header(), c, HDR_LEN + |q.data.payload|, now, rnd);
      events := events + news;
      return Spread(tx, c), 1;
    }

    /** `meshtastic_routing_on_decoded`, with the acknowledgement it may send. */
    method OnDecodedPacket(f: Frame, tx: Tx, now: int, rnd: nat) returns (rx: seq<Rx>, sent: nat)
      requires Valid()
      modifies this, table, table.slots
      ensures Valid()
      ensures var e := OnDecoded(old(View()), f, tx, now); View() == e.node && rx == e.rx && sent == e.sent
    {
      hide R.Settle, Send;
      if (f.dest != id && f.dest != BROADCAST) || f.src == id {
        return [], 0;
      }
      var found, news := table.OnRouting(id, f.Header());
      events := events + news;
      if f.wantAck && f.dest == id {
        ghost var n := View();
        AckDelayIrrelevant(n, f, tx, now, cfg.Delay(rnd));
        var hops := ReplyHops(hopLimit, f);
        var asks := f.data.portnum == PORT_TEXT || f.data.portnum == PORT_TEXT_COMPRESSED;
        var ack := Request(0, if f.src == 0 then BROADCAST else f.src, 0, hops, hops, asks, false,
                           Data(PORT_ROUTING, f.id, false, []));
        assert ack == AckRequest(n, f);
        rx, sent := SendPacket(ack, false, tx, true, now, rnd);
      } else {
        rx, sent := [], 0;
      }
    }

    /** `meshtastic_routing_sniff_rebroadcast` and `relay_packet`, early exits and all. */
    method SniffRebroadcast(c: Copy, tx: Tx) returns (rx: seq<Rx>, sent: nat)
      requires Valid()
      ensures if Relays(View(), c.frame) then rx == Relay(View(), c, tx).rx && sent == 1 else rx == [] && sent == 0
    {
      rx, sent := [], 0;
      if !rebroadcasts {
        return;
      }
      if c.frame.src == id || c.frame.dest == id {
        return;
      }
      if c.frame.hopLimit == 0 {
        return;
      }
      if c.frame.dest == BROADCAST && c.frame.id == 0 {
        return;
      }
      rx, sent := Spread(tx, RelayOf(c)), 1;
    }

    /** `reack_duplicate` */
    method ReackDuplicate(c: Copy, decodes: bool, ack: Tx, now: int, rnd: nat) returns (rx: seq<Rx>, sent: nat)
      requires Valid()
      modifies this, table, table.slots
      ensures Valid()
      ensures var e := ReceiveDuplicate(old(View()), c, decodes, ack, now); View() == e.node && rx == e.rx && sent == e.sent
    {
      hide OnDecoded;
      rx, sent := [], 0;
      if !c.frame.wantAck || c.frame.dest != id {
        return;
      }
      if !decodes {
        return;
      }
      rx, sent := OnDecodedPacket(c.frame, ack, now, rnd);
    }

    /** The decoded half of `meshtastic_handle_inbound_packet`. */
    method HandleDecoded(c: Copy, ack: Tx, now: int, rnd: nat) returns (rx: seq<Rx>, sent: nat, delivered: seq<Frame>)
      requires Valid()
      modifies this, table, table.slots
      ensures Valid()
      ensures var e := Handle(old(View()), c, true, ack, now);
        View() == e.node && rx == e.rx && sent == e.sent && delivered == e.delivered
    {
      hide OnDecoded, Uplink;
      delivered := [];
      if (!coreOnly || CorePort(c.frame.data.portnum)) && (c.frame.dest == id || c.frame.dest == BROADCAST) {
        delivered := [c.frame];
      }
      MeshFlood.OnDecodedOwn(Uplink(View(), c), c.frame, ack, now);
      MeshFlood.OnDecodedOwn(View(), c.frame, ack, now);
      if c.frame.src != id {
        QueueUplink(c);
      }
      rx, sent := OnDecodedPacket(c.frame, ack, now, rnd);
    }

    /** `meshtastic_handle_inbound_packet` for a frame from the radio. */
    method HandleInbound(c: Copy, decodes: bool, ack: Tx, relay: Tx, now: int, rnd: nat)
      returns (rx: seq<Rx>, sent: nat, delivered: seq<Frame>)
      requires Valid()
      modifies this, table, table.slots
      ensures Valid()
      ensures var h := Handle(old(View()), c, decodes, ack, now);
        var e := if Relays(old(View()), c.frame) then Then(h, Relay(h.node, c, relay)) else h;
        View() == e.node && rx == e.rx && sent == e.sent && delivered == e.delivered
    {
      rx, sent, delivered := [], 0, [];
      if decodes {
        hide Handle, Spread;
        rx, sent, delivered := HandleDecoded(c, ack, now, rnd);
      }
      hide OnDecoded, Spread;
      var rx', sent' := SniffRebroadcast(c, relay);
      rx, sent := rx + rx', sent + sent';
    }

    /** `meshtastic_router_process_lora_rx`; a packet is delivered or relayed only past the duplicate filter. */
    method ProcessLoraRx(c: Copy, decodes: bool, ack: Tx, relay: Tx, now: int, rnd: nat)
      returns (rx: seq<Rx>, sent: nat, delivered: seq<Frame>)
      requires Valid()
      modifies this, cache, cache.cells, table, table.slots
      ensures Valid()
      ensures var e := Receive(old(View()), c, decodes, ack, relay, now);
        View() == e.node && rx == e.rx && sent == e.sent && delivered == e.delivered
    {
      hide Handle, ReceiveDuplicate, Relay;
      rx, sent, delivered := [], 0, [];
      if ignoresMqtt && c.frame.viaMqtt {
        return;
      }
      var dup := cache.Check(c.frame.src, c.frame.id);
      if dup {
        MeshFlood.DuplicateOwn(View(), c, decodes, ack, now);
        rx, sent := ReackDuplicate(c, decodes, ack, now, rnd);
        return;
      }
      ghost var node := View();
      cache.Remember(c.frame.src, c.frame.id);
      ghost var a := Accept(c.frame.Key(), decodes && Delivers(node, c.frame), Relays(node, c.frame));
      accepted := accepted + [a];
      assert View() == Admit(node, a);
      rx, sent, delivered := HandleInbound(c, decodes, ack, relay, now, rnd);
    }

    /** `meshtastic_inject_downlink_mesh_packet`: the same duplicate filter, then relay, then local delivery. */
    method InjectDownlink(q: Request, payload: Payload, decodes: bool, tx: Tx, ack: Tx, now: int, rnd: nat, rnd': nat)
      returns (rx: seq<Rx>, sent: nat, delivered: seq<Frame>)
      requires Valid()
      modifies this, cache, cache.cells, table, table.slots
      ensures Valid()
      ensures var e := Inject(old(View()), q, payload, decodes, tx, ack, now, cfg.Delay(rnd));
        View() == e.node && rx == e.rx && sent == e.sent && delivered == e.delivered
    {
      hide InjectAdmitted, DownlinkFrame, Delivers;
      rx, sent, delivered := [], 0, [];
      var dup := cache.Check(q.src, q.id);
      if dup {
        return;
      }
      ghost var node := View();
      cache.Remember(q.src, q.id);
      ghost var sealed := payload.Sealed?;
      ghost var opens := !payload.Missing? && DownlinkOpens(node, q, sealed, decodes, tx);
      accepted := accepted + [Accept(Pair(q.src, q.id), opens && Delivers(node, DownlinkFrame(q)),
                                     !payload.Missing? && DownlinkRelays(node, q, sealed))];
      rx, sent, delivered := HandleDownlink(q, payload, decodes, tx, ack, now, rnd, rnd');
    }

    /** An injection past the duplicate filter. */
    method HandleDownlink(q: Request, payload: Payload, decodes: bool, tx: Tx, ack: Tx, now: int, rnd: nat, rnd': nat)
      returns (rx: seq<Rx>, sent: nat, delivered: seq<Frame>)
      requires Valid()
      modifies this, table, table.slots
      ensures Valid()
      ensures payload.Missing? ==> View() == old(View()) && rx == [] && sent == 0 && delivered == []
      ensures !payload.Missing? ==>
        var opens := DownlinkOpens(old(View()), q, payload.Sealed?, decodes, tx);
        var e := InjectAdmitted(old(View()), q, payload.Sealed?, opens, tx, ack, now, cfg.Delay(rnd));
        View() == e.node && rx == e.rx && sent == e.sent && delivered == e.delivered
    {
      hide OnDecoded, DownlinkFirst, DownlinkFrame;
      delivered := [];
      MeshFlood.DownlinkFirstOwn(View(), q, payload.Sealed?, tx, now, cfg.Delay(rnd));
      var failed: bool;
      rx, sent, failed := RelayDownlink(q, payload, tx, now, rnd);
      if failed || (q.dest != id && q.dest != BROADCAST) || payload.Missing? || (payload.Sealed? && !decodes) {
        return;
      }
      DownlinkShape(q);
      if !coreOnly || CorePort(q.data.portnum) {
        delivered := [DownlinkFrame(q)];
      }
      MeshFlood.OnDecodedOwn(View(), DownlinkFrame(q), ack, now);
      var rx', sent' := OnDecodedPacket(DownlinkFrame(q), ack, now, rnd');
      rx, sent := rx + rx', sent + sent';
    }

    /** The relaying half of an injection. */
    method RelayDownlink(q: Request, payload: Payload, tx: Tx, now: int, rnd: nat)
      returns (rx: seq<Rx>, sent: nat, failed: bool)
      requires Valid()
      modifies this, table, table.slots
      ensures Valid()
      ensures payload.Missing? ==> View() == old(View()) && rx == [] && sent == 0 && (failed <==> q.dest != id && q.hopLimit > 0)
      ensures !payload.Missing? ==>
        var e := DownlinkFirst(old(View()), q, payload.Sealed?, tx, now, cfg.Delay(rnd));
        View() == e.node && rx == e.rx && sent == e.sent
      ensures !payload.Missing? ==>
        (failed <==> DownlinkRelays(old(View()), q, payload.Sealed?) && !(tx.ok && (payload.Sealed? || Sendable(Bridged(q)))))
    {
      hide Send, Prepare, AfterAlloc, Uplink, Spread;
      rx, sent, failed := [], 0, false;
      var encrypted := payload.Sealed?;
      if q.dest == id || (q.hopLimit == 0 && !encrypted) {
        return;
      }
      if payload.Missing? {
        failed := true;
        return;
      }
      var work := q.(viaMqtt := true, dest := if q.dest == 0 then BROADCAST else q.dest);
      failed := !(tx.ok && (encrypted || |q.data.payload| <= MAX_PAYLOAD_LEN));
      if !encrypted {
        rx, sent := SendPacket(work, true, tx, true, now, rnd);
        return;
      }
      var f := PrepareFrame(work);
      if q.hopLimit == 0 {
        f := f.(hopLimit := 0, hopStart := q.hopStart % 8);
      }
      var c := Launch(f, true);
      if tx.ok && f.src == id {
        QueueUplink(c);
      }
      rx, sent := Spread(tx, c), 1;
    }

    /** `reliable_work_fn` seen from the node: the due frames go out again. */
    method TimerWork(now: int, rnd: nat -> nat, txs: nat -> Tx) returns (rx: seq<Rx>, sent: nat)
      requires Valid()
      modifies this, table, table.slots
      ensures Valid()
      ensures var e := RunTimer(old(View()), now, i => cfg.Delay(rnd(i)), txs);
        View() == e.node && rx == e.rx && sent == e.sent
    {
      hide R.Sweep;
      var news := table.Work(now, rnd);
      events := events + news;
      rx, sent := ResentRx(news, txs), ResentCount(news);
    }
  }

  /** Acknowledgements are not tracked, so no retry delay is drawn for them. */
  lemma AckDelayIrrelevant(n: Node, f: Frame, tx: Tx, now: int, delay: nat)
    ensures Send(n, AckRequest(n, f), false, tx, true, now, delay) == Send(n, AckRequest(n, f), false, tx, true, now, 0)
  {
  }

  lemma DownlinkShape(q: Request)
    ensures DownlinkFrame(q).dest == q.dest && DownlinkFrame(q).data == q.data
  {
  }
}
