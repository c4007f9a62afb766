/**
  Transmit-side acknowledgement tracking (src/meshtastic_reliable.c).

  The table, its retry timer and the events it emits are first described by
  functions on values; class `Table` below is the in-place code, proved equal to
  those functions.  `F` is the type of a stored wire frame.
 */
module Reliable {
  import opened Options

  const BROADCAST := 0xFFFF_FFFF
  const PORT_ROUTING := 5
  const PKT_MAX := 255

  /** Build-time settings, with the ranges Kconfig allows. */
  datatype Config = Config(maxPending: nat, retransmissions: nat, retryInterval: nat, retryJitter: nat) {
    predicate Valid() {
      && 1 <= maxPending <= 16
      && retransmissions <= 8
      && 1000 <= retryInterval <= 120000
      && retryJitter <= 30000
    }

    /** One retry delay, for a random draw `rnd`. */
    function Delay(rnd: nat): (d: nat)
      ensures DelayOk(d)
    {
      if retryJitter > 0 then retryInterval + rnd % (retryJitter + 1) else retryInterval
    }

    predicate DelayOk(d: nat) {
      retryInterval <= d <= retryInterval + retryJitter
    }
  }

  /** One table slot. The C code marks a free slot with id 0; `Track` never stores id 0. */
  datatype Slot<F> = Free | Pending(id: nat, dest: nat, portnum: nat, due: int, attemptsLeft: nat, wire: F)

  /** What the table reads of a packet. */
  datatype Packet = Packet(dest: nat, id: nat, portnum: nat, wantAck: bool, requestId: nat, nak: bool)

  /** `deadline`: when the delayable work is due to be queued; `queued`: it waits for its thread. */
  datatype State<F> = State(slots: seq<Slot<F>>, deadline: Option<int>, queued: bool)

  /** Everything observable that the table does, tagged with the slot concerned. */
  datatype Event<F> =
    | Accepted(slot: nat, at: int, id: nat, dest: nat, portnum: nat, wire: F)
    | Resent(slot: nat, at: int, wire: F)
    | Acked(slot: nat, id: nat, dest: nat, portnum: nat)
    | Nacked(slot: nat, id: nat, dest: nat, portnum: nat)
    | TimedOut(slot: nat, at: int, id: nat, dest: nat, portnum: nat)
    | Dropped(slot: nat)

  function Initial<F>(cfg: Config): State<F> {
    State(Repeat(Free, cfg.maxPending), None, false)
  }

  // ---- the operations, on values ------------------------------------------------

  /** Index of the first free slot, or |slots|. */
  function FirstFree<F>(slots: seq<Slot<F>>): (k: nat)
    ensures k <= |slots|
    ensures k < |slots| ==> slots[k].Free?
    ensures forall j :: 0 <= j < k ==> slots[j].Pending?
  {
    if slots == [] || slots[0].Free? then 0 else 1 + FirstFree(slots[1..])
  }

  predicate Holds<F>(s: Slot<F>, id: nat) {
    s.Pending? && s.id == id
  }

  /** Index of the first slot waiting for `id`, or |slots|. */
  function FirstHolding<F>(slots: seq<Slot<F>>, id: nat): (k: nat)
    ensures k <= |slots|
    ensures k < |slots| ==> Holds(slots[k], id)
    ensures forall j :: 0 <= j < k ==> !Holds(slots[j], id)
  {
    if slots == [] || Holds(slots[0], id) then 0 else 1 + FirstHolding(slots[1..], id)
  }

  /** Smallest due time among the first `n` slots. */
  function EarliestDue<F>(slots: seq<Slot<F>>, n: nat): (r: Option<int>)
    requires n <= |slots|
    ensures forall i :: 0 <= i < n && slots[i].Pending? ==> r.Some? && r.value <= slots[i].due
    ensures r.Some? ==> exists i :: 0 <= i < n && slots[i].Pending? && slots[i].due == r.value
  {
    if n == 0 then None
    else
      var rest := EarliestDue(slots, n - 1);
      if slots[n - 1].Free? then rest
      else if rest.None? then Some(slots[n - 1].due)
      else Some(Min(rest.value, slots[n - 1].due))
  }

  function Reschedule<F>(st: State<F>, now: int): State<F> {
    var next := EarliestDue(st.slots, |st.slots|);
    if next.None? then st else st.(deadline := Some(Max(next.value, now)))
  }

  /** Only unicast application traffic that asks for an acknowledgement is tracked. */
  predicate Trackable(me: nat, p: Packet, wireLen: nat) {
    && 0 < wireLen <= PKT_MAX
    && p.wantAck && p.id != 0 && p.dest != BROADCAST && p.dest != me && p.portnum != PORT_ROUTING
  }

  function Track<F>(cfg: Config, st: State<F>, me: nat, p: Packet, wire: F, wireLen: nat, now: int, delay: nat)
    : (State<F>, seq<Event<F>>)
  {
    var k := FirstFree(st.slots);
    if !Trackable(me, p, wireLen) || k == |st.slots| then (st, [])
    else
      var entry := Pending(p.id, p.dest, p.portnum, now + delay, cfg.retransmissions, wire);
      (Reschedule(st.(slots := st.slots[k := entry]), now),
       [Accepted(k, now, p.id, p.dest, p.portnum, wire)])
  }

  /** An inbound ROUTING packet: it settles the first slot waiting for its request id. */
  function Settle<F>(st: State<F>, me: nat, p: Packet): (State<F>, seq<Event<F>>) {
    var k := FirstHolding(st.slots, p.requestId);
    if p.portnum != PORT_ROUTING || p.dest != me || p.requestId == 0 || k == |st.slots| then (st, [])
    else
      var s := st.slots[k];
      (st.(slots := st.slots[k := Free]),
       [if p.nak then Nacked(k, s.id, s.dest, s.portnum) else Acked(k, s.id, s.dest, s.portnum)])
  }

  /** The kernel moves the expired delayable work to its queue. */
  function Fire<F>(st: State<F>): State<F> {
    st.(deadline := None, queued := true)
  }

  predicate Due<F>(s: Slot<F>, now: int) {
    s.Pending? && s.due <= now
  }

  function SweepSlot<F>(s: Slot<F>, now: int, delay: nat): Slot<F> {
    if !Due(s, now) then s
    else if s.attemptsLeft == 0 then Free
    else s.(attemptsLeft := s.attemptsLeft - 1, due := now + delay)
  }

  function SweepSlots<F>(slots: seq<Slot<F>>, now: int, delays: nat -> nat): (r: seq<Slot<F>>)
    ensures |r| == |slots|
    ensures forall i :: 0 <= i < |slots| ==> r[i] == SweepSlot(slots[i], now, delays(i))
  {
    seq(|slots|, i requires 0 <= i < |slots| => SweepSlot(slots[i], now, delays(i)))
  }

  /** What slot `i` contributes to the three event lists. */
  function ResendOf<F>(s: Slot<F>, now: int, i: nat): seq<Event<F>> {
    if Due(s, now) && s.attemptsLeft > 0 then [Resent(i, now, s.wire)] else []
  }

  function ExpiryOf<F>(s: Slot<F>, now: int, i: nat): seq<Event<F>> {
    if Due(s, now) && s.attemptsLeft == 0 then [TimedOut(i, now, s.id, s.dest, s.portnum)] else []
  }

  function DropOf<F>(s: Slot<F>, i: nat): seq<Event<F>> {
    if s.Pending? then [Dropped(i)] else []
  }

  /** The first `n` parts, joined. */
  function Gather<F>(parts: seq<seq<Event<F>>>, n: nat): seq<Event<F>>
    requires n <= |parts|
  {
    if n == 0 then [] else Gather(parts, n - 1) + parts[n - 1]
  }

  function ResendParts<F>(slots: seq<Slot<F>>, now: int): seq<seq<Event<F>>> {
    seq(|slots|, i requires 0 <= i < |slots| => ResendOf(slots[i], now, i))
  }

  function ExpiryParts<F>(slots: seq<Slot<F>>, now: int): seq<seq<Event<F>>> {
    seq(|slots|, i requires 0 <= i < |slots| => ExpiryOf(slots[i], now, i))
  }

  function DropParts<F>(slots: seq<Slot<F>>): seq<seq<Event<F>>> {
    seq(|slots|, i requires 0 <= i < |slots| => DropOf(slots[i], i))
  }

  /** The work handler. Outcomes are reported after the whole table was swept. */
  function Sweep<F>(st: State<F>, now: int, delays: nat -> nat): (State<F>, seq<Event<F>>) {
    (Reschedule(State(SweepSlots(st.slots, now, delays), st.deadline, false), now),
     Gather(ResendParts(st.slots, now), |st.slots|) + Gather(ExpiryParts(st.slots, now), |st.slots|))
  }

  function Reset<F>(st: State<F>): (State<F>, seq<Event<F>>) {
    (State(Repeat(Free, |st.slots|), None, false), Gather(DropParts(st.slots), |st.slots|))
  }

  // ---- the operations, in place --------------------------------------------------

  class Table<F> {
    const cfg: Config
    const slots: array<Slot<F>>
    var deadline: Option<int>
    var queued: bool

    ghost function View(): State<F>
      reads this, slots
    {
      State(slots[..], deadline, queued)
    }

    constructor (cfg: Config)
      ensures fresh(slots) && this.cfg == cfg && slots.Length == cfg.maxPending
      ensures View() == Initial(cfg)
    {
      this.cfg := cfg;
      slots := new Slot<F>[cfg.maxPending](_ => Free);
      deadline := None;
      queued := false;
    }

    /** Re-arms the timer for the earliest pending entry. */
    method Rearm(now: int)
      modifies this
      ensures View() == Reschedule(old(View()), now)
    {
      var next: Option<int> := None;
      for i := 0 to slots.Length
        invariant next == EarliestDue(slots[..], i)
        invariant View() == old(View())
      {
        if slots[i].Pending? {
          next := if next.None? then Some(slots[i].due) else Some(Min(next.value, slots[i].due));
        }
      }
      if next.Some? {
        deadline := Some(Max(next.value, now));
      }
    }

    method TrackPacket(me: nat, p: Packet, wire: F, wireLen: nat, now: int, rnd: nat)
      returns (events: seq<Event<F>>)
      modifies this, slots
      ensures (View(), events) == Track(cfg, old(View()), me, p, wire, wireLen, now, cfg.Delay(rnd))
    {
      events := [];
      if wireLen == 0 || wireLen > PKT_MAX {
        return;
      }
      if !p.wantAck || p.id == 0 || p.dest == BROADCAST || p.dest == me || p.portnum == PORT_ROUTING {
        return;
      }
      var k := 0;
      while k < slots.Length && slots[k].Pending?
        invariant k <= slots.Length
        invariant forall j :: 0 <= j < k ==> slots[j].Pending?
        invariant View() == old(View())
      {
        k := k + 1;
      }
      assert k == FirstFree(slots[..]);
      if k == slots.Length {
        return;
      }
      slots[k] := Pending(p.id, p.dest, p.portnum, now + cfg.Delay(rnd), cfg.retransmissions, wire);
      Rearm(now);
      events := [Accepted(k, now, p.id, p.dest, p.portnum, wire)];
    }

    method OnRouting(me: nat, p: Packet) returns (found: bool, events: seq<Event<F>>)
      modifies slots
      ensures (View(), events) == Settle(old(View()), me, p)
      ensures found <==> events != []
    {
      found, events := false, [];
      if p.portnum != PORT_ROUTING || p.dest != me || p.requestId == 0 {
        return;
      }
      var k := 0;
      while k < slots.Length && !Holds(slots[k], p.requestId)
        invariant k <= slots.Length
        invariant forall j :: 0 <= j < k ==> !Holds(slots[j], p.requestId)
        invariant View() == old(View())
      {
        k := k + 1;
      }
      assert k == FirstHolding(slots[..], p.requestId);
      if k == slots.Length {
        return;
      }
      var s := slots[k];
      slots[k] := Free;
      found := true;
      events := [if p.nak then Nacked(k, s.id, s.dest, s.portnum) else Acked(k, s.id, s.dest, s.portnum)];
    }

    /** One round of the work handler's loop. */
    method WorkSlot(i: nat, now: int, rnd: nat) returns (resent: seq<Event<F>>, expired: seq<Event<F>>)
      requires i < slots.Length
      modifies slots
      ensures slots[..] == old(slots[..])[i := SweepSlot(old(slots[i]), now, cfg.Delay(rnd))]
      ensures resent == ResendOf(old(slots[i]), now, i) && expired == ExpiryOf(old(slots[i]), now, i)
    {
      hide Config.Delay;
      resent, expired := [], [];
      var s := slots[i];
      if s.Pending? && s.due <= now {
        if s.attemptsLeft == 0 {
          expired := [TimedOut(i, now, s.id, s.dest, s.portnum)];
          slots[i] := Free;
        } else {
          slots[i] := s.(attemptsLeft := s.attemptsLeft - 1, due := now + cfg.Delay(rnd));
          resent := [Resent(i, now, s.wire)];
        }
      }
    }

    method Work(now: int, rnd: nat -> nat) returns (events: seq<Event<F>>)
      modifies this, slots
      ensures (View(), events) == Sweep(old(View()), now, i => cfg.Delay(rnd(i)))
    {
      hide Config.Delay, EarliestDue, SweepSlot, ResendOf, ExpiryOf;
      queued := false;
      var resent, expired: seq<Event<F>> := [], [];
      ghost var was := slots[..];
      for i := 0 to slots.Length
        invariant deadline == old(deadline) && !queued
        invariant forall j :: 0 <= j < i ==> slots[j] == SweepSlot(was[j], now, cfg.Delay(rnd(j)))
        invariant forall j :: i <= j < slots.Length ==> slots[j] == was[j]
        invariant resent == Gather(ResendParts(was, now), i)
        invariant expired == Gather(ExpiryParts(was, now), i)
      {
        var r, e := WorkSlot(i, now, rnd(i));
        assert forall j :: 0 <= j < slots.Length ==> slots[j] == slots[..][j];
        resent, expired := resent + r, expired + e;
      }
      assert slots[..] == SweepSlots(was, now, i => cfg.Delay(rnd(i)));
      Rearm(now);
      events := resent + expired;
    }

    method Clear() returns (events: seq<Event<F>>)
      modifies this, slots
      ensures (View(), events) == Reset(old(View()))
    {
      ghost var was := slots[..];
      events := [];
      for i := 0 to slots.Length
        invariant forall j :: 0 <= j < i ==> slots[j].Free?
        invariant forall j :: i <= j < slots.Length ==> slots[j] == was[j]
        invariant events == Gather(DropParts(was), i)
      {
        if slots[i].Pending? {
          events := events + [Dropped(i)];
        }
        slots[i] := Free;
      }
      deadline, queued := None, false;
      assert slots[..] == Repeat(Free, |was|);
    }

    /** Number of packets awaiting an acknowledgement. */
    method CountPending() returns (n: nat)
      ensures n == InFlight(slots[..], slots.Length)
    {
      n := 0;
      for i := 0 to slots.Length
        invariant n == InFlight(slots[..], i)
      {
        if slots[i].Pending? {
          n := n + 1;
        }
      }
    }
  }

  /** Occupied slots among the first `n`. */
  function InFlight<F>(slots: seq<Slot<F>>, n: nat): nat
    requires n <= |slots|
  {
    if n == 0 then 0 else InFlight(slots, n - 1) + (if slots[n - 1].Pending? then 1 else 0)
  }
}
