/**
  What the acknowledgement table guarantees over whole runs: any interleaving of
  sends, routing replies, timer expiries, handler runs and resets.
 */
module ReliableRuns {
  import opened Options
  import opened Reliable

  // ---- runs ----------------------------------------------------------------------

  datatype Step<F> =
    | TrackStep(me: nat, packet: Packet, wire: F, wireLen: nat, delay: nat)
    | RoutingStep(me: nat, packet: Packet)
    | FireStep
    | WorkStep(delays: nat -> nat)
    | ResetStep

  datatype Timed<F> = Timed(now: int, step: Step<F>)

  datatype Outcome<F> = Outcome(state: State<F>, trace: seq<Event<F>>, clock: int)

  /** The kernel queues the work only at its deadline, and runs it only when queued. */
  ghost predicate Enabled<F>(cfg: Config, o: Outcome<F>, t: Timed<F>) {
    && o.clock <= t.now
    && match t.step
       case FireStep => o.state.deadline.Some? && o.state.deadline.value <= t.now
       case WorkStep(delays) => o.state.queued && forall i :: cfg.DelayOk(delays(i))
       case TrackStep(_, _, _, _, delay) => cfg.DelayOk(delay)
       case _ => true
  }

  function Perform<F>(cfg: Config, st: State<F>, t: Timed<F>): (State<F>, seq<Event<F>>) {
    match t.step
    case TrackStep(me, p, wire, wireLen, delay) => Track(cfg, st, me, p, wire, wireLen, t.now, delay)
    case RoutingStep(me, p) => Settle(st, me, p)
    case FireStep => (Fire(st), [])
    case WorkStep(delays) => Sweep(st, t.now, delays)
    case ResetStep => Reset(st)
  }

  function Advance<F>(cfg: Config, o: Outcome<F>, t: Timed<F>): Outcome<F> {
    var (st, events) := Perform(cfg, o.state, t);
    Outcome(st, o.trace + events, t.now)
  }

  function After<F>(cfg: Config, start: int, run: seq<Timed<F>>): Outcome<F> {
    if run == [] then Outcome(Initial(cfg), [], start)
    else Advance(cfg, After(cfg, start, run[..|run| - 1]), run[|run| - 1])
  }

  ghost predicate IsRun<F>(cfg: Config, start: int, run: seq<Timed<F>>) {
    run != [] ==>
      && IsRun(cfg, start, run[..|run| - 1])
      && Enabled(cfg, After(cfg, start, run[..|run| - 1]), run[|run| - 1])
  }

  // ---- reading a trace back --------------------------------------------------------

  /** The open attempt on a slot, as told by the events alone. */
  datatype Attempt<F> = Attempt(at: int, id: nat, dest: nat, portnum: nat, wire: F, resent: seq<F>)

  function Update<F>(a: Option<Attempt<F>>, e: Event<F>, slot: nat): Option<Attempt<F>> {
    if e.slot != slot then a
    else match e
      case Accepted(_, at, id, dest, portnum, wire) => Some(Attempt(at, id, dest, portnum, wire, []))
      case Resent(_, _, wire) => if a.None? then None else Some(a.value.(resent := a.value.resent + [wire]))
      case _ => None
  }

  function Replay<F>(trace: seq<Event<F>>, slot: nat): Option<Attempt<F>> {
    if trace == [] then None
    else Update(Replay(trace[..|trace| - 1], slot), trace[|trace| - 1], slot)
  }

  /** The time `n` retry intervals take. */
  function Waits(cfg: Config, n: nat): nat {
    if n == 0 then 0 else Waits(cfg, n - 1) + cfg.retryInterval
  }

  lemma {:induction false} WaitsMultiply(cfg: Config, n: nat)
    ensures Waits(cfg, n) == n * cfg.retryInterval
  {
    if n > 0 {
      WaitsMultiply(cfg, n - 1);
    }
  }

  /** What the documentation promises about a timed-out packet. */
  ghost predicate ExhaustedRetries<F>(cfg: Config, before: seq<Event<F>>, e: Event<F>)
    requires e.TimedOut?
  {
    var a := Replay(before, e.slot);
    && a.Some?
    && a.value.id == e.id && a.value.dest == e.dest && a.value.portnum == e.portnum
    && a.value.resent == Repeat(a.value.wire, cfg.retransmissions)
    && e.at >= a.value.at + Waits(cfg, cfg.retransmissions + 1)
  }

  /** The open attempt on the slot, and nothing but it, explains the event. */
  ghost predicate Justified<F>(cfg: Config, before: seq<Event<F>>, e: Event<F>) {
    var a := Replay(before, e.slot);
    match e
    case Accepted(_, _, _, _, _, _) => a.None?
    case Resent(_, at, wire) =>
      a.Some? && wire == a.value.wire && |a.value.resent| < cfg.retransmissions
      && at >= a.value.at + Waits(cfg, |a.value.resent| + 1)
    case Acked(_, id, dest, portnum) => a.Some? && a.value.id == id && a.value.dest == dest && a.value.portnum == portnum
    case Nacked(_, id, dest, portnum) => a.Some? && a.value.id == id && a.value.dest == dest && a.value.portnum == portnum
    case TimedOut(_, _, _, _, _) => ExhaustedRetries(cfg, before, e)
    case Dropped(_) => a.Some?
  }

  ghost predicate TraceJustified<F>(cfg: Config, trace: seq<Event<F>>) {
    forall k :: 0 <= k < |trace| ==> Justified(cfg, trace[..k], trace[k])
  }

  datatype Kind = ACCEPTED | RESENT | ACKED | NACKED | TIMED_OUT | DROPPED

  function KindOf<F>(e: Event<F>): Kind {
    match e
    case Accepted(_, _, _, _, _, _) => ACCEPTED
    case Resent(_, _, _) => RESENT
    case Acked(_, _, _, _) => ACKED
    case Nacked(_, _, _, _) => NACKED
    case TimedOut(_, _, _, _, _) => TIMED_OUT
    case Dropped(_) => DROPPED
  }

  /** How often a kind of event occurred. */
  function Count<F>(trace: seq<Event<F>>, kind: Kind): nat {
    if trace == [] then 0
    else Count(trace[..|trace| - 1], kind) + (if KindOf(trace[|trace| - 1]) == kind then 1 else 0)
  }

  /** Acceptances minus settlements. */
  function Balance<F>(trace: seq<Event<F>>): int {
    if trace == [] then 0 else Balance(trace[..|trace| - 1]) + Weight(trace[|trace| - 1])
  }

  function Weight<F>(e: Event<F>): int {
    if e.Accepted? then 1 else if e.Resent? then 0 else -1
  }

  lemma {:induction false} BalanceCounts<F>(trace: seq<Event<F>>)
    ensures Balance(trace) == Count(trace, ACCEPTED) - Count(trace, ACKED) - Count(trace, NACKED)
      - Count(trace, TIMED_OUT) - Count(trace, DROPPED)
  {
    if trace != [] {
      BalanceCounts(trace[..|trace| - 1]);
    }
  }

  // ---- the invariant ---------------------------------------------------------------

  /** A slot agrees with what the trace says about it. */
  ghost predicate SlotAgrees<F>(cfg: Config, s: Slot<F>, a: Option<Attempt<F>>) {
    match s
    case Free => a.None?
    case Pending(id, dest, portnum, due, attemptsLeft, wire) =>
      && a.Some?
      && a.value.id == id && a.value.dest == dest && a.value.portnum == portnum && a.value.wire == wire
      && |a.value.resent| + attemptsLeft == cfg.retransmissions
      && a.value.resent == Repeat(wire, |a.value.resent|)
      && due >= a.value.at + Waits(cfg, |a.value.resent| + 1)
  }

  ghost predicate SlotsAgree<F>(cfg: Config, slots: seq<Slot<F>>, trace: seq<Event<F>>) {
    && |slots| == cfg.maxPending
    && forall i :: 0 <= i < |slots| ==> SlotAgrees(cfg, slots[i], Replay(trace, i))
  }

  /** No pending entry is forgotten: the handler is queued, or the timer fires in time. */
  ghost predicate RetriesArmed<F>(st: State<F>, clock: int) {
    forall i :: 0 <= i < |st.slots| && st.slots[i].Pending? ==>
      st.queued || (st.deadline.Some? && st.deadline.value <= Max(st.slots[i].due, clock))
  }

  ghost predicate Inv<F>(cfg: Config, o: Outcome<F>) {
    && SlotsAgree(cfg, o.state.slots, o.trace)
    && TraceJustified(cfg, o.trace)
    && Balance(o.trace) == InFlight(o.state.slots, |o.state.slots|)
    && RetriesArmed(o.state, o.clock)
  }

  // ---- small facts -----------------------------------------------------------------

  lemma {:induction false} ReplaySnoc<F>(trace: seq<Event<F>>, e: Event<F>, slot: nat)
    ensures Replay(trace + [e], slot) == Update(Replay(trace, slot), e, slot)
  {
    assert (trace + [e])[..|trace|] == trace;
  }

  lemma {:induction false} BalanceSnoc<F>(trace: seq<Event<F>>, e: Event<F>)
    ensures Balance(trace + [e]) == Balance(trace) + Weight(e)
  {
    assert (trace + [e])[..|trace|] == trace;
  }

  lemma {:induction false} JustifiedSnoc<F>(cfg: Config, trace: seq<Event<F>>, e: Event<F>)
    requires TraceJustified(cfg, trace)
    requires Justified(cfg, trace, e)
    ensures TraceJustified(cfg, trace + [e])
  {
    hide Justified;
    forall k | 0 <= k < |trace + [e]|
      ensures Justified(cfg, (trace + [e])[..k], (trace + [e])[k])
    {
      assert (trace + [e])[..k] == trace[..k];
      if k == |trace| {
        assert trace[..k] == trace;
      }
    }
  }

  lemma {:induction false} InFlightUpdate<F>(slots: seq<Slot<F>>, k: nat, s: Slot<F>, n: nat)
    requires k < |slots| && n <= |slots|
    ensures InFlight(slots[k := s], n) == InFlight(slots, n)
      + (if k < n then (if s.Pending? then 1 else 0) - (if slots[k].Pending? then 1 else 0) else 0)
  {
    if n > 0 {
      InFlightUpdate(slots, k, s, n - 1);
    }
  }

  lemma {:induction false} InFlightNone<F>(slots: seq<Slot<F>>, n: nat)
    requires n <= |slots| && forall i :: 0 <= i < n ==> slots[i].Free?
    ensures InFlight(slots, n) == 0
  {
    if n > 0 {
      InFlightNone(slots, n - 1);
    }
  }

  lemma {:induction false} RescheduleArms<F>(st: State<F>, now: int)
    ensures Reschedule(st, now).slots == st.slots
    ensures RetriesArmed(Reschedule(st, now), now)
  {
  }

  // ---- the events of one sweep or reset ----------------------------------------------

  ghost predicate PerSlot<F>(parts: seq<seq<Event<F>>>) {
    forall k :: 0 <= k < |parts| ==> |parts[k]| <= 1 && (|parts[k]| == 1 ==> parts[k][0].slot == k)
  }

  lemma {:induction false} GatherReplay<F>(parts: seq<seq<Event<F>>>, trace: seq<Event<F>>, n: nat, i: nat)
    requires n <= |parts| && PerSlot(parts)
    ensures Replay(trace + Gather(parts, n), i) ==
      if i < n && |parts[i]| == 1 then Update(Replay(trace, i), parts[i][0], i) else Replay(trace, i)
  {
    hide Replay;
    if n == 0 {
      assert trace + Gather(parts, 0) == trace;
    } else {
      GatherReplay(parts, trace, n - 1, i);
      var prev := trace + Gather(parts, n - 1);
      if |parts[n - 1]| == 1 {
        assert trace + Gather(parts, n) == prev + [parts[n - 1][0]];
        ReplaySnoc(prev, parts[n - 1][0], i);
      } else {
        assert trace + Gather(parts, n) == prev;
      }
    }
  }

  function TotalWeight<F>(parts: seq<seq<Event<F>>>, n: nat): int
    requires n <= |parts|
  {
    if n == 0 then 0
    else TotalWeight(parts, n - 1) + (if |parts[n - 1]| == 1 then Weight(parts[n - 1][0]) else 0)
  }

  lemma {:induction false} GatherBalance<F>(parts: seq<seq<Event<F>>>, trace: seq<Event<F>>, n: nat)
    requires n <= |parts| && PerSlot(parts)
    ensures Balance(trace + Gather(parts, n)) == Balance(trace) + TotalWeight(parts, n)
  {
    hide Balance, Weight;
    if n == 0 {
      assert trace + Gather(parts, 0) == trace;
    } else {
      GatherBalance(parts, trace, n - 1);
      var prev := trace + Gather(parts, n - 1);
      if |parts[n - 1]| == 1 {
        assert trace + Gather(parts, n) == prev + [parts[n - 1][0]];
        BalanceSnoc(prev, parts[n - 1][0]);
      } else {
        assert trace + Gather(parts, n) == prev;
      }
    }
  }

  lemma SameJustified<F>(cfg: Config, a: seq<Event<F>>, b: seq<Event<F>>, e: Event<F>)
    requires Replay(a, e.slot) == Replay(b, e.slot) && Justified(cfg, a, e)
    ensures Justified(cfg, b, e)
  {
    hide Replay;
  }

  lemma {:induction false} GatherJustified<F>(cfg: Config, parts: seq<seq<Event<F>>>, trace: seq<Event<F>>, n: nat)
    requires n <= |parts| && PerSlot(parts)
    requires TraceJustified(cfg, trace)
    requires forall k :: 0 <= k < |parts| && |parts[k]| == 1 ==> Justified(cfg, trace, parts[k][0])
    ensures TraceJustified(cfg, trace + Gather(parts, n))
  {
    hide Replay, TraceJustified, Justified;
    if n == 0 {
      assert trace + Gather(parts, 0) == trace;
    } else {
      GatherJustified(cfg, parts, trace, n - 1);
      var prev := trace + Gather(parts, n - 1);
      if |parts[n - 1]| == 1 {
        assert trace + Gather(parts, n) == prev + [parts[n - 1][0]];
        GatherReplay(parts, trace, n - 1, n - 1);
        SameJustified(cfg, trace, prev, parts[n - 1][0]);
        JustifiedSnoc(cfg, prev, parts[n - 1][0]);
      } else {
        assert trace + Gather(parts, n) == prev;
      }
    }
  }

  // ---- every step keeps the invariant --------------------------------------------------

  /** Appending one event of slot `k` and updating that slot keeps table and trace in step. */
  lemma OneSlotKeeps<F>(cfg: Config, slots: seq<Slot<F>>, trace: seq<Event<F>>, k: nat, s: Slot<F>, e: Event<F>)
    requires k < |slots| && e.slot == k && Justified(cfg, trace, e)
    requires SlotsAgree(cfg, slots, trace) && TraceJustified(cfg, trace)
    requires SlotAgrees(cfg, s, Update(Replay(trace, k), e, k))
    requires Weight(e) == (if s.Pending? then 1 else 0) - (if slots[k].Pending? then 1 else 0)
    ensures SlotsAgree(cfg, slots[k := s], trace + [e])
    ensures TraceJustified(cfg, trace + [e])
    ensures Balance(trace + [e]) - InFlight(slots[k := s], |slots|) == Balance(trace) - InFlight(slots, |slots|)
  {
    forall i | 0 <= i < |slots|
      ensures SlotAgrees(cfg, slots[k := s][i], Replay(trace + [e], i))
    {
      ReplaySnoc(trace, e, i);
    }
    JustifiedSnoc(cfg, trace, e);
    BalanceSnoc(trace, e);
    InFlightUpdate(slots, k, s, |slots|);
  }

  lemma TrackKeeps<F>(cfg: Config, o: Outcome<F>, t: Timed<F>)
    requires Inv(cfg, o) && Enabled(cfg, o, t) && t.step.TrackStep?
    ensures Inv(cfg, Advance(cfg, o, t))
  {
    hide Replay, Balance, InFlight, TraceJustified, EarliestDue;
    var TrackStep(me, p, wire, wireLen, delay) := t.step;
    var st := o.state;
    var k := FirstFree(st.slots);
    if !Trackable(me, p, wireLen) || k == |st.slots| {
      assert o.trace + [] == o.trace;
    } else {
      var entry := Pending(p.id, p.dest, p.portnum, t.now + delay, cfg.retransmissions, wire);
      OneSlotKeeps(cfg, st.slots, o.trace, k, entry, Accepted(k, t.now, p.id, p.dest, p.portnum, wire));
      RescheduleArms(st.(slots := st.slots[k := entry]), t.now);
    }
  }

  lemma RoutingKeeps<F>(cfg: Config, o: Outcome<F>, t: Timed<F>)
    requires Inv(cfg, o) && Enabled(cfg, o, t) && t.step.RoutingStep?
    ensures Inv(cfg, Advance(cfg, o, t))
  {
    hide Replay, Balance, InFlight, TraceJustified;
    var events := Settle(o.state, t.step.me, t.step.packet).1;
    if events == [] {
      assert o.trace + [] == o.trace;
    } else {
      OneSlotKeeps(cfg, o.state.slots, o.trace, events[0].slot, Free, events[0]);
    }
  }

  lemma WorkKeeps<F>(cfg: Config, o: Outcome<F>, t: Timed<F>)
    requires cfg.Valid() && Inv(cfg, o) && Enabled(cfg, o, t) && t.step.WorkStep?
    ensures Inv(cfg, Advance(cfg, o, t))
  {
    hide Gather, Replay, Balance, InFlight, TraceJustified, SlotAgrees, RetriesArmed, EarliestDue;
    var slots, now, delays := o.state.slots, t.now, t.step.delays;
    var done := o.trace + Gather(ResendParts(slots, now), |slots|) + Gather(ExpiryParts(slots, now), |slots|);
    SweepAgrees(cfg, slots, o.trace, now, delays);
    SweepBalance(slots, o.trace, now, delays);
    assert Advance(cfg, o, t).trace == done;
    RescheduleArms(State(SweepSlots(slots, now, delays), o.state.deadline, false), now);
  }

  lemma SweepAgrees<F>(cfg: Config, slots: seq<Slot<F>>, trace: seq<Event<F>>, now: int, delays: nat -> nat)
    requires forall i :: cfg.DelayOk(delays(i))
    requires SlotsAgree(cfg, slots, trace) && TraceJustified(cfg, trace)
    ensures var done := trace + Gather(ResendParts(slots, now), |slots|) + Gather(ExpiryParts(slots, now), |slots|);
      SlotsAgree(cfg, SweepSlots(slots, now, delays), done) && TraceJustified(cfg, done)
  {
    hide Gather, Replay, SlotAgrees, ExhaustedRetries, TraceJustified, SweepSlot, ResendOf, ExpiryOf;
    var n, resends, expiries := |slots|, ResendParts(slots, now), ExpiryParts(slots, now);
    forall i | 0 <= i < n
      ensures SlotAgrees(cfg, SweepSlots(slots, now, delays)[i], Replay(trace + Gather(resends, n) + Gather(expiries, n), i))
    {
      SweepAgreesAt(cfg, slots, trace, now, delays(i), i);
    }
    SweepJustified(cfg, slots, trace, now);
  }

  lemma SweepJustified<F>(cfg: Config, slots: seq<Slot<F>>, trace: seq<Event<F>>, now: int)
    requires SlotsAgree(cfg, slots, trace) && TraceJustified(cfg, trace)
    ensures TraceJustified(cfg, trace + Gather(ResendParts(slots, now), |slots|) + Gather(ExpiryParts(slots, now), |slots|))
  {
    hide Gather, Replay, SlotAgrees, ExhaustedRetries, TraceJustified, Justified;
    var n, resends, expiries := |slots|, ResendParts(slots, now), ExpiryParts(slots, now);
    forall i | 0 <= i < n
      ensures |resends[i]| == 1 ==> Justified(cfg, trace, resends[i][0])
      ensures |expiries[i]| == 1 ==> Justified(cfg, trace + Gather(resends, n), expiries[i][0])
    {
      assert SlotAgrees(cfg, slots[i], Replay(trace, i));
      ResendJustified(cfg, slots[i], trace, now, i);
      SweepAgreesAt(cfg, slots, trace, now, cfg.retryInterval, i);
      if |expiries[i]| == 1 {
        TimeoutJustified(cfg, trace + Gather(resends, n), expiries[i][0]);
      }
    }
    GatherJustified(cfg, resends, trace, n);
    GatherJustified(cfg, expiries, trace + Gather(resends, n), n);
  }

  lemma TimeoutJustified<F>(cfg: Config, before: seq<Event<F>>, e: Event<F>)
    requires e.TimedOut? && ExhaustedRetries(cfg, before, e)
    ensures Justified(cfg, before, e)
  {
  }

  lemma ResendJustified<F>(cfg: Config, s: Slot<F>, trace: seq<Event<F>>, now: int, i: nat)
    requires SlotAgrees(cfg, s, Replay(trace, i))
    ensures |ResendOf(s, now, i)| == 1 ==> Justified(cfg, trace, ResendOf(s, now, i)[0])
    ensures |DropOf(s, i)| == 1 ==> Justified(cfg, trace, DropOf(s, i)[0])
  {
    hide Replay;
  }

  lemma SweepAgreesAt<F>(cfg: Config, slots: seq<Slot<F>>, trace: seq<Event<F>>, now: int, delay: nat, i: nat)
    requires cfg.DelayOk(delay) && i < |slots| && SlotAgrees(cfg, slots[i], Replay(trace, i))
    ensures var mid := trace + Gather(ResendParts(slots, now), |slots|);
      && SlotAgrees(cfg, SweepSlot(slots[i], now, delay), Replay(mid + Gather(ExpiryParts(slots, now), |slots|), i))
      && (Due(slots[i], now) && slots[i].attemptsLeft == 0 ==>
            ExhaustedRetries(cfg, mid, TimedOut(i, now, slots[i].id, slots[i].dest, slots[i].portnum)))
  {
    GatherReplay(ResendParts(slots, now), trace, |slots|, i);
    GatherReplay(ExpiryParts(slots, now), trace + Gather(ResendParts(slots, now), |slots|), |slots|, i);
    SweptAgrees(cfg, slots[i], now, delay, Replay(trace, i), i);
  }

  lemma SweepBalance<F>(slots: seq<Slot<F>>, trace: seq<Event<F>>, now: int, delays: nat -> nat)
    ensures var n := |slots|;
      Balance(trace + Gather(ResendParts(slots, now), n) + Gather(ExpiryParts(slots, now), n))
        - InFlight(SweepSlots(slots, now, delays), n) == Balance(trace) - InFlight(slots, n)
  {
    var n, resends, expiries := |slots|, ResendParts(slots, now), ExpiryParts(slots, now);
    GatherBalance(resends, trace, n);
    GatherBalance(expiries, trace + Gather(resends, n), n);
    SweepWeight(slots, now, delays, n);
  }

  lemma SweepWeight<F>(slots: seq<Slot<F>>, now: int, delays: nat -> nat, n: nat)
    requires n <= |slots|
    ensures InFlight(SweepSlots(slots, now, delays), n)
      == InFlight(slots, n) + TotalWeight(ResendParts(slots, now), n) + TotalWeight(ExpiryParts(slots, now), n)
  {
    hide Due, SweepSlot, ResendOf, ExpiryOf, Weight, InFlight, TotalWeight;
    var (swept, resends, expiries) := (SweepSlots(slots, now, delays), ResendParts(slots, now), ExpiryParts(slots, now));
    forall i | 0 <= i < |slots|
      ensures Counts(swept[i]) == Counts(slots[i]) + PartWeight(resends[i]) + PartWeight(expiries[i])
    {
      SlotWeighs(slots[i], now, delays(i), i);
    }
    WeightsAdd(slots, swept, resends, expiries, n);
  }

  function Counts<F>(s: Slot<F>): int {
    if s.Pending? then 1 else 0
  }

  function PartWeight<F>(part: seq<Event<F>>): int {
    if |part| == 1 then Weight(part[0]) else 0
  }

  lemma {:induction false} WeightsAdd<F>(slots: seq<Slot<F>>, slots': seq<Slot<F>>, a: seq<seq<Event<F>>>, b: seq<seq<Event<F>>>, n: nat)
    requires |slots| == |slots'| == |a| == |b| && n <= |slots|
    requires forall i :: 0 <= i < |slots| ==> Counts(slots'[i]) == Counts(slots[i]) + PartWeight(a[i]) + PartWeight(b[i])
    ensures InFlight(slots', n) == InFlight(slots, n) + TotalWeight(a, n) + TotalWeight(b, n)
  {
    hide Weight;
    if n > 0 {
      WeightsAdd(slots, slots', a, b, n - 1);
      assert Counts(slots'[n - 1]) == Counts(slots[n - 1]) + PartWeight(a[n - 1]) + PartWeight(b[n - 1]);
    }
  }

  lemma SlotWeighs<F>(s: Slot<F>, now: int, delay: nat, i: nat)
    ensures Counts(SweepSlot(s, now, delay)) == Counts(s) + PartWeight(ResendOf(s, now, i)) + PartWeight(ExpiryOf(s, now, i))
  {
  }

  /** One slot's sweep, seen from the table and from the events. */
  lemma SweptAgrees<F>(cfg: Config, s: Slot<F>, now: int, delay: nat, a: Option<Attempt<F>>, i: nat)
    requires cfg.DelayOk(delay) && SlotAgrees(cfg, s, a)
    ensures var resend, expiry := ResendOf(s, now, i), ExpiryOf(s, now, i);
      var a' := if resend == [] then a else Update(a, resend[0], i);
      SlotAgrees(cfg, SweepSlot(s, now, delay), if expiry == [] then a' else Update(a', expiry[0], i))
  {
    if Due(s, now) && s.attemptsLeft > 0 {
      ResentAgrees(cfg, s, now, delay, a, i);
    }
  }

  lemma ResentAgrees<F>(cfg: Config, s: Slot<F>, now: int, delay: nat, a: Option<Attempt<F>>, i: nat)
    requires cfg.DelayOk(delay) && SlotAgrees(cfg, s, a) && Due(s, now) && s.attemptsLeft > 0
    ensures SlotAgrees(cfg, SweepSlot(s, now, delay), Update(a, Resent(i, now, s.wire), i))
  {
    var sent := |a.value.resent|;
    assert a.value.resent + [s.wire] == Repeat(s.wire, sent + 1);
  }

  lemma {:induction false} DropWeight<F>(slots: seq<Slot<F>>, n: nat)
    requires n <= |slots|
    ensures TotalWeight(DropParts(slots), n) + InFlight(slots, n) == 0
  {
    if n > 0 {
      DropWeight(slots, n - 1);
    }
  }

  lemma ResetKeeps<F>(cfg: Config, o: Outcome<F>, t: Timed<F>)
    requires Inv(cfg, o) && Enabled(cfg, o, t) && t.step.ResetStep?
    ensures Inv(cfg, Advance(cfg, o, t))
  {
    var slots, n := o.state.slots, |o.state.slots|;
    var drops := DropParts(slots);
    forall i | 0 <= i < n
      ensures Replay(o.trace + Gather(drops, n), i).None?
    {
      GatherReplay(drops, o.trace, n, i);
    }
    forall i | 0 <= i < n
      ensures |drops[i]| == 1 ==> Justified(cfg, o.trace, drops[i][0])
    {
      assert SlotAgrees(cfg, slots[i], Replay(o.trace, i));
      ResendJustified(cfg, slots[i], o.trace, t.now, i);
    }
    GatherJustified(cfg, drops, o.trace, n);
    GatherBalance(drops, o.trace, n);
    DropWeight(slots, n);
    InFlightNone<F>(Repeat(Free, n), n);
  }

  lemma {:induction false} RunKeeps<F>(cfg: Config, start: int, run: seq<Timed<F>>)
    requires cfg.Valid() && IsRun(cfg, start, run)
    ensures Inv(cfg, After(cfg, start, run))
  {
    if run == [] {
      InFlightNone<F>(Initial<F>(cfg).slots, cfg.maxPending);
    } else {
      RunKeeps(cfg, start, run[..|run| - 1]);
      var o, t := After(cfg, start, run[..|run| - 1]), run[|run| - 1];
      match t.step
      case TrackStep(_, _, _, _, _) => TrackKeeps(cfg, o, t);
      case RoutingStep(_, _) => RoutingKeeps(cfg, o, t);
      case FireStep => assert o.trace + [] == o.trace;
      case WorkStep(_) => WorkKeeps(cfg, o, t);
      case ResetStep => ResetKeeps(cfg, o, t);
    }
  }

  // ---- the promises ---------------------------------------------------------------------

  /** Every accepted packet is settled exactly once, still pending, or dropped by a reset. */
  lemma {:induction false} OutcomesConserved<F>(cfg: Config, start: int, run: seq<Timed<F>>)
    requires cfg.Valid() && IsRun(cfg, start, run)
    ensures var o := After(cfg, start, run);
      Count(o.trace, ACCEPTED) == Count(o.trace, ACKED) + Count(o.trace, NACKED) + Count(o.trace, TIMED_OUT)
        + Count(o.trace, DROPPED) + InFlight(o.state.slots, |o.state.slots|)
  {
    RunKeeps(cfg, start, run);
    BalanceCounts(After(cfg, start, run).trace);
  }

  /** Every event of every run is explained by the events before it. */
  lemma {:induction false} EventsJustified<F>(cfg: Config, start: int, run: seq<Timed<F>>, k: nat)
    requires cfg.Valid() && IsRun(cfg, start, run) && k < |After(cfg, start, run).trace|
    ensures Justified(cfg, After(cfg, start, run).trace[..k], After(cfg, start, run).trace[k])
  {
    RunKeeps(cfg, start, run);
  }

  /** A packet times out only after all its retransmissions, all of the same frame, and not early. */
  lemma {:induction false} TimeoutOnlyAfterAllRetries<F>(cfg: Config, start: int, run: seq<Timed<F>>, k: nat)
    requires cfg.Valid() && IsRun(cfg, start, run)
    requires k < |After(cfg, start, run).trace| && After(cfg, start, run).trace[k].TimedOut?
    ensures var trace := After(cfg, start, run).trace;
      && ExhaustedRetries(cfg, trace[..k], trace[k])
      && trace[k].at >= Replay(trace[..k], trace[k].slot).value.at + (cfg.retransmissions + 1) * cfg.retryInterval
  {
    EventsJustified(cfg, start, run, k);
    WaitsMultiply(cfg, cfg.retransmissions + 1);
  }

  /** In every reachable state each pending entry still has a wake-up coming, in time. */
  lemma {:induction false} NoForgottenRetry<F>(cfg: Config, start: int, run: seq<Timed<F>>)
    requires cfg.Valid() && IsRun(cfg, start, run)
    ensures RetriesArmed(After(cfg, start, run).state, After(cfg, start, run).clock)
  {
    RunKeeps(cfg, start, run);
  }

  /** After the handler ran nothing that remains is due, and the timer is set strictly ahead. */
  lemma NothingDueAfterWork<F>(cfg: Config, st: State<F>, now: int, delays: nat -> nat)
    requires cfg.Valid() && forall i :: cfg.DelayOk(delays(i))
    ensures var st' := Sweep(st, now, delays).0;
      && !st'.queued
      && forall i :: 0 <= i < |st'.slots| && st'.slots[i].Pending? ==>
           && now < st'.slots[i].due
           && st'.deadline.Some? && now < st'.deadline.value <= st'.slots[i].due
  {
    var swept := State(SweepSlots(st.slots, now, delays), st.deadline, false);
    forall i | 0 <= i < |swept.slots| && swept.slots[i].Pending?
      ensures now < swept.slots[i].due
    {
      assert swept.slots[i] == SweepSlot(st.slots[i], now, delays(i));
    }
  }

  // ---- and not too late ---------------------------------------------------------------------

  /** The longest `n` rounds can take when the handler is at most `late` late. */
  function Ceiling(cfg: Config, late: nat, n: nat): nat {
    if n == 0 then 0 else Ceiling(cfg, late, n - 1) + cfg.retryInterval + cfg.retryJitter + late
  }

  lemma {:induction false} CeilingMultiplies(cfg: Config, late: nat, n: nat)
    ensures Ceiling(cfg, late, n) == n * (cfg.retryInterval + cfg.retryJitter + late)
  {
    if n > 0 {
      CeilingMultiplies(cfg, late, n - 1);
    }
  }

  lemma {:induction false} CeilingGrows(cfg: Config, late: nat, n: nat, m: nat)
    requires n <= m
    ensures Ceiling(cfg, late, n) <= Ceiling(cfg, late, m)
    decreases m
  {
    if n < m {
      CeilingGrows(cfg, late, n, m - 1);
    }
  }

  /** Nothing happens while some entry has been due for more than `late`: the handler is never later than that. */
  ghost predicate Prompt<F>(cfg: Config, start: int, run: seq<Timed<F>>, late: nat) {
    run != [] ==>
      && Prompt(cfg, start, run[..|run| - 1], late)
      && OnTime(After(cfg, start, run[..|run| - 1]).state.slots, run[|run| - 1].now, late)
  }

  ghost predicate OnTime<F>(slots: seq<Slot<F>>, now: int, late: nat) {
    forall i :: 0 <= i < |slots| && slots[i].Pending? ==> now <= slots[i].due + late
  }

  /** The entry comes up again before its rounds so far can have taken longer than they may. */
  ghost predicate Punctual<F>(cfg: Config, late: nat, s: Slot<F>, a: Option<Attempt<F>>) {
    s.Pending? ==> a.Some? && s.due + late <= a.value.at + Ceiling(cfg, late, |a.value.resent| + 1)
  }

  ghost predicate AllPunctual<F>(cfg: Config, late: nat, slots: seq<Slot<F>>, trace: seq<Event<F>>) {
    forall i :: 0 <= i < |slots| ==> Punctual(cfg, late, slots[i], Replay(trace, i))
  }

  ghost predicate InTime<F>(cfg: Config, late: nat, o: Outcome<F>) {
    AllPunctual(cfg, late, o.state.slots, o.trace) && OnTime(o.state.slots, o.clock, late)
  }

  lemma OneSlotPunctual<F>(cfg: Config, late: nat, slots: seq<Slot<F>>, trace: seq<Event<F>>, k: nat, s: Slot<F>, e: Event<F>)
    requires k < |slots| && e.slot == k && AllPunctual(cfg, late, slots, trace)
    requires Punctual(cfg, late, s, Update(Replay(trace, k), e, k))
    ensures AllPunctual(cfg, late, slots[k := s], trace + [e])
  {
    hide Replay, Punctual;
    forall i | 0 <= i < |slots|
      ensures Punctual(cfg, late, slots[k := s][i], Replay(trace + [e], i))
    {
      ReplaySnoc(trace, e, i);
    }
  }

  lemma AcceptedPunctual<F>(cfg: Config, late: nat, a: Option<Attempt<F>>, s: Slot<F>, e: Event<F>)
    requires e.Accepted? && s.Pending? && s.due <= e.at + cfg.retryInterval + cfg.retryJitter
    ensures Punctual(cfg, late, s, Update(a, e, e.slot))
  {
    assert Ceiling(cfg, late, 1) == Ceiling(cfg, late, 0) + cfg.retryInterval + cfg.retryJitter + late;
  }

  lemma TrackInTime<F>(cfg: Config, late: nat, o: Outcome<F>, t: Timed<F>)
    requires InTime(cfg, late, o) && Enabled(cfg, o, t) && t.step.TrackStep? && OnTime(o.state.slots, t.now, late)
    ensures InTime(cfg, late, Advance(cfg, o, t))
  {
    var TrackStep(me, p, wire, wireLen, delay) := t.step;
    var st := o.state;
    var k := FirstFree(st.slots);
    hide Replay, EarliestDue;
    if !Trackable(me, p, wireLen) || k == |st.slots| {
      assert o.trace + [] == o.trace;
    } else {
      var entry := Pending(p.id, p.dest, p.portnum, t.now + delay, cfg.retransmissions, wire);
      var e := Accepted(k, t.now, p.id, p.dest, p.portnum, wire);
      AcceptedPunctual(cfg, late, Replay(o.trace, k), entry, e);
      hide Punctual, Update;
      OneSlotPunctual(cfg, late, st.slots, o.trace, k, entry, e);
    }
  }

  lemma RoutingInTime<F>(cfg: Config, late: nat, o: Outcome<F>, t: Timed<F>)
    requires InTime(cfg, late, o) && t.step.RoutingStep? && OnTime(o.state.slots, t.now, late)
    ensures InTime(cfg, late, Advance(cfg, o, t))
  {
    var events := Settle(o.state, t.step.me, t.step.packet).1;
    hide Replay;
    if events == [] {
      assert o.trace + [] == o.trace;
    } else {
      OneSlotPunctual(cfg, late, o.state.slots, o.trace, events[0].slot, Free, events[0]);
    }
  }

  /** One slot's sweep: a retransmission starts the next round, a time-out frees the slot. */
  lemma SweptPunctual<F>(cfg: Config, late: nat, slots: seq<Slot<F>>, trace: seq<Event<F>>, now: int, delay: nat, i: nat)
    requires i < |slots| && cfg.DelayOk(delay) && Punctual(cfg, late, slots[i], Replay(trace, i))
    requires slots[i].Pending? ==> now <= slots[i].due + late
    ensures var mid := trace + Gather(ResendParts(slots, now), |slots|);
      Punctual(cfg, late, SweepSlot(slots[i], now, delay), Replay(mid + Gather(ExpiryParts(slots, now), |slots|), i))
    ensures SweepSlot(slots[i], now, delay).Pending? ==> now <= SweepSlot(slots[i], now, delay).due + late
  {
    var resends, expiries := ResendParts(slots, now), ExpiryParts(slots, now);
    GatherReplay(resends, trace, |slots|, i);
    GatherReplay(expiries, trace + Gather(resends, |slots|), |slots|, i);
    hide Gather, Replay, Punctual, Update;
    if Due(slots[i], now) && slots[i].attemptsLeft > 0 {
      ResentPunctual(cfg, late, slots[i], now, delay, Replay(trace, i), i);
    } else if Due(slots[i], now) {
      FreePunctual<F>(cfg, late, Update(Replay(trace, i), expiries[i][0], i));
    }
  }

  lemma FreePunctual<F>(cfg: Config, late: nat, a: Option<Attempt<F>>)
    ensures Punctual(cfg, late, Free, a)
  {
  }

  lemma ResentPunctual<F>(cfg: Config, late: nat, s: Slot<F>, now: int, delay: nat, a: Option<Attempt<F>>, i: nat)
    requires cfg.DelayOk(delay) && Punctual(cfg, late, s, a) && Due(s, now) && s.attemptsLeft > 0 && now <= s.due + late
    ensures Punctual(cfg, late, SweepSlot(s, now, delay), Update(a, Resent(i, now, s.wire), i))
  {
    var sent := |a.value.resent|;
    assert Ceiling(cfg, late, sent + 2) == Ceiling(cfg, late, sent + 1) + cfg.retryInterval + cfg.retryJitter + late;
  }

  lemma WorkInTime<F>(cfg: Config, late: nat, o: Outcome<F>, t: Timed<F>)
    requires InTime(cfg, late, o) && Enabled(cfg, o, t) && t.step.WorkStep? && OnTime(o.state.slots, t.now, late)
    ensures InTime(cfg, late, Advance(cfg, o, t))
  {
    hide Gather, Replay, Punctual, SweepSlot, EarliestDue;
    var slots, now, delays := o.state.slots, t.now, t.step.delays;
    var o' := Advance(cfg, o, t);
    var mid := o.trace + Gather(ResendParts(slots, now), |slots|);
    assert o'.trace == mid + Gather(ExpiryParts(slots, now), |slots|);
    forall i | 0 <= i < |slots|
      ensures Punctual(cfg, late, o'.state.slots[i], Replay(o'.trace, i))
      ensures o'.state.slots[i].Pending? ==> now <= o'.state.slots[i].due + late
    {
      SweptPunctual(cfg, late, slots, o.trace, now, delays(i), i);
    }
  }

  lemma {:induction false} RunInTime<F>(cfg: Config, start: int, run: seq<Timed<F>>, late: nat)
    requires IsRun(cfg, start, run) && Prompt(cfg, start, run, late)
    ensures InTime(cfg, late, After(cfg, start, run))
  {
    if run != [] {
      RunInTime(cfg, start, run[..|run| - 1], late);
      var o, t := After(cfg, start, run[..|run| - 1]), run[|run| - 1];
      match t.step
      case TrackStep(_, _, _, _, _) => TrackInTime(cfg, late, o, t);
      case RoutingStep(_, _) => RoutingInTime(cfg, late, o, t);
      case FireStep => assert o.trace + [] == o.trace;
      case WorkStep(_) => WorkInTime(cfg, late, o, t);
      case ResetStep =>
    }
  }

  /**
    If the handler is never more than `late` late, no packet is still pending more than
    (retransmissions + 1) * (interval + jitter + late) after it was accepted: by then it has been
    acknowledged, refused, timed out or dropped.
   */
  lemma {:induction false} SettledInTime<F>(cfg: Config, start: int, run: seq<Timed<F>>, late: nat, i: nat)
    requires cfg.Valid() && IsRun(cfg, start, run) && Prompt(cfg, start, run, late)
    requires i < |After(cfg, start, run).state.slots| && After(cfg, start, run).state.slots[i].Pending?
    ensures var o := After(cfg, start, run);
      var a := Replay(o.trace, i);
      && a.Some? && a.value.id == o.state.slots[i].id
      && o.clock <= a.value.at + (cfg.retransmissions + 1) * (cfg.retryInterval + cfg.retryJitter + late)
  {
    RunKeeps(cfg, start, run);
    RunInTime(cfg, start, run, late);
    var o := After(cfg, start, run);
    hide After, IsRun, Prompt, Replay, SlotAgrees, Punctual, TraceJustified, Balance, InFlight, RetriesArmed;
    assert SlotAgrees(cfg, o.state.slots[i], Replay(o.trace, i));
    assert Punctual(cfg, late, o.state.slots[i], Replay(o.trace, i));
    RoundsBound(cfg, late, o.state.slots[i], Replay(o.trace, i), o.clock);
    CeilingMultiplies(cfg, late, cfg.retransmissions + 1);
  }

  lemma RoundsBound<F>(cfg: Config, late: nat, s: Slot<F>, a: Option<Attempt<F>>, clock: int)
    requires s.Pending? && SlotAgrees(cfg, s, a) && Punctual(cfg, late, s, a) && clock <= s.due + late
    ensures a.Some? && a.value.id == s.id && clock <= a.value.at + Ceiling(cfg, late, cfg.retransmissions + 1)
  {
    CeilingGrows(cfg, late, |a.value.resent| + 1, cfg.retransmissions + 1);
  }
}
