/**
  Which step leads to which report, with every condition written out: an acknowledgement is reported
  for a positive reply and a refusal for a negative one, and only what asked to be acknowledged is
  tracked and sent again.
 */
module ReliableReports {
  import opened Options
  import opened Reliable
  import opened ReliableRuns

  // ---- one step --------------------------------------------------------------------------------

  /** A ROUTING packet to this node about packet `id`; `nak`: it carries an error. */
  predicate Replies<F>(t: Timed<F>, id: nat, nak: bool) {
    && t.step.RoutingStep? && t.step.packet.portnum == 5 && t.step.packet.dest == t.step.me
    && t.step.packet.requestId == id && id != 0 && t.step.packet.nak == nak
  }

  /** A unicast to another node that asks for an acknowledgement, is not ROUTING traffic and fits a frame. */
  predicate Wants<F>(t: Timed<F>) {
    && t.step.TrackStep? && t.step.packet.wantAck && t.step.packet.id != 0
    && t.step.packet.dest != 0xFFFF_FFFF && t.step.packet.dest != t.step.me && t.step.packet.portnum != 5
    && 0 < t.step.wireLen <= 255
  }

  /** What each kind of event says about the step that emits it. */
  ghost predicate Explains<F>(t: Timed<F>, e: Event<F>) {
    match e
    case Accepted(_, at, id, dest, portnum, wire) =>
      Wants(t) && at == t.now && t.step.packet.id == id && t.step.packet.dest == dest
      && t.step.packet.portnum == portnum && t.step.wire == wire
    case Acked(_, id, _, _) => Replies(t, id, false)
    case Nacked(_, id, _, _) => Replies(t, id, true)
    case Resent(_, at, _) => t.step.WorkStep? && at == t.now
    case TimedOut(_, at, _, _, _) => t.step.WorkStep? && at == t.now
    case Dropped(_) => t.step.ResetStep?
  }

  lemma {:induction false} Gathered<F>(parts: seq<seq<Event<F>>>, n: nat, e: Event<F>)
    requires n <= |parts| && e in Gather(parts, n)
    ensures exists i :: 0 <= i < n && e in parts[i]
  {
    if e !in parts[n - 1] {
      Gathered(parts, n - 1, e);
    }
  }

  lemma WorkExplains<F>(st: State<F>, t: Timed<F>, e: Event<F>)
    requires t.step.WorkStep? && e in Sweep(st, t.now, t.step.delays).1
    ensures Explains(t, e)
  {
    hide EarliestDue, Gather;
    var n, resends, expiries := |st.slots|, ResendParts(st.slots, t.now), ExpiryParts(st.slots, t.now);
    if e in Gather(resends, n) {
      Gathered(resends, n, e);
    } else {
      Gathered(expiries, n, e);
    }
  }

  lemma ResetExplains<F>(st: State<F>, t: Timed<F>, e: Event<F>)
    requires t.step.ResetStep? && e in Reset(st).1
    ensures Explains(t, e)
  {
    hide Gather;
    Gathered(DropParts(st.slots), |st.slots|, e);
  }

  lemma StepExplains<F>(cfg: Config, st: State<F>, t: Timed<F>, e: Event<F>)
    requires e in Perform(cfg, st, t).1
    ensures Explains(t, e)
  {
    hide EarliestDue, Sweep, Reset;
    match t.step
    case TrackStep(_, _, _, _, _) =>
    case RoutingStep(_, _) =>
    case FireStep =>
    case WorkStep(_) => WorkExplains(st, t, e);
    case ResetStep => ResetExplains(st, t, e);
  }

  /** A reply settles the first entry for its request id, and is reported for what it is. */
  lemma ReplyReports<F>(cfg: Config, st: State<F>, t: Timed<F>, id: nat, nak: bool, i: nat)
    requires Replies(t, id, nak) && i < |st.slots| && st.slots[i].Pending? && st.slots[i].id == id
    requires forall j :: 0 <= j < i ==> st.slots[j].Free? || st.slots[j].id != id
    ensures var (st', events) := Perform(cfg, st, t);
      var s := st.slots[i];
      && st' == st.(slots := st.slots[i := Free])
      && events == [if nak then Nacked(i, id, s.dest, s.portnum) else Acked(i, id, s.dest, s.portnum)]
  {
    var k := FirstHolding(st.slots, id);
    assert k <= i;
  }

  /** Any other packet from the network changes and reports nothing. */
  lemma OtherPacketsIgnored<F>(cfg: Config, st: State<F>, t: Timed<F>)
    requires t.step.RoutingStep?
    requires forall id, nak :: Replies(t, id, nak) ==> forall j :: 0 <= j < |st.slots| ==> st.slots[j].Free? || st.slots[j].id != id
    ensures Perform(cfg, st, t) == (st, [])
  {
    var p := t.step.packet;
    var k := FirstHolding(st.slots, p.requestId);
    assert k < |st.slots| ==> st.slots[k].Pending? && st.slots[k].id == p.requestId;
    assert p.portnum == 5 && p.dest == t.step.me && p.requestId != 0 ==> Replies(t, p.requestId, p.nak);
  }

  /** What asks for an acknowledgement takes the first free slot, with all its retries ahead of it. */
  lemma WantedIsTracked<F>(cfg: Config, st: State<F>, t: Timed<F>, i: nat)
    requires Wants(t) && i < |st.slots| && st.slots[i].Free? && forall j :: 0 <= j < i ==> st.slots[j].Pending?
    ensures var (st', events) := Perform(cfg, st, t);
      var p := t.step.packet;
      && st'.slots == st.slots[i := Pending(p.id, p.dest, p.portnum, t.now + t.step.delay, cfg.retransmissions, t.step.wire)]
      && events == [Accepted(i, t.now, p.id, p.dest, p.portnum, t.step.wire)]
  {
    hide EarliestDue;
    var k := FirstFree(st.slots);
    assert k == i;
  }

  /** Nothing else is tracked: no broadcast, nothing to oneself, nothing that does not ask, no ROUTING packet. */
  lemma UnwantedIsNotTracked<F>(cfg: Config, st: State<F>, t: Timed<F>)
    requires t.step.TrackStep? && (!Wants(t) || forall j :: 0 <= j < |st.slots| ==> st.slots[j].Pending?)
    ensures Perform(cfg, st, t) == (st, [])
  {
    var k := FirstFree(st.slots);
  }

  /** Re-arming sets the timer to the earliest due time, and never into the past. */
  lemma RearmExact<F>(st: State<F>, now: int, i: nat)
    requires i < |st.slots| && st.slots[i].Pending? && forall j :: 0 <= j < |st.slots| && st.slots[j].Pending? ==> st.slots[i].due <= st.slots[j].due
    ensures Reschedule(st, now) == st.(deadline := Some(Max(st.slots[i].due, now)))
  {
    var next := EarliestDue(st.slots, |st.slots|);
    assert next.Some? && next.value <= st.slots[i].due;
  }

  /** Every delay between the interval and the interval plus the jitter is drawn for some random number. */
  lemma EveryDelayDrawn(cfg: Config, d: nat)
    requires cfg.DelayOk(d)
    ensures cfg.Delay(d - cfg.retryInterval) == d
  {
  }

  // ---- whole runs --------------------------------------------------------------------------------

  /** Every event of every run was emitted by a step that explains it. */
  lemma {:induction false} EventsExplained<F>(cfg: Config, start: int, run: seq<Timed<F>>, j: nat)
    requires j < |After(cfg, start, run).trace|
    ensures exists k :: 0 <= k < |run| && Explains(run[k], After(cfg, start, run).trace[j])
  {
    hide Perform;
    if run != [] {
      var before, t := run[..|run| - 1], run[|run| - 1];
      var o := After(cfg, start, before);
      var e := After(cfg, start, run).trace[j];
      if j < |o.trace| {
        EventsExplained(cfg, start, before, j);
        var k :| 0 <= k < |before| && Explains(before[k], o.trace[j]);
        assert run[k] == before[k];
      } else {
        StepExplains(cfg, o.state, t, e);
        assert Explains(run[|run| - 1], e);
      }
    }
  }

  /** An open attempt was accepted. */
  lemma {:induction false} AttemptAccepted<F>(trace: seq<Event<F>>, slot: nat)
    requires Replay(trace, slot).Some?
    ensures exists j :: 0 <= j < |trace| && trace[j].Accepted? && trace[j].wire == Replay(trace, slot).value.wire
  {
    var before, e := trace[..|trace| - 1], trace[|trace| - 1];
    if e.slot != slot || !e.Accepted? {
      AttemptAccepted(before, slot);
      var j :| 0 <= j < |before| && before[j].Accepted? && before[j].wire == Replay(before, slot).value.wire;
      assert trace[j] == before[j];
    } else {
      assert trace[|trace| - 1].Accepted?;
    }
  }

  /** In every run, whatever is sent again was handed to the table by a send that asked for an acknowledgement. */
  lemma {:induction false} ResentWasWanted<F>(cfg: Config, start: int, run: seq<Timed<F>>, j: nat)
    requires cfg.Valid() && IsRun(cfg, start, run)
    requires j < |After(cfg, start, run).trace| && After(cfg, start, run).trace[j].Resent?
    ensures exists k :: 0 <= k < |run| && Wants(run[k]) && run[k].step.wire == After(cfg, start, run).trace[j].wire
  {
    EventsJustified(cfg, start, run, j);
    var trace := After(cfg, start, run).trace;
    var before := trace[..j];
    AttemptAccepted(before, trace[j].slot);
    var i :| 0 <= i < |before| && before[i].Accepted? && before[i].wire == trace[j].wire;
    assert trace[i] == before[i];
    EventsExplained(cfg, start, run, i);
    hide After, IsRun, Replay;
    var k :| 0 <= k < |run| && Explains(run[k], trace[i]);
  }

  /**
    In every run, every report of an acknowledgement or a refusal goes back to a ROUTING packet heard
    by this node that names the packet and says just that.
   */
  lemma {:induction false} ReportsMatchReplies<F>(cfg: Config, start: int, run: seq<Timed<F>>, j: nat)
    requires j < |After(cfg, start, run).trace|
    ensures var e := After(cfg, start, run).trace[j];
      (e.Acked? || e.Nacked?) ==> exists k :: 0 <= k < |run| && Replies(run[k], e.id, e.Nacked?)
  {
    EventsExplained(cfg, start, run, j);
    var e := After(cfg, start, run).trace[j];
    hide After;
    var k :| 0 <= k < |run| && Explains(run[k], e);
    if e.Acked? || e.Nacked? {
      assert Replies(run[k], e.id, e.Nacked?);
    }
  }
}
