/**
  Three threads share the radio through one semaphore: start-up, the transmit worker and the
  receive thread that re-arms a deaf radio (src/meshtastic_radio.c).  A step is one statement
  that touches the semaphore, the driver or the armed flag.
 */
module Radio {

  /** What the driver answers to lora_config(), lora_send() and lora_recv_async(). */
  datatype Reply = Done | Busy | Failed

  datatype Thread = Init | Sender | Receiver

  datatype InitPc =
    | FirstConfig | StartSender | StartReceiver | InitTake | InitArm | InitNote(ok: bool) | InitGive | Running | GaveUp

  datatype SendPc =
    | Idle | Take | Stop | Disarm | Config | Transmit(left: nat) | Restore | Arm | Note(ok: bool) | Give

  datatype RecvPc = Look | RecvTake | Recheck | Rearm | RecvNote(ok: bool) | RecvGive

  /**
    active: async reception runs in the driver; armed: the flag kept by the threads; sends and
    result: lora_send() calls and last answer for the frame in hand; clash: some lora_config() or
    lora_send() was reached while reception was active.
   */
  datatype State = State(
    active: bool, armed: bool, holder: Holder, init: InitPc, send: SendPc, recv: RecvPc,
    sends: nat, result: Reply, clash: bool)

  datatype Holder = Nobody | HeldBy(thread: Thread)

  datatype Event = Event(thread: Thread, reply: Reply)

  const BOOT := State(false, false, Nobody, FirstConfig, Idle, Look, 0, Done, false)

  /** Starting reception; a refused call leaves the driver as it was. */
  function Armed(s: State, reply: Reply): (r: (State, bool)) {
    (s.(active := s.active || reply.Done?), reply.Done?)
  }

  /** A call the driver rejects while reception is active. */
  function Called(s: State): State {
    s.(clash := s.clash || s.active)
  }

  function StepInit(s: State, reply: Reply): State {
    match s.init
    case FirstConfig => Called(s).(init := if reply.Done? then StartSender else GaveUp)
    case StartSender => s.(init := StartReceiver)
    case StartReceiver => s.(init := InitTake)
    case InitTake => if s.holder.Nobody? then s.(holder := HeldBy(Init), init := InitArm) else s
    case InitArm => var (s', ok) := Armed(s, reply); s'.(init := InitNote(ok))
    case InitNote(ok) => s.(armed := ok, init := InitGive)
    case InitGive => s.(holder := Nobody, init := Running)
    case Running => s
    case GaveUp => s
  }

  predicate SenderStarted(s: State) {
    !s.init.FirstConfig? && !s.init.StartSender? && !s.init.GaveUp?
  }

  predicate ReceiverStarted(s: State) {
    SenderStarted(s) && !s.init.StartReceiver?
  }

  /**
    `meshtastic_radio_send_wire_now`, `retries` being CONFIG_MESHTASTIC_TX_BUSY_RETRIES.  What the driver
    answers to stopping the reception is not looked at; a refusal leaves the reception active.
   */
  function StepSend(s: State, retries: nat, reply: Reply): State {
    match s.send
    case Idle => s.(send := Take, sends := 0)
    case Take => if s.holder.Nobody? then s.(holder := HeldBy(Sender), send := Stop) else s
    case Stop => s.(active := s.active && !reply.Done?, send := Disarm)
    case Disarm => s.(armed := false, send := Config)
    case Config =>
      Called(s).(result := reply, send := if reply.Done? then Transmit(retries) else Restore)
    case Transmit(left) =>
      Called(s).(result := reply, sends := s.sends + 1,
                 send := if !reply.Busy? || left == 0 then Restore else Transmit(left - 1))
    case Restore => Called(s).(send := Arm)
    case Arm => var (s', ok) := Armed(s, reply); s'.(send := Note(ok))
    case Note(ok) => s.(armed := ok, send := Give)
    case Give => s.(holder := Nobody, send := Idle)
  }

  /** The quiet-period branch of `mt_thread_fn`; its first look at the flag takes no lock. */
  function StepRecv(s: State, reply: Reply): State {
    match s.recv
    case Look => if s.armed then s else s.(recv := RecvTake)
    case RecvTake => if s.holder.Nobody? then s.(holder := HeldBy(Receiver), recv := Recheck) else s
    case Recheck => s.(recv := if s.armed then RecvGive else Rearm)
    case Rearm => var (s', ok) := Armed(s, reply); s'.(recv := RecvNote(ok))
    case RecvNote(ok) => s.(armed := ok, recv := RecvGive)
    case RecvGive => s.(holder := Nobody, recv := Look)
  }

  /** A thread that is blocked or not yet started stays where it is. */
  function Step(s: State, retries: nat, e: Event): State {
    match e.thread
    case Init => StepInit(s, e.reply)
    case Sender => if SenderStarted(s) then StepSend(s, retries, e.reply) else s
    case Receiver => if ReceiverStarted(s) then StepRecv(s, e.reply) else s
  }

  function After(retries: nat, run: seq<Event>): State {
    if run == [] then BOOT else Step(After(retries, run[..|run| - 1]), retries, run[|run| - 1])
  }

  // ---- the busy-retry loop ----------------------------------------------------------------------------

  /** The transmit worker alone, on these driver answers. */
  function Answered(s: State, retries: nat, replies: seq<Reply>): State {
    if replies == [] then s
    else Step(Answered(s, retries, replies[..|replies| - 1]), retries, Event(Sender, replies[|replies| - 1]))
  }

  lemma AnswerNext(s: State, retries: nat, replies: seq<Reply>, n: nat)
    requires n < |replies|
    ensures Answered(s, retries, replies[..n + 1])
         == Step(Answered(s, retries, replies[..n]), retries, Event(Sender, replies[n]))
  {
    assert replies[..n + 1][..n] == replies[..n];
    hide Step;
  }

  lemma TransmitStep(s: State, retries: nat, reply: Reply)
    requires SenderStarted(s) && s.send.Transmit?
    ensures var s' := Step(s, retries, Event(Sender, reply));
      && SenderStarted(s') && s'.sends == s.sends + 1 && s'.result == reply
      && s'.send == if !reply.Busy? || s.send.left == 0 then Restore else Transmit(s.send.left - 1)
  {
  }

  /** Busy answers cost one retry each. */
  lemma {:induction false} StillBusy(s: State, retries: nat, replies: seq<Reply>, n: nat)
    requires n <= retries < |replies| && SenderStarted(s) && s.send == Transmit(retries) && s.sends == 0
    requires forall i :: 0 <= i < n ==> replies[i].Busy?
    ensures var s' := Answered(s, retries, replies[..n]);
      SenderStarted(s') && s'.send == Transmit(retries - n) && s'.sends == n
  {
    hide Step;
    if n > 0 {
      StillBusy(s, retries, replies, n - 1);
      AnswerNext(s, retries, replies, n - 1);
      TransmitStep(Answered(s, retries, replies[..n - 1]), retries, Busy);
    }
  }

  lemma LoopEnds(s: State, retries: nat, replies: seq<Reply>, n: nat)
    requires 0 < n <= retries + 1 <= |replies| && SenderStarted(s) && s.send == Transmit(retries) && s.sends == 0
    requires (forall i :: 0 <= i < n - 1 ==> replies[i].Busy?) && (!replies[n - 1].Busy? || n == retries + 1)
    ensures var s' := Answered(s, retries, replies[..n]); s'.send.Restore? && s'.sends == n && s'.result == replies[n - 1]
  {
    hide Answered, Step, SenderStarted;
    StillBusy(s, retries, replies, n - 1);
    AnswerNext(s, retries, replies, n - 1);
    TransmitStep(Answered(s, retries, replies[..n - 1]), retries, replies[n - 1]);
  }

  /**
    The loop around lora_send(): it stops at the first answer that is not busy, or after all the
    retries, and takes the worker's steps from Transmit to Restore.
   */
  method TransmitLoop(ghost s: State, retries: nat, replies: seq<Reply>) returns (result: Reply, calls: nat)
    requires |replies| == retries + 1 && SenderStarted(s) && s.send == Transmit(retries) && s.sends == 0
    ensures 0 < calls <= retries + 1 && result == replies[calls - 1]
    ensures forall i :: 0 <= i < calls - 1 ==> replies[i].Busy?
    ensures result.Busy? ==> calls == retries + 1
    ensures var s' := Answered(s, retries, replies[..calls]); s'.send.Restore? && s'.sends == calls && s'.result == result
  {
    hide Answered, Step, SenderStarted;
    var left := retries;
    calls := 0;
    while true
      invariant calls + left == retries
      invariant forall i :: 0 <= i < calls ==> replies[i].Busy?
      decreases left
    {
      result := replies[calls];
      calls := calls + 1;
      if !result.Busy? || left == 0 {
        break;
      }
      left := left - 1;
    }
    LoopEnds(s, retries, replies, calls);
  }

  // ---- what every interleaving keeps --------------------------------------------------------------

  predicate InitInside(pc: InitPc) {
    pc.InitArm? || pc.InitNote? || pc.InitGive?
  }

  predicate SendInside(pc: SendPc) {
    !pc.Idle? && !pc.Take?
  }

  predicate RecvInside(pc: RecvPc) {
    !pc.Look? && !pc.RecvTake?
  }

  /** The thread inside is the holder; a thread that is told its call was accepted has reception active. */
  ghost predicate Locked(s: State, retries: nat) {
    && (InitInside(s.init) <==> s.holder == HeldBy(Init))
    && (SendInside(s.send) <==> s.holder == HeldBy(Sender))
    && (RecvInside(s.recv) <==> s.holder == HeldBy(Receiver))
    && (!SenderStarted(s) ==> s.send.Idle?) && (!ReceiverStarted(s) ==> s.recv.Look?)
    && (s.init.FirstConfig? ==> !s.active)
    && (s.init.InitNote? && s.init.ok ==> s.active)
    && (s.send.Note? && s.send.ok ==> s.active)
    && (s.recv.RecvNote? && s.recv.ok ==> s.active)
    && Counted(s, retries)
  }

  /** lora_send() calls for the frame in hand; an exhausted channel-busy result used them all up. */
  ghost predicate Counted(s: State, retries: nat) {
    && s.sends <= retries + 1
    && (s.send.Take? || s.send.Stop? || s.send.Disarm? || s.send.Config? ==> s.sends == 0)
    && (s.send.Transmit? ==> s.sends + s.send.left == retries)
    && ((s.send.Restore? || s.send.Arm? || s.send.Note? || s.send.Give?) && s.sends > 0 && s.result.Busy? ==> s.sends == retries + 1)
    && ((s.send.Restore? || s.send.Arm? || s.send.Note? || s.send.Give?) && s.result.Done? ==> s.sends > 0)
  }

  lemma InitLocked(s: State, retries: nat, reply: Reply)
    requires Locked(s, retries)
    ensures Locked(StepInit(s, reply), retries)
  {
  }

  lemma SendCounted(s: State, retries: nat, reply: Reply)
    requires Counted(s, retries)
    ensures Counted(StepSend(s, retries, reply), retries)
  {
  }

  lemma SendLocked(s: State, retries: nat, reply: Reply)
    requires Locked(s, retries) && SenderStarted(s)
    ensures Locked(StepSend(s, retries, reply), retries)
  {
    SendCounted(s, retries, reply);
    hide Counted;
  }

  lemma RecvLocked(s: State, retries: nat, reply: Reply)
    requires Locked(s, retries) && ReceiverStarted(s)
    ensures Locked(StepRecv(s, reply), retries)
  {
  }

  lemma {:induction false} StepLocked(s: State, retries: nat, e: Event)
    requires Locked(s, retries)
    ensures Locked(Step(s, retries, e), retries)
  {
    hide Locked, StepInit, StepSend, StepRecv;
    match e.thread
    case Init => InitLocked(s, retries, e.reply);
    case Sender =>
      if SenderStarted(s) {
        SendLocked(s, retries, e.reply);
      }
    case Receiver =>
      if ReceiverStarted(s) {
        RecvLocked(s, retries, e.reply);
      }
  }

  lemma {:induction false} RunLocked(retries: nat, run: seq<Event>)
    ensures Locked(After(retries, run), retries)
  {
    if run != [] {
      RunLocked(retries, run[..|run| - 1]);
      StepLocked(After(retries, run[..|run| - 1]), retries, run[|run| - 1]);
    }
  }

  /** In every interleaving at most one thread is inside, and a frame calls lora_send() at most retries + 1 times. */
  lemma {:induction false} OneAtATime(retries: nat, run: seq<Event>)
    ensures var s := After(retries, run);
      && s.sends <= retries + 1
      && !(InitInside(s.init) && SendInside(s.send))
      && !(InitInside(s.init) && RecvInside(s.recv))
      && !(SendInside(s.send) && RecvInside(s.recv))
  {
    RunLocked(retries, run);
  }

  // ---- driver calls and active reception ------------------------------------------------------------

  /** The driver refuses to stop a reception that is active. */
  predicate Refused(s: State, e: Event) {
    e.thread.Sender? && s.send.Stop? && s.active && !e.reply.Done?
  }

  ghost predicate StopsObeyed(retries: nat, run: seq<Event>) {
    forall k :: 0 <= k < |run| ==> !Refused(After(retries, run[..k]), run[k])
  }

  /** Reception is off wherever the transmit worker calls the driver. */
  predicate Off(s: State) {
    && (s.send.Disarm? || s.send.Config? || s.send.Transmit? || s.send.Restore? || s.send.Arm? ==> !s.active)
    && (s.send.Note? ==> s.active == s.send.ok)
  }

  lemma InitOff(s: State, retries: nat, reply: Reply)
    requires Locked(s, retries) && Off(s)
    ensures Off(StepInit(s, reply)) && (!s.clash ==> !StepInit(s, reply).clash)
  {
    hide Counted;
  }

  lemma SendOff(s: State, retries: nat, reply: Reply)
    requires Off(s) && !Refused(s, Event(Sender, reply))
    ensures Off(StepSend(s, retries, reply)) && (!s.clash ==> !StepSend(s, retries, reply).clash)
  {
  }

  lemma RecvOff(s: State, retries: nat, reply: Reply)
    requires Locked(s, retries) && Off(s)
    ensures Off(StepRecv(s, reply)) && (!s.clash ==> !StepRecv(s, reply).clash)
  {
    hide Counted;
  }

  lemma {:induction false} StepOff(s: State, retries: nat, e: Event)
    requires Locked(s, retries) && Off(s) && !Refused(s, e)
    ensures Off(Step(s, retries, e)) && (!s.clash ==> !Step(s, retries, e).clash)
  {
    hide Locked, Off, Refused, StepInit, StepSend, StepRecv;
    match e.thread
    case Init => InitOff(s, retries, e.reply);
    case Sender => SendOff(s, retries, e.reply);
    case Receiver => RecvOff(s, retries, e.reply);
  }

  lemma {:induction false} ObeyedOff(retries: nat, run: seq<Event>, k: nat)
    requires k <= |run| && StopsObeyed(retries, run)
    ensures Off(After(retries, run[..k])) && !After(retries, run[..k]).clash
  {
    if k > 0 {
      ObeyedOff(retries, run, k - 1);
      RunLocked(retries, run[..k - 1]);
      assert run[..k][..k - 1] == run[..k - 1];
      StepOff(After(retries, run[..k - 1]), retries, run[k - 1]);
    }
  }

  /** A clash has happened, or the next driver call of the transmit worker will be one. */
  predicate Doomed(s: State) {
    s.clash || (s.active && (s.send.Disarm? || s.send.Config?))
  }

  lemma StepDoomed(s: State, retries: nat, e: Event)
    requires Doomed(s)
    ensures Doomed(Step(s, retries, e))
  {
  }

  lemma {:induction false} StaysDoomed(retries: nat, run: seq<Event>, k: nat)
    requires k <= |run| && Doomed(After(retries, run[..k]))
    ensures Doomed(After(retries, run))
    decreases |run| - k
  {
    assert run[..|run|] == run;
    if k < |run| {
      assert run[..k + 1][..k] == run[..k];
      StepDoomed(After(retries, run[..k]), retries, run[k]);
      StaysDoomed(retries, run, k + 1);
    }
  }

  /**
    While every stop is obeyed, no lora_config() or lora_send() is reached with async reception
    active, in any interleaving.
   */
  lemma {:induction false} NeverClashes(retries: nat, run: seq<Event>)
    requires StopsObeyed(retries, run)
    ensures !After(retries, run).clash
  {
    ObeyedOff(retries, run, |run|);
    assert run[..|run|] == run;
  }

  /**
    And exactly then: some lora_config() or lora_send() has been reached with reception active if and
    only if the driver has refused to stop it - once the worker has got past its first call after that.
   */
  lemma {:induction false} ClashIffStopRefused(retries: nat, run: seq<Event>)
    requires var s := After(retries, run); !s.send.Disarm? && !s.send.Config?
    ensures After(retries, run).clash <==> !StopsObeyed(retries, run)
  {
    if StopsObeyed(retries, run) {
      NeverClashes(retries, run);
    } else {
      var k :| 0 <= k < |run| && Refused(After(retries, run[..k]), run[k]);
      RunLocked(retries, run[..k]);
      assert run[..k + 1][..k] == run[..k];
      RefusedDooms(After(retries, run[..k]), retries, run[k]);
      hide Step, Locked, StopsObeyed;
      assert After(retries, run[..k + 1]) == Step(After(retries, run[..k]), retries, run[k]);
      hide After;
      StaysDoomed(retries, run, k + 1);
    }
  }

  lemma RefusedDooms(s: State, retries: nat, e: Event)
    requires Locked(s, retries) && Refused(s, e)
    ensures Doomed(Step(s, retries, e))
  {
  }

  // ---- the armed flag ------------------------------------------------------------------------------

  /** The flag is right whenever nobody is in the middle of changing the reception. */
  predicate Settled(s: State) {
    s.holder.Nobody? || s.send.Stop? || s.send.Give? || s.recv.Recheck? || s.recv.RecvGive?
    || s.init.InitArm? || s.init.InitGive?
  }

  ghost predicate Coherent(s: State) {
    && (Settled(s) ==> s.armed == s.active)
    && (s.recv.Rearm? ==> !s.active && !s.armed)
    && (s.recv.RecvNote? ==> s.active == s.recv.ok)
    && (s.init.InitNote? ==> s.active == s.init.ok)
    && (s.send.Note? ==> s.active == s.send.ok)
  }

  /** A thread arms a reception that is already active, and the driver refuses. */
  predicate ArmRefused(s: State, e: Event) {
    && s.active && !e.reply.Done?
    && match e.thread
       case Init => s.init.InitArm?
       case Sender => s.send.Arm?
       case Receiver => s.recv.Rearm?
  }

  /** Start-up is the thread that does. */
  predicate Raced(s: State, e: Event) {
    e.thread.Init? && ArmRefused(s, e)
  }

  lemma InitCoherent(s: State, retries: nat, reply: Reply)
    requires Locked(s, retries) && Coherent(s) && !ArmRefused(s, Event(Init, reply))
    ensures Coherent(StepInit(s, reply))
  {
    hide Counted;
  }

  lemma SendCoherent(s: State, retries: nat, reply: Reply)
    requires Locked(s, retries) && Coherent(s) && !ArmRefused(s, Event(Sender, reply))
    ensures Coherent(StepSend(s, retries, reply))
  {
    hide Counted, SenderStarted, ReceiverStarted;
  }

  lemma RecvCoherent(s: State, retries: nat, reply: Reply)
    requires Locked(s, retries) && Coherent(s) && !ArmRefused(s, Event(Receiver, reply))
    ensures Coherent(StepRecv(s, reply))
  {
    hide Counted;
  }

  lemma {:induction false} StepCoherent(s: State, retries: nat, e: Event)
    requires Locked(s, retries) && Coherent(s) && !ArmRefused(s, e)
    ensures Coherent(Step(s, retries, e))
  {
    hide Locked, Coherent, StepInit, StepSend, StepRecv, ArmRefused;
    match e.thread
    case Init => InitCoherent(s, retries, e.reply);
    case Sender => SendCoherent(s, retries, e.reply);
    case Receiver => RecvCoherent(s, retries, e.reply);
  }

  ghost predicate ArmsAccepted(retries: nat, run: seq<Event>) {
    forall k :: 0 <= k < |run| ==> !ArmRefused(After(retries, run[..k]), run[k])
  }

  ghost predicate RaceFree(retries: nat, run: seq<Event>) {
    forall k :: 0 <= k < |run| ==> !Raced(After(retries, run[..k]), run[k])
  }

  /** The flag equals the driver's state at every settled point of the run. */
  ghost predicate FlagTrue(retries: nat, run: seq<Event>) {
    forall k :: 0 <= k <= |run| ==>
      Settled(After(retries, run[..k])) ==> After(retries, run[..k]).armed == After(retries, run[..k]).active
  }

  lemma {:induction false} AcceptedCoherent(retries: nat, run: seq<Event>, k: nat)
    requires k <= |run| && ArmsAccepted(retries, run)
    ensures Coherent(After(retries, run[..k]))
  {
    if k > 0 {
      AcceptedCoherent(retries, run, k - 1);
      RunLocked(retries, run[..k - 1]);
      assert run[..k][..k - 1] == run[..k - 1];
      StepCoherent(After(retries, run[..k - 1]), retries, run[k - 1]);
    }
  }

  /** Some thread is about to clear the flag although reception is active. */
  predicate Misled(s: State) {
    s.active && (s.init == InitNote(false) || s.send == Note(false) || s.recv == RecvNote(false))
  }

  /** It holds the semaphore, so nothing changes until it has done so. */
  lemma StepMisled(s: State, retries: nat, e: Event)
    requires Locked(s, retries) && Misled(s)
    ensures var s' := Step(s, retries, e); Misled(s') || (Settled(s') && s'.active && !s'.armed)
  {
    hide Counted;
  }

  lemma {:induction false} MisledShows(retries: nat, run: seq<Event>, k: nat)
    requires k <= |run| && Misled(After(retries, run[..k])) && !Misled(After(retries, run))
    ensures !FlagTrue(retries, run)
    decreases |run| - k
  {
    RunLocked(retries, run[..k]);
    assert run[..|run|] == run;
    if k < |run| {
      assert run[..k + 1][..k] == run[..k];
      StepMisled(After(retries, run[..k]), retries, run[k]);
      if Misled(After(retries, run[..k + 1])) {
        MisledShows(retries, run, k + 1);
      }
    }
  }

  lemma ArmRefusedMisleads(s: State, retries: nat, e: Event)
    requires Locked(s, retries) && ArmRefused(s, e)
    ensures Misled(Step(s, retries, e))
  {
    hide Counted;
  }

  /**
    The armed flag always equals the driver's state, wherever nobody is in the middle of changing it,
    exactly when no thread is refused for arming a reception that is already active.
   */
  lemma {:induction false} FlagTrueIffArmsAccepted(retries: nat, run: seq<Event>)
    requires !Misled(After(retries, run))
    ensures FlagTrue(retries, run) <==> ArmsAccepted(retries, run)
  {
    if ArmsAccepted(retries, run) {
      hide After, ArmsAccepted;
      forall k | 0 <= k <= |run|
        ensures Coherent(After(retries, run[..k]))
      {
        AcceptedCoherent(retries, run, k);
      }
    } else {
      var k :| 0 <= k < |run| && ArmRefused(After(retries, run[..k]), run[k]);
      RunLocked(retries, run[..k]);
      ArmRefusedMisleads(After(retries, run[..k]), retries, run[k]);
      assert run[..k + 1][..k] == run[..k];
      hide Step;
      assert After(retries, run[..k + 1]) == Step(After(retries, run[..k]), retries, run[k]);
      hide After;
      MisledShows(retries, run, k + 1);
    }
  }

  /** While stops are obeyed, only start-up can find the reception active when it arms it. */
  lemma {:induction false} RaceFreeAccepted(retries: nat, run: seq<Event>, k: nat)
    requires k <= |run| && StopsObeyed(retries, run) && RaceFree(retries, run)
    ensures Coherent(After(retries, run[..k]))
    ensures k < |run| ==> !ArmRefused(After(retries, run[..k]), run[k])
  {
    ObeyedOff(retries, run, k);
    if k > 0 {
      RaceFreeAccepted(retries, run, k - 1);
      RunLocked(retries, run[..k - 1]);
      assert run[..k][..k - 1] == run[..k - 1];
      StepCoherent(After(retries, run[..k - 1]), retries, run[k - 1]);
    }
  }

  /** So while stops are obeyed, the flag is always true exactly when start-up is not refused for arming second. */
  lemma {:induction false} FlagTrueIffRaceFree(retries: nat, run: seq<Event>)
    requires StopsObeyed(retries, run) && !Misled(After(retries, run))
    ensures FlagTrue(retries, run) <==> RaceFree(retries, run)
  {
    FlagTrueIffArmsAccepted(retries, run);
    if RaceFree(retries, run) {
      forall k | 0 <= k < |run|
        ensures !ArmRefused(After(retries, run[..k]), run[k])
      {
        RaceFreeAccepted(retries, run, k);
      }
    } else {
      var k :| 0 <= k < |run| && Raced(After(retries, run[..k]), run[k]);
    }
  }

  function Continue(s: State, retries: nat, run: seq<Event>): State
    decreases |run|
  {
    if run == [] then s else Continue(Step(s, retries, run[0]), retries, run[1..])
  }

  predicate ObeyedFrom(s: State, retries: nat, run: seq<Event>)
    decreases |run|
  {
    run != [] ==> !Refused(s, run[0]) && ObeyedFrom(Step(s, retries, run[0]), retries, run[1..])
  }

  /** Once start-up is over and the flag is right, it stays right for as long as stops are obeyed. */
  lemma {:induction false} CoherentForGood(s: State, retries: nat, run: seq<Event>)
    requires Locked(s, retries) && Off(s) && Coherent(s) && s.init.Running? && ObeyedFrom(s, retries, run)
    ensures var s' := Continue(s, retries, run); Locked(s', retries) && Coherent(s') && s'.init.Running?
    decreases |run|
  {
    hide Locked, Off, Coherent;
    if run != [] {
      NoArmRefused(s, run[0]);
      StepLocked(s, retries, run[0]);
      StepOff(s, retries, run[0]);
      StepCoherent(s, retries, run[0]);
      CoherentForGood(Step(s, retries, run[0]), retries, run[1..]);
    }
  }

  lemma NoArmRefused(s: State, e: Event)
    requires Off(s) && Coherent(s) && s.init.Running?
    ensures !ArmRefused(s, e)
  {
  }

  /**
    However start-up and earlier transmissions went, a transmission whose stop is obeyed puts the flag
    right, and it stays right for as long as stops are obeyed.
   */
  lemma {:induction false} TransmissionHeals(retries: nat, before: seq<Event>, e: Event, later: seq<Event>)
    requires var s := After(retries, before); s.init.Running? && s.send.Stop? && e.thread.Sender? && !Refused(s, e)
    requires ObeyedFrom(After(retries, before + [e]), retries, later)
    ensures var s := Continue(After(retries, before + [e]), retries, later); Settled(s) ==> s.armed == s.active
  {
    RunLocked(retries, before);
    assert (before + [e])[..|before|] == before;
    StepLocked(After(retries, before), retries, e);
    CoherentForGood(After(retries, before + [e]), retries, later);
  }

  // ---- runs that go wrong -----------------------------------------------------------------------------

  lemma Extend(retries: nat, run: seq<Event>, e: Event) returns (longer: seq<Event>)
    ensures longer == run + [e] && After(retries, longer) == Step(After(retries, run), retries, e)
    ensures longer[..|run|] == run
  {
    longer := run + [e];
    assert longer[..|run|] == run;
  }

  /** The receive thread arms reception while start-up has not got there yet. */
  lemma ReceiverFirst() returns (r: seq<Event>)
    ensures After(0, r) == BOOT.(active := true, armed := true, init := InitTake)
  {
    var init, recv := Event(Init, Done), Event(Receiver, Done);
    r := Extend(0, [], init);
    hide After;
    r := Extend(0, r, init);
    r := Extend(0, r, init);
    assert After(0, r) == BOOT.(init := InitTake);
    r := Extend(0, r, recv);
    r := Extend(0, r, recv);
    r := Extend(0, r, recv);
    assert After(0, r) == BOOT.(init := InitTake, holder := HeldBy(Receiver), recv := Rearm);
    r := Extend(0, r, recv);
    r := Extend(0, r, recv);
    r := Extend(0, r, recv);
  }

  /** A run in which start-up arms second and the flag ends up wrong with the semaphore free. */
  lemma StartupRace()
    ensures exists run :: var s := After(0, run);
      s.init.Running? && s.holder.Nobody? && s.active && !s.armed && !FlagTrue(0, run) && !RaceFree(0, run)
  {
    hide After;
    var init := Event(Init, Done);
    var before := ReceiverFirst();
    var taken := Extend(0, before, init);
    var raced := Extend(0, taken, Event(Init, Busy));
    var noted := Extend(0, raced, init);
    var run := Extend(0, noted, init);
    var n := |taken|;
    assert run[..n] == taken && run[n] == Event(Init, Busy);
    assert Raced(After(0, run[..n]), run[n]);
    assert run[..|run|] == run;
  }

  /** Start-up, undisturbed. */
  lemma StartedUp() returns (r: seq<Event>)
    ensures After(0, r) == BOOT.(active := true, armed := true, init := Running)
  {
    var init := Event(Init, Done);
    r := Extend(0, [], init);
    hide After;
    r := Extend(0, r, init);
    r := Extend(0, r, init);
    assert After(0, r) == BOOT.(init := InitTake);
    r := Extend(0, r, init);
    r := Extend(0, r, init);
    r := Extend(0, r, init);
    r := Extend(0, r, init);
  }

  /** A run in which the driver refuses to stop, and lora_config() and lora_send() are called all the same. */
  lemma RefusedStop()
    ensures exists run :: After(0, run).clash && After(0, run).sends == 1 && !StopsObeyed(0, run)
  {
    hide After;
    var send := Event(Sender, Done);
    var r := StartedUp();
    r := Extend(0, r, send);
    var taken := Extend(0, r, send);
    var refused := Extend(0, taken, Event(Sender, Busy));
    var disarmed := Extend(0, refused, send);
    var config := Extend(0, disarmed, send);
    var run := Extend(0, config, send);
    var n := |taken|;
    assert run[..n] == taken && run[n] == Event(Sender, Busy);
    assert Refused(After(0, run[..n]), run[n]);
  }

  // ---- what gets done -----------------------------------------------------------------------------------

  /** The frame in hand is being put away. */
  predicate WindingUp(s: State) {
    s.send.Restore? || s.send.Arm? || s.send.Note? || s.send.Give? || s.send.Idle?
  }

  lemma StepWindsUp(s: State, retries: nat, e: Event)
    requires WindingUp(s) && !(e.thread.Sender? && s.send.Idle?)
    ensures WindingUp(Step(s, retries, e)) && Step(s, retries, e).sends == s.sends
  {
  }

  lemma ConfigRefused(s: State, retries: nat, e: Event)
    requires Locked(s, retries) && e.thread.Sender? && s.send.Config? && !e.reply.Done?
    ensures WindingUp(Step(s, retries, e)) && Step(s, retries, e).sends == 0
  {
  }

  /** In every interleaving, a frame whose lora_config() was refused is not sent at all. */
  lemma {:induction false} NoSendAfterRefusedConfig(retries: nat, run: seq<Event>, k: nat, m: nat)
    requires k < m <= |run|
    requires After(retries, run[..k]).send.Config? && run[k].thread.Sender? && !run[k].reply.Done?
    requires forall j :: k < j < m ==> !(run[j].thread.Sender? && After(retries, run[..j]).send.Idle?)
    ensures WindingUp(After(retries, run[..m])) && After(retries, run[..m]).sends == 0
  {
    hide Step;
    assert run[..m][..m - 1] == run[..m - 1];
    if m == k + 1 {
      RunLocked(retries, run[..k]);
      ConfigRefused(After(retries, run[..k]), retries, run[k]);
    } else {
      NoSendAfterRefusedConfig(retries, run, k, m - 1);
      StepWindsUp(After(retries, run[..m - 1]), retries, run[m - 1]);
    }
  }

  /** One thread alone, the driver doing what it is asked. */
  function Undisturbed(s: State, retries: nat, thread: Thread, n: nat): State
    decreases n
  {
    if n == 0 then s else Undisturbed(Step(s, retries, Event(thread, Done)), retries, thread, n - 1)
  }

  /** A deaf radio is noticed and armed again. */
  lemma DeafRadioRecovers(s: State, retries: nat)
    requires ReceiverStarted(s) && s.holder.Nobody? && s.recv.Look? && !s.armed && !s.active
    ensures Undisturbed(s, retries, Receiver, 6) == s.(active := true, armed := true)
  {
    hide Step;
    var r := Event(Receiver, Done);
    RecvSteps(s, retries);
    var s1 := Step(s, retries, r);
    var s2 := Step(s1, retries, r);
    var s3 := Step(s2, retries, r);
    var s4 := Step(s3, retries, r);
    var s5 := Step(s4, retries, r);
    assert Undisturbed(s5, retries, Receiver, 1) == Undisturbed(Step(s5, retries, r), retries, Receiver, 0);
    assert Undisturbed(s3, retries, Receiver, 3) == Undisturbed(s5, retries, Receiver, 1);
    assert Undisturbed(s1, retries, Receiver, 5) == Undisturbed(s3, retries, Receiver, 3);
  }

  lemma RecvSteps(s: State, retries: nat)
    requires ReceiverStarted(s) && s.holder.Nobody? && s.recv.Look? && !s.armed && !s.active
    ensures var r := Event(Receiver, Done);
      Step(Step(Step(Step(Step(Step(s, retries, r), retries, r), retries, r), retries, r), retries, r), retries, r)
        == s.(active := true, armed := true)
  {
    var r := Event(Receiver, Done);
    var s3 := Step(Step(Step(s, retries, r), retries, r), retries, r);
    assert s3 == s.(holder := HeldBy(Receiver), recv := Rearm);
  }

  /** A frame in hand is sent once, and reception is on again afterwards. */
  lemma TransmissionCompletes(s: State, retries: nat)
    requires SenderStarted(s) && s.holder.Nobody? && s.send.Idle?
    ensures Undisturbed(s, retries, Sender, 10) == s.(active := true, armed := true, sends := 1, result := Done)
  {
    var r := Event(Sender, Done);
    SendSteps(s, retries);
    hide Step;
    var s5 := Step(Step(Step(Step(Step(s, retries, r), retries, r), retries, r), retries, r), retries, r);
    FiveSteps(s, retries, Sender, 5);
    FiveSteps(s5, retries, Sender, 0);
  }

  lemma FiveSteps(s: State, retries: nat, thread: Thread, n: nat)
    ensures var r := Event(thread, Done);
      Undisturbed(s, retries, thread, n + 5)
        == Undisturbed(Step(Step(Step(Step(Step(s, retries, r), retries, r), retries, r), retries, r), retries, r), retries, thread, n)
  {
    hide Step;
    var r := Event(thread, Done);
    var s1 := Step(s, retries, r);
    var s2 := Step(s1, retries, r);
    var s3 := Step(s2, retries, r);
    assert Undisturbed(s, retries, thread, n + 5) == Undisturbed(s1, retries, thread, n + 4);
    assert Undisturbed(s1, retries, thread, n + 4) == Undisturbed(s2, retries, thread, n + 3);
    assert Undisturbed(s2, retries, thread, n + 3) == Undisturbed(s3, retries, thread, n + 2);
  }

  lemma SendSteps(s: State, retries: nat)
    requires SenderStarted(s) && s.holder.Nobody? && s.send.Idle?
    ensures var r := Event(Sender, Done);
      var s5 := Step(Step(Step(Step(Step(s, retries, r), retries, r), retries, r), retries, r), retries, r);
      Step(Step(Step(Step(Step(s5, retries, r), retries, r), retries, r), retries, r), retries, r)
        == s.(active := true, armed := true, sends := 1, result := Done)
  {
    var r := Event(Sender, Done);
    var s3 := Step(Step(Step(s, retries, r), retries, r), retries, r);
    assert s3 == s.(active := false, holder := HeldBy(Sender), send := Disarm, sends := 0);
    var s5 := Step(Step(s3, retries, r), retries, r);
    assert s5 == s.(active := false, armed := false, holder := HeldBy(Sender), send := Transmit(retries), sends := 0, result := Done);
    var s7 := Step(Step(s5, retries, r), retries, r);
    assert s7 == s5.(send := Arm, sends := 1);
  }
}
