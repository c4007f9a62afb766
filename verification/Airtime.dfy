/** Channel and transmit airtime kept in rotating buckets (src/meshtastic_airtime.c). */
module Airtime {
  import opened Options

  /** Counters and sums are 32-bit and wrap. */
  const WORD := 0x1_0000_0000

  function Word(x: int): nat {
    x % WORD
  }

  const CHANNEL_PERIODS := 6
  const CHANNEL_SECONDS := 10
  const TX_PERIODS := 60
  const TX_SECONDS := 60

  datatype Kind = Tx | Rx | RxAll | Other

  // ---- the operations, on values ------------------------------------------------------------------

  function Period(sec: nat, length: nat): nat
    requires 0 < length
  {
    sec / length
  }

  function Slot(period: nat, n: nat): (k: nat)
    requires 0 < n
    ensures k < n
  {
    period % n
  }

  /** One set of buckets and the slot the last tick saw. */
  datatype Meter = Meter(buckets: seq<nat>, last: nat)

  datatype State = State(channel: Meter, tx: Meter, sec: nat, firstTick: bool)

  function Added(m: Meter, length: nat, sec: nat, ms: nat): Meter
    requires 0 < length && 0 < |m.buckets|
  {
    var k := Slot(Period(sec, length), |m.buckets|);
    m.(buckets := m.buckets[k := Word(m.buckets[k] + ms)])
  }

  /** A meter at a tick that brings the counter to `sec`. */
  function Rotated(m: Meter, length: nat, sec: nat, first: bool): Meter
    requires 0 < length && 0 < |m.buckets|
  {
    var k := Slot(Period(sec, length), |m.buckets|);
    if first then m.(last := k)
    else if m.last == k then m
    else Meter(m.buckets[k := 0], k)
  }

  function Sum(s: seq<nat>): nat {
    if s == [] then 0 else Word(Sum(s[..|s| - 1]) + s[|s| - 1])
  }

  datatype Event = Tick | Log(kind: Kind, ms: nat)

  predicate Shaped(s: State) {
    |s.channel.buckets| == CHANNEL_PERIODS && |s.tx.buckets| == TX_PERIODS
  }

  const BOOT := State(Meter(Repeat(0, CHANNEL_PERIODS), 0), Meter(Repeat(0, TX_PERIODS), 0), 0, true)

  function Step(s: State, e: Event): State
    requires Shaped(s)
  {
    match e
    case Tick =>
      var sec := Word(s.sec + 1);
      State(Rotated(s.channel, CHANNEL_SECONDS, sec, s.firstTick), Rotated(s.tx, TX_SECONDS, sec, s.firstTick), sec, false)
    case Log(kind, ms) =>
      var tx := if kind.Tx? then Added(s.tx, TX_SECONDS, s.sec, ms) else s.tx;
      var channel := if kind.Other? then s.channel else Added(s.channel, CHANNEL_SECONDS, s.sec, ms);
      s.(channel := channel, tx := tx)
  }

  // ---- the operations, in place -------------------------------------------------------------------

  class Accounting {
    const channel: array<nat>
    const tx: array<nat>
    var sec: nat
    var lastChannel: nat
    var lastTx: nat
    var firstTick: bool

    ghost predicate Valid()
      reads this
    {
      channel.Length == CHANNEL_PERIODS && tx.Length == TX_PERIODS && channel != tx
    }

    ghost function View(): (s: State)
      requires Valid()
      reads this, channel, tx
      ensures Shaped(s)
    {
      State(Meter(channel[..], lastChannel), Meter(tx[..], lastTx), sec, firstTick)
    }

    /** `meshtastic_airtime_init`. */
    constructor ()
      ensures Valid() && fresh(channel) && fresh(tx) && View() == BOOT
    {
      channel := new nat[CHANNEL_PERIODS](_ => 0);
      tx := new nat[TX_PERIODS](_ => 0);
      sec, lastChannel, lastTx, firstTick := 0, 0, 0, true;
      new;
      assert channel[..] == BOOT.channel.buckets;
      assert tx[..] == BOOT.tx.buckets;
    }

    /** `meshtastic_airtime_log`. */
    method LogAirtime(kind: Kind, ms: nat)
      requires Valid()
      modifies channel, tx
      ensures View() == Step(old(View()), Log(kind, ms))
    {
      if kind.Tx? {
        var k := Slot(Period(sec, TX_SECONDS), TX_PERIODS);
        tx[k] := Word(tx[k] + ms);
      }
      if !kind.Other? {
        var k := Slot(Period(sec, CHANNEL_SECONDS), CHANNEL_PERIODS);
        channel[k] := Word(channel[k] + ms);
      }
    }

    /** `meshtastic_airtime_tick`. */
    method TickSecond()
      requires Valid()
      modifies this, channel, tx
      ensures View() == Step(old(View()), Tick)
    {
      sec := Word(sec + 1);
      var k := Slot(Period(sec, CHANNEL_SECONDS), CHANNEL_PERIODS);
      var j := Slot(Period(sec, TX_SECONDS), TX_PERIODS);
      if firstTick {
        firstTick := false;
        lastChannel := k;
        lastTx := j;
      } else {
        if lastChannel != k {
          lastChannel := k;
          channel[k] := 0;
        }
        if lastTx != j {
          lastTx := j;
          tx[j] := 0;
        }
      }
    }

    /** The sums behind the two utilisation percentages. */
    method Sums() returns (channelMs: nat, txMs: nat)
      requires Valid()
      ensures channelMs == Sum(View().channel.buckets) && txMs == Sum(View().tx.buckets)
    {
      channelMs := SumOf(channel);
      txMs := SumOf(tx);
    }
  }

  method SumOf(a: array<nat>) returns (sum: nat)
    ensures sum == Sum(a[..])
  {
    sum := 0;
    for i := 0 to a.Length
      invariant sum == Sum(a[..i])
    {
      sum := Word(sum + a[i]);
      assert a[..i + 1][..i] == a[..i];
    }
    assert a[..a.Length] == a[..];
  }

  // ---- the plain log -------------------------------------------------------------------------------

  /** Milliseconds logged at a second. */
  datatype Entry = Entry(at: nat, ms: nat)

  function Ticks(events: seq<Event>): nat {
    if events == [] then 0
    else Ticks(events[..|events| - 1]) + if events[|events| - 1].Tick? then 1 else 0
  }

  function ChannelLog(events: seq<Event>): seq<Entry> {
    if events == [] then []
    else
      var before, e := events[..|events| - 1], events[|events| - 1];
      ChannelLog(before) + if e.Log? && !e.kind.Other? then [Entry(Ticks(before), e.ms)] else []
  }

  function TxLog(events: seq<Event>): seq<Entry> {
    if events == [] then []
    else
      var before, e := events[..|events| - 1], events[|events| - 1];
      TxLog(before) + if e.Log? && e.kind.Tx? then [Entry(Ticks(before), e.ms)] else []
  }

  function After(events: seq<Event>): (s: State)
    ensures Shaped(s)
  {
    if events == [] then BOOT else Step(After(events[..|events| - 1]), events[|events| - 1])
  }

  /** All milliseconds logged in the periods lo..hi, ends included. */
  function Logged(log: seq<Entry>, length: nat, lo: int, hi: int): nat
    requires 0 < length
  {
    if log == [] then 0
    else
      var e := log[|log| - 1];
      Logged(log[..|log| - 1], length, lo, hi) + if lo <= Period(e.at, length) <= hi then e.ms else 0
  }

  // ---- arithmetic ------------------------------------------------------------------------------------

  /** The two meters there are. */
  predicate Dials(length: nat, n: nat) {
    || (length == CHANNEL_SECONDS && n == CHANNEL_PERIODS)
    || (length == TX_SECONDS && n == TX_PERIODS)
  }

  lemma PeriodStep(sec: nat, length: nat, n: nat)
    requires Dials(length, n)
    ensures Period(sec, length) <= Period(sec + 1, length) <= Period(sec, length) + 1
    ensures Period(0, length) == 0 && Period(1, length) == 0
  {
  }

  /** Two periods less than a full turn apart have different slots, and a full turn apart the same. */
  lemma SlotsDiffer(p: nat, q: nat, length: nat, n: nat)
    requires Dials(length, n) && p < q
    ensures q < p + n ==> Slot(p, n) != Slot(q, n)
    ensures q == p + n ==> Slot(p, n) == Slot(q, n)
  {
    if n == CHANNEL_PERIODS {
      SlotsDifferChannel(p, q);
    } else {
      SlotsDifferTx(p, q);
    }
  }

  lemma SlotsDifferChannel(p: nat, q: nat)
    requires p < q
    ensures q < p + CHANNEL_PERIODS ==> Slot(p, CHANNEL_PERIODS) != Slot(q, CHANNEL_PERIODS)
    ensures q == p + CHANNEL_PERIODS ==> Slot(p, CHANNEL_PERIODS) == Slot(q, CHANNEL_PERIODS)
  {
  }

  lemma SlotsDifferTx(p: nat, q: nat)
    requires p < q
    ensures q < p + TX_PERIODS ==> Slot(p, TX_PERIODS) != Slot(q, TX_PERIODS)
    ensures q == p + TX_PERIODS ==> Slot(p, TX_PERIODS) == Slot(q, TX_PERIODS)
  {
  }

  lemma WordOfZero()
    ensures Word(0) == 0
  {
  }

  lemma WordPlus(a: int, b: int)
    ensures Word(Word(a) + b) == Word(a + b)
    ensures Word(b - Word(a)) == Word(b - a)
  {
    var q := a / WORD;
    Turns(Word(a) + b, q);
    Turns(b - a, q);
  }

  lemma Turns(x: int, q: int)
    ensures Word(x + q * WORD) == Word(x)
  {
  }

  /** Adding to one bucket, or emptying it, moves the sum by as much. */
  lemma WordMoves(sum: nat, was: nat, ms: nat)
    ensures Word(Word(sum) + Word(was + ms) - was) == Word(sum + ms)
    ensures Word(Word(sum) - Word(was)) == Word(sum - was)
  {
    hide Word;
    WordPlus(sum, Word(was + ms) - was);
    WordPlus(was + ms, sum - was);
    WordPlus(sum, 0 - Word(was));
    WordPlus(was, sum);
  }

  lemma {:induction false} SumUpdate(s: seq<nat>, j: nat, v: nat)
    requires j < |s|
    ensures Sum(s[j := v]) == Word(Sum(s) + v - s[j])
  {
    hide Word;
    var n := |s| - 1;
    var s' := s[j := v];
    WordPlus(Sum(s[..n]) + s[n], v - s[j]);
    if j == n {
      assert s'[..n] == s[..n];
    } else {
      assert s'[..n] == s[..n][j := v];
      SumUpdate(s[..n], j, v);
      WordPlus(Sum(s[..n]) + v - s[j], s[n]);
    }
  }

  lemma {:induction false} LoggedSplit(log: seq<Entry>, length: nat, lo: int, mid: int, hi: int)
    requires 0 < length && lo <= mid <= hi
    ensures Logged(log, length, lo, hi) == Logged(log, length, lo, mid) + Logged(log, length, mid + 1, hi)
  {
    if log != [] {
      LoggedSplit(log[..|log| - 1], length, lo, mid, hi);
    }
  }

  lemma {:induction false} LoggedNone(log: seq<Entry>, length: nat, lo: int, hi: int)
    requires 0 < length && forall i :: 0 <= i < |log| ==> Period(log[i].at, length) < lo
    ensures Logged(log, length, lo, hi) == 0
  {
    if log != [] {
      LoggedNone(log[..|log| - 1], length, lo, hi);
    }
  }

  // ---- every event keeps the meters equal to the log -----------------------------------------------

  /** Bucket of period `p` holds what the log has for that period. */
  ghost predicate Current(m: Meter, length: nat, log: seq<Entry>, p: nat)
    requires 0 < length && 0 < |m.buckets|
  {
    m.buckets[Slot(p, |m.buckets|)] == Word(Logged(log, length, p, p))
  }

  /** The buckets are the log's last |buckets| periods; slots never used are still zero. */
  ghost predicate Cells(m: Meter, length: nat, sec: nat, log: seq<Entry>)
    requires 0 < length && 0 < |m.buckets|
  {
    var n, now := |m.buckets|, Period(sec, length);
    && m.last == Slot(now, n)
    && (forall i :: 0 <= i < |log| ==> Period(log[i].at, length) <= now)
    && (forall p: nat :: now - n < p <= now ==> Current(m, length, log, p))
    && (forall k :: now < k < n ==> m.buckets[k] == 0)
  }

  ghost predicate Total(m: Meter, length: nat, sec: nat, log: seq<Entry>)
    requires 0 < length
  {
    var n, now := |m.buckets|, Period(sec, length);
    Sum(m.buckets) == Word(Logged(log, length, now - n + 1, now))
  }

  ghost predicate Agrees(m: Meter, length: nat, sec: nat, log: seq<Entry>)
    requires 0 < length && 0 < |m.buckets|
  {
    Cells(m, length, sec, log) && Total(m, length, sec, log)
  }

  lemma {:induction false} LoggedAppend(log: seq<Entry>, e: Entry, length: nat, lo: int, hi: int)
    requires 0 < length
    ensures Logged(log + [e], length, lo, hi)
         == Logged(log, length, lo, hi) + if lo <= Period(e.at, length) <= hi then e.ms else 0
  {
    assert (log + [e])[..|log|] == log;
  }

  lemma AddCells(m: Meter, length: nat, sec: nat, log: seq<Entry>, ms: nat)
    requires Dials(length, |m.buckets|) && Cells(m, length, sec, log)
    ensures Cells(Added(m, length, sec, ms), length, sec, log + [Entry(sec, ms)])
  {
    hide Logged, Period, Slot, Word;
    var n, now := |m.buckets|, Period(sec, length);
    var m', log' := Added(m, length, sec, ms), log + [Entry(sec, ms)];
    forall p: nat | now - n < p <= now
      ensures Current(m', length, log', p)
    {
      assert Current(m, length, log, p);
      LoggedAppend(log, Entry(sec, ms), length, p, p);
      if p < now {
        SlotsDiffer(p, now, length, n);
      } else {
        WordPlus(Logged(log, length, p, p), ms);
      }
    }
    SmallSlot(now, n);
  }

  lemma AddTotal(m: Meter, length: nat, sec: nat, log: seq<Entry>, ms: nat)
    requires 0 < length && 0 < |m.buckets| && Total(m, length, sec, log)
    ensures Total(Added(m, length, sec, ms), length, sec, log + [Entry(sec, ms)])
  {
    hide Sum, Logged, Period, Slot, Word;
    var n, now := |m.buckets|, Period(sec, length);
    var k := Slot(now, n);
    var was, all := m.buckets[k], Logged(log, length, now - n + 1, now);
    SumUpdate(m.buckets, k, Word(was + ms));
    LoggedAppend(log, Entry(sec, ms), length, now - n + 1, now);
    WordMoves(all, was, ms);
  }

  lemma SmallSlot(p: nat, n: nat)
    requires 0 < n
    ensures p < n ==> Slot(p, n) == p
  {
  }

  /** A new period takes over the bucket of the period that falls out of the window. */
  lemma TurnCells(m: Meter, length: nat, sec: nat, log: seq<Entry>)
    requires Dials(length, |m.buckets|) && Cells(m, length, sec, log)
    requires Period(sec + 1, length) == Period(sec, length) + 1
    ensures Cells(Rotated(m, length, sec + 1, false), length, sec + 1, log)
  {
    hide Logged, Period, Slot, Word;
    WordOfZero();
    var n, now := |m.buckets|, Period(sec, length);
    SlotsDiffer(now, now + 1, length, n);
    var m' := Rotated(m, length, sec + 1, false);
    forall p: nat | now + 1 - n < p <= now + 1
      ensures Current(m', length, log, p)
    {
      if p <= now {
        assert Current(m, length, log, p);
        SlotsDiffer(p, now + 1, length, n);
      } else {
        LoggedNone(log, length, now + 1, now + 1);
      }
    }
    SmallSlot(now + 1, n);
  }

  /** What the reused bucket held is what the window loses. */
  lemma Dropped(m: Meter, length: nat, sec: nat, log: seq<Entry>)
    requires Dials(length, |m.buckets|) && Cells(m, length, sec, log)
    ensures var n, now := |m.buckets|, Period(sec, length);
      && m.last == Slot(now, n) && Logged(log, length, now + 1, now + 1) == 0
      && m.buckets[Slot(now + 1, n)] == Word(Logged(log, length, now + 1 - n, now + 1 - n))
  {
    hide Logged, Period, Slot, Word;
    WordOfZero();
    var n, now := |m.buckets|, Period(sec, length);
    LoggedNone(log, length, now + 1, now + 1);
    if now + 1 >= n {
      assert Current(m, length, log, now + 1 - n);
      SlotsDiffer(now + 1 - n, now + 1, length, n);
    } else {
      SmallSlot(now + 1, n);
      LoggedBefore(log, length, now + 1 - n);
    }
  }

  lemma TurnTotal(m: Meter, length: nat, sec: nat, log: seq<Entry>)
    requires Dials(length, |m.buckets|) && Agrees(m, length, sec, log)
    requires Period(sec + 1, length) == Period(sec, length) + 1
    ensures Total(Rotated(m, length, sec + 1, false), length, sec + 1, log)
  {
    hide Sum, Logged, Period, Slot, Word, Cells, Current;
    var n, now := |m.buckets|, Period(sec, length);
    var k := Slot(now + 1, n);
    SlotsDiffer(now, now + 1, length, n);
    Dropped(m, length, sec, log);
    LoggedSplit(log, length, now - n + 1, now - n + 1, now + 1);
    LoggedSplit(log, length, now - n + 1, now, now + 1);
    SumUpdate(m.buckets, k, 0);
    var lost, all := Logged(log, length, now - n + 1, now - n + 1), Logged(log, length, now - n + 1, now);
    WordMoves(all, lost, 0);
  }

  lemma {:induction false} LoggedBefore(log: seq<Entry>, length: nat, p: int)
    requires 0 < length && p < 0
    ensures Logged(log, length, p, p) == 0
  {
    if log != [] {
      LoggedBefore(log[..|log| - 1], length, p);
    }
  }

  lemma AddAgrees(m: Meter, length: nat, sec: nat, log: seq<Entry>, ms: nat)
    requires Dials(length, |m.buckets|) && Agrees(m, length, sec, log)
    ensures Agrees(Added(m, length, sec, ms), length, sec, log + [Entry(sec, ms)])
  {
    hide Cells, Total;
    AddCells(m, length, sec, log, ms);
    AddTotal(m, length, sec, log, ms);
  }

  lemma TickAgrees(m: Meter, length: nat, sec: nat, log: seq<Entry>, first: bool)
    requires Dials(length, |m.buckets|) && Agrees(m, length, sec, log) && (first ==> sec == 0)
    ensures Agrees(Rotated(m, length, sec + 1, first), length, sec + 1, log)
  {
    PeriodStep(sec, length, |m.buckets|);
    hide Period, Sum, Logged, Word;
    if Period(sec + 1, length) == Period(sec, length) + 1 {
      TurnCells(m, length, sec, log);
      TurnTotal(m, length, sec, log);
    }
  }

  /** Both meters agree with their logs after every run shorter than the seconds counter. */
  lemma {:induction false} RunAgrees(events: seq<Event>)
    requires Ticks(events) < WORD
    ensures var s := After(events);
      && s.sec == Ticks(events) && (s.firstTick ==> s.sec == 0)
      && Agrees(s.channel, CHANNEL_SECONDS, s.sec, ChannelLog(events))
      && Agrees(s.tx, TX_SECONDS, s.sec, TxLog(events))
  {
    hide Agrees, Added, Rotated;
    if events == [] {
      BootAgrees(CHANNEL_SECONDS, CHANNEL_PERIODS);
      BootAgrees(TX_SECONDS, TX_PERIODS);
    } else {
      var before, e := events[..|events| - 1], events[|events| - 1];
      RunAgrees(before);
      var s := After(before);
      assert ChannelLog(before) + [] == ChannelLog(before) && TxLog(before) + [] == TxLog(before);
      match e
      case Tick =>
        TickAgrees(s.channel, CHANNEL_SECONDS, s.sec, ChannelLog(before), s.firstTick);
        TickAgrees(s.tx, TX_SECONDS, s.sec, TxLog(before), s.firstTick);
      case Log(kind, ms) =>
        AddAgrees(s.channel, CHANNEL_SECONDS, s.sec, ChannelLog(before), ms);
        AddAgrees(s.tx, TX_SECONDS, s.sec, TxLog(before), ms);
    }
  }

  lemma BootAgrees(length: nat, n: nat)
    requires Dials(length, n)
    ensures Agrees(Meter(Repeat(0, n), 0), length, 0, [])
  {
    ZeroSum(Repeat(0, n));
    BootCells(length, n);
    hide Cells, Sum;
  }

  lemma BootCells(length: nat, n: nat)
    requires Dials(length, n)
    ensures Cells(Meter(Repeat(0, n), 0), length, 0, [])
  {
    hide Period, Slot, Word;
    PeriodStep(0, length, n);
    SmallSlot(0, n);
    WordOfZero();
  }

  lemma {:induction false} ZeroSum(s: seq<nat>)
    requires forall i :: 0 <= i < |s| ==> s[i] == 0
    ensures Sum(s) == 0
  {
    if s != [] {
      ZeroSum(s[..|s| - 1]);
    }
  }

  // ---- the promise ------------------------------------------------------------------------------------

  /**
    For every interleaving of logs and ticks before the counter wraps, the channel sum is everything
    logged in the current and the five preceding 10-second periods, and the transmit sum everything
    transmitted in the current and the 59 preceding minutes, as 32-bit values.
   */
  lemma {:induction false} BucketsAreTheLog(events: seq<Event>)
    requires Ticks(events) < WORD
    ensures var s, now := After(events), Ticks(events);
      && Sum(s.channel.buckets) == Word(Logged(ChannelLog(events), 10, now / 10 - 5, now / 10))
      && Sum(s.tx.buckets) == Word(Logged(TxLog(events), 60, now / 60 - 59, now / 60))
  {
    RunAgrees(events);
    hide Cells, After, Sum, Logged, Word;
  }
}
