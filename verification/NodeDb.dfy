/** The table of nodes heard: least recently heard is evicted, the local node is pinned (src/meshtastic_nodedb.c). */
module NodeDb {
  import opened Options

  const UINT32_MAX := 0xFFFF_FFFF

  datatype Entry = Entry(num: nat, lastHeard: nat)

  // ---- the operations, on values -----------------------------------------------------------------

  /** Index of the entry for `num`, or |db|. */
  function Find(db: seq<Entry>, num: nat): (k: nat)
    ensures k <= |db|
    ensures k < |db| ==> db[k].num == num
    ensures forall j :: 0 <= j < k ==> db[j].num != num
  {
    if db == [] || db[0].num == num then 0 else 1 + Find(db[1..], num)
  }

  /**
    The entry to evict among the first `n`: the least recently heard one, the earliest of equals,
    never the local node.  None when nothing can be evicted.
   */
  function Oldest(db: seq<Entry>, local: nat, n: nat): (r: Option<nat>)
    requires n <= |db|
    ensures r.Some? ==> r.value < n && db[r.value].num != local && db[r.value].lastHeard < UINT32_MAX
    ensures r.Some? ==> forall j :: 0 <= j < n && db[j].num != local ==> db[r.value].lastHeard <= db[j].lastHeard
    ensures r.Some? ==> forall j :: 0 <= j < r.value && db[j].num != local ==> db[r.value].lastHeard < db[j].lastHeard
    ensures r.None? ==> forall j :: 0 <= j < n && db[j].num != local ==> db[j].lastHeard >= UINT32_MAX
  {
    if n == 0 then None
    else
      var best := Oldest(db, local, n - 1);
      var limit := if best.Some? then db[best.value].lastHeard else UINT32_MAX;
      if db[n - 1].num != local && db[n - 1].lastHeard < limit then Some(n - 1) else best
  }

  /** `meshtastic_module_nodedb_on_packet`, as far as the table goes. */
  function Hear(db: seq<Entry>, max: nat, local: nat, from: nat, now: nat): seq<Entry> {
    if from == 0 || from == local then db
    else
      var k := Find(db, from);
      if k < |db| then db[k := Entry(from, now)]
      else if |db| < max then db + [Entry(from, now)]
      else
        var victim := Oldest(db, local, |db|);
        if victim.None? then db else db[victim.value := Entry(from, now)]
  }

  // ---- the operations, in place -------------------------------------------------------------------

  class Database {
    const entries: array<Entry>
    const local: nat
    var count: nat

    ghost predicate Valid()
      reads this
    {
      count <= entries.Length
    }

    ghost function View(): seq<Entry>
      requires Valid()
      reads this, entries
    {
      entries[..count]
    }

    /** `meshtastic_nodedb_init`: the local node takes the first slot. */
    constructor (max: nat, local: nat, now: nat)
      requires 0 < max && local != 0
      ensures fresh(entries) && entries.Length == max && this.local == local
      ensures Valid() && View() == [Entry(local, now)]
    {
      entries := new Entry[max](_ => Entry(0, 0));
      this.local := local;
      count := 1;
      new;
      entries[0] := Entry(local, now);
    }

    method FindEntry(num: nat) returns (k: nat)
      requires Valid()
      ensures k == Find(View(), num)
    {
      k := 0;
      while k < count && entries[k].num != num
        invariant k <= count
        invariant forall j :: 0 <= j < k ==> entries[j].num != num
      {
        k := k + 1;
      }
    }

    method OldestEvictable() returns (r: Option<nat>)
      requires Valid()
      ensures r == Oldest(View(), local, count)
    {
      var limit := UINT32_MAX;
      r := None;
      for i := 0 to count
        invariant r == Oldest(View(), local, i)
        invariant limit == if r.Some? then entries[r.value].lastHeard else UINT32_MAX
      {
        if entries[i].num != local && entries[i].lastHeard < limit {
          limit := entries[i].lastHeard;
          r := Some(i);
        }
      }
    }

    method OnPacket(from: nat, now: nat)
      requires Valid()
      modifies this, entries
      ensures Valid() && View() == Hear(old(View()), entries.Length, local, from, now)
    {
      if from == 0 || from == local {
        return;
      }
      var k := FindEntry(from);
      if k == count {
        if count < entries.Length {
          count := count + 1;
        } else {
          var victim := OldestEvictable();
          if victim.None? {
            return;
          }
          k := victim.value;
        }
      }
      entries[k] := Entry(from, now);
    }
  }

  // ---- runs ---------------------------------------------------------------------------------------

  /** One packet heard. */
  datatype Heard = Heard(from: nat, at: nat)

  function After(max: nat, local: nat, boot: nat, log: seq<Heard>): seq<Entry> {
    if log == [] then [Entry(local, boot)]
    else
      var h := log[|log| - 1];
      Hear(After(max, local, boot, log[..|log| - 1]), max, local, h.from, h.at)
  }

  /** Uptime does not run backwards, and stays below its 32-bit maximum. */
  ghost predicate Clocked(log: seq<Heard>) {
    && (forall i, j :: 0 <= i <= j < |log| ==> log[i].at <= log[j].at)
    && (forall i :: 0 <= i < |log| ==> log[i].at < UINT32_MAX)
  }

  ghost predicate Unique(db: seq<Entry>) {
    forall i, j :: 0 <= i < j < |db| ==> db[i].num != db[j].num
  }

  /** What holds whatever the clock does. */
  ghost predicate Pinned(max: nat, local: nat, db: seq<Entry>) {
    0 < |db| <= max && Unique(db) && db[0].num == local
  }

  /** Peers other than `p` heard at second `t` or later. */
  function HeardSince(log: seq<Heard>, local: nat, p: nat, t: nat): set<nat> {
    set i | 0 <= i < |log| && log[i].at >= t && log[i].from != p && log[i].from != local && log[i].from != 0 :: log[i].from
  }

  ghost predicate WasHeard(log: seq<Heard>, p: nat, t: nat) {
    exists i :: 0 <= i < |log| && log[i] == Heard(p, t)
  }

  function Peers(db: seq<Entry>): set<nat> {
    set i | 0 <= i < |db| :: db[i].num
  }

  /** Entry `e` was heard when it says, and not later. */
  ghost predicate Latest(log: seq<Heard>, e: Entry) {
    && e.num != 0 && WasHeard(log, e.num, e.lastHeard)
    && forall i :: 0 <= i < |log| && log[i].from == e.num ==> log[i].at <= e.lastHeard
  }

  /** Whoever is missing has been displaced by enough others. */
  ghost predicate Displaced(max: nat, local: nat, log: seq<Heard>, db: seq<Entry>, p: nat, t: nat) {
    p !in Peers(db) && p != 0 && WasHeard(log, p, t) ==> |HeardSince(log, local, p, t)| >= max - 1
  }

  ghost predicate Inv(max: nat, local: nat, log: seq<Heard>, db: seq<Entry>) {
    && Pinned(max, local, db)
    && (forall k :: 0 < k < |db| ==> Latest(log, db[k]))
    && (forall p, t :: Displaced(max, local, log, db, p, t))
  }

  // ---- sets -----------------------------------------------------------------------------------------

  lemma {:induction false} SubsetSize(a: set<nat>, b: set<nat>)
    requires a <= b
    ensures |a| <= |b|
  {
    if a != {} {
      var x :| x in a;
      SubsetSize(a - {x}, b - {x});
    }
  }

  lemma {:induction false} PeersSize(db: seq<Entry>)
    requires Unique(db)
    ensures |Peers(db)| == |db|
  {
    if db != [] {
      var n := |db| - 1;
      var init := db[..n];
      PeersSize(init);
      var last := db[n].num;
      assert last !in Peers(init);
      PeersSplit(db);
    }
  }

  lemma PeersSplit(db: seq<Entry>)
    requires db != []
    ensures Peers(db) == Peers(db[..|db| - 1]) + {db[|db| - 1].num}
  {
    var n := |db| - 1;
    forall x | x in Peers(db)
      ensures x in Peers(db[..n]) + {db[n].num}
    {
      var i :| 0 <= i < |db| && db[i].num == x;
      if i < n {
        assert db[..n][i].num == x;
      }
    }
  }

  // ---- every packet keeps the invariant -----------------------------------------------------------

  lemma HeardSinceGrows(log: seq<Heard>, h: Heard, local: nat, p: nat, t: nat)
    ensures HeardSince(log, local, p, t) <= HeardSince(log + [h], local, p, t)
    ensures |HeardSince(log, local, p, t)| <= |HeardSince(log + [h], local, p, t)|
  {
    var log' := log + [h];
    forall x | x in HeardSince(log, local, p, t)
      ensures x in HeardSince(log', local, p, t)
    {
      var i :| 0 <= i < |log| && log[i].at >= t && log[i].from == x && x != p && x != local && x != 0;
      assert log'[i] == log[i];
    }
    SubsetSize(HeardSince(log, local, p, t), HeardSince(log', local, p, t));
  }

  /** Somebody who was missing before and is still missing. */
  lemma StillDisplaced(max: nat, local: nat, log: seq<Heard>, h: Heard, db: seq<Entry>, db': seq<Entry>, p: nat, t: nat)
    requires Displaced(max, local, log, db, p, t) && p !in Peers(db) && p != h.from
    ensures Displaced(max, local, log + [h], db', p, t)
  {
    if p != 0 && WasHeard(log + [h], p, t) {
      var i :| 0 <= i < |log + [h]| && (log + [h])[i] == Heard(p, t);
      assert log[i] == Heard(p, t);
      HeardSinceGrows(log, h, local, p, t);
    }
  }

  lemma LatestStays(log: seq<Heard>, h: Heard, e: Entry)
    requires Latest(log, e) && (h.from == e.num ==> h.at <= e.lastHeard)
    ensures Latest(log + [h], e)
  {
    var i :| 0 <= i < |log| && log[i] == Heard(e.num, e.lastHeard);
    assert (log + [h])[i] == log[i];
  }

  lemma LatestNow(log: seq<Heard>, h: Heard)
    requires h.from != 0 && forall i :: 0 <= i < |log| ==> log[i].at <= h.at
    ensures Latest(log + [h], Entry(h.from, h.at))
  {
    assert (log + [h])[|log|] == h;
  }

  /** Everybody still in the table was heard no earlier than the entry about to be evicted. */
  lemma RestHeardSince(max: nat, local: nat, log: seq<Heard>, h: Heard, db: seq<Entry>, v: nat, t: nat, k: nat)
    requires Inv(max, local, log, db) && 0 < v < |db| && 0 < k < |db| && k != v
    requires t <= db[v].lastHeard <= db[k].lastHeard
    ensures db[k].num in HeardSince(log + [h], local, db[v].num, t)
  {
    var log' := log + [h];
    assert Latest(log, db[k]);
    var j :| 0 <= j < |log| && log[j] == Heard(db[k].num, db[k].lastHeard);
    assert log'[j] == log[j];
    assert db[0].num != db[k].num;
    assert db[k].num != db[v].num;
  }

  /** The evicted peer leaves behind a table full of others heard at least as recently. */
  lemma EvictedDisplaced(max: nat, local: nat, log: seq<Heard>, h: Heard, db: seq<Entry>, v: nat, t: nat)
    requires Inv(max, local, log, db) && |db| == max && 0 < v < |db|
    requires h.from != 0 && h.from !in Peers(db) && t <= h.at
    requires forall k :: 0 < k < |db| ==> db[v].lastHeard <= db[k].lastHeard
    requires t <= db[v].lastHeard
    ensures |HeardSince(log + [h], local, db[v].num, t)| >= max - 1
  {
    var p, log' := db[v].num, log + [h];
    var since := HeardSince(log', local, p, t);
    assert db[0].num in Peers(db) && db[v].num in Peers(db);
    assert db[0].num != db[v].num;
    var rest := Peers(db) - {local, p};
    forall x | x in rest
      ensures x in since
    {
      var k :| 0 <= k < |db| && db[k].num == x;
      RestHeardSince(max, local, log, h, db, v, t, k);
    }
    assert log'[|log|] == h;
    assert h.from in since;
    PeersSize(db);
    SubsetSize(rest + {h.from}, since);
    assert Peers(db) == rest + {local, p};
  }

  /** The victim exists whenever there is a peer at all, and is the least recently heard one. */
  lemma OldestExists(max: nat, local: nat, log: seq<Heard>, db: seq<Entry>)
    requires Inv(max, local, log, db) && |db| > 1 && forall i :: 0 <= i < |log| ==> log[i].at < UINT32_MAX
    ensures var v := Oldest(db, local, |db|);
      v.Some? && v.value > 0 && forall k :: 0 < k < |db| ==> db[v.value].lastHeard <= db[k].lastHeard
  {
    assert Latest(log, db[1]);
    assert db[0].num != db[1].num;
    forall k | 0 < k < |db|
      ensures db[k].num != local
    {
      assert db[0].num != db[k].num;
    }
  }

  /** A table with room for a peer always takes the sender in. */
  lemma SenderPresent(max: nat, local: nat, log: seq<Heard>, db: seq<Entry>, h: Heard)
    requires Inv(max, local, log, db) && max > 1 && h.from != 0
    requires forall i :: 0 <= i < |log| ==> log[i].at < UINT32_MAX
    ensures h.from in Peers(Hear(db, max, local, h.from, h.at))
  {
    var db', k0 := Hear(db, max, local, h.from, h.at), Find(db, h.from);
    if h.from == local {
      assert db'[0].num == h.from;
    } else if k0 < |db| {
      assert db'[k0].num == h.from;
    } else if |db| < max {
      assert db'[|db|].num == h.from;
    } else {
      OldestExists(max, local, log, db);
      assert db'[Oldest(db, local, |db|).value].num == h.from;
    }
  }

  /** Whoever the packet makes disappear was evicted; the sender never does. */
  lemma WhoLeaves(max: nat, local: nat, log: seq<Heard>, db: seq<Entry>, h: Heard, p: nat)
    requires Inv(max, local, log, db) && local != 0 && max > 1 && p != 0
    requires forall i :: 0 <= i < |log| ==> log[i].at < UINT32_MAX
    requires p !in Peers(Hear(db, max, local, h.from, h.at)) && (p in Peers(db) || p == h.from)
    ensures |db| == max && h.from != 0 && h.from != p && h.from !in Peers(db)
    ensures var v := Oldest(db, local, |db|);
      v.Some? && 0 < v.value < |db| && db[v.value].num == p
      && forall k :: 0 < k < |db| ==> db[v.value].lastHeard <= db[k].lastHeard
  {
    hide Latest, Unique, Displaced;
    var db' := Hear(db, max, local, h.from, h.at);
    assert forall k :: 0 <= k < |db'| ==> db'[k].num in Peers(db');
    if |db| > 1 {
      OldestExists(max, local, log, db);
    }
    if h.from != 0 {
      SenderPresent(max, local, log, db, h);
    }
    var k :| 0 <= k < |db| && db[k].num == p;
    assert db'[k].num != p;
  }

  lemma HearDisplaces(max: nat, local: nat, log: seq<Heard>, db: seq<Entry>, h: Heard, p: nat, t: nat)
    requires Inv(max, local, log, db) && local != 0
    requires forall i :: 0 <= i < |log| ==> log[i].at <= h.at && log[i].at < UINT32_MAX
    requires p !in Peers(Hear(db, max, local, h.from, h.at)) && p != 0 && WasHeard(log + [h], p, t)
    ensures |HeardSince(log + [h], local, p, t)| >= max - 1
  {
    var db' := Hear(db, max, local, h.from, h.at);
    hide Hear, Peers, HeardSince;
    if p !in Peers(db) && p != h.from {
      assert Displaced(max, local, log, db, p, t);
      StillDisplaced(max, local, log, h, db, db', p, t);
    } else if max > 1 {
      WhoLeaves(max, local, log, db, h, p);
      var v := Oldest(db, local, |db|).value;
      var i :| 0 <= i < |log + [h]| && (log + [h])[i] == Heard(p, t);
      assert log[i].from == p && t <= db[v].lastHeard by { assert Latest(log, db[v]); }
      EvictedDisplaced(max, local, log, h, db, v, t);
    }
  }

  lemma HearPinned(max: nat, local: nat, db: seq<Entry>, h: Heard)
    requires Pinned(max, local, db)
    ensures var db' := Hear(db, max, local, h.from, h.at);
      && Pinned(max, local, db')
      && forall k :: 0 < k < |db'| ==>
           || (k < |db| && db'[k] == db[k] && (db[k].num != h.from || h.from == 0))
           || (db'[k] == Entry(h.from, h.at) && h.from != 0)
  {
    assert forall k :: 0 < k < |db| ==> db[0].num != db[k].num;
  }

  lemma HearKeeps(max: nat, local: nat, log: seq<Heard>, db: seq<Entry>, h: Heard)
    requires Inv(max, local, log, db) && local != 0
    requires forall i :: 0 <= i < |log| ==> log[i].at <= h.at && log[i].at < UINT32_MAX
    ensures Inv(max, local, log + [h], Hear(db, max, local, h.from, h.at))
  {
    var log', db' := log + [h], Hear(db, max, local, h.from, h.at);
    HearPinned(max, local, db, h);
    hide Hear;
    forall k | 0 < k < |db'|
      ensures Latest(log', db'[k])
    {
      if db'[k] == Entry(h.from, h.at) && h.from != 0 {
        LatestNow(log, h);
      } else {
        assert Latest(log, db[k]);
        assert db[0].num != db[k].num;
        LatestStays(log, h, db[k]);
      }
    }
    forall p, t
      ensures Displaced(max, local, log', db', p, t)
    {
      if p !in Peers(db') && p != 0 && WasHeard(log', p, t) {
        HearDisplaces(max, local, log, db, h, p, t);
      }
    }
  }

  lemma BootInv(max: nat, local: nat, boot: nat)
    requires 0 < max
    ensures Inv(max, local, [], [Entry(local, boot)])
  {
  }

  lemma {:induction false} RunKeeps(max: nat, local: nat, boot: nat, log: seq<Heard>)
    requires 0 < max && local != 0 && Clocked(log)
    ensures Inv(max, local, log, After(max, local, boot, log))
  {
    hide Hear, Inv;
    if log == [] {
      BootInv(max, local, boot);
    } else {
      var n := |log| - 1;
      var before := log[..n];
      RunKeeps(max, local, boot, before);
      assert forall i :: 0 <= i < n ==> before[i] == log[i];
      HearKeeps(max, local, before, After(max, local, boot, before), log[n]);
      assert before + [log[n]] == log;
    }
  }

  lemma HearChanges(max: nat, local: nat, log: seq<Heard>, db: seq<Entry>, h: Heard)
    requires Inv(max, local, log, db) && max > 1 && forall i :: 0 <= i < |log| ==> log[i].at < UINT32_MAX
    ensures var db' := Hear(db, max, local, h.from, h.at);
      && (h.from == 0 || h.from == local ==> db' == db)
      && (h.from != 0 && h.from != local ==> Entry(h.from, h.at) in db')
      && (forall e :: e in db' && e.num != h.from ==> e in db)
      && (forall e :: e in db && e.num != h.from && e !in db' ==>
            |db| == max && e.num != local && forall o :: o in db && o.num != local ==> e.lastHeard <= o.lastHeard)
  {
    hide Latest, Displaced;
    var db' := Hear(db, max, local, h.from, h.at);
    if h.from != 0 && h.from != local {
      var k := Find(db, h.from);
      if k < |db| {
        assert db'[k] == Entry(h.from, h.at);
        assert forall i :: 0 <= i < |db| && i != k ==> db'[i] == db[i];
      } else if |db| < max {
        assert db'[|db|] == Entry(h.from, h.at);
        assert forall i :: 0 <= i < |db| ==> db'[i] == db[i];
      } else {
        OldestExists(max, local, log, db);
        var v := Oldest(db, local, |db|).value;
        assert db'[v] == Entry(h.from, h.at);
        assert forall i :: 0 <= i < |db| && i != v ==> db'[i] == db[i];
        assert forall i :: 0 < i < |db| ==> db[0].num != db[i].num;
      }
    }
  }

  // ---- the promises -----------------------------------------------------------------------------------

  /**
    What one more packet does to the table after any run: the node's own packets and those without a
    sender do nothing; the sender of any other is in the table with its time; nobody else comes in; and
    whoever goes was in a full table, was not the local node, and was heard no later than any other.
   */
  lemma {:induction false} HearRule(max: nat, local: nat, boot: nat, log: seq<Heard>, h: Heard)
    requires 1 < max && local != 0 && Clocked(log)
    ensures var (db, db') := (After(max, local, boot, log), After(max, local, boot, log + [h]));
      && (h.from == 0 || h.from == local ==> db' == db)
      && (h.from != 0 && h.from != local ==> Entry(h.from, h.at) in db')
      && (forall e :: e in db' && e.num != h.from ==> e in db)
      && (forall e :: e in db && e.num != h.from && e !in db' ==>
            |db| == max && e.num != local && forall o :: o in db && o.num != local ==> e.lastHeard <= o.lastHeard)
  {
    assert (log + [h])[..|log|] == log;
    RunKeeps(max, local, boot, log);
    HearChanges(max, local, log, After(max, local, boot, log), h);
    hide Hear, Inv;
  }

  /** Node numbers stay unique and the local node is always present, whatever the clock does. */
  lemma {:induction false} UniqueAndPinned(max: nat, local: nat, boot: nat, log: seq<Heard>)
    requires 0 < max
    ensures var db := After(max, local, boot, log); Unique(db) && |db| <= max && db != [] && db[0].num == local
  {
    hide Hear;
    if log != [] {
      var n := |log| - 1;
      UniqueAndPinned(max, local, boot, log[..n]);
      HearPinned(max, local, After(max, local, boot, log[..n]), log[n]);
    }
  }

  /**
    A peer heard at second `t` is forgotten only after at least max - 1 other distinct peers
    have been heard at second `t` or later.
   */
  lemma LeastRecentlyHeard(max: nat, local: nat, boot: nat, log: seq<Heard>, p: nat, t: nat)
    requires 0 < max && local != 0 && Clocked(log) && p != 0 && WasHeard(log, p, t)
    ensures p in Peers(After(max, local, boot, log)) || |HeardSince(log, local, p, t)| >= max - 1
  {
    RunKeeps(max, local, boot, log);
    assert Displaced(max, local, log, After(max, local, boot, log), p, t);
  }
}
