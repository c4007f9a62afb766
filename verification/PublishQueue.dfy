/** The bounded queue of packets on their way to the MQTT broker (src/meshtastic_mqtt.c). */
module PublishQueue {
  import opened Options
  import opened Rings
  import opened Mesh

  /** The queue holds the newest of the packets ever queued, in order. */
  ghost predicate Newest(q: seq<Copy>, queued: seq<Copy>) {
    |q| <= |queued| && q == queued[|queued| - |q|..]
  }

  lemma NewestShrinks(q: seq<Copy>, queued: seq<Copy>)
    requires Newest(q, queued) && q != []
    ensures Newest(q[1..], queued)
  {
  }

  lemma NewestGrows(q: seq<Copy>, queued: seq<Copy>, c: Copy)
    requires Newest(q, queued)
    ensures Newest(q + [c], queued + [c])
  {
    var n := |queued| - |q|;
    assert (queued + [c])[n..] == queued[n..] + [c];
  }

  /** None of them came from the broker. */
  ghost predicate Unflagged(cs: seq<Copy>) {
    forall i :: 0 <= i < |cs| ==> !cs[i].frame.viaMqtt
  }

  class Publisher {
    const entries: array<Copy>
    const uplinks: bool                // every uplink gate other than via_mqtt is open
    var head: nat
    var tail: nat
    var count: nat
    ghost var queued: seq<Copy>        // history: everything ever queued

    ghost predicate RingOk()
      reads this
    {
      && 0 < entries.Length
      && head < entries.Length && tail < entries.Length && count <= entries.Length
      && tail == Wrap(head + count, entries.Length)
    }

    ghost function Contents(): seq<Copy>
      requires RingOk()
      reads this, entries
    {
      Unroll(entries[..], head, count)
    }

    ghost predicate Valid()
      reads this, entries
    {
      RingOk() && Newest(Contents(), queued) && Unflagged(queued)
    }

    constructor (entries: array<Copy>, uplinks: bool)
      requires 0 < entries.Length
      ensures this.entries == entries && this.uplinks == uplinks && Valid() && count == 0 && queued == []
    {
      this.entries, this.uplinks := entries, uplinks;
      head, tail, count, queued := 0, 0, 0, [];
    }

    /**
      `mqtt_queue_uplink`; `encodes`: the envelope fits.  A full queue gives up its oldest entry before
      the envelope is encoded, and so also when that fails.
     */
    method QueueUplink(c: Copy, encodes: bool)
      requires Valid()
      modifies this, entries
      ensures Valid()
      ensures queued == old(queued) + if uplinks && !c.frame.viaMqtt && encodes then [c] else []
      ensures !uplinks || c.frame.viaMqtt ==> Contents() == old(Contents())
      ensures uplinks && !c.frame.viaMqtt ==>
        var kept := if old(count) == entries.Length then old(Contents())[1..] else old(Contents());
        Contents() == kept + if encodes then [c] else []
    {
      hide Unroll, Wrap, Newest;
      if !uplinks || c.frame.viaMqtt {
        return;
      }
      if count == entries.Length {
        var _ := TakeOldest();
      }
      if encodes {
        Append(c);
      }
    }

    method TakeOldest() returns (c: Copy)
      requires Valid() && count > 0
      modifies this
      ensures Valid() && queued == old(queued) && count == old(count) - 1
      ensures c == old(Contents())[0] && Contents() == old(Contents())[1..]
    {
      hide Wrap, Newest;
      NewestShrinks(Contents(), queued);
      DropOldest(entries[..], head, count);
      c := entries[head];
      head := StepOn(head, entries.Length);
      count := count - 1;
    }

    method Append(c: Copy)
      requires Valid() && count < entries.Length && !c.frame.viaMqtt
      modifies this, entries
      ensures Valid() && queued == old(queued) + [c] && Contents() == old(Contents()) + [c] && count == old(count) + 1
    {
      hide Unroll, Wrap, Newest;
      NewestGrows(Contents(), queued, c);
      AppendNewest(entries[..], head, count, c);
      ghost var cells := entries[..];
      entries[tail] := c;
      assert entries[..] == cells[tail := c];
      tail := StepOn(tail, entries.Length);
      count := count + 1;
      queued := queued + [c];
    }

    /** `mqtt_drain_queue`: at most `most` entries leave, oldest first. */
    method Drain(most: nat) returns (published: seq<Copy>)
      requires Valid()
      modifies this
      ensures Valid() && queued == old(queued)
      ensures published + Contents() == old(Contents()) && |published| == Min(most, old(count))
      ensures Unflagged(published)
    {
      hide Unroll, Wrap, Newest, Unflagged;
      ghost var all := Contents();
      published := [];
      while |published| < most && count > 0
        invariant Valid() && queued == old(queued)
        invariant published + Contents() == all && |published| + count == old(count) && |published| <= most
        decreases count
      {
        ghost var q := Contents();
        var c := TakeOldest();
        OneMore(published, q, c, Contents());
        published := published + [c];
      }
      FromQueue(queued, all, published, Contents());
    }
  }

  /** A queue filled to the brim. */
  method Filled(cs: seq<Copy>) returns (p: Publisher)
    requires cs != [] && Unflagged(cs)
    ensures fresh(p) && fresh(p.entries) && p.uplinks && p.entries.Length == p.count == |cs|
    ensures p.Valid() && p.queued == cs && p.Contents() == cs
  {
    hide Unroll, Wrap, Newest;
    var entries := new Copy[|cs|](_ => cs[0]);
    p := new Publisher(entries, true);
    for i := 0 to |cs|
      invariant fresh(p) && fresh(entries) && p.entries == entries && p.uplinks
      invariant p.Valid() && p.count == i && p.queued == cs[..i] && p.Contents() == cs[..i]
    {
      p.QueueUplink(cs[i], true);
      assert cs[..i] + [cs[i]] == cs[..i + 1];
    }
    assert cs[..|cs|] == cs;
  }

  /** A full queue, and a packet whose envelope does not encode: the oldest entry is gone, and nothing came in. */
  method LoseOldest(cs: seq<Copy>, c: Copy) returns (p: Publisher)
    requires cs != [] && Unflagged(cs) && !c.frame.viaMqtt
    ensures p.Valid() && p.queued == cs && p.Contents() == cs[1..]
  {
    hide Unroll, Wrap, Newest, Unflagged;
    p := Filled(cs);
    p.QueueUplink(c, false);
  }

  lemma OneMore(published: seq<Copy>, q: seq<Copy>, c: Copy, rest: seq<Copy>)
    requires q != [] && c == q[0] && rest == q[1..]
    ensures published + [c] + rest == published + q
  {
    assert q == [c] + rest;
  }

  lemma FromQueue(queued: seq<Copy>, q: seq<Copy>, published: seq<Copy>, rest: seq<Copy>)
    requires Newest(q, queued) && Unflagged(queued) && published + rest == q
    ensures Unflagged(published)
  {
    forall i | 0 <= i < |published|
      ensures !published[i].frame.viaMqtt
    {
      assert published[i] == q[i] == queued[|queued| - |q| + i];
    }
  }
}
