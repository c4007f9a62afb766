/** Duplicate filtering by a ring of the last accepted (source, id) pairs (src/meshtastic_router.c). */
module DupCache {
  import opened Options

  datatype Pair = Pair(src: nat, id: nat)

  /** The ring: `head` is the cell overwritten next. */
  datatype Ring = Ring(cells: seq<Pair>, head: nat) {
    predicate Valid() {
      head < |cells|
    }

    predicate Contains(p: Pair) {
      p in cells
    }

    function Add(p: Pair): (r: Ring)
      requires Valid()
      ensures r.Valid() && |r.cells| == |cells|
    {
      Ring(cells[head := p], Next(head, |cells|))
    }

    /** The cells, oldest first. */
    function OldestFirst(): seq<Pair>
      requires Valid()
    {
      cells[head..] + cells[..head]
    }
  }

  /** A ring with at least one cell, as every build has. */
  type LiveRing = r: Ring | r.Valid() witness Ring([Pair(0, 0)], 0)

  /** A freshly initialised cache: all cells are zero, so it "contains" the pair (0, 0). */
  function Empty(n: nat): Ring {
    Ring(Repeat(Pair(0, 0), n), 0)
  }

  // ---- the cache, in place -----------------------------------------------------------

  class Cache {
    const cells: array<Pair>
    var head: nat

    ghost function View(): Ring
      reads this, cells
    {
      Ring(cells[..], head)
    }

    constructor (n: nat)
      requires n > 0
      ensures View() == Empty(n) && View().Valid() && fresh(cells)
    {
      cells := new Pair[n](_ => Pair(0, 0));
      head := 0;
      new;
      assert cells[..] == Repeat(Pair(0, 0), n);
    }

    method Check(src: nat, id: nat) returns (dup: bool)
      ensures dup <==> View().Contains(Pair(src, id))
    {
      for i := 0 to cells.Length
        invariant Pair(src, id) !in cells[..i]
      {
        if cells[i] == Pair(src, id) {
          return true;
        }
      }
      assert cells[..cells.Length] == cells[..];
      return false;
    }

    method Remember(src: nat, id: nat)
      requires View().Valid()
      modifies this, cells
      ensures View() == old(View()).Add(Pair(src, id)) && View().Valid()
    {
      cells[head] := Pair(src, id);
      RingStep(head, cells.Length);
      head := (head + 1) % cells.Length;
    }

    /** The filter both receive paths apply: a packet passes unless it is a known pair. */
    method Offer(src: nat, id: nat) returns (isNew: bool)
      requires View().Valid()
      modifies this, cells
      ensures isNew <==> !old(View()).Contains(Pair(src, id))
      ensures View() == (if isNew then old(View()).Add(Pair(src, id)) else old(View())) && View().Valid()
    {
      var dup := Check(src, id);
      isNew := !dup;
      if isNew {
        Remember(src, id);
      }
    }
  }

  // ---- what it guarantees --------------------------------------------------------------

  /** The last `n` accepted pairs, padded with the zero pairs of a fresh cache. */
  function Recent(n: nat, accepted: seq<Pair>): (r: seq<Pair>)
    ensures |r| == n
  {
    (Repeat(Pair(0, 0), n) + accepted)[|accepted|..]
  }

  /** No pair occurs twice within any `n + 1` consecutive acceptances. */
  ghost predicate WindowsDistinct(n: nat, accepted: seq<Pair>) {
    forall i, j :: 0 <= i < j < |accepted| && j - i <= n ==> accepted[i] != accepted[j]
  }

  ghost predicate Remembers(n: nat, ring: Ring, accepted: seq<Pair>) {
    && |ring.cells| == n && ring.Valid()
    && ring.OldestFirst() == Recent(n, accepted)
    && WindowsDistinct(n, accepted)
  }

  /** The ring holds exactly the last `n` accepted pairs. */
  lemma ContainsIffRecent(n: nat, ring: Ring, accepted: seq<Pair>, p: Pair)
    requires Remembers(n, ring, accepted)
    ensures ring.Contains(p) <==> p in Recent(n, accepted)
  {
    assert ring.cells == ring.cells[..ring.head] + ring.cells[ring.head..];
  }

  lemma EmptyRemembers(n: nat)
    requires n > 0
    ensures Remembers(n, Empty(n), [])
  {
    assert Empty(n).OldestFirst() == Empty(n).cells;
  }

  lemma AddShifts(ring: Ring, p: Pair)
    requires ring.Valid()
    ensures ring.Add(p).OldestFirst() == ring.OldestFirst()[1..] + [p]
  {
    if ring.head + 1 == |ring.cells| {
      assert ring.Add(p).OldestFirst() == ring.cells[..ring.head] + [p];
    } else {
      assert ring.Add(p).OldestFirst() == ring.cells[ring.head + 1..] + ring.cells[..ring.head] + [p];
    }
  }

  /** Accepting a pair the ring does not contain keeps it in step with the history. */
  lemma AcceptRemembers(n: nat, ring: Ring, accepted: seq<Pair>, p: Pair)
    requires Remembers(n, ring, accepted) && !ring.Contains(p)
    ensures Remembers(n, ring.Add(p), accepted + [p])
  {
    AddShifts(ring, p);
    ContainsIffRecent(n, ring, accepted, p);
    var padded := Repeat(Pair(0, 0), n) + accepted;
    assert Recent(n, accepted + [p]) == Recent(n, accepted)[1..] + [p];
    forall i | 0 <= i < |accepted| && |accepted| - i <= n
      ensures accepted[i] != p
    {
      assert accepted[i] == Recent(n, accepted)[i + n - |accepted|];
    }
  }

  /** The pairs accepted out of a stream of offers, starting from `ring`. */
  function Filter(ring: Ring, offers: seq<Pair>): seq<Pair>
    requires ring.Valid()
    decreases offers
  {
    if offers == [] then []
    else if ring.Contains(offers[0]) then Filter(ring, offers[1..])
    else [offers[0]] + Filter(ring.Add(offers[0]), offers[1..])
  }

  lemma {:induction false} FilterRemembers(n: nat, ring: Ring, accepted: seq<Pair>, offers: seq<Pair>)
    requires Remembers(n, ring, accepted)
    ensures WindowsDistinct(n, accepted + Filter(ring, offers))
    decreases offers
  {
    if offers == [] {
      assert accepted + Filter(ring, offers) == accepted;
    } else if ring.Contains(offers[0]) {
      FilterRemembers(n, ring, accepted, offers[1..]);
    } else {
      AcceptRemembers(n, ring, accepted, offers[0]);
      FilterRemembers(n, ring.Add(offers[0]), accepted + [offers[0]], offers[1..]);
      assert accepted + Filter(ring, offers) == accepted + [offers[0]] + Filter(ring.Add(offers[0]), offers[1..]);
    }
  }

  /** Whatever is offered, LoRa and MQTT mixed: any n + 1 consecutive acceptances are pairwise distinct. */
  lemma NoRepeatWithinWindow(n: nat, offers: seq<Pair>)
    requires n > 0
    ensures WindowsDistinct(n, Filter(Empty(n), offers))
  {
    EmptyRemembers(n);
    FilterRemembers(n, Empty(n), [], offers);
    assert [] + Filter(Empty(n), offers) == Filter(Empty(n), offers);
  }
}
