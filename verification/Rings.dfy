/** Bounded queues kept in an array, with the index arithmetic of the C code. */
module Rings {
  import opened Options

  /** A ring position, as the C code computes it. */
  function Wrap(x: nat, n: nat): (r: nat)
    requires x < 2 * n
    ensures r == if x < n then x else x - n
  {
    Remainder(x, n);
    x % n
  }

  /** The queued elements, oldest first. */
  function Unroll<T>(cells: seq<T>, tail: nat, count: nat): (q: seq<T>)
    requires tail < |cells| && count <= |cells|
    ensures |q| == count
    ensures count > 0 ==> q[0] == cells[tail]
  {
    assert Wrap(tail + 0, |cells|) == tail;
    seq(count, i requires 0 <= i < count => cells[Wrap(tail + i, |cells|)])
  }

  lemma DropOldest<T>(cells: seq<T>, tail: nat, count: nat)
    requires tail < |cells| && 0 < count <= |cells|
    ensures Unroll(cells, Next(tail, |cells|), count - 1) == Unroll(cells, tail, count)[1..]
    ensures Wrap(Next(tail, |cells|) + count - 1, |cells|) == Wrap(tail + count, |cells|)
  {
    var n, q := |cells|, Unroll(cells, tail, count);
    var q' := Unroll(cells, Next(tail, n), count - 1);
    forall i | 0 <= i < count - 1
      ensures q'[i] == q[i + 1]
    {
      assert Wrap(Next(tail, n) + i, n) == Wrap(tail + (i + 1), n);
    }
  }

  lemma DropNewest<T>(cells: seq<T>, tail: nat, count: nat)
    requires tail < |cells| && 0 < count <= |cells|
    ensures Unroll(cells, tail, count - 1) == Unroll(cells, tail, count)[..count - 1]
    ensures Prev(Wrap(tail + count, |cells|), |cells|) == Wrap(tail + (count - 1), |cells|)
  {
  }

  lemma AppendNewest<T>(cells: seq<T>, tail: nat, count: nat, f: T)
    requires tail < |cells| && count < |cells|
    ensures var head := Wrap(tail + count, |cells|);
      && Unroll(cells[head := f], tail, count + 1) == Unroll(cells, tail, count) + [f]
      && Next(head, |cells|) == Wrap(tail + (count + 1), |cells|)
  {
    var n, q, head := |cells|, Unroll(cells, tail, count), Wrap(tail + count, |cells|);
    var q' := Unroll(cells[head := f], tail, count + 1);
    forall i | 0 <= i < count
      ensures q'[i] == q[i]
    {
      assert Wrap(tail + i, n) != head;
    }
    assert q'[count] == f;
    assert q' == q + [f];
  }

  lemma PrependOldest<T>(cells: seq<T>, tail: nat, count: nat, f: T)
    requires tail < |cells| && count < |cells|
    ensures var t := Prev(tail, |cells|);
      && Unroll(cells[t := f], t, count + 1) == [f] + Unroll(cells, tail, count)
      && Wrap(t + (count + 1), |cells|) == Wrap(tail + count, |cells|)
  {
    var n, t, q := |cells|, Prev(tail, |cells|), Unroll(cells, tail, count);
    var q' := Unroll(cells[t := f], t, count + 1);
    forall i | 0 < i < count + 1
      ensures q'[i] == q[i - 1]
    {
      assert Wrap(t + i, n) == Wrap(tail + (i - 1), n) != t;
    }
    assert q'[0] == f;
    assert q' == [f] + q;
  }

  /** The index arithmetic of the C code. */
  method StepOn(i: nat, n: nat) returns (r: nat)
    requires i < n
    ensures r == Next(i, n)
  {
    RingStep(i, n);
    r := (i + 1) % n;
  }

  method StepBack(i: nat, n: nat) returns (r: nat)
    requires i < n
    ensures r == Prev(i, n)
  {
    RingStep(i, n);
    r := (i + n - 1) % n;
  }
}
