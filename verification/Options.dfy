/** Failure and absence values shared by the other modules. */
module Options {

  /** A value that may be missing. */
  datatype Option<+T> = None | Some(value: T)

  /** The C code's "0 or a negative errno" convention. */
  datatype Result<+T> = Ok(value: T) | Err(errno: Errno)

  datatype Errno = EINVAL | ENOENT | ENOMEM | EIO | EBADMSG

  function Max(a: int, b: int): int {
    if a < b then b else a
  }

  function Min(a: int, b: int): int {
    if a < b then a else b
  }

  /** `n` copies of `x`. */
  function Repeat<T>(x: T, n: nat): (s: seq<T>)
    ensures |s| == n
    ensures forall i :: 0 <= i < n ==> s[i] == x
  {
    if n == 0 then [] else Repeat(x, n - 1) + [x]
  }

  /** The cell after `i` in a ring of `n`. */
  function Next(i: nat, n: nat): (r: nat)
    requires i < n
    ensures r < n
  {
    if i + 1 == n then 0 else i + 1
  }

  /** The cell before `i` in a ring of `n`. */
  function Prev(i: nat, n: nat): (r: nat)
    requires i < n
    ensures r < n && Next(r, n) == i && (forall j :: 0 <= j < n && Next(j, n) == i ==> j == r)
  {
    if i == 0 then n - 1 else i - 1
  }

  /** The C code steps its ring indices with a remainder. */
  lemma RingStep(i: nat, n: nat)
    requires i < n
    ensures (i + 1) % n == Next(i, n)
    ensures (i + n - 1) % n == Prev(i, n)
  {
    Remainder(i + 1, n);
    Remainder(i + n - 1, n);
  }

  lemma Remainder(x: nat, n: nat)
    requires x < 2 * n
    ensures x % n == if x < n then x else x - n
  {
    if x >= n {
      assert x == n * 1 + (x - n);
    }
  }
}
