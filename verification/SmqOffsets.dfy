/** The two offsets of the shared-memory queue: how much lies between them, what a transfer
    asks before it starts, and where it leaves its offset. */
module SmqOffsets {

  /** ReadNonBlocking goes ahead: something is asked for, and it is there. */
  predicate CanRead(size: nat, n: nat) {
    0 < n <= size
  }

  /** WriteNonBlocking goes ahead on a synchronised queue: it leaves one element of `q` free. */
  predicate CanWrite(size: nat, n: nat, q: nat) {
    size + n < q
  }

  /** GetAvalidReadSize. */
  function Readable(w: nat, r: nat, q: nat): nat
    requires r <= q
  {
    if w >= r then w - r else w + q - r
  }

  /** An offset that has just reached the end starts again at 0. */
  function Around(x: nat, q: nat): (y: nat)
    requires x <= q && 0 < q
    ensures y == if x == q then 0 else x
  {
    x % q
  }

  /** The offset after n elements. */
  function Moved(at: nat, n: nat, q: nat): (k: nat)
    requires at < q && n < q
    ensures k == if at + n < q then at + n else at + n - q
  {
    if at + n <= q then Around(at + n, q) else n - (q - at)
  }

  lemma MovedIsRound(at: nat, n: nat, q: nat)
    requires at < q && n < q
    ensures Moved(at, n, q) == (at + n) % q
  {
    if at + n >= q {
      RoundOnce(at + n - q, q);
    }
  }

  lemma RoundOnce(x: nat, q: nat)
    requires x < q
    ensures (x + q) % q == x
  {}

  /** A write that had room makes that much more readable. */
  lemma WriteGrows(w: nat, r: nat, n: nat, q: nat)
    requires w < q && r < q && CanWrite(Readable(w, r, q), n, q)
    ensures Moved(w, n, q) < q && Readable(Moved(w, n, q), r, q) == Readable(w, r, q) + n
  {}

  /** A read of what was there makes that much less readable. */
  lemma ReadShrinks(w: nat, r: nat, n: nat, q: nat)
    requires w < q && r < q && CanRead(Readable(w, r, q), n)
    ensures n < q && Moved(r, n, q) < q && Readable(w, Moved(r, n, q), q) == Readable(w, r, q) - n
  {}
}
