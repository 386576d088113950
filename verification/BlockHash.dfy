/** Hash functions that work through a padded message in blocks of 64 bytes. */
module BlockHash {

  const BLOCK: nat := 64

  /** The state after all blocks of m. */
  function Fold<S, B>(f: (S, seq<B>) -> S, s: S, m: seq<B>): S
    requires |m| % BLOCK == 0
    decreases |m|
  {
    if |m| == 0 then s else f(Fold(f, s, m[..|m| - BLOCK]), m[|m| - BLOCK..])
  }

  lemma FoldBlock<S, B>(f: (S, seq<B>) -> S, s: S, m: seq<B>, b: seq<B>)
    requires |m| % BLOCK == 0 && |b| == BLOCK
    ensures Fold(f, s, m + b) == f(Fold(f, s, m), b)
  {
    assert (m + b)[..|m|] == m && (m + b)[|m|..] == b;
  }

  /** Bytes from the end of the message to the place of the length: at least one. */
  function PadLength(n: nat): (r: nat)
    ensures 1 <= r <= BLOCK && (n + r) % BLOCK == 56
  {
    if n % BLOCK < 56 then 56 - n % BLOCK else 120 - n % BLOCK
  }

  /** The byte with the one bit, then zero bytes. */
  function Padding<B>(n: nat, one: B, zero: B): (r: seq<B>)
    requires n > 0
    ensures |r| == n
  {
    [one] + seq(n - 1, _ => zero)
  }

  /** The message, its padding, and eight bytes of length. */
  function Padded<B>(m: seq<B>, one: B, zero: B, length: seq<B>): (r: seq<B>)
    requires |length| == 8
    ensures |r| % BLOCK == 0
  {
    m + Padding(PadLength(|m|), one, zero) + length
  }

  /** The part of m in whole blocks. */
  function Whole<B>(m: seq<B>): (r: seq<B>)
    ensures |r| % BLOCK == 0
  {
    m[..|m| - |m| % BLOCK]
  }

  function Tail<B>(m: seq<B>): (r: seq<B>)
    ensures |r| == |m| % BLOCK
  {
    m[|m| - |m| % BLOCK..]
  }

  lemma WholeAndTail<B>(m: seq<B>)
    ensures Whole(m) + Tail(m) == m
    ensures |m| % BLOCK == 0 ==> Whole(m) == m
  {
  }

  /** More input that stays within the block. */
  lemma Short<B>(m: seq<B>, p: seq<B>)
    requires |m| % BLOCK + |p| < BLOCK
    ensures Whole(m + p) == Whole(m) && Tail(m + p) == Tail(m) + p
  {
    assert (|m| + |p|) % BLOCK == |m| % BLOCK + |p|;
  }

  /** Input that fills the block. */
  lemma Filled<B>(m: seq<B>, p: seq<B>)
    requires |m| % BLOCK + |p| == BLOCK
    ensures Whole(m + p) == m + p == Whole(m) + (Tail(m) + p) && Tail(m + p) == []
  {
    assert (|m| + |p|) % BLOCK == 0;
    WholeAndTail(m);
  }
}
