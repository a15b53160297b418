// The connection's buffered input, `c->in`, as a chain of non-empty byte
// blocks. The parser reads it one contiguous block at a time, so block
// boundaries are visible; skipping and truncating stand for the chained
// buffer library's `rwm_skip_data` and `rwm_trunc`.
module Chain {
  import opened HtsTypes

  type Blocks = seq<seq<byte>>

  /** Every block holds at least one byte (the parser asserts this). */
  predicate NonEmptyBlocks(c: Blocks)
  {
    forall i :: 0 <= i < |c| ==> |c[i]| > 0
  }

  /** The bytes of the chain in order. */
  function Flatten(c: Blocks): seq<byte>
  {
    if c == [] then [] else c[0] + Flatten(c[1..])
  }

  /** `total_bytes` of the chain. */
  function Total(c: Blocks): nat
  {
    |Flatten(c)|
  }

  lemma FlattenFirst(c: Blocks)
    requires c != []
    ensures Flatten(c) == c[0] + Flatten(c[1..])
    ensures Total(c) == |c[0]| + Total(c[1..])
  {
  }

  lemma {:induction false} EmptyChain(c: Blocks)
    requires NonEmptyBlocks(c)
    ensures Total(c) == 0 <==> c == []
  {
    if c != [] {
      FlattenFirst(c);
    }
  }

  /** Discard the first `n` bytes: `rwm_skip_data(c, n)` when `n <= total_bytes`. */
  function Skip(c: Blocks, n: nat): (r: Blocks)
    requires n <= Total(c)
    ensures Flatten(r) == Flatten(c)[n..]
    ensures NonEmptyBlocks(c) ==> NonEmptyBlocks(r)
    decreases |c|
  {
    if n == 0 then c
    else
      FlattenFirst(c);
      if n < |c[0]| then
        var r := [c[0][n..]] + c[1..];
        assert r[1..] == c[1..];
        r
      else
        Skip(c[1..], n - |c[0]|)
  }

  /** Keep only the first `n` bytes: `rwm_trunc(c, n)`. */
  function Trunc(c: Blocks, n: nat): (r: Blocks)
    requires n <= Total(c)
    ensures Flatten(r) == Flatten(c)[..n]
    ensures NonEmptyBlocks(c) ==> NonEmptyBlocks(r)
    decreases |c|
  {
    if n == 0 then []
    else
      FlattenFirst(c);
      if n <= |c[0]| then
        var r := [c[0][..n]];
        assert r[1..] == [];
        r
      else
        var r := [c[0]] + Trunc(c[1..], n - |c[0]|);
        assert r[1..] == Trunc(c[1..], n - |c[0]|);
        r
  }

  lemma SkipTotal(c: Blocks, n: nat)
    requires n <= Total(c)
    ensures Total(Skip(c, n)) == Total(c) - n
  {
  }

  /** Skipping the bytes of the first block, or fewer, keeps the rest of the chain. */
  lemma SkipInFirst(c: Blocks, n: nat)
    requires c != [] && 0 < |c[0]| && n <= |c[0]|
    ensures n <= Total(c)
    ensures Skip(c, n) == if n == |c[0]| then c[1..] else [c[0][n..]] + c[1..]
  {
    FlattenFirst(c);
    if n == |c[0]| && n > 0 {
      assert Skip(c, n) == Skip(c[1..], 0);
    }
    if n == 0 {
      assert c[0][0..] == c[0];
      assert [c[0]] + c[1..] == c;
    }
  }

  /** `after` is what is left of `before` once some bytes at its front are dropped. */
  predicate Rest(after: Blocks, before: Blocks)
  {
    Total(after) <= Total(before) && Flatten(after) == Flatten(before)[Total(before) - Total(after)..]
  }

  lemma RestSkip(c: Blocks, n: nat)
    requires n <= Total(c)
    ensures Rest(Skip(c, n), c)
  {
  }

  lemma RestTrans(a: Blocks, b: Blocks, c: Blocks)
    requires Rest(a, b) && Rest(b, c)
    ensures Rest(a, c)
  {
    assert Flatten(c)[Total(c) - Total(b)..][Total(b) - Total(a)..] == Flatten(c)[Total(c) - Total(a)..];
  }
}
