// Running-offset sub-spans: a wrapper made of parts hands part k the slots
// [Offset(k), Offset(k) + size_k) of its span, where Offset(k) is the sum of
// the sizes of the parts before it (`offset += comp->size()`).

module Spans {
  import opened Values

  function Offset(sizes: seq<nat>, k: nat): nat
    requires k <= |sizes|
  {
    Sum(sizes[..k])
  }

  lemma OffsetStep(sizes: seq<nat>, k: nat)
    requires k < |sizes|
    ensures Offset(sizes, k + 1) == Offset(sizes, k) + sizes[k]
  {
    assert sizes[..k + 1] == sizes[..k] + [sizes[k]];
    SumAppend(sizes[..k], [sizes[k]]);
  }

  lemma OffsetFull(sizes: seq<nat>)
    ensures Offset(sizes, |sizes|) == Sum(sizes)
  {
    assert sizes[..|sizes|] == sizes;
  }

  lemma {:induction false} OffsetMonotone(sizes: seq<nat>, j: nat, k: nat)
    requires j <= k <= |sizes|
    ensures Offset(sizes, j) <= Offset(sizes, k)
    decreases k - j
  {
    if j < k {
      OffsetStep(sizes, k - 1);
      OffsetMonotone(sizes, j, k - 1);
    }
  }

  /** Parts k of the span lie inside it. */
  lemma OffsetBound(sizes: seq<nat>, k: nat)
    requires k < |sizes|
    ensures Offset(sizes, k) + sizes[k] <= Sum(sizes)
  {
    OffsetStep(sizes, k);
    OffsetMonotone(sizes, k + 1, |sizes|);
    OffsetFull(sizes);
  }

  /** `span.subspan(Offset(k), sizes[k])`. */
  function Block(d: seq<real>, sizes: seq<nat>, k: nat): (b: seq<real>)
    requires k < |sizes| && Sum(sizes) <= |d|
    ensures |b| == sizes[k]
  {
    OffsetBound(sizes, k);
    d[Offset(sizes, k)..Offset(sizes, k) + sizes[k]]
  }

  /** The first n sub-spans. */
  function Blocks(d: seq<real>, sizes: seq<nat>, n: nat): (r: seq<seq<real>>)
    requires n <= |sizes| && Sum(sizes) <= |d|
    ensures |r| == n
    ensures forall k :: 0 <= k < n ==> r[k] == Block(d, sizes, k)
  {
    if n == 0 then [] else Blocks(d, sizes, n - 1) + [Block(d, sizes, n - 1)]
  }

  /** The sub-spans concatenate back to the prefix they cover. */
  lemma {:induction false} ConcatBlocksPrefix(d: seq<real>, sizes: seq<nat>, n: nat)
    requires n <= |sizes| && Sum(sizes) <= |d|
    ensures Offset(sizes, n) <= |d|
    ensures Concat(Blocks(d, sizes, n)) == d[..Offset(sizes, n)]
  {
    if n == 0 {
      assert sizes[..0] == [];
    } else {
      ConcatBlocksPrefix(d, sizes, n - 1);
      BlocksStep(d, sizes, n);
      PrefixStep(d, sizes, n);
    }
  }

  lemma BlocksStep(d: seq<real>, sizes: seq<nat>, n: nat)
    requires 0 < n <= |sizes| && Sum(sizes) <= |d|
    ensures Concat(Blocks(d, sizes, n)) == Concat(Blocks(d, sizes, n - 1)) + Block(d, sizes, n - 1)
  {
    ConcatAppend(Blocks(d, sizes, n - 1), [Block(d, sizes, n - 1)]);
    assert Concat([Block(d, sizes, n - 1)]) == Block(d, sizes, n - 1);
  }

  lemma PrefixStep(d: seq<real>, sizes: seq<nat>, n: nat)
    requires 0 < n <= |sizes| && Sum(sizes) <= |d|
    ensures Offset(sizes, n - 1) <= Offset(sizes, n) <= |d|
    ensures d[..Offset(sizes, n)] == d[..Offset(sizes, n - 1)] + Block(d, sizes, n - 1)
  {
    OffsetStep(sizes, n - 1);
    OffsetBound(sizes, n - 1);
    SlicePrefix(d, Offset(sizes, n - 1), Offset(sizes, n));
  }

  lemma SlicePrefix(d: seq<real>, a: nat, b: nat)
    requires a <= b <= |d|
    ensures d[..b] == d[..a] + d[a..b]
  {
  }

  /** Sub-spans that exactly tile the span reassemble into it. */
  lemma ConcatBlocks(d: seq<real>, sizes: seq<nat>)
    requires Sum(sizes) == |d|
    ensures Concat(Blocks(d, sizes, |sizes|)) == d
  {
    ConcatBlocksPrefix(d, sizes, |sizes|);
    OffsetFull(sizes);
  }

  /** Reading sub-span k of a concatenation gives part k back. */
  lemma BlockOfConcat(parts: seq<seq<real>>, k: nat)
    requires k < |parts|
    ensures Sum(Lengths(parts)) <= |Concat(parts)|
    ensures Block(Concat(parts), Lengths(parts), k) == parts[k]
  {
    ConcatLength(parts);
    ConcatBlock(parts, k);
    assert Lengths(parts)[..k] == Lengths(parts[..k]);
  }
}
