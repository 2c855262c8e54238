/** Sums and convolutions over any commutative addition with a product that vanishes at zero: what direct and
    fast filters have in common. */
module Convolution {
  import opened Modulo

  datatype Field<!C(!new)> = Field(zero: C, add: (C, C) -> C, mul: (C, C) -> C, gain: C -> C)
  {
    ghost predicate AddLaws(x: C, y: C, z: C) {
      add(add(x, y), z) == add(x, add(y, z)) && add(x, y) == add(y, x) && add(x, zero) == x
    }

    ghost predicate MulLaws(x: C) {
      mul(x, zero) == zero && mul(zero, x) == zero
    }

    ghost predicate GainLaws(x: C, y: C) {
      gain(add(x, y)) == add(gain(x), gain(y)) && gain(zero) == zero
    }

    ghost predicate Lawful() {
      && (forall x, y, z :: AddLaws(x, y, z))
      && (forall x :: MulLaws(x))
      && (forall x, y :: GainLaws(x, y))
    }

    // ----- sums

    /** f(lo) + ... + f(hi - 1) */
    function Sum(f: int -> C, lo: int, hi: int): C
      decreases hi - lo
    {
      if hi <= lo then zero else add(Sum(f, lo, hi - 1), f(hi - 1))
    }

    lemma {:induction false} SameTerms(f: int -> C, g: int -> C, lo: int, hi: int)
      requires forall i :: lo <= i < hi ==> f(i) == g(i)
      ensures Sum(f, lo, hi) == Sum(g, lo, hi)
      decreases hi - lo
    {
      if lo < hi {
        SameTerms(f, g, lo, hi - 1);
      }
    }

    lemma {:induction false} ShiftedTerms(f: int -> C, g: int -> C, lo: int, hi: int, d: int)
      requires forall i :: lo <= i < hi ==> f(i) == g(i + d)
      ensures Sum(f, lo, hi) == Sum(g, lo + d, hi + d)
      decreases hi - lo
    {
      if lo < hi {
        ShiftedTerms(f, g, lo, hi - 1, d);
      }
    }

    lemma {:induction false} NoTerms(f: int -> C, lo: int, hi: int)
      requires Lawful() && forall i :: lo <= i < hi ==> f(i) == zero
      ensures Sum(f, lo, hi) == zero
      decreases hi - lo
    {
      if lo < hi {
        NoTerms(f, lo, hi - 1);
        assert AddLaws(zero, zero, zero);
      }
    }

    lemma {:induction false} SplitSum(f: int -> C, lo: int, mid: int, hi: int)
      requires Lawful() && lo <= mid <= hi
      ensures Sum(f, lo, hi) == add(Sum(f, lo, mid), Sum(f, mid, hi))
      decreases hi - mid
    {
      if mid == hi {
        assert AddLaws(Sum(f, lo, mid), zero, zero);
      } else {
        SplitSum(f, lo, mid, hi - 1);
        assert AddLaws(Sum(f, lo, mid), Sum(f, mid, hi - 1), f(hi - 1));
      }
    }

    /** Only the terms from a to b count. */
    lemma FewTerms(f: int -> C, lo: int, a: int, b: int, hi: int)
      requires Lawful() && lo <= a <= b <= hi
      requires forall i :: lo <= i < hi && !(a <= i < b) ==> f(i) == zero
      ensures Sum(f, lo, hi) == Sum(f, a, b)
    {
      SplitSum(f, lo, a, hi);
      SplitSum(f, a, b, hi);
      NoTerms(f, lo, a);
      NoTerms(f, b, hi);
      assert AddLaws(Sum(f, a, b), zero, zero) && AddLaws(zero, Sum(f, a, b), zero);
    }

    /** The terms in reverse order. */
    lemma {:induction false} ReversedTerms(f: int -> C, g: int -> C, n: nat, t: int)
      requires Lawful() && forall i :: 0 <= i < n ==> f(i) == g(t - i)
      ensures Sum(f, 0, n) == Sum(g, t - n + 1, t + 1)
      decreases n
    {
      if n > 0 {
        ReversedTerms(f, g, n - 1, t);
        var p := t - n + 1;
        SplitSum(g, p, p + 1, t + 1);
        assert Sum(g, p, p + 1) == add(zero, g(p));
        assert AddLaws(zero, g(p), zero) && AddLaws(g(p), zero, zero) && AddLaws(g(p), Sum(g, p + 1, t + 1), zero);
      }
    }

    lemma {:induction false} GainOfSum(f: int -> C, g: int -> C, lo: int, hi: int)
      requires Lawful() && forall i :: lo <= i < hi ==> g(i) == gain(f(i))
      ensures Sum(g, lo, hi) == gain(Sum(f, lo, hi))
      decreases hi - lo
    {
      if lo < hi {
        GainOfSum(f, g, lo, hi - 1);
        assert GainLaws(Sum(f, lo, hi - 1), f(hi - 1));
      } else {
        assert GainLaws(zero, zero);
      }
    }

    // ----- filters

    function At(x: seq<C>, t: int): C {
      if 0 <= t < |x| then x[t] else zero
    }

    function DirectTerm(h: seq<C>, x: seq<C>, t: int): int -> C {
      i => mul(At(x, t - i), At(h, i))
    }

    /** The output of the filter with kernel h at time t: the convolution of the last |h| inputs. */
    function Direct(h: seq<C>, x: seq<C>, t: int): C {
      Sum(DirectTerm(h, x, t), 0, |h|)
    }

    lemma DirectLooksBack(h: seq<C>, x: seq<C>, y: seq<C>, t: int)
      requires t < |x| && x <= y
      ensures Direct(h, x, t) == Direct(h, y, t)
    {
      var f, g := DirectTerm(h, x, t), DirectTerm(h, y, t);
      forall i | 0 <= i < |h|
        ensures f(i) == g(i)
      {
        assert At(x, t - i) == At(y, t - i);
      }
      SameTerms(f, g, 0, |h|);
    }

    /** FFT, product with the transformed kernel, inverse FFT: circular convolution of size s. */
    function Circular(h: seq<C>, a: seq<C>, s: nat, m: int): C
      requires s > 0
    {
      Sum(CircularTerm(h, a, s, m), 0, s)
    }

    function CircularTerm(h: seq<C>, a: seq<C>, s: nat, m: int): int -> C
      requires s > 0
    {
      n => mul(At(a, n), At(h, (m - n) % s))
    }

    function LinearTerm(h: seq<C>, a: seq<C>, m: int): int -> C {
      n => mul(At(a, n), At(h, m - n))
    }

    /** Without wrap-around. */
    function Linear(h: seq<C>, a: seq<C>, m: int): C {
      Sum(LinearTerm(h, a, m), 0, |a|)
    }

    lemma CircularIsLinear(h: seq<C>, a: seq<C>, m: int)
      requires Lawful() && 0 <= m < |a| + |h|
      ensures Circular(h, a, |a| + |h|, m) == Linear(h, a, m)
    {
      var s := |a| + |h|;
      var f, g := CircularTerm(h, a, s, m), LinearTerm(h, a, m);
      forall n | |a| <= n < s
        ensures f(n) == zero
      {
        assert MulLaws(At(h, (m - n) % s));
      }
      FewTerms(f, 0, 0, |a|, s);
      forall n | 0 <= n < |a|
        ensures f(n) == g(n)
      {
        Wrap(m - n, s);
        assert At(h, (m - n) % s) == At(h, m - n);
      }
      SameTerms(f, g, 0, |a|);
    }

    lemma Wrap(d: int, s: int)
      requires -s < d < s
      ensures d % s == if d < 0 then d + s else d
    {
    }

    /** Zeros behind the samples change nothing. */
    lemma PaddingIsSilent(h: seq<C>, a: seq<C>, b: seq<C>, s: nat, m: int)
      requires s > 0 && forall i :: At(a, i) == At(b, i)
      ensures Circular(h, a, s, m) == Circular(h, b, s, m)
    {
      SameTerms(CircularTerm(h, a, s, m), CircularTerm(h, b, s, m), 0, s);
    }

    // ----- overlap and add

    /** The n samples of a stream from start on. */
    function Block(x: seq<C>, n: nat, start: int): (r: seq<C>)
      ensures |r| == n && forall i :: 0 <= i < n ==> r[i] == At(x, start + i)
    {
      seq(n, i requires 0 <= i < n => At(x, start + i))
    }

    lemma BlockLooksBack(x: seq<C>, z: C, n: nat, start: int)
      requires start + n <= |x|
      ensures Block(x + [z], n, start) == Block(x, n, start)
    {
      var a, b := Block(x + [z], n, start), Block(x, n, start);
      assert forall i :: 0 <= i < n ==> a[i] == b[i];
    }

    /** What the filter puts out for sample j of the block at start: the block's own convolution and, for the
        first |h| samples, the tail that the block before has left. */
    function OverlapAdd(h: seq<C>, x: seq<C>, n: nat, start: int, j: int): C {
      var own := Linear(h, Block(x, n, start), j);
      if j < |h| then add(own, Linear(h, Block(x, n, start - n), n + j)) else own
    }

    /** One term of the output at time t. */
    function Term(h: seq<C>, x: seq<C>, t: int): int -> C {
      p => mul(At(x, p), At(h, t - p))
    }

    /** A block's convolution as a sum over the positions in the stream. */
    lemma BlockSum(h: seq<C>, x: seq<C>, n: nat, start: int, t: int)
      ensures Linear(h, Block(x, n, start), t - start) == Sum(Term(h, x, t), start, start + n)
    {
      var a, m := Block(x, n, start), t - start;
      var f, g := LinearTerm(h, a, m), Term(h, x, t);
      assert forall i :: 0 <= i < n ==> f(i) == g(i + start);
      ShiftedTerms(f, g, 0, n, start);
    }

    lemma DirectSum(h: seq<C>, x: seq<C>, t: int)
      requires Lawful()
      ensures Direct(h, x, t) == Sum(Term(h, x, t), t - |h| + 1, t + 1)
    {
      ReversedTerms(DirectTerm(h, x, t), Term(h, x, t), |h|, t);
    }

    lemma NoKernel(h: seq<C>, x: seq<C>, t: int, lo: int, hi: int)
      requires Lawful() && (hi <= t - |h| + 1 || lo > t)
      ensures Sum(Term(h, x, t), lo, hi) == zero
    {
      forall p | lo <= p < hi
        ensures Term(h, x, t)(p) == zero
      {
        assert MulLaws(At(x, p));
      }
      NoTerms(Term(h, x, t), lo, hi);
    }

    lemma TwoBlocks(h: seq<C>, x: seq<C>, n: nat, start: int, j: int)
      requires Lawful() && 0 <= j < n
      ensures OverlapAdd(h, x, n, start, j) == Sum(Term(h, x, start + j), start - n, start + n)
    {
      var f := Term(h, x, start + j);
      BlockSum(h, x, n, start, start + j);
      BlockSum(h, x, n, start - n, start + j);
      SplitSum(f, start - n, start, start + n);
      var tail, own := Sum(f, start - n, start), Sum(f, start, start + n);
      if j >= |h| {
        NoKernel(h, x, start + j, start - n, start);
      }
      assert AddLaws(tail, own, zero) && AddLaws(own, zero, zero);
    }

    /** Overlap-add is the direct filter, as long as a kernel reaches back no further than one block. */
    lemma OverlapAddIsDirect(h: seq<C>, x: seq<C>, n: nat, start: int, j: int)
      requires Lawful() && 0 <= j < n && |h| <= n + 1
      ensures OverlapAdd(h, x, n, start, j) == Direct(h, x, start + j)
    {
      var sum := Sum(Term(h, x, start + j), start + j - |h| + 1, start + j + 1);
      OverlapAddOfKernel(h, x, n, start, j, sum);
      DirectOfKernel(h, x, start + j, sum);
    }

    lemma DirectOfKernel(h: seq<C>, x: seq<C>, t: int, sum: C)
      requires Lawful() && sum == Sum(Term(h, x, t), t - |h| + 1, t + 1)
      ensures Direct(h, x, t) == sum
    {
      DirectSum(h, x, t);
    }

    lemma OverlapAddOfKernel(h: seq<C>, x: seq<C>, n: nat, start: int, j: int, sum: C)
      requires Lawful() && 0 <= j < n && |h| <= n + 1
      requires sum == Sum(Term(h, x, start + j), start + j - |h| + 1, start + j + 1)
      ensures OverlapAdd(h, x, n, start, j) == sum
    {
      TwoBlocks(h, x, n, start, j);
      OnlyTheKernel(h, x, start + j, start - n, start + n);
    }

    lemma OnlyTheKernel(h: seq<C>, x: seq<C>, t: int, lo: int, hi: int)
      requires Lawful() && lo <= t - |h| + 1 && t < hi
      ensures Sum(Term(h, x, t), lo, hi) == Sum(Term(h, x, t), t - |h| + 1, t + 1)
    {
      KernelReaches(h, x, t, Term(h, x, t));
      FewTerms(Term(h, x, t), lo, t - |h| + 1, t + 1, hi);
    }

    lemma KernelReaches(h: seq<C>, x: seq<C>, t: int, f: int -> C)
      requires Lawful() && f == Term(h, x, t)
      ensures forall p :: !(t - |h| + 1 <= p < t + 1) ==> f(p) == zero
    {
      forall p | !(t - |h| + 1 <= p < t + 1)
        ensures f(p) == zero
      {
        assert MulLaws(At(x, p));
      }
    }

    function Impulse(one: C, n: nat, k: nat): (r: seq<C>)
      ensures |r| == n
    {
      seq(n, i requires 0 <= i < n => if i == k then one else zero)
    }

    lemma OneTerm(f: int -> C, p: int)
      requires Lawful()
      ensures Sum(f, p, p + 1) == f(p)
    {
      assert Sum(f, p, p) == zero;
      assert AddLaws(zero, f(p), zero) && AddLaws(f(p), zero, zero);
    }

    lemma ImpulseAt(one: C, n: nat, k: nat, i: int)
      requires k < n
      ensures At(Impulse(one, n, k), i) == if i == k then one else zero
    {
    }

    /** With a longer kernel it is not: the answer to an impulse at the end of the first block, delayed by |h| - 1,
        is lost. */
    lemma LongKernelsFail(one: C, n: nat, k: nat, b: nat, j: nat)
      requires Lawful() && k >= n + 2 && mul(one, one) != zero && j < n && b * n + j == n + k - 2
      ensures var h, x := Impulse(one, k, k - 1), Impulse(one, n, n - 1);
              Direct(h, x, b * n + j) != zero && OverlapAdd(h, x, n, b * n, j) == zero
    {
      LateBlock(b, n);
      DirectAnswer(one, n, k, b * n + j);
      LostAnswer(one, n, k, b * n, j);
    }

    lemma DirectAnswer(one: C, n: nat, k: nat, t: nat)
      requires Lawful() && n > 0 && k > 0 && t == n + k - 2
      ensures Direct(Impulse(one, k, k - 1), Impulse(one, n, n - 1), t) == mul(one, one)
    {
      var h, x := Impulse(one, k, k - 1), Impulse(one, n, n - 1);
      DirectSum(h, x, t);
      ImpulseSum(one, n, k, t, t - k + 1, t + 1);
    }

    lemma LostAnswer(one: C, n: nat, k: nat, start: nat, j: nat)
      requires Lawful() && k >= n + 2 && j < n && start + j == n + k - 2 && start >= 2 * n
      ensures OverlapAdd(Impulse(one, k, k - 1), Impulse(one, n, n - 1), n, start, j) == zero
    {
      TwoBlocks(Impulse(one, k, k - 1), Impulse(one, n, n - 1), n, start, j);
      ImpulseSum(one, n, k, start + j, start - n, start + n);
    }

    lemma ImpulseSum(one: C, n: nat, k: nat, t: int, lo: int, hi: int)
      requires Lawful() && n > 0 && k > 0 && t == n + k - 2 && lo <= hi
      ensures Sum(Term(Impulse(one, k, k - 1), Impulse(one, n, n - 1), t), lo, hi)
           == if lo <= n - 1 < hi then mul(one, one) else zero
    {
      var f := Term(Impulse(one, k, k - 1), Impulse(one, n, n - 1), t);
      ImpulseTerms(one, n, k, t, f);
      SingleTerm(f, mul(one, one), n - 1, lo, hi);
    }

    lemma SingleTerm(f: int -> C, v: C, q: int, lo: int, hi: int)
      requires Lawful() && lo <= hi && forall p :: f(p) == if p == q then v else zero
      ensures Sum(f, lo, hi) == if lo <= q < hi then v else zero
    {
      if lo <= q < hi {
        FewTerms(f, lo, q, q + 1, hi);
        OneTerm(f, q);
      } else {
        NoTerms(f, lo, hi);
      }
    }

    lemma ImpulseTerms(one: C, n: nat, k: nat, t: int, f: int -> C)
      requires Lawful() && n > 0 && k > 0 && t == n + k - 2
               && f == Term(Impulse(one, k, k - 1), Impulse(one, n, n - 1), t)
      ensures forall p :: f(p) == if p == n - 1 then mul(one, one) else zero
    {
      forall p
        ensures f(p) == if p == n - 1 then mul(one, one) else zero
      {
        ImpulseAt(one, n, n - 1, p);
        ImpulseAt(one, k, k - 1, t - p);
        assert MulLaws(zero);
      }
    }

    lemma LateBlock(b: nat, n: nat)
      requires b * n > n
      ensures b * n >= 2 * n
    {
      if b >= 2 {
        Monotone(2, b, n);
      } else {
        Monotone(b, 1, n);
      }
    }

    lemma Monotone(a: nat, b: nat, n: nat)
      requires a <= b
      ensures a * n <= b * n
    {
    }

    /** The output of the overlap-add filter at time t, with blocks of n samples. */
    function Streamed(h: seq<C>, x: seq<C>, n: nat, t: nat): C
      requires n > 0
    {
      OverlapAdd(h, x, n, t - t % n - n, t % n)
    }

    /** The overlap-add filter with kernels of length k is the direct filter, one block late. */
    ghost predicate AlwaysDirect(n: nat, k: nat)
      requires n > 0
    {
      forall h: seq<C>, x: seq<C>, t: nat :: |h| == k ==> Streamed(h, x, n, t + n) == Direct(h, x, t)
    }

    /** And that it is if and only if k is at most one more than the block. */
    lemma StreamedIsDirect(one: C, n: nat, k: nat)
      requires Lawful() && n > 0 && mul(one, one) != zero
      ensures AlwaysDirect(n, k) <==> k <= n + 1
    {
      if k <= n + 1 {
        forall h: seq<C>, x: seq<C>, t: nat | |h| == k
          ensures Streamed(h, x, n, t + n) == Direct(h, x, t)
        {
          OneTurn(t, n);
          OverlapAddIsDirect(h, x, n, t - t % n, t % n);
        }
      } else {
        var t := n + k - 2;
        OneTurn(t, n);
        LongKernelsFail(one, n, k, t / n, t % n);
        assert |Impulse(one, k, k - 1)| == k;
      }
    }

    /** On one stream: the fast filter, given sample t + n, answers what the direct filter answered to sample t. */
    lemma FastFollowsDirect(h: seq<C>, x: seq<C>, n: nat, t: nat)
      requires Lawful() && n > 0 && |h| <= n + 1 && t + n <= |x|
      ensures Streamed(h, x[..t + n], n, t + n) == Direct(h, x[..t + 1], t)
    {
      OneTurn(t, n);
      OverlapAddIsDirect(h, x[..t + n], n, t - t % n, t % n);
      DirectLooksBack(h, x[..t + 1], x[..t + n], t);
    }

    lemma OneTurn(t: nat, n: nat)
      requires n > 0
      ensures (t + n) % n == t % n && t / n * n + t % n == t
    {
      assert t == n * (t / n) + t % n;
      assert t + n == n * (t / n + 1) + t % n;
      Unique(t + n, n, t / n + 1, t % n);
    }
  }
}
