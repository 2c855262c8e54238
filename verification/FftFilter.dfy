/** The overlap-add filter (fft-filters.cpp).  The transform, the product with the transformed kernel and the
    inverse transform are taken together for what they mean: circular convolution. */
module FftFilter {
  import opened Convolution
  import opened Modulo

  class FftFilter<C(!new)> {
    const field: Field<C>
    const fftSize: nat
    const overlapSize: nat
    const numOfSamples: nat
    /** The kernel as it was before its transformation to filterVector. */
    const h: seq<C>
    const fftA: array<C>
    const fftC: array<C>
    const overloop: array<C>
    var inp: nat
    /** All samples passed so far, and how many of them belong to complete blocks. */
    ghost var history: seq<C>
    ghost var start: nat

    /** Sample j that the filter should put out for the block that begins at block, and element j of the block's
        own convolution. */
    ghost const wanted: (seq<C>, int, int) -> C
    ghost const convolved: (seq<C>, int, int) -> C

    /** The two are needed for these arguments. */
    ghost predicate Meant(samples: seq<C>, block: int, j: int) {
      true
    }

    ghost predicate Shape()
      reads this
    {
      && field.Lawful() && numOfSamples > 0 && fftSize == numOfSamples + overlapSize && |h| == overlapSize
      && fftA.Length == fftSize == fftC.Length && overloop.Length == overlapSize
      && fftA != fftC && fftA != overloop && fftC != overloop
      && (forall s, b, j {:trigger Meant(s, b, j)} :: Meant(s, b, j) ==>
            && wanted(s, b, j) == field.gain(field.OverlapAdd(h, s, numOfSamples, b, j))
            && convolved(s, b, j) == field.gain(field.Linear(h, field.Block(s, numOfSamples, b), j)))
    }

    /** Sample j of the block that begins at block is what the filter should put out. */
    ghost predicate Output(j: int, samples: seq<C>, block: int)
      requires 0 <= j < fftC.Length
      reads fftC
    {
      fftC[j] == wanted(samples, block, j)
    }

    /** Element j of the inverse transform is that of the block's convolution. */
    ghost predicate Raw(j: int, samples: seq<C>, block: int)
      requires 0 <= j < fftC.Length
      reads fftC
    {
      fftC[j] == convolved(samples, block, j)
    }

    /** Element j behind the block's end is kept. */
    ghost predicate Tail(j: int, samples: seq<C>, block: int)
      requires 0 <= j < overloop.Length
      reads overloop
    {
      overloop[j] == convolved(samples, block, numOfSamples + j)
    }

    ghost predicate Filtered(samples: seq<C>, block: int)
      reads this, fftC, overloop
    {
      && Shape()
      && (forall j {:trigger Output(j, samples, block)} :: 0 <= j < numOfSamples ==> Output(j, samples, block))
      && Tails(samples, block)
    }

    ghost predicate Tails(samples: seq<C>, block: int)
      requires overloop.Length == overlapSize
      reads overloop
    {
      forall j {:trigger Tail(j, samples, block)} :: 0 <= j < overlapSize ==> Tail(j, samples, block)
    }

    ghost predicate Valid()
      reads this, fftA, fftC, overloop
    {
      && Filtered(history, start - numOfSamples)
      && inp < numOfSamples && |history| == start + inp && fftA[..inp] == history[start..]
      && start % numOfSamples == 0
    }

    /** The constructor and setLowPass or setBand with their kernel. */
    constructor (field: Field<C>, fftSize: nat, h: seq<C>)
      requires field.Lawful() && |h| < fftSize
      ensures Valid() && history == [] && inp == 0
      ensures fresh(fftA) && fresh(fftC) && fresh(overloop)
      ensures this.field == field && this.h == h && numOfSamples == fftSize - |h|
    {
      this.field, this.fftSize, this.h := field, fftSize, h;
      var n := fftSize - |h|;
      overlapSize, numOfSamples := |h|, n;
      wanted, convolved := Wanted(field, h, n), Convolved(field, h, n);
      var a := NewVector(fftSize, field.zero);
      var c := NewVector(fftSize, field.zero);
      var o := NewVector(|h|, field.zero);
      fftA, fftC, overloop := a, c, o;
      inp, history, start := 0, [], 0;
      new;
      Silent();
    }

    /** Nothing has come in and nothing is put out. */
    lemma Silent()
      requires Shape() && history == [] && start == 0
      requires (forall j :: 0 <= j < fftSize ==> fftC[j] == field.zero)
               && (forall j :: 0 <= j < overlapSize ==> overloop[j] == field.zero)
      ensures Filtered(history, start - numOfSamples)
    {
      var block := start - numOfSamples;
      forall j | 0 <= j < numOfSamples
        ensures Output(j, history, block)
      {
        assert Meant(history, block, j);
        NothingYet(field, h, numOfSamples, j);
      }
      forall j | 0 <= j < overlapSize
        ensures Tail(j, history, block)
      {
        assert Meant(history, block, numOfSamples + j);
        SilentBlock(field, h, numOfSamples, block, numOfSamples + j);
      }
    }

    /** fftFilter::Pass: the sample put out belongs to the block before; a complete block is filtered. */
    method Pass(z: C) returns (r: C)
      requires Valid()
      modifies this, fftA, fftC, overloop
      ensures Valid() && history == old(history) + [z]
      ensures r == field.gain(field.Streamed(h, old(history), numOfSamples, |old(history)|))
    {
      r := Answer();
      Take(z);
      if inp >= numOfSamples {
        Complete();
      }
    }

    method Complete()
      requires Shape() && inp == numOfSamples && |history| == start + inp && start % numOfSamples == 0
      requires Tails(history, start - numOfSamples) && fftA[..numOfSamples] == history[start..]
      modifies `inp, `start, fftA, fftC, overloop
      ensures Valid()
    {
      inp := 0;
      Phase();
      Transform();
      AddOverlap();
    }

    method Answer() returns (r: C)
      requires Valid()
      ensures r == field.gain(field.Streamed(h, history, numOfSamples, |history|))
    {
      Phase();
      assert Meant(history, start - numOfSamples, inp);
      assert Output(inp, history, start - numOfSamples);
      r := fftC[inp];
    }

    method Take(z: C)
      requires Valid()
      modifies `inp, `history, fftA
      ensures inp == old(inp) + 1 <= numOfSamples && history == old(history) + [z] && |history| == start + inp
      ensures Filtered(history, start - numOfSamples) && fftA[..inp] == history[start..]
    {
      fftA[inp] := z;
      inp := inp + 1;
      assert fftA[..inp] == old(history[start..]) + [z];
      Remember(z);
    }

    lemma Phase()
      requires numOfSamples > 0 && start % numOfSamples == 0
      ensures inp < numOfSamples && |history| == start + inp ==> |history| % numOfSamples == inp
      ensures (start + numOfSamples) % numOfSamples == 0
    {
      var q := start / numOfSamples;
      assert start == numOfSamples * q;
      if inp < numOfSamples {
        Unique(start + inp, numOfSamples, q, inp);
      }
      assert start + numOfSamples == numOfSamples * (q + 1);
      Unique(start + numOfSamples, numOfSamples, q + 1, 0);
    }

    /** What was right for the samples so far is right with one more. */
    ghost method Remember(z: C)
      requires Filtered(history, start - numOfSamples) && start <= |history|
      modifies `history
      ensures history == old(history) + [z] && Filtered(history, start - numOfSamples)
    {
      ghost var before, block := history, start - numOfSamples;
      history := history + [z];
      field.BlockLooksBack(before, z, numOfSamples, block);
      field.BlockLooksBack(before, z, numOfSamples, block - numOfSamples);
      forall j | 0 <= j < numOfSamples
        ensures Output(j, history, block)
      {
        assert Output(j, before, block) && Meant(before, block, j) && Meant(history, block, j);
      }
      forall j | 0 <= j < overlapSize
        ensures Tail(j, history, block)
      {
        assert Tail(j, before, block) && Meant(before, block, numOfSamples + j)
               && Meant(history, block, numOfSamples + j);
      }
    }

    /** The padding, the transforms and the gain. */
    method Transform()
      requires Shape() && |history| == start + numOfSamples && fftA[..numOfSamples] == history[start..]
      modifies fftA, fftC
      ensures forall j {:trigger Raw(j, history, start)} :: 0 <= j < fftSize ==> Raw(j, history, start)
    {
      Pad();
      var a := fftA[..];
      Padded(a);
      Convolve(a);
    }

    method Pad()
      requires Shape()
      modifies fftA
      ensures fftA[..numOfSamples] == old(fftA[..numOfSamples])
      ensures forall j :: numOfSamples <= j < fftSize ==> fftA[j] == field.zero
    {
      var i := numOfSamples;
      while i < fftSize
        invariant numOfSamples <= i <= fftSize && fftA[..numOfSamples] == old(fftA[..numOfSamples])
        invariant forall j :: numOfSamples <= j < i ==> fftA[j] == field.zero
      {
        fftA[i] := field.zero;
        i := i + 1;
      }
    }

    method Convolve(a: seq<C>)
      requires Shape() && forall k :: field.At(a, k) == field.At(field.Block(history, numOfSamples, start), k)
      modifies fftC
      ensures forall j {:trigger Raw(j, history, start)} :: 0 <= j < fftSize ==> Raw(j, history, start)
    {
      var i := 0;
      while i < fftSize
        invariant 0 <= i <= fftSize
        invariant forall j {:trigger Raw(j, history, start)} :: 0 <= j < i ==> Raw(j, history, start)
      {
        FilteredElement(a, i);
        PutElement(i, field.gain(field.Circular(h, a, fftSize, i)));
        i := i + 1;
      }
    }

    method PutElement(i: nat, v: C)
      requires i < fftC.Length && v == convolved(history, start, i)
      modifies fftC
      ensures Raw(i, history, start)
      ensures forall j {:trigger Raw(j, history, start)} :: 0 <= j < i && old(Raw(j, history, start)) ==>
              Raw(j, history, start)
    {
      fftC[i] := v;
    }

    lemma Padded(a: seq<C>)
      requires |history| == start + numOfSamples && |a| == fftSize >= numOfSamples
               && a[..numOfSamples] == history[start..]
      requires forall j :: numOfSamples <= j < fftSize ==> a[j] == field.zero
      ensures forall k :: field.At(a, k) == field.At(field.Block(history, numOfSamples, start), k)
    {
      forall k
        ensures field.At(a, k) == field.At(field.Block(history, numOfSamples, start), k)
      {
        assert 0 <= k < numOfSamples ==> a[k] == a[..numOfSamples][k] == history[start..][k];
      }
    }

    lemma FilteredElement(a: seq<C>, i: nat)
      requires Shape() && i < fftSize
               && forall k :: field.At(a, k) == field.At(field.Block(history, numOfSamples, start), k)
      ensures field.gain(field.Circular(h, a, fftSize, i)) == convolved(history, start, i)
    {
      assert Meant(history, start, i);
      var block := field.Block(history, numOfSamples, start);
      field.PaddingIsSilent(h, a, block, fftSize, i);
      field.CircularIsLinear(h, block, i);
    }

    /** The tail of the block before is added to the front, and the tail of this block kept. */
    method AddOverlap()
      requires Shape() && inp == 0 && |history| == start + numOfSamples && Tails(history, start - numOfSamples)
      requires (start + numOfSamples) % numOfSamples == 0
      requires forall j {:trigger Raw(j, history, start)} :: 0 <= j < fftSize ==> Raw(j, history, start)
      modifies `start, fftC, overloop
      ensures Valid() && start == |history|
    {
      Overlap(history, start, start - numOfSamples);
      start := start + numOfSamples;
    }

    method Overlap(ghost samples: seq<C>, ghost block: int, ghost before: int)
      requires Shape() && before == block - numOfSamples
      requires Tails(samples, before)
      requires forall j {:trigger Raw(j, samples, block)} :: 0 <= j < fftSize ==> Raw(j, samples, block)
      modifies fftC, overloop
      ensures Filtered(samples, block)
    {
      var j := 0;
      while j < overlapSize
        invariant 0 <= j <= overlapSize
        invariant forall k {:trigger Output(k, samples, block)} :: 0 <= k < j ==> Output(k, samples, block)
        invariant forall k {:trigger Tail(k, samples, block)} :: 0 <= k < j ==> Tail(k, samples, block)
        invariant forall k {:trigger Tail(k, samples, before)} :: j <= k < overlapSize ==> Tail(k, samples, before)
        invariant forall k {:trigger Raw(k, samples, block)} :: j <= k < fftSize ==> Raw(k, samples, block)
        modifies fftC, overloop
      {
        OverlapOne(j, samples, block, before);
        j := j + 1;
      }
      forall k | 0 <= k < numOfSamples
        ensures Output(k, samples, block)
      {
        assert k >= overlapSize ==> Raw(k, samples, block);
        assert Meant(samples, block, k);
      }
    }

    method OverlapOne(j: nat, ghost samples: seq<C>, ghost block: int, ghost before: int)
      requires Shape() && before == block - numOfSamples && j < overlapSize
      requires Tail(j, samples, before) && Raw(j, samples, block) && Raw(numOfSamples + j, samples, block)
      modifies fftC, overloop
      ensures Output(j, samples, block) && Tail(j, samples, block)
      ensures forall k {:trigger Output(k, samples, block)} ::
                0 <= k < fftSize && k != j && old(Output(k, samples, block)) ==> Output(k, samples, block)
      ensures forall k {:trigger Raw(k, samples, block)} ::
                0 <= k < fftSize && k != j && old(Raw(k, samples, block)) ==> Raw(k, samples, block)
      ensures forall k {:trigger Tail(k, samples, block)} ::
                0 <= k < overlapSize && k != j && old(Tail(k, samples, block)) ==> Tail(k, samples, block)
      ensures forall k {:trigger Tail(k, samples, before)} ::
                0 <= k < overlapSize && k != j && old(Tail(k, samples, before)) ==> Tail(k, samples, before)
    {
      Gains(j, samples, block);
      fftC[j] := field.add(fftC[j], overloop[j]);
      overloop[j] := fftC[numOfSamples + j];
    }

    lemma Gains(j: nat, samples: seq<C>, block: int)
      requires Shape() && j < overlapSize
      ensures field.add(convolved(samples, block, j), convolved(samples, block - numOfSamples, numOfSamples + j))
           == wanted(samples, block, j)
    {
      assert Meant(samples, block, j) && Meant(samples, block - numOfSamples, numOfSamples + j);
      assert field.GainLaws(field.Linear(h, field.Block(samples, numOfSamples, block), j),
                            field.Linear(h, field.Block(samples, numOfSamples, block - numOfSamples),
                                         numOfSamples + j));
    }
  }

  lemma SilentBlock<C(!new)>(field: Field<C>, h: seq<C>, n: nat, start: int, m: int)
    requires field.Lawful() && start + n <= 0
    ensures field.Linear(h, field.Block([], n, start), m) == field.zero
    ensures field.gain(field.zero) == field.zero
  {
    var a := field.Block([], n, start);
    var f := field.LinearTerm(h, a, m);
    forall k | 0 <= k < n
      ensures f(k) == field.zero
    {
      assert field.At(a, k) == field.zero;
      assert field.MulLaws(field.At(h, m - k));
    }
    field.NoTerms(f, 0, n);
    assert field.GainLaws(field.zero, field.zero);
  }

  lemma NothingYet<C(!new)>(field: Field<C>, h: seq<C>, n: nat, j: int)
    requires field.Lawful() && n > 0
    ensures field.gain(field.OverlapAdd(h, [], n, 0 - n, j)) == field.zero
  {
    SilentBlock(field, h, n, 0 - n, j);
    SilentBlock(field, h, n, 0 - n - n, n + j);
    assert field.AddLaws(field.zero, field.zero, field.zero);
  }

  method NewVector<C>(n: nat, z: C) returns (a: array<C>)
    ensures fresh(a) && a.Length == n && forall i :: 0 <= i < n ==> a[i] == z
  {
    a := new C[n](_ => z);
  }

  ghost function Wanted<C(!new)>(field: Field<C>, h: seq<C>, n: nat): (seq<C>, int, int) -> C {
    (s, b, j) => field.gain(field.OverlapAdd(h, s, n, b, j))
  }

  ghost function Convolved<C(!new)>(field: Field<C>, h: seq<C>, n: nat): (seq<C>, int, int) -> C {
    (s, b, j) => field.gain(field.Linear(h, field.Block(s, n, b), j))
  }
}
