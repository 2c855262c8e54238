/** The direct filters on their circular buffers (fir-filters.h, fir-filters.cpp). */
module FirFilters {
  import opened Convolution
  import opened Modulo

  /** Place k of a ring of the given size, k counted back from its front by less than a turn. */
  function Turn(k: int, size: nat): int {
    if k < 0 then k + size else k
  }

  class BasicFir<C(!new)> {
    const field: Field<C>
    const filterSize: nat
    const kernel: array<C>
    const buffer: array<C>
    var ip: nat
    /** All samples passed so far. */
    ghost var history: seq<C>

    ghost predicate Valid()
      reads this, kernel, buffer
    {
      && filterSize > 0 && kernel.Length == filterSize == buffer.Length && kernel != buffer && ip < filterSize
      && forall i {:trigger Holds(i, ip - 1, history)} :: 0 <= i < filterSize ==> Holds(i, ip - 1, history)
    }

    /** i places back from front stands the sample of i steps ago. */
    ghost predicate Holds(i: int, front: int, samples: seq<C>)
      requires 0 <= i < filterSize && -1 <= front < filterSize == buffer.Length
      reads buffer
    {
      buffer[Turn(front - i, filterSize)] == field.At(samples, |samples| - 1 - i)
    }

    constructor (field: Field<C>, h: seq<C>)
      requires h != []
      ensures Valid() && history == [] && fresh(kernel) && fresh(buffer)
      ensures this.field == field && kernel[..] == h
    {
      this.field, filterSize := field, |h|;
      kernel := new C[|h|](i requires 0 <= i < |h| => h[i]);
      buffer := new C[|h|](_ => field.zero);
      ip, history := 0, [];
    }

    /** Basic_FIR::Pass: the convolution of the last filterSize samples. */
    method Pass(z: C) returns (r: C)
      requires Valid()
      modifies this, buffer
      ensures Valid() && history == old(history) + [z]
      ensures r == field.Direct(kernel[..], history, |old(history)|)
    {
      Put(z);
      ghost var f := field.DirectTerm(kernel[..], history, |history| - 1);
      r := field.zero;
      var i := 0;
      while i < filterSize
        invariant 0 <= i <= filterSize && r == field.Sum(f, 0, i)
      {
        var index := ip - i;
        if index < 0 {
          index := index + filterSize;
        }
        assert Holds(i, ip, history);
        r := field.add(r, field.mul(buffer[index], kernel[i]));
        i := i + 1;
      }
      Advance();
    }

    /** The new sample in its place; ip still points to it. */
    method Put(z: C)
      requires Valid()
      modifies `history, buffer
      ensures kernel[..] == old(kernel[..]) && history == old(history) + [z] && HoldsAll()
    {
      ghost var before := history;
      buffer[ip] := z;
      history := history + [z];
      forall i | 0 <= i < filterSize
        ensures Holds(i, ip, history)
      {
        assert i > 0 ==> old(Holds(i - 1, ip - 1, history));
      }
    }

    ghost predicate HoldsAll()
      requires filterSize == buffer.Length && ip < filterSize
      reads this, buffer
    {
      forall i {:trigger Holds(i, ip, history)} :: 0 <= i < filterSize ==> Holds(i, ip, history)
    }

    method Advance()
      requires filterSize > 0 && kernel.Length == filterSize == buffer.Length && kernel != buffer && ip < filterSize
               && HoldsAll()
      modifies `ip
      ensures Valid()
    {
      Next(ip, filterSize);
      ghost var front := ip;
      ip := (ip + 1) % filterSize;
      SamePlaces(front, ip - 1);
    }

    lemma SamePlaces(front: int, back: int)
      requires filterSize == buffer.Length && 0 <= front < filterSize
      requires back == front || (back == -1 && front == filterSize - 1)
      requires forall i {:trigger Holds(i, front, history)} :: 0 <= i < filterSize ==> Holds(i, front, history)
      ensures forall i {:trigger Holds(i, back, history)} :: 0 <= i < filterSize ==> Holds(i, back, history)
    {
      forall i | 0 <= i < filterSize
        ensures Holds(i, back, history)
      {
        assert Holds(i, front, history);
      }
    }
  }

  class DecimatingFir<C(!new)> {
    const fir: BasicFir<C>
    const decimationFactor: nat
    var decimationCounter: nat

    ghost predicate Valid()
      reads this, fir, fir.kernel, fir.buffer
    {
      decimationFactor > 0 && decimationCounter == |fir.history| % decimationFactor && fir.Valid()
    }

    constructor (field: Field<C>, h: seq<C>, decimationFactor: nat)
      requires h != [] && decimationFactor > 0
      ensures Valid() && fir.history == [] && fresh(fir) && fresh(fir.kernel) && fresh(fir.buffer)
      ensures fir.field == field && fir.kernel[..] == h && this.decimationFactor == decimationFactor
    {
      this.decimationFactor, decimationCounter := decimationFactor, 0;
      fir := new BasicFir(field, h);
    }

    /** decimatingFIR::Pass for complex samples: an output for every decimationFactor-th sample, summed up in two
        loops that need not wrap around. */
    method Pass(z: C) returns (ok: bool, out: C)
      requires Valid()
      modifies this, fir, fir.buffer
      ensures Valid() && fir.history == old(fir.history) + [z]
      ensures ok <==> |fir.history| % decimationFactor == 0
      ensures ok ==> out == fir.field.Direct(fir.kernel[..], fir.history, |old(fir.history)|)
    {
      CountOn(|fir.history|, decimationFactor);
      fir.Put(z);
      out := fir.field.zero;
      decimationCounter := decimationCounter + 1;
      if decimationCounter < decimationFactor {
        fir.Advance();
        return false, out;
      }
      decimationCounter := 0;
      out := Unwrapped();
      fir.Advance();
      ok := true;
    }

    method Unwrapped() returns (out: C)
      requires fir.filterSize > 0 && fir.kernel.Length == fir.filterSize == fir.buffer.Length
               && fir.ip < fir.filterSize && fir.HoldsAll()
      ensures out == fir.field.Direct(fir.kernel[..], fir.history, |fir.history| - 1)
    {
      var field, ip := fir.field, fir.ip;
      ghost var f := field.DirectTerm(fir.kernel[..], fir.history, |fir.history| - 1);
      out := field.zero;
      var i := 0;
      while i <= ip
        invariant 0 <= i <= ip + 1 && out == field.Sum(f, 0, i)
      {
        assert fir.Holds(i, ip, fir.history);
        out := field.add(out, field.mul(fir.buffer[ip - i], fir.kernel[i]));
        i := i + 1;
      }
      while i < fir.filterSize
        invariant ip < i <= fir.filterSize && out == field.Sum(f, 0, i)
      {
        assert fir.Holds(i, ip, fir.history);
        out := field.add(out, field.mul(fir.buffer[fir.filterSize + ip - i], fir.kernel[i]));
        i := i + 1;
      }
    }

    /** decimatingFIR::Pass for real samples, which leaves the sum to Basic_FIR::Pass. */
    method PassReal(z: C) returns (ok: bool, out: C)
      requires Valid()
      modifies this, fir, fir.buffer
      ensures Valid() && fir.history == old(fir.history) + [z]
      ensures ok <==> |fir.history| % decimationFactor == 0
      ensures ok ==> out == fir.field.Direct(fir.kernel[..], fir.history, |old(fir.history)|)
    {
      CountOn(|fir.history|, decimationFactor);
      out := fir.field.zero;
      decimationCounter := decimationCounter + 1;
      if decimationCounter < decimationFactor {
        fir.Put(z);
        fir.Advance();
        return false, out;
      }
      decimationCounter := 0;
      out := fir.Pass(z);
      ok := true;
    }
  }
}
