/** The averages of utilities.cpp. */
module MovingAverage {
  import opened Modulo

  function DecayingAverage(before: real, input: real, weight: real): real {
    if weight <= 1.0 then input else input * (1.0 / weight) + before * (1.0 - 1.0 / weight)
  }

  function Sum(s: seq<real>): real {
    if s == [] then 0.0 else Sum(s[..|s| - 1]) + s[|s| - 1]
  }

  lemma {:induction false} SumConcat(a: seq<real>, b: seq<real>)
    ensures Sum(a + b) == Sum(a) + Sum(b)
  {
    if b == [] {
      assert a + b == a;
    } else {
      var ab, front := a + b, b[..|b| - 1];
      assert ab[..|ab| - 1] == a + front && ab[|ab| - 1] == b[|b| - 1];
      SumConcat(a, front);
    }
  }

  /** A sum lies between the number of values times the least and times the greatest that they may be. */
  lemma {:induction false} SumBetween(s: seq<real>, low: real, high: real)
    requires forall i :: 0 <= i < |s| ==> low <= s[i] <= high
    ensures |s| as real * low <= Sum(s) <= |s| as real * high
  {
    if s != [] {
      SumBetween(s[..|s| - 1], low, high);
      Grow(|s| - 1, low);
      Grow(|s| - 1, high);
    }
  }

  lemma Grow(n: nat, x: real)
    ensures (n + 1) as real * x == n as real * x + x
  {
  }

  function Repeat(c: real, n: nat): (s: seq<real>)
    ensures |s| == n && forall i :: 0 <= i < n ==> s[i] == c
  {
    if n == 0 then [] else Repeat(c, n - 1) + [c]
  }

  class Average {
    const vec: array<real>
    var filp: nat
    /** The last values, the oldest first. */
    ghost var recent: seq<real>

    ghost predicate Valid()
      reads this, vec
    {
      filp < vec.Length && recent == vec[filp..] + vec[..filp]
    }

    constructor (s: nat)
      requires s > 0
      ensures Valid() && fresh(vec) && recent == Repeat(0.0, s)
    {
      vec := new real[s](_ => 0.0);
      filp := 0;
      recent := Repeat(0.0, s);
    }

    method Filter(e: real) returns (out: real)
      requires Valid()
      modifies this, vec
      ensures Valid() && recent == old(recent)[1..] + [e]
      ensures out == Sum(recent) / |recent| as real
    {
      ghost var before := vec[..];
      vec[filp] := e;
      filp := (filp + 1) % vec.Length;
      recent := recent[1..] + [e];
      Advanced(before, old(filp), e, vec[..], filp);
      out := 0.0;
      for i := 0 to vec.Length
        invariant out == Sum(vec[..i])
      {
        assert vec[..i + 1][..i] == vec[..i];
        out := out + vec[i];
      }
      assert vec[..vec.Length] == vec[..filp] + vec[filp..];
      SumConcat(vec[..filp], vec[filp..]);
      SumConcat(vec[filp..], vec[..filp]);
      out := out / vec.Length as real;
    }

    method Clear(c: real)
      requires Valid()
      modifies this, vec
      ensures Valid() && recent == Repeat(c, |old(recent)|)
    {
      for i := 0 to vec.Length
        invariant forall j :: 0 <= j < i ==> vec[j] == c
        invariant filp == old(filp) && recent == old(recent)
      {
        vec[i] := c;
      }
      filp := 0;
      recent := Repeat(c, vec.Length);
    }
  }

  /** Overwriting the oldest value moves the window on by one. */
  lemma Advanced(before: seq<real>, p: nat, e: real, after: seq<real>, q: nat)
    requires p < |before| && after == before[p := e] && q == (p + 1) % |before|
    ensures q == (if p + 1 < |before| then p + 1 else 0)
    ensures (before[p..] + before[..p])[1..] + [e] == after[q..] + after[..q]
  {
    Next(p, |before|);
    if p + 1 < |before| {
      assert after[..q] == before[..p] + [e];
    } else {
      assert after[..p] == before[..p];
    }
  }
}
