/** The filters on exact complex and real numbers. */
module ComplexFilters {
  import opened Convolution
  import opened FftFilter
  import opened FirFilters

  datatype Complex = Complex(re: real, im: real)

  function Plus(x: Complex, y: Complex): Complex {
    Complex(x.re + y.re, x.im + y.im)
  }

  function Times(x: Complex, y: Complex): Complex {
    Complex(x.re * y.re - x.im * y.im, x.re * y.im + x.im * y.re)
  }

  function Same(x: Complex): Complex {
    x
  }

  /** fftFilter::Pass for real samples multiplies the spectrum by 10. */
  function Tenfold(x: Complex): Complex {
    Complex(10.0 * x.re, 10.0 * x.im)
  }

  const COMPLEX: Field<Complex> := Field(Complex(0.0, 0.0), Plus, Times, Same)
  const AMPLIFIED: Field<Complex> := Field(Complex(0.0, 0.0), Plus, Times, Tenfold)

  lemma PlusLaws(x: Complex, y: Complex, z: Complex)
    ensures Plus(Plus(x, y), z) == Plus(x, Plus(y, z)) && Plus(x, y) == Plus(y, x) && Plus(x, Complex(0.0, 0.0)) == x
  {
  }

  lemma TimesLaws(x: Complex)
    ensures Times(x, Complex(0.0, 0.0)) == Complex(0.0, 0.0) && Times(Complex(0.0, 0.0), x) == Complex(0.0, 0.0)
  {
  }

  lemma TenTimes(a: real, b: real, c: real)
    requires c == a + b
    ensures 10.0 * c == 10.0 * a + 10.0 * b
  {
  }

  lemma TenfoldLaws(x: Complex, y: Complex)
    ensures Tenfold(Plus(x, y)) == Plus(Tenfold(x), Tenfold(y)) && Tenfold(Complex(0.0, 0.0)) == Complex(0.0, 0.0)
  {
    TenTimes(x.re, y.re, x.re + y.re);
    TenTimes(x.im, y.im, x.im + y.im);
  }

  const ONE := Complex(1.0, 0.0)

  lemma OneIsNotLost()
    ensures Times(ONE, ONE) == ONE
  {
  }

  lemma OneIsNotZero()
    ensures ONE != Complex(0.0, 0.0)
  {
  }

  lemma UnitProduct(f: Field<Complex>)
    requires f == COMPLEX
    ensures f.mul(ONE, ONE) != f.zero
  {
    OneIsNotLost();
    OneIsNotZero();
  }

  lemma ComplexIsLawful()
    ensures COMPLEX.Lawful()
  {
    forall x, y, z
      ensures COMPLEX.AddLaws(x, y, z)
    {
      PlusLaws(x, y, z);
    }
    forall x
      ensures COMPLEX.MulLaws(x)
    {
      TimesLaws(x);
    }
  }

  lemma AmplifiedIsLawful()
    ensures AMPLIFIED.Lawful()
  {
    forall x, y, z
      ensures AMPLIFIED.AddLaws(x, y, z)
    {
      PlusLaws(x, y, z);
    }
    forall x
      ensures AMPLIFIED.MulLaws(x)
    {
      TimesLaws(x);
    }
    forall x, y
      ensures AMPLIFIED.GainLaws(x, y)
    {
      TenfoldLaws(x, y);
    }
  }

  /** Complex numbers meet the conditions of StreamedIsDirect: the complex overlap-add filter is the direct one
      delayed by a block exactly when the kernel is at most one sample longer than the block. */
  lemma FastFilterApplies(f: Field<Complex>)
    requires f == COMPLEX
    ensures f.Lawful() && f.mul(ONE, ONE) != f.zero
  {
    ComplexIsLawful();
    UnitProduct(f);
  }

  // ----- real samples

  function Product(x: real, y: real): real {
    x * y
  }

  function Total(x: real, y: real): real {
    x + y
  }

  function SameReal(x: real): real {
    x
  }

  /** Basic_FIR::Pass for real samples sums products of real parts. */
  const REAL: Field<real> := Field(0.0, Total, Product, SameReal)

  function Re(x: seq<Complex>): (r: seq<real>)
    ensures |r| == |x| && forall i :: 0 <= i < |x| ==> r[i] == x[i].re
  {
    seq(|x|, i requires 0 <= i < |x| => x[i].re)
  }

  lemma {:induction false} RealSum(f: int -> Complex, g: int -> real, n: nat)
    requires forall i :: 0 <= i < n ==> f(i).re == g(i)
    ensures AMPLIFIED.Sum(f, 0, n).re == REAL.Sum(g, 0, n)
  {
    if n > 0 {
      RealSum(f, g, n - 1);
    }
  }

  lemma RealTerm(h: seq<Complex>, x: seq<Complex>, t: int, i: int)
    requires forall k :: 0 <= k < |x| ==> x[k].im == 0.0
    ensures AMPLIFIED.DirectTerm(h, x, t)(i).re == REAL.DirectTerm(Re(h), Re(x), t)(i)
  {
    var a, b := AMPLIFIED.At(x, t - i), AMPLIFIED.At(h, i);
    assert a.im == 0.0 && a.re == REAL.At(Re(x), t - i) && b.re == REAL.At(Re(h), i);
    NoImaginaryPart(a, b);
  }

  lemma NoImaginaryPart(a: Complex, b: Complex)
    requires a.im == 0.0
    ensures Times(a, b).re == Product(a.re, b.re)
  {
  }

  /** On one stream of real samples: fftFilter::Pass answers sample t + n with ten times what Basic_FIR::Pass answered
      to sample t. */
  lemma RealFastFilterIsDirect(h: seq<Complex>, x: seq<Complex>, n: nat, t: nat)
    requires n > 0 && |h| <= n + 1 && t + n <= |x| && forall k :: 0 <= k < |x| ==> x[k].im == 0.0
    ensures AMPLIFIED.gain(AMPLIFIED.Streamed(h, x[..t + n], n, t + n)).re
         == 10.0 * REAL.Direct(Re(h), Re(x[..t + 1]), t)
  {
    AmplifiedIsLawful();
    AMPLIFIED.FastFollowsDirect(h, x, n, t);
    RealDirect(h, x[..t + 1], t);
  }

  lemma RealDirect(h: seq<Complex>, x: seq<Complex>, t: int)
    requires forall k :: 0 <= k < |x| ==> x[k].im == 0.0
    ensures AMPLIFIED.Direct(h, x, t).re == REAL.Direct(Re(h), Re(x), t)
  {
    forall i | 0 <= i < |h|
      ensures AMPLIFIED.DirectTerm(h, x, t)(i).re == REAL.DirectTerm(Re(h), Re(x), t)(i)
    {
      RealTerm(h, x, t, i);
    }
    RealSum(AMPLIFIED.DirectTerm(h, x, t), REAL.DirectTerm(Re(h), Re(x), t), |h|);
  }
}
