/** Check words that are linear in the message, seen apart from any particular byte, word or
    polynomial: a feedback shift register over two commutative groups in which every element is its
    own inverse.  The ACARS check word is one instance (Crc.dfy). */
module LinearCode {

  datatype Code<!B(!new,==), !W(!new,==)> = Code(
    zeroB: B, addB: (B, B) -> B, unit: nat -> B, embed: B -> W,
    zeroW: W, addW: (W, W) -> W, low: W -> bool, half: W -> W, width: nat, generator: W)
  {

    // ----- the register

    /** One division step: the low bit leaves and, if it is set, the generator is fed back. */
    function Shift(w: W): W {
      if low(w) then addW(half(w), generator) else half(w)
    }

    function Shifts(w: W, n: nat): W {
      if n == 0 then w else Shift(Shifts(w, n - 1))
    }

    /** The register after one more byte. */
    function Step(w: W, b: B): W {
      Shifts(addW(w, embed(b)), 8)
    }

    /** The register after a message, starting from w. */
    function Check(w: W, msg: seq<B>): W {
      if msg == [] then w else Step(Check(w, msg[..|msg| - 1]), msg[|msg| - 1])
    }

    function Halves(w: W, n: nat): W
      decreases n
    {
      if n == 0 then w else Halves(half(w), n - 1)
    }

    /** An odd number of the n low bits is set. */
    predicate OddLow(w: W, n: nat)
      decreases n
    {
      n > 0 && low(w) != OddLow(half(w), n - 1)
    }

    /** How many of the n low bits are set. */
    function Ones(w: W, n: nat): nat
      decreases n
    {
      if n == 0 then 0 else (if low(w) then 1 else 0) + Ones(half(w), n - 1)
    }

    lemma {:induction false} OnesParity(w: W, n: nat)
      ensures OddLow(w, n) <==> Ones(w, n) % 2 == 1
      decreases n
    {
      if n > 0 {
        OnesParity(half(w), n - 1);
      }
    }

    predicate OddW(w: W) {
      OddLow(w, width)
    }

    predicate OddB(b: B) {
      OddW(embed(b))
    }

    // ----- the laws

    ghost predicate BytesCancel(b: B, c: B) {
      addB(addB(b, c), c) == b && addB(b, zeroB) == b && addB(zeroB, b) == b
    }

    ghost predicate WordsAssociate(x: W, y: W, z: W) {
      addW(addW(x, y), z) == addW(x, addW(y, z))
    }

    ghost predicate WordsCommute(x: W, y: W) {
      addW(x, y) == addW(y, x)
    }

    ghost predicate WordsCancel(x: W) {
      addW(x, x) == zeroW && addW(x, zeroW) == x
    }

    ghost predicate EmbedIsLinear(b: B, c: B) {
      embed(addB(b, c)) == addW(embed(b), embed(c))
    }

    ghost predicate HalvingIsLinear(x: W, y: W) {
      && half(addW(x, y)) == addW(half(x), half(y))
      && (low(addW(x, y)) <==> low(x) != low(y))
    }

    ghost predicate HalvingLosesNothing(x: W, y: W) {
      low(x) == low(y) && half(x) == half(y) ==> x == y
    }

    /** Half a word has no top bit, the generator has one. */
    ghost predicate GeneratorShows(x: W, y: W) {
      half(x) != addW(half(y), generator)
    }

    /** A word has no more than width bits. */
    ghost predicate WordsAreNarrow(x: W) {
      Halves(x, width) == zeroW
    }

    /** Units are one bit each, one place apart. */
    ghost predicate UnitsStep(i: nat) {
      && (0 < i < 8 ==> !low(embed(unit(i))) && half(embed(unit(i))) == embed(unit(i - 1)))
      && (i == 0 ==> low(embed(unit(i))) && half(embed(unit(i))) == zeroW)
    }

    ghost predicate Lawful() {
      && width > 8 && OddW(generator)
      && (forall b, c :: BytesCancel(b, c))
      && (forall x, y, z :: WordsAssociate(x, y, z))
      && (forall x, y :: WordsCommute(x, y))
      && (forall x :: WordsCancel(x))
      && (forall b, c :: EmbedIsLinear(b, c))
      && (forall x, y :: HalvingIsLinear(x, y))
      && (forall x, y :: HalvingLosesNothing(x, y))
      && (forall x, y :: GeneratorShows(x, y))
      && (forall x :: WordsAreNarrow(x))
      && (forall i :: UnitsStep(i))
    }

    // ----- sums of words

    /** (x + y) + (z + u) == (x + z) + (y + u) */
    lemma SumsInterchange(x: W, y: W, z: W, u: W)
      requires Lawful()
      ensures addW(addW(x, y), addW(z, u)) == addW(addW(x, z), addW(y, u))
    {
      assert WordsAssociate(x, y, addW(z, u)) && WordsAssociate(y, z, u);
      assert WordsCommute(y, z);
      assert WordsAssociate(z, y, u) && WordsAssociate(x, z, addW(y, u));
    }

    lemma SumIsZero(x: W, y: W)
      requires Lawful()
      ensures addW(x, y) == zeroW <==> x == y
    {
      assert WordsCancel(x) && WordsCancel(y);
      assert WordsAssociate(x, y, y);
      assert WordsCommute(zeroW, y);
    }

    lemma SumCancels(x: W, y: W)
      requires Lawful()
      ensures addW(addW(x, y), y) == x
    {
      assert WordsAssociate(x, y, y);
      assert WordsCancel(x) && WordsCancel(y);
    }

    lemma {:induction false} SumParity(x: W, y: W, n: nat)
      requires Lawful()
      ensures OddLow(addW(x, y), n) <==> OddLow(x, n) != OddLow(y, n)
      decreases n
    {
      if n > 0 {
        assert HalvingIsLinear(x, y);
        SumParity(half(x), half(y), n - 1);
      }
    }

    // ----- division steps

    lemma ShiftIsLinear(x: W, y: W)
      requires Lawful()
      ensures Shift(addW(x, y)) == addW(Shift(x), Shift(y))
    {
      assert HalvingIsLinear(x, y);
      var hx, hy, g := half(x), half(y), generator;
      SumsInterchange(hx, g, hy, g);
      assert WordsCancel(g) && WordsCancel(addW(hx, hy));
      assert WordsAssociate(hx, hy, g);
      assert WordsAssociate(hx, g, hy) && WordsCommute(g, hy);
    }

    lemma ShiftIsInjective(x: W, y: W)
      requires Lawful() && Shift(x) == Shift(y)
      ensures x == y
    {
      assert GeneratorShows(x, y) && GeneratorShows(y, x);
      SumCancels(half(x), generator);
      SumCancels(half(y), generator);
      assert HalvingLosesNothing(x, y);
    }

    /** If fits tells words of n bits, halving one n times leaves nothing. */
    lemma {:induction false} NarrowWordVanishes(fits: (W, nat) -> bool, w: W, n: nat)
      requires forall x :: fits(x, 0) ==> x == zeroW
      requires forall x, k: nat :: 0 < k <= n && fits(x, k) ==> fits(half(x), k - 1)
      requires fits(w, n)
      ensures Halves(w, n) == zeroW
      decreases n
    {
      if n > 0 {
        NarrowWordVanishes(fits, half(w), n - 1);
      }
    }

    lemma {:induction false} OddLowLast(w: W, n: nat)
      ensures OddLow(w, n + 1) <==> OddLow(w, n) != low(Halves(w, n))
      decreases n
    {
      if n > 0 {
        OddLowLast(half(w), n - 1);
      }
    }

    /** The generator has an odd number of terms left when one has gone: weight parity stays. */
    lemma ShiftKeepsParity(w: W)
      requires Lawful()
      ensures OddW(Shift(w)) <==> OddW(w)
    {
      OddLowLast(half(w), width - 1);
      assert WordsAreNarrow(w);
      assert HalvingIsLinear(zeroW, zeroW) && WordsCancel(zeroW);
      SumParity(half(w), generator, width);
    }

    lemma {:induction false} ShiftsAreLinear(x: W, y: W, n: nat)
      requires Lawful()
      ensures Shifts(addW(x, y), n) == addW(Shifts(x, n), Shifts(y, n))
      decreases n
    {
      if n > 0 {
        ShiftsAreLinear(x, y, n - 1);
        ShiftIsLinear(Shifts(x, n - 1), Shifts(y, n - 1));
      }
    }

    lemma {:induction false} ShiftsAreInjective(x: W, y: W, n: nat)
      requires Lawful() && Shifts(x, n) == Shifts(y, n)
      ensures x == y
      decreases n
    {
      if n > 0 {
        ShiftIsInjective(Shifts(x, n - 1), Shifts(y, n - 1));
        ShiftsAreInjective(x, y, n - 1);
      }
    }

    lemma {:induction false} ShiftsKeepParity(w: W, n: nat)
      requires Lawful()
      ensures OddW(Shifts(w, n)) <==> OddW(w)
      decreases n
    {
      if n > 0 {
        ShiftsKeepParity(w, n - 1);
        ShiftKeepsParity(Shifts(w, n - 1));
      }
    }

    lemma {:induction false} ShiftsAdd(w: W, m: nat, n: nat)
      ensures Shifts(Shifts(w, m), n) == Shifts(w, m + n)
      decreases n
    {
      if n > 0 {
        ShiftsAdd(w, m, n - 1);
      }
    }

    // ----- check words

    lemma StepIsLinear(w: W, v: W, b: B, c: B)
      requires Lawful()
      ensures Step(addW(w, v), addB(b, c)) == addW(Step(w, b), Step(v, c))
    {
      assert EmbedIsLinear(b, c);
      SumsInterchange(w, v, embed(b), embed(c));
      ShiftsAreLinear(addW(w, embed(b)), addW(v, embed(c)), 8);
    }

    /** The zero byte only moves the register on. */
    lemma StepOfZero(w: W)
      requires Lawful()
      ensures Step(w, zeroB) == Shifts(w, 8)
    {
      assert BytesCancel(zeroB, zeroB);
      assert EmbedIsLinear(zeroB, zeroB);
      assert WordsCancel(embed(zeroB)) && WordsCancel(w);
    }

    /** A byte that enters an empty register. */
    lemma StepFromZero(b: B)
      requires Lawful()
      ensures Step(zeroW, b) == Shifts(embed(b), 8)
    {
      assert WordsCommute(zeroW, embed(b)) && WordsCancel(embed(b));
    }

    function Flip(b: B, i: nat): B {
      addB(b, unit(i))
    }

    function FlipIn(msg: seq<B>, k: nat, i: nat): (r: seq<B>)
      requires k < |msg|
      ensures |r| == |msg|
    {
      msg[k := Flip(msg[k], i)]
    }

    function Zeros(d: nat): seq<B> {
      seq(d, _ => zeroB)
    }

    function Sum(a: seq<B>, b: seq<B>): (r: seq<B>)
      requires |a| == |b|
      ensures |r| == |a|
    {
      seq(|a|, k requires 0 <= k < |a| => addB(a[k], b[k]))
    }

    predicate OddMessage(msg: seq<B>) {
      msg != [] && OddMessage(msg[..|msg| - 1]) != OddB(msg[|msg| - 1])
    }

    lemma {:induction false} CheckOfConcat(w: W, a: seq<B>, b: seq<B>)
      ensures Check(w, a + b) == Check(Check(w, a), b)
      decreases |b|
    {
      if b == [] {
        assert a + b == a;
      } else {
        CheckOfConcat(w, a, b[..|b| - 1]);
        assert (a + b)[..|a + b| - 1] == a + b[..|b| - 1];
      }
    }

    /** The check word of a sum of two messages of one length is the sum of their check words. */
    lemma {:induction false} CheckIsLinear(w: W, v: W, a: seq<B>, b: seq<B>)
      requires Lawful() && |a| == |b|
      ensures Check(addW(w, v), Sum(a, b)) == addW(Check(w, a), Check(v, b))
      decreases |a|
    {
      if a != [] {
        var n := |a| - 1;
        CheckIsLinear(w, v, a[..n], b[..n]);
        assert Sum(a, b)[..n] == Sum(a[..n], b[..n]);
        StepIsLinear(Check(w, a[..n]), Check(v, b[..n]), a[n], b[n]);
      }
    }

    /** The register has odd weight exactly when it started odd or ran over an odd message, not both. */
    lemma {:induction false} CheckKeepsParity(w: W, msg: seq<B>)
      requires Lawful()
      ensures OddW(Check(w, msg)) <==> OddW(w) != OddMessage(msg)
      decreases |msg|
    {
      if msg != [] {
        var n := |msg| - 1;
        CheckKeepsParity(w, msg[..n]);
        var c := Check(w, msg[..n]);
        SumParity(c, embed(msg[n]), width);
        ShiftsKeepParity(addW(c, embed(msg[n])), 8);
      }
    }

    // ----- syndromes of single bits

    /** What bit i of a byte contributes to the register when d more bytes follow it. */
    function Syndrome(i: nat, d: nat): W {
      Shifts(embed(unit(i)), 8 * (d + 1))
    }

    /** It is the check word of that bit followed by d zero bytes. */
    lemma {:induction false} SyndromeIsCheck(i: nat, d: nat)
      requires Lawful()
      ensures Check(zeroW, [unit(i)] + Zeros(d)) == Syndrome(i, d)
      decreases d
    {
      var msg := [unit(i)] + Zeros(d);
      if d == 0 {
        assert msg[..0] == [] && msg[0] == unit(i);
        StepFromZero(unit(i));
      } else {
        SyndromeIsCheck(i, d - 1);
        assert msg[..|msg| - 1] == [unit(i)] + Zeros(d - 1);
        StepOfZero(Syndrome(i, d - 1));
        ShiftsAdd(embed(unit(i)), 8 * d, 8);
      }
    }

    /** Flipping one bit of a message adds the syndrome of its place to the check word. */
    lemma {:induction false} FlipAddsSyndrome(w: W, msg: seq<B>, k: nat, i: nat)
      requires Lawful() && k < |msg|
      ensures Check(w, FlipIn(msg, k, i)) == addW(Check(w, msg), Syndrome(i, |msg| - 1 - k))
      decreases |msg|
    {
      var n := |msg| - 1;
      var c := Check(w, msg[..n]);
      if k == n {
        assert FlipIn(msg, k, i)[..n] == msg[..n];
        assert WordsCancel(c);
        StepIsLinear(c, zeroW, msg[n], unit(i));
        StepFromZero(unit(i));
      } else {
        FlipAddsSyndrome(w, msg[..n], k, i);
        assert FlipIn(msg, k, i)[..n] == FlipIn(msg[..n], k, i);
        assert BytesCancel(msg[n], zeroB);
        var s := Syndrome(i, n - 1 - k);
        StepIsLinear(c, s, msg[n], zeroB);
        StepOfZero(s);
        ShiftsAdd(embed(unit(i)), 8 * (n - k), 8);
      }
    }

    lemma {:induction false} ZeroIsEven(n: nat)
      requires Lawful()
      ensures !OddLow(zeroW, n)
    {
      assert WordsCancel(zeroW);
      SumParity(zeroW, zeroW, n);
    }

    lemma {:induction false} UnitIsOdd(i: nat, n: nat)
      requires Lawful() && i < 8 && i < n
      ensures OddLow(embed(unit(i)), n)
      decreases i
    {
      assert UnitsStep(i);
      if i == 0 {
        ZeroIsEven(n - 1);
      } else {
        UnitIsOdd(i - 1, n - 1);
      }
    }

    lemma SyndromeIsOdd(i: nat, d: nat)
      requires Lawful() && i < 8
      ensures OddW(Syndrome(i, d))
    {
      UnitIsOdd(i, width);
      ShiftsKeepParity(embed(unit(i)), 8 * (d + 1));
    }

    lemma {:induction false} UnitsDiffer(i: nat, j: nat)
      requires Lawful() && i < 8 && j < 8 && i != j
      ensures embed(unit(i)) != embed(unit(j))
      decreases i
    {
      assert UnitsStep(i) && UnitsStep(j);
      if i > 0 && j > 0 {
        UnitsDiffer(i - 1, j - 1);
      }
    }

    /** Two bits of one byte have different syndromes, wherever the byte stands. */
    lemma SyndromesDiffer(i: nat, j: nat, d: nat)
      requires Lawful() && i < 8 && j < 8 && i != j
      ensures Syndrome(i, d) != Syndrome(j, d)
    {
      UnitsDiffer(i, j);
      if Syndrome(i, d) == Syndrome(j, d) {
        ShiftsAreInjective(embed(unit(i)), embed(unit(j)), 8 * (d + 1));
      }
    }

    /** A syndrome counts the division steps from the lowest bit. */
    lemma {:induction false} SyndromeFromLowest(i: nat, n: nat)
      requires Lawful() && i < 8 && i <= n
      ensures Shifts(embed(unit(i)), n) == Shifts(embed(unit(0)), n - i)
      decreases i
    {
      if i > 0 {
        assert UnitsStep(i);
        ShiftsAdd(embed(unit(i)), 1, n - 1);
        assert Shifts(embed(unit(i)), 1) == embed(unit(i - 1));
        SyndromeFromLowest(i - 1, n - 1);
      }
    }
  }
}
