/** The part of process that decides about one bit, and its counter MskS (acars-decoder.cpp). */
module Signal {
  import opened Framing
  import opened Modulo

  /** The output of the matched filter. */
  datatype Point = Point(re: real, im: real)

  datatype Demod<B> = Demod(framer: Framer<B>, mskS: nat)

  /** Real and imaginary part take turns, and the sign is turned for MskS & 2. */
  function Level(mskS: nat, v: Point): real {
    match mskS % 4
    case 0 => v.re
    case 1 => v.im
    case 2 => -v.re
    case _ => -v.im
  }

  predicate Decide(mskS: nat, v: Point) {
    Level(mskS, v) > 0.0
  }

  /** MskS ^ 2 */
  function Toggle(mskS: nat): nat {
    if mskS % 4 < 2 then mskS + 2 else mskS - 2
  }

  /** Toggling turns the decision about every later point, unless the point lies on the border. */
  lemma TogglingNegates(mskS: nat, later: nat, v: Point)
    requires Level(mskS + later, v) != 0.0
    ensures Decide(Toggle(mskS) + later, v) <==> !Decide(mskS + later, v)
  {
    assert (Toggle(mskS) + later) % 4 == (mskS + later + 2) % 4;
  }

  /** process, from the matched filter on. */
  function Process<B(!new)>(line: Line<B>, d: Demod<B>, v: Point): Demod<B> {
    var f := line.PutBit(d.framer, Decide(d.mskS, v));
    Demod(f, (if f.inverted == d.framer.inverted then d.mskS else Toggle(d.mskS)) + 1)
  }

  function ProcessAll<B(!new)>(line: Line<B>, d: Demod<B>, vs: seq<Point>): Demod<B>
    decreases |vs|
  {
    if vs == [] then d else ProcessAll(line, Process(line, d, vs[0]), vs[1..])
  }

  /** The decisions of a demodulator whose MskS nobody toggles. */
  function RawBits(mskS: nat, vs: seq<Point>): (r: seq<bool>)
    ensures |r| == |vs|
    decreases |vs|
  {
    if vs == [] then [] else [Decide(mskS, vs[0])] + RawBits(mskS + 1, vs[1..])
  }

  ghost predicate OffBorder(mskS: nat, vs: seq<Point>) {
    forall k :: 0 <= k < |vs| ==> Level(mskS + k, vs[k]) != 0.0
  }

  /** d has toggled MskS, counting from m, exactly if its framer says so. */
  predicate InStep<B>(d: Demod<B>, m: nat) {
    d.mskS % 4 == (if d.framer.inverted then m + 2 else m) % 4
  }

  lemma Phases(s: nat, m: nat, v: Point)
    requires Level(m, v) != 0.0
    ensures s % 4 == m % 4 ==> Decide(s, v) == Decide(m, v)
    ensures s % 4 == (m + 2) % 4 ==> Decide(s, v) != Decide(m, v)
    ensures Toggle(s) % 4 == (s + 2) % 4
  {
  }

  lemma ProcessStep<B(!new)>(line: Line<B>, d: Demod<B>, m: nat, v: Point)
    requires InStep(d, m) && Level(m, v) != 0.0
    ensures Process(line, d, v).framer == line.PutRaw(d.framer, Decide(m, v))
    ensures InStep(Process(line, d, v), m + 1)
  {
    Phases(d.mskS, m, v);
    var f := line.PutBit(d.framer, Decide(d.mskS, v));
    NextPhase(d.mskS, m, d.framer.inverted, f.inverted);
  }

  lemma NextPhase(s: nat, m: nat, before: bool, after: bool)
    requires s % 4 == (if before then m + 2 else m) % 4
    ensures ((if after == before then s else Toggle(s)) + 1) % 4 == (if after then m + 1 + 2 else m + 1) % 4
  {
  }

  /** Toggling MskS in the decoder is the same as inverting all decisions from then on, so the framing may be
      studied on the untoggled bits. */
  lemma {:induction false} TogglingIsInversion<B(!new)>(line: Line<B>, d: Demod<B>, m: nat, vs: seq<Point>)
    requires InStep(d, m) && OffBorder(m, vs)
    ensures ProcessAll(line, d, vs).framer == line.Run(d.framer, RawBits(m, vs))
    decreases |vs|
  {
    if vs != [] {
      assert Level(m + 0, vs[0]) != 0.0;
      ProcessStep(line, d, m, vs[0]);
      assert OffBorder(m + 1, vs[1..]) by {
        assert forall k :: 0 <= k < |vs[1..]| ==> Level(m + 1 + k, vs[1..][k]) == Level(m + (k + 1), vs[k + 1]);
      }
      TogglingIsInversion(line, Process(line, d, vs[0]), m + 1, vs[1..]);
    }
  }

  /** Blocks once handed on stay. */
  lemma {:induction false} BlocksStay<B(!new)>(line: Line<B>, d: Demod<B>, vs: seq<Point>)
    ensures d.framer.blocks <= ProcessAll(line, d, vs).framer.blocks
    decreases |vs|
  {
    if vs != [] {
      BlocksStay(line, Process(line, d, vs[0]), vs[1..]);
    }
  }

  // ----- the modulation: quarter turns

  /** A quarter turn to the left, or to the right. */
  function Turned(v: Point, left: bool): Point {
    if left then Point(-v.im, v.re) else Point(v.im, -v.re)
  }

  /** The points begin on the real axis, and each is the one before turned by a quarter. */
  ghost predicate Turning(vs: seq<Point>) {
    && (vs != [] ==> vs[0].im == 0.0 && vs[0].re != 0.0)
    && forall k :: 0 <= k < |vs| - 1 ==> vs[k + 1] == Turned(vs[k], true) || vs[k + 1] == Turned(vs[k], false)
  }

  /** The axis is the real one and the imaginary one in turn. */
  lemma {:induction false} AxesAlternate(vs: seq<Point>, k: nat)
    requires Turning(vs) && k < |vs|
    ensures if k % 2 == 0 then vs[k].im == 0.0 && vs[k].re != 0.0 else vs[k].re == 0.0 && vs[k].im != 0.0
  {
    if k > 0 {
      AxesAlternate(vs, k - 1);
    }
  }

  lemma {:induction false} RawBitAt(m: nat, vs: seq<Point>, k: nat)
    requires k < |vs|
    ensures RawBits(m, vs)[k] == Decide(m + k, vs[k])
    decreases k
  {
    if k > 0 {
      RawBitAt(m + 1, vs[1..], k - 1);
    }
  }

  /** What a bit says of the point that it is read from: where on its axis that lies. */
  lemma DecisionOnAxis(k: nat, v: Point)
    requires if k % 2 == 0 then v.im == 0.0 && v.re != 0.0 else v.re == 0.0 && v.im != 0.0
    ensures Level(k, v) != 0.0
    ensures Decide(k + 1, Turned(v, true)) == Decide(k, v) && Decide(k + 1, Turned(v, false)) != Decide(k, v)
  {
    PhaseOf(k, k % 4);
    DecisionInPhase(k % 4, v);
    SameDecision(k, k % 4, v);
    SameDecision(k + 1, k % 4 + 1, Turned(v, true));
    SameDecision(k + 1, k % 4 + 1, Turned(v, false));
  }

  lemma PhaseOf(k: nat, r: nat)
    requires r == k % 4
    ensures (k + 1) % 4 == (r + 1) % 4 && k % 2 == r % 2
  {
    var q := k / 4;
    assert k == 4 * q + r;
    Unique(k, 2, 2 * q + r / 2, r % 2);
    Unique(k + 1, 4, if r == 3 then q + 1 else q, if r == 3 then 0 else r + 1);
  }

  lemma SameDecision(k: nat, r: nat, v: Point)
    requires k % 4 == r % 4
    ensures Level(k, v) == Level(r, v) && Decide(k, v) == Decide(r, v)
  {
  }

  lemma DecisionInPhase(r: nat, v: Point)
    requires r < 4 && if r % 2 == 0 then v.im == 0.0 && v.re != 0.0 else v.re == 0.0 && v.im != 0.0
    ensures Level(r, v) != 0.0
    ensures Decide(r + 1, Turned(v, true)) == Decide(r, v) && Decide(r + 1, Turned(v, false)) != Decide(r, v)
  {
    match r
    case 0 =>
    case 1 =>
    case 2 =>
    case _ =>
  }

  /** Without toggling no decision about such points lies on the border, the first is the sign of the real part, and
      two in a row agree exactly if the turn between them was to the left. */
  lemma TurnsDecide(vs: seq<Point>)
    requires Turning(vs)
    ensures OffBorder(0, vs)
    ensures vs != [] ==> (RawBits(0, vs)[0] <==> vs[0].re > 0.0)
    ensures forall k :: 0 <= k < |vs| - 1 ==>
              (RawBits(0, vs)[k + 1] == RawBits(0, vs)[k] <==> vs[k + 1] == Turned(vs[k], true))
  {
    forall k | 0 <= k < |vs|
      ensures Level(0 + k, vs[k]) != 0.0
    {
      AxesAlternate(vs, k);
      DecisionOnAxis(k, vs[k]);
    }
    if vs != [] {
      RawBitAt(0, vs, 0);
    }
    forall k | 0 <= k < |vs| - 1
      ensures RawBits(0, vs)[k + 1] == RawBits(0, vs)[k] <==> vs[k + 1] == Turned(vs[k], true)
    {
      TurnDecides(vs, k);
    }
  }

  lemma TurnDecides(vs: seq<Point>, k: nat)
    requires Turning(vs) && k + 1 < |vs|
    ensures RawBits(0, vs)[k + 1] == RawBits(0, vs)[k] <==> vs[k + 1] == Turned(vs[k], true)
  {
    AxesAlternate(vs, k);
    DecisionOnAxis(k, vs[k]);
    RawBitAt(0, vs, k);
    RawBitAt(0, vs, k + 1);
  }

  /** The points carry these bits: the first by its sign, each other by the turn from the one before, which is to the
      left if the bit is that before. */
  ghost predicate Carry(vs: seq<Point>, bits: seq<bool>) {
    && |vs| == |bits| && (vs != [] ==> vs[0].im == 0.0 && (if bits[0] then vs[0].re > 0.0 else vs[0].re < 0.0))
    && forall k :: 0 <= k < |vs| - 1 ==> vs[k + 1] == Turned(vs[k], bits[k + 1] == bits[k])
  }

  lemma {:induction false} CarriedBit(vs: seq<Point>, bits: seq<bool>, k: nat)
    requires Carry(vs, bits) && k < |vs| && Turning(vs)
    ensures RawBits(0, vs)[k] == bits[k]
  {
    TurnsDecide(vs);
    if k > 0 {
      CarriedBit(vs, bits, k - 1);
      AxesAlternate(vs, k - 1);
      assert vs[k] == Turned(vs[k - 1], bits[k] == bits[k - 1]);
    }
  }

  lemma CarryingIsTurning(vs: seq<Point>, bits: seq<bool>)
    requires Carry(vs, bits)
    ensures Turning(vs)
  {
    forall k | 0 <= k < |vs| - 1
      ensures vs[k + 1] == Turned(vs[k], true) || vs[k + 1] == Turned(vs[k], false)
    {
      assert vs[k + 1] == Turned(vs[k], bits[k + 1] == bits[k]);
    }
  }

  /** And these are the bits that are decided. */
  lemma CarriedBitsAreDecided(vs: seq<Point>, bits: seq<bool>)
    requires Carry(vs, bits)
    ensures OffBorder(0, vs) && RawBits(0, vs) == bits
  {
    CarryingIsTurning(vs, bits);
    TurnsDecide(vs);
    forall k | 0 <= k < |vs|
      ensures RawBits(0, vs)[k] == bits[k]
    {
      CarriedBit(vs, bits, k);
    }
  }
}
