/** What the ACARS block corrector computes, for any linear code of LinearCode: which bits it flips,
    when it finds any, and why what it finds is right (acars-decoder.cpp). */
module Recovery {
  import opened LinearCode
  import opened Options

  // ----- places of even parity

  function EvenPlaces<B(!new), W(!new)>(code: Code<B, W>, txt: seq<B>): (r: seq<nat>)
    ensures Increasing(r, |txt|)
    ensures forall j :: 0 <= j < |r| ==> !code.OddB(txt[r[j]])
    ensures forall k :: 0 <= k < |txt| && !code.OddB(txt[k]) ==> k in r
  {
    if txt == [] then [] else
    var n := |txt| - 1;
    var before := EvenPlaces(code, txt[..n]);
    if code.OddB(txt[n]) then before else before + [n]
  }

  ghost predicate AllOdd<B(!new), W(!new)>(code: Code<B, W>, txt: seq<B>) {
    forall k :: 0 <= k < |txt| ==> code.OddB(txt[k])
  }

  // ----- flipping one bit in each of some bytes

  predicate Below(places: seq<nat>, n: nat) {
    forall j :: 0 <= j < |places| ==> places[j] < n
  }

  predicate Choice(places: seq<nat>, bits: seq<nat>) {
    |bits| == |places| && Below(bits, 8)
  }

  predicate Increasing(places: seq<nat>, n: nat) {
    Below(places, n) && forall j, k :: 0 <= j < k < |places| ==> places[j] < places[k]
  }

  function FlipAll<B(!new), W(!new)>(code: Code<B, W>, txt: seq<B>, places: seq<nat>, bits: seq<nat>): (r: seq<B>)
    requires |bits| == |places| && Below(places, |txt|)
    ensures |r| == |txt|
  {
    if places == [] then txt
    else code.FlipIn(FlipAll(code, txt, places[1..], bits[1..]), places[0], bits[0])
  }

  /** FlipAll flips the chosen bit of every listed byte and leaves every other byte alone. */
  lemma {:induction false} FlipAllAt<B(!new), W(!new)>(code: Code<B, W>, txt: seq<B>, places: seq<nat>, bits: seq<nat>,
                                                       k: nat)
    requires Choice(places, bits) && Increasing(places, |txt|) && k < |txt|
    ensures k !in places ==> FlipAll(code, txt, places, bits)[k] == txt[k]
    ensures forall j :: 0 <= j < |places| && places[j] == k ==>
              FlipAll(code, txt, places, bits)[k] == code.Flip(txt[k], bits[j])
    decreases |places|
  {
    if places != [] {
      var rest := places[1..];
      FlipAllAt(code, txt, rest, bits[1..], k);
      assert forall j :: 0 < j < |places| ==> places[j] == rest[j - 1];
      assert k in places <==> k == places[0] || k in rest;
      if k == places[0] {
        assert k !in rest;
      }
    }
  }

  /** What is left of the check word crc after the chosen bits of a text of n bytes (two check bytes
      behind it) have been flipped. */
  function Residue<B(!new), W(!new)>(code: Code<B, W>, n: nat, crc: W, places: seq<nat>, bits: seq<nat>): W
    requires |bits| == |places| && Below(places, n)
  {
    if places == [] then crc
    else Residue(code, n, code.addW(crc, code.Syndrome(bits[0], n + 1 - places[0])), places[1..], bits[1..])
  }

  lemma {:induction false} ResidueOfSum<B(!new), W(!new)>(code: Code<B, W>, n: nat, crc: W, s: W, places: seq<nat>,
                                                          bits: seq<nat>)
    requires code.Lawful() && |bits| == |places| && Below(places, n)
    ensures Residue(code, n, code.addW(crc, s), places, bits) == code.addW(Residue(code, n, crc, places, bits), s)
    decreases |places|
  {
    if places != [] {
      var t := code.Syndrome(bits[0], n + 1 - places[0]);
      assert code.WordsAssociate(crc, s, t) && code.WordsCommute(s, t) && code.WordsAssociate(crc, t, s);
      ResidueOfSum(code, n, code.addW(crc, t), s, places[1..], bits[1..]);
    }
  }

  /** The residue is the check word of the flipped text. */
  lemma {:induction false} ResidueIsCheck<B(!new), W(!new)>(code: Code<B, W>, txt: seq<B>, tail: seq<B>,
                                                            places: seq<nat>, bits: seq<nat>)
    requires code.Lawful() && |tail| == 2 && |bits| == |places| && Below(places, |txt|)
    ensures code.Check(code.zeroW, FlipAll(code, txt, places, bits) + tail)
         == Residue(code, |txt|, code.Check(code.zeroW, txt + tail), places, bits)
    decreases |places|
  {
    if places != [] {
      var rest := FlipAll(code, txt, places[1..], bits[1..]);
      var n, p, i := |txt|, places[0], bits[0];
      ResidueIsCheck(code, txt, tail, places[1..], bits[1..]);
      code.FlipAddsSyndrome(code.zeroW, rest + tail, p, i);
      assert code.FlipIn(rest + tail, p, i) == code.FlipIn(rest, p, i) + tail;
      ResidueOfSum(code, n, code.Check(code.zeroW, txt + tail), code.Syndrome(i, n + 1 - p), places[1..], bits[1..]);
    }
  }

  // ----- what may be left over: nothing, or one bit of the two check bytes

  function TailSyndrome<B(!new), W(!new)>(code: Code<B, W>, k: nat): W {
    code.Syndrome(k % 8, k / 8)
  }

  predicate IsTailBit<B(!new), W(!new,==)>(code: Code<B, W>, r: W) {
    exists k: nat :: k < 16 && TailSyndrome(code, k) == r
  }

  predicate Acceptable<B(!new), W(!new,==)>(code: Code<B, W>, r: W) {
    r == code.zeroW || IsTailBit(code, r)
  }

  /** A message of text and two check bytes that is a code word, or one whose check bytes are off by one
      bit. */
  ghost predicate NearCodeWord<B(!new), W(!new)>(code: Code<B, W>, txt: seq<B>, tail: seq<B>)
    requires |tail| == 2
  {
    || code.Check(code.zeroW, txt + tail) == code.zeroW
    || exists k, i :: 0 <= k < 2 && 0 <= i < 8 && code.Check(code.zeroW, txt + code.FlipIn(tail, k, i)) == code.zeroW
  }

  lemma AcceptableIsNear<B(!new), W(!new)>(code: Code<B, W>, txt: seq<B>, tail: seq<B>)
    requires code.Lawful() && |tail| == 2
    ensures Acceptable(code, code.Check(code.zeroW, txt + tail)) <==> NearCodeWord(code, txt, tail)
  {
    var r := code.Check(code.zeroW, txt + tail);
    forall k, i | 0 <= k < 2 && 0 <= i < 8
      ensures code.Check(code.zeroW, txt + code.FlipIn(tail, k, i)) == code.zeroW
         <==> r == TailSyndrome(code, 8 * (1 - k) + i)
    {
      code.FlipAddsSyndrome(code.zeroW, txt + tail, |txt| + k, i);
      assert code.FlipIn(txt + tail, |txt| + k, i) == txt + code.FlipIn(tail, k, i);
      code.SumIsZero(r, code.Syndrome(i, 1 - k));
    }
    if IsTailBit(code, r) {
      var m: nat :| m < 16 && TailSyndrome(code, m) == r;
      var k, i := 1 - m / 8, m % 8;
      assert m == 8 * (1 - k) + i;
      assert code.Check(code.zeroW, txt + code.FlipIn(tail, k, i)) == code.zeroW;
    }
  }

  // ----- the search of fixprerr

  /** The first choice of bits, trying bit 0 of the first place first, that leaves an acceptable residue. */
  function Repair<B(!new), W(!new,==)>(code: Code<B, W>, n: nat, crc: W, places: seq<nat>): Option<seq<nat>>
    requires Below(places, n)
    decreases |places|, 9
  {
    if places == [] then (if Acceptable(code, crc) then Some([]) else None)
    else RepairFrom(code, n, crc, places, 0)
  }

  function RepairFrom<B(!new), W(!new,==)>(code: Code<B, W>, n: nat, crc: W, places: seq<nat>, i: nat): Option<seq<nat>>
    requires places != [] && i <= 8 && Below(places, n)
    decreases |places|, 8 - i
  {
    if i == 8 then None else
    match Repair(code, n, code.addW(crc, code.Syndrome(i, n + 1 - places[0])), places[1..])
    case Some(bits) => Some([i] + bits)
    case None => RepairFrom(code, n, crc, places, i + 1)
  }

  ghost predicate Repairs<B(!new), W(!new)>(code: Code<B, W>, n: nat, crc: W, places: seq<nat>, bits: seq<nat>)
    requires Below(places, n)
  {
    Choice(places, bits) && Acceptable(code, Residue(code, n, crc, places, bits))
  }

  /** The search finds a choice that repairs, and finds one whenever there is one. */
  lemma {:induction false} RepairIsComplete<B(!new), W(!new)>(code: Code<B, W>, n: nat, crc: W, places: seq<nat>)
    requires Below(places, n)
    ensures match Repair(code, n, crc, places)
            case Some(bits) => Repairs(code, n, crc, places, bits)
            case None => forall bits :: !Repairs(code, n, crc, places, bits)
    decreases |places|, 9
  {
    if places == [] {
      assert forall bits: seq<nat> :: |bits| == 0 ==> bits == [];
    } else {
      RepairFromIsComplete(code, n, crc, places, 0);
    }
  }

  lemma {:induction false} RepairFromIsComplete<B(!new), W(!new)>(code: Code<B, W>, n: nat, crc: W, places: seq<nat>,
                                                                  i: nat)
    requires places != [] && i <= 8 && Below(places, n)
    ensures match RepairFrom(code, n, crc, places, i)
            case Some(bits) => Repairs(code, n, crc, places, bits)
            case None => forall bits :: Repairs(code, n, crc, places, bits) ==> bits[0] < i
    decreases |places|, 8 - i
  {
    if i < 8 {
      var crc' := code.addW(crc, code.Syndrome(i, n + 1 - places[0]));
      var rest := places[1..];
      RepairIsComplete(code, n, crc', rest);
      match Repair(code, n, crc', rest)
      case Some(bits) =>
        assert ([i] + bits)[1..] == bits;
      case None =>
        RepairFromIsComplete(code, n, crc, places, i + 1);
        forall bits | Repairs(code, n, crc, places, bits) && bits[0] == i
          ensures false
        {
          assert Repairs(code, n, crc', rest, bits[1..]);
        }
    }
  }

  // ----- the order of the search

  /** x is y or comes before it in lexicographic order. */
  predicate NoLater(x: seq<nat>, y: seq<nat>)
    requires |x| == |y|
  {
    x == [] || x[0] < y[0] || (x[0] == y[0] && NoLater(x[1..], y[1..]))
  }

  /** Of all choices that repair, the search finds the first. */
  lemma {:induction false} RepairIsFirst<B(!new), W(!new)>(code: Code<B, W>, n: nat, crc: W, places: seq<nat>,
                                                           bits: seq<nat>)
    requires Below(places, n) && Repairs(code, n, crc, places, bits)
    ensures Repair(code, n, crc, places).Some? && |Repair(code, n, crc, places).value| == |bits|
    ensures NoLater(Repair(code, n, crc, places).value, bits)
    decreases |places|, 9
  {
    if places != [] {
      RepairFromIsFirst(code, n, crc, places, 0, bits);
    }
  }

  lemma {:induction false} RepairFromIsFirst<B(!new), W(!new)>(code: Code<B, W>, n: nat, crc: W, places: seq<nat>,
                                                               i: nat, bits: seq<nat>)
    requires places != [] && i <= 8 && Below(places, n) && Repairs(code, n, crc, places, bits) && i <= bits[0]
    ensures RepairFrom(code, n, crc, places, i).Some? && |RepairFrom(code, n, crc, places, i).value| == |bits|
    ensures NoLater(RepairFrom(code, n, crc, places, i).value, bits)
    decreases |places|, 8 - i
  {
    var crc' := code.addW(crc, code.Syndrome(i, n + 1 - places[0]));
    if i == bits[0] {
      RepairIsFirst(code, n, crc', places[1..], bits[1..]);
      assert ([i] + Repair(code, n, crc', places[1..]).value)[1..] == Repair(code, n, crc', places[1..]).value;
    } else {
      RepairIsComplete(code, n, crc', places[1..]);
      if Repair(code, n, crc', places[1..]).None? {
        RepairFromIsFirst(code, n, crc, places, i + 1, bits);
      }
    }
  }
}
