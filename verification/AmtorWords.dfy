/** Words of seven bits, four of them ones, sent with the highest bit first. */
module AmtorWords {
  import opened Bits

  const ALPHA: nat := 0x78
  const BETA: nat := 0x33

  predicate Phasing(w: nat) {
    w == ALPHA || w == BETA
  }

  function One(b: bool): nat {
    if b then 1 else 0
  }

  /** What a shift register holds after these bits. */
  function Value(bits: seq<bool>): nat {
    if bits == [] then 0 else 2 * Value(bits[..|bits| - 1]) + One(bits[|bits| - 1])
  }

  function Ones(bits: seq<bool>): nat {
    if bits == [] then 0 else Ones(bits[..|bits| - 1]) + One(bits[|bits| - 1])
  }

  /** The number of ones among the lowest n bits. */
  function LowOnes(w: nat, n: nat): nat {
    if n == 0 then 0 else LowOnes(w / 2, n - 1) + w % 2
  }

  /** The n lowest bits of a word as they are sent. */
  function BitsOf(w: nat, n: nat): (bits: seq<bool>)
    ensures |bits| == n
  {
    if n == 0 then [] else BitsOf(w / 2, n - 1) + [w % 2 == 1]
  }

  predicate Valid(w: nat) {
    w < 128 && LowOnes(w, 7) == 4
  }

  /** A word of the text: not a phasing signal. */
  predicate Plain(w: nat) {
    Valid(w) && !Phasing(w)
  }

  lemma {:induction false} ValueOfBits(w: nat, n: nat)
    requires w < Pow2(n)
    ensures Value(BitsOf(w, n)) == w
    ensures Ones(BitsOf(w, n)) == LowOnes(w, n)
  {
    if n > 0 {
      ValueOfBits(w / 2, n - 1);
      var bits := BitsOf(w, n);
      assert bits[..|bits| - 1] == BitsOf(w / 2, n - 1);
    }
  }

  lemma {:induction false} BitsOfValue(bits: seq<bool>)
    ensures Value(bits) < Pow2(|bits|)
    ensures LowOnes(Value(bits), |bits|) == Ones(bits)
  {
    if bits != [] {
      var front := bits[..|bits| - 1];
      BitsOfValue(front);
      assert Value(bits) / 2 == Value(front);
    }
  }

  /** What the oldest bit adds to the register. */
  lemma {:induction false} DropOldest(bits: seq<bool>)
    requires |bits| > 0
    ensures Value(bits) == Value(bits[1..]) + (if bits[0] then Pow2(|bits| - 1) else 0)
  {
    if |bits| > 1 {
      var front := bits[..|bits| - 1];
      DropOldest(front);
      assert bits[1..][..|bits| - 2] == front[1..];
      assert bits[1..][|bits| - 2] == bits[|bits| - 1];
    } else {
      assert bits[..0] == bits[1..];
    }
  }

  function SendAll(words: seq<nat>): (bits: seq<bool>)
    ensures |bits| == 7 * |words|
  {
    if words == [] then [] else BitsOf(words[0], 7) + SendAll(words[1..])
  }
}
