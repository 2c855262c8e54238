/** Which rows of the table syndrom processBlock asks for, and when it asks for one that is not there
    (acars-decoder.cpp, syndrom.h). */
module TableUse {
  import opened BlockRecovery
  import Framing
  import opened LinearCode
  import opened Options
  import opened Recovery

  /** The rows read by the test for a bit of the check bytes. */
  function TailRows(): set<nat> {
    {0, 1}
  }

  /** The rows that fixprerr reads. */
  function RepairRows<B(!new), W(!new,==)>(code: Code<B, W>, n: nat, crc: W, places: seq<nat>): set<nat>
    requires Below(places, n)
    decreases |places|, 9
  {
    if places == [] then (if crc == code.zeroW then {} else TailRows())
    else RepairRowsFrom(code, n, crc, places, 0)
  }

  function RepairRowsFrom<B(!new), W(!new,==)>(code: Code<B, W>, n: nat, crc: W, places: seq<nat>, i: nat): set<nat>
    requires places != [] && i <= 8 && Below(places, n)
    decreases |places|, 8 - i
  {
    if i == 8 then {} else
    var next := code.addW(crc, code.Syndrome(i, n + 1 - places[0]));
    {n + 1 - places[0]} + RepairRows(code, n, next, places[1..])
    + (if Repair(code, n, next, places[1..]).Some? then {} else RepairRowsFrom(code, n, crc, places, i + 1))
  }

  /** The rows that the loops of fixdberr read from try m on; a bit is not tried with itself. */
  function DoubleRows<B(!new), W(!new,==)>(code: Code<B, W>, n: nat, crc: W, m: nat): set<nat>
    requires m <= 64 * n
    decreases 64 * n - m
  {
    if m == 64 * n then {} else
    (if m / 8 % 8 == m % 8 then {} else {n + 1 - m / 64})
    + (if DoubleHit(code, n, crc, m) then {} else DoubleRows(code, n, crc, m + 1))
  }

  function FixDoubleRows<B(!new), W(!new,==)>(code: Code<B, W>, n: nat, crc: W): set<nat> {
    TailRows() + (if IsTailBit(code, crc) then {} else DoubleRows(code, n, crc, 0))
  }

  /** The rows that processBlock reads, once byte 12 has been forced, if the check word is crc. */
  function BlockRows<B(!new), W(!new,==)>(code: Code<B, W>, verbose: bool, t: seq<B>, crc: W): set<nat> {
    var places := EvenPlaces(code, t);
    if places == [] || |places| > Framing.MAXPERR then {} else
    RepairRows(code, |t|, crc, places)
    + (if Doubles(code, verbose, |t|, crc, places) then FixDoubleRows(code, |t|, crc) else {})
  }

  // ----- the bound

  predicate RowOfPlace(n: nat, places: seq<nat>, r: nat) {
    r in TailRows() || exists j :: 0 <= j < |places| && r == n + 1 - places[j]
  }

  lemma {:induction false} RepairRowsArePlaces<B(!new), W(!new)>(code: Code<B, W>, n: nat, crc: W, places: seq<nat>,
                                                                 r: nat)
    requires Below(places, n) && r in RepairRows(code, n, crc, places)
    ensures RowOfPlace(n, places, r)
    decreases |places|, 9
  {
    if places != [] {
      RepairRowsFromArePlaces(code, n, crc, places, 0, r);
    }
  }

  lemma {:induction false} RepairRowsFromArePlaces<B(!new), W(!new)>(code: Code<B, W>, n: nat, crc: W,
                                                                     places: seq<nat>, i: nat, r: nat)
    requires places != [] && i <= 8 && Below(places, n) && r in RepairRowsFrom(code, n, crc, places, i)
    ensures RowOfPlace(n, places, r)
    decreases |places|, 8 - i
  {
    var next := code.addW(crc, code.Syndrome(i, n + 1 - places[0]));
    if r == n + 1 - places[0] {
    } else if r in RepairRows(code, n, next, places[1..]) {
      RepairRowsArePlaces(code, n, next, places[1..], r);
      if r !in TailRows() {
        var j :| 0 <= j < |places[1..]| && r == n + 1 - places[1..][j];
        assert r == n + 1 - places[j + 1];
      }
    } else {
      RepairRowsFromArePlaces(code, n, crc, places, i + 1, r);
    }
  }

  lemma {:induction false} DoubleRowsAreBytes<B(!new), W(!new)>(code: Code<B, W>, n: nat, crc: W, m: nat, r: nat)
    requires m <= 64 * n && r in DoubleRows(code, n, crc, m)
    ensures r <= n + 1
    decreases 64 * n - m
  {
    if r != n + 1 - m / 64 {
      DoubleRowsAreBytes(code, n, crc, m + 1, r);
    }
  }

  /** The first byte is tried first. */
  lemma FirstByteIsTried<B(!new), W(!new)>(code: Code<B, W>, n: nat, crc: W, m: nat)
    requires n > 0 && m == 0
    ensures n + 1 in DoubleRows(code, n, crc, m)
  {
    assert n + 1 in DoubleRows(code, n, crc, m + 1);
  }

  /** Of a text of at most 241 bytes, some row is asked for that is not there exactly if AsksBeyond says so, and
      then it is row 242. */
  lemma AskedBeyondIff<B(!new), W(!new)>(code: Code<B, W>, verbose: bool, t: seq<B>, crc: W)
    requires |t| < ROWS
    ensures AsksBeyond(code, verbose, t, crc) <==> exists r :: r in BlockRows(code, verbose, t, crc) && r >= ROWS
    ensures AsksBeyond(code, verbose, t, crc) <==> ROWS in BlockRows(code, verbose, t, crc)
  {
    var places, n := EvenPlaces(code, t), |t|;
    if AsksBeyond(code, verbose, t, crc) {
      RowIsAsked(code, verbose, t, crc);
    }
    if r: nat :| r in BlockRows(code, verbose, t, crc) && r >= ROWS {
      OnlyRow(code, verbose, t, crc, r);
    }
  }

  lemma FirstPlace<B(!new), W(!new)>(code: Code<B, W>, t: seq<B>)
    requires t != []
    ensures EvenPlaces(code, t) != [] && EvenPlaces(code, t)[0] == 0 <==> !code.OddB(t[0])
  {
    var places := EvenPlaces(code, t);
    if !code.OddB(t[0]) {
      var j :| 0 <= j < |places| && places[j] == 0;
      assert j > 0 ==> places[0] < places[j];
    }
  }

  lemma RowIsAsked<B(!new), W(!new)>(code: Code<B, W>, verbose: bool, t: seq<B>, crc: W)
    requires AsksBeyond(code, verbose, t, crc)
    ensures ROWS in BlockRows(code, verbose, t, crc)
  {
    var places, n := EvenPlaces(code, t), |t|;
    if code.OddB(t[0]) {
      FirstByteIsTried(code, n, crc, 0);
    } else {
      FirstPlace(code, t);
      assert n + 1 - places[0] in RepairRowsFrom(code, n, crc, places, 0);
    }
  }

  lemma OnlyRow<B(!new), W(!new)>(code: Code<B, W>, verbose: bool, t: seq<B>, crc: W, r: nat)
    requires |t| < ROWS && r in BlockRows(code, verbose, t, crc) && r >= ROWS
    ensures AsksBeyond(code, verbose, t, crc) && r == ROWS
  {
    var places, n := EvenPlaces(code, t), |t|;
    if r in RepairRows(code, n, crc, places) {
      RepairRowsArePlaces(code, n, crc, places, r);
      var j :| 0 <= j < |places| && r == n + 1 - places[j];
      assert places[j] == 0;
      assert !code.OddB(t[0]);
    } else {
      DoubleRowsAreBytes(code, n, crc, 0, r);
    }
  }

  // ----- a sent block with one wrong bit

  /** With one text bit wrong (and not forced right), row 242 is asked for exactly if the block has 241 bytes and
      either the wrong byte is the first or the decoder is quiet and goes on to fixdberr. */
  lemma HitAsksBeyondIff<B(!new), W(!new)>(code: Code<B, W>, force: B -> B, verbose: bool, txt: seq<B>, tail: seq<B>,
                                           k: nat, i: nat, t: seq<B>)
    requires code.Lawful() && Sent(code, force, txt, tail) && k < |txt| < ROWS && i < 8
    requires t == Forced(force, code.FlipIn(txt, k, i)) != txt
    ensures ROWS in BlockRows(code, verbose, t, code.Check(code.zeroW, t + tail))
       <==> |txt| == ROWS - 1 && (k == 0 || (!verbose && !IsTailBit(code, code.Syndrome(i, |txt| + 1 - k))))
  {
    var crc := code.Syndrome(i, |txt| + 1 - k);
    assert t == code.FlipIn(txt, k, i);
    AskedBeyondIff(code, verbose, t, code.Check(code.zeroW, t + tail));
    FlippedCheck(code, txt, tail, k, i);
    OneEvenPlace(code, txt, k, i);
    FlipChangesParity(code, txt[k], i);
    SingleRepair(code, txt, k, i);
    code.SyndromeIsOdd(i, |txt| + 1 - k);
    code.ZeroIsEven(code.width);
  }
}
