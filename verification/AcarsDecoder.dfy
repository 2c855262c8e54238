/** The ACARS decoder as it runs, on its own buffers (acars-decoder.cpp). */
module AcarsDecoder {
  import opened BlockRecovery
  import opened Framing
  import opened LinearCode
  import opened Options
  import opened Recovery
  import opened Reception
  import opened Signal
  import opened TableUse

  const BUFFER := 256

  ghost predicate SyndromeEntry<B(!new), W(!new)>(code: Code<B, W>, syndrom: seq<W>, i: nat, d: nat) {
    i + 8 * d < |syndrom| && syndrom[i + 8 * d] == code.Syndrome(i, d)
  }

  ghost predicate IsSyndromeTable<B(!new), W(!new)>(code: Code<B, W>, syndrom: seq<W>) {
    forall i, d :: 0 <= i < 8 && 0 <= d < 242 ==> SyndromeEntry(code, syndrom, i, d)
  }

  /** The blocks that the table is long enough for, see TableUse.AskedBeyondIff. */
  ghost predicate InTable<B(!new), W(!new)>(code: Code<B, W>, force: B -> B, verbose: bool, b: Block<B>) {
    |b.text| < 13 || (var t := Forced(force, b.text);
                      !AsksBeyond(code, verbose, t, code.Check(code.zeroW, t + [b.c0, b.c1])))
  }

  lemma FirstIsOdd<B(!new), W(!new)>(code: Code<B, W>, verbose: bool, t: seq<B>, crc: W)
    requires |t| <= 241 && !AsksBeyond(code, verbose, t, crc) && 1 <= |EvenPlaces(code, t)| <= Framing.MAXPERR
    ensures var pr := EvenPlaces(code, t); forall j :: 0 <= j < |pr| ==> |t| <= pr[j] + 240
    ensures Doubles(code, verbose, |t|, crc, EvenPlaces(code, t)) ==> |t| <= 240 || IsTailBit(code, crc)
  {
  }

  /** What the loops of fixdberr look for in a text: the first try from one on that hits, which tries hit, and the text
      with the two bits of a try flipped. */
  datatype Search<!B> = Search(first: nat -> Option<nat>, hits: nat -> bool, flipped: nat -> seq<B>)

  /** Try m is of interest. */
  ghost predicate Tried(m: nat) {
    true
  }

  ghost predicate Names<B(!new), W(!new)>(code: Code<B, W>, s: Search<B>, n: nat, txt: seq<B>, crc: W) {
    && |txt| == n
    && forall m: nat {:trigger Tried(m)} :: Tried(m) && m < 64 * n ==>
         && s.hits(m) == DoubleHit(code, n, crc, m) && s.flipped(m) == FlipDouble(code, txt, m)
         && s.first(m) == (if s.hits(m) then Some(m) else s.first(m + 1))
  }

  lemma SearchOf<B(!new), W(!new)>(code: Code<B, W>, txt: seq<B>, crc: W) returns (s: Search<B>)
    ensures Names(code, s, |txt|, txt, crc) && s.first(64 * |txt|) == None
    ensures s.first(0) == FirstDouble(code, |txt|, crc, 0)
    ensures forall m: nat :: m < 64 * |txt| ==> s.flipped(m) == FlipDouble(code, txt, m)
  {
    var n := |txt|;
    s := Search((m: nat) => if m <= 64 * n then FirstDouble(code, n, crc, m) else None,
                (m: nat) => m < 64 * n && DoubleHit(code, n, crc, m),
                (m: nat) => if m < 64 * n then FlipDouble(code, txt, m) else txt);
  }

  /** b is a block some processBlock is about to get. */
  ghost predicate Handed<B>(b: Block<B>) {
    true
  }

  /** Bytes B and check words W with their operations; syndrom is the table of syndrom.h, 8 words for each
      number of bytes behind. */
  class Decoder<B(!new,==), W(!new,==)> {
    const code: Code<B, W>
    const line: Line<B>
    const force: B -> B
    const strip: B -> B
    const syndrom: seq<W>
    const verbose: bool
    const blkTxt: array<B>
    const blkCrc: array<B>
    var nbits: int
    var outbits: B
    var state: State
    var blkLen: int
    var blkErr: nat
    var mskS: nat
    /** What a block makes processBlock print. */
    ghost const out: Block<B> -> seq<seq<B>>
    /** Whether the table is long enough for a block. */
    ghost const fits: Block<B> -> bool
    /** What output_msg was given. */
    var printed: seq<seq<B>>

    ghost predicate Tabled()
      reads this
    {
      blkTxt.Length == BUFFER && IsSyndromeTable(code, syndrom)
    }

    ghost predicate Valid()
      reads this
    {
      && Tabled() && blkCrc.Length == 2 && blkTxt != blkCrc && (forall b :: line.odd(b) <==> code.OddB(b))
      && (forall b {:trigger Handed(b)} :: Handed(b) ==>
            && out(b) == Output(BlockRecovery.ProcessBlock(code, force, strip, verbose, b.text, [b.c0, b.c1]))
            && fits(b) == InTable(code, force, verbose, b))
    }

    constructor (code: Code<B, W>, line: Line<B>, force: B -> B, strip: B -> B, syndrom: seq<W>, verbose: bool)
      requires IsSyndromeTable(code, syndrom) && forall b :: line.odd(b) <==> code.OddB(b)
      ensures Valid() && fresh(blkTxt) && fresh(blkCrc)
      ensures this.code == code && this.line == line && this.force == force && this.strip == strip
      ensures out == Processing(code, force, strip, verbose)
      ensures this.verbose == verbose && nbits == 0 && outbits == line.zero && state == WSYN
      ensures mskS == 0 && printed == []
    {
      this.code, this.line, this.force, this.strip, this.syndrom := code, line, force, strip, syndrom;
      this.verbose := verbose;
      this.out := Processing(code, force, strip, verbose);
      this.fits := b => InTable(code, force, verbose, b);
      blkTxt := new B[BUFFER](_ => line.zero);
      blkCrc := new B[2](_ => line.zero);
      nbits, outbits, state, blkLen, blkErr, mskS, printed := 0, line.zero, WSYN, 0, 0, 0, [];
    }

    /** numbits [b] */
    function NumBits(b: B): nat {
      code.Ones(code.embed(b), code.width)
    }

    method SyndromAt(i: nat, d: nat) returns (s: W)
      requires Tabled() && i < 8 && d < 242
      ensures s == code.Syndrome(i, d)
    {
      assert SyndromeEntry(code, syndrom, i, d);
      s := syndrom[i + 8 * d];
    }

    /** The syndromes of the bits of the two check bytes. */
    method IsCheckBit(crc: W) returns (found: bool)
      requires Tabled()
      ensures found == IsTailBit(code, crc)
    {
      var i := 0;
      while i < 16
        invariant 0 <= i <= 16
        invariant forall k: nat :: k < i ==> TailSyndrome(code, k) != crc
      {
        var s := SyndromAt(i % 8, i / 8);
        if s == crc {
          assert TailSyndrome(code, i) == crc;
          return true;
        }
        i := i + 1;
      }
      return false;
    }

    /** Try every choice of one bit in each listed byte, and flip on the way back. */
    method FixPrErr(len: nat, crc: W, pr: seq<nat>) returns (ok: bool)
      requires Tabled() && len <= BUFFER
      requires Below(pr, len) && forall j :: 0 <= j < |pr| ==> len <= pr[j] + 240
      modifies blkTxt
      ensures ok ==> Repair(code, len, crc, pr).Some? && |Repair(code, len, crc, pr).value| == |pr|
      ensures ok ==> blkTxt[..len] == FlipAll(code, old(blkTxt[..len]), pr, Repair(code, len, crc, pr).value)
      ensures !ok ==> Repair(code, len, crc, pr).None? && blkTxt[..] == old(blkTxt[..])
      ensures blkTxt[len..] == old(blkTxt[len..])
      decreases |pr|
    {
      if pr != [] {
        var i := 0;
        while i < 8
          invariant 0 <= i <= 8
          invariant blkTxt[..] == old(blkTxt[..])
          invariant Repair(code, len, crc, pr) == RepairFrom(code, len, crc, pr, i)
        {
          var s := SyndromAt(i, len - pr[0] + 1);
          var fixed := FixPrErr(len, code.addW(crc, s), pr[1..]);
          if fixed {
            blkTxt[pr[0]] := code.addB(blkTxt[pr[0]], code.unit(i));
            return true;
          }
          i := i + 1;
        }
        return false;
      } else {
        if crc == code.zeroW {
          return true;
        }
        ok := IsCheckBit(crc);
      }
    }

    /** Two bits of one byte. */
    method FixDbErr(len: nat, crc: W) returns (ok: bool)
      requires Tabled() && (len <= 240 || (IsTailBit(code, crc) && len <= BUFFER))
      modifies blkTxt
      ensures ok <==> FixDouble(code, old(blkTxt[..len]), crc).Some?
      ensures ok ==> blkTxt[..len] == FixDouble(code, old(blkTxt[..len]), crc).value
      ensures blkTxt[len..] == old(blkTxt[len..])
    {
      ok := IsCheckBit(crc);
      if ok {
        return;
      }
      ok := TryBytes(len, crc);
    }

    /** The loops of fixdberr. */
    method TryBytes(len: nat, crc: W) returns (ok: bool)
      requires Tabled() && len <= 240
      modifies blkTxt
      ensures ok <==> FirstDouble(code, len, crc, 0).Some?
      ensures ok ==> blkTxt[..len] == FlipDouble(code, old(blkTxt[..len]), FirstDouble(code, len, crc, 0).value)
      ensures blkTxt[len..] == old(blkTxt[len..])
    {
      ghost var s := SearchOf(code, blkTxt[..len], crc);
      ok := TryFrom(len, crc, blkTxt[..len], s);
    }

    /** The outer loop. */
    method TryFrom(len: nat, crc: W, ghost txt: seq<B>, ghost s: Search<B>) returns (ok: bool)
      requires Tabled() && len <= 240 && txt == blkTxt[..len] && Names(code, s, len, txt, crc)
      modifies blkTxt
      ensures ok ==> s.first(0).Some? && blkTxt[..len] == s.flipped(s.first(0).value)
      ensures !ok ==> s.first(0) == s.first(64 * len) && blkTxt[..] == old(blkTxt[..])
      ensures blkTxt[len..] == old(blkTxt[len..])
    {
      var k := 0;
      while k < len
        invariant 0 <= k <= len && blkTxt[..] == old(blkTxt[..]) && s.first(0) == s.first(64 * k)
      {
        ok := TryByte(len, crc, k, txt, s);
        if ok {
          return;
        }
        k := k + 1;
      }
      ok := false;
    }

    /** The middle loop. */
    method TryByte(len: nat, crc: W, k: nat, ghost txt: seq<B>, ghost s: Search<B>) returns (ok: bool)
      requires Tabled() && len <= BUFFER && k < len <= k + 240
      requires txt == blkTxt[..len] && Names(code, s, len, txt, crc)
      modifies blkTxt
      ensures ok ==> s.first(64 * k).Some? && blkTxt[..len] == s.flipped(s.first(64 * k).value)
      ensures !ok ==> s.first(64 * k) == s.first(64 * k + 64) && blkTxt[..] == old(blkTxt[..])
      ensures blkTxt[len..] == old(blkTxt[len..])
    {
      var i := 0;
      while i < 8
        invariant 0 <= i <= 8 && blkTxt[..] == old(blkTxt[..]) && s.first(64 * k) == s.first(64 * k + 8 * i)
      {
        ok := TryPairs(len, crc, k, i, txt, s);
        if ok {
          return;
        }
        i := i + 1;
      }
      ok := false;
    }

    /** The inner loop. */
    method TryPairs(len: nat, crc: W, k: nat, i: nat, ghost txt: seq<B>, ghost s: Search<B>) returns (ok: bool)
      requires Tabled() && len <= BUFFER && k < len <= k + 240 && i < 8
      requires txt == blkTxt[..len] && Names(code, s, len, txt, crc)
      modifies blkTxt
      ensures ok ==> s.first(64 * k + 8 * i).Some? && blkTxt[..len] == s.flipped(s.first(64 * k + 8 * i).value)
      ensures !ok ==> s.first(64 * k + 8 * i) == s.first(64 * k + 8 * i + 8) && blkTxt[..] == old(blkTxt[..])
      ensures blkTxt[len..] == old(blkTxt[len..])
    {
      var j := 0;
      while j < 8
        invariant 0 <= j <= 8 && blkTxt[..] == old(blkTxt[..])
        invariant s.first(64 * k + 8 * i) == s.first(64 * k + 8 * i + j)
      {
        ok := IsPair(len, crc, k, i, j);
        assert Tried(64 * k + 8 * i + j);
        if ok {
          assert blkTxt[..len] == txt && blkTxt[len..] == old(blkTxt[len..]);
          FlipPair(len, k, i, j);
          return;
        }
        j := j + 1;
      }
      return false;
    }

    method IsPair(len: nat, crc: W, k: nat, i: nat, j: nat) returns (hit: bool)
      requires Tabled() && len <= BUFFER && k < len <= k + 240 && i < 8 && j < 8
      ensures hit == DoubleHit(code, len, crc, 64 * k + 8 * i + j)
    {
      PairIndex(k, i, j);
      if i == j {
        return false;
      }
      var s := SyndromAt(i, len - k + 1);
      var t := SyndromAt(j, len - k + 1);
      return code.addW(code.addW(crc, s), t) == code.zeroW;
    }

    method FlipPair(len: nat, k: nat, i: nat, j: nat)
      requires len <= BUFFER == blkTxt.Length && k < len && i < 8 && j < 8
      modifies blkTxt
      ensures blkTxt[..len] == FlipDouble(code, old(blkTxt[..len]), 64 * k + 8 * i + j)
      ensures blkTxt[len..] == old(blkTxt[len..])
    {
      PairIndex(k, i, j);
      blkTxt[k] := code.addB(blkTxt[k], code.unit(i));
      blkTxt[k] := code.addB(blkTxt[k], code.unit(j));
    }

    /** update_crc over the text and the two check bytes. */
    method CheckWord(len: nat) returns (crc: W)
      requires Valid() && len <= BUFFER
      ensures crc == code.Check(code.zeroW, blkTxt[..len] + blkCrc[..])
    {
      crc := code.zeroW;
      var i := 0;
      while i < len
        invariant 0 <= i <= len
        invariant crc == code.Check(code.zeroW, blkTxt[..i])
      {
        crc := code.Step(crc, blkTxt[i]);
        assert blkTxt[..i + 1][..i] == blkTxt[..i];
        i := i + 1;
      }
      crc := code.Step(crc, blkCrc[0]);
      crc := code.Step(crc, blkCrc[1]);
      ghost var t := blkTxt[..len];
      assert (t + blkCrc[..1])[..len] == t && (t + blkCrc[..])[..len + 1] == t + blkCrc[..1];
    }

    /** numbits [b] & 01 */
    method IsEven(b: B) returns (even: bool)
      ensures even <==> !code.OddB(b)
    {
      code.OnesParity(code.embed(b), code.width);
      even := NumBits(b) % 2 == 0;
    }

    /** The places of even parity, unless there are more than MAXPERR of them. */
    method CountEven(len: nat) returns (pr: seq<nat>, pn: nat)
      requires len <= BUFFER == blkTxt.Length
      ensures pn <= Framing.MAXPERR ==> pr == EvenPlaces(code, blkTxt[..len])
      ensures pn > Framing.MAXPERR <==> |EvenPlaces(code, blkTxt[..len])| > Framing.MAXPERR
    {
      ghost var txt := blkTxt[..len];
      ghost var places := PlacesUpTo(code, txt);
      pr, pn := [], 0;
      var i := 0;
      while i < len
        invariant 0 <= i <= len && places(i) == pr && pn == |pr| <= Framing.MAXPERR
      {
        assert Grows(code, txt, i, places);
        var even := IsEven(blkTxt[i]);
        if even {
          if pn < Framing.MAXPERR {
            pr := pr + [i];
          }
          pn := pn + 1;
          if pn > Framing.MAXPERR {
            return;
          }
        }
        i := i + 1;
      }
    }

    /** Parity is counted once more and stripped. */
    method StripText(len: nat) returns (pn: nat)
      requires len <= BUFFER == blkTxt.Length
      modifies blkTxt
      ensures blkTxt[..len] == Strip(strip, old(blkTxt[..len])) && pn == |EvenPlaces(code, old(blkTxt[..len]))|
    {
      ghost var txt := blkTxt[..len];
      ghost var places := PlacesUpTo(code, txt);
      pn := 0;
      var i := 0;
      while i < len
        invariant 0 <= i <= len
        invariant forall k :: 0 <= k < len ==> blkTxt[k] == if k < i then strip(txt[k]) else txt[k]
        invariant pn == |places(i)|
      {
        assert Grows(code, txt, i, places);
        var even := IsEven(blkTxt[i]);
        if even {
          pn := pn + 1;
        }
        blkTxt[i] := strip(blkTxt[i]);
        i := i + 1;
      }
    }

    /** Parity once more, strip it and print. */
    method FinishBlock(len: nat)
      requires Valid() && len <= BUFFER
      modifies blkTxt, `printed
      ensures printed == old(printed) + Output(Finish(code, strip, old(blkTxt[..len])))
    {
      var pn := StripText(len);
      if pn > 0 {
        return;
      }
      printed := printed + [blkTxt[..len]];
    }

    /** The repair of a block with bytes of even parity. */
    method CorrectBlock(len: nat, crc: W, pr: seq<nat>) returns (ok: bool)
      requires Valid() && len <= 241 && !AsksBeyond(code, verbose, blkTxt[..len], crc)
      requires pr == EvenPlaces(code, blkTxt[..len]) && 1 <= |pr| <= Framing.MAXPERR
      modifies blkTxt
      ensures ok <==> Corrected(code, verbose, old(blkTxt[..len]), crc).Some?
      ensures ok ==> blkTxt[..len] == Corrected(code, verbose, old(blkTxt[..len]), crc).value
    {
      FirstIsOdd(code, verbose, blkTxt[..len], crc);
      ok := FixPrErr(len, crc, pr);
      if ok && !verbose && crc != code.zeroW {
        ok := FixDbErr(len, crc);
      }
    }

    /** processBlock */
    method ProcessBlock(len: nat)
      requires Valid() && len <= 241 && InTable(code, force, verbose, Block(blkTxt[..len], blkCrc[0], blkCrc[1]))
      modifies blkTxt, `printed
      ensures printed == old(printed)
           + Output(BlockRecovery.ProcessBlock(code, force, strip, verbose, old(blkTxt[..len]), old(blkCrc[..])))
    {
      if len < 13 {
        return;
      }
      blkTxt[12] := force(blkTxt[12]);
      assert blkTxt[..len] == Forced(force, old(blkTxt[..len]));
      assert blkCrc[..] == [blkCrc[0], blkCrc[1]];
      ProcessForced(len);
    }

    method ProcessForced(len: nat)
      requires Valid() && len <= 241
      requires !AsksBeyond(code, verbose, blkTxt[..len], code.Check(code.zeroW, blkTxt[..len] + blkCrc[..]))
      modifies blkTxt, `printed
      ensures printed == old(printed)
           + Output(BlockRecovery.ProcessForced(code, strip, verbose, old(blkTxt[..len]), old(blkCrc[..])))
    {
      var pr, pn := CountEven(len);
      if pn > Framing.MAXPERR {
        return;
      }
      var crc := CheckWord(len);
      CorrectAndFinish(len, crc, pr);
    }

    method CorrectAndFinish(len: nat, crc: W, pr: seq<nat>)
      requires Valid() && len <= 241 && !AsksBeyond(code, verbose, blkTxt[..len], crc)
      requires pr == EvenPlaces(code, blkTxt[..len]) && |pr| <= Framing.MAXPERR
      modifies blkTxt, `printed
      ensures printed == old(printed) + Output(Finished(code, strip, verbose, old(blkTxt[..len]), crc))
    {
      if |pr| > 0 {
        var ok := CorrectBlock(len, crc, pr);
        if !ok {
          return;
        }
      }
      FinishBlock(len);
    }

    // ----- framing

    /** The fields show the framer f, as far as they matter. */
    ghost predicate Shows(f: Framer<B>)
      reads this, blkTxt, blkCrc
    {
      && Valid()
      && nbits == f.nbits && outbits == f.window && state == f.state
      && (state == TXT ==> blkLen <= 240)
      && (state in {TXT, CRC1, CRC2} ==> 0 <= blkLen <= 241 && blkTxt[..blkLen] == f.text && blkErr == f.errors)
      && (state == CRC2 ==> blkCrc[0] == f.c0)
    }

    /** And what has been printed is what comes out of the blocks handed on. */
    ghost predicate Tracks(f: Framer<B>)
      reads this, blkTxt, blkCrc
    {
      Shows(f) && printed == PrintedOf(out, f.blocks)
    }

    /** If g has one block more than f, it is one the table is long enough for. */
    ghost predicate NewInTable(f: Framer<B>, g: Framer<B>)
      reads this
    {
      |g.blocks| > |f.blocks| ==> fits(g.blocks[|f.blocks|])
    }

    /** putmsg_lbl: a block is complete. */
    method PutMessage(len: nat, ghost f: Framer<B>)
      requires Valid() && len <= 241 && fits(Block(blkTxt[..len], blkCrc[0], blkCrc[1]))
      requires printed == PrintedOf(out, f.blocks)
      modifies this`state, this`nbits, this`printed, blkTxt
      ensures state == END && nbits == 8
      ensures printed == PrintedOf(out, f.blocks + [Block(old(blkTxt[..len]), old(blkCrc[0]), old(blkCrc[1]))])
    {
      ghost var block := Block(blkTxt[..len], blkCrc[0], blkCrc[1]);
      state, nbits := END, 8;
      assert Handed(block) && blkCrc[..] == [blkCrc[0], blkCrc[1]];
      ProcessBlock(len);
      assert (f.blocks + [block])[..|f.blocks|] == f.blocks;
    }

    /** One more byte of text; is it of even parity? */
    method Store(b: B, ghost f: Framer<B>) returns (even: bool)
      requires Shows(f) && state == TXT
      modifies this`blkLen, this`blkErr, blkTxt
      ensures even <==> !line.odd(b)
      ensures blkLen == |f.text| + 1 && blkTxt[..blkLen] == f.text + [b]
      ensures blkErr == f.errors + (if line.odd(b) then 0 else 1)
    {
      blkTxt[blkLen] := b;
      blkLen := blkLen + 1;
      assert blkTxt[..blkLen] == f.text + [b];
      even := IsEven(b);
      if even {
        blkErr := blkErr + 1;
      }
    }

    /** The check bytes of a text that DLE ended are in the text. */
    method MoveCheckBytes(ghost text: seq<B>)
      requires Valid() && 20 < blkLen <= 241 && blkTxt[..blkLen] == text
      modifies this`blkLen, blkCrc
      ensures Valid() && blkLen == |text| - 3 && blkTxt[..blkLen] == text[..|text| - 3]
      ensures blkCrc[0] == text[|text| - 3] && blkCrc[1] == text[|text| - 2]
    {
      blkLen := blkLen - 3;
      assert blkTxt[blkLen] == text[|text| - 3] && blkTxt[blkLen + 1] == text[|text| - 2];
      blkCrc[0] := blkTxt[blkLen];
      blkCrc[1] := blkTxt[blkLen + 1];
    }

    /** DLE ends a text whose terminator was missed; g is the framer with the DLE in its text. */
    method EndByDle(ghost g: Framer<B>, ghost next: Framer<B>)
      requires Valid() && 20 < blkLen <= 241 && blkTxt[..blkLen] == g.text
      requires next == line.Deliver(g, g.text[..|g.text| - 3], g.text[|g.text| - 3], g.text[|g.text| - 2])
      requires NewInTable(g, next) && printed == PrintedOf(out, g.blocks) && outbits == g.window
      modifies this`state, this`nbits, this`blkLen, this`printed, blkTxt, blkCrc
      ensures Tracks(next)
    {
      MoveCheckBytes(g.text);
      state := CRC2;
      PutMessage(blkLen, g);
    }

    /** decodeAcars in state TXT */
    method DecodeText(b: B, ghost f: Framer<B>, ghost next: Framer<B>)
      requires Tracks(f) && state == TXT && next == line.DecodeText(f, b) && NewInTable(f, next)
      modifies this`state, this`nbits, this`blkLen, this`blkErr, this`printed, blkTxt, blkCrc
      ensures Tracks(next)
    {
      var even := Store(b, f);
      if even && blkErr > Framing.MAXPERR + 1 {
        state, nbits := WSYN, 1;
      } else if b == line.etx || b == line.etb {
        state, nbits := CRC1, 8;
      } else if blkLen > 20 && b == line.dle {
        EndByDle(f.(text := f.text + [b], errors := blkErr), next);
      } else if blkLen > 240 {
        state, nbits := WSYN, 1;
      } else {
        nbits := 8;
      }
    }

    /** decodeAcars while waiting for SYN SYN SOH */
    method DecodeOpening(b: B, ghost f: Framer<B>, ghost next: Framer<B>)
      requires Tracks(f) && state in {WSYN, SYN2, SOH1} && next == line.Decode(f, b)
      modifies this`state, this`nbits, this`blkLen, this`blkErr, this`mskS
      ensures Tracks(next)
      ensures mskS == if next.inverted == f.inverted then old(mskS) else Toggle(old(mskS))
    {
      if state == SOH1 {
        if b == line.soh {
          state, blkLen, blkErr, nbits := TXT, 0, 0, 8;
        } else {
          state, nbits := WSYN, 1;
        }
      } else if b == line.syn {
        state, nbits := if state == WSYN then SYN2 else SOH1, 8;
      } else if b == line.invert(line.syn) {
        mskS := Toggle(mskS);
        state, nbits := SYN2, 8;
      } else {
        state, nbits := WSYN, 1;
      }
    }

    /** decodeAcars after the text */
    method DecodeClosing(b: B, ghost f: Framer<B>, ghost next: Framer<B>)
      requires Tracks(f) && state in {CRC1, CRC2, END} && next == line.Decode(f, b) && NewInTable(f, next)
      modifies this`state, this`nbits, this`printed, blkTxt, blkCrc
      ensures Tracks(next) && next.inverted == f.inverted
    {
      match state
      case CRC1 =>
        blkCrc[0] := b;
        state, nbits := CRC2, 8;
      case CRC2 =>
        blkCrc[1] := b;
        PutMessage(blkLen, f);
      case END =>
        state, nbits := WSYN, 8;
    }

    /** decodeAcars */
    method DecodeAcars(b: B, ghost f: Framer<B>, ghost next: Framer<B>)
      requires Tracks(f) && next == line.Decode(f, b) && NewInTable(f, next)
      modifies this`state, this`nbits, this`blkLen, this`blkErr, this`mskS, this`printed, blkTxt, blkCrc
      ensures Tracks(next)
      ensures mskS == if next.inverted == f.inverted then old(mskS) else Toggle(old(mskS))
    {
      match state
      case WSYN | SYN2 | SOH1 => DecodeOpening(b, f, next);
      case TXT => DecodeText(b, f, next);
      case CRC1 | CRC2 | END => DecodeClosing(b, f, next);
    }

    /** putbit */
    method PutBit(bit: bool, ghost f: Framer<B>, ghost next: Framer<B>)
      requires Tracks(f) && next == line.PutBit(f, bit) && NewInTable(f, next)
      modifies this`outbits, this`state, this`nbits, this`blkLen, this`blkErr, this`mskS, this`printed, blkTxt, blkCrc
      ensures Tracks(next)
      ensures mskS == if next.inverted == f.inverted then old(mskS) else Toggle(old(mskS))
    {
      outbits := line.push(outbits, bit);
      nbits := nbits - 1;
      if nbits <= 0 {
        DecodeAcars(outbits, f.(window := outbits, nbits := nbits), next);
      }
    }

    /** process, from the matched filter on. */
    method Process(v: Point, ghost d: Demod<B>)
      requires Tracks(d.framer) && mskS == d.mskS && NewInTable(d.framer, Signal.Process(line, d, v).framer)
      modifies this`outbits, this`state, this`nbits, this`blkLen, this`blkErr, this`mskS, this`printed, blkTxt, blkCrc
      ensures Tracks(Signal.Process(line, d, v).framer) && mskS == Signal.Process(line, d, v).mskS
    {
      ghost var next := line.PutBit(d.framer, Decide(d.mskS, v));
      match mskS % 4 {
        case 0 => PutBit(v.re > 0.0, d.framer, next);
        case 1 => PutBit(v.im > 0.0, d.framer, next);
        case 2 => PutBit(-v.re > 0.0, d.framer, next);
        case _ => PutBit(-v.im > 0.0, d.framer, next);
      }
      mskS := mskS + 1;
    }
  }

  lemma PairIndex(k: nat, i: nat, j: nat)
    requires i < 8 && j < 8
    ensures (64 * k + 8 * i + j) / 64 == k && (64 * k + 8 * i + j) / 8 % 8 == i && (64 * k + 8 * i + j) % 8 == j
  {
  }

  lemma NextPlace<B(!new), W(!new)>(code: Code<B, W>, txt: seq<B>, i: nat)
    requires i < |txt|
    ensures EvenPlaces(code, txt[..i + 1]) == EvenPlaces(code, txt[..i]) + (if code.OddB(txt[i]) then [] else [i])
  {
    assert txt[..i + 1][..i] == txt[..i];
  }

  lemma {:induction false} MoreEven<B(!new), W(!new)>(code: Code<B, W>, txt: seq<B>, k: nat)
    requires k <= |txt|
    ensures |EvenPlaces(code, txt[..k])| <= |EvenPlaces(code, txt)|
    decreases |txt|
  {
    if k < |txt| {
      MoreEven(code, txt[..|txt| - 1], k);
      assert txt[..|txt| - 1][..k] == txt[..k];
    } else {
      assert txt[..k] == txt;
    }
  }

  /** What byte i adds to the places of even parity, of which the later bytes take none away. */
  ghost predicate Grows<B(!new), W(!new)>(code: Code<B, W>, txt: seq<B>, i: nat, places: nat -> seq<nat>)
    requires i < |txt|
  {
    && places(i + 1) == (if code.OddB(txt[i]) then places(i) else places(i) + [i])
    && |places(i + 1)| <= |places(|txt|)|
  }

  lemma PlacesUpTo<B(!new), W(!new)>(code: Code<B, W>, txt: seq<B>) returns (places: nat -> seq<nat>)
    ensures places(0) == [] && places(|txt|) == EvenPlaces(code, txt)
    ensures forall i :: 0 <= i < |txt| ==> Grows(code, txt, i, places)
  {
    places := (k: nat) => if k <= |txt| then EvenPlaces(code, txt[..k]) else [];
    assert txt[..|txt|] == txt;
    forall i | 0 <= i < |txt|
      ensures Grows(code, txt, i, places)
    {
      NextPlace(code, txt, i);
      MoreEven(code, txt, i + 1);
    }
  }
}
