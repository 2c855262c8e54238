/** From bits to printed messages: framing and correction together (acars-decoder.cpp). */
module Reception {
  import opened BlockRecovery
  import opened Framing
  import opened LinearCode
  import opened Recovery

  function Output<B>(out: Outcome<B>): seq<seq<B>> {
    match out
    case Printed(text) => [text]
    case _ => []
  }

  /** What a block makes the decoder print: one text or nothing. */
  function Processing<B(!new), W(!new,==)>(code: Code<B, W>, force: B -> B, strip: B -> B,
                                           verbose: bool): Block<B> -> seq<seq<B>>
  {
    (b: Block<B>) => Output(ProcessBlock(code, force, strip, verbose, b.text, [b.c0, b.c1]))
  }

  /** All that is printed of the blocks handed to processBlock. */
  function PrintedOf<B>(out: Block<B> -> seq<seq<B>>, blocks: seq<Block<B>>): seq<seq<B>> {
    if blocks == [] then [] else PrintedOf(out, blocks[..|blocks| - 1]) + out(blocks[|blocks| - 1])
  }

  // ----- what the channel may do to a frame

  datatype Hit = Clean | TextBit(place: nat, bit: nat) | CheckBytes

  /** The hits considered here: a wrong bit may stand anywhere in the text but in the first byte of a text of 240,
      whose syndrome the table does not have. */
  predicate Possible<B(!new)>(x: Frame<B>, hit: Hit) {
    hit.TextBit? ==> hit.place < |x.text| < hit.place + 240 && hit.bit < 8
  }

  /** At most one wrong bit in the text, or check bytes of any value. */
  ghost predicate Arrives<B(!new), W(!new)>(code: Code<B, W>, x: Frame<B>, hit: Hit, y: Frame<B>)
    requires Possible(x, hit)
  {
    && y.term == x.term
    && match hit
       case Clean => y.text == x.text && y.c0 == x.c0 && y.c1 == x.c1
       case TextBit(k, i) => y.text == code.FlipIn(x.text, k, i) && y.c0 == x.c0 && y.c1 == x.c1
       case CheckBytes => y.text == x.text
  }

  ghost predicate Consistent<B(!new), W(!new)>(code: Code<B, W>, line: Line<B>) {
    && code.Lawful() && line.Lawful()
    && (forall b :: line.odd(b) <==> code.OddB(b))
    && line.odd(line.dle)
  }

  /** A frame a transmitter may send. */
  ghost predicate Proper<B(!new), W(!new)>(code: Code<B, W>, line: Line<B>, force: B -> B, x: Frame<B>) {
    line.Fine(x) && Sent(code, force, x.text + [x.term], [x.c0, x.c1])
  }

  function Message<B(!new)>(strip: B -> B, x: Frame<B>): seq<B> {
    Strip(strip, x.text + [x.term])
  }

  // ----- a hit frame still is a frame

  lemma {:induction false} FewEvens<B(!new)>(line: Line<B>, text: seq<B>, k: nat)
    requires forall j :: 0 <= j < |text| && j != k ==> line.odd(text[j])
    ensures line.Evens(text) <= 1 && (k >= |text| ==> line.Evens(text) == 0)
    decreases |text|
  {
    if text != [] {
      FewEvens(line, text[..|text| - 1], k);
    }
  }

  lemma HitFrameIsFine<B(!new), W(!new)>(code: Code<B, W>, line: Line<B>, force: B -> B, x: Frame<B>, hit: Hit,
                                         y: Frame<B>)
    requires Consistent(code, line) && Proper(code, line, force, x) && Possible(x, hit) && Arrives(code, x, hit, y)
    ensures line.Fine(y)
  {
    if hit.TextBit? {
      var k := hit.place;
      assert forall j :: 0 <= j < |x.text| ==> code.OddB((x.text + [x.term])[j]) && x.text[j] == (x.text + [x.term])[j];
      FlipChangesParity(code, x.text[k], hit.bit);
      FewEvens(line, y.text, k);
      forall j | 0 <= j < |y.text|
        ensures !line.EndsText(y.text[j], j)
      {
        assert !line.EndsText(x.text[j], j);
      }
    }
  }

  // ----- and its block is printed as it was sent

  lemma HitBlockIsPrinted<B(!new), W(!new)>(code: Code<B, W>, line: Line<B>, force: B -> B, strip: B -> B,
                                            x: Frame<B>, hit: Hit, y: Frame<B>)
    requires Consistent(code, line) && Proper(code, line, force, x) && Possible(x, hit) && Arrives(code, x, hit, y)
    ensures ProcessBlock(code, force, strip, true, y.text + [y.term], [y.c0, y.c1]) == Printed(Message(strip, x))
  {
    var sent, tail := x.text + [x.term], [x.c0, x.c1];
    match hit
    case TextBit(k, i) =>
      TextBitIsCorrected(code, force, strip, sent, tail, k, i);
      assert code.FlipIn(sent, k, i) == y.text + [y.term];
    case _ =>
      TailDoesNotMatter(code, force, strip, true, sent, tail, [y.c0, y.c1]);
  }

  function Messages<B(!new)>(strip: B -> B, xs: seq<Frame<B>>): seq<seq<B>> {
    if xs == [] then [] else Messages(strip, xs[..|xs| - 1]) + [Message(strip, xs[|xs| - 1])]
  }

  ghost predicate AllArrive<B(!new), W(!new)>(code: Code<B, W>, line: Line<B>, force: B -> B,
                                              xs: seq<Frame<B>>, hits: seq<Hit>, ys: seq<Frame<B>>)
  {
    && |xs| == |hits| == |ys|
    && forall k :: 0 <= k < |xs| ==>
         Proper(code, line, force, xs[k]) && Possible(xs[k], hits[k]) && Arrives(code, xs[k], hits[k], ys[k])
  }

  lemma {:induction false} BlocksOfLast<B(!new)>(line: Line<B>, xs: seq<Frame<B>>)
    requires xs != []
    ensures line.BlocksOf(xs) == line.BlocksOf(xs[..|xs| - 1]) + [line.BlockOf(xs[|xs| - 1])]
    decreases |xs|
  {
    if |xs| == 1 {
      assert xs[..0] == [] && xs[1..] == [];
    } else {
      BlocksOfLast(line, xs[1..]);
      assert xs[..|xs| - 1][1..] == xs[1..][..|xs| - 2];
    }
  }

  lemma LastIsPrinted<B>(out: Block<B> -> seq<seq<B>>, blocks: seq<Block<B>>, last: Block<B>, text: seq<B>)
    requires out(last) == [text]
    ensures PrintedOf(out, blocks + [last]) == PrintedOf(out, blocks) + [text]
  {
    assert (blocks + [last])[..|blocks|] == blocks;
  }

  lemma FrontArrives<B(!new), W(!new)>(code: Code<B, W>, line: Line<B>, force: B -> B,
                                       xs: seq<Frame<B>>, hits: seq<Hit>, ys: seq<Frame<B>>)
    requires AllArrive(code, line, force, xs, hits, ys) && xs != []
    ensures AllArrive(code, line, force, xs[..|xs| - 1], hits[..|xs| - 1], ys[..|xs| - 1])
  {
  }

  lemma LastArrives<B(!new), W(!new)>(code: Code<B, W>, line: Line<B>, force: B -> B, strip: B -> B,
                                      xs: seq<Frame<B>>, hits: seq<Hit>, ys: seq<Frame<B>>)
    requires Consistent(code, line) && AllArrive(code, line, force, xs, hits, ys) && xs != []
    ensures Processing(code, force, strip, true)(line.BlockOf(ys[|xs| - 1])) == [Message(strip, xs[|xs| - 1])]
  {
    var n := |xs| - 1;
    HitBlockIsPrinted(code, line, force, strip, xs[n], hits[n], ys[n]);
  }

  lemma {:induction false} BlocksArePrinted<B(!new), W(!new)>(code: Code<B, W>, line: Line<B>, force: B -> B,
                                                              strip: B -> B, xs: seq<Frame<B>>, hits: seq<Hit>,
                                                              ys: seq<Frame<B>>)
    requires Consistent(code, line) && AllArrive(code, line, force, xs, hits, ys)
    ensures PrintedOf(Processing(code, force, strip, true), line.BlocksOf(ys)) == Messages(strip, xs)
    decreases |xs|
  {
    if xs != [] {
      var n, out := |xs| - 1, Processing(code, force, strip, true);
      BlocksOfLast(line, ys);
      LastArrives(code, line, force, strip, xs, hits, ys);
      FrontArrives(code, line, force, xs, hits, ys);
      BlocksArePrinted(code, line, force, strip, xs[..n], hits[..n], ys[..n]);
      LastIsPrinted(out, line.BlocksOf(ys[..n]), line.BlockOf(ys[n]), Message(strip, xs[n]));
    }
  }

  /** Proper frames, sent one after the other with any bits between them that are taken for no SYN, each in either
      polarity and each hit in at most one bit of its text, or else only in its check bytes: a verbose decoder that
      starts with the first bit is handed their blocks and prints exactly the messages that were sent, in order. */
  lemma ReceptionIsFaithful<B(!new), W(!new)>(code: Code<B, W>, line: Line<B>, force: B -> B, strip: B -> B,
                                              xs: seq<Frame<B>>, hits: seq<Hit>, ys: seq<Frame<B>>)
    requires Consistent(code, line) && AllArrive(code, line, force, xs, hits, ys)
    requires line.Spaced(line.zero, 0, false, ys)
    ensures line.Run(line.Fresh(), line.Stream(ys)).blocks == line.BlocksOf(ys)
    ensures PrintedOf(Processing(code, force, strip, true), line.BlocksOf(ys)) == Messages(strip, xs)
  {
    forall k | 0 <= k < |ys|
      ensures line.Fine(ys[k])
    {
      HitFrameIsFine(code, line, force, xs[k], hits[k], ys[k]);
    }
    line.StreamIsRecovered(line.Fresh(), ys);
    assert [] + line.BlocksOf(ys) == line.BlocksOf(ys);
    BlocksArePrinted(code, line, force, strip, xs, hits, ys);
  }
}
