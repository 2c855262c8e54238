/** The blocks that ACARS transmits: which texts can be sent, and with what check bytes. */
module AcarsSender {
  import opened Acars
  import opened AirLine
  import opened BlockRecovery
  import opened Crc
  import opened Framing
  import opened Reception
  import opened Recovery

  /** A character of seven bits and its parity bit. */
  function WithParity(c: Byte): Byte {
    if OddParity(c) then c else ACARS.Flip(c, 7)
  }

  function Encoded(chars: seq<Byte>): (r: seq<Byte>)
    ensures |r| == |chars| && forall k :: 0 <= k < |chars| ==> r[k] == WithParity(chars[k])
  {
    seq(|chars|, k requires 0 <= k < |chars| => WithParity(chars[k]))
  }

  /** Characters of seven bits, with STX or the terminator at byte 12, and none that would end the text before. */
  predicate Sendable(chars: seq<Byte>, term: Byte) {
    && 12 <= |chars| <= 240 && (if |chars| == 12 then term == ETX else chars[12] == STX) && (term == ETX || term == ETB)
    && forall k :: 0 <= k < |chars| ==> SendableAt(chars[k], k)
  }

  predicate SendableAt(c: Byte, k: nat) {
    c < 0x80 && c != 0x03 && c != 0x17 && (k >= 20 ==> c != 0x7f)
  }

  lemma ParityBit(c: Byte)
    requires c < 0x80
    ensures StripParity(c) == c && StripParity(c ^ 0x80) == c
    ensures c ^ 0x80 == 0x83 <==> c == 0x03
    ensures c ^ 0x80 == 0x97 <==> c == 0x17
    ensures c ^ 0x80 != 0x7f
  {
  }

  lemma CharacterIsSent(c: Byte, k: nat)
    requires SendableAt(c, k)
    ensures OddParity(WithParity(c)) && StripParity(WithParity(c)) == c && !AIR.EndsText(WithParity(c), k)
  {
    AcarsIsLawful();
    FlipChangesParity(ACARS, c, 7);
    ParityBit(c);
  }

  lemma CharactersAreSent(chars: seq<Byte>, text: seq<Byte>)
    requires text == Encoded(chars) && forall k :: 0 <= k < |chars| ==> SendableAt(chars[k], k)
    ensures AllOdd(ACARS, text) && Strip(StripParity, text) == chars
    ensures forall k :: 0 <= k < |text| ==> !AIR.EndsText(text[k], k)
  {
    forall k | 0 <= k < |chars|
      ensures OddParity(text[k]) && StripParity(text[k]) == chars[k] && !AIR.EndsText(text[k], k)
    {
      CharacterIsSent(chars[k], k);
    }
  }

  lemma MarkIsSent(chars: seq<Byte>, text: seq<Byte>, term: Byte)
    requires Sendable(chars, term) && text == Encoded(chars)
    ensures (text + [term])[12] == STX || (text + [term])[12] == ETX
  {
    MarkParity();
  }

  lemma TextIsFine(chars: seq<Byte>, x: Frame<Byte>)
    requires Sendable(chars, x.term) && x.text == Encoded(chars)
    ensures AIR.Fine(x) && AllOdd(ACARS, x.text + [x.term]) && Strip(StripParity, x.text) == chars
  {
    CharactersAreSent(chars, x.text);
    FewEvens(AIR, x.text, |x.text|);
    TerminatorsAreOdd();
  }

  /** Such a text makes a frame that the decoder receives, with the low and the high byte of its check word as check
      bytes and with no others. */
  lemma TextIsSent(chars: seq<Byte>, x: Frame<Byte>)
    requires Sendable(chars, x.term) && x.text == Encoded(chars)
    ensures var r := ACARS.Check(0, x.text + [x.term]);
            IsProper(x) <==> x.c0 == LowByte(r) && x.c1 == HighByte(r)
    ensures Message(StripParity, x) == chars + [StripParity(x.term)]
  {
    TextIsFine(chars, x);
    MarkIsSent(chars, x.text, x.term);
    OneTailFits(x.text + [x.term], x.c0, x.c1);
    assert Message(StripParity, x) == Strip(StripParity, x.text) + [StripParity(x.term)];
  }
}
