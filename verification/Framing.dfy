/** From bits to blocks: the framing state machine of putbit and decodeAcars, with its recovery of the
    polarity of the signal (acars-decoder.cpp).  Bytes are any type with a bit view. */
module Framing {

  datatype State = WSYN | SYN2 | SOH1 | TXT | CRC1 | CRC2 | END

  datatype Block<B> = Block(text: seq<B>, c0: B, c1: B)

  /** text is blk_txt up to blk_len, errors blk_err; inverted says whether "MskS ^= 2" has been executed an odd
      number of times; blocks are the ones handed to processBlock. */
  datatype Framer<B> = Framer(state: State, nbits: int, window: B, inverted: bool,
                              text: seq<B>, errors: nat, c0: B, blocks: seq<Block<B>>)

  /** Bits of any kind, and then SYN once and as many times more as there are turns, each with all bits turned against
      the one before; inverted says how the last one is sent. */
  datatype Start = Start(idle: seq<bool>, turns: nat, inverted: bool)

  /** Bits that happen to look like the beginning of a frame, and the bytes after it up to the one that shows that
      they are none. */
  datatype Stray<B> = Stray(start: Start, bytes: seq<B>)

  /** A transmission: whatever comes in before it, and then the text up to its terminator, two check bytes and one more
      byte. */
  datatype Frame<B> =
    Frame(strays: seq<Stray<B>>, start: Start, text: seq<B>, term: B, c0: B, c1: B, pad: B)

  const MAXPERR := 10

  datatype Line<!B(!new,==)> = Line(push: (B, bool) -> B, bit: (B, nat) -> bool, invert: B -> B, odd: B -> bool,
                                    zero: B, syn: B, soh: B, etx: B, etb: B, dle: B)
  {

    // ----- the decoder

    function Lost(f: Framer<B>): Framer<B> {
      f.(state := WSYN, nbits := 1)
    }

    function Deliver(f: Framer<B>, text: seq<B>, c0: B, c1: B): Framer<B> {
      f.(state := END, nbits := 8, text := text, c0 := c0, blocks := f.blocks + [Block(text, c0, c1)])
    }

    /** decodeAcars in state TXT */
    function DecodeText(f: Framer<B>, b: B): Framer<B> {
      var text := f.text + [b];
      var errors := f.errors + (if odd(b) then 0 else 1);
      var g := f.(text := text, errors := errors);
      if !odd(b) && errors > MAXPERR + 1 then Lost(g)
      else if b == etx || b == etb then g.(state := CRC1, nbits := 8)
      else if |text| > 20 && b == dle then Deliver(g, text[..|text| - 3], text[|text| - 3], text[|text| - 2])
      else if |text| > 240 then Lost(g)
      else g.(nbits := 8)
    }

    /** decodeAcars */
    function Decode(f: Framer<B>, b: B): Framer<B> {
      match f.state
      case WSYN =>
        if b == syn then f.(state := SYN2, nbits := 8)
        else if b == invert(syn) then f.(state := SYN2, nbits := 8, inverted := !f.inverted)
        else f.(nbits := 1)
      case SYN2 =>
        if b == syn then f.(state := SOH1, nbits := 8)
        else if b == invert(syn) then f.(nbits := 8, inverted := !f.inverted)
        else Lost(f)
      case SOH1 =>
        if b == soh then f.(state := TXT, text := [], errors := 0, nbits := 8) else Lost(f)
      case TXT => DecodeText(f, b)
      case CRC1 => f.(c0 := b, state := CRC2, nbits := 8)
      case CRC2 => Deliver(f, f.text, f.c0, b)
      case END => f.(state := WSYN, nbits := 8)
    }

    /** putbit */
    function PutBit(f: Framer<B>, bit: bool): Framer<B> {
      var w := push(f.window, bit);
      var g := f.(window := w, nbits := f.nbits - 1);
      if g.nbits <= 0 then Decode(g, w) else g
    }

    /** A decision of the demodulator as it is before any change of MskS by the decoder. */
    function PutRaw(f: Framer<B>, raw: bool): Framer<B> {
      PutBit(f, raw != f.inverted)
    }

    function Run(f: Framer<B>, raws: seq<bool>): Framer<B>
      decreases |raws|
    {
      if raws == [] then f else Run(PutRaw(f, raws[0]), raws[1..])
    }

    lemma {:induction false} RunOfConcat(f: Framer<B>, a: seq<bool>, b: seq<bool>)
      ensures Run(f, a + b) == Run(Run(f, a), b)
      decreases |a|
    {
      if a == [] {
        assert a + b == b;
      } else {
        assert (a + b)[1..] == a[1..] + b;
        RunOfConcat(PutRaw(f, a[0]), a[1..], b);
      }
    }

    // ----- the laws of bytes

    /** The window w after the first n bits of b, least significant first. */
    function Filled(w: B, b: B, n: nat): B
      requires n <= 8
    {
      if n == 0 then w else push(Filled(w, b, n - 1), bit(b, n - 1))
    }

    /** Eight bits make the byte, whatever was there before. */
    ghost predicate BitsMakeByte(w: B, b: B) {
      Filled(w, b, 8) == b
    }

    ghost predicate InversionInverts(b: B, i: nat) {
      i < 8 ==> bit(invert(b), i) != bit(b, i)
    }

    predicate NoSyn(b: B) {
      b != syn && b != invert(syn)
    }

    ghost predicate Lawful() {
      && (forall w, b :: BitsMakeByte(w, b))
      && (forall b, i :: InversionInverts(b, i))
      && syn != invert(syn) && odd(etx) && odd(etb)
      && (forall n :: 0 <= n < 8 ==> NoSyn(Filled(zero, syn, n)) && NoSyn(Filled(zero, invert(syn), n)))
    }

    // ----- bytes on the air: least significant bit first

    function Raw(b: B, inverted: bool): (r: seq<bool>)
      ensures |r| == 8
    {
      seq(8, i requires 0 <= i < 8 => bit(b, i) != inverted)
    }

    /** The byte the decoder sees: the one sent if it has the polarity right, else its complement. */
    function Seen(f: Framer<B>, b: B, inverted: bool): B {
      if f.inverted == inverted then b else invert(b)
    }

    lemma RunStep(f: Framer<B>, raws: seq<bool>, k: nat)
      requires k < |raws|
      ensures Run(f, raws[k..]) == Run(PutRaw(f, raws[k]), raws[k + 1..])
    {
      assert raws[k..][1..] == raws[k + 1..];
    }

    lemma SeenBit(f: Framer<B>, b: B, inverted: bool, k: nat)
      requires Lawful() && k < 8
      ensures PutRaw(f, Raw(b, inverted)[k]) == PutBit(f, bit(Seen(f, b, inverted), k))
    {
      assert InversionInverts(b, k);
    }

    /** Bits that do not complete a byte. */
    lemma {:induction false} CountBits(f: Framer<B>, b: B, inverted: bool, k: nat)
      requires Lawful() && k < 8 && f.nbits == 8
      ensures Run(f, Raw(b, inverted))
           == Run(f.(nbits := 8 - k, window := Filled(f.window, Seen(f, b, inverted), k)), Raw(b, inverted)[k..])
    {
      if k == 0 {
        assert Raw(b, inverted)[0..] == Raw(b, inverted);
      } else {
        var g := f.(nbits := 9 - k, window := Filled(f.window, Seen(f, b, inverted), k - 1));
        CountBits(f, b, inverted, k - 1);
        RunStep(g, Raw(b, inverted), k - 1);
        SeenBit(g, b, inverted, k - 1);
      }
    }

    /** Eight bits make one byte, which decodeAcars gets. */
    lemma FeedByte(f: Framer<B>, b: B, inverted: bool)
      requires Lawful() && f.nbits == 8
      ensures var s := Seen(f, b, inverted);
              Run(f, Raw(b, inverted)) == Decode(f.(nbits := 0, window := s), s)
    {
      var g := f.(nbits := 1, window := Filled(f.window, Seen(f, b, inverted), 7));
      CountBits(f, b, inverted, 7);
      RunStep(g, Raw(b, inverted), 7);
      SeenBit(g, b, inverted, 7);
      assert Raw(b, inverted)[8..] == [];
      assert BitsMakeByte(f.window, Seen(f, b, inverted));
    }

    function RawBytes(bytes: seq<B>, inverted: bool): (r: seq<bool>)
    {
      if bytes == [] then [] else Raw(bytes[0], inverted) + RawBytes(bytes[1..], inverted)
    }

    lemma {:induction false} RawBytesOfConcat(a: seq<B>, b: seq<B>, inverted: bool)
      ensures RawBytes(a + b, inverted) == RawBytes(a, inverted) + RawBytes(b, inverted)
      decreases |a|
    {
      if a == [] {
        assert a + b == b;
      } else {
        assert (a + b)[1..] == a[1..] + b;
        RawBytesOfConcat(a[1..], b, inverted);
      }
    }

    /** What eight bits do. */
    function ByteStep(f: Framer<B>, b: B, inverted: bool): Framer<B> {
      var s := Seen(f, b, inverted);
      Decode(f.(nbits := 0, window := s), s)
    }

    ghost predicate Along(states: seq<Framer<B>>, bytes: seq<B>, inverted: bool) {
      && |states| == |bytes| + 1
      && forall k :: 0 <= k < |bytes| ==>
           states[k].nbits == 8 && ByteStep(states[k], bytes[k], inverted) == states[k + 1]
    }

    /** Byte by byte along the states. */
    lemma {:induction false} RunAlong(states: seq<Framer<B>>, bytes: seq<B>, inverted: bool)
      requires Lawful() && Along(states, bytes, inverted)
      ensures Run(states[0], RawBytes(bytes, inverted)) == states[|bytes|]
      decreases |bytes|
    {
      if bytes != [] {
        RunOfConcat(states[0], Raw(bytes[0], inverted), RawBytes(bytes[1..], inverted));
        FeedByte(states[0], bytes[0], inverted);
        assert ByteStep(states[0], bytes[0], inverted) == states[1];
        RunAlong(states[1..], bytes[1..], inverted);
      }
    }

    // ----- the text

    function Evens(text: seq<B>): nat {
      if text == [] then 0 else Evens(text[..|text| - 1]) + (if odd(text[|text| - 1]) then 0 else 1)
    }

    lemma {:induction false} EvensGrow(a: seq<B>, b: seq<B>)
      ensures Evens(a) <= Evens(a + b)
      decreases |b|
    {
      if b == [] {
        assert a + b == a;
      } else {
        assert (a + b)[..|a + b| - 1] == a + b[..|b| - 1];
        EvensGrow(a, b[..|b| - 1]);
      }
    }

    predicate EndsText(b: B, k: nat) {
      b == etx || b == etb || (k >= 20 && b == dle)
    }

    /** Text that does not make decodeAcars leave the state TXT. */
    ghost predicate Carries(text: seq<B>) {
      && |text| <= 240 && Evens(text) <= MAXPERR + 1
      && forall k :: 0 <= k < |text| ==> !EndsText(text[k], k)
    }

    lemma CarriesPrefix(text: seq<B>, k: nat)
      requires Carries(text) && k <= |text|
      ensures Carries(text[..k])
    {
      EvensGrow(text[..k], text[k..]);
      assert text[..k] + text[k..] == text;
    }

    // ----- frames

    /** What the decoder holds after SYN SYN SOH and the bytes of text. */
    function InText(f: Framer<B>, text: seq<B>): Framer<B> {
      f.(state := TXT, nbits := 8, text := text, errors := Evens(text),
         window := if text == [] then soh else text[|text| - 1])
    }

    lemma TextStep(f: Framer<B>, text: seq<B>, k: nat)
      requires Carries(text) && k < |text|
      ensures ByteStep(InText(f, text[..k]), text[k], f.inverted) == InText(f, text[..k + 1])
    {
      var more := text[..k + 1];
      CarriesPrefix(text, k + 1);
      assert more[..k] == text[..k] && more == text[..k] + [text[k]];
      assert !EndsText(text[k], k);
    }

    function Received(f: Framer<B>, text: seq<B>, errors: nat, c0: B, c1: B, w: B): Framer<B> {
      f.(state := END, nbits := 8, window := w, text := text, errors := errors, c0 := c0,
         blocks := f.blocks + [Block(text, c0, c1)])
    }

    /** The state after the first n of the bytes SYN SOH text. */
    function Reading(f: Framer<B>, text: seq<B>, n: nat): Framer<B>
      requires n <= |text| + 2
    {
      if n == 0 then f
      else if n == 1 then f.(state := SOH1, window := syn)
      else InText(f, text[..n - 2])
    }

    ghost predicate Synced(f: Framer<B>) {
      f.state == SYN2 && f.nbits == 8
    }

    lemma ReadingStep(f: Framer<B>, text: seq<B>, n: nat)
      requires Synced(f) && Carries(text) && n < |text| + 2
      ensures Reading(f, text, n).nbits == 8
      ensures ByteStep(Reading(f, text, n), ([syn, soh] + text)[n], f.inverted) == Reading(f, text, n + 1)
    {
      if n >= 2 {
        TextStep(f, text, n - 2);
      }
    }

    lemma ReadText(f: Framer<B>, text: seq<B>)
      requires Lawful() && Synced(f) && Carries(text)
      ensures Run(f, RawBytes([syn, soh] + text, f.inverted)) == InText(f, text)
    {
      var states := seq(|text| + 3, n requires 0 <= n < |text| + 3 => Reading(f, text, n));
      ReadingIsAlong(f, text, states);
      RunAlong(states, [syn, soh] + text, f.inverted);
      assert text[..|text|] == text;
    }

    lemma ReadingIsAlong(f: Framer<B>, text: seq<B>, states: seq<Framer<B>>)
      requires Synced(f) && Carries(text) && |states| == |text| + 3
      requires forall n :: 0 <= n < |states| ==> states[n] == Reading(f, text, n)
      ensures Along(states, [syn, soh] + text, f.inverted)
    {
      forall n | 0 <= n < |text| + 2
        ensures states[n].nbits == 8 && ByteStep(states[n], ([syn, soh] + text)[n], f.inverted) == states[n + 1]
      {
        ReadingStep(f, text, n);
      }
    }

    /** A terminator, two check bytes and one more byte. */
    lemma ReadEnd(f: Framer<B>, text: seq<B>, term: B, c0: B, c1: B, pad: B)
      requires Lawful() && Carries(text) && term in {etx, etb}
      ensures Run(InText(f, text), RawBytes([term, c0, c1, pad], f.inverted))
           == Received(f, text + [term], Evens(text), c0, c1, pad).(state := WSYN)
    {
      var g := InText(f, text).(state := CRC1, window := term, text := text + [term]);
      var e := Received(f, text + [term], Evens(text), c0, c1, c1);
      var states := [InText(f, text), g, g.(state := CRC2, window := c0, c0 := c0), e,
                     e.(state := WSYN, window := pad)];
      assert Along(states, [term, c0, c1, pad], f.inverted);
      RunAlong(states, [term, c0, c1, pad], f.inverted);
    }

    /** A text without terminator: check bytes and DLE follow, and DLE ends the block. */
    lemma FrameEndedByDle(f: Framer<B>, text: seq<B>, c0: B, c1: B)
      requires Lawful() && Synced(f) && Carries(text + [c0, c1]) && |text| >= 18
      requires dle != etx && dle != etb && (odd(dle) || Evens(text + [c0, c1]) <= MAXPERR)
      ensures Run(f, RawBytes([syn, soh] + (text + [c0, c1]) + [dle], f.inverted)).blocks
           == f.blocks + [Block(text, c0, c1)]
    {
      var body := text + [c0, c1];
      ReadText(f, body);
      RawBytesOfConcat([syn, soh] + body, [dle], f.inverted);
      RunOfConcat(f, RawBytes([syn, soh] + body, f.inverted), RawBytes([dle], f.inverted));
      var errors := Evens(body) + (if odd(dle) then 0 else 1);
      DleStep(f, text, c0, c1, errors);
      RunAlong([InText(f, body), Received(f, text, errors, c0, c1, dle)], [dle], f.inverted);
    }

    lemma DleStep(f: Framer<B>, text: seq<B>, c0: B, c1: B, errors: nat)
      requires |text| >= 18 && dle != etx && dle != etb && (odd(dle) || errors <= MAXPERR + 1)
      requires errors == Evens(text + [c0, c1]) + (if odd(dle) then 0 else 1)
      ensures ByteStep(InText(f, text + [c0, c1]), dle, f.inverted) == Received(f, text, errors, c0, c1, dle)
    {
      var all, g := text + [c0, c1] + [dle], InText(f, text + [c0, c1]).(nbits := 0, window := dle);
      BehindText(text, c0, c1, all, |text| + 3);
      DleDelivers(g, all, |all|, errors);
    }

    lemma DleDelivers(g: Framer<B>, all: seq<B>, n: nat, errors: nat)
      requires g.state == TXT && all == g.text + [dle] && |all| == n > 20 && dle != etx && dle != etb
      requires errors == g.errors + (if odd(dle) then 0 else 1) && (odd(dle) || errors <= MAXPERR + 1)
      ensures Decode(g, dle) == Deliver(g.(errors := errors), all[..n - 3], all[n - 3], all[n - 2])
    {
    }

    lemma BehindText(text: seq<B>, c0: B, c1: B, all: seq<B>, n: nat)
      requires all == text + [c0, c1] + [dle] && n == |text| + 3
      ensures |all| == n && all[..n - 3] == text && all[n - 3] == c0 && all[n - 2] == c1
    {
    }

    // ----- alignment

    /** The window w after some more bits. */
    function Pushed(w: B, bits: seq<bool>): B {
      if bits == [] then w else push(Pushed(w, bits[..|bits| - 1]), bits[|bits| - 1])
    }

    /** Bits from the air, as a decoder with this polarity sees them. */
    function Turned(raws: seq<bool>, inverted: bool): (r: seq<bool>)
      ensures |r| == |raws| && forall k :: 0 <= k < |raws| ==> r[k] == (raws[k] != inverted)
    {
      seq(|raws|, k requires 0 <= k < |raws| => raws[k] != inverted)
    }

    /** Idle bits and a SYN. */
    function Lead(idle: seq<bool>, inverted: bool): seq<bool> {
      idle + Raw(syn, inverted)
    }

    /** Before this SYN is complete, neither SYN nor its complement stands in a window that the decoder looks at: it
        does so after nbits bits for the first time, and then after every bit. */
    ghost predicate Unnoticed(w: B, nbits: int, seen: bool, idle: seq<bool>, inverted: bool) {
      var bits := Turned(Lead(idle, inverted), seen);
      forall k :: 0 < k < |bits| && nbits <= k ==> NoSyn(Pushed(w, bits[..k]))
    }

    /** A waiting decoder after the first k of these bits. */
    function Waiting(f: Framer<B>, bits: seq<bool>, k: nat): Framer<B>
      requires k <= |bits|
    {
      f.(nbits := if k == 0 then f.nbits else if k < f.nbits then f.nbits - k else 1,
         window := Pushed(f.window, bits[..k]))
    }

    lemma PushedNext(w: B, bits: seq<bool>, k: nat)
      requires 0 < k <= |bits|
      ensures Pushed(w, bits[..k]) == push(Pushed(w, bits[..k - 1]), bits[k - 1])
    {
      assert bits[..k][..k - 1] == bits[..k - 1];
    }

    lemma WaitStep(f: Framer<B>, bits: seq<bool>, k: nat, w: B)
      requires f.state == WSYN && 0 < k <= |bits| && w == Pushed(f.window, bits[..k])
      requires f.nbits <= k ==> NoSyn(w)
      ensures PutBit(Waiting(f, bits, k - 1), bits[k - 1]) == Waiting(f, bits, k)
    {
      PushedNext(f.window, bits, k);
    }

    lemma {:induction false} Waits(f: Framer<B>, raws: seq<bool>, bits: seq<bool>, k: nat)
      requires f.state == WSYN && bits == Turned(raws, f.inverted) && k < |bits|
      requires forall j :: 0 < j < |bits| && f.nbits <= j ==> NoSyn(Pushed(f.window, bits[..j]))
      ensures Run(f, raws) == Run(Waiting(f, bits, k), raws[k..])
    {
      if k == 0 {
        assert raws[0..] == raws;
      } else {
        Waits(f, raws, bits, k - 1);
        RunStep(Waiting(f, bits, k - 1), raws, k - 1);
        WaitStep(f, bits, k, Pushed(f.window, bits[..k]));
      }
    }

    /** A byte behind other bits fills the window. */
    lemma {:induction false} PushedByte(w: B, bits: seq<bool>, m: nat, b: B, n: nat)
      requires n <= 8 && m + n <= |bits| && forall j :: 0 <= j < n ==> bits[m + j] == bit(b, j)
      ensures Pushed(w, bits[..m + n]) == Filled(Pushed(w, bits[..m]), b, n)
    {
      if n > 0 {
        PushedByte(w, bits, m, b, n - 1);
        PushedNext(w, bits, m + n);
        assert bits[m + (n - 1)] == bit(b, n - 1);
      }
    }

    lemma SynBits(f: Framer<B>, idle: seq<bool>, inverted: bool, bits: seq<bool>, b: B)
      requires Lawful() && b == Seen(f, syn, inverted) && bits == Turned(Lead(idle, inverted), f.inverted)
      ensures forall j :: 0 <= j < 8 ==> bits[|idle| + j] == bit(b, j)
    {
      forall j | 0 <= j < 8
        ensures bits[|idle| + j] == bit(b, j)
      {
        assert InversionInverts(syn, j);
      }
    }

    lemma SynCompletes(f: Framer<B>, g: Framer<B>, inverted: bool, last: bool, b: B)
      requires syn != invert(syn) && g.state == WSYN && g.nbits == 1 && g.inverted == f.inverted
      requires b == Seen(f, syn, inverted) && push(g.window, last) == b
      ensures PutBit(g, last) == g.(state := SYN2, nbits := 8, window := b, inverted := inverted)
    {
    }

    /** The first SYN that comes in, as it is or inverted, tells the polarity and where bytes begin. */
    lemma FirstSynAligns(f: Framer<B>, idle: seq<bool>, inverted: bool)
      requires Lawful() && f.state == WSYN && f.nbits <= 8
      requires Unnoticed(f.window, f.nbits, f.inverted, idle, inverted)
      ensures Run(f, Lead(idle, inverted))
           == f.(state := SYN2, nbits := 8, window := Seen(f, syn, inverted), inverted := inverted)
    {
      var lead := Lead(idle, inverted);
      var bits, b := Turned(lead, f.inverted), Seen(f, syn, inverted);
      var n := |bits| - 1;
      Waits(f, lead, bits, n);
      RunStep(Waiting(f, bits, n), lead, n);
      LastWindow(f, idle, inverted, bits, n, b);
      SynCompletes(f, Waiting(f, bits, n), inverted, bits[n], b);
      assert lead[n + 1..] == [];
    }

    lemma LastWindow(f: Framer<B>, idle: seq<bool>, inverted: bool, bits: seq<bool>, n: nat, b: B)
      requires Lawful() && b == Seen(f, syn, inverted) && bits == Turned(Lead(idle, inverted), f.inverted)
      requires |bits| == n + 1
      ensures push(Pushed(f.window, bits[..n]), bits[n]) == b
    {
      SynBits(f, idle, inverted, bits, b);
      PushedByte(f.window, bits, |idle|, b, 8);
      PushedNext(f.window, bits, n + 1);
      assert BitsMakeByte(Pushed(f.window, bits[..|idle|]), b);
    }

    function Syns(turns: nat, inverted: bool): seq<bool> {
      if turns == 0 then Raw(syn, inverted) else Syns(turns - 1, !inverted) + Raw(syn, inverted)
    }

    function StartBits(s: Start): seq<bool> {
      s.idle + Syns(s.turns, s.inverted)
    }

    /** How the first SYN is sent. */
    predicate First(s: Start)
      decreases s.turns
    {
      if s.turns == 0 then s.inverted else First(s.(turns := s.turns - 1, inverted := !s.inverted))
    }

    /** The decoder has its byte boundary and the polarity of the last SYN. */
    ghost predicate Found(f: Framer<B>, s: Start, r: Framer<B>) {
      r == f.(state := SYN2, nbits := 8, window := r.window, inverted := s.inverted)
    }

    /** A SYN turned against the one before turns the polarity again. */
    lemma SynTurns(f: Framer<B>, inverted: bool)
      requires Lawful() && Synced(f) && f.inverted != inverted
      ensures Run(f, Raw(syn, inverted)) == f.(window := invert(syn), inverted := inverted)
    {
      FeedByte(f, syn, inverted);
    }

    lemma {:induction false} StartIsFound(f: Framer<B>, s: Start)
      requires Lawful() && f.state == WSYN && f.nbits <= 8
      requires Unnoticed(f.window, f.nbits, f.inverted, s.idle, First(s))
      ensures Found(f, s, Run(f, StartBits(s)))
      decreases s.turns
    {
      if s.turns == 0 {
        FirstSynAligns(f, s.idle, s.inverted);
      } else {
        var before := s.(turns := s.turns - 1, inverted := !s.inverted);
        StartIsFound(f, before);
        assert StartBits(s) == StartBits(before) + Raw(syn, s.inverted);
        RunOfConcat(f, StartBits(before), Raw(syn, s.inverted));
        SynTurns(Run(f, StartBits(before)), s.inverted);
      }
    }

    // ----- what only looked like a frame

    /** The last byte of a text that is too bad: the twelfth of even parity, or byte 240 and no terminator. */
    ghost predicate Overfull(text: seq<B>, b: B) {
      Carries(text) && ((Evens(text) == 11 && !odd(b)) || (|text| == 240 && !EndsText(b, 240)))
    }

    /** Bytes behind a SYN that make no frame: one that is no SYN, or a SYN and no SOH, or a text that is too bad. */
    ghost predicate BreaksOff(bytes: seq<B>) {
      || (|bytes| == 1 && NoSyn(bytes[0]))
      || (|bytes| == 2 && bytes[0] == syn && bytes[1] != soh)
      || (|bytes| >= 3 && bytes[0] == syn && bytes[1] == soh && Overfull(bytes[2..|bytes| - 1], bytes[|bytes| - 1]))
    }

    /** The decoder waits for SYN again, at every bit from the next on, and has handed on nothing. */
    ghost predicate Dropped(f: Framer<B>, last: B, r: Framer<B>) {
      r.state == WSYN && r.nbits == 1 && r.window == last && r.inverted == f.inverted && r.blocks == f.blocks
    }

    lemma OneByte(f: Framer<B>, b: B)
      requires Lawful() && f.nbits == 8
      ensures Run(f, RawBytes([b], f.inverted)) == Decode(f.(nbits := 0, window := b), b)
    {
      FeedByte(f, b, f.inverted);
      assert Raw(b, f.inverted) + [] == Raw(b, f.inverted);
    }

    lemma NoSohIsDropped(f: Framer<B>, b: B)
      requires Lawful() && Synced(f) && b != soh
      ensures Dropped(f, b, Run(f, RawBytes([syn, b], f.inverted)))
    {
      var g := f.(state := SOH1, window := syn);
      OneByte(f, syn);
      OneByte(g, b);
      RawBytesOfConcat([syn], [b], f.inverted);
      assert [syn] + [b] == [syn, b];
      RunOfConcat(f, RawBytes([syn], f.inverted), RawBytes([b], f.inverted));
    }

    lemma BadTextIsDropped(f: Framer<B>, text: seq<B>, b: B)
      requires Lawful() && Synced(f) && Overfull(text, b)
      ensures Dropped(f, b, Run(f, RawBytes([syn, soh] + text + [b], f.inverted)))
    {
      ReadText(f, text);
      OneByte(InText(f, text), b);
      RawBytesOfConcat([syn, soh] + text, [b], f.inverted);
      RunOfConcat(f, RawBytes([syn, soh] + text, f.inverted), RawBytes([b], f.inverted));
    }

    lemma ThreeParts(bytes: seq<B>, n: nat, text: seq<B>)
      requires |bytes| == n + 1 && n >= 2 && bytes[0] == syn && bytes[1] == soh && text == bytes[2..n]
      ensures bytes == [syn, soh] + text + [bytes[n]]
    {
    }

    lemma StrayIsDropped(f: Framer<B>, bytes: seq<B>)
      requires Lawful() && Synced(f) && BreaksOff(bytes)
      ensures Dropped(f, bytes[|bytes| - 1], Run(f, RawBytes(bytes, f.inverted)))
    {
      var n := |bytes| - 1;
      var last := bytes[n];
      if n == 0 {
        assert bytes == [last];
        OneByte(f, last);
      } else if n == 1 {
        assert bytes == [syn, last];
        NoSohIsDropped(f, last);
      } else {
        var text := bytes[2..n];
        ThreeParts(bytes, n, text);
        BadTextIsDropped(f, text, last);
      }
    }

    function StrayBits(s: Stray<B>): seq<bool> {
      StartBits(s.start) + RawBytes(s.bytes, s.start.inverted)
    }

    function AllStrayBits(strays: seq<Stray<B>>): seq<bool> {
      if strays == [] then [] else StrayBits(strays[0]) + AllStrayBits(strays[1..])
    }

    /** From window w on, with nbits bits to go: the strays are met one after the other, and then the first SYN of the
        start. */
    ghost predicate Reaches(w: B, nbits: int, seen: bool, strays: seq<Stray<B>>, start: Start)
      decreases |strays|
    {
      if strays == [] then Unnoticed(w, nbits, seen, start.idle, First(start)) else
      var s := strays[0];
      && Unnoticed(w, nbits, seen, s.start.idle, First(s.start)) && BreaksOff(s.bytes)
      && Reaches(s.bytes[|s.bytes| - 1], 1, s.start.inverted, strays[1..], start)
    }

    lemma OneStray(f: Framer<B>, s: Stray<B>)
      requires Lawful() && f.state == WSYN && f.nbits <= 8 && BreaksOff(s.bytes)
      requires Unnoticed(f.window, f.nbits, f.inverted, s.start.idle, First(s.start))
      ensures Dropped(f.(inverted := s.start.inverted), s.bytes[|s.bytes| - 1], Run(f, StrayBits(s)))
    {
      StartIsFound(f, s.start);
      StrayIsDropped(Run(f, StartBits(s.start)), s.bytes);
      RunOfConcat(f, StartBits(s.start), RawBytes(s.bytes, s.start.inverted));
    }

    lemma FirstStray(f: Framer<B>, strays: seq<Stray<B>>, start: Start) returns (r: Framer<B>)
      requires Lawful() && f.state == WSYN && f.nbits <= 8 && strays != []
      requires Reaches(f.window, f.nbits, f.inverted, strays, start)
      ensures r == Run(f, StrayBits(strays[0])) && r.state == WSYN && r.nbits <= 8 && r.blocks == f.blocks
      ensures Reaches(r.window, r.nbits, r.inverted, strays[1..], start)
    {
      r := Run(f, StrayBits(strays[0]));
      OneStray(f, strays[0]);
    }

    /** Behind any number of strays the decoder waits for the frame. */
    lemma {:induction false} StraysAreDropped(f: Framer<B>, strays: seq<Stray<B>>, start: Start) returns (r: Framer<B>)
      requires Lawful() && f.state == WSYN && f.nbits <= 8
      requires Reaches(f.window, f.nbits, f.inverted, strays, start)
      ensures r == Run(f, AllStrayBits(strays)) && r.state == WSYN && r.nbits <= 8 && r.blocks == f.blocks
      ensures Unnoticed(r.window, r.nbits, r.inverted, start.idle, First(start))
      decreases |strays|
    {
      if strays == [] {
        r := f;
      } else {
        var g := FirstStray(f, strays, start);
        r := StraysAreDropped(g, strays[1..], start);
        RunOfConcat(f, StrayBits(strays[0]), AllStrayBits(strays[1..]));
      }
    }

    // ----- streams of frames

    ghost predicate Fine(x: Frame<B>) {
      Carries(x.text) && x.term in {etx, etb}
    }

    function AfterSyn(x: Frame<B>): seq<B> {
      ([syn, soh] + x.text) + [x.term, x.c0, x.c1, x.pad]
    }

    function FrameBits(x: Frame<B>): seq<bool> {
      AllStrayBits(x.strays) + (StartBits(x.start) + RawBytes(AfterSyn(x), x.start.inverted))
    }

    function BlockOf(x: Frame<B>): Block<B> {
      Block(x.text + [x.term], x.c0, x.c1)
    }

    function Stream(xs: seq<Frame<B>>): seq<bool> {
      if xs == [] then [] else FrameBits(xs[0]) + Stream(xs[1..])
    }

    function BlocksOf(xs: seq<Frame<B>>): (r: seq<Block<B>>)
      ensures |r| == |xs|
    {
      if xs == [] then [] else [BlockOf(xs[0])] + BlocksOf(xs[1..])
    }

    lemma {:induction false} BlocksOfAt(xs: seq<Frame<B>>, k: nat)
      requires k < |xs|
      ensures BlocksOf(xs)[k] == BlockOf(xs[k])
      decreases |xs|
    {
      if k > 0 {
        BlocksOfAt(xs[1..], k - 1);
      }
    }

    /** The bits before each frame are taken for no more than strays; behind a frame the decoder holds its last byte and
        looks again after eight bits. */
    ghost predicate Spaced(w: B, nbits: int, inverted: bool, xs: seq<Frame<B>>)
      decreases |xs|
    {
      xs == []
      || (Reaches(w, nbits, inverted, xs[0].strays, xs[0].start) && Spaced(xs[0].pad, 8, xs[0].start.inverted, xs[1..]))
    }

    ghost predicate GotFrame(f: Framer<B>, x: Frame<B>, r: Framer<B>) {
      && r.state == WSYN && r.nbits == 8 && r.window == x.pad && r.inverted == x.start.inverted
      && r.blocks == f.blocks + [BlockOf(x)]
    }

    lemma FrameAfterSyn(f: Framer<B>, x: Frame<B>)
      requires Lawful() && Fine(x) && Synced(f) && f.inverted == x.start.inverted
      ensures GotFrame(f, x, Run(f, RawBytes(AfterSyn(x), x.start.inverted)))
    {
      var first, last := [syn, soh] + x.text, [x.term, x.c0, x.c1, x.pad];
      ReadText(f, x.text);
      ReadEnd(f, x.text, x.term, x.c0, x.c1, x.pad);
      RawBytesOfConcat(first, last, x.start.inverted);
      RunOfConcat(f, RawBytes(first, x.start.inverted), RawBytes(last, x.start.inverted));
    }

    lemma StartedFrame(f: Framer<B>, x: Frame<B>)
      requires Lawful() && Fine(x) && f.state == WSYN && f.nbits <= 8
      requires Unnoticed(f.window, f.nbits, f.inverted, x.start.idle, First(x.start))
      ensures GotFrame(f, x, Run(f, StartBits(x.start) + RawBytes(AfterSyn(x), x.start.inverted)))
    {
      StartIsFound(f, x.start);
      RunOfConcat(f, StartBits(x.start), RawBytes(AfterSyn(x), x.start.inverted));
      FrameAfterSyn(Run(f, StartBits(x.start)), x);
    }

    /** A whole frame behind bits that are no frame: its polarity is learnt from the last SYN and kept. */
    lemma FrameIsRecovered(f: Framer<B>, x: Frame<B>)
      requires Lawful() && Fine(x) && f.state == WSYN && f.nbits <= 8
      requires Reaches(f.window, f.nbits, f.inverted, x.strays, x.start)
      ensures GotFrame(f, x, Run(f, FrameBits(x)))
    {
      var r := StraysAreDropped(f, x.strays, x.start);
      RunOfConcat(f, AllStrayBits(x.strays), StartBits(x.start) + RawBytes(AfterSyn(x), x.start.inverted));
      StartedFrame(r, x);
    }

    lemma Regroup(a: seq<Block<B>>, b: Block<B>, c: seq<Block<B>>)
      ensures a + [b] + c == a + ([b] + c)
    {
    }

    /** Frame after frame, each in the polarity it happens to have: every block comes out, in order. */
    lemma {:induction false} StreamIsRecovered(f: Framer<B>, xs: seq<Frame<B>>)
      requires Lawful() && f.state == WSYN && f.nbits <= 8 && forall k :: 0 <= k < |xs| ==> Fine(xs[k])
      requires Spaced(f.window, f.nbits, f.inverted, xs)
      ensures Run(f, Stream(xs)).blocks == f.blocks + BlocksOf(xs)
      decreases |xs|
    {
      if xs != [] {
        var r := Run(f, FrameBits(xs[0]));
        FrameIsRecovered(f, xs[0]);
        RunOfConcat(f, FrameBits(xs[0]), Stream(xs[1..]));
        StreamIsRecovered(r, xs[1..]);
        Regroup(f.blocks, BlockOf(xs[0]), BlocksOf(xs[1..]));
      }
    }

    function Fresh(): Framer<B> {
      Framer(WSYN, 0, zero, false, [], 0, zero, [])
    }

    /** Nothing between the frames, and nothing before the first. */
    ghost predicate BackToBack(xs: seq<Frame<B>>) {
      forall k :: 0 <= k < |xs| ==> xs[k].strays == [] && xs[k].start.idle == [] && xs[k].start.turns == 0
    }

    lemma {:induction false} FollowersAreSpaced(w: B, inverted: bool, xs: seq<Frame<B>>)
      requires BackToBack(xs)
      ensures Spaced(w, 8, inverted, xs)
      decreases |xs|
    {
      if xs != [] {
        assert |Lead(xs[0].start.idle, First(xs[0].start))| == 8;
        FollowersAreSpaced(xs[0].pad, xs[0].start.inverted, xs[1..]);
      }
    }

    lemma FirstIsUnnoticed(inverted: bool)
      requires Lawful()
      ensures Unnoticed(zero, 0, false, [], inverted)
    {
      var bits, b := Turned(Lead([], inverted), false), Seen(Fresh(), syn, inverted);
      SynBits(Fresh(), [], inverted, bits, b);
      forall k | 0 < k < |bits|
        ensures NoSyn(Pushed(zero, bits[..k]))
      {
        PushedByte(zero, bits, 0, b, k);
        assert bits[..0] == [] && NoSyn(Filled(zero, b, k));
      }
    }

    /** So a decoder just made aligns itself on the first of frames that come without a gap, and recovers all. */
    lemma WholeStreamIsRecovered(xs: seq<Frame<B>>)
      requires Lawful() && BackToBack(xs) && forall k :: 0 <= k < |xs| ==> Fine(xs[k])
      ensures Spaced(zero, 0, false, xs) && Run(Fresh(), Stream(xs)).blocks == BlocksOf(xs)
    {
      if xs != [] {
        FirstIsUnnoticed(xs[0].start.inverted);
        FollowersAreSpaced(xs[0].pad, xs[0].start.inverted, xs[1..]);
      }
      StreamIsRecovered(Fresh(), xs);
    }

    // ----- on any bits at all

    ghost predicate Valid(f: Framer<B>) {
      && (f.state == TXT ==> |f.text| <= 240 && f.errors <= MAXPERR + 1)
      && (f.state in {CRC1, CRC2} ==> |f.text| <= 241)
      && forall k :: 0 <= k < |f.blocks| ==> |f.blocks[k].text| <= 241
    }

    /** Whatever bits arrive, no block of more than 241 bytes is handed on, and blk_txt (256 bytes) is never
        written past byte 240. */
    lemma {:induction false} BlocksAreShort(f: Framer<B>, raws: seq<bool>)
      requires Valid(f)
      ensures Valid(Run(f, raws))
      decreases |raws|
    {
      if raws != [] {
        BlocksAreShort(PutRaw(f, raws[0]), raws[1..]);
      }
    }
  }
}
