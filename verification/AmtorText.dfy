/** The characters of amtor-decoder.cpp: the code table, the two shifts, and what reaches the screen. */
module AmtorText {
  import opened AmtorClock
  import opened AmtorLine
  import opened AmtorReceiver
  import opened AmtorWords

  const LETTERS: nat := 0x2D
  const FIGURES: nat := 0x36
  const SPACE: nat := 0x1D

  datatype Row = Row(letter: char, digit: char, key: nat)

  /** CCIR_476_ITA4; the row with key 0 ends the table. */
  function Table(i: nat): Row
    requires i < 34
  {
    if i == 0 then Row('A', '-', 0x71)
    else if i == 1 then Row('B', '?', 0x27)
    else if i == 2 then Row('C', ':', 0x5C)
    else if i == 3 then Row('D', '$', 0x65)
    else if i == 4 then Row('E', '3', 0x35)
    else if i == 5 then Row('F', '!', 0x6C)
    else if i == 6 then Row('G', '&', 0x56)
    else if i == 7 then Row('H', '#', 0x4B)
    else if i == 8 then Row('I', '8', 0x59)
    else if i == 9 then Row('J', '\\', 0x74)
    else if i == 10 then Row('K', '(', 0x3C)
    else if i == 11 then Row('L', ')', 0x53)
    else if i == 12 then Row('M', '.', 0x4E)
    else if i == 13 then Row('N', ',', 0x4D)
    else if i == 14 then Row('O', '9', 0x47)
    else if i == 15 then Row('P', '0', 0x5A)
    else if i == 16 then Row('Q', '1', 0x3A)
    else if i == 17 then Row('R', '4', 0x55)
    else if i == 18 then Row('S', '\'', 0x69)
    else if i == 19 then Row('T', '5', 0x17)
    else if i == 20 then Row('U', '7', 0x39)
    else if i == 21 then Row('V', '=', 0x1E)
    else if i == 22 then Row('W', '2', 0x72)
    else if i == 23 then Row('X', '/', 0x2E)
    else if i == 24 then Row('Y', '6', 0x6A)
    else if i == 25 then Row('Z', '+', 0x63)
    else if i == 26 then Row('\r', '\r', 0x0F)
    else if i == 27 then Row('\n', '\n', 0x1B)
    else if i == 28 then Row(' ', ' ', 0x2D)
    else if i == 29 then Row(' ', ' ', 0x36)
    else if i == 30 then Row(' ', ' ', 0x1D)
    else if i == 31 then Row(' ', ' ', 0x33)
    else if i == 32 then Row(' ', ' ', 0x78)
    else Row(' ', ' ', 0x00)
  }

  /** The row with this key. */
  function RowOf(w: nat): nat {
    if w == 0x71 then 0
    else if w == 0x27 then 1
    else if w == 0x5C then 2
    else if w == 0x65 then 3
    else if w == 0x35 then 4
    else if w == 0x6C then 5
    else if w == 0x56 then 6
    else if w == 0x4B then 7
    else if w == 0x59 then 8
    else if w == 0x74 then 9
    else if w == 0x3C then 10
    else if w == 0x53 then 11
    else if w == 0x4E then 12
    else if w == 0x4D then 13
    else if w == 0x47 then 14
    else if w == 0x5A then 15
    else if w == 0x3A then 16
    else if w == 0x55 then 17
    else if w == 0x69 then 18
    else if w == 0x17 then 19
    else if w == 0x39 then 20
    else if w == 0x1E then 21
    else if w == 0x72 then 22
    else if w == 0x2E then 23
    else if w == 0x6A then 24
    else if w == 0x63 then 25
    else if w == 0x0F then 26
    else if w == 0x1B then 27
    else if w == 0x2D then 28
    else if w == 0x36 then 29
    else if w == 0x1D then 30
    else if w == 0x33 then 31
    else if w == 0x78 then 32
    else 33
  }

  /** No two rows have the same key. */
  lemma KeysDiffer(i: nat)
    requires i < 33
    ensures RowOf(Table(i).key) == i
  {
  }

  function Rest(w: nat, p: nat): nat {
    if w >= p then w - p else w
  }

  /** The bits of a number below 128, and how many of them are ones. */
  function Digits(w: nat): (s: seq<bool>)
    ensures |s| == 7
  {
    var a := Rest(w, 64);
    var b := Rest(a, 32);
    var c := Rest(b, 16);
    var d := Rest(c, 8);
    var e := Rest(d, 4);
    [w >= 64, a >= 32, b >= 16, c >= 8, d >= 4, e >= 2, Rest(e, 2) >= 1]
  }

  lemma DigitsSum(w: nat, s: seq<bool>)
    requires w < 128 && s == Digits(w)
    ensures w == 64 * One(s[0]) + 32 * One(s[1]) + 16 * One(s[2]) + 8 * One(s[3]) + 4 * One(s[4]) + 2 * One(s[5])
                 + One(s[6])
  {
    var a := Rest(w, 64);
    assert w == 64 * One(s[0]) + a && a < 64;
    var b := Rest(a, 32);
    assert a == 32 * One(s[1]) + b && b < 32;
    var c := Rest(b, 16);
    assert b == 16 * One(s[2]) + c && c < 16;
    var d := Rest(c, 8);
    assert c == 8 * One(s[3]) + d && d < 8;
    var e := Rest(d, 4);
    assert d == 4 * One(s[4]) + e && e < 4;
  }

  lemma DigitsAreRight(w: nat, s: seq<bool>)
    requires w < 128 && s == Digits(w)
    ensures LowOnes(w, 7) == FirstOnes(s, 7)
  {
    DigitsSum(w, s);
    SevenBitValue(s);
    SevenBitWord(s);
  }

  lemma KeyDigits(i: nat)
    requires i < 33
    ensures 0 < Table(i).key < 128 && FirstOnes(Digits(Table(i).key), 7) == 4
  {
  }

  /** Every key has four ones. */
  lemma KeyIsWord(i: nat, w: nat)
    requires i < 33 && w == Table(i).key
    ensures Valid(w)
  {
    KeyDigits(i);
    DigitsAreRight(w, Digits(w));
  }

  /** Phasing signals, shifts and the space show as a blank whatever the shift; no other row does. */
  predicate Blank(w: nat) {
    Phasing(w) || w == LETTERS || w == FIGURES || w == SPACE
  }

  lemma BlankRows(i: nat)
    requires i < 33
    ensures Blank(Table(i).key) <==> Table(i).letter == ' '
    ensures Blank(Table(i).key) <==> Table(i).digit == ' '
  {
  }

  // ----- what is shown

  /** amtorLettershift and the text shown so far. */
  datatype Screen = Screen(letters: bool, text: seq<char>)

  /** HandleChar for a word, or flushBuffer. */
  function Show(s: Screen, e: Event): Screen {
    if e == Flush then s.(text := s.text + "    ")
    else if e.word == LETTERS then s.(letters := true)
    else if e.word == FIGURES then s.(letters := false)
    else s.(text := s.text + [Glyph(s.letters, e.word)])
  }

  function Glyph(letters: bool, w: nat): char {
    if RowOf(w) == 33 then '?' else if letters then Table(RowOf(w)).letter else Table(RowOf(w)).digit
  }

  function ShowAll(s: Screen, events: seq<Event>): Screen {
    if events == [] then s else Show(ShowAll(s, events[..|events| - 1]), events[|events| - 1])
  }

  lemma {:induction false} ShowConcat(s: Screen, a: seq<Event>, b: seq<Event>)
    ensures ShowAll(s, a + b) == ShowAll(ShowAll(s, a), b)
  {
    if b == [] {
      assert a + b == a;
    } else {
      var ab, front := a + b, b[..|b| - 1];
      assert ab[..|ab| - 1] == a + front && ab[|ab| - 1] == b[|b| - 1];
      ShowConcat(s, a, front);
    }
  }

  // ----- what is sent

  /** The first row from i on that shows this letter, or figure. */
  function Search(c: char, letter: bool, i: nat): (k: nat)
    requires i <= 33
    ensures i <= k <= 33
    ensures k < 33 ==> c == if letter then Table(k).letter else Table(k).digit
    decreases 33 - i
  {
    if i == 33 || c == (if letter then Table(i).letter else Table(i).digit) then i else Search(c, letter, i + 1)
  }

  predicate Sendable(c: char) {
    c == ' ' || Search(c, true, 0) < 33 || Search(c, false, 0) < 33
  }

  /** The shift in force after a character. */
  function ShiftFor(letters: bool, c: char): bool {
    if c == ' ' then letters else Search(c, true, 0) < 33
  }

  function Spell(letters: bool, c: char): seq<nat>
    requires Sendable(c)
  {
    if c == ' ' then [SPACE]
    else if Search(c, true, 0) < 33 then (if letters then [] else [LETTERS]) + [Table(Search(c, true, 0)).key]
    else (if letters then [FIGURES] else []) + [Table(Search(c, false, 0)).key]
  }

  function ShiftAfter(letters: bool, text: seq<char>): bool {
    if text == [] then letters else ShiftFor(ShiftAfter(letters, text[..|text| - 1]), text[|text| - 1])
  }

  predicate AllSendable(text: seq<char>) {
    forall i :: 0 <= i < |text| ==> Sendable(text[i])
  }

  /** The words for a text. */
  function SpellAll(letters: bool, text: seq<char>): seq<nat>
    requires AllSendable(text)
  {
    if text == [] then []
    else SpellAll(letters, text[..|text| - 1]) + Spell(ShiftAfter(letters, text[..|text| - 1]), text[|text| - 1])
  }

  lemma KeyIsPlain(c: char, letter: bool)
    requires c != ' ' && Search(c, letter, 0) < 33
    ensures var w := Table(Search(c, letter, 0)).key; Plain(w) && !Blank(w) && Glyph(letter, w) == c
  {
    var k := Search(c, letter, 0);
    KeyIsWord(k, Table(k).key);
    BlankRows(k);
    KeysDiffer(k);
  }

  lemma ShiftsAreWords()
    ensures Plain(LETTERS) && Plain(FIGURES) && Plain(SPACE)
  {
    KeyIsWord(28, LETTERS);
    KeyIsWord(29, FIGURES);
    KeyIsWord(30, SPACE);
  }

  lemma SpellIsPlain(letters: bool, c: char)
    requires Sendable(c)
    ensures PlainText(Spell(letters, c))
  {
    ShiftsAreWords();
    if c != ' ' {
      KeyIsPlain(c, Search(c, true, 0) < 33);
    }
  }

  lemma {:induction false} SpellingIsPlain(letters: bool, text: seq<char>)
    requires AllSendable(text)
    ensures PlainText(SpellAll(letters, text))
  {
    if text != [] {
      SpellingIsPlain(letters, text[..|text| - 1]);
      SpellIsPlain(ShiftAfter(letters, text[..|text| - 1]), text[|text| - 1]);
    }
  }

  lemma {:induction false} CharsConcat(a: seq<nat>, b: seq<nat>)
    ensures Chars(a + b) == Chars(a) + Chars(b)
  {
  }

  lemma OneShown(s: Screen, w: nat)
    ensures ShowAll(s, Chars([w])) == Show(s, Char(w))
  {
    assert [w][..0] == [];
    assert Chars([w]) == [Char(w)];
    assert [Char(w)][..0] == [];
  }

  lemma ShownNext(s: Screen, a: seq<nat>, b: seq<nat>, s1: Screen, s2: Screen)
    requires ShowAll(s, Chars(a)) == s1 && ShowAll(s1, Chars(b)) == s2
    ensures ShowAll(s, Chars(a + b)) == s2
  {
    CharsConcat(a, b);
    ShowConcat(s, Chars(a), Chars(b));
  }

  lemma WordIsShown(s: Screen, w: nat, c: char)
    requires w != LETTERS && w != FIGURES && Glyph(s.letters, w) == c
    ensures ShowAll(s, Chars([w])) == s.(text := s.text + [c])
  {
    OneShown(s, w);
  }

  lemma ShiftIsTaken(s: Screen, letters: bool)
    ensures ShowAll(s, Chars([if letters then LETTERS else FIGURES])) == s.(letters := letters)
  {
    OneShown(s, if letters then LETTERS else FIGURES);
  }

  lemma ShiftedIsShown(s: Screen, letters: bool, w: nat, c: char)
    requires w != LETTERS && w != FIGURES && Glyph(letters, w) == c
    ensures ShowAll(s, Chars([if letters then LETTERS else FIGURES] + [w])) == Screen(letters, s.text + [c])
  {
    ShiftIsTaken(s, letters);
    WordIsShown(s.(letters := letters), w, c);
    ShownNext(s, [if letters then LETTERS else FIGURES], [w], s.(letters := letters), Screen(letters, s.text + [c]));
  }

  lemma CharacterIsShown(s: Screen, c: char, words: seq<nat>)
    requires Sendable(c) && words == Spell(s.letters, c)
    ensures ShowAll(s, Chars(words)) == Screen(ShiftFor(s.letters, c), s.text + [c])
  {
    if c == ' ' {
      WordIsShown(s, SPACE, c);
    } else {
      var letter := Search(c, true, 0) < 33;
      KeyIsPlain(c, letter);
      KeyIsShown(s, letter, Table(Search(c, letter, 0)).key, c, words);
    }
  }

  lemma KeyIsShown(s: Screen, letter: bool, w: nat, c: char, words: seq<nat>)
    requires !Blank(w) && Glyph(letter, w) == c
    requires words == (if letter == s.letters then [] else [if letter then LETTERS else FIGURES]) + [w]
    ensures ShowAll(s, Chars(words)) == Screen(letter, s.text + [c])
  {
    if letter == s.letters {
      WordIsShown(s, w, c);
      assert words == [w];
    } else {
      ShiftedIsShown(s, letter, w, c);
    }
  }

  /** What is spelled is shown. */
  lemma {:induction false} TextIsShown(s: Screen, text: seq<char>)
    requires AllSendable(text)
    ensures ShowAll(s, Chars(SpellAll(s.letters, text))) == Screen(ShiftAfter(s.letters, text), s.text + text)
  {
    if text == [] {
      assert s.text + text == s.text;
    } else {
      var front, c := text[..|text| - 1], text[|text| - 1];
      var shift := ShiftAfter(s.letters, front);
      TextIsShown(s, front);
      NextIsShown(s, SpellAll(s.letters, front), Spell(shift, c), c, Screen(shift, s.text + front));
      assert s.text + front + [c] == s.text + text;
    }
  }

  lemma NextIsShown(s: Screen, a: seq<nat>, b: seq<nat>, c: char, s1: Screen)
    requires ShowAll(s, Chars(a)) == s1 && Sendable(c) && b == Spell(s1.letters, c)
    ensures ShowAll(s, Chars(a + b)) == Screen(ShiftFor(s1.letters, c), s1.text + [c])
  {
    CharacterIsShown(s1, c, b);
    ShownNext(s, a, b, s1, ShowAll(s1, Chars(b)));
  }

  // ----- whole messages

  /** A text as it is sent: the shift first, so that it does not matter what was shown before. */
  function Telegram(text: seq<char>): seq<nat>
    requires AllSendable(text)
  {
    [LETTERS] + SpellAll(true, text)
  }

  predicate Sends(m: Sending, text: seq<char>) {
    AllSendable(text) && m.text == Telegram(text)
  }

  predicate SendsAll(ms: seq<Sending>, texts: seq<seq<char>>) {
    |ms| == |texts| && forall i {:trigger Sends(ms[i], texts[i])} :: 0 <= i < |ms| ==> Sends(ms[i], texts[i])
  }

  /** What is shown of a text: less than three words are lost. */
  function ShownText(m: Sending, text: seq<char>): seq<char> {
    (if |m.text| < 3 then [] else text) + "    "
  }

  function ShownTexts(ms: seq<Sending>, texts: seq<seq<char>>): seq<char>
    requires |ms| == |texts|
  {
    if texts == [] then [] else ShownText(ms[0], texts[0]) + ShownTexts(ms[1..], texts[1..])
  }

  /** The screen of a receiver that was given these fragments. */
  function Shown(strict: bool, fragments: seq<bool>): Screen {
    ShowAll(Screen(true, []), Decoded(strict, fragments).out)
  }

  lemma FlushIsShown(s: Screen)
    ensures ShowAll(s, [Flush]) == s.(text := s.text + "    ")
  {
    assert [Flush][..0] == [];
  }

  lemma WordsAreShown(s: Screen, text: seq<char>, words: seq<nat>)
    requires AllSendable(text) && words == Telegram(text)
    ensures ShowAll(s, Chars(words)).text == s.text + text
  {
    var s1 := s.(letters := true);
    ShiftIsTaken(s, true);
    TextIsShown(s1, text);
    ShownNext(s, [LETTERS], SpellAll(true, text), s1, Screen(ShiftAfter(true, text), s.text + text));
  }

  lemma ShownAndFlushed(s: Screen, events: seq<Event>, text: seq<char>)
    requires ShowAll(s, events).text == s.text + text
    ensures ShowAll(s, events + [Flush]).text == s.text + (text + "    ")
  {
    FlushIsShown(ShowAll(s, events));
    ShowConcat(s, events, [Flush]);
  }

  lemma TelegramIsShown(s: Screen, text: seq<char>, words: seq<nat>)
    requires AllSendable(text) && words == Telegram(text)
    ensures ShowAll(s, Heard(words)).text == s.text + ((if |words| < 3 then [] else text) + "    ")
  {
    if |words| < 3 {
      ShownAndFlushed(s, [], []);
      assert [] + [Flush] == [Flush];
    } else {
      WordsAreShown(s, text, words);
      ShownAndFlushed(s, Chars(words), text);
    }
  }

  lemma ShownInTurn(s: Screen, a: seq<Event>, b: seq<Event>, s1: Screen, x: seq<char>, y: seq<char>)
    requires ShowAll(s, a) == s1 && s1.text == s.text + x && ShowAll(s1, b).text == s1.text + y
    ensures ShowAll(s, a + b).text == s.text + (x + y)
  {
    ShowConcat(s, a, b);
  }

  /** A strict receiver is told every word, since the copies agree. */
  predicate AllTold(strict: bool, ms: seq<Sending>) {
    AllProper(ms) && forall i :: 0 <= i < |ms| ==> !strict || ms[i].again == ms[i].text
  }

  lemma {:induction false} TelegramsAreShown(strict: bool, s: Screen, ms: seq<Sending>, texts: seq<seq<char>>)
    requires SendsAll(ms, texts) && AllTold(strict, ms)
    ensures ShowAll(s, AllHeard(strict, ms)).text == s.text + ShownTexts(ms, texts)
    decreases |ms|
  {
    if ms == [] {
      assert s.text + [] == s.text;
    } else {
      assert Sends(ms[0], texts[0]);
      var first := ShowAll(s, Heard(ms[0].text));
      TelegramIsShown(s, texts[0], ms[0].text);
      RestIsSent(ms, texts);
      TelegramsAreShown(strict, first, ms[1..], texts[1..]);
      ShownInTurn(s, Heard(ms[0].text), AllHeard(strict, ms[1..]), first, ShownText(ms[0], texts[0]),
                  ShownTexts(ms[1..], texts[1..]));
    }
  }

  lemma RestIsSent(ms: seq<Sending>, texts: seq<seq<char>>)
    requires SendsAll(ms, texts) && ms != []
    ensures SendsAll(ms[1..], texts[1..])
  {
    forall i | 0 <= i < |ms| - 1
      ensures Sends(ms[1..][i], texts[1..][i])
    {
      assert Sends(ms[i + 1], texts[i + 1]);
    }
  }

  /** From the texts that are sent to what is on the screen; see BroadcastIsHeard. */
  lemma TextsAreRead(strict: bool, n: nat, d: nat, texts: seq<seq<char>>, ms: seq<Sending>, lead: nat, runs: seq<Run>)
    requires SendsAll(ms, texts) && AllTold(strict, ms) && d + 7 <= 14 * n
    requires Alternate(runs, false) && forall i :: 0 <= i < |runs| ==> InTime(runs[i])
    requires Times(false, lead / 10) + BitsSent(runs) == (SendAll(Pairs(n)) + SendAll(OnAir(ms)))[d..]
    ensures Shown(strict, Times(false, lead) + FragmentsSeen(runs)).text == ShownTexts(ms, texts)
  {
    BroadcastIsHeard(strict, n, d, ms, lead, runs);
    TelegramsAreShown(strict, Screen(true, []), ms, texts);
  }

  /** Any texts of the code can be sent so. */
  lemma TelegramIsProper(text: seq<char>)
    requires AllSendable(text)
    ensures Proper(Sending(Telegram(text), Telegram(text)))
  {
    ShiftsAreWords();
    SpellingIsPlain(true, text);
  }
}
