/** The code of amtor-decoder.cpp against the five-unit alphabet that it extends, International Telegraph Alphabet
    No. 2: a word is a combination of five elements with one more element in front and one more behind. */
module Ita2 {
  import opened AmtorLine
  import opened AmtorReceiver
  import opened AmtorText
  import opened AmtorWords

  predicate Letter(c: char) {
    'A' <= c <= 'Z'
  }

  /** The combinations of ITA2, first element first. */
  function Combination(c: char): (s: string)
    requires Letter(c)
    ensures |s| == 5
  {
    match c
    case 'A' => "11000" case 'B' => "10011" case 'C' => "01110" case 'D' => "10010" case 'E' => "10000"
    case 'F' => "10110" case 'G' => "01011" case 'H' => "00101" case 'I' => "01100" case 'J' => "11010"
    case 'K' => "11110" case 'L' => "01001" case 'M' => "00111" case 'N' => "00110" case 'O' => "00011"
    case 'P' => "01101" case 'Q' => "11101" case 'R' => "01010" case 'S' => "10100" case 'T' => "00001"
    case 'U' => "11100" case 'V' => "01111" case 'W' => "11001" case 'X' => "10111" case 'Y' => "10101"
    case _ => "10001"
  }

  /** The five elements in the middle of a word. */
  predicate Carries(bits: seq<bool>, s: string)
    requires |bits| == 7 && |s| == 5
  {
    forall i :: 0 <= i < 5 ==> bits[i + 1] == (s[i] == '1')
  }

  /** The figure on the key of a letter. */
  function FigureOf(c: char): char
    requires Letter(c)
  {
    "-?:$3!&#8\\().,9014'57=2/6+"[c as int - 'A' as int]
  }

  /** The value of seven bits. */
  function Weighed(bits: seq<bool>): nat
    requires |bits| == 7
  {
    64 * One(bits[0]) + 32 * One(bits[1]) + 16 * One(bits[2]) + 8 * One(bits[3]) + 4 * One(bits[4]) + 2 * One(bits[5])
    + One(bits[6])
  }

  lemma RowOfLetter(j: nat)
    requires j < 34
    ensures Letter(Table(j).letter) <==> j < 26
    ensures j < 26 ==> Table(j).letter as int == 'A' as int + j && Table(j).digit == FigureOf(Table(j).letter)
    ensures j >= 26 ==> !Letter(Table(j).digit) && Table(j).digit == Table(j).letter
  {
  }

  lemma KeyOfRow(w: nat)
    requires RowOf(w) < 33
    ensures Table(RowOf(w)).key == w
  {
  }

  /** A word shows a letter exactly if it is the key of its row. */
  lemma ShownByKey(c: char, w: nat)
    requires Letter(c)
    ensures Glyph(true, w) == c <==> w == Table(c as int - 'A' as int).key
    ensures Glyph(true, w) == c ==> Glyph(false, w) == FigureOf(c)
  {
    var j := c as int - 'A' as int;
    RowOfLetter(j);
    KeysDiffer(j);
    RowOfLetter(RowOf(w));
    if RowOf(w) < 33 {
      KeyOfRow(w);
    }
  }

  /** What is put around a combination makes four ones of it: a one on both sides, on neither, or on one.  Then it is in
      front, but for B and U. */
  predicate Framed(bits: seq<bool>, c: char)
    requires |bits| == 7
  {
    bits[0] == bits[6] || (bits[0] <==> c != 'B' && c != 'U')
  }

  function Five(s: string): nat
    requires |s| == 5
  {
    16 * One(s[0] == '1') + 8 * One(s[1] == '1') + 4 * One(s[2] == '1') + 2 * One(s[3] == '1') + One(s[4] == '1')
  }

  function Weight(s: string): nat
    requires |s| == 5
  {
    One(s[0] == '1') + One(s[1] == '1') + One(s[2] == '1') + One(s[3] == '1') + One(s[4] == '1')
  }

  lemma SameDigits(a: bool, b: bool, x: nat, y: nat)
    requires x < 16 && y < 16
    ensures 16 * One(a) + x == 16 * One(b) + y <==> a == b && x == y
  {
  }

  lemma SameLastDigits(a0: bool, a1: bool, a2: bool, a3: bool, b0: bool, b1: bool, b2: bool, b3: bool)
    ensures 8 * One(a0) + 4 * One(a1) + 2 * One(a2) + One(a3) == 8 * One(b0) + 4 * One(b1) + 2 * One(b2) + One(b3)
        <==> a0 == b0 && a1 == b1 && a2 == b2 && a3 == b3
  {
  }

  /** Five elements are told apart by their value. */
  lemma CarriesByValue(bits: seq<bool>, s: string)
    requires |bits| == 7 && |s| == 5
    ensures Weighed(bits) == 64 * One(bits[0]) + 2 * Five(s) + One(bits[6]) <==> Carries(bits, s)
    ensures Carries(bits, s) ==> FirstOnes(bits, 7) == One(bits[0]) + Weight(s) + One(bits[6])
  {
    SameLastDigits(bits[2], bits[3], bits[4], bits[5], s[1] == '1', s[2] == '1', s[3] == '1', s[4] == '1');
    SameDigits(bits[1], s[0] == '1', 8 * One(bits[2]) + 4 * One(bits[3]) + 2 * One(bits[4]) + One(bits[5]),
               8 * One(s[1] == '1') + 4 * One(s[2] == '1') + 2 * One(s[3] == '1') + One(s[4] == '1'));
  }

  /** The ones around the combination of a letter. */
  function Around(c: char, weight: nat): nat {
    if weight == 2 then 65 else if weight == 4 then 0 else if c == 'B' || c == 'U' then 1 else 64
  }

  predicate KeyIs(c: char, s: string)
    requires Letter(c) && |s| == 5
  {
    && 2 <= Weight(s) <= 4 && Five(s) < 32
    && Table(c as int - 'A' as int).key == 2 * Five(s) + Around(c, Weight(s))
  }

  lemma EarlyKeys(c: char)
    requires 'A' <= c <= 'M' && c != 'E'
    ensures KeyIs(c, Combination(c))
  {
  }

  lemma LateKeys(c: char)
    requires 'N' <= c <= 'Z' && c != 'T'
    ensures KeyIs(c, Combination(c))
  {
  }

  lemma FramedByValue(c: char, bits: seq<bool>, s: string, m: nat, w: nat)
    requires |bits| == 7 && |s| == 5 && 2 <= Weight(s) <= 4 && FirstOnes(bits, 7) == 4 && Weighed(bits) == w
    requires m == 2 * Five(s) < 64
    ensures w == m + Around(c, Weight(s)) <==> Carries(bits, s) && Framed(bits, c)
  {
    CarriesByValue(bits, s);
  }

  /** Four ones of seven elements in letter shift show a letter exactly if they carry its combination. */
  lemma LetterIsIta2(c: char, bits: seq<bool>)
    requires Letter(c) && c != 'E' && c != 'T' && |bits| == 7 && Ones(bits) == 4
    ensures Glyph(true, Value(bits)) == c <==> Carries(bits, Combination(c)) && Framed(bits, c)
    ensures Carries(bits, Combination(c)) && Framed(bits, c) ==> Glyph(false, Value(bits)) == FigureOf(c)
  {
    SevenBitValue(bits);
    OnesOfPrefix(bits, 7);
    assert bits[..7] == bits;
    ShownByKey(c, Value(bits));
    if c <= 'M' {
      EarlyKeys(c);
    } else {
      LateKeys(c);
    }
    FramedByValue(c, bits, Combination(c), 2 * Five(Combination(c)), Value(bits));
  }

  /** The two letters of one element have words of their own; each shares its word with a figure. */
  lemma LettersOfOneElement(w: nat)
    ensures Glyph(true, w) == 'E' <==> w == 0x35
    ensures Glyph(true, w) == 'T' <==> w == 0x17
    ensures Glyph(false, 0x35) == '3' && Glyph(false, 0x17) == '5'
  {
    ShownByKey('E', w);
    ShownByKey('T', w);
  }

  /** The words that stand for no letter. */
  lemma OtherWords(letters: bool, w: nat)
    ensures Glyph(letters, w) == '\r' <==> w == 0x0F
    ensures Glyph(letters, w) == '\n' <==> w == 0x1B
    ensures Glyph(letters, w) == ' ' <==> w == 0x1D || w == 0x2D || w == 0x36 || w == 0x33 || w == 0x78
    ensures Phasing(w) <==> w == 0x33 || w == 0x78
  {
    var j := RowOf(w);
    RowOfLetter(j);
    if j < 33 {
      KeyOfRow(w);
    }
  }

  lemma Unused(bits: seq<bool>)
    requires |bits| == 7 && FirstOnes(bits, 7) == 4
    ensures RowOf(Weighed(bits)) == 33 <==> Weighed(bits) == 0x2B || Weighed(bits) == 0x66
  {
  }

  /** Of the words with four ones, two have no row. */
  lemma UnusedWords(bits: seq<bool>)
    requires |bits| == 7 && Ones(bits) == 4
    ensures Glyph(true, Value(bits)) == '?' <==> Value(bits) == 0x2B || Value(bits) == 0x66
  {
    SevenBitValue(bits);
    OnesOfPrefix(bits, 7);
    assert bits[..7] == bits;
    Unused(bits);
    RowOfLetter(RowOf(Value(bits)));
  }

  /** What words show in one shift. */
  function Glyphs(letters: bool, words: seq<nat>): (t: string)
    ensures |t| == |words|
  {
    seq(|words|, i requires 0 <= i < |words| => Glyph(letters, words[i]))
  }

  lemma {:induction false} ShiftLasts(s: Screen, words: seq<nat>)
    requires forall i :: 0 <= i < |words| ==> words[i] != 0x2D && words[i] != 0x36
    ensures ShowAll(s, Chars(words)) == Screen(s.letters, s.text + Glyphs(s.letters, words))
    decreases |words|
  {
    if words == [] {
      assert s.text + Glyphs(s.letters, words) == s.text;
    } else {
      var front, w := words[..|words| - 1], words[|words| - 1];
      ShiftLasts(s, front);
      assert Chars(words)[..|words| - 1] == Chars(front);
      assert Glyphs(s.letters, words) == Glyphs(s.letters, front) + [Glyph(s.letters, w)];
      assert s.text + (Glyphs(s.letters, front) + [Glyph(s.letters, w)])
          == s.text + Glyphs(s.letters, front) + [Glyph(s.letters, w)];
    }
  }

  /** The word 0x2D brings letters and 0x36 figures, which hold for all words up to the next of the two. */
  lemma ShiftsHold(s: Screen, letters: bool, words: seq<nat>)
    requires forall i :: 0 <= i < |words| ==> words[i] != 0x2D && words[i] != 0x36
    ensures ShowAll(s, Chars([if letters then 0x2D else 0x36] + words))
         == Screen(letters, s.text + Glyphs(letters, words))
  {
    var t := s.(letters := letters);
    OneShown(s, if letters then 0x2D else 0x36);
    ShiftLasts(t, words);
    ShownNext(s, [if letters then 0x2D else 0x36], words, t, ShowAll(t, Chars(words)));
  }
}
