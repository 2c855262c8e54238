/** cJSON_Minify on texts of any kind: when it stays inside its text, and when a second pass changes nothing. */
module JsonLexemes {
  import opened JsonMinify
  import opened JsonString
  import opened Options

  /** What Minify takes a text apart into. */
  datatype Lexeme = Gap(c: char) | Line(text: string) | Comment(text: string) | Quoted(text: string) | Single(c: char)

  function Spelling(p: Lexeme): string {
    match p
    case Gap(c) => [c]
    case Single(c) => [c]
    case Line(text) => text
    case Comment(text) => text
    case Quoted(text) => text
  }

  predicate Closes(text: string, i: nat)
    requires i + 1 < |text|
  {
    text[i] == '*' && text[i + 1] == '/'
  }

  /** A lexeme is well formed, where rest follows: a blank; a comment to the end of its line; a comment to its first
      star and slash, which may share its own star; a closed string; or another character, but not the beginning of
      a comment. */
  predicate WellFormed(p: Lexeme, rest: string) {
    match p
    case Gap(c) => c == ' ' || c == '\t' || c == '\r' || c == '\n'
    case Line(text) =>
      |text| >= 2 && text[0] == text[1] == '/' && '\n' !in text && (rest == [] || rest[0] == '\n')
    case Comment(text) =>
      && |text| >= 3 && text[0] == '/' && text[1] == '*' && Closes(text, |text| - 2)
      && forall i {:trigger Closes(text, i)} :: 0 <= i < |text| - 2 ==> !Closes(text, i)
    case Quoted(text) => |text| >= 2 && text[0] == '\"' && StringEnd(text[1..]) == Some(|text| - 2)
    case Single(c) =>
      && c != ' ' && c != '\t' && c != '\r' && c != '\n' && c != '\"'
      && (c == '/' ==> rest == [] || (rest[0] != '/' && rest[0] != '*'))
  }

  /** The text is made of these lexemes. */
  predicate MadeOf(s: string, ps: seq<Lexeme>)
    decreases |ps|
  {
    if ps == [] then s == [] else
    var n := |Spelling(ps[0])|;
    n <= |s| && s[..n] == Spelling(ps[0]) && WellFormed(ps[0], s[n..]) && MadeOf(s[n..], ps[1..])
  }

  predicate IsKept(p: Lexeme) {
    p.Quoted? || p.Single?
  }

  /** What Minify leaves of them. */
  function Kept(ps: seq<Lexeme>): string {
    if ps == [] then [] else (if IsKept(ps[0]) then Spelling(ps[0]) else []) + Kept(ps[1..])
  }

  /** The first lexeme that is kept. */
  function NextKept(ps: seq<Lexeme>): Option<Lexeme> {
    if ps == [] then None else if IsKept(ps[0]) then Some(ps[0]) else NextKept(ps[1..])
  }

  /** A lone slash comes to stand before a slash or a star. */
  predicate JoinsHere(ps: seq<Lexeme>) {
    && ps != [] && ps[0] == Single('/')
    && (NextKept(ps[1..]) == Some(Single('/')) || NextKept(ps[1..]) == Some(Single('*')))
  }

  predicate Joins(ps: seq<Lexeme>) {
    ps != [] && (JoinsHere(ps) || Joins(ps[1..]))
  }

  // ----- one lexeme

  lemma {:induction false} LineGoes(text: string, rest: string)
    requires '\n' !in text && (rest == [] || rest[0] == '\n')
    ensures FromLineEnd(text + rest) == rest
  {
    if text == [] {
      assert text + rest == rest;
    } else {
      assert (text + rest)[1..] == text[1..] + rest;
      LineGoes(text[1..], rest);
    }
  }

  lemma {:induction false} CommentGoes(text: string, rest: string)
    requires |text| >= 2 && Closes(text, |text| - 2)
    requires forall i {:trigger Closes(text, i)} :: 0 <= i < |text| - 2 ==> !Closes(text, i)
    ensures BehindComment(text + rest) == Some(rest)
  {
    var s := text + rest;
    if |text| == 2 {
      assert s[2..] == rest;
    } else {
      assert !Closes(text, 0);
      var shorter := text[1..];
      forall i | 0 <= i < |shorter| - 2
        ensures !Closes(shorter, i)
      {
        assert !Closes(text, i + 1);
      }
      assert Closes(shorter, |shorter| - 2);
      assert s[1..] == shorter + rest;
      CommentGoes(shorter, rest);
    }
  }

  lemma DroppedGoes(p: Lexeme, rest: string)
    requires WellFormed(p, rest) && !IsKept(p)
    ensures Min(Spelling(p) + rest) == Min(rest)
  {
    var s := Spelling(p) + rest;
    match p
    case Gap(c) =>
      assert s[1..] == rest;
    case Line(text) =>
      assert s[1..] == text[1..] + rest;
      LineGoes(text[1..], rest);
    case Comment(text) =>
      CommentGoes(text, rest);
  }

  lemma SingleStays(c: char, rest: string)
    requires WellFormed(Single(c), rest)
    ensures Min([c] + rest) == Prepend([c], Min(rest))
  {
    assert ([c] + rest)[1..] == rest;
  }

  lemma QuotedStays(text: string, rest: string)
    requires WellFormed(Quoted(text), rest)
    ensures Min(text + rest) == Prepend(text, Min(rest))
  {
    assert text[..|text| - 2 + 2] == text;
    StringPasses(text, |text| - 2, rest);
  }

  lemma KeptStays(p: Lexeme, rest: string)
    requires WellFormed(p, rest) && IsKept(p)
    ensures Min(Spelling(p) + rest) == Prepend(Spelling(p), Min(rest))
  {
    match p
    case Single(c) => SingleStays(c, rest);
    case Quoted(text) => QuotedStays(text, rest);
  }

  // ----- staying inside

  /** A text made of lexemes is left with those that are kept. */
  lemma {:induction false} MinIsKept(s: string, ps: seq<Lexeme>)
    requires MadeOf(s, ps)
    ensures Min(s) == Some(Kept(ps))
    decreases |ps|
  {
    if ps != [] {
      var n := |Spelling(ps[0])|;
      MinIsKept(s[n..], ps[1..]);
      assert s == Spelling(ps[0]) + s[n..];
      if IsKept(ps[0]) {
        KeptStays(ps[0], s[n..]);
      } else {
        DroppedGoes(ps[0], s[n..]);
        assert [] + Kept(ps[1..]) == Kept(ps[1..]);
      }
    }
  }

  lemma {:induction false} LineAt(s: string) returns (n: nat)
    ensures n <= |s| && '\n' !in s[..n] && s[n..] == FromLineEnd(s) && (n == |s| || s[n] == '\n')
  {
    if s == [] || s[0] == '\n' {
      n := 0;
    } else {
      n := LineAt(s[1..]);
      assert s[..n + 1] == [s[0]] + s[1..][..n];
      n := n + 1;
    }
  }

  lemma {:induction false} CommentAt(s: string) returns (n: nat)
    requires BehindComment(s).Some?
    ensures 2 <= n <= |s| && BehindComment(s) == Some(s[n..]) && Closes(s[..n], n - 2)
    ensures forall i {:trigger Closes(s[..n], i)} :: 0 <= i < n - 2 ==> !Closes(s[..n], i)
  {
    if s[0] == '*' && |s| > 1 && s[1] == '/' {
      n := 2;
    } else {
      var m := CommentAt(s[1..]);
      n := m + 1;
      forall i | 0 <= i < n - 2
        ensures !Closes(s[..n], i)
      {
        assert i > 0 ==> !Closes(s[1..][..m], i - 1);
      }
      assert Closes(s[1..][..m], m - 2);
    }
  }

  lemma FirstLine(s: string) returns (p: Lexeme)
    requires |s| > 1 && s[0] == '/' && s[1] == '/' && Min(s).Some?
    ensures p.Line? && 0 < |p.text| <= |s| && s[..|p.text|] == p.text && WellFormed(p, s[|p.text|..])
    ensures Min(s[|p.text|..]).Some?
  {
    var n := LineAt(s[1..]);
    p := Line(s[..n + 1]);
    assert s[..n + 1] == [s[0]] + s[1..][..n];
    assert n > 0 && s[n + 1..] == s[1..][n..];
  }

  lemma QuotedPrefix(s: string, e: nat)
    requires e + 2 <= |s|
    ensures s[..e + 2][1..] == s[1..e + 2] && s[1..][..e + 1] == s[1..e + 2][..e + 1]
  {
  }

  lemma FirstQuoted(s: string) returns (p: Lexeme)
    requires s != [] && s[0] == '\"' && Min(s).Some?
    ensures p.Quoted? && 0 < |p.text| <= |s| && s[..|p.text|] == p.text && WellFormed(p, s[|p.text|..])
    ensures Min(s[|p.text|..]).Some?
  {
    EndIsQuote(s[1..]);
    var e := StringEnd(s[1..]).value;
    QuotedPrefix(s, e);
    EndIsLocal(s[1..], s[1..e + 2], e);
    p := Quoted(s[..e + 2]);
  }

  /** The lexeme at the start of a text that Minify does not run off. */
  lemma FirstLexeme(s: string) returns (p: Lexeme)
    requires s != [] && Min(s).Some?
    ensures var n := |Spelling(p)|;
            && 0 < n <= |s| && s[..n] == Spelling(p) && WellFormed(p, s[n..]) && Min(s[n..]).Some?
  {
    if Blank(s[0]) {
      p := Gap(s[0]);
    } else if |s| > 1 && s[0] == '/' && s[1] == '/' {
      p := FirstLine(s);
    } else if |s| > 1 && s[0] == '/' && s[1] == '*' {
      var n := CommentAt(s);
      p := Comment(s[..n]);
      assert n > 2;
    } else if s[0] == '\"' {
      p := FirstQuoted(s);
    } else {
      p := Single(s[0]);
    }
  }

  /** No blank, tab, carriage return or line feed stands outside the strings. */
  predicate NothingBetween(t: string)
    decreases |t|
  {
    if t == [] then true
    else if t[0] == '\"' then
      EndIsQuote(t[1..]);
      match StringEnd(t[1..])
      case None => false
      case Some(e) => NothingBetween(t[e + 2..])
    else t[0] != ' ' && t[0] != '\t' && t[0] != '\r' && t[0] != '\n' && NothingBetween(t[1..])
  }

  lemma NothingBeforeString(s: string, e: nat, m: string)
    requires s != [] && s[0] == '\"' && StringEnd(s[1..]) == Some(e) && e + 2 <= |s| && NothingBetween(m)
    ensures NothingBetween(s[..e + 2] + m)
  {
    var t := s[..e + 2] + m;
    assert t[1..][..e + 1] == s[1..][..e + 1];
    EndIsLocal(s[1..], t[1..], e);
    assert t[e + 2..] == m && t[0] == '\"';
  }

  /** None is left there by Minify, whatever the text. */
  lemma {:induction false} NothingIsLeftBetween(s: string)
    requires Min(s).Some?
    ensures NothingBetween(Min(s).value)
    decreases |s|
  {
    if s != [] {
      var p := FirstLexeme(s);
      var rest := s[|Spelling(p)|..];
      assert s == Spelling(p) + rest;
      NothingIsLeftBetween(rest);
      if p.Quoted? {
        QuotedStays(p.text, rest);
        assert p.text[..|p.text| - 2 + 2] == p.text;
        NothingBeforeString(p.text, |p.text| - 2, Min(rest).value);
      } else if p.Single? {
        SingleStays(p.c, rest);
        assert ([p.c] + Min(rest).value)[1..] == Min(rest).value;
      } else {
        DroppedGoes(p, rest);
      }
    }
  }

  lemma {:induction false} TakenApart(s: string) returns (ps: seq<Lexeme>)
    requires Min(s).Some?
    ensures MadeOf(s, ps)
    decreases |s|
  {
    if s == [] {
      ps := [];
    } else {
      var p := FirstLexeme(s);
      var rest := TakenApart(s[|Spelling(p)|..]);
      ps := [p] + rest;
      assert ps[1..] == rest;
    }
  }

  /** The lexemes are a way to take the text apart. */
  predicate Way(s: string, ps: seq<Lexeme>) {
    MadeOf(s, ps)
  }

  /** Minify stays inside its text exactly if that is made of lexemes: no comment and no string is left open. */
  lemma InsideIff(s: string)
    ensures Min(s).Some? <==> exists ps :: Way(s, ps)
  {
    if Min(s).Some? {
      var ps := TakenApart(s);
      assert Way(s, ps);
    } else if ps :| Way(s, ps) {
      MinIsKept(s, ps);
      assert false;
    }
  }

  // ----- a second pass

  lemma SpellingBegins(p: Lexeme, rest: string)
    requires WellFormed(p, rest)
    ensures Spelling(p) != [] && (p.Quoted? ==> Spelling(p)[0] == '\"')
  {
  }

  /** p stands in front of what is left. */
  predicate Begins(p: Lexeme, left: string) {
    IsKept(p) && left != [] && (if p.Single? then left[0] == p.c else left[0] == '\"')
  }

  lemma {:induction false} FirstOfKept(ps: seq<Lexeme>, s: string)
    requires MadeOf(s, ps)
    ensures NextKept(ps) == None ==> Kept(ps) == []
    ensures NextKept(ps).Some? ==> Begins(NextKept(ps).value, Kept(ps))
    decreases |ps|
  {
    if ps != [] {
      var rest := s[|Spelling(ps[0])|..];
      if IsKept(ps[0]) {
        SpellingBegins(ps[0], rest);
        assert Kept(ps) == Spelling(ps[0]) + Kept(ps[1..]);
        assert Kept(ps)[0] == Spelling(ps[0])[0];
      } else {
        FirstOfKept(ps[1..], rest);
        assert [] + Kept(ps[1..]) == Kept(ps[1..]);
      }
    }
  }

  /** A kept lexeme that joins nothing is well formed before what is left of the others. */
  lemma StillWellFormed(ps: seq<Lexeme>, s: string)
    requires ps != [] && MadeOf(s, ps) && IsKept(ps[0]) && !JoinsHere(ps)
    ensures WellFormed(ps[0], Kept(ps[1..]))
  {
    FirstOfKept(ps[1..], s[|Spelling(ps[0])|..]);
  }

  lemma {:induction false} StableWithoutJoin(ps: seq<Lexeme>, s: string)
    requires MadeOf(s, ps) && !Joins(ps)
    ensures Minimal(Kept(ps))
    decreases |ps|
  {
    if ps != [] {
      StableWithoutJoin(ps[1..], s[|Spelling(ps[0])|..]);
      if IsKept(ps[0]) {
        StillWellFormed(ps, s);
        KeptStays(ps[0], Kept(ps[1..]));
      } else {
        assert [] + Kept(ps[1..]) == Kept(ps[1..]);
      }
    }
  }

  lemma {:induction false} MinIsNoLonger(s: string)
    ensures Min(s).Some? ==> |Min(s).value| <= |s|
    decreases |s|
  {
    if Min(s).Some? && s != [] {
      var p := FirstLexeme(s);
      var n := |Spelling(p)|;
      MinIsNoLonger(s[n..]);
      assert s == Spelling(p) + s[n..];
      if IsKept(p) {
        KeptStays(p, s[n..]);
      } else {
        DroppedGoes(p, s[n..]);
      }
    }
  }

  lemma JoinIsLost(s: string)
    requires |s| >= 2 && s[0] == '/' && (s[1] == '/' || s[1] == '*')
    ensures !Minimal(s)
  {
    if s[1] == '/' {
      MinIsNoLonger(FromLineEnd(s[1..]));
    } else if BehindComment(s).Some? {
      MinIsNoLonger(BehindComment(s).value);
    }
  }

  lemma PrefixStays(x: string, m: string)
    requires Prepend(x, Min(m)) == Some(x + m)
    ensures Minimal(m)
  {
    assert (x + Min(m).value)[|x|..] == Min(m).value && (x + m)[|x|..] == m;
  }

  lemma {:induction false} JoinIsUnstable(ps: seq<Lexeme>, s: string)
    requires MadeOf(s, ps) && Joins(ps)
    ensures !Minimal(Kept(ps))
    decreases |ps|
  {
    var rest := s[|Spelling(ps[0])|..];
    if JoinsHere(ps) {
      FirstOfKept(ps[1..], rest);
      JoinIsLost(Kept(ps));
    } else {
      JoinIsUnstable(ps[1..], rest);
      if IsKept(ps[0]) {
        StillWellFormed(ps, s);
        KeptStays(ps[0], Kept(ps[1..]));
        if Minimal(Kept(ps)) {
          PrefixStays(Spelling(ps[0]), Kept(ps[1..]));
        }
      } else {
        assert [] + Kept(ps[1..]) == Kept(ps[1..]);
      }
    }
  }

  /** Minifying twice is minifying once exactly if no lone slash is followed, across blanks and comments, by another
      slash or a star. */
  lemma StableIff(s: string, ps: seq<Lexeme>)
    requires MadeOf(s, ps)
    ensures Min(s) == Some(Kept(ps)) && (Minimal(Min(s).value) <==> !Joins(ps))
  {
    MinIsKept(s, ps);
    if Joins(ps) {
      JoinIsUnstable(ps, s);
    } else {
      StableWithoutJoin(ps, s);
    }
  }

  lemma SlashStays(s: string)
    requires s == "/"
    ensures Min(s) == Some("/") && FromLineEnd(s) == []
  {
    assert s[1..] == [] && Min([]) == Some([]) && FromLineEnd([]) == [] && [s[0]] + [] == "/";
  }

  /** A text that is minified into a comment, which a second pass deletes. */
  lemma SlashesMayJoin(s: string, t: string)
    requires s == "/ /" && t == "//"
    ensures Min(s) == Some(t) && Min(t) == Some([])
  {
    SlashStays(s[1..][1..]);
    SlashStays(t[1..]);
    assert Min(s[1..]) == Some("/") && [s[0]] + "/" == t;
  }

  /** Neither a comment nor a string that is left open can be taken apart. */
  lemma OpenEndsOverrun(s: string)
    requires |s| >= 2
    requires (s[0] == '/' && s[1] == '*' && BehindComment(s) == None) || (s[0] == '\"' && StringEnd(s[1..]) == None)
    ensures forall ps :: !Way(s, ps)
  {
    InsideIff(s);
  }
}
