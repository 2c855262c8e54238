/** The recursive descent parser of cJSON.c on its buffer. */
module JsonParser {
  import opened Json
  import Grammar = Json
  import opened JsonString
  import opened Options

  /** parse_hex4 */
  method ReadHex4(s: string, at: nat) returns (h: nat)
    requires at + 4 <= |s|
    ensures h == Hex4(s[at..at + 4])
  {
    h := 0;
    var i := 0;
    ghost var t := s[at..at + 4];
    while i < 4
      invariant 0 <= i <= 4 && 16 * h < 0x100000
      invariant h < (match i case 0 => 1 case 1 => 16 case 2 => 256 case 3 => 4096 case _ => 65536)
      invariant HexFrom(t, i, h) == Hex4(t)
    {
      assert s[at + i] == t[i];
      match HexValue(s[at + i])
      case None => return 0;
      case Some(d) => h := 16 * h + d;
      i := i + 1;
    }
  }

  /** The last lines of utf16_literal_to_utf8: the bytes of a code point, last one first. */
  method WriteUtf8(output: array<char>, at: nat, codepoint: nat) returns (length: nat)
    requires codepoint < 0x110000 && at + Form(codepoint).0 <= output.Length
    modifies output
    ensures length == |Utf8(codepoint)| && output[at..at + length] == Utf8(codepoint)
    ensures output[..at] == old(output[..at])
  {
    var mark;
    length, mark := Form(codepoint).0, Form(codepoint).1;
    FirstByteFits(codepoint);
    var cp := WriteTail(output, at, length, codepoint);
    output[at] := (mark + cp) as char;
    assert output[at..at + length] == [output[at]] + output[at + 1..at + length];
  }

  /** Six bits a byte, last byte first. */
  method WriteTail(output: array<char>, at: nat, length: nat, codepoint: nat) returns (cp: nat)
    requires 0 < length && at + length <= output.Length
    modifies output
    ensures cp == Shifted(codepoint, length - 1) && output[at + 1..at + length] == TailBytes(codepoint, length - 1)
    ensures output[..at] == old(output[..at])
  {
    cp := codepoint;
    var position := length - 1;
    while position > 0
      invariant 0 <= position < length
      invariant cp == Shifted(codepoint, length - 1 - position)
      invariant output[at + position + 1..at + length] == TailBytes(codepoint, length - 1 - position)
      invariant output[..at] == old(output[..at])
    {
      output[at + position] := (0x80 + cp % 64) as char;
      assert output[at + position..at + length] == [output[at + position]] + output[at + position + 1..at + length];
      cp := cp / 64;
      position := position - 1;
    }
  }

  lemma SliceOfSlice(s: string, p: nat, end: nat, i: nat, j: nat)
    requires p <= end <= |s| && i <= j <= end - p
    ensures s[p..end][i..j] == s[p + i..p + j]
  {
    var a, b := s[p..end][i..j], s[p + i..p + j];
    assert |a| == |b| && forall k :: 0 <= k < |a| ==> a[k] == b[k];
  }

  /** The first half of utf16_literal_to_utf8 on s from p up to end: the code point. */
  method ReadCodePoint(s: string, p: nat, end: nat) returns (r: Option<(nat, nat)>)
    requires p <= end <= |s|
    ensures r == CodePoint(s[p..end])
  {
    if end - p < 6 {
      return None;
    }
    SliceOfSlice(s, p, end, 2, 6);
    var first := ReadHex4(s, p + 2);
    if 0xdc00 <= first <= 0xdfff {
      return None;
    }
    if first < 0xd800 || 0xdbff < first {
      return Some((first, 6));
    }
    if end - p < 12 || s[p + 6] != '\\' || s[p + 7] != 'u' {
      return None;
    }
    SliceOfSlice(s, p, end, 8, 12);
    var second := ReadHex4(s, p + 8);
    if second < 0xdc00 || second > 0xdfff {
      return None;
    }
    return Some((0x10000 + first % 1024 * 1024 + second % 1024, 12));
  }

  /** utf16_literal_to_utf8 on s from p up to end. */
  method WriteLiteral(s: string, p: nat, end: nat, output: array<char>, at: nat) returns (sequence: nat, written: nat)
    requires p <= end <= |s|
    requires match Utf16Literal(s[p..end]) case Some(l) => at + |l.bytes| <= output.Length case None => true
    modifies output
    ensures match Utf16Literal(s[p..end])
            case Some(l) => sequence == l.length && written == |l.bytes| && at + written <= output.Length
                            && output[at..at + written] == l.bytes && output[..at] == old(output[..at])
            case None => sequence == 0
  {
    sequence, written := 0, 0;
    var read := ReadCodePoint(s, p, end);
    match read
    case None =>
    case Some((cp, length)) =>
      sequence := length;
      written := WriteUtf8(output, at, cp);
  }

  // ----- the second pass

  /** s is a suffix of the string being unescaped at which a turn begins or ends. */
  ghost predicate Suffix(s: string) {
    true
  }

  /** unescape and written are the specification, for the suffixes that matter. */
  ghost predicate Specified(unescape: string -> Option<string>, written: string -> nat) {
    forall s {:trigger Suffix(s)} :: Suffix(s) ==> unescape(s) == Unescape(s) && written(s) == Written(s)
  }

  /** done is written of what a body stands for, rest is left of it to be read, and there is room. */
  ghost predicate SecondPass(unescape: string -> Option<string>, written: string -> nat,
                             whole: Option<string>, done: string, rest: string, room: nat)
  {
    whole == Prepend(done, unescape(rest)) && |done| + written(rest) <= room
  }

  lemma UnescapeStep(rest: string, u: Option<Literal>)
    requires rest != [] && u == Unit(rest)
    ensures match u
            case Some(l) => Unescape(rest) == Prepend(l.bytes, Unescape(Behind(rest, l.length)))
                            && Written(rest) == |l.bytes| + Written(Behind(rest, l.length))
            case None => Unescape(rest) == None
  {
  }

  lemma PrependTwice(a: string, b: string, x: Option<string>)
    ensures Prepend(a, Prepend(b, x)) == Prepend(a + b, x)
  {
    if x.Some? {
      assert a + (b + x.value) == (a + b) + x.value;
    }
  }

  lemma SecondPassStep(unescape: string -> Option<string>, written: string -> nat,
                       whole: Option<string>, done: string, rest: string, room: nat, u: Option<Literal>)
    requires Specified(unescape, written)
    requires SecondPass(unescape, written, whole, done, rest, room) && rest != [] && u == Unit(rest)
    ensures match u
            case Some(l) => SecondPass(unescape, written, whole, done + l.bytes, Behind(rest, l.length), room)
                            && |done| + |l.bytes| <= room
            case None => whole == None
  {
    UnescapeStep(rest, u);
    assert Suffix(rest);
    match u
    case None =>
    case Some(l) =>
      assert Suffix(Behind(rest, l.length));
      PrependTwice(done, l.bytes, Unescape(Behind(rest, l.length)));
  }

  /** One turn of the second pass at p; the quote that ends the string stands at end. */
  method WriteUnit(content: string, p: nat, end: nat, output: array<char>, at: nat, ghost u: Option<Literal>)
    returns (sequence: nat, written: nat)
    requires p < end < |content| && content[end] == '\"' && u == Unit(content[p..end])
    requires match u case Some(l) => at + |l.bytes| < output.Length case None => true
    modifies output
    ensures match u
            case Some(l) => sequence == l.length && written == |l.bytes|
              && output[..at + written] == old(output[..at]) + l.bytes
            case None => sequence == 0
  {
    assert content[p..end][0] == content[p];
    if content[p] != '\\' {
      output[at] := content[p];
      return 1, 1;
    }
    assert content[p + 1] == if end - p > 1 then content[p..end][1] else '\"';
    match content[p + 1]
    case 'u' =>
      sequence, written := WriteLiteral(content, p, end, output, at);
      if sequence != 0 {
        assert output[..at + written] == output[..at] + output[at..at + written];
      }
    case 'b' => sequence, written := WriteChar(output, at, BACKSPACE);
    case 'f' => sequence, written := WriteChar(output, at, FORM_FEED);
    case 'n' => sequence, written := WriteChar(output, at, '\n');
    case 'r' => sequence, written := WriteChar(output, at, '\r');
    case 't' => sequence, written := WriteChar(output, at, '\t');
    case '\"' | '\\' | '/' => sequence, written := WriteChar(output, at, content[p + 1]);
    case _ => sequence, written := 0, 0;
  }

  method WriteChar(output: array<char>, at: nat, c: char) returns (sequence: nat, written: nat)
    requires at < output.Length
    modifies output
    ensures sequence == 2 && written == 1 && output[..at + 1] == old(output[..at]) + [c]
  {
    output[at] := c;
    return 2, 1;
  }

  method Turn(content: string, p: nat, end: nat, output: array<char>, at: nat, ghost unescape: string -> Option<string>,
              ghost rest: string -> nat, ghost done: string, ghost whole: Option<string>)
    returns (sequence: nat, written: nat, ghost more: string)
    requires p < end < |content| && content[end] == '\"' && at < output.Length && output[..at] == done
    requires Specified(unescape, rest)
    requires SecondPass(unescape, rest, whole, done, Remaining(content, p, end), output.Length - 1)
    modifies output
    ensures sequence == 0 ==> whole == None
    ensures sequence > 0 ==> at + written < output.Length && output[..at + written] == done + more
    ensures sequence > 0 ==>
              SecondPass(unescape, rest, whole, done + more, Remaining(content, p + sequence, end), output.Length - 1)
  {
    ghost var u := Unit(content[p..end]);
    SecondPassStep(unescape, rest, whole, done, content[p..end], output.Length - 1, u);
    more := if u.Some? then u.value.bytes else [];
    sequence, written := WriteUnit(content, p, end, output, at, u);
    RemainingStep(content, p, end, sequence);
  }

  /** The second pass over content from a to end, into a buffer just allocated. */
  method UnescapeInto(content: string, a: nat, end: nat, output: array<char>, ghost unescape: string -> Option<string>,
                      ghost rest: string -> nat) returns (ok: bool, length: nat)
    requires a <= end < |content| && content[end] == '\"' && output.Length > rest(content[a..end])
    requires Specified(unescape, rest)
    modifies output
    ensures ok <==> unescape(content[a..end]).Some?
    ensures ok ==>
              length < output.Length && output[..length] == unescape(content[a..end]).value && output[length] == NUL
  {
    ghost var whole, done := unescape(content[a..end]), "";
    Prepended(whole);
    length := 0;
    var p := a;
    while p < end
      invariant a <= p && length < output.Length && output[..length] == done
      invariant SecondPass(unescape, rest, whole, done, Remaining(content, p, end), output.Length - 1)
      decreases end - p
    {
      var sequence, written;
      ghost var more;
      sequence, written, more := Turn(content, p, end, output, length, unescape, rest, done, whole);
      if sequence == 0 {
        return false, length;
      }
      p, length, done := p + sequence, length + written, done + more;
    }
    output[length] := NUL;
    AllRead(unescape, rest, whole, done, output.Length - 1);
    ok := true;
  }

  lemma AllRead(unescape: string -> Option<string>, rest: string -> nat, whole: Option<string>, done: string, room: nat)
    requires Specified(unescape, rest) && SecondPass(unescape, rest, whole, done, [], room)
    ensures whole == Some(done)
  {
    assert Suffix([]);
    assert done + [] == done;
  }

  function Remaining(content: string, p: nat, end: nat): string
    requires end <= |content|
  {
    if p <= end then content[p..end] else []
  }

  lemma RemainingStep(content: string, p: nat, end: nat, n: nat)
    requires p <= end <= |content|
    ensures Behind(Remaining(content, p, end), n) == Remaining(content, p + n, end)
  {
  }

  lemma Prepended(x: Option<string>)
    ensures Prepend([], x) == x
  {
    if x.Some? {
      assert [] + x.value == x.value;
    }
  }

  class ParseBuffer<N> {
    /** The text and its NUL. */
    const content: string
    const num: Numbers<N>
    var offset: nat
    var depth: nat

    ghost predicate Valid()
      reads this
    {
      offset < |content| && content[|content| - 1] == NUL && NulFree(content[..|content| - 1])
    }

    /** What is left to be parsed. */
    ghost function Rest(): string
      requires Valid()
      reads this
    {
      content[offset..|content| - 1]
    }

    constructor (text: string, num: Numbers<N>)
      requires NulFree(text)
      ensures Valid() && Rest() == text && offset == 0 && depth == 0 && this.num == num
    {
      content := text + [NUL];
      this.num := num;
      offset, depth := 0, 0;
      new;
      assert content[..|content| - 1] == text;
    }

    /** What stands at the offset. */
    lemma Here()
      requires Valid()
      ensures content[offset] == if Rest() == [] then NUL else Rest()[0]
      ensures offset + 1 < |content| ==> content[offset + 1..|content| - 1] == Rest()[1..]
    {
    }

    /** buffer_skip_whitespace */
    method SkipWhitespace()
      requires Valid()
      modifies this`offset
      ensures Valid() && Rest() == Skip(old(Rest()))
    {
      ghost var n := |content| - 1;
      while offset < |content| && content[offset] <= ' '
        invariant offset <= |content|
        invariant offset <= n ==> Skip(content[offset..n]) == Skip(old(Rest()))
        invariant offset == |content| ==> Skip(old(Rest())) == []
      {
        if offset < n {
          assert content[offset..n][1..] == content[offset + 1..n];
        }
        offset := offset + 1;
      }
      if offset == |content| {
        offset := offset - 1;
      }
    }

    /** The offset is moved on by n characters of the text. */
    method Advance(n: nat)
      requires Valid() && n <= |Rest()|
      modifies this`offset
      ensures Valid() && Rest() == old(Rest())[n..]
    {
      offset := offset + n;
    }

    /** parse_string; what the item gets is the C string in the buffer. */
    method ParseString() returns (ok: bool, text: string)
      requires Valid()
      modifies this`offset
      ensures ok ==> Valid() && Grammar.ParseString(old(Rest())) == Some((text, Rest()))
      ensures !ok ==> Grammar.ParseString(old(Rest())) == None
    {
      var next;
      ok, text, next := ReadString(content, offset, |content| - 1, Grammar.ParseString(Rest()));
      if ok {
        offset := next;
      }
    }

    /** parse_number */
    method ParseNumber() returns (ok: bool, v: Json<N>)
      requires Valid()
      modifies this`offset
      ensures ok ==> Valid() && Grammar.ParseNumber(num, old(Rest())) == Some(Parsed(v, Rest()))
      ensures !ok ==> Grammar.ParseNumber(num, old(Rest())) == None
    {
      var numberString := ReadRun(content, offset, NUMBER_BUFFER);
      v := Null;
      match num.read(numberString)
      case None =>
        ok := false;
      case Some((n, length)) =>
        ok := 0 < length <= |numberString|;
        if ok {
          v := Number(n);
          Advance(length);
        }
    }

    /** strncmp with a literal. */
    method Matches(word: string) returns (ok: bool)
      requires Valid() && word != [] && NulFree(word)
      ensures ok <==> StartsWith(Rest(), word)
    {
      WordAtOffset(content, offset, word);
      ok := offset + |word| <= |content| && content[offset..offset + |word|] == word;
    }

    /** parse_value */
    method ParseValue() returns (ok: bool, v: Json<N>)
      requires Valid()
      modifies this`offset, this`depth
      ensures ok ==> Valid() && depth == old(depth) && offset > old(offset)
                     && Grammar.ParseValue(num, old(Rest()), old(depth)) == Some(Parsed(v, Rest()))
      ensures !ok ==> Grammar.ParseValue(num, old(Rest()), old(depth)) == None
      decreases |content| - offset, 3
    {
      v := Null;
      var word := ParseWord();
      if word.Some? {
        return true, word.value;
      }
      Here();
      NoWord(num, Rest(), depth);
      var c := content[offset];
      if c == '\"' {
        var text;
        ok, text := ParseString();
        v := String(text);
      } else if c == '-' || '0' <= c <= '9' {
        ok, v := ParseNumber();
      } else if c == '[' {
        ok, v := ParseArray();
      } else if c == '{' {
        ok, v := ParseObject();
      } else {
        ok := false;
      }
    }

    /** The literals of parse_value. */
    method ParseWord() returns (r: Option<Json<N>>)
      requires Valid()
      modifies this`offset
      ensures r.Some? ==> Valid() && offset > old(offset)
                          && Grammar.ParseValue(num, old(Rest()), depth) == Some(Parsed(r.value, Rest()))
      ensures r.None? ==> Valid() && offset == old(offset)
                          && !StartsWith(Rest(), "null") && !StartsWith(Rest(), "false") && !StartsWith(Rest(), "true")
    {
      var found := Matches("null");
      if found {
        Advance(4);
        return Some(Null);
      }
      found := Matches("false");
      if found {
        Advance(5);
        return Some(False);
      }
      found := Matches("true");
      if found {
        Advance(4);
        return Some(True);
      }
      return None;
    }

    /** What parse_array and parse_object begin with; if the closing bracket follows, they end here. */
    method Open(close: char) returns (empty: bool)
      requires Valid() && Rest() != [] && close != NUL
      modifies this`offset, this`depth
      ensures Valid() && offset > old(offset)
      ensures var t := Skip(old(Rest())[1..]);
              && (empty <==> t != [] && t[0] == close)
              && (empty ==> depth == old(depth) && Rest() == t[1..])
              && (!empty ==> depth == old(depth) + 1 && Rest() == t)
    {
      depth := depth + 1;
      Advance(1);
      SkipWhitespace();
      Here();
      empty := content[offset] == close;
      if empty {
        depth := depth - 1;
        Advance(1);
      }
    }

    /** parse_array */
    method ParseArray() returns (ok: bool, v: Json<N>)
      requires Valid() && Rest() != [] && Rest()[0] == '['
      modifies this`offset, this`depth
      ensures ok ==> Valid() && depth == old(depth) && offset > old(offset)
                     && Grammar.ParseArray(num, old(Rest()), old(depth)) == Some(Parsed(v, Rest()))
      ensures !ok ==> Grammar.ParseArray(num, old(Rest()), old(depth)) == None
      decreases |content| - offset, 2
    {
      v := Null;
      ghost var s := Rest();
      if depth >= NESTING_LIMIT {
        return false, v;
      }
      var empty := Open(']');
      if empty {
        return true, Array([]);
      }
      ok, v := FillArray(s);
    }

    /** parse_array behind the opening bracket and white space. */
    method FillArray(ghost s: string) returns (ok: bool, v: Json<N>)
      requires Valid() && depth > 0 && s != [] && Rest() == Skip(s[1..]) && !(Rest() != [] && Rest()[0] == ']')
      requires depth <= NESTING_LIMIT && offset > 0
      modifies this`offset, this`depth
      ensures ok ==> Valid() && depth == old(depth) - 1 && offset > old(offset)
      ensures ok ==> Grammar.ParseArray(num, s, old(depth) - 1) == Some(Parsed(v, Rest()))
      ensures !ok ==> Grammar.ParseArray(num, s, old(depth) - 1) == None
      decreases |content| - offset, 6
    {
      ArrayByParts(num, s, depth - 1);
      var items;
      ok, items := ParseItems();
      v := Array(items);
      if ok {
        depth := depth - 1;
      }
    }

    /** The loop of parse_array: it steps back to the character in front of the first element. */
    method ParseItems() returns (ok: bool, items: seq<Json<N>>)
      requires Valid() && offset > 0
      modifies this`offset, this`depth
      ensures ok ==> Valid() && depth == old(depth) && offset > old(offset)
                     && Grammar.ParseItems(num, old(Rest()), depth) == Some(Items(items, Rest()))
      ensures !ok ==> Grammar.ParseItems(num, old(Rest()), old(depth)) == None
      decreases |content| - offset, 5
    {
      ghost var whole, next := Grammar.ParseItems(num, Rest(), depth), Rest();
      items := [];
      NothingInFront(whole);
      offset := offset - 1;
      var more := true;
      while more
        invariant offset < |content| && depth == old(depth) && old(offset) <= offset + 1
        invariant more ==> Comma(next) && whole == InFront(items, Grammar.ParseItems(num, next, depth))
        invariant !more ==> Valid() && offset > old(offset) && whole == AtEnd(items, Rest())
        decreases |content| - offset, more
      {
        ghost var rest;
        var v;
        ok, v, more, rest := NextItem(next);
        if !ok {
          return;
        }
        ItemsTurn(num, next, depth, v, rest, items, whole);
        items := items + [v];
        next := if more then Rest()[1..] else [];
      }
      Here();
      ok := content[offset] == ']';
      if ok {
        Advance(1);
      }
    }

    /** The offset is at a character in front of next. */
    ghost predicate Comma(next: string)
      reads this
    {
      && offset + 1 < |content| && content[|content| - 1] == NUL && NulFree(content[..|content| - 1])
      && next == content[offset + 1..|content| - 1]
    }

    /** One element; is there another? */
    method NextItem(ghost next: string) returns (ok: bool, v: Json<N>, more: bool, ghost rest: string)
      requires Comma(next)
      modifies this`offset, this`depth
      ensures ok ==> Valid() && depth == old(depth) && offset > old(offset) + 1
      ensures ok ==> Grammar.ParseValue(num, Skip(next), depth) == Some(Parsed(v, rest)) && Rest() == Skip(rest)
      ensures ok ==> (more <==> Rest() != [] && Rest()[0] == ',') && (more ==> Comma(Rest()[1..]))
      ensures !ok ==> Grammar.ParseValue(num, Skip(next), old(depth)) == None
      decreases |content| - offset - 1, 4
    {
      offset, more, rest := offset + 1, false, [];
      SkipWhitespace();
      ok, v := ParseValue();
      if ok {
        rest := Rest();
        SkipWhitespace();
        Here();
        more := content[offset] == ',';
      }
    }

    /** parse_object */
    method ParseObject() returns (ok: bool, v: Json<N>)
      requires Valid() && Rest() != [] && Rest()[0] == '{'
      modifies this`offset, this`depth
      ensures ok ==> Valid() && depth == old(depth) && offset > old(offset)
                     && Grammar.ParseObject(num, old(Rest()), old(depth)) == Some(Parsed(v, Rest()))
      ensures !ok ==> Grammar.ParseObject(num, old(Rest()), old(depth)) == None
      decreases |content| - offset, 2
    {
      v := Null;
      ghost var s := Rest();
      if depth >= NESTING_LIMIT {
        return false, v;
      }
      var empty := Open('}');
      if empty {
        return true, Object([]);
      }
      ok, v := FillObject(s);
    }

    /** parse_object behind the opening bracket and white space. */
    method FillObject(ghost s: string) returns (ok: bool, v: Json<N>)
      requires Valid() && depth > 0 && s != [] && Rest() == Skip(s[1..]) && !(Rest() != [] && Rest()[0] == '}')
      requires depth <= NESTING_LIMIT && offset > 0
      modifies this`offset, this`depth
      ensures ok ==> Valid() && depth == old(depth) - 1 && offset > old(offset)
      ensures ok ==> Grammar.ParseObject(num, s, old(depth) - 1) == Some(Parsed(v, Rest()))
      ensures !ok ==> Grammar.ParseObject(num, s, old(depth) - 1) == None
      decreases |content| - offset, 6
    {
      ObjectByParts(num, s, depth - 1);
      var members;
      ok, members := ParseMembers();
      v := Object(members);
      if ok {
        depth := depth - 1;
      }
    }

    /** A name and its colon. */
    method ParseKey() returns (ok: bool, key: string)
      requires Valid()
      modifies this`offset
      ensures ok ==> Valid() && offset > old(offset) && Grammar.ParseKey(old(Rest())) == Some((key, Rest()))
      ensures !ok ==> Grammar.ParseKey(old(Rest())) == None
    {
      SkipWhitespace();
      ok, key := ParseString();
      if !ok {
        return;
      }
      SkipWhitespace();
      Here();
      ok := content[offset] == ':';
      if ok {
        Advance(1);
      }
    }

    /** The loop of parse_object. */
    method ParseMembers() returns (ok: bool, members: seq<Member<N>>)
      requires Valid() && offset > 0
      modifies this`offset, this`depth
      ensures ok ==> Valid() && depth == old(depth) && offset > old(offset)
                     && Grammar.ParseMembers(num, old(Rest()), depth) == Some(Members(members, Rest()))
      ensures !ok ==> Grammar.ParseMembers(num, old(Rest()), old(depth)) == None
      decreases |content| - offset, 5
    {
      ghost var whole, next := Grammar.ParseMembers(num, Rest(), depth), Rest();
      members := [];
      NoMembersInFront(whole);
      offset := offset - 1;
      var more := true;
      while more
        invariant offset < |content| && depth == old(depth) && old(offset) <= offset + 1
        invariant more ==> Comma(next) && whole == MembersInFront(members, Grammar.ParseMembers(num, next, depth))
        invariant !more ==> Valid() && offset > old(offset) && whole == MembersAtEnd(members, Rest())
        decreases |content| - offset, more
      {
        ghost var behind, rest;
        var key, v;
        ok, key, v, more, behind, rest := NextMember(next);
        if !ok {
          return;
        }
        MembersTurn(num, next, depth, key, behind, v, rest, members, whole);
        members := members + [Member(key, v)];
        next := if more then Rest()[1..] else [];
      }
      Here();
      ok := content[offset] == '}';
      if ok {
        Advance(1);
      }
    }

    /** The value of a member; does another member follow? */
    method NextMemberValue() returns (ok: bool, v: Json<N>, more: bool, ghost rest: string)
      requires Valid()
      modifies this`offset, this`depth
      ensures ok ==> Valid() && depth == old(depth) && offset > old(offset)
      ensures ok ==> Grammar.ParseValue(num, Skip(old(Rest())), depth) == Some(Parsed(v, rest)) && Rest() == Skip(rest)
      ensures ok ==> (more <==> Rest() != [] && Rest()[0] == ',') && (more ==> Comma(Rest()[1..]))
      ensures !ok ==> Grammar.ParseValue(num, Skip(old(Rest())), old(depth)) == None
      decreases |content| - offset, 4
    {
      more, rest := false, [];
      SkipWhitespace();
      ok, v := ParseValue();
      if ok {
        rest := Rest();
        SkipWhitespace();
        Here();
        more := content[offset] == ',';
      }
    }

    /** One member; is there another? */
    method NextMember(ghost next: string)
      returns (ok: bool, key: string, v: Json<N>, more: bool, ghost behind: string, ghost rest: string)
      requires Comma(next)
      modifies this`offset, this`depth
      ensures ok ==> Valid() && depth == old(depth) && offset > old(offset) + 1
      ensures ok ==> Grammar.ParseKey(next) == Some((key, behind))
                     && Grammar.ParseValue(num, Skip(behind), depth) == Some(Parsed(v, rest)) && Rest() == Skip(rest)
      ensures ok ==> (more <==> Rest() != [] && Rest()[0] == ',') && (more ==> Comma(Rest()[1..]))
      ensures !ok ==> match Grammar.ParseKey(next)
                      case None => true
                      case Some((_, b)) => Grammar.ParseValue(num, Skip(b), old(depth)) == None
      decreases |content| - offset - 1, 4
    {
      offset, more, v, behind, rest := offset + 1, false, Null, [], [];
      ok, key := ParseKey();
      if !ok {
        return;
      }
      behind := Rest();
      ok, v, more, rest := NextMemberValue();
    }

    /** cJSON_ParseWithOpts, on a buffer nothing has been read of. */
    method Parse(requireEnd: bool) returns (ok: bool, v: Json<N>)
      requires Valid() && offset == 0 && depth == 0
      modifies this`offset, this`depth
      ensures ok ==> Grammar.Parse(num, old(Rest()), requireEnd) == Some(v)
      ensures !ok ==> Grammar.Parse(num, old(Rest()), requireEnd) == None
    {
      if 4 < |content| && content[..3] == BOM {
        assert Rest()[..3] == content[..3];
        Advance(3);
      } else {
        assert |Rest()| >= 4 ==> Rest()[..3] == content[..3];
      }
      assert Rest() == SkipBom(old(Rest()));
      SkipWhitespace();
      ok, v := ParseValue();
      if ok && requireEnd {
        SkipWhitespace();
        Here();
        ok := content[offset] == NUL;
      }
    }
  }

  /** The first pass has counted some units and reached p; the text ends at n and the string, if it ends, at e. */
  ghost predicate FirstPass(content: string, n: nat, p: nat, counted: nat, e: Option<nat>, total: nat) {
    && p <= n + 1 == |content| && content[n] == NUL
    && match e
       case None => p == n + 1 || StringEnd(content[p..n]).None?
       case Some(end) =>
         && p <= end < n && StringEnd(content[p..n]) == Some(end - p)
         && total == counted + Units(content[p..end])
  }

  lemma FirstPassStep(content: string, n: nat, p: nat, counted: nat, e: Option<nat>, total: nat)
    requires FirstPass(content, n, p, counted, e, total) && p <= n && content[p] != '\"'
    ensures content[p] == '\\' ==> p + 1 <= n
    ensures FirstPass(content, n, p + (if content[p] == '\\' then 2 else 1), counted + 1, e, total)
  {
    FindStep(content, p, n, if e.Some? then e.value else 0, e.Some?);
  }

  lemma FirstPassEnd(content: string, n: nat, p: nat, counted: nat, e: Option<nat>, total: nat)
    requires FirstPass(content, n, p, counted, e, total) && (p == n + 1 || content[p] == '\"')
    ensures p < n + 1 <==> e.Some?
    ensures p < n + 1 ==> p == e.value && total == counted
  {
    if p < n + 1 {
      assert p < n ==> content[p..n][0] == content[p];
      assert content[p..p] == [];
    }
  }

  /** One turn of the first pass at p, where the text ends at n and the string, if it ends, at e. */
  lemma FindStep(content: string, p: nat, n: nat, e: nat, ends: bool)
    requires p <= n == |content| - 1 && content[n] == NUL && content[p] != '\"'
    requires ends ==> p <= e < n && StringEnd(content[p..n]) == Some(e - p)
    ensures var d := if content[p] == '\\' then 2 else 1;
            && (p + d <= n ==> StringEnd(content[p..n]) == Later(d, StringEnd(content[p + d..n])))
            && (p + d > n ==> !ends && StringEnd(content[p..n]) == None)
            && (ends ==> p + d <= e && Units(content[p..e]) == 1 + Units(content[p + d..e]))
  {
    var d := if content[p] == '\\' then 2 else 1;
    if p < n {
      assert content[p..n][0] == content[p];
      if p + d <= n {
        assert content[p..n][d..] == content[p + d..n];
        EndIsQuote(content[p + d..n]);
      }
      if ends {
        assert p < e;
        assert content[p..e][0] == content[p];
        if p + d <= e {
          assert content[p..e][d..] == content[p + d..e];
        }
      }
    }
  }

  /** A value that is none of the three words is told by its first character. */
  lemma NoWord<N>(num: Numbers<N>, s: string, depth: nat)
    requires !StartsWith(s, "null") && !StartsWith(s, "false") && !StartsWith(s, "true")
    ensures s == [] ==> Grammar.ParseValue(num, s, depth) == None
    ensures s != [] && s[0] == '\"' ==>
              Grammar.ParseValue(num, s, depth)
              == match Grammar.ParseString(s)
                 case None => None
                 case Some((text, rest)) => Some(Parsed(String(text), rest))
    ensures s != [] && (s[0] == '-' || '0' <= s[0] <= '9') ==>
            Grammar.ParseValue(num, s, depth) == Grammar.ParseNumber(num, s)
    ensures s != [] && s[0] == '[' ==> Grammar.ParseValue(num, s, depth) == Grammar.ParseArray(num, s, depth)
    ensures s != [] && s[0] == '{' ==> Grammar.ParseValue(num, s, depth) == Grammar.ParseObject(num, s, depth)
    ensures s != [] && s[0] != '\"' && s[0] != '-' && !('0' <= s[0] <= '9') && s[0] != '[' && s[0] != '{' ==>
              Grammar.ParseValue(num, s, depth) == None
  {
  }

  /** The first pass of parse_string: the place of the closing quote and the number of backslashes. */
  method Scan(content: string, a: nat, ghost n: nat, ghost e: Option<nat>, ghost total: nat)
    returns (end: nat, skipped: nat)
    requires a <= n && n + 1 == |content| && FirstPass(content, n, a, 0, e, total)
    ensures end <= n <==> e.Some?
    ensures end <= n ==> e == Some(end) && content[end] == '\"' && skipped <= end - a && total == end - a - skipped
  {
    end, skipped := a, 0;
    ghost var counted := 0;
    while end < |content| && content[end] != '\"'
      invariant counted + skipped == end - a && FirstPass(content, n, end, counted, e, total)
      decreases |content| - end
    {
      FirstPassStep(content, n, end, counted, e, total);
      if content[end] == '\\' {
        // The check that something follows the backslash never fires: the NUL does.
        assert end + 1 < |content|;
        skipped := skipped + 1;
        end := end + 1;
      }
      end, counted := end + 1, counted + 1;
    }
    FirstPassEnd(content, n, end, counted, e, total);
  }

  /** A string literal that begins at p of content and whose closing quote stands at end. */
  lemma StringAt(content: string, p: nat, end: nat, n: nat)
    requires p < end < n <= |content| && content[p] == '\"' && StringEnd(content[p + 1..n]) == Some(end - p - 1)
    ensures ParseString(content[p..n]) == match Unescape(content[p + 1..end])
                                          case Some(out) => Some((CString(out), content[end + 1..n]))
                                          case None => None
  {
    TailOfSlice(content, p, n, 1);
    SliceOfSlice(content, p, n, 1, end - p);
    TailOfSlice(content, p, n, end - p + 1);
    StringOf(content[p..n], content[p + 1..n], content[p + 1..end], content[end + 1..n], end - p - 1);
  }

  lemma TailOfSlice(s: string, p: nat, n: nat, k: nat)
    requires p <= n <= |s| && k <= n - p
    ensures s[p..n][k..] == s[p + k..n]
  {
  }

  lemma NoStringAt(content: string, p: nat, n: nat)
    requires p <= n < |content| && content[n] == NUL
    requires content[p] != '\"' || StringEnd(content[p + 1..n]) == None
    ensures ParseString(content[p..n]) == None
  {
    var s := content[p..n];
    if p < n {
      assert s[0] == content[p] && s[1..] == content[p + 1..n];
    }
  }

  /** Names for Unescape and Written that do not unfold. */
  lemma Named() returns (unescape: string -> Option<string>, written: string -> nat)
    ensures Specified(unescape, written)
  {
    unescape, written := Unescape, Written;
  }

  lemma FirstPassStarts(content: string, at: nat, n: nat) returns (end: Option<nat>, total: nat)
    requires at < n && n + 1 == |content| && content[n] == NUL
    ensures FirstPass(content, n, at + 1, 0, end, total)
  {
    EndIsQuote(content[at + 1..n]);
    match StringEnd(content[at + 1..n])
    case None => end, total := None, 0;
    case Some(e) => end, total := Some(at + 1 + e), Units(content[at + 1..at + 1 + e]);
  }

  lemma FirstPassFinds(content: string, at: nat, n: nat, end: Option<nat>, total: nat)
    requires FirstPass(content, n, at + 1, 0, end, total)
    ensures end == None ==> at == n || StringEnd(content[at + 1..n]) == None
    ensures end.Some? ==> at < end.value < n && content[end.value] == '\"'
                          && StringEnd(content[at + 1..n]) == Some(end.value - at - 1)
  {
    if end.Some? {
      EndIsQuote(content[at + 1..n]);
    }
  }

  /** The estimate of the first pass is enough. */
  lemma BodyFits(content: string, at: nat, n: nat, e: nat, total: nat, unescape: string -> Option<string>,
                 written: string -> nat)
    requires Specified(unescape, written) && FirstPass(content, n, at + 1, 0, Some(e), total)
    ensures written(content[at + 1..e]) <= total
  {
    assert Suffix(content[at + 1..e]);
    EstimateIsEnough(content[at + 1..e]);
  }

  lemma ValueAt(content: string, at: nat, e: nat, n: nat, literal: Option<(string, string)>,
                unescape: string -> Option<string>, written: string -> nat)
    requires at < e < n <= |content| && content[at] == '\"' && StringEnd(content[at + 1..n]) == Some(e - at - 1)
    requires Specified(unescape, written) && literal == ParseString(content[at..n])
    ensures literal == match unescape(content[at + 1..e])
                       case Some(out) => Some((CString(out), content[e + 1..n]))
                       case None => None
  {
    assert Suffix(content[at + 1..e]);
    StringAt(content, at, e, n);
  }

  /** parse_string where content holds a text and its NUL: the string and where its literal ends. */
  method ReadString(content: string, at: nat, ghost n: nat, ghost literal: Option<(string, string)>)
    returns (ok: bool, text: string, next: nat)
    requires at <= n && n + 1 == |content| && content[n] == NUL && literal == ParseString(content[at..n])
    ensures ok ==> next <= n && literal == Some((text, content[next..n]))
    ensures !ok ==> literal == None
  {
    if content[at] != '\"' {
      NoStringAt(content, at, n);
      return false, "", at;
    }
    ghost var e, total := FirstPassStarts(content, at, n);
    var end, skipped := Scan(content, at + 1, n, e, total);
    FirstPassFinds(content, at, n, e, total);
    if end >= |content| {
      NoStringAt(content, at, n);
      return false, "", at;
    }
    ghost var unescape, written := Named();
    BodyFits(content, at, n, end, total, unescape, written);
    ValueAt(content, at, end, n, literal, unescape, written);
    ok, text, next := FinishString(content, at, end, skipped, n, literal, unescape, written);
  }

  method FinishString(content: string, at: nat, end: nat, skipped: nat, ghost n: nat,
                      ghost literal: Option<(string, string)>,
                      ghost unescape: string -> Option<string>, ghost written: string -> nat)
    returns (ok: bool, text: string, next: nat)
    requires at + 1 + skipped <= end < n < |content| && content[end] == '\"' && Specified(unescape, written)
    requires written(content[at + 1..end]) <= end - at - 1 - skipped
    requires literal == match unescape(content[at + 1..end])
                        case Some(out) => Some((CString(out), content[end + 1..n]))
                        case None => None
    ensures next <= n && literal == if ok then Some((text, content[next..n])) else None
  {
    next := end + 1;
    ok, text := UnescapeString(content, at + 1, end, skipped, unescape, written);
  }

  /** The buffer is as long as the first pass says, with a place for the NUL and one to spare. */
  method UnescapeString(content: string, a: nat, end: nat, skipped: nat, ghost unescape: string -> Option<string>,
                        ghost written: string -> nat) returns (ok: bool, text: string)
    requires a + skipped <= end < |content| && content[end] == '\"' && Specified(unescape, written)
    requires written(content[a..end]) <= end - a - skipped
    ensures ok <==> unescape(content[a..end]).Some?
    ensures ok ==> text == CString(unescape(content[a..end]).value)
  {
    text := "";
    var output := new char[end - a + 1 - skipped + 1];
    var length;
    ok, length := UnescapeInto(content, a, end, output, unescape, written);
    if ok {
      text := CString(output[..length]);
    }
  }

  /** The number characters that parse_number copies to its buffer of 64. */
  method ReadRun(content: string, at: nat, limit: nat) returns (run: string)
    requires at < |content| && content[|content| - 1] == NUL
    ensures run == Run(content[at..|content| - 1], limit)
  {
    var numberString := new char[limit + 1];
    var i := 0;
    while i < limit && at + i < |content| && NumberChar(content[at + i])
      invariant 0 <= i <= limit && at + i < |content|
      invariant numberString[..i] == content[at..at + i] && forall k :: at <= k < at + i ==> NumberChar(content[k])
    {
      numberString[i] := content[at + i];
      i := i + 1;
    }
    SliceOfSlice(content, at, |content| - 1, 0, i);
    RunIsPrefix(content[at..|content| - 1], limit, i);
    run := numberString[..i];
  }

  lemma {:induction false} RunIsPrefix(s: string, n: nat, i: nat)
    requires i <= n && i <= |s| && forall k :: 0 <= k < i ==> NumberChar(s[k])
    requires i == n || i == |s| || !NumberChar(s[i])
    ensures Run(s, n) == s[0..i]
  {
    if i > 0 {
      RunIsPrefix(s[1..], n - 1, i - 1);
      assert s[0..i] == [s[0]] + s[1..][0..i - 1];
    }
  }

  lemma WordAtOffset(content: string, p: nat, word: string)
    requires p < |content| && content[|content| - 1] == NUL && word != [] && NulFree(word)
    ensures StartsWith(content[p..|content| - 1], word) <==> p + |word| <= |content| && content[p..p + |word|] == word
  {
    var s := content[p..|content| - 1];
    if p + |word| <= |content| && content[p..p + |word|] == word {
      assert content[p..p + |word|][|word| - 1] == content[p + |word| - 1];
      assert s[..|word|] == word;
    }
    if StartsWith(s, word) {
      assert content[p..p + |word|] == s[..|word|];
    }
  }

  // ----- the loops of parse_array and parse_object

  lemma {:induction false} SkipTwice(s: string)
    ensures Skip(Skip(s)) == Skip(s)
  {
  }

  lemma ArrayByParts<N>(num: Numbers<N>, s: string, depth: nat)
    requires s != [] && depth < NESTING_LIMIT
    ensures var t := Skip(s[1..]);
            ParseArray(num, s, depth) ==
              if t != [] && t[0] == ']' then Some(Parsed(Array([]), t[1..])) else
              match ParseItems(num, t, depth + 1)
              case None => None
              case Some(Items(items, rest)) => Some(Parsed(Array(items), rest))
  {
    SkipTwice(s[1..]);
  }

  lemma ObjectByParts<N>(num: Numbers<N>, s: string, depth: nat)
    requires s != [] && depth < NESTING_LIMIT
    ensures var t := Skip(s[1..]);
            ParseObject(num, s, depth) ==
              if t != [] && t[0] == '}' then Some(Parsed(Object([]), t[1..])) else
              match ParseMembers(num, t, depth + 1)
              case None => None
              case Some(Members(members, rest)) => Some(Parsed(Object(members), rest))
  {
    SkipTwice(s[1..]);
  }

  lemma Associate<A>(a: seq<A>, x: A, b: seq<A>)
    ensures a + ([x] + b) == (a + [x]) + b
  {
  }

  function InFront<N>(items: seq<Json<N>>, r: Option<Items<N>>): Option<Items<N>> {
    match r
    case None => None
    case Some(Items(more, rest)) => Some(Items(items + more, rest))
  }

  function AtEnd<N>(items: seq<Json<N>>, s: string): Option<Items<N>> {
    if s != [] && s[0] == ']' then Some(Items(items, s[1..])) else None
  }

  lemma NothingInFront<N>(r: Option<Items<N>>)
    ensures InFront([], r) == r
  {
    if r.Some? {
      assert [] + r.value.items == r.value.items;
    }
  }

  lemma ItemsTurn<N>(num: Numbers<N>, s: string, depth: nat, v: Json<N>, r: string, items: seq<Json<N>>,
                     whole: Option<Items<N>>)
    requires ParseValue(num, Skip(s), depth) == Some(Parsed(v, r)) && whole == InFront(items, ParseItems(num, s, depth))
    ensures var q := Skip(r);
            whole == if q != [] && q[0] == ',' then InFront(items + [v], ParseItems(num, q[1..], depth))
                     else AtEnd(items + [v], q)
  {
    var q := Skip(r);
    if q != [] && q[0] == ',' {
      var rest := ParseItems(num, q[1..], depth);
      if rest.Some? {
        Associate(items, v, rest.value.items);
      }
    }
  }

  function MembersInFront<N>(members: seq<Member<N>>, r: Option<Members<N>>): Option<Members<N>> {
    match r
    case None => None
    case Some(Members(more, rest)) => Some(Members(members + more, rest))
  }

  function MembersAtEnd<N>(members: seq<Member<N>>, s: string): Option<Members<N>> {
    if s != [] && s[0] == '}' then Some(Members(members, s[1..])) else None
  }

  lemma NoMembersInFront<N>(r: Option<Members<N>>)
    ensures MembersInFront([], r) == r
  {
    if r.Some? {
      assert [] + r.value.members == r.value.members;
    }
  }

  lemma MembersTurn<N>(num: Numbers<N>, s: string, depth: nat, key: string, b: string, v: Json<N>, r: string,
                       members: seq<Member<N>>, whole: Option<Members<N>>)
    requires ParseKey(s) == Some((key, b)) && ParseValue(num, Skip(b), depth) == Some(Parsed(v, r))
    requires whole == MembersInFront(members, ParseMembers(num, s, depth))
    ensures var q := Skip(r);
            whole == if q != [] && q[0] == ','
                     then MembersInFront(members + [Member(key, v)], ParseMembers(num, q[1..], depth))
                     else MembersAtEnd(members + [Member(key, v)], q)
  {
    var q := Skip(r);
    if q != [] && q[0] == ',' {
      var rest := ParseMembers(num, q[1..], depth);
      if rest.Some? {
        Associate(members, Member(key, v), rest.value.members);
      }
    }
  }
}
