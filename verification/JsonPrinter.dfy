/** The printer of cJSON.c and its growing buffer. */
module JsonPrinter {
  import opened Json
  import Texts = Json
  import opened JsonString
  import opened Options

  const INT_MAX := 0x7fff_ffff
  const NUMBER_LENGTH := 25

  /** Strings are C strings, and numbers fit the buffer they are printed to first. */
  predicate Printable<N>(num: Numbers<N>, v: Json<N>)
    decreases v
  {
    match v
    case Number(n) => NulFree(num.show(n)) && |num.show(n)| <= NUMBER_LENGTH
    case String(s) => NulFree(s)
    case Array(items) => forall i :: 0 <= i < |items| ==> Printable(num, items[i])
    case Object(members) => forall i :: 0 <= i < |members| ==>
      NulFree(members[i].key) && Printable(num, members[i].value)
    case _ => true
  }

  class PrintBuffer<N> {
    const num: Numbers<N>
    const format: bool
    const noalloc: bool
    var buffer: array<char>
    var offset: nat
    var depth: nat

    constructor (num: Numbers<N>, format: bool, noalloc: bool, buffer: array<char>)
      requires buffer.Length <= INT_MAX
      ensures Valid() && this.num == num && this.format == format && this.noalloc == noalloc
      ensures this.buffer == buffer && offset == 0 && depth == 0
    {
      this.num, this.format, this.noalloc, this.buffer := num, format, noalloc, buffer;
      offset, depth := 0, 0;
    }

    ghost predicate Valid()
      reads this
    {
      buffer.Length <= INT_MAX && offset <= buffer.Length && (offset == buffer.Length ==> offset == 0)
    }

    /** How long the buffer may get. */
    function Limit(): nat
      reads this
    {
      if noalloc then buffer.Length else INT_MAX
    }

    ghost predicate Done(done: string)
      reads this, buffer
    {
      Valid() && offset == |done| && buffer[..offset] == done
    }

    /** ensure: room for needed more characters and a NUL; what is done is kept. */
    method Ensure(needed: nat, ghost done: string) returns (ok: bool)
      requires Done(done)
      modifies this`buffer
      ensures buffer == old(buffer) || (!noalloc && fresh(buffer))
      ensures ok <==> needed + offset + 1 <= old(Limit())
      ensures Done(done) && Limit() == old(Limit())
      ensures ok ==> needed + offset + 1 <= buffer.Length
    {
      if buffer.Length > 0 && offset >= buffer.Length {
        return false;
      }
      if needed > INT_MAX {
        return false;
      }
      var total := needed + offset + 1;
      if total <= buffer.Length {
        return true;
      }
      if noalloc {
        return false;
      }
      var newsize;
      if total > INT_MAX / 2 {
        if total <= INT_MAX {
          newsize := INT_MAX;
        } else {
          return false;
        }
      } else {
        newsize := total * 2;
      }
      var newbuffer := new char[newsize];
      var i := 0;
      while i < offset + 1 && i < buffer.Length
        invariant 0 <= i <= buffer.Length && i <= offset + 1
        invariant newbuffer[..i] == buffer[..i]
        modifies newbuffer
      {
        newbuffer[i] := buffer[i];
        i := i + 1;
      }
      assert buffer[..i][..offset] == done && newbuffer[..i][..offset] == newbuffer[..offset];
      buffer := newbuffer;
      ok := true;
    }

    /** What is done and, from the offset on, a C string: all is what the whole print has come to. */
    ghost predicate Printed(all: string)
      reads this, buffer
    {
      && Valid() && offset <= |all| < buffer.Length && buffer[..|all|] == all && buffer[|all|] == NUL
      && forall k :: offset <= k < |all| ==> all[k] != NUL
    }

    /** Characters written at the offset. */
    method Emit(s: string, needed: nat, ghost done: string) returns (ok: bool)
      requires Done(done) && |s| <= needed
      modifies this`buffer, buffer
      ensures buffer == old(buffer) || (!noalloc && fresh(buffer))
      ensures ok <==> needed + |done| + 1 <= old(Limit())
      ensures Valid() && Limit() == old(Limit()) && offset == |done|
      ensures ok ==> |done| + needed + 1 <= buffer.Length && buffer[..|done| + |s|] == done + s
    {
      ok := Ensure(needed, done);
      if ok {
        var i := 0;
        while i < |s|
          invariant 0 <= i <= |s| && buffer[..offset + i] == done + s[..i]
          modifies buffer
        {
          buffer[offset + i] := s[i];
          assert s[..i + 1] == s[..i] + [s[i]];
          i := i + 1;
        }
        assert s[..|s|] == s;
      }
    }

    /** Characters that are done at once. */
    method Append(s: string, needed: nat, ghost done: string) returns (ok: bool)
      requires Done(done) && |s| <= needed
      modifies this`buffer, this`offset, buffer
      ensures buffer == old(buffer) || (!noalloc && fresh(buffer))
      ensures ok <==> needed + |done| + 1 <= old(Limit())
      ensures Limit() == old(Limit()) && (ok ==> Done(done + s))
    {
      ok := Emit(s, needed, done);
      if ok {
        offset := offset + |s|;
      }
    }

    /** Characters and a NUL; the offset is for others to move. */
    method Finish(s: string, needed: nat, ghost done: string) returns (ok: bool)
      requires Done(done) && |s| < needed && NulFree(s)
      modifies this`buffer, buffer
      ensures buffer == old(buffer) || (!noalloc && fresh(buffer))
      ensures ok <==> needed + |done| + 1 <= old(Limit())
      ensures Limit() == old(Limit()) && (ok ==> offset == old(offset) && Printed(done + s))
    {
      ok := Emit(s, needed, done);
      if ok {
        buffer[offset + |s|] := NUL;
      }
    }

    /** update_offset: strlen from the offset on. */
    method UpdateOffset(ghost all: string)
      requires Printed(all)
      modifies this`offset
      ensures Done(all)
    {
      var length := 0;
      while buffer[offset + length] != NUL
        invariant offset + length <= |all|
        decreases |all| - length
      {
        assert all[offset + length] == buffer[offset + length];
        length := length + 1;
      }
      offset := offset + length;
    }

    /** print_number */
    method PrintNumber(n: N, ghost done: string) returns (ok: bool)
      requires Done(done) && NulFree(num.show(n)) && |num.show(n)| <= NUMBER_LENGTH
      modifies this`buffer, this`offset, buffer
      ensures buffer == old(buffer) || (!noalloc && fresh(buffer))
      ensures ok <==> |done + num.show(n)| + 2 <= old(Limit())
      ensures Limit() == old(Limit()) && (ok ==> Printed(done + num.show(n)))
    {
      var text := num.show(n);
      ok := Finish(text, |text| + 1, done);
      if ok {
        offset := offset + |text|;
      }
    }

    /** print_string_ptr */
    method PrintString(s: string, ghost done: string) returns (ok: bool)
      requires Done(done) && NulFree(s)
      modifies this`buffer, buffer
      ensures buffer == old(buffer) || (!noalloc && fresh(buffer))
      ensures ok <==> |done + Quoted(s)| + 2 <= old(Limit())
      ensures Limit() == old(Limit()) && (ok ==> offset == old(offset) && Printed(done + Quoted(s)))
    {
      var escapeCharacters := CountEscapes(s);
      FirstPassIsRight(s);
      var outputLength := |s| + escapeCharacters;
      ok := Ensure(outputLength + 3, done);
      if !ok {
        return;
      }
      WriteQuoted(buffer, offset, s, escapeCharacters, done);
      QuotedIsNulFree(s);
    }

    /** print_value */
    method PrintValue(v: Json<N>, ghost done: string) returns (ok: bool)
      requires Done(done) && Printable(num, v)
      modifies this`buffer, this`offset, this`depth, buffer
      ensures buffer == old(buffer) || (!noalloc && fresh(buffer))
      ensures ok <==> |done + Print(num, v, format, old(depth))| + 2 <= old(Limit())
      ensures Limit() == old(Limit())
      ensures ok ==> depth == old(depth) && Printed(done + Print(num, v, format, depth))
      decreases v, 3
    {
      match v
      case Null => ok := Finish("null", 5, done);
      case False => ok := Finish("false", 6, done);
      case True => ok := Finish("true", 5, done);
      case Number(n) => ok := PrintNumber(n, done);
      case String(s) => ok := PrintString(s, done);
      case Array(items) => ok := PrintArray(items, done, done + Print(num, v, format, depth));
      case Object(members) => ok := PrintObject(members, done, done + Print(num, v, format, depth));
    }

    /** print_array */
    method PrintArray(items: seq<Json<N>>, ghost done: string, ghost whole: string) returns (ok: bool)
      requires Done(done) && Printable(num, Array(items))
      requires whole == done + Print(num, Array(items), format, depth)
      modifies this`buffer, this`offset, this`depth, buffer
      ensures buffer == old(buffer) || (!noalloc && fresh(buffer))
      ensures ok <==> |whole| + 2 <= old(Limit())
      ensures Limit() == old(Limit())
      ensures ok ==> depth == old(depth) && Printed(whole)
      decreases items, 2
    {
      ghost var inner := Texts.PrintItems(num, items, format, depth + 1);
      ArrayText(done, inner, whole);
      ok := Append("[", 1, done);
      if !ok {
        return;
      }
      depth := depth + 1;
      ok := PrintItems(items, done + "[");
      if !ok {
        return;
      }
      ok := Finish("]", 2, done + "[" + inner);
      depth := depth - 1;
    }

    /** The loop of print_array. */
    method PrintItems(items: seq<Json<N>>, ghost done: string) returns (ok: bool)
      requires Done(done) && forall i :: 0 <= i < |items| ==> Printable(num, items[i])
      modifies this`buffer, this`offset, this`depth, buffer
      ensures buffer == old(buffer) || (!noalloc && fresh(buffer))
      ensures ok <==> items == [] || |done + Texts.PrintItems(num, items, format, old(depth))| + 2 <= old(Limit())
      ensures Limit() == old(Limit())
      ensures ok ==> depth == old(depth) && Done(done + Texts.PrintItems(num, items, format, depth))
      decreases items, 1
    {
      ghost var sofar, rest := done, Texts.PrintItems(num, items, format, depth);
      ghost var whole := done + rest;
      var i := 0;
      assert items[0..] == items;
      while i < |items|
        invariant 0 <= i <= |items| && depth == old(depth) && Limit() == old(Limit())
        invariant buffer == old(buffer) || (!noalloc && fresh(buffer))
        invariant Done(sofar) && rest == Texts.PrintItems(num, items[i..], format, depth) && sofar + rest == whole
        invariant i == |items| > 0 ==> |sofar| + 2 <= Limit()
      {
        ghost var text := ItemText(num, items[i], i == |items| - 1, format, depth);
        NextItem(num, items, i, format, depth);
        Shift(sofar, text, Texts.PrintItems(num, items[i + 1..], format, depth), whole);
        ok := PrintItem(items[i], i == |items| - 1, sofar);
        if !ok {
          return;
        }
        sofar, i := sofar + text, i + 1;
        rest := Texts.PrintItems(num, items[i..], format, depth);
      }
      assert sofar + "" == sofar;
      ok := true;
    }

    method PrintItem(v: Json<N>, last: bool, ghost sofar: string) returns (ok: bool)
      requires Done(sofar) && Printable(num, v)
      modifies this`buffer, this`offset, this`depth, buffer
      ensures buffer == old(buffer) || (!noalloc && fresh(buffer))
      ensures ok <==> |sofar + ItemText(num, v, last, format, old(depth))| + 2 <= old(Limit())
      ensures Limit() == old(Limit())
      ensures ok ==> depth == old(depth) && Done(sofar + ItemText(num, v, last, format, depth))
      decreases v, 4
    {
      ghost var text := Print(num, v, format, depth);
      ok := PrintValue(v, sofar);
      if !ok {
        return;
      }
      UpdateOffset(sofar + text);
      if !last {
        ok := Append("," + Gap(format), |Gap(format)| + 2, sofar + text);
        assert (sofar + text) + ("," + Gap(format)) == sofar + (text + ("," + Gap(format)));
      } else {
        assert text + "" == text;
      }
    }

    /** print_object */
    method PrintObject(members: seq<Member<N>>, ghost done: string, ghost whole: string) returns (ok: bool)
      requires Done(done) && Printable(num, Object(members))
      requires whole == done + Print(num, Object(members), format, depth)
      modifies this`buffer, this`offset, this`depth, buffer
      ensures buffer == old(buffer) || (!noalloc && fresh(buffer))
      ensures ok <==> |whole| + 2 <= old(Limit())
      ensures Limit() == old(Limit())
      ensures ok ==> depth == old(depth) && Printed(whole)
      decreases members, 2
    {
      ghost var inner := Texts.PrintMembers(num, members, format, depth + 1);
      ghost var head := done + ("{" + Newline(format));
      ObjectText(done, Newline(format), inner, Indent(format, depth), head, whole);
      ok := OpenObject(done);
      if !ok {
        return;
      }
      ok := PrintMembers(members, head);
      if !ok {
        return;
      }
      ok := CloseObject(head + inner);
    }

    /** The beginning of print_object. */
    method OpenObject(ghost done: string) returns (ok: bool)
      requires Done(done)
      modifies this`buffer, this`offset, this`depth, buffer
      ensures buffer == old(buffer) || (!noalloc && fresh(buffer))
      ensures ok <==> |done + ("{" + Newline(format))| + 2 <= old(Limit())
      ensures Limit() == old(Limit())
      ensures ok ==> depth == old(depth) + 1 && Done(done + ("{" + Newline(format)))
    {
      var open := "{" + Newline(format);
      ok := Append(open, |open| + 1, done);
      depth := depth + 1;
    }

    /** The end of print_object. */
    method CloseObject(ghost done: string) returns (ok: bool)
      requires Done(done) && depth > 0
      modifies this`buffer, this`depth, buffer
      ensures buffer == old(buffer) || (!noalloc && fresh(buffer))
      ensures ok <==> |done + (Indent(format, old(depth) - 1) + "}")| + 2 <= old(Limit())
      ensures Limit() == old(Limit()) && depth == old(depth) - 1
      ensures ok ==> Printed(done + (Indent(format, depth) + "}"))
    {
      CloseLength(format, depth - 1);
      ok := Finish(Indent(format, depth - 1) + "}", if format then depth + 1 else 2, done);
      depth := depth - 1;
    }

    /** The loop of print_object. */
    method PrintMembers(members: seq<Member<N>>, ghost done: string) returns (ok: bool)
      requires Done(done) && forall i :: 0 <= i < |members| ==>
               NulFree(members[i].key) && Printable(num, members[i].value)
      modifies this`buffer, this`offset, this`depth, buffer
      ensures buffer == old(buffer) || (!noalloc && fresh(buffer))
      ensures ok <==> members == [] || |done + Texts.PrintMembers(num, members, format, old(depth))| + 2 <= old(Limit())
      ensures Limit() == old(Limit())
      ensures ok ==> depth == old(depth) && Done(done + Texts.PrintMembers(num, members, format, depth))
      decreases members, 1
    {
      ghost var sofar, rest := done, Texts.PrintMembers(num, members, format, depth);
      ghost var whole := done + rest;
      var i := 0;
      assert members[0..] == members;
      while i < |members|
        invariant 0 <= i <= |members| && depth == old(depth) && Limit() == old(Limit())
        invariant buffer == old(buffer) || (!noalloc && fresh(buffer))
        invariant Done(sofar) && rest == Texts.PrintMembers(num, members[i..], format, depth) && sofar + rest == whole
        invariant i == |members| > 0 ==> |sofar| + 2 <= Limit()
      {
        ghost var text := MemberText(num, members[i], i == |members| - 1, format, depth);
        NextMember(num, members, i, format, depth);
        Shift(sofar, text, Texts.PrintMembers(num, members[i + 1..], format, depth), whole);
        ok := PrintMember(members[i], i == |members| - 1, sofar);
        if !ok {
          return;
        }
        sofar, i := sofar + text, i + 1;
        rest := Texts.PrintMembers(num, members[i..], format, depth);
      }
      assert sofar + "" == sofar;
      ok := true;
    }

    method PrintMember(m: Member<N>, last: bool, ghost sofar: string) returns (ok: bool)
      requires Done(sofar) && NulFree(m.key) && Printable(num, m.value)
      modifies this`buffer, this`offset, this`depth, buffer
      ensures buffer == old(buffer) || (!noalloc && fresh(buffer))
      ensures ok <==> |sofar + MemberText(num, m, last, format, old(depth))| + 2 <= old(Limit())
      ensures Limit() == old(Limit())
      ensures ok ==> depth == old(depth) && Done(sofar + MemberText(num, m, last, format, depth))
      decreases m, 4
    {
      ghost var head := sofar + Indent(format, depth) + Quoted(m.key) + Colon(format);
      ghost var value := Print(num, m.value, format, depth);
      var tail := (if last then "" else ",") + Newline(format);
      MemberParts(num, m, last, format, depth, sofar, head, value, tail);
      ok := PrintName(m.key, sofar);
      if !ok {
        return;
      }
      ok := PrintValue(m.value, head);
      if !ok {
        return;
      }
      UpdateOffset(head + value);
      ok := Append(tail, |tail| + 1, head + value);
    }

    /** Indentation, name and colon. */
    method PrintName(key: string, ghost sofar: string) returns (ok: bool)
      requires Done(sofar) && NulFree(key)
      modifies this`buffer, this`offset, buffer
      ensures buffer == old(buffer) || (!noalloc && fresh(buffer))
      ensures ok <== |sofar + Indent(format, depth) + Quoted(key) + Colon(format)| + 2 <= old(Limit())
      ensures Limit() == old(Limit())
      ensures ok ==> Done(sofar + Indent(format, depth) + Quoted(key) + Colon(format))
    {
      ghost var p := sofar;
      ok := Append(Indent(format, depth), |Indent(format, depth)|, p);
      if !ok {
        return;
      }
      p := p + Indent(format, depth);
      ok := PrintString(key, p);
      if !ok {
        return;
      }
      p := p + Quoted(key);
      UpdateOffset(p);
      ok := Append(Colon(format), |Colon(format)|, p);
    }
  }

  /** memcpy */
  method WriteAt(buffer: array<char>, at: nat, s: string, ghost before: string)
    requires at + |s| <= buffer.Length && buffer[..at] == before
    modifies buffer
    ensures buffer[..at + |s|] == before + s
  {
    var i := 0;
    while i < |s|
      invariant 0 <= i <= |s| && buffer[..at + i] == before + s[..i]
    {
      buffer[at + i] := s[i];
      assert s[..i + 1] == s[..i] + [s[i]];
      i := i + 1;
    }
    assert s[..|s|] == s;
  }

  /** The second pass of print_string_ptr. */
  method WriteEscaped(buffer: array<char>, at: nat, s: string, ghost before: string)
    requires at + |Escape(s)| <= buffer.Length && buffer[..at] == before
    modifies buffer
    ensures buffer[..at + |Escape(s)|] == before + Escape(s)
  {
    var i, p := 0, at;
    ghost var done, rest := before, s;
    while i < |s|
      invariant 0 <= i <= |s| && rest == s[i..] && at <= p && p + |Escape(rest)| == at + |Escape(s)|
      invariant p <= buffer.Length && buffer[..p] == done && done + Escape(rest) == before + Escape(s)
    {
      EscapeStep(rest, done);
      WriteAt(buffer, p, Escape1(s[i]), done);
      done, rest := done + Escape1(s[i]), s[i + 1..];
      i, p := i + 1, p + |Escape1(s[i])|;
    }
    assert done + [] == done;
  }

  method WriteQuoted(buffer: array<char>, at: nat, s: string, escapeCharacters: nat, ghost before: string)
    requires escapeCharacters == EscapeCharacters(s) && at + |Quoted(s)| < buffer.Length && buffer[..at] == before
    modifies buffer
    ensures buffer[..at + |Quoted(s)|] == before + Quoted(s) && buffer[at + |Quoted(s)|] == NUL
  {
    FirstPassIsRight(s);
    QuotedText(before, s);
    ghost var inside := before + ['\"'];
    WriteAt(buffer, at, ['\"'], before);
    WriteInside(buffer, at + 1, s, escapeCharacters, inside);
    WriteAt(buffer, at + 1 + |s| + escapeCharacters, ['\"'], inside + Escape(s));
    buffer[at + 1 + |s| + escapeCharacters + 1] := NUL;
  }

  method WriteInside(buffer: array<char>, at: nat, s: string, escapeCharacters: nat, ghost before: string)
    requires escapeCharacters == EscapeCharacters(s) && at + |Escape(s)| <= buffer.Length && buffer[..at] == before
    modifies buffer
    ensures buffer[..at + |Escape(s)|] == before + Escape(s)
  {
    FirstPassIsRight(s);
    if escapeCharacters == 0 {
      WriteAt(buffer, at, s, before);
    } else {
      WriteEscaped(buffer, at, s, before);
    }
  }

  lemma QuotedText(before: string, s: string)
    ensures before + Quoted(s) == before + ['\"'] + Escape(s) + ['\"'] && |Quoted(s)| == |Escape(s)| + 2
  {
  }

  lemma QuotedIsNulFree(s: string)
    requires NulFree(s)
    ensures NulFree(Quoted(s))
  {
    EscapeIsNulFree(s);
  }

  lemma EscapeStep(rest: string, done: string)
    requires rest != []
    ensures Escape(rest) == Escape1(rest[0]) + Escape(rest[1..])
    ensures done + Escape(rest) == (done + Escape1(rest[0])) + Escape(rest[1..])
  {
  }

  /** The first pass of print_string_ptr. */
  method CountEscapes(s: string) returns (n: nat)
    ensures n == EscapeCharacters(s)
  {
    n := 0;
    var i := 0;
    assert s[0..] == s;
    while i < |s|
      invariant 0 <= i <= |s| && n + EscapeCharacters(s[i..]) == EscapeCharacters(s)
    {
      assert s[i..][1..] == s[i + 1..];
      n := n + Extra(s[i]);
      i := i + 1;
    }
  }

  lemma {:induction false} EscapeIsNulFree(s: string)
    requires NulFree(s)
    ensures NulFree(Escape(s))
  {
    if s != [] {
      EscapeIsNulFree(s[1..]);
      Escape1IsNulFree(s[0]);
    }
  }

  lemma Escape1IsNulFree(c: char)
    requires c != NUL
    ensures NulFree(Escape1(c))
  {
    if |Escape1(c)| == 6 {
      assert HexDigit(c as nat / 16) != NUL && HexDigit(c as nat % 16) != NUL;
    }
  }

  // ----- what the program calls

  /** cJSON_Print and cJSON_PrintUnformatted: a buffer of 256 characters that grows as needed, cut to size. */
  method PrintTree<N>(num: Numbers<N>, v: Json<N>, format: bool) returns (text: Option<string>)
    requires Printable(num, v)
    ensures text == if |Print(num, v, format, 0)| + 2 <= INT_MAX then Some(Print(num, v, format, 0)) else None
  {
    var buffer := new char[256];
    var p := new PrintBuffer(num, format, false, buffer);
    ghost var whole := Print(num, v, format, 0);
    assert [] + whole == whole;
    var ok := p.PrintValue(v, []);
    if !ok {
      return None;
    }
    p.UpdateOffset(whole);
    text := Some(p.buffer[..p.offset]);
  }

  /** cJSON_PrintPreallocated: two characters more than the text is what it takes, no more and no less. */
  method PrintPreallocated<N>(num: Numbers<N>, v: Json<N>, buffer: array<char>, format: bool) returns (ok: bool)
    requires Printable(num, v) && buffer.Length <= INT_MAX
    modifies buffer
    ensures ok <==> |Print(num, v, format, 0)| + 2 <= buffer.Length
    ensures ok ==> buffer[..|Print(num, v, format, 0)|] == Print(num, v, format, 0)
    ensures ok ==> buffer[|Print(num, v, format, 0)|] == NUL
  {
    var p := new PrintBuffer(num, format, true, buffer);
    ghost var whole := Print(num, v, format, 0);
    assert [] + whole == whole;
    ok := p.PrintValue(v, []);
  }

  // ----- texts

  function ItemText<N>(num: Numbers<N>, v: Json<N>, last: bool, format: bool, depth: nat): string {
    Print(num, v, format, depth) + (if last then "" else "," + Gap(format))
  }

  function MemberText<N>(num: Numbers<N>, m: Member<N>, last: bool, format: bool, depth: nat): string {
    Indent(format, depth) + (Quoted(m.key) + (Colon(format) + (Print(num, m.value, format, depth)
    + ((if last then "" else ",") + Newline(format)))))
  }

  lemma ArrayText(done: string, inner: string, whole: string)
    requires whole == done + ("[" + (inner + "]"))
    ensures whole == done + "[" + inner + "]"
    ensures inner == "" ==> done + "[" + inner == done + "["
  {
  }

  lemma ObjectText(done: string, newline: string, inner: string, indent: string, head: string, whole: string)
    requires whole == done + ("{" + (newline + (inner + (indent + "}")))) && head == done + ("{" + newline)
    ensures whole == head + inner + (indent + "}")
    ensures inner == "" ==> head + inner == head
  {
  }

  lemma CloseLength(format: bool, depth: nat)
    ensures |Indent(format, depth) + "}"| == (if format then depth + 1 else 1) && NulFree(Indent(format, depth) + "}")
  {
  }

  lemma Shift(sofar: string, text: string, more: string, whole: string)
    requires sofar + (text + more) == whole
    ensures (sofar + text) + more == whole
  {
  }

  lemma NextItem<N>(num: Numbers<N>, items: seq<Json<N>>, i: nat, format: bool, depth: nat)
    requires i < |items|
    ensures PrintItems(num, items[i..], format, depth)
         == ItemText(num, items[i], i == |items| - 1, format, depth) + PrintItems(num, items[i + 1..], format, depth)
  {
    assert items[i..][1..] == items[i + 1..];
  }

  lemma NextMember<N>(num: Numbers<N>, members: seq<Member<N>>, i: nat, format: bool, depth: nat)
    requires i < |members|
    ensures PrintMembers(num, members[i..], format, depth)
         == MemberText(num, members[i], i == |members| - 1, format, depth)
           + PrintMembers(num, members[i + 1..], format, depth)
  {
    assert members[i..][1..] == members[i + 1..];
    var m, last := members[i], i == |members| - 1;
    Regroup(Indent(format, depth), Quoted(m.key), Colon(format), Print(num, m.value, format, depth),
            if last then "" else ",", Newline(format), PrintMembers(num, members[i + 1..], format, depth));
  }

  lemma Regroup(a: string, b: string, c: string, d: string, e: string, f: string, x: string)
    ensures a + (b + (c + (d + (e + (f + x))))) == (a + (b + (c + (d + (e + f))))) + x
  {
    assert e + (f + x) == (e + f) + x;
    assert d + ((e + f) + x) == (d + (e + f)) + x;
    assert c + ((d + (e + f)) + x) == (c + (d + (e + f))) + x;
    assert b + ((c + (d + (e + f))) + x) == (b + (c + (d + (e + f)))) + x;
    assert a + ((b + (c + (d + (e + f)))) + x) == (a + (b + (c + (d + (e + f))))) + x;
  }

  lemma MemberParts<N>(num: Numbers<N>, m: Member<N>, last: bool, format: bool, depth: nat, sofar: string,
                       head: string, value: string, tail: string)
    requires head == sofar + Indent(format, depth) + Quoted(m.key) + Colon(format)
    requires value == Print(num, m.value, format, depth) && tail == (if last then "" else ",") + Newline(format)
    ensures sofar + MemberText(num, m, last, format, depth) == head + value + tail
  {
    Regroup5(sofar, Indent(format, depth), Quoted(m.key), Colon(format), value, tail);
  }

  lemma Regroup5(s: string, a: string, b: string, c: string, d: string, e: string)
    ensures s + (a + (b + (c + (d + e)))) == s + a + b + c + d + e
  {
    assert s + (a + (b + (c + (d + e)))) == (s + a) + (b + (c + (d + e)));
    assert (s + a) + (b + (c + (d + e))) == ((s + a) + b) + (c + (d + e));
  }
}
