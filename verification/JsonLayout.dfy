/** What the format flag of cJSON.c does to a print: where its white space stands, and that it is no more than
    cJSON_Minify takes away. */
module JsonLayout {
  import opened Json
  import opened JsonMinify
  import opened JsonRoundTrip
  import opened JsonString
  import opened Options

  // ----- white space only

  /** In front of any text, x leaves y behind. */
  ghost predicate Leaves(x: string, y: string) {
    forall r {:trigger Min(x + r)} :: Min(x + r) == Prepend(y, Min(r))
  }

  lemma PrependTwice(a: string, b: string, m: Option<string>)
    ensures Prepend(a, Prepend(b, m)) == Prepend(a + b, m)
  {
    if m.Some? {
      assert a + (b + m.value) == (a + b) + m.value;
    }
  }

  lemma LeavesBoth(a: string, x: string, b: string, y: string)
    requires Leaves(a, x) && Leaves(b, y)
    ensures Leaves(a + b, x + y)
  {
    forall r
      ensures Min(a + b + r) == Prepend(x + y, Min(r))
    {
      assert a + b + r == a + (b + r);
      PrependTwice(x, y, Min(r));
    }
  }

  lemma InertStays(x: string)
    requires forall k :: 0 <= k < |x| ==> Inert(x[k])
    ensures Leaves(x, x)
  {
    forall r
      ensures Min(x + r) == Prepend(x, Min(r))
    {
      InertPasses(x, r);
    }
  }

  lemma {:induction false} BlanksGo(x: string)
    requires forall k :: 0 <= k < |x| ==> Blank(x[k])
    ensures Leaves(x, "")
  {
    forall r
      ensures Min(x + r) == Prepend("", Min(r))
    {
      BlanksPass(x, r);
    }
  }

  lemma {:induction false} BlanksPass(x: string, r: string)
    requires forall k :: 0 <= k < |x| ==> Blank(x[k])
    ensures Min(x + r) == Prepend("", Min(r))
  {
    if x == [] {
      assert x + r == r;
      assert Min(r).Some? ==> "" + Min(r).value == Min(r).value;
    } else {
      assert (x + r)[1..] == x[1..] + r;
      BlanksPass(x[1..], r);
    }
  }

  lemma QuotedStays(s: string)
    ensures Leaves(Quoted(s), Quoted(s))
  {
    var q := Quoted(s);
    forall r
      ensures Min(q + r) == Prepend(q, Min(r))
    {
      EndBehindEscape(s, "");
      assert q[1..] == Escape(s) + ['\"'] + "";
      assert q[..|Escape(s)| + 2] == q;
      StringPasses(q, |Escape(s)|, r);
    }
  }

  // ----- trees

  /** The texts of the numbers hold no blank, slash or quote, so that Minify leaves them as they are. */
  predicate PlainNumbers<N>(num: Numbers<N>, v: Json<N>)
    decreases v
  {
    match v
    case Number(n) => forall k :: 0 <= k < |num.show(n)| ==> num.show(n)[k] !in {' ', '\t', '\r', '\n', '/', '\"'}
    case Array(items) => forall i :: 0 <= i < |items| ==> PlainNumbers(num, items[i])
    case Object(members) => forall i :: 0 <= i < |members| ==> PlainNumbers(num, members[i].value)
    case _ => true
  }

  lemma {:induction false} PrintLeaves<N>(num: Numbers<N>, v: Json<N>, format: bool, depth: nat, e: nat)
    requires PlainNumbers(num, v)
    ensures Leaves(Print(num, v, format, depth), Print(num, v, false, e))
    decreases v, 1
  {
    match v
    case Null => InertStays("null");
    case False => InertStays("false");
    case True => InertStays("true");
    case Number(n) => InertStays(num.show(n));
    case String(s) => QuotedStays(s);
    case Array(items) =>
      ItemsLeave(num, items, format, depth + 1, e + 1);
      ArrayLeaves(PrintItems(num, items, format, depth + 1), PrintItems(num, items, false, e + 1));
    case Object(members) =>
      MembersLeave(num, members, format, depth + 1, e + 1);
      ObjectLeaves(PrintMembers(num, members, format, depth + 1), PrintMembers(num, members, false, e + 1), format,
                   depth, e);
  }

  lemma ArrayLeaves(x: string, y: string)
    requires Leaves(x, y)
    ensures Leaves("[" + (x + "]"), "[" + (y + "]"))
  {
    InertStays("[");
    InertStays("]");
    LeavesBoth(x, y, "]", "]");
    LeavesBoth("[", "[", x + "]", y + "]");
  }

  lemma ObjectLeaves(x: string, y: string, format: bool, depth: nat, e: nat)
    requires Leaves(x, y)
    ensures Leaves("{" + (Newline(format) + (x + (Indent(format, depth) + "}"))),
                   "{" + (Newline(false) + (y + (Indent(false, e) + "}"))))
  {
    var indent := Indent(format, depth);
    InertStays("{");
    InertStays("}");
    BlanksGo(Newline(format));
    BlanksGo(indent);
    LeavesBoth(indent, "", "}", "}");
    LeavesBoth(x, y, indent + "}", "" + "}");
    LeavesBoth(Newline(format), "", x + (indent + "}"), y + ("" + "}"));
    LeavesBoth("{", "{", Newline(format) + (x + (indent + "}")), "" + (y + ("" + "}")));
  }

  lemma {:induction false} ItemsLeave<N>(num: Numbers<N>, items: seq<Json<N>>, format: bool, depth: nat, e: nat)
    requires forall i :: 0 <= i < |items| ==> PlainNumbers(num, items[i])
    ensures Leaves(PrintItems(num, items, format, depth), PrintItems(num, items, false, e))
    decreases items, 0
  {
    if items == [] {
      InertStays("");
    } else {
      PrintLeaves(num, items[0], format, depth, e);
      ItemsLeave(num, items[1..], format, depth, e);
      ItemLeaves(Print(num, items[0], format, depth), Print(num, items[0], false, e), |items| == 1,
                 PrintItems(num, items[1..], format, depth), PrintItems(num, items[1..], false, e), format);
    }
  }

  lemma ItemLeaves(a: string, x: string, last: bool, b: string, y: string, format: bool)
    requires Leaves(a, x) && Leaves(b, y)
    ensures Leaves(a + ((if last then "" else "," + Gap(format)) + b),
                   x + ((if last then "" else "," + Gap(false)) + y))
  {
    var comma := if last then "" else ",";
    if last {
      InertStays("");
      LeavesBoth("", "", b, y);
      LeavesBoth(a, x, "" + b, "" + y);
    } else {
      InertStays(",");
      BlanksGo(Gap(format));
      LeavesBoth(",", ",", Gap(format), "");
      LeavesBoth("," + Gap(format), "," + "", b, y);
      LeavesBoth(a, x, "," + Gap(format) + b, "," + "" + y);
    }
  }

  lemma {:induction false} MembersLeave<N>(num: Numbers<N>, members: seq<Member<N>>, format: bool, depth: nat, e: nat)
    requires forall i :: 0 <= i < |members| ==> PlainNumbers(num, members[i].value)
    ensures Leaves(PrintMembers(num, members, format, depth), PrintMembers(num, members, false, e))
    decreases members, 0
  {
    if members == [] {
      InertStays("");
    } else {
      PrintLeaves(num, members[0].value, format, depth, e);
      MembersLeave(num, members[1..], format, depth, e);
      MemberLeaves(members[0].key, Print(num, members[0].value, format, depth), Print(num, members[0].value, false, e),
                   |members| == 1, PrintMembers(num, members[1..], format, depth),
                   PrintMembers(num, members[1..], false, e), format, depth, e);
    }
  }

  lemma MemberLeaves(key: string, a: string, x: string, last: bool, b: string, y: string, format: bool, depth: nat,
                     e: nat)
    requires Leaves(a, x) && Leaves(b, y)
    ensures Leaves(Indent(format, depth) + (Quoted(key) + (Colon(format)
                   + (a + ((if last then "" else ",") + (Newline(format) + b))))),
                   Indent(false, e) + (Quoted(key) + (Colon(false)
                   + (x + ((if last then "" else ",") + (Newline(false) + y))))))
  {
    var comma := if last then "" else ",";
    BlanksGo(Indent(format, depth));
    QuotedStays(key);
    ColonLeaves(format);
    InertStays(comma);
    BlanksGo(Newline(format));
    LeavesBoth(Newline(format), "", b, y);
    LeavesBoth(comma, comma, Newline(format) + b, "" + y);
    LeavesBoth(a, x, comma + (Newline(format) + b), comma + ("" + y));
    LeavesBoth(Colon(format), ":", a + (comma + (Newline(format) + b)), x + (comma + ("" + y)));
    AllOfMember(Indent(format, depth), Quoted(key), Colon(format) + (a + (comma + (Newline(format) + b))),
                ":" + (x + (comma + ("" + y))));
  }

  lemma AllOfMember(indent: string, key: string, a: string, x: string)
    requires Leaves(indent, "") && Leaves(key, key) && Leaves(a, x)
    ensures Leaves(indent + (key + a), "" + (key + x))
  {
    LeavesBoth(key, key, a, x);
    LeavesBoth(indent, "", key + a, key + x);
  }

  lemma ColonLeaves(format: bool)
    ensures Leaves(Colon(format), ":")
  {
    InertStays(":");
    if format {
      BlanksGo("\t");
      LeavesBoth(":", ":", "\t", "");
      assert Colon(format) == ":" + "\t" && ":" + "" == ":";
    }
  }

  /** Minify takes a print of either form down to the print without format, which holds nothing that it could take
      away. */
  lemma PrintIsMinified<N>(num: Numbers<N>, v: Json<N>, format: bool, depth: nat)
    requires PlainNumbers(num, v)
    ensures Min(Print(num, v, format, depth)) == Some(Print(num, v, false, 0))
    ensures Print(num, v, false, depth) == Print(num, v, false, 0) && Minimal(Print(num, v, false, 0))
  {
    var x, y, z := Print(num, v, format, depth), Print(num, v, false, 0), Print(num, v, false, depth);
    PrintLeaves(num, v, format, depth, 0);
    PrintLeaves(num, v, false, depth, 0);
    PrintLeaves(num, v, false, 0, depth);
    PrintLeaves(num, v, false, 0, 0);
    LeavesAll(x, y);
    LeavesAll(z, y);
    LeavesAll(y, z);
    LeavesAll(y, y);
  }

  lemma LeavesAll(x: string, y: string)
    requires Leaves(x, y)
    ensures Min(x) == Some(y)
  {
    assert x + [] == x && y + [] == y && Min([]) == Some([]);
    assert Min(x + []) == Prepend(y, Min([]));
  }

  /** So it is for every tree whose numbers can be read back. */
  lemma {:induction false} GoodIsPlain<N>(num: Numbers<N>, v: Json<N>)
    requires Good(num, v)
    ensures PlainNumbers(num, v)
    decreases v
  {
    match v
    case Array(items) =>
      forall i | 0 <= i < |items|
        ensures PlainNumbers(num, items[i])
      {
        GoodIsPlain(num, items[i]);
      }
    case Object(members) =>
      forall i | 0 <= i < |members|
        ensures PlainNumbers(num, members[i].value)
      {
        GoodIsPlain(num, members[i].value);
      }
    case _ =>
  }

  // ----- where it stands

  lemma Flat3(a: string, b: string, c: string)
    ensures a + (b + c) == a + b + c
  {
  }

  lemma Flat4(a: string, b: string, c: string, d: string)
    ensures a + (b + (c + d)) == a + b + c + d
  {
  }

  /** The parts with a separator between each two. */
  function Joined(parts: seq<string>, separator: string): string {
    if parts == [] then "" else if |parts| == 1 then parts[0] else parts[0] + separator + Joined(parts[1..], separator)
  }

  lemma JoinedNext(first: string, rest: seq<string>, separator: string, end: string)
    requires rest != []
    ensures Joined([first] + rest, separator) + end == first + separator + (Joined(rest, separator) + end)
  {
    assert ([first] + rest)[1..] == rest;
    assert (first + separator + Joined(rest, separator)) + end == first + separator + (Joined(rest, separator) + end);
  }

  /** The elements of an array stand behind each other. */
  predicate ItemsPrinted<N>(num: Numbers<N>, items: seq<Json<N>>, format: bool, depth: nat, parts: seq<string>) {
    |parts| == |items| && forall i :: 0 <= i < |items| ==> parts[i] == Print(num, items[i], format, depth)
  }

  lemma {:induction false} ItemsAreJoined<N>(num: Numbers<N>, items: seq<Json<N>>, format: bool, depth: nat,
                                             parts: seq<string>)
    requires ItemsPrinted(num, items, format, depth, parts)
    ensures PrintItems(num, items, format, depth) == Joined(parts, if format then ", " else ",")
  {
    if |items| == 1 {
      assert items[1..] == [];
      assert parts[0] + ("" + "") == parts[0];
    } else if items != [] {
      var separator := if format then ", " else ",";
      ItemsAreJoined(num, items[1..], format, depth, parts[1..]);
      assert "," + Gap(format) == separator;
      Flat3(parts[0], separator, Joined(parts[1..], separator));
    }
  }

  /** An array is printed on one line: with a blank behind each comma, or with none. */
  lemma ArrayIsJoined<N>(num: Numbers<N>, items: seq<Json<N>>, format: bool, depth: nat, parts: seq<string>)
    requires ItemsPrinted(num, items, format, depth + 1, parts)
    ensures Print(num, Array(items), format, depth) == "[" + Joined(parts, if format then ", " else ",") + "]"
  {
    ItemsAreJoined(num, items, format, depth + 1, parts);
  }

  /** A member behind n tabs, with a tab behind its colon; or with neither. */
  predicate MembersPrinted<N>(num: Numbers<N>, members: seq<Member<N>>, format: bool, n: nat, parts: seq<string>) {
    |parts| == |members| && forall i :: 0 <= i < |members| ==> parts[i] == MemberText(num, members[i], format, n)
  }

  function MemberText<N>(num: Numbers<N>, m: Member<N>, format: bool, n: nat): string {
    if format then seq(n, _ => '\t') + "\"" + Escape(m.key) + "\":\t" + Print(num, m.value, true, n)
    else "\"" + Escape(m.key) + "\":" + Print(num, m.value, false, n)
  }

  lemma MemberIsText<N>(num: Numbers<N>, m: Member<N>, format: bool, n: nat, rest: string)
    ensures Indent(format, n) + (Quoted(m.key) + (Colon(format) + (Print(num, m.value, format, n) + rest)))
            == MemberText(num, m, format, n) + rest
  {
    KeyIsText(Indent(format, n), m.key, format, Print(num, m.value, format, n), rest);
    if !format {
      Flat3("", Quoted(m.key) + ":", Print(num, m.value, format, n));
    }
  }

  lemma KeyIsText(indent: string, key: string, format: bool, value: string, rest: string)
    ensures indent + (Quoted(key) + (Colon(format) + (value + rest)))
            == (indent + "\"" + Escape(key) + (if format then "\":\t" else "\":") + value) + rest
    ensures "" + "\"" + Escape(key) + "\":" + value == "\"" + Escape(key) + "\":" + value
  {
    var colon := if format then ":\t" else ":";
    var tail := if format then "\":\t" else "\":";
    assert ['\"'] + colon == tail;
    ColonIsText(Escape(key), colon, tail);
    Flat4(indent, Quoted(key), colon, value + rest);
    Flat3(indent + Quoted(key) + colon, value, rest);
    Flat3(indent, Quoted(key), colon);
    Flat4(indent, "\"", Escape(key), tail);
    Flat3("\"", Escape(key), tail);
    assert "" + "\"" == "\"";
  }

  lemma ColonIsText(e: string, colon: string, tail: string)
    requires ['\"'] + colon == tail
    ensures ['\"'] + e + ['\"'] + colon == "\"" + e + tail
  {
    Flat3(['\"'] + e, ['\"'], colon);
  }

  lemma {:induction false} MembersAreJoined<N>(num: Numbers<N>, members: seq<Member<N>>, format: bool, n: nat,
                                               parts: seq<string>)
    requires MembersPrinted(num, members, format, n, parts) && members != []
    ensures PrintMembers(num, members, format, n)
            == Joined(parts, "," + Newline(format)) + Newline(format)
  {
    var comma := if |members| == 1 then "" else ",";
    MemberIsText(num, members[0], format, n, comma + (Newline(format) + PrintMembers(num, members[1..], format, n)));
    if |members| == 1 {
      assert members[1..] == [];
      assert "" + (Newline(format) + "") == Newline(format);
    } else {
      MembersAreJoined(num, members[1..], format, n, parts[1..]);
      SeparatorStands(parts, Newline(format));
    }
  }

  lemma SeparatorStands(parts: seq<string>, line: string)
    requires |parts| > 1
    ensures parts[0] + ("," + (line + (Joined(parts[1..], "," + line) + line))) == Joined(parts, "," + line) + line
  {
    JoinedNext(parts[0], parts[1..], "," + line, line);
    assert parts == [parts[0]] + parts[1..];
    Flat4(parts[0], ",", line, Joined(parts[1..], "," + line) + line);
    Flat3(parts[0], ",", line);
  }

  /** Every member of an object stands on a line of its own, behind as many tabs as it is deep; the brace that closes it
      on the next, behind one less. */
  lemma ObjectIsLaidOut<N>(num: Numbers<N>, members: seq<Member<N>>, depth: nat, parts: seq<string>)
    requires MembersPrinted(num, members, true, depth + 1, parts)
    ensures Print(num, Object(members), true, depth)
            == "{\n" + (Joined(parts, ",\n") + ((if members == [] then "" else "\n") + (seq(depth, _ => '\t') + "}")))
  {
    var close := seq(depth, _ => '\t') + "}";
    if members != [] {
      MembersAreJoined(num, members, true, depth + 1, parts);
      assert "," + "\n" == ",\n";
      Flat3(Joined(parts, ",\n"), "\n", close);
      Flat3("{", "\n", Joined(parts, ",\n") + "\n" + close);
    } else {
      Flat3("{", "\n", "" + close);
      assert "" + close == close && "" + ("" + close) == close;
    }
    assert "{" + "\n" == "{\n";
  }

  /** Without format there is nothing between the members but commas. */
  lemma ObjectIsJoined<N>(num: Numbers<N>, members: seq<Member<N>>, depth: nat, parts: seq<string>)
    requires MembersPrinted(num, members, false, depth + 1, parts)
    ensures Print(num, Object(members), false, depth) == "{" + (Joined(parts, ",") + "}")
  {
    if members != [] {
      MembersAreJoined(num, members, false, depth + 1, parts);
      assert "," + "" == ",";
    }
    var inner := PrintMembers(num, members, false, depth + 1);
    assert "" + "}" == "}" && inner + "" == inner && Joined(parts, ",") + "" == Joined(parts, ",");
    assert "" + (inner + "}") == inner + "}";
  }
}
