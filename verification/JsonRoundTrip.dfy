/** What cJSON prints, cJSON parses back to the tree it printed. */
module JsonRoundTrip {
  import opened Json
  import opened JsonString
  import opened Options

  /** A number whose text is read back as the number. */
  predicate GoodNumber<N(==)>(num: Numbers<N>, n: N) {
    var t := num.show(n);
    && 0 < |t| <= NUMBER_BUFFER && (t[0] == '-' || '0' <= t[0] <= '9')
    && (forall k :: 0 <= k < |t| ==> NumberChar(t[k]))
    && num.read(t) == Some((n, |t|))
  }

  /** Strings without NUL, numbers that can be read back. */
  predicate Good<N(==)>(num: Numbers<N>, v: Json<N>)
    decreases v
  {
    match v
    case Number(n) => GoodNumber(num, n)
    case String(s) => NulFree(s)
    case Array(items) => forall i :: 0 <= i < |items| ==> Good(num, items[i])
    case Object(members) => forall i :: 0 <= i < |members| ==> NulFree(members[i].key) && Good(num, members[i].value)
    case _ => true
  }

  /** The tree fits below depth other containers. */
  predicate Fits<N>(v: Json<N>, depth: nat)
    decreases v
  {
    match v
    case Array(items) => depth < NESTING_LIMIT && AllFit(items, depth + 1)
    case Object(members) => depth < NESTING_LIMIT && MembersFit(members, depth + 1)
    case _ => true
  }

  predicate AllFit<N>(items: seq<Json<N>>, depth: nat)
    decreases items
  {
    items == [] || (Fits(items[0], depth) && AllFit(items[1..], depth))
  }

  predicate MembersFit<N>(members: seq<Member<N>>, depth: nat)
    decreases members
  {
    members == [] || (Fits(members[0].value, depth) && MembersFit(members[1..], depth))
  }

  predicate NumberEnds(rest: string) {
    rest == [] || !NumberChar(rest[0])
  }

  // ----- tokens

  lemma {:induction false} RunOfNumber(t: string, rest: string, n: nat)
    requires |t| <= n && NumberEnds(rest) && forall k :: 0 <= k < |t| ==> NumberChar(t[k])
    ensures Run(t + rest, n) == t
  {
    if t == [] {
      assert t + rest == rest;
    } else {
      assert (t + rest)[1..] == t[1..] + rest;
      RunOfNumber(t[1..], rest, n - 1);
    }
  }

  lemma NumberIsRead<N>(num: Numbers<N>, n: N, rest: string)
    requires GoodNumber(num, n) && NumberEnds(rest)
    ensures ParseNumber(num, num.show(n) + rest) == Some(Parsed(Number(n), rest))
  {
    RunOfNumber(num.show(n), rest, NUMBER_BUFFER);
    assert (num.show(n) + rest)[|num.show(n)|..] == rest;
  }

  lemma {:induction false} CStringOfNulFree(s: string)
    requires NulFree(s)
    ensures CString(s) == s
  {
    if s != [] {
      CStringOfNulFree(s[1..]);
    }
  }

  lemma StringIsRead(s: string, rest: string)
    requires NulFree(s)
    ensures ParseString(Quoted(s) + rest) == Some((s, rest))
  {
    EndBehindEscape(s, rest);
    UnescapeOfEscape(s);
    CStringOfNulFree(s);
    QuotedParts(Escape(s), rest);
    StringOf(Quoted(s) + rest, Escape(s) + ['\"'] + rest, Escape(s), rest, |Escape(s)|);
  }

  lemma QuotedParts(e: string, rest: string)
    ensures var t := ['\"'] + e + ['\"'] + rest;
            t[1..] == e + ['\"'] + rest && t[1..|e| + 1] == e && t[|e| + 2..] == rest
  {
  }

  /** A string whose only escape has digits that are none is accepted all the same, and cut off at the NUL. */
  lemma BadEscapeIsAccepted(digits: string)
    requires |digits| == 4 && forall k :: 0 <= k < 4 ==> digits[k] != '\"' && digits[k] != '\\'
    requires BadDigit(digits, 0) || BadDigit(digits, 1) || BadDigit(digits, 2) || BadDigit(digits, 3)
    ensures ParseString(['\"', '\\', 'u'] + digits + ['\"']) == Some(([], []))
  {
    var body := ['\\', 'u'] + digits;
    var inner := body + ['\"'];
    var s := ['\"', '\\', 'u'] + digits + ['\"'];
    assert inner == ['\\', 'u'] + (digits + ['\"']);
    assert inner[2..] == digits + ['\"'];
    EndBehindOrdinary(digits, ['\"']);
    assert StringEnd(inner) == Some(6);
    assert s[1..] == inner && s[1..7] == body && s[8..] == [];
    StringOf(s, inner, body, [], 6);
    NulBody(digits, body);
  }

  lemma NulBody(digits: string, body: string)
    requires |digits| == 4 && body == ['\\', 'u'] + digits
    requires BadDigit(digits, 0) || BadDigit(digits, 1) || BadDigit(digits, 2) || BadDigit(digits, 3)
    ensures Unescape(body) == Some([NUL]) && CString([NUL]) == []
  {
    assert body[2..6] == digits;
    BadDigitIsZero(digits);
    BadEscapeIsNul(body);
    assert Behind(body, 6) == [];
    assert [NUL] + [] == [NUL];
  }

  /** White space is skipped, whatever does not begin with any is not. */
  lemma {:induction false} SkipsSpace(space: string, s: string)
    requires Space(space) && (s == [] || s[0] > ' ')
    ensures Skip(space + s) == s
  {
    if space == [] {
      assert space + s == s;
    } else {
      assert (space + s)[1..] == space[1..] + s;
      SkipsSpace(space[1..], s);
    }
  }

  lemma PrintStarts<N>(num: Numbers<N>, v: Json<N>, format: bool, depth: nat)
    requires Good(num, v)
    ensures var t := Print(num, v, format, depth); t != [] && t[0] > ' ' && t[0] !in {']', '}'}
  {
  }

  lemma HeadAndTail<A>(s: seq<A>)
    requires s != []
    ensures s == [s[0]] + s[1..] && (|s| == 1 ==> s == [s[0]])
  {
  }

  // ----- trees

  lemma {:induction false} ValueRoundTrip<N>(num: Numbers<N>, v: Json<N>, format: bool, tabs: nat, depth: nat,
                                             rest: string)
    requires Good(num, v) && NumberEnds(rest)
    ensures ParseValue(num, Print(num, v, format, tabs) + rest, depth)
         == (if Fits(v, depth) then Some(Parsed(v, rest)) else None)
    decreases v, 3
  {
    var s := Print(num, v, format, tabs) + rest;
    match v
    case Null =>
      assert s[4..] == rest;
    case False =>
      assert s[5..] == rest;
    case True =>
      assert s[4..] == rest;
    case Number(n) =>
      NumberIsRead(num, n, rest);
    case String(text) =>
      StringIsRead(text, rest);
    case Array(items) =>
      ArrayRoundTrip(num, items, format, tabs, depth, rest);
    case Object(members) =>
      ObjectRoundTrip(num, members, format, tabs, depth, rest);
  }

  lemma {:induction false} ArrayRoundTrip<N>(num: Numbers<N>, items: seq<Json<N>>, format: bool, tabs: nat, depth: nat,
                                             rest: string)
    requires Good(num, Array(items))
    ensures ParseArray(num, Print(num, Array(items), format, tabs) + rest, depth)
         == (if Fits(Array(items), depth) then Some(Parsed(Array(items), rest)) else None)
    decreases items, 2
  {
    var s := Print(num, Array(items), format, tabs) + rest;
    var inner := PrintItems(num, items, format, tabs + 1) + ("]" + rest);
    assert s[1..] == inner;
    if items == [] {
      assert inner == "]" + rest;
      SkipsSpace("", "]" + rest);
    } else {
      PrintStarts(num, items[0], format, tabs + 1);
      assert inner[0] == Print(num, items[0], format, tabs + 1)[0];
      SkipsSpace("", inner);
      assert "" + inner == inner;
      ItemsRoundTrip(num, items, format, tabs + 1, depth + 1, "", rest);
    }
  }

  predicate Space(s: string) {
    forall k :: 0 <= k < |s| ==> s[k] <= ' '
  }

  lemma LastItem<N>(num: Numbers<N>, s: string, depth: nat, v: Json<N>, r: string, rest: string, fits: bool)
    requires ParseValue(num, Skip(s), depth) == (if fits then Some(Parsed(v, r)) else None) && Skip(r) == "]" + rest
    ensures ParseItems(num, s, depth) == (if fits then Some(Items([v], rest)) else None)
  {
    assert ("]" + rest)[1..] == rest;
  }

  lemma OneMoreItem<N>(num: Numbers<N>, s: string, depth: nat, v: Json<N>, r: string, q: string, items: seq<Json<N>>,
                       rest: string, fits: bool, allFit: bool)
    requires ParseValue(num, Skip(s), depth) == (if fits then Some(Parsed(v, r)) else None) && Skip(r) == "," + q
    requires ParseItems(num, q, depth) == (if allFit then Some(Items(items, rest)) else None)
    ensures ParseItems(num, s, depth) == (if fits && allFit then Some(Items([v] + items, rest)) else None)
  {
    assert ("," + q)[1..] == q;
  }

  /** How the text of several items begins. */
  lemma ItemsText<N>(num: Numbers<N>, items: seq<Json<N>>, format: bool, tabs: nat, close: string)
    requires items != []
    ensures PrintItems(num, items, format, tabs) + close
         == Print(num, items[0], format, tabs)
            + (if |items| == 1 then close
               else "," + (Gap(format) + (PrintItems(num, items[1..], format, tabs) + close)))
  {
  }

  lemma ItemIsNext<N>(num: Numbers<N>, items: seq<Json<N>>, format: bool, tabs: nat, close: string, space: string)
    requires items != [] && Space(space) && Good(num, items[0])
    ensures Skip(space + (PrintItems(num, items, format, tabs) + close)) == PrintItems(num, items, format, tabs) + close
  {
    ItemsText(num, items, format, tabs, close);
    PrintStarts(num, items[0], format, tabs);
    SkipsSpace(space, PrintItems(num, items, format, tabs) + close);
  }

  lemma {:induction false} ItemsRoundTrip<N>(num: Numbers<N>, items: seq<Json<N>>, format: bool, tabs: nat, depth: nat,
                                             space: string, rest: string)
    requires items != [] && Space(space)
    requires forall i :: 0 <= i < |items| ==> Good(num, items[i])
    ensures ParseItems(num, space + (PrintItems(num, items, format, tabs) + ("]" + rest)), depth)
         == (if AllFit(items, depth) then Some(Items(items, rest)) else None)
    decreases items, 1
  {
    var close, v := "]" + rest, items[0];
    var inner := PrintItems(num, items, format, tabs) + close;
    var more := Gap(format) + (PrintItems(num, items[1..], format, tabs) + close);
    ItemsText(num, items, format, tabs, close);
    ItemIsNext(num, items, format, tabs, close, space);
    if |items| == 1 {
      ValueRoundTrip(num, v, format, tabs, depth, close);
      SkipsSpace("", close);
      assert "" + close == close;
      LastItem(num, space + inner, depth, v, close, rest, Fits(v, depth));
      HeadAndTail(items);
    } else {
      ValueRoundTrip(num, v, format, tabs, depth, "," + more);
      ItemsRoundTrip(num, items[1..], format, tabs, depth, Gap(format), rest);
      CommaStays(more);
      OneMoreItem(num, space + inner, depth, v, "," + more, more, items[1..], rest, Fits(v, depth),
                  AllFit(items[1..], depth));
      HeadAndTail(items);
    }
  }

  lemma {:induction false} ObjectRoundTrip<N>(num: Numbers<N>, members: seq<Member<N>>, format: bool, tabs: nat,
                                              depth: nat, rest: string)
    requires Good(num, Object(members))
    ensures ParseObject(num, Print(num, Object(members), format, tabs) + rest, depth)
         == (if Fits(Object(members), depth) then Some(Parsed(Object(members), rest)) else None)
    decreases members, 2
  {
    if members == [] {
      EmptyObjectRoundTrip(num, format, tabs, depth, rest);
    } else {
      var s, close := Print(num, Object(members), format, tabs) + rest, Indent(format, tabs) + ("}" + rest);
      var inner := Newline(format) + (PrintMembers(num, members, format, tabs + 1) + close);
      ObjectText(s, Newline(format), PrintMembers(num, members, format, tabs + 1), Indent(format, tabs), rest);
      MembersStart(num, members, format, tabs + 1, close, Newline(format));
      MembersRoundTrip(num, members, format, tabs + 1, depth + 1, Newline(format), tabs, rest);
      FullObject(num, s, inner, depth, members, rest, MembersFit(members, depth + 1));
    }
  }

  lemma EmptyObjectRoundTrip<N>(num: Numbers<N>, format: bool, tabs: nat, depth: nat, rest: string)
    ensures ParseObject(num, Print(num, Object([]), format, tabs) + rest, depth)
         == (if depth < NESTING_LIMIT then Some(Parsed(Object([]), rest)) else None)
  {
    var s, close := Print(num, Object([]), format, tabs) + rest, Indent(format, tabs) + ("}" + rest);
    ObjectText(s, Newline(format), "", Indent(format, tabs), rest);
    assert "" + close == close;
    MembersEnd(format, tabs, rest);
    EmptyObject(num, s, Newline(format) + close, depth, rest);
  }

  lemma EmptyObject<N>(num: Numbers<N>, s: string, inner: string, depth: nat, rest: string)
    requires s != [] && s[1..] == inner && Skip(inner) == "}" + rest
    ensures ParseObject(num, s, depth) == if depth < NESTING_LIMIT then Some(Parsed(Object([]), rest)) else None
  {
    assert ("}" + rest)[1..] == rest;
  }

  lemma FullObject<N>(num: Numbers<N>, s: string, inner: string, depth: nat, members: seq<Member<N>>, rest: string,
                      fit: bool)
    requires s != [] && s[1..] == inner && Skip(inner) != [] && Skip(inner)[0] == '\"'
    requires ParseMembers(num, inner, depth + 1) == if fit then Some(Members(members, rest)) else None
    ensures ParseObject(num, s, depth)
         == if depth < NESTING_LIMIT && fit then Some(Parsed(Object(members), rest)) else None
  {
  }

  lemma ObjectText(s: string, newline: string, inner: string, indent: string, rest: string)
    requires s == "{" + (newline + (inner + (indent + "}"))) + rest
    ensures s != [] && s[0] == '{' && s[1..] == newline + (inner + (indent + ("}" + rest)))
  {
  }

  lemma MembersStart<N>(num: Numbers<N>, members: seq<Member<N>>, format: bool, tabs: nat, close: string, space: string)
    requires members != [] && Space(space)
    ensures var t := Skip(space + (PrintMembers(num, members, format, tabs) + close)); t != [] && t[0] == '\"'
  {
    var key, after := members[0].key, AfterKey(num, members, format, tabs, close);
    MembersText(num, members, format, tabs, close);
    SpaceIsOne(space, Indent(format, tabs), Quoted(key) + after);
    KeyStarts(space + Indent(format, tabs), key, after);
  }

  lemma SpaceIsOne(a: string, b: string, s: string)
    ensures a + (b + s) == (a + b) + s
  {
  }

  lemma KeyStarts(space: string, key: string, behind: string)
    requires Space(space)
    ensures Skip(space + (Quoted(key) + behind)) == Quoted(key) + behind
  {
    SkipsSpace(space, Quoted(key) + behind);
  }

  lemma KeyIsRead(space: string, key: string, format: bool, behind: string)
    requires NulFree(key) && Space(space)
    ensures ParseKey(space + (Quoted(key) + (Colon(format) + behind))) == Some((key, Colon(format)[1..] + behind))
  {
    KeyStarts(space, key, Colon(format) + behind);
    StringIsRead(key, Colon(format) + behind);
    assert Skip(Colon(format) + behind) == Colon(format) + behind;
    assert (Colon(format) + behind)[1..] == Colon(format)[1..] + behind;
  }

  /** How the text of members goes on behind the first key, and behind the first value. */
  function AfterKey<N>(num: Numbers<N>, members: seq<Member<N>>, format: bool, tabs: nat, close: string): string
    requires members != []
  {
    Colon(format) + (Print(num, members[0].value, format, tabs) + AfterValue(num, members, format, tabs, close))
  }

  function AfterValue<N>(num: Numbers<N>, members: seq<Member<N>>, format: bool, tabs: nat, close: string): string
    requires members != []
  {
    if |members| == 1 then Newline(format) + close
    else "," + (Newline(format) + (PrintMembers(num, members[1..], format, tabs) + close))
  }

  lemma Regroup(a: string, b: string, c: string, d: string, e: string, f: string, x: string, close: string)
    ensures (a + (b + (c + (d + (e + (f + x)))))) + close == a + (b + (c + (d + (e + (f + (x + close))))))
  {
    SpaceIsOne(f, x, close);
    SpaceIsOne(e, f + x, close);
    SpaceIsOne(d, e + (f + x), close);
    SpaceIsOne(c, d + (e + (f + x)), close);
    SpaceIsOne(b, c + (d + (e + (f + x))), close);
    SpaceIsOne(a, b + (c + (d + (e + (f + x)))), close);
  }

  lemma MembersText<N>(num: Numbers<N>, members: seq<Member<N>>, format: bool, tabs: nat, close: string)
    requires members != []
    ensures PrintMembers(num, members, format, tabs) + close
         == Indent(format, tabs) + (Quoted(members[0].key) + AfterKey(num, members, format, tabs, close))
  {
    var comma, more := if |members| == 1 then "" else ",", PrintMembers(num, members[1..], format, tabs);
    Regroup(Indent(format, tabs), Quoted(members[0].key), Colon(format), Print(num, members[0].value, format, tabs),
            comma, Newline(format), more, close);
    if |members| == 1 {
      assert more + close == close && comma + (Newline(format) + close) == Newline(format) + close;
    }
  }

  lemma LastMember<N>(num: Numbers<N>, s: string, depth: nat, key: string, b: string, v: Json<N>, r: string,
                      rest: string, fits: bool)
    requires ParseKey(s) == Some((key, b))
    requires ParseValue(num, Skip(b), depth) == (if fits then Some(Parsed(v, r)) else None) && Skip(r) == "}" + rest
    ensures ParseMembers(num, s, depth) == (if fits then Some(Members([Member(key, v)], rest)) else None)
  {
    assert ("}" + rest)[1..] == rest;
  }

  lemma OneMoreMember<N>(num: Numbers<N>, s: string, depth: nat, key: string, b: string, v: Json<N>, r: string,
                         q: string, members: seq<Member<N>>, rest: string, fits: bool, allFit: bool)
    requires ParseKey(s) == Some((key, b))
    requires ParseValue(num, Skip(b), depth) == (if fits then Some(Parsed(v, r)) else None) && Skip(r) == "," + q
    requires ParseMembers(num, q, depth) == (if allFit then Some(Members(members, rest)) else None)
    ensures ParseMembers(num, s, depth)
         == (if fits && allFit then Some(Members([Member(key, v)] + members, rest)) else None)
  {
    assert ("," + q)[1..] == q;
  }

  lemma {:induction false} MembersRoundTrip<N>(num: Numbers<N>, members: seq<Member<N>>, format: bool, tabs: nat,
                                               depth: nat, space: string, outer: nat, rest: string)
    requires members != [] && Space(space)
    requires forall i :: 0 <= i < |members| ==> NulFree(members[i].key) && Good(num, members[i].value)
    ensures ParseMembers(num,
                         space + (PrintMembers(num, members, format, tabs) + (Indent(format, outer) + ("}" + rest))),
                         depth)
         == (if MembersFit(members, depth) then Some(Members(members, rest)) else None)
    decreases members, 1
  {
    var m, close := members[0], Indent(format, outer) + ("}" + rest);
    var after := AfterValue(num, members, format, tabs, close);
    var s := space + (PrintMembers(num, members, format, tabs) + close);
    var behind := Colon(format)[1..] + (Print(num, m.value, format, tabs) + after);
    FirstMember(num, members, format, tabs, depth, space, close);
    if |members| == 1 {
      MembersEnd(format, outer, rest);
      LastMember(num, s, depth, m.key, behind, m.value, after, rest, Fits(m.value, depth));
      HeadAndTail(members);
    } else {
      var more := Newline(format) + (PrintMembers(num, members[1..], format, tabs) + close);
      MembersRoundTrip(num, members[1..], format, tabs, depth, Newline(format), outer, rest);
      CommaStays(more);
      OneMoreMember(num, s, depth, m.key, behind, m.value, after, more, members[1..], rest,
                    Fits(m.value, depth), MembersFit(members[1..], depth));
      HeadAndTail(members);
    }
  }

  lemma CommaStays(s: string)
    ensures Skip("," + s) == "," + s
  {
  }

  lemma MembersEnd(format: bool, outer: nat, rest: string)
    ensures Skip(Newline(format) + (Indent(format, outer) + ("}" + rest))) == "}" + rest
  {
    SpaceIsOne(Newline(format), Indent(format, outer), "}" + rest);
    SkipsSpace(Newline(format) + Indent(format, outer), "}" + rest);
  }

  lemma {:induction false} FirstMember<N>(num: Numbers<N>, members: seq<Member<N>>, format: bool, tabs: nat,
                                          depth: nat, space: string, close: string)
    requires members != [] && Space(space) && NumberEnds(AfterValue(num, members, format, tabs, close))
    requires NulFree(members[0].key) && Good(num, members[0].value)
    ensures var after := AfterValue(num, members, format, tabs, close);
            var behind := Colon(format)[1..] + (Print(num, members[0].value, format, tabs) + after);
            && ParseKey(space + (PrintMembers(num, members, format, tabs) + close)) == Some((members[0].key, behind))
            && ParseValue(num, Skip(behind), depth)
               == (if Fits(members[0].value, depth) then Some(Parsed(members[0].value, after)) else None)
    decreases members, 0
  {
    var after := AfterValue(num, members, format, tabs, close);
    FirstKey(num, members, format, tabs, close, space);
    ValueIsNext(num, members[0].value, format, tabs, depth, after);
    ValueRoundTrip(num, members[0].value, format, tabs, depth, after);
  }

  lemma ValueIsNext<N>(num: Numbers<N>, v: Json<N>, format: bool, tabs: nat, depth: nat, after: string)
    requires Good(num, v)
    ensures Skip(Colon(format)[1..] + (Print(num, v, format, tabs) + after)) == Print(num, v, format, tabs) + after
  {
    PrintStarts(num, v, format, tabs);
    SkipsSpace(Colon(format)[1..], Print(num, v, format, tabs) + after);
  }

  lemma FirstKey<N>(num: Numbers<N>, members: seq<Member<N>>, format: bool, tabs: nat, close: string, space: string)
    requires members != [] && Space(space) && NulFree(members[0].key)
    ensures ParseKey(space + (PrintMembers(num, members, format, tabs) + close))
         == Some((members[0].key, Colon(format)[1..] + (Print(num, members[0].value, format, tabs)
                                                       + AfterValue(num, members, format, tabs, close))))
  {
    MembersText(num, members, format, tabs, close);
    var key, after := members[0].key, AfterKey(num, members, format, tabs, close);
    SpaceIsOne(space, Indent(format, tabs), Quoted(key) + after);
    KeyIsRead(space + Indent(format, tabs), key, format,
              Print(num, members[0].value, format, tabs) + AfterValue(num, members, format, tabs, close));
  }

  /** cJSON_Parse undoes cJSON_Print, formatted or not, exactly for the trees nested no deeper than the limit. */
  lemma RoundTrip<N>(num: Numbers<N>, v: Json<N>, format: bool, requireEnd: bool)
    requires Good(num, v)
    ensures Parse(num, Print(num, v, format, 0), requireEnd) == (if Fits(v, 0) then Some(v) else None)
  {
    var s := Print(num, v, format, 0);
    PrintStarts(num, v, format, 0);
    assert SkipBom(s) == s by {
      NoBom(num, v, format, 0);
    }
    assert Skip(s) == s && s + [] == s;
    ValueRoundTrip(num, v, format, 0, 0, []);
  }

  lemma NoBom<N>(num: Numbers<N>, v: Json<N>, format: bool, depth: nat)
    requires Good(num, v)
    ensures var t := Print(num, v, format, depth); t != [] && t[0] != 0xef as char
  {
  }
}
