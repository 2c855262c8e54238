/** cJSON_Minify: what it leaves of a text, and that it keeps the meaning of every text the parser accepts. */
module JsonMinify {
  import opened Json
  import opened JsonRoundTrip
  import opened JsonString
  import opened Options

  predicate Blank(c: char) {
    c in {' ', '\t', '\r', '\n'}
  }

  function FromLineEnd(s: string): (r: string)
    ensures |r| <= |s|
  {
    if s == [] || s[0] == '\n' then s else FromLineEnd(s[1..])
  }

  /** What follows the first star and slash. */
  function BehindComment(s: string): (r: Option<string>)
    ensures r.Some? ==> |r.value| < |s|
  {
    if s == [] then None
    else if s[0] == '*' && |s| > 1 && s[1] == '/' then Some(s[2..])
    else BehindComment(s[1..])
  }

  /** What is left of a text, or None if Minify reads past its end: a comment or a string is not closed. */
  function Min(s: string): Option<string>
    decreases |s|
  {
    if s == [] then Some([])
    else if Blank(s[0]) then Min(s[1..])
    else if |s| > 1 && s[0] == '/' && s[1] == '/' then Min(FromLineEnd(s[1..]))
    else if |s| > 1 && s[0] == '/' && s[1] == '*' then
      match BehindComment(s)
      case None => None
      case Some(r) => Min(r)
    else if s[0] == '\"' then
      EndIsQuote(s[1..]);
      match StringEnd(s[1..])
      case None => None
      case Some(e) => Prepend(s[..e + 2], Min(s[e + 2..]))
    else Prepend([s[0]], Min(s[1..]))
  }

  predicate Minimal(s: string) {
    Min(s) == Some(s)
  }

  // ----- tokens go through as they are

  predicate Inert(c: char) {
    !Blank(c) && c != '/' && c != '\"'
  }

  lemma {:induction false} InertPasses(x: string, r: string)
    requires forall k :: 0 <= k < |x| ==> Inert(x[k])
    ensures Min(x + r) == Prepend(x, Min(r))
  {
    if x == [] {
      assert x + r == r;
      assert Min(r).Some? ==> [] + Min(r).value == Min(r).value;
    } else {
      assert (x + r)[1..] == x[1..] + r;
      InertPasses(x[1..], r);
      if Min(r).Some? {
        assert [x[0]] + (x[1..] + Min(r).value) == x + Min(r).value;
      }
    }
  }

  /** Where a string ends does not depend on what follows. */
  lemma {:induction false} EndIsLocal(a: string, b: string, e: nat)
    requires StringEnd(a) == Some(e) && e < |a| && e < |b| && a[..e + 1] == b[..e + 1]
    ensures StringEnd(b) == Some(e)
    decreases |a|
  {
    assert a[0] == b[0] by {
      assert a[0] == a[..e + 1][0] && b[0] == b[..e + 1][0];
    }
    if a[0] == '\"' {
    } else {
      var n := if a[0] == '\\' then 2 else 1;
      EndIsQuote(a[n..]);
      assert a[n..][..e - n + 1] == a[..e + 1][n..] && b[n..][..e - n + 1] == b[..e + 1][n..];
      EndIsLocal(a[n..], b[n..], e - n);
    }
  }

  lemma StringPasses(s: string, e: nat, r: string)
    requires s != [] && s[0] == '\"' && StringEnd(s[1..]) == Some(e) && e + 2 <= |s|
    ensures Min(s[..e + 2] + r) == Prepend(s[..e + 2], Min(r))
  {
    var t := s[..e + 2] + r;
    assert t[1..][..e + 1] == s[1..][..e + 1];
    EndIsLocal(s[1..], t[1..], e);
    assert t[..e + 2] == s[..e + 2] && t[e + 2..] == r;
  }

  /** s is a token x and then r; m is what is left of r. */
  lemma CopyInert(s: string, x: string, r: string, m: string)
    requires s == x + r && (forall k :: 0 <= k < |x| ==> Inert(x[k])) && Min(r) == Some(m) && Minimal(m)
    ensures Min(s) == Some(x + m) && Minimal(x + m)
  {
    InertPasses(x, r);
    InertPasses(x, m);
  }

  lemma CopyString(s: string, e: nat, r: string, m: string)
    requires s != [] && s[0] == '\"' && StringEnd(s[1..]) == Some(e) && e + 2 <= |s|
    requires r == s[e + 2..] && Min(r) == Some(m) && Minimal(m)
    ensures Min(s) == Some(s[..e + 2] + m) && Minimal(s[..e + 2] + m)
  {
    StringPasses(s, e, r);
    StringPasses(s, e, m);
    assert s == s[..e + 2] + r;
  }

  // ----- white space

  predicate NoSpaceFirst(s: string) {
    s == [] || s[0] > ' '
  }

  /** Skipping what is left gives what is left of the skipped. */
  lemma {:induction false} MinOfSkip(s: string, y: string)
    requires Min(Skip(s)) == Some(y) && NoSpaceFirst(y) && Minimal(y)
    ensures Min(s).Some? && Skip(Min(s).value) == y && Minimal(Min(s).value)
    ensures Min(s).value == y || (Min(s).value != [] && Min(s).value[0] <= ' ')
  {
    if s == [] || s[0] > ' ' {
    } else {
      MinOfSkip(s[1..], y);
      if !Blank(s[0]) {
        var m := Min(s[1..]).value;
        assert ([s[0]] + m)[1..] == m;
      }
    }
  }

  /** Punctuation in front. */
  lemma MinOfPunctuation(s: string, m: string)
    requires s != [] && Inert(s[0]) && s[0] > ' ' && Min(s[1..]) == Some(m) && Minimal(m)
    ensures Min(s) == Some([s[0]] + m) && Minimal([s[0]] + m) && ([s[0]] + m)[1..] == m
  {
    CopyInert(s, [s[0]], s[1..], m);
  }

  // ----- trees

  /** s parses to v with r left over; what Minify leaves of s parses to v with m left over. */
  ghost predicate Kept<N>(num: Numbers<N>, s: string, depth: nat, v: Json<N>, m: string) {
    && Min(s).Some? && Minimal(Min(s).value) && Min(s).value != [] && s != [] && Min(s).value[0] == s[0]
    && ParseValue(num, Min(s).value, depth) == Some(Parsed(v, m))
  }

  lemma NumberRuns<N>(num: Numbers<N>, s: string, n: N, r: string)
    requires ParseNumber(num, s) == Some(Parsed(Number(n), r)) && NumberEnds(r)
    ensures var x := Run(s, NUMBER_BUFFER);
            x != [] && s == x + r && num.read(x) == Some((n, |x|)) && forall k :: 0 <= k < |x| ==> NumberChar(x[k])
  {
    var x := Run(s, NUMBER_BUFFER);
    RunChars(s, NUMBER_BUFFER);
    var length := num.read(x).value.1;
    assert x == s[..|x|];
  }

  lemma {:induction false} RunChars(s: string, n: nat)
    ensures forall k :: 0 <= k < |Run(s, n)| ==> NumberChar(Run(s, n)[k])
  {
    if n > 0 && s != [] {
      RunChars(s[1..], n - 1);
    }
  }

  lemma NumberIsKept<N>(num: Numbers<N>, s: string, depth: nat, n: N, r: string, m: string)
    requires s != [] && (s[0] == '-' || '0' <= s[0] <= '9')
    requires ParseNumber(num, s) == Some(Parsed(Number(n), r)) && NumberEnds(r) && NumberEnds(m)
    requires Min(r) == Some(m) && Minimal(m)
    ensures Kept(num, s, depth, Number(n), m)
  {
    var x := Run(s, NUMBER_BUFFER);
    NumberRuns(num, s, n, r);
    CopyInert(s, x, r, m);
    RunOfNumber(x, m, NUMBER_BUFFER);
    assert (x + m)[|x|..] == m;
  }

  lemma StringIsKept(s: string, text: string, r: string, m: string)
    requires ParseString(s) == Some((text, r)) && Min(r) == Some(m) && Minimal(m)
    ensures Min(s).Some? && Minimal(Min(s).value) && Min(s).value != [] && Min(s).value[0] == '\"'
    ensures ParseString(Min(s).value) == Some((text, m))
  {
    EndIsQuote(s[1..]);
    var e := StringEnd(s[1..]).value;
    var x := s[..e + 2];
    CopyString(s, e, r, m);
    PrefixParts(s, e, m);
    EndIsLocal(s[1..], (x + m)[1..], e);
    StringOf(s, s[1..], s[1..e + 1], r, e);
    StringOf(x + m, (x + m)[1..], s[1..e + 1], m, e);
  }

  lemma PrefixParts(s: string, e: nat, m: string)
    requires e + 2 <= |s|
    ensures var t := s[..e + 2] + m;
            t[1..][..e + 1] == s[1..][..e + 1] && t[1..e + 1] == s[1..e + 1] && t[e + 2..] == m && t[0] == s[0]
  {
  }

  lemma WordIsKept(s: string, word: string, r: string, m: string)
    requires s == word + r && word in {"null", "false", "true"} && Min(r) == Some(m) && Minimal(m)
    ensures Min(s) == Some(word + m) && Minimal(word + m) && (word + m)[|word|..] == m
  {
    CopyInert(s, word, r, m);
  }

  lemma NameIsKept<N>(num: Numbers<N>, s: string, depth: nat, v: Json<N>, r: string, m: string)
    requires ParseValue(num, s, depth) == Some(Parsed(v, r)) && Min(r) == Some(m) && Minimal(m)
    requires StartsWith(s, "null") || StartsWith(s, "false") || StartsWith(s, "true")
    ensures Kept(num, s, depth, v, m)
  {
    var word := if StartsWith(s, "null") then "null" else if StartsWith(s, "false") then "false" else "true";
    assert s == word + r;
    WordIsKept(s, word, r, m);
  }

  lemma {:induction false} ValueIsKept<N>(num: Numbers<N>, s: string, depth: nat, v: Json<N>, r: string, m: string)
    requires ParseValue(num, s, depth) == Some(Parsed(v, r)) && Min(r) == Some(m) && Minimal(m)
    requires NumberEnds(r) && NumberEnds(m)
    ensures Kept(num, s, depth, v, m)
    decreases |s|, 3
  {
    if StartsWith(s, "null") || StartsWith(s, "false") || StartsWith(s, "true") {
      NameIsKept(num, s, depth, v, r, m);
    } else if s[0] == '\"' {
      StringIsKept(s, v.s, r, m);
    } else if s[0] == '-' || '0' <= s[0] <= '9' {
      NumberIsKept(num, s, depth, v.n, r, m);
    } else if s[0] == '[' {
      ArrayIsKept(num, s, depth, v, r, m);
    } else {
      ObjectIsKept(num, s, depth, v, r, m);
    }
  }

  /** Two brackets with nothing but white space between them. */
  lemma EmptyIsKept(s: string, t: string, m: string)
    requires s != [] && s[0] in {'[', '{'} && t == Skip(s[1..]) && t != [] && t[0] in {']', '}'}
    requires Min(t[1..]) == Some(m) && Minimal(m)
    ensures Min(s).Some? && Minimal(Min(s).value) && Min(s).value != [] && Min(s).value[0] == s[0]
    ensures Skip(Min(s).value[1..]) == [t[0]] + m && ([t[0]] + m)[1..] == m
  {
    MinOfPunctuation(t, m);
    MinOfSkip(s[1..], [t[0]] + m);
    MinOfPunctuation(s, Min(s[1..]).value);
  }

  lemma ValueIsArray<N>(num: Numbers<N>, s: string, depth: nat)
    requires s != [] && s[0] == '['
    ensures ParseValue(num, s, depth) == ParseArray(num, s, depth)
  {
  }

  lemma OpensArray<N>(num: Numbers<N>, s: string, depth: nat, items: seq<Json<N>>, r: string)
    requires s != [] && s[0] == '[' && depth < NESTING_LIMIT && Skip(s[1..]) != [] && Skip(s[1..])[0] != ']'
    requires ParseItems(num, s[1..], depth + 1) == Some(Items(items, r))
    ensures ParseValue(num, s, depth) == Some(Parsed(Array(items), r))
  {
    ValueIsArray(num, s, depth);
  }

  lemma EmptyArray<N>(num: Numbers<N>, s: string, depth: nat, r: string)
    requires s != [] && s[0] == '[' && depth < NESTING_LIMIT && Skip(s[1..]) == "]" + r
    ensures ParseValue(num, s, depth) == Some(Parsed(Array([]), r))
  {
    ValueIsArray(num, s, depth);
    assert ("]" + r)[1..] == r;
  }

  lemma {:induction false} ArrayIsKept<N>(num: Numbers<N>, s: string, depth: nat, v: Json<N>, r: string, m: string)
    requires s != [] && s[0] == '[' && ParseArray(num, s, depth) == Some(Parsed(v, r))
    requires Min(r) == Some(m) && Minimal(m)
    ensures Kept(num, s, depth, v, m)
    decreases |s|, 2
  {
    var t := Skip(s[1..]);
    if t != [] && t[0] == ']' {
      EmptyIsKept(s, t, m);
      EmptyArray(num, Min(s).value, depth, m);
    } else {
      ItemsAreKept(num, s[1..], depth + 1, v.items, r, m);
      var inner := Min(s[1..]).value;
      MinOfPunctuation(s, inner);
      OpensArray(num, [s[0]] + inner, depth, v.items, m);
    }
  }
  /** What follows a value: white space, and then y at a comma or a closing bracket. */
  lemma BehindValue(r: string, y: string)
    requires Min(Skip(r)) == Some(y) && Minimal(y)
    requires Skip(r) == [] || Skip(r)[0] in {',', ']', '}'}
    requires y == [] || y[0] in {',', ']', '}'}
    ensures Min(r).Some? && Minimal(Min(r).value) && Skip(Min(r).value) == y
    ensures NumberEnds(r) && NumberEnds(Min(r).value)
  {
    MinOfSkip(r, y);
    assert Skip(r) == r || r[0] <= ' ';
  }

  /** What precedes a value. */
  lemma BeforeValue<N>(num: Numbers<N>, s: string, depth: nat, v: Json<N>, m: string)
    requires Kept(num, Skip(s), depth, v, m)
    ensures Min(s).Some? && Minimal(Min(s).value) && ParseValue(num, Skip(Min(s).value), depth) == Some(Parsed(v, m))
    ensures Skip(Min(s).value)[0] == Skip(s)[0]
  {
    MinOfSkip(s, Min(Skip(s)).value);
  }

  lemma {:induction false} ItemsAreKept<N>(num: Numbers<N>, s: string, depth: nat, items: seq<Json<N>>, r: string,
                                           m: string)
    requires ParseItems(num, s, depth) == Some(Items(items, r)) && Min(r) == Some(m) && Minimal(m)
    ensures Min(s).Some? && Minimal(Min(s).value) && ParseItems(num, Min(s).value, depth) == Some(Items(items, m))
    ensures Skip(s) != [] && Skip(Min(s).value) != [] && Skip(Min(s).value)[0] == Skip(s)[0]
    decreases |s|, 4
  {
    var Parsed(v, r1) := ParseValue(num, Skip(s), depth).value;
    var q := Skip(r1);
    if q[0] == ',' {
      var Items(rest, _) := ParseItems(num, q[1..], depth).value;
      ItemsAreKept(num, q[1..], depth, rest, r, m);
      MinOfPunctuation(q, Min(q[1..]).value);
    } else {
      MinOfPunctuation(q, m);
    }
    BehindValue(r1, Min(q).value);
    ValueIsKept(num, Skip(s), depth, v, r1, Min(r1).value);
    BeforeValue(num, s, depth, v, Min(r1).value);
  }

  lemma ValueIsObject<N>(num: Numbers<N>, s: string, depth: nat)
    requires s != [] && s[0] == '{'
    ensures ParseValue(num, s, depth) == ParseObject(num, s, depth)
  {
  }

  lemma OpensObject<N>(num: Numbers<N>, s: string, depth: nat, members: seq<Member<N>>, r: string)
    requires s != [] && s[0] == '{' && depth < NESTING_LIMIT && Skip(s[1..]) != [] && Skip(s[1..])[0] != '}'
    requires ParseMembers(num, s[1..], depth + 1) == Some(Members(members, r))
    ensures ParseValue(num, s, depth) == Some(Parsed(Object(members), r))
  {
    ValueIsObject(num, s, depth);
  }

  lemma EmptyObject<N>(num: Numbers<N>, s: string, depth: nat, r: string)
    requires s != [] && s[0] == '{' && depth < NESTING_LIMIT && Skip(s[1..]) == "}" + r
    ensures ParseValue(num, s, depth) == Some(Parsed(Object([]), r))
  {
    ValueIsObject(num, s, depth);
    assert ("}" + r)[1..] == r;
  }

  lemma {:induction false} ObjectIsKept<N>(num: Numbers<N>, s: string, depth: nat, v: Json<N>, r: string, m: string)
    requires s != [] && s[0] == '{' && ParseObject(num, s, depth) == Some(Parsed(v, r))
    requires Min(r) == Some(m) && Minimal(m)
    ensures Kept(num, s, depth, v, m)
    decreases |s|, 2
  {
    var t := Skip(s[1..]);
    if t != [] && t[0] == '}' {
      EmptyIsKept(s, t, m);
      EmptyObject(num, Min(s).value, depth, m);
    } else {
      MembersAreKept(num, s[1..], depth + 1, v.members, r, m);
      var inner := Min(s[1..]).value;
      MinOfPunctuation(s, inner);
      OpensObject(num, [s[0]] + inner, depth, v.members, m);
    }
  }
  lemma KeyIsKept(s: string, key: string, b: string, m: string)
    requires ParseKey(s) == Some((key, b)) && Min(b) == Some(m) && Minimal(m)
    ensures Min(s).Some? && Minimal(Min(s).value) && ParseKey(Min(s).value) == Some((key, m))
    ensures Skip(Min(s).value) != [] && Skip(Min(s).value)[0] == '\"'
  {
    var (_, r1) := ParseString(Skip(s)).value;
    var q := Skip(r1);
    MinOfPunctuation(q, m);
    MinOfSkip(r1, Min(q).value);
    StringIsKept(Skip(s), key, r1, Min(r1).value);
    MinOfSkip(s, Min(Skip(s)).value);
  }

  /** The value of a member and what stands behind it. */
  lemma MemberIsKept<N>(num: Numbers<N>, s: string, key: string, b: string, depth: nat, v: Json<N>, y: string)
    requires ParseKey(s) == Some((key, b)) && Kept(num, Skip(b), depth, v, y)
    ensures Min(s).Some? && Minimal(Min(s).value)
    ensures ParseKey(Min(s).value).Some? && ParseKey(Min(s).value).value.0 == key
    ensures ParseValue(num, Skip(ParseKey(Min(s).value).value.1), depth) == Some(Parsed(v, y))
    ensures Skip(Min(s).value) != [] && Skip(Min(s).value)[0] == '\"'
  {
    BeforeValue(num, b, depth, v, y);
    KeyIsKept(s, key, b, Min(b).value);
  }

  /** From q on come the rest of the members, if first is the one before. */
  ghost predicate Remaining<N>(num: Numbers<N>, q: string, depth: nat, first: Member<N>, members: seq<Member<N>>,
                               r: string)
  {
    && q != []
    && if q[0] == ',' then
         var rest := ParseMembers(num, q[1..], depth);
         rest.Some? && members == [first] + rest.value.members && r == rest.value.rest
       else
         q[0] == '}' && members == [first] && r == q[1..]
  }

  lemma MembersAre<N>(num: Numbers<N>, s: string, depth: nat, key: string, b: string, v: Json<N>, r1: string,
                      members: seq<Member<N>>, r: string)
    requires ParseKey(s) == Some((key, b)) && ParseValue(num, Skip(b), depth) == Some(Parsed(v, r1))
    ensures ParseMembers(num, s, depth) == Some(Members(members, r))
       <==> Remaining(num, Skip(r1), depth, Member(key, v), members, r)
  {
  }

  lemma {:induction false} RemainingIsKept<N>(
    num: Numbers<N>, q: string, depth: nat, first: Member<N>, members: seq<Member<N>>, r: string, m: string)
    requires Remaining(num, q, depth, first, members, r) && Min(r) == Some(m) && Minimal(m)
    ensures Min(q).Some? && Minimal(Min(q).value) && Remaining(num, Min(q).value, depth, first, members, m)
    ensures Min(q).value[0] == q[0]
    decreases |q|, 4
  {
    if q[0] == ',' {
      var Members(rest, _) := ParseMembers(num, q[1..], depth).value;
      MembersAreKept(num, q[1..], depth, rest, r, m);
      MinOfPunctuation(q, Min(q[1..]).value);
    } else {
      MinOfPunctuation(q, m);
    }
  }

  lemma {:induction false} MembersAreKept<N>(
    num: Numbers<N>, s: string, depth: nat, members: seq<Member<N>>, r: string, m: string)
    requires ParseMembers(num, s, depth) == Some(Members(members, r)) && Min(r) == Some(m) && Minimal(m)
    ensures Min(s).Some? && Minimal(Min(s).value) && ParseMembers(num, Min(s).value, depth) == Some(Members(members, m))
    ensures Skip(Min(s).value) != [] && Skip(Min(s).value)[0] == '\"'
    decreases |s|, 4
  {
    var (key, b) := ParseKey(s).value;
    var Parsed(v, r1) := ParseValue(num, Skip(b), depth).value;
    MembersAre(num, s, depth, key, b, v, r1, members, r);
    RemainingIsKept(num, Skip(r1), depth, Member(key, v), members, r, m);
    FirstMemberIsKept(num, s, key, b, depth, v, r1, Min(Skip(r1)).value);
    var t := Min(s).value;
    MembersAre(num, t, depth, key, ParseKey(t).value.1, v, Min(r1).value, members, m);
  }

  /** y is what stands behind the value, minified. */
  lemma {:induction false} FirstMemberIsKept<N>(
    num: Numbers<N>, s: string, key: string, b: string, depth: nat, v: Json<N>, r1: string, y: string)
    requires ParseKey(s) == Some((key, b)) && ParseValue(num, Skip(b), depth) == Some(Parsed(v, r1))
    requires Skip(r1) != [] && Skip(r1)[0] in {',', '}'} && Min(Skip(r1)) == Some(y) && Minimal(y)
    requires y != [] && y[0] == Skip(r1)[0]
    ensures Min(s).Some? && Minimal(Min(s).value)
    ensures ParseKey(Min(s).value).Some? && ParseKey(Min(s).value).value.0 == key
    ensures Min(r1).Some?
            && ParseValue(num, Skip(ParseKey(Min(s).value).value.1), depth) == Some(Parsed(v, Min(r1).value))
    ensures Skip(Min(r1).value) == y
    ensures Skip(Min(s).value) != [] && Skip(Min(s).value)[0] == '\"'
    decreases |s|, 3
  {
    BehindValue(r1, y);
    ValueIsKept(num, Skip(b), depth, v, r1, Min(r1).value);
    MemberIsKept(num, s, key, b, depth, v, Min(r1).value);
  }

  // ----- whole texts

  lemma NoBomAppears<N>(num: Numbers<N>, s: string, m: string)
    requires ParseValue(num, Skip(s), 0).Some? && m != [] && (m[0] <= ' ' || m[0] == Skip(s)[0])
    ensures !(BOM <= m)
  {
    assert Skip(s)[0] != 0xef as char;
  }

  /** A text that is accepted as a whole is minified without reading past its end, to a text that is accepted
      with the same tree and that another Minify leaves as it is. */
  lemma MinifyKeepsMeaning<N>(num: Numbers<N>, s: string)
    requires Parse(num, s, true).Some?
    ensures Min(s).Some? && Minimal(Min(s).value)
    ensures Parse(num, Min(s).value, true) == Parse(num, s, true)
  {
    var t := SkipBom(s);
    var Parsed(v, r) := ParseValue(num, Skip(t), 0).value;
    BehindValue(r, []);
    ValueIsKept(num, Skip(t), 0, v, r, Min(r).value);
    BeforeValue(num, t, 0, v, Min(r).value);
    MinOfSkip(t, Min(Skip(t)).value);
    var m := Min(t).value;
    if t == s {
      NoBomAppears(num, s, m);
    } else {
      assert s == BOM + t;
      CopyInert(s, BOM, t, m);
      assert (BOM + m)[3..] == m;
    }
  }
}
