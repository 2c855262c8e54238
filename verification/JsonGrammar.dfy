/** The texts that the parser of cJSON.c accepts, and the trees that it makes of them: written down as what stands in
    such a text, against the functions that follow the parser. */
module JsonGrammar {
  import opened Json
  import opened JsonMinify
  import opened JsonRoundTrip
  import opened JsonString
  import opened Options

  /** A value as it stands in a text: with its white space, its digits and its escapes. */
  datatype Doc<N> =
    | Word(value: Json<N>)
    | Numeral(text: string, n: N)
    | Quote(raw: string)
    | Vacant(list: bool, space: string)
    | List(items: seq<Spaced<N>>)
    | Record(fields: seq<Field<N>>)

  datatype Spaced<N> = Spaced(before: string, doc: Doc<N>, after: string)

  datatype Field<N> = Field(before: string, raw: string, colon: string, value: Spaced<N>)

  // ----- what is written

  /** Up to 63 characters that are read as a number to the last one. */
  ghost predicate NumeralWritten<N>(num: Numbers<N>, text: string, n: N) {
    && 0 < |text| <= 63 && (text[0] == '-' || '0' <= text[0] <= '9')
    && (forall k :: 0 <= k < |text| ==> text[k] in "0123456789+-eE.") && num.read(text) == Some((n, |text|))
  }

  /** What stands between two quotes: no quote but behind a backslash, and no escape that cannot be read. */
  predicate RawString(raw: string) {
    StringEnd(raw + ['\"']) == Some(|raw|) && Unescape(raw).Some?
  }

  ghost predicate Written<N>(num: Numbers<N>, d: Doc<N>, depth: nat)
    decreases d
  {
    match d
    case Word(v) => v.Null? || v.True? || v.False?
    case Numeral(text, n) => NumeralWritten(num, text, n)
    case Quote(raw) => RawString(raw)
    case Vacant(_, space) => depth < 1000 && Space(space)
    case List(items) =>
      depth < 1000 && items != [] && forall i :: 0 <= i < |items| ==> SpacedWritten(num, items[i], depth + 1)
    case Record(fields) =>
      depth < 1000 && fields != [] && forall i :: 0 <= i < |fields| ==> FieldWritten(num, fields[i], depth + 1)
  }

  ghost predicate SpacedWritten<N>(num: Numbers<N>, x: Spaced<N>, depth: nat)
    decreases x
  {
    Space(x.before) && Space(x.after) && Written(num, x.doc, depth)
  }

  ghost predicate FieldWritten<N>(num: Numbers<N>, f: Field<N>, depth: nat)
    decreases f
  {
    Space(f.before) && Space(f.colon) && RawString(f.raw) && SpacedWritten(num, f.value, depth)
  }

  // ----- how it is written

  function Text<N>(d: Doc<N>): string
    decreases d
  {
    match d
    case Word(v) => if v.Null? then "null" else if v.True? then "true" else "false"
    case Numeral(text, _) => text
    case Quote(raw) => "\"" + raw + "\""
    case Vacant(list, space) => if list then "[" + (space + "]") else "{" + (space + "}")
    case List(items) => "[" + (ItemsText(items) + "]")
    case Record(fields) => "{" + (FieldsText(fields) + "}")
  }

  function SpacedText<N>(x: Spaced<N>): string
    decreases x
  {
    x.before + (Text(x.doc) + x.after)
  }

  function ItemsText<N>(items: seq<Spaced<N>>): string
    decreases items
  {
    if items == [] then ""
    else if |items| == 1 then SpacedText(items[0])
    else SpacedText(items[0]) + ("," + ItemsText(items[1..]))
  }

  function FieldText<N>(f: Field<N>): string
    decreases f
  {
    f.before + ("\"" + f.raw + "\"" + (f.colon + (":" + SpacedText(f.value))))
  }

  function FieldsText<N>(fields: seq<Field<N>>): string
    decreases fields
  {
    if fields == [] then ""
    else if |fields| == 1 then FieldText(fields[0])
    else FieldText(fields[0]) + ("," + FieldsText(fields[1..]))
  }

  // ----- what it means

  function Content(raw: string): string {
    if RawString(raw) then CString(Unescape(raw).value) else []
  }

  function Tree<N>(d: Doc<N>): Json<N>
    decreases d
  {
    match d
    case Word(v) => v
    case Numeral(_, n) => Number(n)
    case Quote(raw) => String(Content(raw))
    case Vacant(list, _) => if list then Array([]) else Object([])
    case List(items) => Array(Trees(items))
    case Record(fields) => Object(Entries(fields))
  }

  function Trees<N>(items: seq<Spaced<N>>): seq<Json<N>>
    decreases items
  {
    if items == [] then [] else [Tree(items[0].doc)] + Trees(items[1..])
  }

  function Entries<N>(fields: seq<Field<N>>): seq<Member<N>>
    decreases fields
  {
    if fields == [] then [] else [Member(Content(fields[0].raw), Tree(fields[0].value.doc))] + Entries(fields[1..])
  }

  // ----- strings and numbers

  lemma NumberChars(c: char)
    ensures NumberChar(c) <==> c in "0123456789+-eE."
  {
    assert "0123456789+-eE."[..] == ['0', '1', '2', '3', '4', '5', '6', '7', '8', '9', '+', '-', 'e', 'E', '.'];
  }

  lemma RawParts(raw: string, rest: string)
    ensures var s := "\"" + raw + "\"" + rest;
            && s[0] == '\"' && s[1..] == raw + ['\"'] + rest && s[1..|raw| + 1] == raw && s[|raw| + 2..] == rest
            && s[1..][..|raw| + 1] == raw + ['\"']
  {
  }

  lemma QuoteIsRead(raw: string, rest: string)
    requires RawString(raw)
    ensures ParseString("\"" + raw + "\"" + rest) == Some((Content(raw), rest))
  {
    var s := "\"" + raw + "\"" + rest;
    RawParts(raw, rest);
    assert (raw + ['\"'])[..|raw| + 1] == raw + ['\"'];
    EndIsLocal(raw + ['\"'], s[1..], |raw|);
    StringOf(s, s[1..], raw, rest, |raw|);
  }

  lemma StringIsSpelled(s: string, text: string, rest: string) returns (raw: string)
    requires ParseString(s) == Some((text, rest))
    ensures RawString(raw) && Content(raw) == text && s == "\"" + raw + "\"" + rest
  {
    EndIsQuote(s[1..]);
    var e := StringEnd(s[1..]).value;
    raw := s[1..e + 1];
    assert s[1..][..e + 1] == raw + ['\"'] == (raw + ['\"'])[..e + 1];
    EndIsLocal(s[1..], raw + ['\"'], e);
    assert s == [s[0]] + raw + [s[e + 1]] + s[e + 2..];
  }

  lemma NumeralIsRead<N>(num: Numbers<N>, text: string, n: N, rest: string)
    requires NumeralWritten(num, text, n) && NumberEnds(rest)
    ensures ParseNumber(num, text + rest) == Some(Parsed(Number(n), rest))
  {
    forall k | 0 <= k < |text|
      ensures NumberChar(text[k])
    {
      NumberChars(text[k]);
    }
    RunOfNumber(text, rest, NUMBER_BUFFER);
    assert (text + rest)[|text|..] == rest;
  }

  lemma NumberIsSpelled<N>(num: Numbers<N>, s: string, n: N, r: string) returns (text: string)
    requires s != [] && (s[0] == '-' || '0' <= s[0] <= '9')
    requires ParseNumber(num, s) == Some(Parsed(Number(n), r)) && NumberEnds(r)
    ensures NumeralWritten(num, text, n) && s == text + r
  {
    text := Run(s, NUMBER_BUFFER);
    NumberRuns(num, s, n, r);
    forall k | 0 <= k < |text|
      ensures text[k] in "0123456789+-eE."
    {
      NumberChars(text[k]);
    }
  }

  lemma {:induction false} SkipSplits(s: string) returns (space: string)
    ensures Space(space) && s == space + Skip(s)
  {
    if s != [] && s[0] <= ' ' {
      var more := SkipSplits(s[1..]);
      space := [s[0]] + more;
    } else {
      space := "";
    }
  }

  // ----- what is written is read

  lemma TextStarts<N>(num: Numbers<N>, d: Doc<N>, depth: nat)
    requires Written(num, d, depth)
    ensures Text(d) != [] && Text(d)[0] > ' ' && Text(d)[0] !in {']', '}'} && Text(d)[0] != 0xef as char
  {
  }

  /** A value with white space around it, in front of punctuation. */
  lemma SpacedIsNext<N>(num: Numbers<N>, x: Spaced<N>, depth: nat, q: string)
    requires SpacedWritten(num, x, depth) && q != [] && q[0] in {',', ']', '}'}
    ensures Skip(SpacedText(x) + q) == Text(x.doc) + (x.after + q) && Skip(x.after + q) == q && NumberEnds(x.after + q)
    ensures Skip(SpacedText(x) + q) != [] && Skip(SpacedText(x) + q)[0] !in {']', '}'}
  {
    TextStarts(num, x.doc, depth);
    SkipsSpace(x.before, Text(x.doc) + (x.after + q));
    assert SpacedText(x) + q == x.before + (Text(x.doc) + (x.after + q));
    SkipsSpace(x.after, q);
  }

  lemma WordIsRead<N>(num: Numbers<N>, d: Doc<N>, depth: nat, rest: string)
    requires d.Word? && Written(num, d, depth)
    ensures ParseValue(num, Text(d) + rest, depth) == Some(Parsed(Tree(d), rest))
  {
    var s := Text(d) + rest;
    assert s[|Text(d)|..] == rest && s[0] == Text(d)[0];
    assert d.value.True? ==> StartsWith(s, "true");
    assert d.value.False? ==> StartsWith(s, "false");
    assert d.value.Null? ==> StartsWith(s, "null");
  }

  lemma VacantIsRead<N>(num: Numbers<N>, d: Doc<N>, depth: nat, rest: string)
    requires d.Vacant? && Written(num, d, depth)
    ensures ParseValue(num, Text(d) + rest, depth) == Some(Parsed(Tree(d), rest))
  {
    var s, space := Text(d) + rest, d.space;
    if d.list {
      assert s[1..] == space + ("]" + rest);
      SkipsSpace(space, "]" + rest);
      EmptyArray(num, s, depth, rest);
    } else {
      assert s[1..] == space + ("}" + rest);
      SkipsSpace(space, "}" + rest);
      JsonMinify.EmptyObject(num, s, depth, rest);
    }
  }

  lemma LeafIsRead<N>(num: Numbers<N>, d: Doc<N>, depth: nat, rest: string)
    requires Written(num, d, depth) && NumberEnds(rest) && !d.List? && !d.Record?
    ensures ParseValue(num, Text(d) + rest, depth) == Some(Parsed(Tree(d), rest))
  {
    match d
    case Word(_) => WordIsRead(num, d, depth, rest);
    case Numeral(_, _) => NumberIsRead(num, d, depth, rest);
    case Quote(_) => StringIsRead(num, d, depth, rest);
    case Vacant(_, _) => VacantIsRead(num, d, depth, rest);
  }

  lemma NumberIsRead<N>(num: Numbers<N>, d: Doc<N>, depth: nat, rest: string)
    requires d.Numeral? && Written(num, d, depth) && NumberEnds(rest)
    ensures ParseValue(num, Text(d) + rest, depth) == Some(Parsed(Tree(d), rest))
  {
    NumeralIsRead(num, d.text, d.n, rest);
    assert (d.text + rest)[0] == d.text[0];
    ValueIsNumber(num, d.text + rest, depth);
  }

  lemma ValueIsNumber<N>(num: Numbers<N>, s: string, depth: nat)
    requires s != [] && (s[0] == '-' || '0' <= s[0] <= '9')
    ensures ParseValue(num, s, depth) == ParseNumber(num, s)
  {
    NoWord(s, "null");
    NoWord(s, "false");
    NoWord(s, "true");
  }

  lemma NoWord(s: string, word: string)
    requires s != [] && word != [] && s[0] != word[0]
    ensures !StartsWith(s, word)
  {
  }

  lemma StringIsRead<N>(num: Numbers<N>, d: Doc<N>, depth: nat, rest: string)
    requires d.Quote? && Written(num, d, depth)
    ensures ParseValue(num, Text(d) + rest, depth) == Some(Parsed(Tree(d), rest))
  {
    QuoteIsRead(d.raw, rest);
    assert (Text(d) + rest)[0] == '\"';
  }

  lemma {:induction false} ValueIsRead<N>(num: Numbers<N>, d: Doc<N>, depth: nat, rest: string)
    requires Written(num, d, depth) && NumberEnds(rest)
    ensures ParseValue(num, Text(d) + rest, depth) == Some(Parsed(Tree(d), rest))
    decreases d, 1
  {
    if d.List? {
      ItemsAreRead(num, d.items, depth + 1, rest);
      ListOpens(num, ItemsText(d.items), Trees(d.items), depth, rest, Text(d) + rest);
    } else if d.Record? {
      FieldsAreRead(num, d.fields, depth + 1, rest);
      RecordOpens(num, FieldsText(d.fields), Entries(d.fields), depth, rest, Text(d) + rest);
    } else {
      LeafIsRead(num, d, depth, rest);
    }
  }

  lemma InnerText(open: char, inner: string, close: string, rest: string, s: string)
    requires s == [open] + (inner + close) + rest
    ensures s != [] && s[0] == open && s[1..] == inner + (close + rest)
  {
  }

  lemma ListOpens<N>(num: Numbers<N>, inner: string, items: seq<Json<N>>, depth: nat, rest: string, s: string)
    requires depth < 1000 && s == "[" + (inner + "]") + rest
    requires ParseItems(num, inner + ("]" + rest), depth + 1) == Some(Items(items, rest))
    requires var t := Skip(inner + ("]" + rest)); t != [] && t[0] != ']'
    ensures ParseValue(num, s, depth) == Some(Parsed(Array(items), rest))
  {
    InnerText('[', inner, "]", rest, s);
    OpensArray(num, s, depth, items, rest);
  }

  lemma RecordOpens<N>(num: Numbers<N>, inner: string, members: seq<Member<N>>, depth: nat, rest: string, s: string)
    requires depth < 1000 && s == "{" + (inner + "}") + rest
    requires ParseMembers(num, inner + ("}" + rest), depth + 1) == Some(Members(members, rest))
    requires var t := Skip(inner + ("}" + rest)); t != [] && t[0] != '}'
    ensures ParseValue(num, s, depth) == Some(Parsed(Object(members), rest))
  {
    InnerText('{', inner, "}", rest, s);
    OpensObject(num, s, depth, members, rest);
  }

  lemma CommaStands(a: string, b: string, q: string)
    ensures (a + ("," + b)) + q == a + ("," + (b + q))
  {
    SpaceIsOne(",", b, q);
    SpaceIsOne(a, "," + b, q);
  }

  lemma ItemsNext<N>(items: seq<Spaced<N>>, q: string)
    requires items != []
    ensures ItemsText(items) + q
         == SpacedText(items[0]) + (if |items| == 1 then q else "," + (ItemsText(items[1..]) + q))
  {
    ItemsUnfold(items);
    CommaStands(SpacedText(items[0]), ItemsText(items[1..]), q);
  }

  lemma ItemsUnfold<N>(items: seq<Spaced<N>>)
    requires items != []
    ensures ItemsText(items)
         == if |items| == 1 then SpacedText(items[0]) else SpacedText(items[0]) + ("," + ItemsText(items[1..]))
  {
  }

  lemma OneTree<N>(items: seq<Spaced<N>>)
    requires |items| == 1
    ensures Trees(items) == [Tree(items[0].doc)]
  {
    assert items[1..] == [];
  }

  lemma OneEntry<N>(fields: seq<Field<N>>)
    requires |fields| == 1
    ensures Entries(fields) == [Member(Content(fields[0].raw), Tree(fields[0].value.doc))]
  {
    assert fields[1..] == [];
  }

  lemma {:induction false} ItemsAreRead<N>(num: Numbers<N>, items: seq<Spaced<N>>, depth: nat, rest: string)
    requires items != [] && forall i :: 0 <= i < |items| ==> SpacedWritten(num, items[i], depth)
    ensures ParseItems(num, ItemsText(items) + ("]" + rest), depth) == Some(Items(Trees(items), rest))
    ensures var t := Skip(ItemsText(items) + ("]" + rest)); t != [] && t[0] != ']'
    decreases items, 0
  {
    var x, close, last := items[0], "]" + rest, |items| == 1;
    var q := if last then "" else ItemsText(items[1..]) + close;
    var behind := if last then close else "," + q;
    ItemsNext(items, close);
    SpacedIsNext(num, x, depth, behind);
    ValueIsRead(num, x.doc, depth, x.after + behind);
    var s := SpacedText(x) + behind;
    if last {
      LastItem(num, s, depth, Tree(x.doc), x.after + behind, rest, true);
      OneTree(items);
    } else {
      ItemsAreRead(num, items[1..], depth, rest);
      OneMoreItem(num, s, depth, Tree(x.doc), x.after + behind, q, Trees(items[1..]), rest, true, true);
    }
  }

  lemma FieldsNext<N>(fields: seq<Field<N>>, q: string)
    requires fields != []
    ensures FieldsText(fields) + q
         == FieldText(fields[0]) + (if |fields| == 1 then q else "," + (FieldsText(fields[1..]) + q))
  {
    FieldsUnfold(fields);
    CommaStands(FieldText(fields[0]), FieldsText(fields[1..]), q);
  }

  lemma FieldsUnfold<N>(fields: seq<Field<N>>)
    requires fields != []
    ensures FieldsText(fields)
         == if |fields| == 1 then FieldText(fields[0]) else FieldText(fields[0]) + ("," + FieldsText(fields[1..]))
  {
  }

  lemma FieldIsNext<N>(num: Numbers<N>, f: Field<N>, depth: nat, q: string)
    requires FieldWritten(num, f, depth) && q != [] && q[0] in {',', '}'}
    ensures ParseKey(FieldText(f) + q) == Some((Content(f.raw), SpacedText(f.value) + q))
    ensures Skip(FieldText(f) + q) != [] && Skip(FieldText(f) + q)[0] == '\"'
  {
    var behind := ":" + (SpacedText(f.value) + q);
    var quoted := "\"" + f.raw + "\"";
    FieldParts(f.before, quoted, f.colon, SpacedText(f.value), q);
    SkipsSpace(f.before, quoted + (f.colon + behind));
    QuoteIsRead(f.raw, f.colon + behind);
    SkipsSpace(f.colon, behind);
    assert behind[1..] == SpacedText(f.value) + q;
  }

  lemma FieldParts(a: string, b: string, c: string, d: string, q: string)
    ensures (a + (b + (c + (":" + d)))) + q == a + (b + (c + (":" + (d + q))))
  {
    SpaceIsOne(":", d, q);
    SpaceIsOne(c, ":" + d, q);
    SpaceIsOne(b, c + (":" + d), q);
    SpaceIsOne(a, b + (c + (":" + d)), q);
  }

  lemma FieldIsLast<N>(num: Numbers<N>, f: Field<N>, depth: nat, s: string, rest: string)
    requires FieldWritten(num, f, depth) && s == FieldText(f) + ("}" + rest)
    requires ParseValue(num, Text(f.value.doc) + (f.value.after + ("}" + rest)), depth)
          == Some(Parsed(Tree(f.value.doc), f.value.after + ("}" + rest)))
    ensures ParseMembers(num, s, depth) == Some(Members([Member(Content(f.raw), Tree(f.value.doc))], rest))
    ensures Skip(s) != [] && Skip(s)[0] != '}'
  {
    FieldIsNext(num, f, depth, "}" + rest);
    SpacedIsNext(num, f.value, depth, "}" + rest);
    LastMember(num, s, depth, Content(f.raw), SpacedText(f.value) + ("}" + rest), Tree(f.value.doc),
               f.value.after + ("}" + rest), rest, true);
  }

  lemma FieldIsFollowed<N>(num: Numbers<N>, f: Field<N>, depth: nat, s: string, q: string, members: seq<Member<N>>,
                           rest: string)
    requires FieldWritten(num, f, depth) && s == FieldText(f) + ("," + q)
    requires ParseValue(num, Text(f.value.doc) + (f.value.after + ("," + q)), depth)
          == Some(Parsed(Tree(f.value.doc), f.value.after + ("," + q)))
    requires ParseMembers(num, q, depth) == Some(Members(members, rest))
    ensures ParseMembers(num, s, depth) == Some(Members([Member(Content(f.raw), Tree(f.value.doc))] + members, rest))
    ensures Skip(s) != [] && Skip(s)[0] != '}'
  {
    FieldIsNext(num, f, depth, "," + q);
    SpacedIsNext(num, f.value, depth, "," + q);
    OneMoreMember(num, s, depth, Content(f.raw), SpacedText(f.value) + ("," + q), Tree(f.value.doc),
                  f.value.after + ("," + q), q, members, rest, true, true);
  }

  lemma {:induction false} FieldsAreRead<N>(num: Numbers<N>, fields: seq<Field<N>>, depth: nat, rest: string)
    requires fields != [] && forall i :: 0 <= i < |fields| ==> FieldWritten(num, fields[i], depth)
    ensures ParseMembers(num, FieldsText(fields) + ("}" + rest), depth) == Some(Members(Entries(fields), rest))
    ensures var t := Skip(FieldsText(fields) + ("}" + rest)); t != [] && t[0] != '}'
    decreases fields, 0
  {
    var f, close, last := fields[0], "}" + rest, |fields| == 1;
    var q := if last then "" else FieldsText(fields[1..]) + close;
    var behind := if last then close else "," + q;
    FieldsNext(fields, close);
    SpacedIsNext(num, f.value, depth, behind);
    ValueIsRead(num, f.value.doc, depth, f.value.after + behind);
    var s := FieldText(f) + behind;
    if last {
      FieldIsLast(num, f, depth, s, rest);
      OneEntry(fields);
    } else {
      FieldsAreRead(num, fields[1..], depth, rest);
      FieldIsFollowed(num, f, depth, s, q, Entries(fields[1..]), rest);
    }
  }

  // ----- what is read was written

  /** s is d and then r, and d means v. */
  ghost predicate Spells<N>(num: Numbers<N>, s: string, d: Doc<N>, depth: nat, v: Json<N>, r: string) {
    Written(num, d, depth) && s == Text(d) + r && Tree(d) == v
  }

  lemma WordIsSpelled<N>(num: Numbers<N>, s: string, depth: nat, v: Json<N>, r: string) returns (d: Doc<N>)
    requires ParseValue(num, s, depth) == Some(Parsed(v, r))
    requires StartsWith(s, "null") || StartsWith(s, "false") || StartsWith(s, "true")
    ensures Spells(num, s, d, depth, v, r)
  {
    d := Word(v);
    assert s == s[..|Text(d)|] + s[|Text(d)|..];
  }

  lemma {:induction false} ValueIsSpelled<N>(num: Numbers<N>, s: string, depth: nat, v: Json<N>, r: string)
    returns (d: Doc<N>)
    requires ParseValue(num, s, depth) == Some(Parsed(v, r)) && NumberEnds(r)
    ensures Spells(num, s, d, depth, v, r)
    decreases |s|, 3
  {
    if StartsWith(s, "null") || StartsWith(s, "false") || StartsWith(s, "true") {
      d := WordIsSpelled(num, s, depth, v, r);
    } else if s[0] == '\"' {
      var raw := StringIsSpelled(s, v.s, r);
      d := Quote(raw);
    } else if s[0] == '-' || '0' <= s[0] <= '9' {
      var text := NumberIsSpelled(num, s, v.n, r);
      d := Numeral(text, v.n);
    } else if s[0] == '[' {
      d := ArrayIsSpelled(num, s, depth, v, r);
    } else {
      d := ObjectIsSpelled(num, s, depth, v, r);
    }
  }

  lemma VacantIsSpelled(s: string, t: string) returns (space: string)
    requires s != [] && t == Skip(s[1..]) && t != []
    ensures Space(space) && s == [s[0]] + (space + [t[0]]) + t[1..]
  {
    space := SkipSplits(s[1..]);
    assert t == [t[0]] + t[1..] && s == [s[0]] + s[1..];
    assert [s[0]] + (space + ([t[0]] + t[1..])) == [s[0]] + (space + [t[0]]) + t[1..];
  }

  lemma OpenedBy(s: string, inner: string, close: string, r: string)
    requires s != [] && s[1..] == inner + (close + r)
    ensures s == [s[0]] + (inner + close) + r
  {
    assert s == [s[0]] + s[1..];
    assert [s[0]] + (inner + (close + r)) == [s[0]] + (inner + close) + r;
  }

  lemma {:induction false} ArrayIsSpelled<N>(num: Numbers<N>, s: string, depth: nat, v: Json<N>, r: string)
    returns (d: Doc<N>)
    requires s != [] && s[0] == '[' && ParseArray(num, s, depth) == Some(Parsed(v, r))
    ensures Spells(num, s, d, depth, v, r)
    decreases |s|, 2
  {
    var t := Skip(s[1..]);
    if t != [] && t[0] == ']' {
      var space := VacantIsSpelled(s, t);
      d := Vacant(true, space);
    } else {
      var items := ItemsAreSpelled(num, s[1..], depth + 1, v.items, r);
      d := List(items);
      OpenedBy(s, ItemsText(items), "]", r);
    }
  }

  lemma {:induction false} ObjectIsSpelled<N>(num: Numbers<N>, s: string, depth: nat, v: Json<N>, r: string)
    returns (d: Doc<N>)
    requires s != [] && s[0] == '{' && ParseObject(num, s, depth) == Some(Parsed(v, r))
    ensures Spells(num, s, d, depth, v, r)
    decreases |s|, 2
  {
    var t := Skip(s[1..]);
    if t != [] && t[0] == '}' {
      var space := VacantIsSpelled(s, t);
      d := Vacant(false, space);
    } else {
      var fields := FieldsAreSpelled(num, s[1..], depth + 1, v.members, r);
      d := Record(fields);
      OpenedBy(s, FieldsText(fields), "}", r);
    }
  }

  /** A value with white space around it; q is what stands behind. */
  lemma {:induction false} SpacedIsSpelled<N>(num: Numbers<N>, s: string, depth: nat, v: Json<N>, r1: string, q: string)
    returns (x: Spaced<N>)
    requires ParseValue(num, Skip(s), depth) == Some(Parsed(v, r1))
    requires q == Skip(r1) && q != [] && q[0] in {',', ']', '}'}
    ensures SpacedWritten(num, x, depth) && s == SpacedText(x) + q && Tree(x.doc) == v
    decreases |s|, 4
  {
    var before := SkipSplits(s);
    var after := SkipSplits(r1);
    assert NumberEnds(r1) by {
      assert after != [] ==> r1[0] == after[0];
      assert after == [] ==> r1 == q;
    }
    var d := ValueIsSpelled(num, Skip(s), depth, v, r1);
    x := Spaced(before, d, after);
    SpaceIsOne(Text(d), after, q);
    SpaceIsOne(before, Text(d) + after, q);
  }

  lemma {:induction false} ItemsAreSpelled<N>(num: Numbers<N>, s: string, depth: nat, items: seq<Json<N>>, r: string)
    returns (xs: seq<Spaced<N>>)
    requires ParseItems(num, s, depth) == Some(Items(items, r))
    ensures xs != [] && (forall i :: 0 <= i < |xs| ==> SpacedWritten(num, xs[i], depth)) && Trees(xs) == items
    ensures s == ItemsText(xs) + ("]" + r)
    decreases |s|, 5
  {
    var Parsed(v, r1) := ParseValue(num, Skip(s), depth).value;
    var q := Skip(r1);
    var x := SpacedIsSpelled(num, s, depth, v, r1, q);
    if q[0] == ',' {
      var Items(rest, _) := ParseItems(num, q[1..], depth).value;
      var more := ItemsAreSpelled(num, q[1..], depth, rest, r);
      xs := MoreItems(num, x, more, depth, s, q, "]" + r);
    } else {
      xs := [x];
      OneTree(xs);
      HeadAndTail(q);
    }
  }

  lemma MoreItems<N>(num: Numbers<N>, x: Spaced<N>, more: seq<Spaced<N>>, depth: nat, s: string, q: string,
                     close: string)
    returns (xs: seq<Spaced<N>>)
    requires SpacedWritten(num, x, depth) && more != []
    requires forall i :: 0 <= i < |more| ==> SpacedWritten(num, more[i], depth)
    requires s == SpacedText(x) + q && q != [] && q[0] == ',' && q[1..] == ItemsText(more) + close
    ensures xs != [] && (forall i :: 0 <= i < |xs| ==> SpacedWritten(num, xs[i], depth))
    ensures Trees(xs) == [Tree(x.doc)] + Trees(more) && s == ItemsText(xs) + close
  {
    xs := [x] + more;
    assert xs[0] == x && xs[1..] == more;
    HeadAndTail(q);
    ItemsNext(xs, close);
  }

  lemma KeyIsSpelled(s: string, key: string, behind: string)
    returns (before: string, raw: string, colon: string)
    requires ParseKey(s) == Some((key, behind))
    ensures Space(before) && Space(colon) && RawString(raw) && Content(raw) == key
    ensures s == before + ("\"" + raw + "\"" + (colon + (":" + behind)))
  {
    var (_, rest) := ParseString(Skip(s)).value;
    before := SkipSplits(s);
    raw := StringIsSpelled(Skip(s), key, rest);
    colon := SkipSplits(rest);
    HeadAndTail(Skip(rest));
  }

  lemma {:induction false} FieldIsSpelled<N>(num: Numbers<N>, s: string, depth: nat, key: string, b: string, v: Json<N>,
                                             r1: string, q: string)
    returns (f: Field<N>)
    requires ParseKey(s) == Some((key, b)) && ParseValue(num, Skip(b), depth) == Some(Parsed(v, r1))
    requires q == Skip(r1) && q != [] && q[0] in {',', '}'}
    ensures FieldWritten(num, f, depth) && s == FieldText(f) + q && Content(f.raw) == key && Tree(f.value.doc) == v
    decreases |s|, 4
  {
    var before, raw, colon := KeyIsSpelled(s, key, b);
    var x := SpacedIsSpelled(num, b, depth, v, r1, q);
    f := Field(before, raw, colon, x);
    FieldParts(before, "\"" + raw + "\"", colon, SpacedText(x), q);
  }

  lemma {:induction false} FieldsAreSpelled<N>(num: Numbers<N>, s: string, depth: nat, members: seq<Member<N>>,
                                               r: string)
    returns (fs: seq<Field<N>>)
    requires ParseMembers(num, s, depth) == Some(Members(members, r))
    ensures fs != [] && (forall i :: 0 <= i < |fs| ==> FieldWritten(num, fs[i], depth)) && Entries(fs) == members
    ensures s == FieldsText(fs) + ("}" + r)
    decreases |s|, 5
  {
    var (key, b) := ParseKey(s).value;
    var Parsed(v, r1) := ParseValue(num, Skip(b), depth).value;
    var q := Skip(r1);
    MembersAre(num, s, depth, key, b, v, r1, members, r);
    var f := FieldIsSpelled(num, s, depth, key, b, v, r1, q);
    if q[0] == ',' {
      var Members(rest, _) := ParseMembers(num, q[1..], depth).value;
      var more := FieldsAreSpelled(num, q[1..], depth, rest, r);
      fs := MoreFields(num, f, more, depth, s, q, "}" + r);
    } else {
      fs := [f];
      OneEntry(fs);
      HeadAndTail(q);
    }
  }

  lemma MoreFields<N>(num: Numbers<N>, f: Field<N>, more: seq<Field<N>>, depth: nat, s: string, q: string,
                      close: string)
    returns (fs: seq<Field<N>>)
    requires FieldWritten(num, f, depth) && more != []
    requires forall i :: 0 <= i < |more| ==> FieldWritten(num, more[i], depth)
    requires s == FieldText(f) + q && q != [] && q[0] == ',' && q[1..] == FieldsText(more) + close
    ensures fs != [] && (forall i :: 0 <= i < |fs| ==> FieldWritten(num, fs[i], depth))
    ensures Entries(fs) == [Member(Content(f.raw), Tree(f.value.doc))] + Entries(more) && s == FieldsText(fs) + close
  {
    fs := [f] + more;
    assert fs[0] == f && fs[1..] == more;
    HeadAndTail(q);
    FieldsNext(fs, close);
  }

  // ----- whole texts

  /** A text: a byte order mark or none, and a value. */
  datatype Whole<N> = Whole(marked: bool, value: Spaced<N>)

  function WholeText<N>(w: Whole<N>): string {
    (if w.marked then [0xef as char, 0xbb as char, 0xbf as char] else []) + SpacedText(w.value)
  }

  ghost predicate Stands<N>(num: Numbers<N>, s: string, w: Whole<N>, v: Json<N>) {
    SpacedWritten(num, w.value, 0) && s == WholeText(w) && Tree(w.value.doc) == v
  }

  lemma WholeIsRead<N>(num: Numbers<N>, s: string, w: Whole<N>, v: Json<N>)
    requires Stands(num, s, w, v)
    ensures Parse(num, s, true) == Some(v)
  {
    var x := w.value;
    TextStarts(num, x.doc, 0);
    assert SkipBom(s) == SpacedText(x) by {
      MarkIsSkipped(w.marked, SpacedText(x), s);
    }
    SkipsSpace(x.before, Text(x.doc) + x.after);
    SkipsSpace(x.after, []);
    assert x.after + [] == x.after;
    ValueIsRead(num, x.doc, 0, x.after);
  }

  lemma MarkIsSkipped(marked: bool, text: string, s: string)
    requires s == (if marked then [0xef as char, 0xbb as char, 0xbf as char] else []) + text
    requires text != [] && text[0] != 0xef as char
    ensures SkipBom(s) == text
  {
    if marked {
      assert s[3..] == text;
    } else {
      assert s[0] != BOM[0];
    }
  }

  lemma WholeIsSpelled<N>(num: Numbers<N>, s: string, v: Json<N>) returns (w: Whole<N>)
    requires Parse(num, s, true) == Some(v)
    ensures Stands(num, s, w, v)
  {
    var t := SkipBom(s);
    var Parsed(_, r) := ParseValue(num, Skip(t), 0).value;
    var d := ValueIsSpelled(num, Skip(t), 0, v, r);
    var x := AllIsSpelled(num, t, d, v, r);
    w := Whole(t != s, x);
    MarkStands(s, t);
  }

  /** A value and nothing but white space around it. */
  lemma AllIsSpelled<N>(num: Numbers<N>, t: string, d: Doc<N>, v: Json<N>, r: string) returns (x: Spaced<N>)
    requires Spells(num, Skip(t), d, 0, v, r) && Skip(r) == []
    ensures SpacedWritten(num, x, 0) && t == SpacedText(x) && Tree(x.doc) == v
  {
    var before := SkipSplits(t);
    var after := SkipSplits(r);
    assert after + [] == after;
    x := Spaced(before, d, after);
  }

  lemma MarkStands(s: string, t: string)
    requires t == SkipBom(s)
    ensures s == (if t != s then [0xef as char, 0xbb as char, 0xbf as char] else []) + t
  {
    if t == s {
      assert [] + t == t;
    } else {
      assert s == BOM + t;
    }
  }

  /** The parser accepts exactly the texts that are written so, and makes the trees of them that they mean. */
  lemma AcceptedExactly<N>(num: Numbers<N>, s: string, v: Json<N>)
    ensures Parse(num, s, true) == Some(v) <==> exists w :: Stands(num, s, w, v)
  {
    if Parse(num, s, true) == Some(v) {
      var w := WholeIsSpelled(num, s, v);
    } else if w :| Stands(num, s, w, v) {
      WholeIsRead(num, s, w, v);
      assert false;
    }
  }
}
