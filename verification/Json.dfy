/** JSON text as cJSON.c parses and prints it, seen as functions of the text. */
module Json {
  import opened JsonString
  import opened Options

  datatype Member<N> = Member(key: string, value: Json<N>)

  datatype Json<N> =
    | Null | False | True | Number(n: N) | String(s: string)
    | Array(items: seq<Json<N>>) | Object(members: seq<Member<N>>)

  /** How numbers are written and read: read gets the number characters at hand and says what it made of how
      many of them (sprintf and strtod). */
  datatype Numbers<!N> = Numbers(show: N -> string, read: string -> Option<(N, nat)>)

  const NESTING_LIMIT := 1000
  const NUMBER_BUFFER := 63

  // ----- parsing

  function Skip(s: string): (r: string)
    ensures |r| <= |s| && (r != [] ==> r[0] > ' ')
  {
    if s != [] && s[0] <= ' ' then Skip(s[1..]) else s
  }

  predicate NumberChar(c: char) {
    '0' <= c <= '9' || c == '+' || c == '-' || c == 'e' || c == 'E' || c == '.'
  }

  function Run(s: string, n: nat): (r: string)
    ensures r <= s && |r| <= n
  {
    if n == 0 || s == [] || !NumberChar(s[0]) then [] else [s[0]] + Run(s[1..], n - 1)
  }

  datatype Parsed<N> = Parsed(value: Json<N>, rest: string)
  datatype Members<N> = Members(members: seq<Member<N>>, rest: string)
  datatype Items<N> = Items(items: seq<Json<N>>, rest: string)

  function ParseNumber<N>(num: Numbers<N>, s: string): Option<Parsed<N>> {
    var run := Run(s, NUMBER_BUFFER);
    match num.read(run)
    case None => None
    case Some((n, length)) => if 0 < length <= |run| then Some(Parsed(Number(n), s[length..])) else None
  }

  /** parse_string, with the quote it starts at. */
  function ParseString(s: string): (r: Option<(string, string)>)
    ensures r.Some? ==> |r.value.1| < |s|
  {
    if s == [] || s[0] != '\"' then None else
    EndIsQuote(s[1..]);
    match StringEnd(s[1..])
    case None => None
    case Some(end) =>
      match Unescape(s[1..end + 1])
      case None => None
      case Some(out) => Some((CString(out), s[end + 2..]))
  }

  /** ParseString by its parts: the text behind the opening quote, the inside, and what is left. */
  lemma StringOf(s: string, inner: string, body: string, rest: string, end: nat)
    requires s != [] && s[0] == '\"' && inner == s[1..] && StringEnd(inner) == Some(end) && end + 2 <= |s|
    requires body == s[1..end + 1] && rest == s[end + 2..]
    ensures ParseString(s) == match Unescape(body)
                              case Some(out) => Some((CString(out), rest))
                              case None => None
  {
  }

  predicate StartsWith(s: string, word: string) {
    word <= s
  }

  function ParseValue<N>(num: Numbers<N>, s: string, depth: nat): (r: Option<Parsed<N>>)
    ensures r.Some? ==> |r.value.rest| < |s|
    decreases |s|, 3
  {
    if StartsWith(s, "null") then Some(Parsed(Null, s[4..]))
    else if StartsWith(s, "false") then Some(Parsed(False, s[5..]))
    else if StartsWith(s, "true") then Some(Parsed(True, s[4..]))
    else if s == [] then None
    else if s[0] == '\"' then
      match ParseString(s)
      case None => None
      case Some((text, rest)) => Some(Parsed(String(text), rest))
    else if s[0] == '-' || '0' <= s[0] <= '9' then ParseNumber(num, s)
    else if s[0] == '[' then ParseArray(num, s, depth)
    else if s[0] == '{' then ParseObject(num, s, depth)
    else None
  }

  function ParseArray<N>(num: Numbers<N>, s: string, depth: nat): (r: Option<Parsed<N>>)
    requires s != []
    ensures r.Some? ==> |r.value.rest| < |s|
    decreases |s|, 2
  {
    if depth >= NESTING_LIMIT then None else
    var t := Skip(s[1..]);
    if t != [] && t[0] == ']' then Some(Parsed(Array([]), t[1..])) else
    match ParseItems(num, s[1..], depth + 1)
    case None => None
    case Some(Items(items, rest)) => Some(Parsed(Array(items), rest))
  }

  /** The elements from here to the closing bracket. */
  function ParseItems<N>(num: Numbers<N>, s: string, depth: nat): (r: Option<Items<N>>)
    ensures r.Some? ==> |r.value.rest| < |s|
    decreases |s|, 4
  {
    match ParseValue(num, Skip(s), depth)
    case None => None
    case Some(Parsed(v, rest)) =>
      var t := Skip(rest);
      if t == [] then None
      else if t[0] == ',' then
        match ParseItems(num, t[1..], depth)
        case None => None
        case Some(Items(items, last)) => Some(Items([v] + items, last))
      else if t[0] == ']' then Some(Items([v], t[1..]))
      else None
  }

  function ParseObject<N>(num: Numbers<N>, s: string, depth: nat): (r: Option<Parsed<N>>)
    requires s != []
    ensures r.Some? ==> |r.value.rest| < |s|
    decreases |s|, 2
  {
    if depth >= NESTING_LIMIT then None else
    var t := Skip(s[1..]);
    if t != [] && t[0] == '}' then Some(Parsed(Object([]), t[1..])) else
    match ParseMembers(num, s[1..], depth + 1)
    case None => None
    case Some(Members(members, rest)) => Some(Parsed(Object(members), rest))
  }

  /** The name of a member and what follows its colon. */
  function ParseKey(s: string): (r: Option<(string, string)>)
    ensures r.Some? ==> |r.value.1| < |s|
  {
    match ParseString(Skip(s))
    case None => None
    case Some((key, rest)) =>
      var t := Skip(rest);
      if t != [] && t[0] == ':' then Some((key, t[1..])) else None
  }

  /** The members from here to the closing brace. */
  function ParseMembers<N>(num: Numbers<N>, s: string, depth: nat): (r: Option<Members<N>>)
    ensures r.Some? ==> |r.value.rest| < |s|
    decreases |s|, 4
  {
    match ParseKey(s)
    case None => None
    case Some((key, behind)) =>
      match ParseValue(num, Skip(behind), depth)
      case None => None
      case Some(Parsed(v, rest)) =>
        var t := Skip(rest);
        if t == [] then None
        else if t[0] == ',' then
          match ParseMembers(num, t[1..], depth)
          case None => None
          case Some(Members(members, last)) => Some(Members([Member(key, v)] + members, last))
        else if t[0] == '}' then Some(Members([Member(key, v)], t[1..]))
        else None
  }

  const BOM: string := [0xef as char, 0xbb as char, 0xbf as char]

  function SkipBom(s: string): string {
    if |s| >= 4 && BOM <= s then s[3..] else s
  }

  /** cJSON_ParseWithOpts */
  function Parse<N>(num: Numbers<N>, s: string, requireEnd: bool): Option<Json<N>> {
    match ParseValue(num, Skip(SkipBom(s)), 0)
    case None => None
    case Some(Parsed(v, rest)) => if requireEnd && Skip(rest) != [] then None else Some(v)
  }

  // ----- printing

  function Quoted(s: string): string {
    ['\"'] + Escape(s) + ['\"']
  }

  function Tabs(n: nat): string {
    seq(n, _ => '\t')
  }

  // What a formatted print adds.

  function Gap(format: bool): string {
    if format then " " else ""
  }

  function Newline(format: bool): string {
    if format then "\n" else ""
  }

  function Colon(format: bool): string {
    if format then ":\t" else ":"
  }

  function Indent(format: bool, depth: nat): string {
    if format then Tabs(depth) else ""
  }

  /** print_value at the given depth. */
  function Print<N>(num: Numbers<N>, v: Json<N>, format: bool, depth: nat): string
    decreases v
  {
    match v
    case Null => "null"
    case False => "false"
    case True => "true"
    case Number(n) => num.show(n)
    case String(s) => Quoted(s)
    case Array(items) => "[" + (PrintItems(num, items, format, depth + 1) + "]")
    case Object(members) =>
      "{" + (Newline(format) + (PrintMembers(num, members, format, depth + 1) + (Indent(format, depth) + "}")))
  }

  function PrintItems<N>(num: Numbers<N>, items: seq<Json<N>>, format: bool, depth: nat): string
    decreases items
  {
    if items == [] then "" else
    Print(num, items[0], format, depth)
    + ((if |items| == 1 then "" else "," + Gap(format))
    + PrintItems(num, items[1..], format, depth))
  }

  function PrintMembers<N>(num: Numbers<N>, members: seq<Member<N>>, format: bool, depth: nat): string
    decreases members
  {
    if members == [] then "" else
    Indent(format, depth) + (Quoted(members[0].key) + (Colon(format)
    + (Print(num, members[0].value, format, depth)
    + ((if |members| == 1 then "" else ",") + (Newline(format)
    + PrintMembers(num, members[1..], format, depth))))))
  }
}
