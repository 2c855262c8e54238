/** cJSON_Minify as it works: in place, reading ahead of where it writes. */
module JsonMinifier {
  import opened JsonMinify
  import opened JsonString
  import opened Options

  /** A C string of n characters. */
  ghost predicate IsText(json: array<char>, n: nat)
    reads json
  {
    n < json.Length && json[n] == NUL && NulFree(json[..n])
  }

  /** To the end of the line. */
  method SkipLine(json: array<char>, ghost n: nat, p: nat) returns (q: nat)
    requires n < json.Length && p <= n && json[n] == NUL && forall k :: p <= k < n ==> json[k] != NUL
    ensures p <= q <= n && json[q..n] == FromLineEnd(json[p..n])
  {
    q := p;
    while json[q] != NUL && json[q] != '\n'
      decreases n - q
      invariant p <= q <= n && FromLineEnd(json[p..n]) == FromLineEnd(json[q..n])
    {
      assert json[q..n][1..] == json[q + 1..n];
      q := q + 1;
    }
  }

  /** Behind the star and slash. */
  method SkipComment(json: array<char>, ghost n: nat, p: nat) returns (q: nat)
    requires n < json.Length && p <= n && json[n] == NUL && forall k :: p <= k < n ==> json[k] != NUL
    requires BehindComment(json[p..n]).Some?
    ensures p < q <= n && json[q..n] == BehindComment(json[p..n]).value
  {
    q := p;
    while json[q] != NUL && !(json[q] == '*' && json[q + 1] == '/')
      decreases n - q
      invariant p <= q <= n && BehindComment(json[p..n]) == BehindComment(json[q..n])
    {
      assert json[q..n][1..] == json[q + 1..n];
      q := q + 1;
    }
    assert q < n;
    q := q + 2;
    assert json[q..n] == json[q - 2..n][2..];
  }

  /** The text read so far is done may have shrunk to what stands before into; from q on it is untouched. */
  ghost predicate State(json: array<char>, text: string, done: string, into: nat, q: nat)
    reads json
  {
    into <= q <= |text| == json.Length && json[..into] == done && json[q..] == text[q..]
  }

  method CopyOne(json: array<char>, ghost text: string, ghost done: string, i: nat, p: nat) returns (into: nat, q: nat)
    requires State(json, text, done, i, p) && p < json.Length
    modifies json
    ensures into == i + 1 && q == p + 1 && State(json, text, done + [text[p]], into, q)
  {
    assert json[p] == json[p..][0] == text[p];
    json[i] := json[p];
    into, q := i + 1, p + 1;
    assert json[..into] == done + [text[p]];
    assert json[q..] == text[p..][1..] == text[q..];
  }

  lemma MoreDone(text: string, done: string, p: nat, q: nat, r: nat)
    requires p <= q <= r <= |text|
    ensures (done + text[p..q]) + text[q..r] == done + text[p..r]
  {
  }

  /** A string literal is copied to the place it now has. */
  method CopyString(json: array<char>, ghost n: nat, ghost text: string, ghost done: string, i: nat, p: nat)
    returns (into: nat, q: nat)
    requires State(json, text, done, i, p) && p < n < |text|
    requires text[n] == NUL && forall k :: p <= k < n ==> text[k] != NUL
    requires text[p] == '\"' && StringEnd(text[p + 1..n]).Some?
    modifies json
    ensures q == p + StringEnd(text[p + 1..n]).value + 2 <= n
    ensures State(json, text, done + text[p..q], into, q)
  {
    ghost var left := StringEnd(text[p + 1..n]).value;
    ghost var copied, first := done + text[p..p + 1], p + 1;
    EndIsQuote(text[p + 1..n]);
    OneCharacter(text, p);
    into, q := CopyOne(json, text, done, i, p);
    assert json[q] == json[q..][0] == text[q..][0];
    while json[q] != NUL && json[q] != '\"'
      invariant p < q && q + left == first + StringEnd(text[p + 1..n]).value < n
      invariant StringEnd(text[q..n]) == Some(left) && copied == done + text[p..q]
      invariant State(json, text, copied, into, q) && json[q] == text[q]
      decreases n - q
    {
      ghost var from := q;
      into, q, left := CopyCharacter(json, n, text, copied, into, q, left);
      MoreDone(text, done, p, from, q);
      copied := copied + text[from..q];
    }
    QuoteIsEnd(text, q, n, left);
    OneCharacter(text, q);
    MoreDone(text, done, p, q, q + 1);
    into, q := CopyOne(json, text, copied, into, q);
  }

  /** A character inside a string, with the one it escapes. */
  method CopyCharacter(json: array<char>, ghost n: nat, ghost text: string, ghost done: string, i: nat, p: nat,
                       ghost left: nat)
    returns (into: nat, q: nat, ghost remains: nat)
    requires State(json, text, done, i, p) && p < n < |text| && json[p] == text[p] && json[p] != '\"'
    requires StringEnd(text[p..n]) == Some(left) && p + left < n
    modifies json
    ensures p < q < n && q + remains == p + left && StringEnd(text[q..n]) == Some(remains)
    ensures State(json, text, done + text[p..q], into, q) && json[q] == text[q]
  {
    EndStep(text, p, n, left);
    OneCharacter(text, p);
    var escape := json[p] == '\\';
    into, q := CopyOne(json, text, done, i, p);
    remains := left - 1;
    if escape {
      OneCharacter(text, q);
      MoreDone(text, done, p, q, q + 1);
      into, q := CopyOne(json, text, done + text[p..q], into, q);
      remains := remains - 1;
    }
    assert json[q] == json[q..][0] == text[q..][0];
  }

  lemma OneCharacter(text: string, p: nat)
    requires p < |text|
    ensures text[p..p + 1] == [text[p]]
  {
  }

  lemma EndStep(text: string, q: nat, n: nat, left: nat)
    requires q < n < |text| && StringEnd(text[q..n]) == Some(left) && text[q] != '\"'
    ensures var d := if text[q] == '\\' then 2 else 1;
            d <= left && q + d <= n && StringEnd(text[q + d..n]) == Some(left - d)
  {
    var d := if text[q] == '\\' then 2 else 1;
    assert text[q..n][d..] == text[q + d..n];
    EndIsQuote(text[q + d..n]);
  }

  lemma QuoteIsEnd(text: string, q: nat, n: nat, left: nat)
    requires q < n < |text| && StringEnd(text[q..n]) == Some(left) && (text[q] == '\"' || text[q] == NUL)
    requires forall k :: q <= k < n ==> text[k] != NUL
    ensures left == 0
  {
  }

  /** White space and comments. */
  method SkipTurn(json: array<char>, ghost n: nat, ghost text: string, p: nat) returns (skips: bool, q: nat)
    requires p < n < |text| == json.Length && json[p..] == text[p..] && text[n] == NUL && Min(text[p..n]).Some?
    requires forall k :: p <= k < n ==> text[k] != NUL
    ensures skips ==> p < q <= n && Min(text[p..n]) == Min(text[q..n])
    ensures !skips ==> q == p && (if text[p] == '\"' then StringEnd(text[p + 1..n]).Some?
                                  else Min(text[p..n]) == Prepend([text[p]], Min(text[p + 1..n])))
  {
    skips, q := true, p;
    assert forall k :: p <= k < |text| ==> json[k] == json[p..][k - p] == text[p..][k - p];
    NextCharacters(text, p, n);
    assert json[p..n] == text[p..n] && json[p + 1..n] == text[p + 1..n];
    if Blank(json[p]) {
      q := p + 1;
    } else if json[p] == '/' && json[p + 1] == '/' {
      q := SkipLine(json, n, p + 1);
      assert json[q..n] == text[q..n];
    } else if json[p] == '/' && json[p + 1] == '*' {
      q := SkipComment(json, n, p);
      assert json[q..n] == text[q..n];
    } else {
      skips := false;
    }
  }

  /** One turn of the main loop. */
  method Turn(json: array<char>, ghost n: nat, ghost text: string, ghost done: string, i: nat, p: nat)
    returns (into: nat, q: nat, ghost more: string)
    requires State(json, text, done, i, p) && p < n < |text| && json[p] == text[p]
    requires text[n] == NUL && (forall k :: p <= k < n ==> text[k] != NUL) && Min(text[p..n]).Some?
    modifies json
    ensures p < q <= n && State(json, text, done + more, into, q)
    ensures Left(text, done + more, q, n) == Left(text, done, p, n)
  {
    into, more := i, "";
    var skips;
    skips, q := SkipTurn(json, n, text, p);
    if skips {
      Forward(json, text, done, i, p, q);
      NothingMore(text, done, p, q, n);
    } else if json[p] == '\"' {
      into, q := CopyString(json, n, text, done, i, p);
      more := text[p..q];
      CopiedString(text, done, p, q, n);
    } else {
      into, q := CopyOne(json, text, done, i, p);
      more := [text[p]];
      Copied(text, done, more, p, q, n);
    }
  }

  lemma NothingMore(text: string, done: string, p: nat, q: nat, n: nat)
    requires p <= q <= n < |text| && Min(text[p..n]) == Min(text[q..n])
    ensures done + "" == done && Left(text, done + "", q, n) == Left(text, done, p, n)
  {
    assert done + "" == done;
  }

  lemma Forward(json: array<char>, text: string, done: string, i: nat, p: nat, q: nat)
    requires State(json, text, done, i, p) && p <= q <= |text|
    ensures State(json, text, done, i, q)
  {
    assert json[q..] == json[p..][q - p..];
  }

  /** cJSON_Minify, on a text it does not run off (every text the parser accepts is one, see MinifyKeepsMeaning). */
  method Minify(json: array<char>, ghost n: nat)
    requires IsText(json, n) && Min(json[..n]).Some?
    modifies json
    ensures |Min(old(json[..n])).value| <= n
    ensures json[..|Min(old(json[..n])).value|] == Min(old(json[..n])).value
    ensures json[|Min(old(json[..n])).value|] == NUL && json[n..] == old(json[n..])
  {
    ghost var text, done := json[..], "";
    var into, q := 0, 0;
    assert text[0..n] == old(json[..n]) && forall k :: 0 <= k < n ==> text[k] == old(json[..n])[k];
    Nothing(text, n);
    while json[q] != NUL
      invariant 0 <= into <= q <= n && State(json, text, done, into, q) && json[q] == text[q]
      invariant Left(text, done, q, n) == Min(old(json[..n]))
      decreases n - q
    {
      ghost var more;
      into, q, more := Turn(json, n, text, done, into, q);
      done := done + more;
      assert json[q] == json[q..][0] == text[q..][0];
    }
    json[into] := NUL;
    assert text[n..n] == [];
    assert done + [] == done;
  }

  /** All that will be left. */
  ghost function Left(text: string, done: string, q: nat, n: nat): Option<string>
    requires q <= n < |text|
  {
    Prepend(done, Min(text[q..n]))
  }

  lemma Nothing(text: string, n: nat)
    requires n < |text|
    ensures Left(text, "", 0, n) == Min(text[0..n])
  {
    if Min(text[0..n]).Some? {
      assert "" + Min(text[0..n]).value == Min(text[0..n]).value;
    }
  }

  lemma NextCharacters(text: string, q: nat, n: nat)
    requires q < n < |text| && text[n] == NUL
    ensures text[q..n][0] == text[q] && text[q..n][1..] == text[q + 1..n]
    ensures text[q + 1] != NUL ==> q + 1 < n && text[q..n][1] == text[q + 1]
  {
  }

  lemma Copied(text: string, done: string, x: string, p: nat, q: nat, n: nat)
    requires p <= q <= n < |text| && Min(text[p..n]) == Prepend(x, Min(text[q..n]))
    ensures Left(text, done + x, q, n) == Left(text, done, p, n)
  {
    if Min(text[q..n]).Some? {
      var m := Min(text[q..n]).value;
      assert done + (x + m) == (done + x) + m;
    }
  }

  lemma CopiedString(text: string, done: string, p: nat, q: nat, n: nat)
    requires p < q <= n < |text| && text[p] == '\"' && StringEnd(text[p + 1..n]) == Some(q - p - 2)
    ensures Left(text, done + text[p..q], q, n) == Left(text, done, p, n)
  {
    var s := text[p..n];
    assert s[1..] == text[p + 1..n] && s[..q - p] == text[p..q] && s[q - p..] == text[q..n];
    Copied(text, done, text[p..q], p, q, n);
  }
}
