/** The control-key language of typed input (src/input/text.py): `{ctrl+a}`, `{enter}` and the like
    become control bytes, braces are quoted with a backtick, and the end of every token is recorded
    as a place to pause. */
module ControlText {
  import opened Common

  const ESC: string := ['\U{1B}']

  // ----- raw quotes -----

  /** Number of backslashes directly before index i. */
  function Backslashes(t: string, i: nat): nat
    requires i <= |t|
  {
    if i > 0 && t[i - 1] == '\\' then 1 + Backslashes(t, i - 1) else 0
  }

  /** What the first i characters become: a quote with an even run before it gets one more. */
  function QuotesEscaped(t: string, i: nat): string
    requires i <= |t|
  {
    if i == 0 then ""
    else QuotesEscaped(t, i - 1) +
         if t[i - 1] == '"' && Backslashes(t, i - 1) % 2 == 0 then ['\\', '"'] else [t[i - 1]]
  }

  ghost predicate NoRawQuote(t: string) {
    forall k :: 0 <= k < |t| && t[k] == '"' ==> Backslashes(t, k) % 2 == 1
  }

  /** _escape_raw_quotes. */
  method EscapeRawQuotes(text: string) returns (r: string)
    ensures r == QuotesEscaped(text, |text|)
  {
    r := "";
    var i := 0;
    while i < |text|
      invariant 0 <= i <= |text| && r == QuotesEscaped(text, i)
    {
      if text[i] == '"' {
        var bs, j := 0, i - 1;
        while j >= 0 && text[j] == '\\'
          invariant -1 <= j < i && bs + Backslashes(text, j + 1) == Backslashes(text, i)
        {
          bs := bs + 1;
          j := j - 1;
        }
        r := r + if bs % 2 == 0 then ['\\', '"'] else ['"'];
      } else {
        r := r + [text[i]];
      }
      i := i + 1;
    }
  }

  lemma {:induction false} BackslashesPrefix(a: string, b: string, i: nat)
    requires i <= |a| && a <= b
    ensures Backslashes(a, i) == Backslashes(b, i)
  {
    if i > 0 && a[i - 1] == '\\' { BackslashesPrefix(a, b, i - 1); }
  }

  /** The run before the next character is the same in the output as in the input, and no quote of
      the output so far is raw. */
  lemma {:induction false} EscapedSoFar(t: string, i: nat)
    requires i <= |t|
    ensures var r := QuotesEscaped(t, i); NoRawQuote(r) && Backslashes(r, |r|) == Backslashes(t, i)
  {
    if i > 0 {
      EscapedSoFar(t, i - 1);
      var p, r := QuotesEscaped(t, i - 1), QuotesEscaped(t, i);
      BackslashesPrefix(p, r, |p|);
      forall k | 0 <= k < |r| && r[k] == '"' ensures Backslashes(r, k) % 2 == 1 {
        if k < |p| {
          BackslashesPrefix(p, r, k);
        } else if k == |p| + 1 {
          assert Backslashes(r, k) == 1 + Backslashes(r, |p|);
        }
      }
    }
  }

  lemma {:induction false} CleanPrefixKept(t: string, i: nat)
    requires i <= |t| && NoRawQuote(t)
    ensures QuotesEscaped(t, i) == t[..i]
  {
    if i > 0 { CleanPrefixKept(t, i - 1); }
  }

  /** Every quote of the output is preceded by an odd run of backslashes, and a text is left alone
      exactly when it was like that already; so escaping twice is escaping once. */
  lemma QuotesAllEscaped(t: string)
    ensures NoRawQuote(QuotesEscaped(t, |t|))
    ensures QuotesEscaped(t, |t|) == t <==> NoRawQuote(t)
    ensures var r := QuotesEscaped(t, |t|); QuotesEscaped(r, |r|) == r
  {
    EscapedSoFar(t, |t|);
    var r := QuotesEscaped(t, |t|);
    CleanPrefixKept(r, |r|);
    assert r[..|r|] == r;
    if NoRawQuote(t) {
      CleanPrefixKept(t, |t|);
      assert t[..|t|] == t;
    }
  }

  /** The run is all backslashes, and as long as it can be. */
  lemma {:induction false} BackslashRun(t: string, i: nat)
    requires i <= |t|
    ensures var n := Backslashes(t, i);
            && n <= i && (forall k :: i - n <= k < i ==> t[k] == '\\')
            && (n < i ==> t[i - n - 1] != '\\')
  {
    if i > 0 && t[i - 1] == '\\' { BackslashRun(t, i - 1); }
  }

  predicate IsRaw(t: string, k: nat)
    requires k < |t|
  {
    t[k] == '"' && Backslashes(t, k) % 2 == 0
  }

  function RawBefore(t: string, i: nat): nat
    requires i <= |t|
  {
    if i == 0 then 0 else RawBefore(t, i - 1) + if IsRaw(t, i - 1) then 1 else 0
  }

  lemma {:induction false} EscapedAt(t: string, n: nat, i: nat)
    requires i < n <= |t|
    ensures var r, at := QuotesEscaped(t, n), i + RawBefore(t, i);
            && at < |r| == n + RawBefore(t, n)
            && if IsRaw(t, i) then at + 1 < |r| && r[at] == '\\' && r[at + 1] == '"' else r[at] == t[i]
  {
    if i < n - 1 {
      EscapedAt(t, n - 1, i);
    } else if n > 1 {
      EscapedAt(t, n - 1, n - 2);
    }
  }

  /** Nothing else is changed: every character stays, in order, and each raw quote has one backslash more before it. */
  lemma QuotesOnly(t: string, i: nat)
    requires i < |t|
    ensures var r, at := QuotesEscaped(t, |t|), i + RawBefore(t, i);
            && at < |r| == |t| + RawBefore(t, |t|)
            && if IsRaw(t, i) then at + 1 < |r| && r[at] == '\\' && r[at + 1] == '"' else r[at] == t[i]
  {
    EscapedAt(t, |t|, i);
  }

  // ----- the language -----

  /** A table of tokens: the bytes of a recognised body. */
  type Table = string -> Option<string>

  datatype Expansion = Expansion(text: string, pauses: seq<nat>)

  datatype SyntaxError = UnpairedOpen | UnknownToken(body: string) | UnpairedClose

  predicate IsBrace(c: char) { c == '{' || c == '}' }

  /** The first unquoted closing brace of s at or after j, or |s|. */
  function CloseFrom(s: string, j: nat): (r: nat)
    requires 1 <= j <= |s|
    ensures j <= r <= |s|
    decreases |s| - j
  {
    if j < |s| && !(s[j] == '}' && s[j - 1] != '`') then CloseFrom(s, j + 1) else j
  }

  /** What the rest s of a text expands to when done characters have been produced. */
  function Expanded(tok: Table, s: string, done: nat): Result<Expansion, SyntaxError>
    decreases |s|
  {
    if s == "" then Ok(Expansion("", []))
    else if s[0] == '`' && |s| > 1 && IsBrace(s[1]) then After([s[1]], [], Expanded(tok, s[2..], done + 1))
    else if s[0] == '{' then
      var j := CloseFrom(s, 1);
      if j == |s| then Err(UnpairedOpen)
      else match tok(s[1..j])
        case None => Err(UnknownToken(s[1..j]))
        case Some(m) => After(m, [done + |m|], Expanded(tok, s[j + 1..], done + |m|))
    else if s[0] == '}' then Err(UnpairedClose)
    else After([s[0]], [], Expanded(tok, s[1..], done + 1))
  }

  function After(text: string, pauses: seq<nat>, r: Result<Expansion, SyntaxError>): Result<Expansion, SyntaxError> {
    match r
    case Ok(e) => Ok(Expansion(text + e.text, pauses + e.pauses))
    case Err(error) => Err(error)
  }

  method FindClose(text: string, i: nat) returns (j: nat)
    requires i < |text|
    ensures i < j <= |text| && CloseFrom(text[i..], 1) == j - i
  {
    j := i + 1;
    while j < |text| && !(text[j] == '}' && text[j - 1] != '`')
      invariant i + 1 <= j <= |text| && CloseFrom(text[i..], j - i) == CloseFrom(text[i..], 1)
    {
      j := j + 1;
    }
  }

  /** expand_control_characters_full. */
  method ExpandControlCharacters(text: string, tok: Table) returns (r: Result<Expansion, SyntaxError>)
    ensures r == Expanded(tok, text, 0)
  {
    var out: string, pauses: seq<nat> := "", [];
    var i := 0;
    assert text[0..] == text;
    AfterNothing(Expanded(tok, text, 0));
    while i < |text|
      invariant 0 <= i <= |text|
      invariant After(out, pauses, Expanded(tok, text[i..], |out|)) == Expanded(tok, text, 0)
      decreases |text| - i
    {
      var c := text[i];
      if c == '`' && i + 1 < |text| && IsBrace(text[i + 1]) {
        ReadQuoted(tok, text, i, out, pauses);
        out := out + [text[i + 1]];
        i := i + 2;
      } else if c == '{' {
        var j := FindClose(text, i);
        ReadToken(tok, text, i, j, out, pauses);
        if j == |text| { return Err(UnpairedOpen); }
        var m := tok(text[i + 1..j]);
        if m.None? { return Err(UnknownToken(text[i + 1..j])); }
        out := out + m.value;
        pauses := pauses + [|out|];
        i := j + 1;
      } else if c == '}' {
        return Err(UnpairedClose);
      } else {
        ReadPlain(tok, text, i, out, pauses);
        out := out + [c];
        i := i + 1;
      }
    }
    AfterAll(out, pauses);
    r := Ok(Expansion(out, pauses));
  }

  lemma ReadQuoted(tok: Table, text: string, i: nat, out: string, pauses: seq<nat>)
    requires i + 1 < |text| && text[i] == '`' && IsBrace(text[i + 1])
    ensures After(out, pauses, Expanded(tok, text[i..], |out|)) ==
            After(out + [text[i + 1]], pauses, Expanded(tok, text[i + 2..], |out| + 1))
  {
    assert text[i..][2..] == text[i + 2..];
    AfterAfter(out, pauses, [text[i + 1]], [], Expanded(tok, text[i + 2..], |out| + 1));
  }

  lemma ReadPlain(tok: Table, text: string, i: nat, out: string, pauses: seq<nat>)
    requires i < |text| && !IsBrace(text[i]) && !(text[i] == '`' && i + 1 < |text| && IsBrace(text[i + 1]))
    ensures After(out, pauses, Expanded(tok, text[i..], |out|)) ==
            After(out + [text[i]], pauses, Expanded(tok, text[i + 1..], |out| + 1))
  {
    assert text[i..][1..] == text[i + 1..];
    AfterAfter(out, pauses, [text[i]], [], Expanded(tok, text[i + 1..], |out| + 1));
  }

  lemma ReadToken(tok: Table, text: string, i: nat, j: nat, out: string, pauses: seq<nat>)
    requires i < j <= |text| && text[i] == '{' && CloseFrom(text[i..], 1) == j - i
    ensures After(out, pauses, Expanded(tok, text[i..], |out|)) ==
            if j == |text| then Err(UnpairedOpen)
            else match tok(text[i + 1..j])
              case None => Err(UnknownToken(text[i + 1..j]))
              case Some(m) => After(out + m, pauses + [|out + m|], Expanded(tok, text[j + 1..], |out + m|))
  {
    var s := text[i..];
    if j < |text| {
      assert s[1..j - i] == text[i + 1..j] && s[j - i + 1..] == text[j + 1..];
      if tok(text[i + 1..j]).Some? {
        var m := tok(text[i + 1..j]).value;
        AfterAfter(out, pauses, m, [|out| + |m|], Expanded(tok, text[j + 1..], |out| + |m|));
      }
    }
  }

  lemma AfterNothing(r: Result<Expansion, SyntaxError>)
    ensures After("", [], r) == r
  {
    if r.Ok? { assert "" + r.value.text == r.value.text && [] + r.value.pauses == r.value.pauses; }
  }

  lemma AfterAll(text: string, pauses: seq<nat>)
    ensures After(text, pauses, Ok(Expansion("", []))) == Ok(Expansion(text, pauses))
  {
    assert text + "" == text && pauses + [] == pauses;
  }

  lemma AfterAfter(a: string, p: seq<nat>, b: string, q: seq<nat>, r: Result<Expansion, SyntaxError>)
    ensures After(a, p, After(b, q, r)) == After(a + b, p + q, r)
    ensures q == [] ==> After(a, p, After(b, q, r)) == After(a + b, p, r)
  {
    if r.Ok? {
      assert a + (b + r.value.text) == a + b + r.value.text && p + (q + r.value.pauses) == p + q + r.value.pauses;
    }
    assert q == [] ==> p + q == p;
  }

  // ----- printing -----

  datatype Item = Literal(c: char) | Token(body: string)

  function PrintItem(item: Item): string {
    match item
    case Literal(c) => if IsBrace(c) then ['`', c] else [c]
    case Token(body) => "{" + body + "}"
  }

  function Print(items: seq<Item>): string {
    if items == [] then "" else PrintItem(items[0]) + Print(items[1..])
  }

  /** A body closes where it is meant to: its own closing braces are quoted and its last character
      does not quote the final one. */
  ghost predicate BodyCloses(body: string) {
    && (forall k :: 0 <= k < |body| && body[k] == '}' ==> k > 0 && body[k - 1] == '`')
    && (body != "" ==> body[|body| - 1] != '`')
  }

  ghost predicate Recognised(tok: Table, item: Item) {
    item.Token? ==> tok(item.body).Some? && BodyCloses(item.body)
  }

  ghost predicate AllRecognised(tok: Table, items: seq<Item>) {
    items == [] || (Recognised(tok, items[0]) && AllRecognised(tok, items[1..]))
  }

  /** Somewhere a literal backtick stands directly before a token. */
  ghost predicate BacktickBeforeToken(items: seq<Item>) {
    items != [] && ((items[0] == Literal('`') && |items| > 1 && items[1].Token?) || BacktickBeforeToken(items[1..]))
  }

  function Piece(tok: Table, item: Item): string {
    match item
    case Literal(c) => [c]
    case Token(body) => if tok(body).Some? then tok(body).value else ""
  }

  /** What the items stand for: their concatenated meanings. */
  function Meaning(tok: Table, items: seq<Item>): string {
    if items == [] then "" else Piece(tok, items[0]) + Meaning(tok, items[1..])
  }

  function PauseAfter(item: Item, end: nat): seq<nat> { if item.Token? then [end] else [] }

  /** The pauses that the items stand for: one after each token. */
  function TokenEnds(tok: Table, items: seq<Item>, done: nat): seq<nat> {
    if items == [] then []
    else
      var end := done + |Piece(tok, items[0])|;
      PauseAfter(items[0], end) + TokenEnds(tok, items[1..], end)
  }

  ghost predicate Yields(r: Result<Expansion, SyntaxError>, text: string, pauses: seq<nat>) {
    r.Ok? && r.value.text == text && r.value.pauses == pauses
  }

  lemma AfterYields(text: string, pauses: seq<nat>, r: Result<Expansion, SyntaxError>, t: string, p: seq<nat>)
    ensures Yields(After(text, pauses, r), text + t, pauses + p) <==> Yields(r, t, p)
  {
    if r.Ok? {
      var u, q := r.value.text, r.value.pauses;
      assert (text + u)[|text|..] == u && (text + t)[|text|..] == t;
      assert (pauses + q)[|pauses|..] == q && (pauses + p)[|pauses|..] == p;
    }
  }

  lemma {:induction false} CloseOf(s: string, body: string, rest: string, j: nat)
    requires s == "{" + body + "}" + rest && 1 <= j <= |body| + 1
    requires BodyCloses(body)
    ensures CloseFrom(s, j) == |body| + 1
    decreases |body| - j
  {
    if j <= |body| {
      assert s[j] == body[j - 1] && (j > 1 ==> s[j - 1] == body[j - 2]);
      CloseOf(s, body, rest, j + 1);
    } else {
      assert s[j] == '}' && s[j - 1] == if body == "" then '{' else body[|body| - 1];
    }
  }

  lemma LiteralRead(tok: Table, c: char, rest: string, done: nat)
    requires c == '`' && rest != "" ==> !IsBrace(rest[0])
    ensures Expanded(tok, PrintItem(Literal(c)) + rest, done) == After([c], [], Expanded(tok, rest, done + 1))
  {
    var s := PrintItem(Literal(c)) + rest;
    assert if IsBrace(c) then s[2..] == rest else s[1..] == rest;
  }

  lemma TokenRead(tok: Table, body: string, rest: string, done: nat)
    requires tok(body).Some? && BodyCloses(body)
    ensures var m := tok(body).value;
            Expanded(tok, PrintItem(Token(body)) + rest, done) ==
              After(m, [done + |m|], Expanded(tok, rest, done + |m|))
  {
    var s := PrintItem(Token(body)) + rest;
    CloseOf(s, body, rest, 1);
    TokenSlices(s, body, rest);
  }

  lemma TokenSlices(s: string, body: string, rest: string)
    requires s == "{" + body + "}" + rest
    ensures |s| >= |body| + 2 && s[0] == '{' && s[1..|body| + 1] == body && s[|body| + 2..] == rest
  {}

  lemma ItemRead(tok: Table, item: Item, rest: string, done: nat)
    requires Recognised(tok, item)
    requires item == Literal('`') && rest != "" ==> !IsBrace(rest[0])
    ensures var m := Piece(tok, item);
            Expanded(tok, PrintItem(item) + rest, done) ==
              After(m, PauseAfter(item, done + |m|), Expanded(tok, rest, done + |m|))
  {
    match item
    case Literal(c) => LiteralRead(tok, c, rest, done);
    case Token(body) => TokenRead(tok, body, rest, done);
  }

  /** Unless a backtick precedes a token, the first item of a printed text is read back as itself. */
  lemma ItemYields(tok: Table, item: Item, text: string, rest: string, done: nat, end: nat,
                   meaning: string, t: string, pauses: seq<nat>, p: seq<nat>)
    requires Recognised(tok, item)
    requires item == Literal('`') && rest != "" ==> !IsBrace(rest[0])
    requires text == PrintItem(item) + rest && end == done + |Piece(tok, item)|
    requires meaning == Piece(tok, item) + t && pauses == PauseAfter(item, end) + p
    ensures Yields(Expanded(tok, text, done), meaning, pauses) <==> Yields(Expanded(tok, rest, end), t, p)
  {
    ItemRead(tok, item, rest, done);
    AfterYields(Piece(tok, item), PauseAfter(item, end), Expanded(tok, rest, end), t, p);
  }

  lemma FirstLiteral(items: seq<Item>)
    requires items != [] && !(items[0] == Literal('`') && |items| > 1 && items[1].Token?)
    ensures items[0] == Literal('`') && Print(items[1..]) != "" ==> !IsBrace(Print(items[1..])[0])
  {
    if |items| > 1 {
      assert Print(items[1..])[0] == PrintItem(items[1])[0];
    }
  }

  /** The reading of a backtick before a token starts with an opening brace, not with the backtick. */
  lemma BacktickMisread(tok: Table, items: seq<Item>, done: nat)
    requires |items| > 1 && items[0] == Literal('`') && items[1].Token?
    ensures !Yields(Expanded(tok, Print(items), done), Meaning(tok, items), TokenEnds(tok, items, done))
  {
    var s, rest := Print(items), Print(items[1..]);
    assert s[0] == '`' && s[1] == rest[0] == '{';
    var r := Expanded(tok, s[2..], done + 1);
    if r.Ok? {
      assert (['{'] + r.value.text)[0] == '{' && Meaning(tok, items)[0] == '`';
    }
  }

  lemma PrintedStep(tok: Table, items: seq<Item>, done: nat)
    requires items != [] && Recognised(tok, items[0])
    requires !(items[0] == Literal('`') && |items| > 1 && items[1].Token?)
    ensures var end := done + |Piece(tok, items[0])|;
            Yields(Expanded(tok, Print(items), done), Meaning(tok, items), TokenEnds(tok, items, done)) <==>
            Yields(Expanded(tok, Print(items[1..]), end), Meaning(tok, items[1..]), TokenEnds(tok, items[1..], end))
  {
    var end := done + |Piece(tok, items[0])|;
    FirstLiteral(items);
    ItemYields(tok, items[0], Print(items), Print(items[1..]), done, end, Meaning(tok, items),
               Meaning(tok, items[1..]), TokenEnds(tok, items, done), TokenEnds(tok, items[1..], end));
  }

  /** Main result: a printed list of literals and recognised tokens expands to its meaning, with the
      pauses at the token ends, exactly when no literal backtick stands directly before a token. */
  lemma {:induction false} PrintedExpands(tok: Table, items: seq<Item>, done: nat)
    requires AllRecognised(tok, items)
    ensures Yields(Expanded(tok, Print(items), done), Meaning(tok, items), TokenEnds(tok, items, done))
            <==> !BacktickBeforeToken(items)
    decreases |items|
  {
    if items == [] {
      assert Print(items) == "" && Meaning(tok, items) == "" && TokenEnds(tok, items, done) == [];
    } else if items[0] == Literal('`') && |items| > 1 && items[1].Token? {
      BacktickMisread(tok, items, done);
    } else {
      assert BacktickBeforeToken(items) <==> BacktickBeforeToken(items[1..]);
      PrintedStep(tok, items, done);
      PrintedExpands(tok, items[1..], done + |Piece(tok, items[0])|);
    }
  }

  lemma {:induction false} CloseFound(s: string, j: nat)
    requires 1 <= j <= |s|
    ensures var r := CloseFrom(s, j);
            && (forall k :: j <= k < r && s[k] == '}' ==> s[k - 1] == '`')
            && (r < |s| ==> s[r] == '}' && s[r - 1] != '`')
    decreases |s| - j
  {
    if j < |s| && !(s[j] == '}' && s[j - 1] != '`') { CloseFound(s, j + 1); }
  }

  /** The converse: whatever expands is the print of recognised items, so the language is exactly
      what printing produces. */
  lemma {:induction false} ExpandedIsPrinted(tok: Table, s: string, done: nat) returns (items: seq<Item>)
    requires Expanded(tok, s, done).Ok?
    ensures Print(items) == s && AllRecognised(tok, items) && !BacktickBeforeToken(items)
    decreases |s|
  {
    if s == "" {
      items := [];
    } else {
      StopExplained(tok, s, done);
      var first: Item, n: nat, m: nat := HeadItem(tok, s, done);
      var rest := ExpandedIsPrinted(tok, s[n..], done + m);
      items := [first] + rest;
      assert items[1..] == rest && s == s[..n] + s[n..];
      if rest != [] { assert s[n] == PrintItem(rest[0])[0]; }
    }
  }

  lemma BodyFound(s: string, j: nat)
    requires s != "" && s[0] == '{' && j == CloseFrom(s, 1) && j < |s|
    ensures BodyCloses(s[1..j]) && s[..j + 1] == "{" + s[1..j] + "}"
  {
    CloseFound(s, 1);
    var body := s[1..j];
    assert forall k :: 0 <= k < |body| ==> body[k] == s[k + 1];
  }

  /** Where reading stops, and why: behind a printed part comes a brace that closes nothing, an opening one that
      nothing closes, or a closed token that the table does not know. */
  lemma {:induction false} ErrorExplained(tok: Table, s: string, done: nat) returns (items: seq<Item>, rest: string)
    requires Expanded(tok, s, done).Err?
    ensures s == Print(items) + rest && AllRecognised(tok, items) && rest != ""
    ensures items != [] ==> items[|items| - 1] != Literal('`')
    ensures match Expanded(tok, s, done).error
            case UnpairedClose => rest[0] == '}'
            case UnpairedOpen => rest[0] == '{' && Unclosed(rest)
            case UnknownToken(body) => tok(body) == None && BodyCloses(body) && "{" + body + "}" <= rest
    decreases |s|
  {
    if Stops(tok, s) {
      items, rest := [], s;
      StopExplained(tok, s, done);
      assert Print(items) + rest == s;
    } else {
      var first: Item, n: nat, m: nat := HeadItem(tok, s, done);
      items, rest := ErrorExplained(tok, s[n..], done + m);
      var later := items;
      items := [first] + later;
      assert items[1..] == later && s == s[..n] + s[n..];
      Regroup(s[..n], Print(later), rest);
      if later == [] { assert s[n..] == rest; }
    }
  }

  ghost predicate Unclosed(s: string) {
    forall k :: 1 <= k < |s| && s[k] == '}' ==> s[k - 1] == '`'
  }

  /** Reading stops right here. */
  predicate Stops(tok: Table, s: string) {
    s != "" && (s[0] == '}' || (s[0] == '{' && (CloseFrom(s, 1) == |s| || tok(s[1..CloseFrom(s, 1)]).None?)))
  }

  lemma StopExplained(tok: Table, s: string, done: nat)
    ensures Stops(tok, s) ==>
              match Expanded(tok, s, done)
              case Ok(_) => false
              case Err(UnpairedClose) => s[0] == '}'
              case Err(UnpairedOpen) => s[0] == '{' && Unclosed(s)
              case Err(UnknownToken(body)) => tok(body) == None && BodyCloses(body) && "{" + body + "}" <= s
  {
    if s != "" && s[0] == '{' {
      CloseFound(s, 1);
      if CloseFrom(s, 1) < |s| { BodyFound(s, CloseFrom(s, 1)); }
    }
  }

  /** The item at the head of a text that does not stop here: n characters of it, giving m. */
  lemma HeadItem(tok: Table, s: string, done: nat) returns (item: Item, n: nat, m: nat)
    requires s != "" && !Stops(tok, s)
    ensures 0 < n <= |s| && s[..n] == PrintItem(item) && Recognised(tok, item)
    ensures var r, r' := Expanded(tok, s, done), Expanded(tok, s[n..], done + m);
            if r'.Ok? then r.Ok? else r == r'
    ensures item == Literal('`') && n < |s| ==> !IsBrace(s[n])
  {
    if s[0] == '{' {
      var j := CloseFrom(s, 1);
      BodyFound(s, j);
      item, n, m := Token(s[1..j]), j + 1, |tok(s[1..j]).value|;
    } else if s[0] == '`' && |s| > 1 && IsBrace(s[1]) {
      item, n, m := Literal(s[1]), 2, 1;
    } else {
      item, n, m := Literal(s[0]), 1, 1;
    }
  }

  /** lo < p[0] < p[1] < ... <= hi. */
  ghost predicate Increasing(p: seq<nat>, lo: nat, hi: nat) {
    if p == [] then lo <= hi else lo < p[0] && Increasing(p[1..], p[0], hi)
  }

  lemma {:induction false} IncreasingFrom(p: seq<nat>, lo: nat, lo': nat, hi: nat)
    requires Increasing(p, lo, hi) && lo' <= lo
    ensures Increasing(p, lo', hi)
  {}

  lemma {:induction false} IncreasingIndexed(p: seq<nat>, lo: nat, hi: nat)
    requires Increasing(p, lo, hi)
    ensures lo <= hi && forall k :: 0 <= k < |p| ==> lo < p[k] <= hi
    ensures forall k, l :: 0 <= k < l < |p| ==> p[k] < p[l]
  {
    if p != [] {
      IncreasingIndexed(p[1..], p[0], hi);
      assert forall k :: 1 <= k < |p| ==> p[k] == p[1..][k - 1];
    }
  }

  ghost predicate PausesAscend(r: Result<Expansion, SyntaxError>, done: nat) {
    r.Ok? ==> Increasing(r.value.pauses, done, done + |r.value.text|)
  }

  lemma AfterAscends(text: string, pauses: seq<nat>, r: Result<Expansion, SyntaxError>, done: nat)
    requires text != "" && PausesAscend(r, done + |text|)
    requires pauses == [] || pauses == [done + |text|]
    ensures PausesAscend(After(text, pauses, r), done)
  {
    if r.Ok? {
      var p := r.value.pauses;
      if pauses == [] {
        IncreasingFrom(p, done + |text|, done, done + |text + r.value.text|);
        assert pauses + p == p;
      } else {
        assert (pauses + p)[1..] == p;
      }
    }
  }

  /** When every token produces something, the pauses are strictly increasing offsets within the
      text: the writer pauses once after each token. */
  lemma {:induction false} PausesIncrease(tok: Table, s: string, done: nat)
    requires forall b :: tok(b).Some? ==> tok(b).value != ""
    ensures PausesAscend(Expanded(tok, s, done), done)
    decreases |s|
  {
    if s != "" && Expanded(tok, s, done).Ok? {
      if s[0] == '`' && |s| > 1 && IsBrace(s[1]) {
        PausesIncrease(tok, s[2..], done + 1);
        AfterAscends([s[1]], [], Expanded(tok, s[2..], done + 1), done);
      } else if s[0] == '{' {
        var j := CloseFrom(s, 1);
        var m := tok(s[1..j]).value;
        PausesIncrease(tok, s[j + 1..], done + |m|);
        AfterAscends(m, [done + |m|], Expanded(tok, s[j + 1..], done + |m|), done);
      } else {
        PausesIncrease(tok, s[1..], done + 1);
        AfterAscends([s[0]], [], Expanded(tok, s[1..], done + 1), done);
      }
    }
  }

  // ----- the keys -----

  function SplitAtPlus(s: string): (parts: seq<string>)
    ensures parts != []
  {
    if s == "" then [""]
    else
      var rest := SplitAtPlus(s[1..]);
      if s[0] == '+' then [""] + rest else [[s[0]] + rest[0]] + rest[1..]
  }

  predicate IsSpace(c: char) { '\U{09}' <= c <= '\U{0D}' || '\U{1C}' <= c <= ' ' }

  function StripLeft(s: string): string {
    if s != "" && IsSpace(s[0]) then StripLeft(s[1..]) else s
  }

  function StripRight(s: string): string {
    if s != "" && IsSpace(s[|s| - 1]) then StripRight(s[..|s| - 1]) else s
  }

  function Lower(s: string): string {
    if s == "" then "" else [if 'A' <= s[0] <= 'Z' then s[0] - 'A' + 'a' else s[0]] + Lower(s[1..])
  }

  /** The parts between plus signs, trimmed and in lower case, without the empty ones. */
  function KeyParts(parts: seq<string>): seq<string> {
    if parts == [] then []
    else
      var p := Lower(StripRight(StripLeft(parts[0])));
      (if p == "" then [] else [p]) + KeyParts(parts[1..])
  }

  function ControlKey(name: string): Option<string> {
    match name
    case "enter" => Some("\r")
    case "return" => Some("\r")
    case "tab" => Some("\t")
    case "up" => Some(ESC + "[A")
    case "down" => Some(ESC + "[B")
    case "right" => Some(ESC + "[C")
    case "left" => Some(ESC + "[D")
    case "home" => Some(ESC + "[1~")
    case "end" => Some(ESC + "[4~")
    case "pageup" => Some(ESC + "[5~")
    case "pagedown" => Some(ESC + "[6~")
    case "insert" => Some(ESC + "[2~")
    case "delete" => Some(ESC + "[3~")
    case "del" => Some(ESC + "[3~")
    case "esc" => Some(ESC)
    case "escape" => Some(ESC)
    case "backspace" => Some(['\U{7F}'])
    case "bs" => Some(['\U{7F}'])
    case "backtab" => Some(ESC + "[Z")
    case "space" => Some(" ")
    case _ => None
  }

  function FunctionKey(name: string): Option<string> {
    match name
    case "f1" => Some(ESC + "OP")
    case "f2" => Some(ESC + "OQ")
    case "f3" => Some(ESC + "OR")
    case "f4" => Some(ESC + "OS")
    case "f5" => Some(ESC + "[15~")
    case "f6" => Some(ESC + "[17~")
    case "f7" => Some(ESC + "[18~")
    case "f8" => Some(ESC + "[19~")
    case "f9" => Some(ESC + "[20~")
    case "f10" => Some(ESC + "[21~")
    case "f11" => Some(ESC + "[23~")
    case "f12" => Some(ESC + "[24~")
    case _ => None
  }

  function NamedKey(key: string, enterEol: string): Option<string> {
    if key == "enter" || key == "return" then Some(enterEol)
    else if ControlKey(key).Some? then ControlKey(key)
    else FunctionKey(key)
  }

  /** _expand_control_token on the parts of a body: modifiers, then the key. */
  function KeyBytes(parts: seq<string>, enterEol: string): Option<string> {
    if parts == [] then None
    else
      var key, modifiers := parts[|parts| - 1], parts[..|parts| - 1];
      var plain :=
        if |key| == 1 && 'a' <= key[0] <= 'z' then
          if modifiers == [] then None
          else if "ctrl" in modifiers then Some([key[0] - 'a' + '\U{01}'])
          else Some(if "shift" in modifiers then [key[0] - 'a' + 'A'] else key)
        else NamedKey(key, enterEol);
      if plain.None? then None
      else Some((if "alt" in modifiers then ESC else "") + plain.value)
  }

  function ExpandControlToken(body: string, enterEol: string): Option<string> {
    KeyBytes(KeyParts(SplitAtPlus(body)), enterEol)
  }

  function KeyTable(enterEol: string): Table { body => ExpandControlToken(body, enterEol) }

  lemma KeysProduceSomething(body: string, enterEol: string)
    requires enterEol != ""
    ensures ExpandControlToken(body, enterEol).Some? ==> ExpandControlToken(body, enterEol).value != ""
  {}

  /** {enter} alone, as process_input appends it. */
  lemma EnterExpands(enterEol: string)
    ensures Expanded(KeyTable(enterEol), "{enter}", 0) == Ok(Expansion(enterEol, [|enterEol|]))
  {
    EnterIsKey(enterEol);
    EnterToken(KeyTable(enterEol), enterEol);
  }

  lemma EnterToken(tok: Table, enterEol: string)
    requires tok("enter") == Some(enterEol)
    ensures Expanded(tok, "{enter}", 0) == Ok(Expansion(enterEol, [|enterEol|]))
  {
    var text, body := "{enter}", "enter";
    assert |text| == 7 && |body| == 5;
    assert forall k :: 0 <= k < |body| ==> text[k + 1] == body[k];
    OneToken(tok, text, body);
  }

  lemma OneToken(tok: Table, text: string, body: string)
    requires text == "{" + body + "}" && BodyCloses(body) && tok(body).Some?
    ensures var m := tok(body).value; Expanded(tok, text, 0) == Ok(Expansion(m, [|m|]))
  {
    assert PrintItem(Token(body)) + "" == text;
    TokenRead(tok, body, "", 0);
    AfterAll(tok(body).value, [|tok(body).value|]);
  }

  lemma {:induction false} NothingToSplit(s: string)
    requires forall k :: 0 <= k < |s| ==> s[k] != '+'
    ensures SplitAtPlus(s) == [s]
  {
    if s != "" {
      NothingToSplit(s[1..]);
      assert [s[1..]][1..] == [] && [s[0]] + s[1..] == s;
    }
  }

  lemma {:induction false} NothingToLower(s: string)
    requires forall k :: 0 <= k < |s| ==> !('A' <= s[k] <= 'Z')
    ensures Lower(s) == s
  {
    if s != "" {
      NothingToLower(s[1..]);
      assert [s[0]] + s[1..] == s;
    }
  }

  /** A key name in lower case stands for itself. */
  lemma PlainName(name: string)
    requires name != "" && forall k :: 0 <= k < |name| ==> 'a' <= name[k] <= 'z'
    ensures KeyParts(SplitAtPlus(name)) == [name]
  {
    NothingToSplit(name);
    NothingToLower(name);
    assert !IsSpace(name[0]) && !IsSpace(name[|name| - 1]);
    OneKey(name);
  }

  lemma OneKey(name: string)
    requires name != "" && Lower(StripRight(StripLeft(name))) == name
    ensures KeyParts([name]) == [name]
  {
    assert [name][1..] == [] && KeyParts([]) == [];
  }

  lemma EnterIsKey(enterEol: string)
    ensures ExpandControlToken("enter", enterEol) == Some(enterEol)
  {
    PlainName("enter");
    KeyAlone("enter", enterEol);
  }

  lemma KeyAlone(key: string, enterEol: string)
    requires |key| != 1
    ensures KeyBytes([key], enterEol) == NamedKey(key, enterEol)
  {
    var parts := [key];
    assert parts[|parts| - 1] == key && parts[..|parts| - 1] == [];
    if NamedKey(key, enterEol).Some? {
      assert "" + NamedKey(key, enterEol).value == NamedKey(key, enterEol).value;
    }
  }

  predicate EndsLine(text: string) { text != "" && (text[|text| - 1] == '\n' || text[|text| - 1] == '\r') }

  /** process_input. unescaped is what the JSON string decoding makes of the text. The line end is
      appended only once, and as a token of its own when none was chosen. */
  method ProcessInput(text: string, jsonEscaping: bool, unescaped: string, sendEol: Option<string>, enterEol: string)
    returns (r: Result<Expansion, SyntaxError>)
    ensures var base := if jsonEscaping then Expanded(KeyTable(enterEol), unescaped, 0) else Ok(Expansion(text, []));
            if base.Err? || EndsLine(base.value.text) then r == base
            else r.Ok? && match sendEol
                 case None => r.value == Expansion(base.value.text + enterEol,
                                                   base.value.pauses + [|base.value.text + enterEol|])
                 case Some(eol) => r.value == Expansion(base.value.text + eol, base.value.pauses)
  {
    var out, pauses: seq<nat> := text, [];
    if jsonEscaping {
      var e := ExpandControlCharacters(unescaped, KeyTable(enterEol));
      if e.Err? { return e; }
      out, pauses := e.value.text, e.value.pauses;
    }
    if !EndsLine(out) {
      match sendEol {
        case None =>
          var tail := ExpandControlCharacters("{enter}", KeyTable(enterEol));
          EnterExpands(enterEol);
          out := out + tail.value.text;
          pauses := pauses + [|out|];
        case Some(eol) =>
          out := out + eol;
      }
    }
    r := Ok(Expansion(out, pauses));
  }
}
