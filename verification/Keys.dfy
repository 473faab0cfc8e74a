/** What a key token sends (src/input/text.py): the bytes of every `{...}` from its spelling alone, whatever the case,
    the blanks around the parts, and the order of the modifiers. */
module Keys {
  import opened Common
  import opened ControlText

  // ----- spelling -----

  /** The blanks of ASCII, by code. */
  predicate Blank(c: char) { c as int in {9, 10, 11, 12, 13, 28, 29, 30, 31, 32} }

  predicate AllBlank(s: string) { forall k :: 0 <= k < |s| ==> Blank(s[k]) }

  /** c is the lower-case character n, in either case. */
  predicate InCase(c: char, n: char) { c == n || ('A' <= c <= 'Z' && n as int == c as int + 32) }

  predicate Cased(s: string, name: string) {
    |s| == |name| && forall k :: 0 <= k < |s| ==> InCase(s[k], name[k])
  }

  /** A part that may stand between plus signs: in lower case, without blanks at its ends. */
  predicate Name(n: string) {
    && n != "" && !Blank(n[0]) && !Blank(n[|n| - 1])
    && forall k :: 0 <= k < |n| ==> n[k] != '+' && !('A' <= n[k] <= 'Z')
  }

  /** s is the name with blanks before and behind it, in any case. */
  ghost predicate Spells(s: string, name: string) {
    exists a, b, c :: s == a + b + c && Padded(a, b, c, name)
  }

  ghost predicate Padded(a: string, b: string, c: string, name: string) {
    AllBlank(a) && AllBlank(c) && Cased(b, name)
  }

  /** The parts spell the names one by one; blank parts count for nothing. */
  ghost predicate SpelledAs(parts: seq<string>, names: seq<string>) {
    if parts == [] then names == []
    else
      || (AllBlank(parts[0]) && SpelledAs(parts[1..], names))
      || (names != [] && Name(names[0]) && Spells(parts[0], names[0]) && SpelledAs(parts[1..], names[1..]))
  }

  function Join(parts: seq<string>): string
    requires parts != []
  {
    if |parts| == 1 then parts[0] else parts[0] + "+" + Join(parts[1..])
  }

  ghost predicate NoPlus(parts: seq<string>) {
    forall i, k :: 0 <= i < |parts| && 0 <= k < |parts[i]| ==> parts[i][k] != '+'
  }

  /** The body of a token and how it is spelled. */
  ghost predicate IsBody(body: string, parts: seq<string>, names: seq<string>) {
    parts != [] && body == Join(parts) && NoPlus(parts) && SpelledAs(parts, names)
  }

  // ----- reading the spelling -----

  lemma BlankIsSpace(c: char)
    ensures Blank(c) <==> IsSpace(c)
  {}

  lemma {:induction false} StripLeftOf(a: string, s: string)
    requires AllBlank(a) && (s == "" || !Blank(s[0]))
    ensures StripLeft(a + s) == s
  {
    if a == "" {
      assert a + s == s;
      if s != "" { BlankIsSpace(s[0]); }
    } else {
      BlankIsSpace(a[0]);
      assert (a + s)[1..] == a[1..] + s;
      StripLeftOf(a[1..], s);
    }
  }

  lemma {:induction false} StripRightOf(s: string, c: string)
    requires AllBlank(c) && (s == "" || !Blank(s[|s| - 1]))
    ensures StripRight(s + c) == s
  {
    var n := |c|;
    if n == 0 {
      assert s + c == s;
      if s != "" { BlankIsSpace(s[|s| - 1]); }
    } else {
      BlankIsSpace(c[n - 1]);
      assert (s + c)[..|s + c| - 1] == s + c[..n - 1] && (s + c)[|s + c| - 1] == c[n - 1];
      StripRightOf(s, c[..n - 1]);
    }
  }

  lemma {:induction false} LowerCased(b: string, name: string)
    requires Cased(b, name) && forall k :: 0 <= k < |name| ==> !('A' <= name[k] <= 'Z')
    ensures Lower(b) == name
  {
    if b != "" {
      assert InCase(b[0], name[0]);
      assert forall k :: 0 <= k < |b[1..]| ==> b[1..][k] == b[k + 1] && name[1..][k] == name[k + 1];
      LowerCased(b[1..], name[1..]);
      assert name == [name[0]] + name[1..];
    }
  }

  lemma CasedEnds(b: string, name: string)
    requires Cased(b, name) && Name(name)
    ensures b != "" && !Blank(b[0]) && !Blank(b[|b| - 1])
  {
    assert InCase(b[0], name[0]) && InCase(b[|b| - 1], name[|name| - 1]);
  }

  /** A name spelled in any way is trimmed to itself. */
  lemma SpelledTrims(s: string, name: string)
    requires Spells(s, name) && Name(name)
    ensures Lower(StripRight(StripLeft(s))) == name
  {
    var a, b, c :| s == a + b + c && Padded(a, b, c, name);
    CasedEnds(b, name);
    assert a + b + c == a + (b + c);
    StripLeftOf(a, b + c);
    StripRightOf(b, c);
    LowerCased(b, name);
  }

  lemma BlankTrims(s: string)
    requires AllBlank(s)
    ensures Lower(StripRight(StripLeft(s))) == ""
  {
    assert s + "" == s;
    StripLeftOf(s, "");
  }

  lemma {:induction false} PartsRead(parts: seq<string>, names: seq<string>)
    requires SpelledAs(parts, names)
    ensures KeyParts(parts) == names
  {
    if parts != [] {
      if AllBlank(parts[0]) && SpelledAs(parts[1..], names) {
        BlankTrims(parts[0]);
        PartsRead(parts[1..], names);
      } else {
        SpelledTrims(parts[0], names[0]);
        PartsRead(parts[1..], names[1..]);
        assert names == [names[0]] + names[1..];
      }
    }
  }

  lemma {:induction false} SplitFirst(p: string, rest: string)
    requires forall k :: 0 <= k < |p| ==> p[k] != '+'
    ensures SplitAtPlus(p + "+" + rest) == [p] + SplitAtPlus(rest)
  {
    var s := p + "+" + rest;
    if p == "" {
      assert s[0] == '+' && s[1..] == rest;
    } else {
      assert s[1..] == p[1..] + "+" + rest && s[0] == p[0];
      SplitFirst(p[1..], rest);
      assert [p[0]] + p[1..] == p;
      assert ([p[1..]] + SplitAtPlus(rest))[1..] == SplitAtPlus(rest);
    }
  }

  lemma {:induction false} SplitJoined(parts: seq<string>)
    requires parts != [] && NoPlus(parts)
    ensures SplitAtPlus(Join(parts)) == parts
  {
    if |parts| == 1 {
      NothingToSplit(parts[0]);
    } else {
      assert NoPlus(parts[1..]);
      SplitFirst(parts[0], Join(parts[1..]));
      SplitJoined(parts[1..]);
      assert parts == [parts[0]] + parts[1..];
    }
  }

  lemma BodyRead(body: string, parts: seq<string>, names: seq<string>)
    requires IsBody(body, parts, names)
    ensures KeyParts(SplitAtPlus(body)) == names
  {
    SplitJoined(parts);
    PartsRead(parts, names);
  }

  // ----- every body has a spelling -----

  lemma {:induction false} TakeBlanks(s: string) returns (a: string, rest: string)
    ensures s == a + rest && AllBlank(a) && (rest == "" || !Blank(rest[0]))
  {
    if s == "" || !Blank(s[0]) {
      a, rest := "", s;
    } else {
      a, rest := TakeBlanks(s[1..]);
      a := [s[0]] + a;
      assert s == [s[0]] + s[1..];
    }
  }

  lemma {:induction false} DropBlanks(s: string) returns (b: string, c: string)
    ensures s == b + c && AllBlank(c) && (b == "" || (b[0] == s[0] && !Blank(b[|b| - 1])))
  {
    if s == "" || !Blank(s[|s| - 1]) {
      b, c := s, "";
    } else {
      b, c := DropBlanks(s[..|s| - 1]);
      c := c + [s[|s| - 1]];
      assert s == s[..|s| - 1] + [s[|s| - 1]];
    }
  }

  lemma {:induction false} LowerCases(b: string)
    ensures Cased(b, Lower(b)) && forall k :: 0 <= k < |Lower(b)| ==> !('A' <= Lower(b)[k] <= 'Z')
  {
    if b != "" {
      LowerCases(b[1..]);
      forall k | 0 <= k < |b|
        ensures |Lower(b)| == |b| && InCase(b[k], Lower(b)[k]) && !('A' <= Lower(b)[k] <= 'Z')
      {
        if k > 0 { assert InCase(b[1..][k - 1], Lower(b[1..])[k - 1]); }
      }
    }
  }

  lemma LowerIsName(b: string)
    requires b != "" && !Blank(b[0]) && !Blank(b[|b| - 1]) && forall k :: 0 <= k < |b| ==> b[k] != '+'
    ensures Cased(b, Lower(b)) && Name(Lower(b))
  {
    LowerCases(b);
    CasedName(b, Lower(b));
  }

  lemma InCaseKeeps(c: char, n: char)
    requires InCase(c, n) && c != '+'
    ensures n != '+' && (Blank(n) ==> Blank(c))
  {}

  lemma CasedName(b: string, name: string)
    requires b != "" && !Blank(b[0]) && !Blank(b[|b| - 1]) && forall k :: 0 <= k < |b| ==> b[k] != '+'
    requires Cased(b, name) && forall k :: 0 <= k < |name| ==> !('A' <= name[k] <= 'Z')
    ensures Name(name)
  {
    forall k | 0 <= k < |b| ensures name[k] != '+' { InCaseKeeps(b[k], name[k]); }
    InCaseKeeps(b[0], name[0]);
    InCaseKeeps(b[|b| - 1], name[|name| - 1]);
  }

  lemma PartSpelled(s: string) returns (blank: bool, name: string)
    requires forall k :: 0 <= k < |s| ==> s[k] != '+'
    ensures if blank then AllBlank(s) else Name(name) && Spells(s, name)
  {
    var a, rest := TakeBlanks(s);
    var b, c := DropBlanks(rest);
    blank, name := b == "", Lower(b);
    if !blank {
      assert forall k :: 0 <= k < |b| ==> b[k] == s[|a| + k];
      LowerIsName(b);
      assert a + (b + c) == a + b + c && Padded(a, b, c, name);
    }
  }

  lemma {:induction false} PartsSpelled(parts: seq<string>) returns (names: seq<string>)
    requires NoPlus(parts)
    ensures SpelledAs(parts, names)
  {
    if parts == [] {
      names := [];
    } else {
      assert NoPlus(parts[1..]);
      names := PartsSpelled(parts[1..]);
      var blank, name := PartSpelled(parts[0]);
      if !blank {
        var rest := names;
        names := [name] + rest;
        assert names[1..] == rest;
      }
    }
  }

  lemma {:induction false} SplitJoins(s: string)
    ensures Join(SplitAtPlus(s)) == s && NoPlus(SplitAtPlus(s))
  {
    if s != "" {
      var rest := SplitAtPlus(s[1..]);
      SplitJoins(s[1..]);
      assert s == [s[0]] + s[1..];
      if s[0] == '+' {
        var parts := [""] + rest;
        assert parts[1..] == rest && Join(parts) == "" + "+" + s[1..];
      } else {
        JoinFirst(s[0], rest, [[s[0]] + rest[0]] + rest[1..]);
      }
    }
  }

  lemma JoinFirst(c: char, rest: seq<string>, parts: seq<string>)
    requires c != '+' && rest != [] && NoPlus(rest) && parts == [[c] + rest[0]] + rest[1..]
    ensures Join(parts) == [c] + Join(rest) && NoPlus(parts)
  {
    assert parts[1..] == rest[1..];
    if |rest| > 1 { assert [c] + rest[0] + "+" + Join(rest[1..]) == [c] + (rest[0] + "+" + Join(rest[1..])); }
    forall i, k | 0 <= i < |parts| && 0 <= k < |parts[i]| ensures parts[i][k] != '+' {
      if i == 0 && k > 0 { assert parts[0][k] == rest[0][k - 1]; }
    }
  }

  /** Nothing is left out: every body is spelled by some parts and names. */
  lemma EveryBodySpelled(body: string) returns (parts: seq<string>, names: seq<string>)
    ensures IsBody(body, parts, names)
  {
    parts := SplitAtPlus(body);
    SplitJoins(body);
    names := PartsSpelled(parts);
  }

  // ----- what is sent -----

  /** Keys of one character. */
  const SINGLES: map<string, nat> :=
    map["tab" := 9, "esc" := 27, "escape" := 27, "space" := 32, "backspace" := 127, "bs" := 127]

  /** Keys that end in a letter, behind ESC [ and behind ESC O. */
  const CURSOR: map<string, char> :=
    map["up" := 'A', "down" := 'B', "right" := 'C', "left" := 'D', "backtab" := 'Z']

  const APPLICATION: map<string, char> := map["f1" := 'P', "f2" := 'Q', "f3" := 'R', "f4" := 'S']

  /** Keys that send ESC [ number ~. */
  const NUMBERED: map<string, string> :=
    map["home" := "1", "insert" := "2", "delete" := "3", "del" := "3", "end" := "4", "pageup" := "5", "pagedown" := "6",
        "f5" := "15", "f6" := "17", "f7" := "18", "f8" := "19", "f9" := "20", "f10" := "21", "f11" := "23",
        "f12" := "24"]

  /** What a named key sends in its terminal form. */
  function Sent(key: string, enterEol: string): Option<string> {
    if key == "enter" || key == "return" then Some(enterEol)
    else if key in SINGLES then Some([SINGLES[key] as char])
    else if key in CURSOR then Some(['\U{1B}', '[', CURSOR[key]])
    else if key in APPLICATION then Some(['\U{1B}', 'O', APPLICATION[key]])
    else if key in NUMBERED then Some(Numbered(NUMBERED[key]))
    else None
  }

  lemma SingleSent(key: string)
    requires key in SINGLES
    ensures ControlKey(key) == Some([SINGLES[key] as char])
  {
    assert "\t" == [9 as char] && " " == [32 as char] && ESC == [27 as char] && ['\U{7F}'] == [127 as char];
  }

  lemma CursorSent(key: string)
    requires key in CURSOR
    ensures ControlKey(key) == Some(['\U{1B}', '[', CURSOR[key]])
  {
    assert ESC + "[A" == ['\U{1B}', '[', 'A'] && ESC + "[B" == ['\U{1B}', '[', 'B'];
    assert ESC + "[C" == ['\U{1B}', '[', 'C'] && ESC + "[D" == ['\U{1B}', '[', 'D'];
    assert ESC + "[Z" == ['\U{1B}', '[', 'Z'];
  }

  lemma ApplicationSent(key: string)
    requires key in APPLICATION
    ensures ControlKey(key) == None && FunctionKey(key) == Some(['\U{1B}', 'O', APPLICATION[key]])
  {
    assert ESC + "OP" == ['\U{1B}', 'O', 'P'] && ESC + "OQ" == ['\U{1B}', 'O', 'Q'];
    assert ESC + "OR" == ['\U{1B}', 'O', 'R'] && ESC + "OS" == ['\U{1B}', 'O', 'S'];
  }

  function Numbered(number: string): string { ['\U{1B}', '['] + number + ['~'] }

  lemma EditingSent(key: string)
    requires key in NUMBERED && |NUMBERED[key]| == 1
    ensures ControlKey(key) == Some(Numbered(NUMBERED[key]))
  {
    assert ESC + "[1~" == Numbered("1") && ESC + "[2~" == Numbered("2") && ESC + "[3~" == Numbered("3");
    assert ESC + "[4~" == Numbered("4") && ESC + "[5~" == Numbered("5") && ESC + "[6~" == Numbered("6");
  }

  lemma HighFunctionSent(key: string)
    requires key in NUMBERED && |NUMBERED[key]| == 2
    ensures ControlKey(key) == None && FunctionKey(key) == Some(Numbered(NUMBERED[key]))
  {
    assert ESC + "[15~" == Numbered("15") && ESC + "[17~" == Numbered("17") && ESC + "[18~" == Numbered("18");
    assert ESC + "[19~" == Numbered("19") && ESC + "[20~" == Numbered("20") && ESC + "[21~" == Numbered("21");
    assert ESC + "[23~" == Numbered("23") && ESC + "[24~" == Numbered("24");
  }

  lemma NoneSent(key: string)
    requires key !in {"enter", "return"} && key !in SINGLES && key !in CURSOR && key !in APPLICATION && key !in NUMBERED
    ensures ControlKey(key) == None && FunctionKey(key) == None
  {}

  lemma NamedSent(key: string, enterEol: string)
    ensures NamedKey(key, enterEol) == Sent(key, enterEol)
  {
    if key == "enter" || key == "return" {
    } else if key in SINGLES {
      SingleSent(key);
    } else if key in CURSOR {
      CursorSent(key);
    } else if key in APPLICATION {
      ApplicationSent(key);
    } else if key in NUMBERED {
      if |NUMBERED[key]| == 1 { EditingSent(key); } else { HighFunctionSent(key); }
    } else {
      NoneSent(key);
    }
  }

  // ----- tokens -----

  /** The token with this body sends these bytes and one pause behind them, or is refused. */
  ghost predicate Types(enterEol: string, body: string, sent: Option<string>) {
    && KeyTable(enterEol)(body) == sent
    && Expanded(KeyTable(enterEol), "{" + body + "}", 0) ==
       match sent
       case None => Err(UnknownToken(body))
       case Some(bytes) => Ok(Expansion(bytes, [|bytes|]))
  }

  lemma TokenTypes(enterEol: string, body: string, sent: Option<string>)
    requires BodyCloses(body) && ExpandControlToken(body, enterEol) == sent
    ensures Types(enterEol, body, sent)
  {
    var text, tok := "{" + body + "}", KeyTable(enterEol);
    if sent.Some? {
      OneToken(tok, text, body);
    } else {
      assert text == text + "";
      CloseOf(text, body, "", 1);
      TokenSlices(text, body, "");
    }
  }

  predicate Letter(name: string) { |name| == 1 && 'a' <= name[0] <= 'z' }

  /** Main result, first part. A letter with no modifier is refused. With ctrl among the modifiers it sends the one
      character whose code is its place in the alphabet; else with shift its capital; else itself; and with alt one ESC
      in front. The modifiers may come in any order and number, all in any case and with any blanks. */
  lemma LetterTyped(enterEol: string, body: string, parts: seq<string>, modifiers: seq<string>, letter: string)
    requires IsBody(body, parts, modifiers + [letter]) && Letter(letter) && BodyCloses(body)
    ensures if modifiers == [] then Types(enterEol, body, None)
            else exists c :: Types(enterEol, body, Some((if "alt" in modifiers then ['\U{1B}'] else []) + [c]))
                   && c as int == if "ctrl" in modifiers then letter[0] as int - 96
                                  else if "shift" in modifiers then letter[0] as int - 32
                                  else letter[0] as int
  {
    BodyRead(body, parts, modifiers + [letter]);
    if modifiers == [] {
      LetterAlone(modifiers + [letter], letter, enterEol);
      TokenTypes(enterEol, body, None);
    } else {
      var c := LetterBytes(modifiers, letter, enterEol);
      TokenTypes(enterEol, body, Some((if "alt" in modifiers then ['\U{1B}'] else []) + [c]));
    }
  }

  lemma LetterAlone(names: seq<string>, letter: string, enterEol: string)
    requires names == [letter] && Letter(letter)
    ensures KeyBytes(names, enterEol) == None
  {
    assert names[..|names| - 1] == [];
  }

  lemma LetterBytes(modifiers: seq<string>, letter: string, enterEol: string) returns (c: char)
    requires modifiers != [] && Letter(letter)
    ensures KeyBytes(modifiers + [letter], enterEol) ==
            Some((if "alt" in modifiers then ['\U{1B}'] else []) + [c])
    ensures c as int == if "ctrl" in modifiers then letter[0] as int - 96
                        else if "shift" in modifiers then letter[0] as int - 32
                        else letter[0] as int
  {
    var names, l := modifiers + [letter], letter[0];
    c := if "ctrl" in modifiers then l - 'a' + '\U{01}' else if "shift" in modifiers then l - 'a' + 'A' else l;
    assert names[..|names| - 1] == modifiers && letter == [l];
  }

  /** Main result, second part. Any other key sends what its name stands for, with one ESC in front under alt, whatever
      the other modifiers; a name that stands for nothing is refused. */
  lemma NamedTyped(enterEol: string, body: string, parts: seq<string>, modifiers: seq<string>, key: string)
    requires IsBody(body, parts, modifiers + [key]) && !Letter(key) && BodyCloses(body)
    ensures Types(enterEol, body,
                  match Sent(key, enterEol)
                  case None => None
                  case Some(bytes) => Some((if "alt" in modifiers then ['\U{1B}'] else []) + bytes))
  {
    BodyRead(body, parts, modifiers + [key]);
    NamedBytes(modifiers, key, enterEol);
    TokenTypes(enterEol, body,
               match Sent(key, enterEol)
               case None => None
               case Some(bytes) => Some((if "alt" in modifiers then ['\U{1B}'] else []) + bytes));
  }

  lemma NamedBytes(modifiers: seq<string>, key: string, enterEol: string)
    requires !Letter(key)
    ensures KeyBytes(modifiers + [key], enterEol) ==
            match Sent(key, enterEol)
            case None => None
            case Some(bytes) => Some((if "alt" in modifiers then ['\U{1B}'] else []) + bytes)
  {
    var names := modifiers + [key];
    NamedSent(key, enterEol);
    assert names[..|names| - 1] == modifiers;
  }

  /** Main result, third part: a body of nothing but blanks and plus signs is refused. */
  lemma BlankTyped(enterEol: string, body: string, parts: seq<string>)
    requires IsBody(body, parts, []) && BodyCloses(body)
    ensures Types(enterEol, body, None)
  {
    BodyRead(body, parts, []);
    TokenTypes(enterEol, body, None);
  }
}
