/** Typed input from end to end (src/input/text.py, src/session/io.py): the text is expanded, and the expansion is
    written in segments with a pause between them. */
module Typing {
  import opened Common
  import opened ControlText
  import opened Segments

  // ----- when there is a pause -----

  /** There is a pause when exactly c characters have been written. */
  ghost predicate SleepsAfter(actions: seq<Action>, c: int) {
    exists m :: SleepAt(actions, m, c)
  }

  ghost predicate SleepAt(actions: seq<Action>, m: int, c: int) {
    0 <= m < |actions| && actions[m].Sleep? && |Written(actions[..m])| == c
  }

  lemma SleepsAppend(a: seq<Action>, text: string, c: int)
    ensures SleepsAfter(a + [Sleep, Write(text)], c) <==> SleepsAfter(a, c) || c == |Written(a)|
  {
    var all := a + [Sleep, Write(text)];
    assert all[..|a|] == a;
    forall m | 0 <= m < |a| ensures all[..m] == a[..m] && all[m] == a[m] {}
    if m :| SleepAt(all, m, c) {
      assert m < |a| ==> SleepAt(a, m, c);
    }
    if m :| SleepAt(a, m, c) {
      assert SleepAt(all, m, c);
    }
    if c == |Written(a)| {
      assert SleepAt(all, |a|, c);
    }
  }

  /** The pauses of written segments are at their ends, except behind the last one. */
  lemma {:induction false} PacedSleeps(segs: seq<string>, c: int)
    requires NonEmpty(segs)
    ensures SleepsAfter(Paced(segs), c) <==> IsCut(segs, 0, c) && c < |Flatten(segs)|
    decreases |segs|
  {
    if |segs| == 1 {
      OneSegment(segs, c);
    } else if segs != [] {
      var init, last := segs[..|segs| - 1], segs[|segs| - 1];
      assert segs == init + [last];
      NonEmptyAppend(init, [last]);
      PacedSleeps(init, c);
      PacedWrites(init);
      SleepsAppend(Paced(init), last, c);
      CutsRange(init, 0, c);
      CutsAppend(init, [last], 0, c);
      FlattenAppend(init, [last]);
      LastCut(last, |Flatten(init)|, c);
    }
  }

  lemma LastCut(last: string, base: nat, c: int)
    ensures IsCut([last], base, c) <==> c == base + |last|
    ensures Flatten([last]) == last
  {
    assert [last][1..] == [];
  }

  lemma OneSegment(segs: seq<string>, c: int)
    requires |segs| == 1
    ensures !SleepsAfter(Paced(segs), c) && !(IsCut(segs, 0, c) && c < |Flatten(segs)|)
  {
    assert segs == [segs[0]];
    LastCut(segs[0], 0, c);
    forall m ensures !SleepAt(Paced(segs), m, c) {}
  }

  // ----- the whole way -----

  /** What process_input makes of typed text. */
  function Processed(text: string, jsonEscaping: bool, unescaped: string, sendEol: Option<string>, enterEol: string)
    : Result<Expansion, SyntaxError>
  {
    var base := if jsonEscaping then Expanded(KeyTable(enterEol), unescaped, 0) else Ok(Expansion(text, []));
    if base.Err? || EndsLine(base.value.text) then base
    else match sendEol
      case None => Ok(Expansion(base.value.text + enterEol, base.value.pauses + [|base.value.text + enterEol|]))
      case Some(eol) => Ok(Expansion(base.value.text + eol, base.value.pauses))
  }

  /** What a text without a line end is followed by. */
  function Appended(sendEol: Option<string>, enterEol: string): string {
    match sendEol
    case None => enterEol
    case Some(eol) => eol
  }

  /** Where an expansion is paused in: at its offsets inside it and before the line ends that stand there. */
  predicate PauseAt(e: Expansion, c: int) {
    e.pauses != [] && c < |e.text| && InputCut(e.text, e.pauses, c)
  }

  /** prepare_input and write_input together: the expansion is written once and in order, with pauses in exactly
      those places. */
  method TypeInput(text: string, jsonEscaping: bool, unescaped: string, sendEol: Option<string>, enterEol: string)
    returns (r: Result<seq<Action>, SyntaxError>)
    ensures var e := Processed(text, jsonEscaping, unescaped, sendEol, enterEol);
            match r
            case Err(error) => e == Err(error)
            case Ok(actions) =>
              && e.Ok? && Written(actions) == e.value.text
              && forall c :: SleepsAfter(actions, c) <==> PauseAt(e.value, c)
  {
    var e := ProcessInput(text, jsonEscaping, unescaped, sendEol, enterEol);
    if e.Err? { return Err(e.error); }
    var actions, segments := WriteInput(e.value.text, e.value.pauses);
    forall c ensures SleepsAfter(actions, c) <==> PauseAt(e.value, c) {
      if e.value.pauses == [] {
        OneSegment([e.value.text], c);
      } else {
        PacedSleeps(segments, c);
      }
    }
    return Ok(actions);
  }

  // ----- what that means for keys -----

  /** A token of the items ends behind c characters of their meaning. */
  ghost predicate EndsToken(tok: Table, items: seq<Item>, c: int) {
    exists k :: EndsAt(tok, items, k, c)
  }

  ghost predicate EndsAt(tok: Table, items: seq<Item>, k: int, c: int) {
    0 <= k < |items| && items[k].Token? && c == |Meaning(tok, items[..k + 1])|
  }

  lemma EndsCons(tok: Table, items: seq<Item>, c: int)
    requires items != []
    ensures EndsToken(tok, items, c) <==>
            (items[0].Token? && c == |Piece(tok, items[0])|)
            || EndsToken(tok, items[1..], c - |Piece(tok, items[0])|)
  {
    var first, rest := |Piece(tok, items[0])|, items[1..];
    var d := c - first;
    if k :| EndsAt(tok, items, k, c) { EndsShift(tok, items, k, c); }
    if k :| EndsAt(tok, rest, k, d) { EndsShift(tok, items, k + 1, c); }
    if items[0].Token? && c == first { EndsShift(tok, items, 0, c); }
  }

  /** Without the first item a place is one item and its piece nearer. */
  lemma EndsShift(tok: Table, items: seq<Item>, k: nat, c: int)
    requires items != []
    ensures var first := |Piece(tok, items[0])|;
            EndsAt(tok, items, k, c) <==>
            if k == 0 then items[0].Token? && c == first else EndsAt(tok, items[1..], k - 1, c - first)
  {
    if k < |items| { PrefixMeaning(tok, items, k); }
  }

  lemma PrefixMeaning(tok: Table, items: seq<Item>, k: nat)
    requires k < |items|
    ensures |Meaning(tok, items[..k + 1])| == |Piece(tok, items[0])| + |Meaning(tok, items[1..][..k])|
    ensures k == 0 ==> |Meaning(tok, items[..k + 1])| == |Piece(tok, items[0])|
  {
    var part := items[..k + 1];
    assert part[1..] == items[1..][..k] && part[0] == items[0];
  }

  lemma NoneEnds(tok: Table, c: int)
    ensures !EndsToken(tok, [], c)
  {
    if k :| EndsAt(tok, [], k, c) {}
  }

  lemma EndsListed(tok: Table, items: seq<Item>, done: nat, end: nat, c: int)
    requires items != [] && end == done + |Piece(tok, items[0])|
    ensures c in TokenEnds(tok, items, done) <==>
            (items[0].Token? && c == end) || c in TokenEnds(tok, items[1..], end)
    ensures TokenEnds(tok, items, done) == [] <==> items[0].Literal? && TokenEnds(tok, items[1..], end) == []
  {}

  /** The recorded pauses are the ends of the tokens. */
  lemma {:induction false} TokenEndsMean(tok: Table, items: seq<Item>, done: nat, c: int)
    ensures c in TokenEnds(tok, items, done) <==> EndsToken(tok, items, c - done)
  {
    if items == [] {
      NoneEnds(tok, c - done);
    } else {
      var end := done + |Piece(tok, items[0])|;
      EndsCons(tok, items, c - done);
      TokenEndsMean(tok, items[1..], end, c);
      EndsListed(tok, items, done, end, c);
    }
  }

  lemma {:induction false} EndsWithin(tok: Table, items: seq<Item>, c: int)
    requires AllRecognised(tok, items) && AllSaySomething(tok)
    ensures EndsToken(tok, items, c) ==> 0 < c <= |Meaning(tok, items)|
  {
    if items == [] {
      NoneEnds(tok, c);
    } else {
      EndsCons(tok, items, c);
      EndsWithin(tok, items[1..], c - |Piece(tok, items[0])|);
    }
  }

  /** Main result: typed literals and keys, printed without a backtick before a key, are written as their meaning,
      and there is a pause exactly behind each key, before a line end that a key or the whole input ends with, and
      nowhere else; none behind the last character. */
  lemma KeysApart(items: seq<Item>, sendEol: Option<string>, enterEol: string, c: int)
    requires enterEol != "" && AllRecognised(KeyTable(enterEol), items) && !BacktickBeforeToken(items)
    ensures var tok, e := KeyTable(enterEol), Processed("", true, Print(items), sendEol, enterEol);
            var m := Meaning(tok, items);
            var ended := m != "" && (m[|m| - 1] == '\n' || m[|m| - 1] == '\r');
            && e.Ok? && e.value.text == m + (if ended then "" else Appended(sendEol, enterEol))
            && (e.value.pauses == [] <==> OnlyLiterals(items) && (sendEol.Some? || ended))
            && (e.value.pauses != [] ==>
                (PauseAt(e.value, c) <==> 0 < c < |e.value.text| && KeyEnd(tok, items, e.value.text, c)))
  {
    var tok, e := KeyTable(enterEol), Processed("", true, Print(items), sendEol, enterEol);
    ProcessedKeys(items, sendEol, enterEol);
    NoEnds(tok, items, 0);
    KeysSaySomething(enterEol);
    KeyEnds(tok, items, c);
    KeyEnds(tok, items, c + 1);
    PausesMean(tok, items, Meaning(tok, items), TokenEnds(tok, items, 0), e.value, c);
  }

  /** The text, and the end of it behind the ends of the tokens when it was made by the appended key. */
  lemma ProcessedKeys(items: seq<Item>, sendEol: Option<string>, enterEol: string)
    requires AllRecognised(KeyTable(enterEol), items) && !BacktickBeforeToken(items)
    ensures var tok, e := KeyTable(enterEol), Processed("", true, Print(items), sendEol, enterEol);
            var m, ends := Meaning(tok, items), TokenEnds(tok, items, 0);
            && e.Ok? && e.value.text == m + (if EndsLine(m) then "" else Appended(sendEol, enterEol))
            && e.value.pauses == if sendEol.Some? || EndsLine(m) then ends else ends + [|e.value.text|]
  {
    PrintedExpands(KeyTable(enterEol), items, 0);
  }

  ghost predicate AllSaySomething(tok: Table) { forall b :: tok(b).Some? ==> tok(b).value != "" }

  lemma KeysSaySomething(enterEol: string)
    requires enterEol != ""
    ensures AllSaySomething(KeyTable(enterEol))
  {
    forall b | KeyTable(enterEol)(b).Some? ensures KeyTable(enterEol)(b).value != "" {
      KeysProduceSomething(b, enterEol);
    }
  }

  lemma KeyEnds(tok: Table, items: seq<Item>, c: int)
    requires AllSaySomething(tok) && AllRecognised(tok, items)
    ensures c in TokenEnds(tok, items, 0) <==> EndsToken(tok, items, c)
    ensures EndsToken(tok, items, c) ==> 0 < c <= |Meaning(tok, items)|
  {
    TokenEndsMean(tok, items, 0, c);
    EndsWithin(tok, items, c);
  }

  lemma PausesMean(tok: Table, items: seq<Item>, m: string, ends: seq<nat>, e: Expansion, c: int)
    requires m <= e.text && (e.pauses == ends || e.pauses == ends + [|e.text|])
    requires c in ends <==> EndsToken(tok, items, c)
    requires c + 1 in ends <==> EndsToken(tok, items, c + 1)
    ensures e.pauses != [] ==>
              (PauseAt(e, c) <==> 0 < c < |e.text| && KeyEnd(tok, items, e.text, c))
  {}

  /** A key ends here, or a line end stands here with which a key or the whole text ends. */
  ghost predicate KeyEnd(tok: Table, items: seq<Item>, text: string, c: int)
    requires 0 <= c < |text|
  {
    || EndsToken(tok, items, c)
    || ((text[c] == '\r' || text[c] == '\n') && (c + 1 == |text| || EndsToken(tok, items, c + 1)))
  }

  ghost predicate OnlyLiterals(items: seq<Item>) {
    items == [] || (items[0].Literal? && OnlyLiterals(items[1..]))
  }

  lemma {:induction false} NoEnds(tok: Table, items: seq<Item>, done: nat)
    ensures TokenEnds(tok, items, done) == [] <==> OnlyLiterals(items)
  {
    if items != [] {
      var end := done + |Piece(tok, items[0])|;
      NoEnds(tok, items[1..], end);
      EndsListed(tok, items, done, end, 0);
    }
  }

  predicate NoLineEnd(text: string) { text != "" && text[|text| - 1] != '\r' && text[|text| - 1] != '\n' }

  /** The line end that is appended by default is written by itself, behind a pause. */
  lemma EnterApart(text: string, jsonEscaping: bool, unescaped: string, enterEol: string)
    requires |enterEol| == 1 && IsEol(enterEol[0])
    requires var base := if jsonEscaping then Expanded(KeyTable(enterEol), unescaped, 0) else Ok(Expansion(text, []));
             base.Ok? && NoLineEnd(base.value.text)
    ensures var e := Processed(text, jsonEscaping, unescaped, None, enterEol);
            e.Ok? && e.value.text[|e.value.text| - 1..] == enterEol && PauseAt(e.value, |e.value.text| - 1)
  {
    var base := if jsonEscaping then Expanded(KeyTable(enterEol), unescaped, 0) else Ok(Expansion(text, []));
    LastApart(base.value.text, enterEol, base.value.pauses);
  }

  lemma LastApart(text: string, eol: string, pauses: seq<nat>)
    requires text != "" && |eol| == 1 && IsEol(eol[0])
    ensures var all := text + eol;
            all[|all| - 1..] == eol && PauseAt(Expansion(all, pauses + [|all|]), |all| - 1)
  {
    var all := text + eol;
    var more := pauses + [|all|];
    assert more[|more| - 1] == |all| && all[|all| - 1] == eol[0];
    assert TextCut(all, more, |all| - 1 + 1);
  }
}
