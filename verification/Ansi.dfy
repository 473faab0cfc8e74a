/** The linear ANSI stripper (src/protocol/ansi.py) against the regular-expression substitution it
    replaces: SGR sequences (ECMA-48 section 8.3.117) and OSC strings (section 8.3.89, also
    terminated by BEL) are removed, everything else is kept. */
module Ansi {
  import opened Common

  const ESC: char := '\U{1B}'
  const BEL: char := '\U{07}'

  // ----- the substitution, stated on its own -----

  /** nd says which characters beyond ASCII are Unicode decimal digits. */
  predicate IsParam(nd: char -> bool, c: char) {
    c == ';' || '0' <= c <= '9' || (c > '\U{7F}' && nd(c))
  }

  /** t[i..e] is ESC [ parameters m. */
  ghost predicate Sgr(nd: char -> bool, t: string, i: nat, e: nat) {
    && i + 3 <= e <= |t|
    && t[i] == ESC && t[i + 1] == '[' && t[e - 1] == 'm'
    && forall k :: i + 2 <= k < e - 1 ==> IsParam(nd, t[k])
  }

  /** An OSC terminator starts at j: BEL, or ST written as ESC backslash. */
  predicate TermAt(t: string, j: nat) {
    j < |t| && (t[j] == BEL || (t[j] == ESC && j + 1 < |t| && t[j + 1] == '\\'))
  }

  function TermEnd(t: string, j: nat): nat
    requires TermAt(t, j)
  {
    if t[j] == BEL then j + 1 else j + 2
  }

  /** t[i..e] is ESC ], any body, terminator. */
  ghost predicate Osc(t: string, i: nat, e: nat) {
    && i + 3 <= e <= |t|
    && t[i] == ESC && t[i + 1] == ']'
    && exists j :: i + 2 <= j && TermAt(t, j) && e == TermEnd(t, j)
  }

  ghost predicate Matches(nd: char -> bool, t: string, i: nat, e: nat) {
    Sgr(nd, t, i, e) || Osc(t, i, e)
  }

  /** The match a substitution takes at i: the shortest, as the body of an OSC is matched lazily. */
  ghost predicate ShortestMatch(nd: char -> bool, t: string, i: nat, e: nat) {
    Matches(nd, t, i, e) && forall f :: i <= f < e ==> !Matches(nd, t, i, f)
  }

  /** A removable sequence starts at i. */
  ghost predicate Gone(nd: char -> bool, t: string, i: nat) { exists e: nat :: ShortestMatch(nd, t, i, e) }

  /** Where the removable sequence at i ends. */
  ghost function End(nd: char -> bool, t: string, i: nat): (e: nat)
    requires Gone(nd, t, i)
    ensures ShortestMatch(nd, t, i, e)
  {
    var e: nat :| ShortestMatch(nd, t, i, e);
    e
  }

  /** What is left of t[i..] when leftmost non-overlapping matches are removed. */
  ghost function Stripped(nd: char -> bool, t: string, i: nat): string
    decreases |t| - i
  {
    if i >= |t| then ""
    else if Gone(nd, t, i) then Stripped(nd, t, End(nd, t, i))
    else [t[i]] + Stripped(nd, t, i + 1)
  }

  // ----- facts about matches -----

  lemma TerminatorsDiffer(t: string, j: nat, k: nat)
    requires TermAt(t, j) && TermAt(t, k) && j < k
    ensures TermEnd(t, j) < TermEnd(t, k)
  {}

  lemma OneShortest(nd: char -> bool, t: string, i: nat, e: nat, f: nat)
    requires ShortestMatch(nd, t, i, e) && ShortestMatch(nd, t, i, f)
    ensures e == f
  {
    assert Matches(nd, t, i, e) && Matches(nd, t, i, f);
  }

  lemma StrippedAtMatch(nd: char -> bool, t: string, i: nat, e: nat)
    requires i < |t| && ShortestMatch(nd, t, i, e)
    ensures Stripped(nd, t, i) == Stripped(nd, t, e)
  {
    OneShortest(nd, t, i, e, End(nd, t, i));
  }

  lemma StrippedAtNoMatch(nd: char -> bool, t: string, i: nat)
    requires i < |t| && forall e :: !Matches(nd, t, i, e)
    ensures Stripped(nd, t, i) == [t[i]] + Stripped(nd, t, i + 1)
  {}

  /** Text without ESC is kept. */
  lemma {:induction false} StrippedPlain(nd: char -> bool, t: string, i: nat, to: nat)
    requires i <= to <= |t| && forall k :: i <= k < to ==> t[k] != ESC
    ensures Stripped(nd, t, i) == t[i..to] + Stripped(nd, t, to)
    decreases |t| - i
  {
    if i < to {
      StrippedAtNoMatch(nd, t, i);
      StrippedPlain(nd, t, i + 1, to);
    }
  }

  /** The end of the parameters decides SGR: there is a match exactly when the first other
      character is m, and then it is the only match. */
  lemma SgrDecided(nd: char -> bool, t: string, i: nat, j: nat)
    requires i + 2 <= j <= |t| && t[i] == ESC && t[i + 1] == '['
    requires forall k :: i + 2 <= k < j ==> IsParam(nd, t[k])
    requires j < |t| ==> !IsParam(nd, t[j])
    ensures if j < |t| && t[j] == 'm' then ShortestMatch(nd, t, i, j + 1) else forall e :: !Matches(nd, t, i, e)
  {
    forall e: nat | Matches(nd, t, i, e) ensures e == j + 1 && t[j] == 'm' {
      assert t[e - 1] == 'm' && !IsParam(nd, 'm');
      assert j < |t|;
      assert !(j < e - 1);
    }
  }

  /** The first terminator decides OSC. */
  lemma OscDecided(nd: char -> bool, t: string, i: nat, j: nat)
    requires i + 2 <= j && t[..] != "" && i + 1 < |t| && t[i] == ESC && t[i + 1] == ']'
    requires forall k :: i + 2 <= k < j ==> !TermAt(t, k)
    ensures TermAt(t, j) ==> ShortestMatch(nd, t, i, TermEnd(t, j))
    ensures j >= |t| ==> forall e :: !Matches(nd, t, i, e)
  {
    if TermAt(t, j) {
      forall f | i <= f < TermEnd(t, j) ensures !Matches(nd, t, i, f) {
        if Osc(t, i, f) {
          var k :| i + 2 <= k && TermAt(t, k) && f == TermEnd(t, k);
          if j < k { TerminatorsDiffer(t, j, k); }
        }
      }
    }
  }

  // ----- the scanner -----

  /** str.find for ESC, with the number of characters it inspects. */
  method FindEsc(t: string, pos: nat) returns (idx: int, ghost cost: nat)
    requires pos <= |t|
    ensures idx == -1 ==> forall k :: pos <= k < |t| ==> t[k] != ESC
    ensures idx != -1 ==> pos <= idx < |t| && t[idx] == ESC && forall k :: pos <= k < idx ==> t[k] != ESC
    ensures idx == -1 ==> cost == |t| - pos
    ensures idx != -1 ==> cost == idx - pos + 1
  {
    var i := pos;
    cost := 0;
    while i < |t|
      invariant pos <= i <= |t| && cost == i - pos
      invariant forall k :: pos <= k < i ==> t[k] != ESC
    {
      cost := cost + 1;
      if t[i] == ESC { return i, cost; }
      i := i + 1;
    }
    return -1, cost;
  }

  /** _scan_sgr: the first index from `from` on that holds no parameter character. */
  method ScanSgr(nd: char -> bool, t: string, from: nat) returns (j: nat, ghost cost: nat)
    requires from <= |t|
    ensures from <= j <= |t| && cost <= j - from + 1
    ensures forall k :: from <= k < j ==> IsParam(nd, t[k])
    ensures j < |t| ==> !IsParam(nd, t[j])
  {
    j, cost := from, 0;
    while j < |t|
      invariant from <= j <= |t| && cost == j - from
      invariant forall k :: from <= k < j ==> IsParam(nd, t[k])
    {
      cost := cost + 1;
      if !IsParam(nd, t[j]) { return; }
      j := j + 1;
    }
  }

  /** The search for the first OSC terminator; term is one past it, or -1. */
  method ScanOsc(t: string, from: nat) returns (term: int, ghost at: nat, ghost cost: nat)
    requires from <= |t|
    ensures from <= at && forall k :: from <= k < at ==> !TermAt(t, k)
    ensures term == -1 ==> forall k :: from <= k ==> !TermAt(t, k)
    ensures term == -1 ==> at == |t|
    ensures term != -1 ==> TermAt(t, at) && term == TermEnd(t, at)
    ensures cost <= 2 * (at - from) + 2 * (if term == -1 then 0 else 1)
  {
    var j := from;
    at, cost := from, 0;
    while j < |t|
      invariant from <= j <= |t| && at == j && cost <= 2 * (j - from)
      invariant forall k :: from <= k < j ==> !TermAt(t, k)
    {
      cost := cost + 2;
      if t[j] == BEL { return j + 1, j, cost; }
      if t[j] == ESC && j + 1 < |t| && t[j + 1] == '\\' { return j + 2, j, cost; }
      j := j + 1;
      at := j;
    }
    return -1, |t|, cost;
  }

  /** An OSC start while terminators may still follow: removed up to the first one, or ESC kept and no
      further terminator looked for. */
  method AtOsc(nd: char -> bool, t: string, esc: nat)
    returns (kept: string, pos: nat, dead: int, ghost cost: nat)
    requires esc + 1 < |t| && t[esc] == ESC && t[esc + 1] == ']'
    ensures esc < pos <= |t| && (dead == -1 || dead == esc)
    ensures Stripped(nd, t, esc) == kept + Stripped(nd, t, pos)
    ensures dead >= 0 ==> pos == esc + 1 && forall k :: dead + 2 <= k ==> !TermAt(t, k)
    ensures dead < 0 ==> pos >= esc + 3 && cost <= 2 * (pos - esc) - 2
    ensures dead >= 0 ==> cost <= 2 * |t|
  {
    var term;
    ghost var at: nat;
    term, at, cost := ScanOsc(t, esc + 2);
    OscDecided(nd, t, esc, at);
    if term >= 0 {
      StrippedAtMatch(nd, t, esc, term);
      kept, pos, dead := "", term, -1;
    } else {
      StrippedAtNoMatch(nd, t, esc);
      kept, pos, dead := [ESC], esc + 1, esc;
    }
  }

  lemma CsiDecided(nd: char -> bool, t: string, i: nat, j: nat)
    requires i + 2 <= j <= |t| && t[i] == ESC && t[i + 1] == '['
    requires forall k :: i + 2 <= k < j ==> IsParam(nd, t[k])
    requires j < |t| ==> !IsParam(nd, t[j])
    ensures Stripped(nd, t, i) == if j < |t| && t[j] == 'm' then Stripped(nd, t, j + 1)
                                  else [ESC] + Stripped(nd, t, i + 1)
    ensures forall k :: i + 1 <= k < j ==> t[k] != ESC
  {
    SgrDecided(nd, t, i, j);
    if j < |t| && t[j] == 'm' {
      StrippedAtMatch(nd, t, i, j + 1);
    } else {
      StrippedAtNoMatch(nd, t, i);
    }
  }

  /** A CSI start: removed when its parameters end in m, or ESC kept, and then there is no ESC up to front. */
  method AtCsi(nd: char -> bool, t: string, esc: nat)
    returns (kept: string, pos: nat, ghost cost: nat, ghost front: nat)
    requires esc + 1 < |t| && t[esc] == ESC && t[esc + 1] == '['
    ensures esc < pos <= |t| && Stripped(nd, t, esc) == kept + Stripped(nd, t, pos)
    ensures esc <= front <= |t| && forall k :: pos <= k < front ==> t[k] != ESC
    ensures cost <= 2 * (pos - esc) - 2 + (front - esc)
  {
    var j;
    j, cost := ScanSgr(nd, t, esc + 2);
    cost := cost + if j < |t| then 1 else 0;
    CsiDecided(nd, t, esc, j);
    if j < |t| && t[j] == 'm' {
      kept, pos, front := "", j + 1, esc;
    } else {
      kept, pos, front := [ESC], esc + 1, j;
    }
  }

  /** One iteration of the scanner at an ESC that is not the last character: what is kept, where the
      scan goes on, and the mark oscDead that no OSC terminator follows. The characters inspected
      are paid for by the advance, by the stretch newFront - esc that a failed SGR scan has looked
      at, or by the one OSC scan that fails. */
  method AtEsc(nd: char -> bool, t: string, esc: nat, oscDead: int)
    returns (kept: string, pos: nat, dead: int, ghost cost: nat, ghost front: nat)
    requires esc + 1 < |t| && t[esc] == ESC && -1 <= oscDead <= esc
    requires oscDead >= 0 ==> forall k :: oscDead + 2 <= k ==> !TermAt(t, k)
    ensures esc < pos <= |t| && -1 <= dead <= pos
    ensures Stripped(nd, t, esc) == kept + Stripped(nd, t, pos)
    ensures dead >= 0 ==> forall k :: dead + 2 <= k ==> !TermAt(t, k)
    ensures esc <= front <= |t| && forall k :: pos <= k < front ==> t[k] != ESC
    ensures oscDead >= 0 ==> dead == oscDead
    ensures cost <= 2 * (pos - esc) - 1 + (front - esc) + if dead != oscDead then 2 * |t| else 0
  {
    var next := esc + 1;
    dead, cost, front := oscDead, 1, esc;
    ghost var c: nat;
    if t[next] == '[' {
      kept, pos, c, front := AtCsi(nd, t, esc);
      cost := cost + c;
    } else if t[next] == ']' && oscDead >= 0 {
      OscDecided(nd, t, esc, |t|);
      StrippedAtNoMatch(nd, t, esc);
      StrippedAtNoMatch(nd, t, next);
      kept, pos := [ESC, ']'], next + 1;
    } else if t[next] == ']' {
      kept, pos, dead, c := AtOsc(nd, t, esc);
      cost := cost + c;
    } else {
      StrippedAtNoMatch(nd, t, esc);
      kept, pos := [ESC], next;
    }
  }

  /** One iteration in terms of the substitution: plain text up to `to`, then what happens there. */
  lemma KeptOn(nd: char -> bool, t: string, r: string, from: nat, to: nat, kept: string, pos: nat)
    requires from <= to <= |t| && forall k :: from <= k < to ==> t[k] != ESC
    requires Stripped(nd, t, 0) == r + Stripped(nd, t, from)
    requires Stripped(nd, t, to) == kept + Stripped(nd, t, pos)
    ensures Stripped(nd, t, 0) == r + t[from..to] + kept + Stripped(nd, t, pos)
  {
    StrippedPlain(nd, t, from, to);
    Regroup(r, t[from..to], Stripped(nd, t, to));
    Regroup(r + t[from..to], kept, Stripped(nd, t, pos));
  }

  /** strip_ansi: equals the substitution on every text and inspects at most six characters per
      character of the text. Failed SGR scans are disjoint: none reaches before front, the end of
      the one before it. */
  method StripAnsi(nd: char -> bool, text: string) returns (r: string, ghost cost: nat)
    ensures r == Stripped(nd, text, 0)
    ensures cost <= 6 * |text|
  {
    var n := |text|;
    var first;
    first, cost := FindEsc(text, 0);
    if first < 0 {
      StrippedPlain(nd, text, 0, n);
      return text, cost;
    }
    r := "";
    var pos, oscDead := 0, -1;
    ghost var front: nat := 0;
    while pos < n
      invariant 0 <= pos <= n && -1 <= oscDead <= pos && front <= n
      invariant Stripped(nd, text, 0) == r + Stripped(nd, text, pos)
      invariant forall k :: pos <= k < front ==> text[k] != ESC
      invariant oscDead >= 0 ==> forall k :: oscDead + 2 <= k ==> !TermAt(text, k)
      invariant cost <= n + 2 * pos + front + if oscDead >= 0 then 2 * n else 0
      decreases n - pos
    {
      var esc;
      ghost var c: nat;
      esc, c := FindEsc(text, pos);
      cost := cost + c;
      if esc < 0 {
        KeptOn(nd, text, r, pos, n, "", n);
        r := r + text[pos..];
        pos := n;
      } else if esc + 1 >= n {
        StrippedAtNoMatch(nd, text, esc);
        KeptOn(nd, text, r, pos, esc, [ESC], n);
        r := r + text[pos..esc] + [ESC];
        pos := n;
      } else {
        var kept;
        ghost var front': nat;
        var from := pos;
        kept, pos, oscDead, c, front' := AtEsc(nd, text, esc, oscDead);
        cost := cost + c;
        KeptOn(nd, text, r, from, esc, kept, pos);
        r := r + text[from..esc] + kept;
        front := if front' > front then front' else front;
      }
    }
  }

  // ----- what the substitution means for callers -----

  lemma {:induction false} StrippedBounded(nd: char -> bool, t: string, i: nat)
    requires i <= |t|
    ensures |Stripped(nd, t, i)| <= |t| - i
    decreases |t| - i
  {
    if i < |t| { StrippedBounded(nd, t, if Gone(nd, t, i) then End(nd, t, i) else i + 1); }
  }

  /** Where something matches there is a shortest match. */
  lemma {:induction false} MatchGone(nd: char -> bool, t: string, i: nat, e: nat)
    requires Matches(nd, t, i, e)
    ensures Gone(nd, t, i)
    decreases e
  {
    if g: nat :| i <= g < e && Matches(nd, t, i, g) {
      MatchGone(nd, t, i, g);
    } else {
      assert ShortestMatch(nd, t, i, e);
    }
  }

  /** A text comes back unchanged exactly when it holds no removable sequence anywhere; cursor
      movement, screen clearing and unterminated OSC are among what is then kept. */
  lemma {:induction false} UnchangedExactlyWhenNoMatch(nd: char -> bool, t: string, i: nat)
    requires i <= |t|
    ensures Stripped(nd, t, i) == t[i..] <==> forall p, e :: i <= p ==> !Matches(nd, t, p, e)
    decreases |t| - i
  {
    if i < |t| {
      if e :| Matches(nd, t, i, e) {
        MatchGone(nd, t, i, e);
        StrippedBounded(nd, t, End(nd, t, i));
        assert |Stripped(nd, t, i)| < |t[i..]|;
      } else {
        StrippedAtNoMatch(nd, t, i);
        UnchangedExactlyWhenNoMatch(nd, t, i + 1);
        assert t[i..] == [t[i]] + t[i + 1..];
        assert Stripped(nd, t, i)[1..] == Stripped(nd, t, i + 1);
      }
    }
  }

  // ----- stripping twice -----

  /** Stripping twice can strip more: removing one sequence may join the pieces of another. */
  lemma NotIdempotent(nd: char -> bool)
    ensures var t := [ESC, '[', ESC, '[', 'm', '1', 'm'];
            Stripped(nd, t, 0) == [ESC, '[', '1', 'm'] && Stripped(nd, [ESC, '[', '1', 'm'], 0) == ""
  {
    var t := [ESC, '[', ESC, '[', 'm', '1', 'm'];
    SgrDecided(nd, t, 0, 2);
    StrippedAtNoMatch(nd, t, 0);
    StrippedAtNoMatch(nd, t, 1);
    SgrDecided(nd, t, 2, 4);
    StrippedAtMatch(nd, t, 2, 5);
    StrippedPlain(nd, t, 5, 7);
    assert t[5..7] == "1m";
    var u := [ESC, '[', '1', 'm'];
    SgrDecided(nd, u, 0, 3);
    StrippedAtMatch(nd, u, 0, 4);
  }

  /** Where the substitution goes on after i. */
  ghost function Next(nd: char -> bool, t: string, i: nat): (n: nat)
    requires i < |t|
    ensures i < n <= |t|
  {
    if Gone(nd, t, i) then End(nd, t, i) else i + 1
  }

  /** Started at i, the substitution arrives at p: p is not inside a sequence that it removes. */
  ghost predicate Reached(nd: char -> bool, t: string, i: nat, p: nat)
    decreases |t| - i
  {
    i == p || (i < |t| && Reached(nd, t, Next(nd, t, i), p))
  }

  /** t[..p] ends in an SGR sequence up to some of its parameters, at least ESC [. */
  ghost predicate AfterSgrHead(nd: char -> bool, t: string, p: nat) {
    exists s: nat :: s + 2 <= p && SgrHead(nd, t, s, p)
  }

  ghost predicate SgrHead(nd: char -> bool, t: string, s: nat, p: nat) {
    s < p <= |t| && t[s] == ESC
    && (p == s + 1 || (t[s + 1] == '[' && forall k :: s + 2 <= k < p ==> IsParam(nd, t[k])))
  }

  ghost predicate AfterEsc(t: string, p: nat) { 0 < p <= |t| && t[p - 1] == ESC }

  /** v starts with the rest of an SGR sequence. */
  ghost predicate SgrTail(nd: char -> bool, v: string) {
    exists j :: 0 <= j < |v| && v[j] == 'm' && forall k :: 0 <= k < j ==> IsParam(nd, v[k])
  }

  /** v completes an SGR head: ESC alone, or ESC [ with some parameters. */
  ghost predicate CompletedBy(nd: char -> bool, v: string, escOnly: bool) {
    if escOnly then v != "" && v[0] == '[' && SgrTail(nd, v[1..]) else SgrTail(nd, v)
  }

  ghost predicate OscTail(v: string) { exists j: nat :: TermAt(v, j) }

  /** ESC ] is kept at r. */
  ghost predicate OpenAt(nd: char -> bool, t: string, r: nat) {
    r + 2 <= |t| && Reached(nd, t, 0, r) && !Gone(nd, t, r) && t[r] == ESC && t[r + 1] == ']'
  }

  ghost predicate OscOpen(nd: char -> bool, t: string, q: nat) {
    exists r: nat :: r + 2 <= q && OpenAt(nd, t, r)
  }

  /** The text before p and v, what is kept after the sequence removed at p, make a sequence across the gap. */
  ghost predicate Joined(nd: char -> bool, t: string, p: nat, v: string) {
    || (AfterSgrHead(nd, t, p) && SgrTail(nd, v))
    || (AfterEsc(t, p) && v != "" &&
        (|| CompletedBy(nd, v, true)
         || (v[0] == ']' && OscTail(v[1..]))
         || (v[0] == '\\' && OscOpen(nd, t, p - 1))))
  }

  ghost predicate Seam(nd: char -> bool, t: string, p: nat, e: nat) {
    Reached(nd, t, 0, p) && ShortestMatch(nd, t, p, e) && Joined(nd, t, p, Stripped(nd, t, e))
  }

  ghost predicate Rejoins(nd: char -> bool, t: string) { exists p, e :: Seam(nd, t, p, e) }

  lemma StrippedNext(nd: char -> bool, t: string, i: nat)
    requires i < |t|
    ensures Stripped(nd, t, i) == (if Gone(nd, t, i) then "" else [t[i]]) + Stripped(nd, t, Next(nd, t, i))
    ensures Gone(nd, t, i) ==> t[i] == ESC
  {
  }

  lemma {:induction false} ReachedForward(nd: char -> bool, t: string, i: nat, p: nat)
    requires Reached(nd, t, i, p) && i <= |t|
    ensures i <= p <= |t|
    decreases |t| - i
  {
    if i != p { ReachedForward(nd, t, Next(nd, t, i), p); }
  }

  lemma {:induction false} ReachedStep(nd: char -> bool, t: string, i: nat, p: nat)
    requires Reached(nd, t, i, p) && i <= |t| && p < |t|
    ensures Reached(nd, t, i, Next(nd, t, p))
    decreases |t| - i
  {
    if i != p { ReachedStep(nd, t, Next(nd, t, i), p); }
  }

  lemma {:induction false} ReachedBetween(nd: char -> bool, t: string, i: nat, p: nat, q: nat)
    requires Reached(nd, t, i, p) && Reached(nd, t, i, q) && i <= |t| && p <= q
    ensures Reached(nd, t, p, q)
    decreases |t| - i
  {
    if i != p {
      ReachedForward(nd, t, i, p);
      ReachedBetween(nd, t, Next(nd, t, i), p, q);
    }
  }

  /** What is kept from an arrival on ends what is kept from the start on. */
  lemma {:induction false} ReachedSuffix(nd: char -> bool, t: string, i: nat, p: nat) returns (a: string)
    requires Reached(nd, t, i, p) && i <= |t|
    ensures Stripped(nd, t, i) == a + Stripped(nd, t, p)
    decreases |t| - i
  {
    if i == p {
      a := "";
    } else {
      StrippedNext(nd, t, i);
      var b := ReachedSuffix(nd, t, Next(nd, t, i), p);
      var x := if Gone(nd, t, i) then "" else [t[i]];
      a := x + b;
      Regroup(x, b, Stripped(nd, t, p));
    }
  }

  /** Every kept character stands at an arrival where nothing is removed. */
  lemma {:induction false} KeptAt(nd: char -> bool, t: string, i: nat, k: nat) returns (p: nat)
    requires i <= |t| && k < |Stripped(nd, t, i)|
    ensures i + k <= p < |t| && Reached(nd, t, i, p) && !Gone(nd, t, p)
    ensures Stripped(nd, t, i)[k..] == Stripped(nd, t, p)
    decreases |t| - i
  {
    StrippedNext(nd, t, i);
    if !Gone(nd, t, i) && k == 0 {
      p := i;
    } else {
      var k' := if Gone(nd, t, i) then k else k - 1;
      p := KeptAt(nd, t, Next(nd, t, i), k');
    }
  }

  // A sequence in the kept text comes from a gap.

  /** What is kept from q on completes the SGR head p..q. */
  ghost predicate Completed(nd: char -> bool, t: string, p: nat, q: nat) {
    CompletedBy(nd, Stripped(nd, t, q), q == p + 1)
  }

  /** Reading on from an SGR head at p, whose kept continuation completes it: a gap is met, or the sequence
      was there before. */
  lemma {:induction false} SgrSeam(nd: char -> bool, t: string, p: nat, q: nat)
    requires SgrHead(nd, t, p, q) && Reached(nd, t, 0, q) && Completed(nd, t, p, q)
    ensures Gone(nd, t, p) || Rejoins(nd, t)
    decreases |t| - q
  {
    StrippedNext(nd, t, q);
    ReachedStep(nd, t, 0, q);
    if Gone(nd, t, q) {
      SgrSeamAt(nd, t, p, q, Next(nd, t, q));
    } else {
      CompletedNext(nd, t, p, q);
      if !Gone(nd, t, p) { SgrSeam(nd, t, p, q + 1); }
    }
  }

  lemma SgrSeamAt(nd: char -> bool, t: string, p: nat, q: nat, e: nat)
    requires SgrHead(nd, t, p, q) && Reached(nd, t, 0, q) && Completed(nd, t, p, q) && ShortestMatch(nd, t, q, e)
    ensures Seam(nd, t, q, e)
  {
    StrippedAtMatch(nd, t, q, e);
  }

  lemma CompletedNext(nd: char -> bool, t: string, p: nat, q: nat)
    requires SgrHead(nd, t, p, q) && Completed(nd, t, p, q) && q < |t| && !Gone(nd, t, q)
    ensures Gone(nd, t, p) || (SgrHead(nd, t, p, q + 1) && Completed(nd, t, p, q + 1))
  {
    KeptFirst(nd, t, q);
    HeadNext(nd, t, p, q, Stripped(nd, t, q));
    if q > p + 1 && t[q] == 'm' { MatchGone(nd, t, p, q + 1); }
  }

  lemma HeadNext(nd: char -> bool, t: string, p: nat, q: nat, v: string)
    requires SgrHead(nd, t, p, q) && CompletedBy(nd, v, q == p + 1) && q < |t| && v != "" && v[0] == t[q]
    ensures (q > p + 1 && t[q] == 'm') || (SgrHead(nd, t, p, q + 1) && CompletedBy(nd, v[1..], false))
  {
    if q > p + 1 && t[q] != 'm' { TailRest(nd, v); }
  }

  lemma KeptFirst(nd: char -> bool, t: string, q: nat)
    requires q < |t| && !Gone(nd, t, q)
    ensures var v := Stripped(nd, t, q); v != "" && v[0] == t[q] && v[1..] == Stripped(nd, t, q + 1)
  {}

  lemma TailRest(nd: char -> bool, v: string)
    requires SgrTail(nd, v) && v != "" && v[0] != 'm'
    ensures IsParam(nd, v[0]) && SgrTail(nd, v[1..])
  {
    var j :| 0 <= j < |v| && v[j] == 'm' && forall k :: 0 <= k < j ==> IsParam(nd, v[k]);
    assert v[1..][j - 1] == 'm';
  }

  lemma OscSeam(nd: char -> bool, t: string, p: nat, j: nat)
    requires p < |t| && Reached(nd, t, 0, p) && !Gone(nd, t, p) && t[p] == ESC
    requires var v := Stripped(nd, t, p + 1); v != "" && v[0] == ']' && TermAt(v[1..], j)
    ensures Rejoins(nd, t)
  {
    ReachedStep(nd, t, 0, p);
    assert p + 1 < |t|;
    if Gone(nd, t, p + 1) {
      OscSeamAt(nd, t, p + 1, Next(nd, t, p + 1), j);
    } else {
      KeptFirst(nd, t, p + 1);
      ReachedStep(nd, t, 0, p + 1);
      TermSeam(nd, t, p, j);
    }
  }

  lemma OscSeamAt(nd: char -> bool, t: string, q: nat, e: nat, j: nat)
    requires AfterEsc(t, q) && q < |t| && Reached(nd, t, 0, q) && ShortestMatch(nd, t, q, e)
    requires var v := Stripped(nd, t, q); v != "" && v[0] == ']' && TermAt(v[1..], j)
    ensures Rejoins(nd, t)
  {
    StrippedAtMatch(nd, t, q, e);
    assert Seam(nd, t, q, e);
  }

  /** When the kept text has a terminator behind an ESC ] that was not removed, the terminator is new, and a gap
      has made it. */
  lemma TermSeam(nd: char -> bool, t: string, p: nat, j: nat)
    requires p + 2 <= |t| && Reached(nd, t, 0, p + 2) && TermAt(Stripped(nd, t, p + 2), j)
    requires OpenAt(nd, t, p)
    ensures Rejoins(nd, t)
  {
    var w := Stripped(nd, t, p + 2);
    var q := KeptAhead(nd, t, p + 2, j);
    NoTerm(nd, t, p, q);
    ReachedJoin(nd, t, 0, p + 2, q + 1);
    TermRest(w, j, t, q);
    EscSeam(nd, t, p, q);
  }

  lemma EscSeam(nd: char -> bool, t: string, p: nat, q: nat)
    requires OpenAt(nd, t, p) && p + 2 <= q < |t| && t[q] == ESC && !TermAt(t, q) && Reached(nd, t, 0, q + 1)
    requires var v := Stripped(nd, t, q + 1); v != "" && v[0] == '\\'
    ensures Rejoins(nd, t)
  {
    NewTerm(nd, t, q);
    assert OscOpen(nd, t, q);
    TermSeamAt(nd, t, q + 1, End(nd, t, q + 1));
  }

  /** A terminator of the kept text whose first character was not one in t is ESC before a backslash. */
  lemma TermRest(w: string, j: nat, t: string, q: nat)
    requires TermAt(w, j) && q < |t| && t[q] == w[j] && !TermAt(t, q)
    ensures t[q] == ESC && w[j + 1..] != "" && w[j + 1..][0] == '\\'
  {}

  /** ESC was followed by something else than what is kept behind it, so something is removed there. */
  lemma NewTerm(nd: char -> bool, t: string, q: nat)
    requires q < |t| && !TermAt(t, q) && t[q] == ESC
    requires var v := Stripped(nd, t, q + 1); v != "" && v[0] == '\\'
    ensures q + 1 < |t| && Gone(nd, t, q + 1)
  {}

  lemma NoTerm(nd: char -> bool, t: string, p: nat, q: nat)
    requires p + 2 <= q < |t| && !Gone(nd, t, p) && t[p] == ESC && t[p + 1] == ']'
    ensures !TermAt(t, q)
  {
    if TermAt(t, q) { MatchGone(nd, t, p, TermEnd(t, q)); }
  }

  lemma TermSeamAt(nd: char -> bool, t: string, q: nat, e: nat)
    requires AfterEsc(t, q) && q < |t| && Reached(nd, t, 0, q) && ShortestMatch(nd, t, q, e)
    requires OscOpen(nd, t, q - 1) && var v := Stripped(nd, t, q); v != "" && v[0] == '\\'
    ensures Rejoins(nd, t)
  {
    StrippedAtMatch(nd, t, q, e);
    assert Seam(nd, t, q, e);
  }

  lemma {:induction false} ReachedJoin(nd: char -> bool, t: string, i: nat, p: nat, q: nat)
    requires i <= |t| && Reached(nd, t, i, p) && Reached(nd, t, p, q)
    ensures Reached(nd, t, i, q)
    decreases |t| - i
  {
    if i != p { ReachedJoin(nd, t, Next(nd, t, i), p, q); }
  }

  /** A kept character where it stood, and what is kept behind it. */
  lemma KeptAhead(nd: char -> bool, t: string, i: nat, k: nat) returns (p: nat)
    requires i <= |t| && k < |Stripped(nd, t, i)|
    ensures i + k <= p < |t| && Reached(nd, t, i, p) && Reached(nd, t, i, p + 1) && !Gone(nd, t, p)
    ensures var w := Stripped(nd, t, i); t[p] == w[k] && Stripped(nd, t, p + 1) == w[k + 1..]
  {
    p := KeptAt(nd, t, i, k);
    KeptFirst(nd, t, p);
    ReachedStep(nd, t, i, p);
    TailOf(Stripped(nd, t, i), k, Stripped(nd, t, p));
  }

  lemma TailOf(w: string, k: nat, v: string)
    requires k < |w| && w[k..] == v
    ensures v != "" && v[0] == w[k] && v[1..] == w[k + 1..]
  {}

  lemma MatchRejoins(nd: char -> bool, t: string, a: nat, b: nat)
    requires Matches(nd, Stripped(nd, t, 0), a, b)
    ensures Rejoins(nd, t)
  {
    var w := Stripped(nd, t, 0);
    if Sgr(nd, w, a, b) {
      SgrRejoins(nd, t, w, a, b);
    } else {
      OscRejoins(nd, t, w, a, b);
    }
  }

  lemma SgrRejoins(nd: char -> bool, t: string, w: string, a: nat, b: nat)
    requires w == Stripped(nd, t, 0) && Sgr(nd, w, a, b)
    ensures Rejoins(nd, t)
  {
    SgrAhead(nd, w, a, b);
    var p := KeptAhead(nd, t, 0, a);
    SgrSeam(nd, t, p, p + 1);
  }

  lemma OscRejoins(nd: char -> bool, t: string, w: string, a: nat, b: nat)
    requires w == Stripped(nd, t, 0) && Osc(w, a, b)
    ensures Rejoins(nd, t)
  {
    var j := OscAhead(w, a, b);
    var p := KeptAhead(nd, t, 0, a);
    OscSeam(nd, t, p, j);
  }

  lemma SgrAhead(nd: char -> bool, w: string, a: nat, b: nat)
    requires Sgr(nd, w, a, b)
    ensures CompletedBy(nd, w[a + 1..], true)
  {
    assert w[a + 1..][1..][b - 1 - (a + 2)] == 'm';
  }

  lemma OscAhead(w: string, a: nat, b: nat) returns (j: nat)
    requires Osc(w, a, b)
    ensures var v := w[a + 1..]; v[0] == ']' && TermAt(v[1..], j)
  {
    var k :| a + 2 <= k && TermAt(w, k) && b == TermEnd(w, k);
    j := k - (a + 2);
  }

  ghost predicate Strippable(nd: char -> bool, w: string) { exists a, b :: Matches(nd, w, a, b) }

  // A gap that joins gives a sequence in the kept text.

  lemma MatchShifted(nd: char -> bool, a: string, b: string, f: nat)
    requires Matches(nd, b, 0, f)
    ensures Matches(nd, a + b, |a|, |a| + f)
  {
    var w := a + b;
    assert forall k :: 0 <= k < |b| ==> w[|a| + k] == b[k];
    if Osc(b, 0, f) {
      var j :| 2 <= j && TermAt(b, j) && f == TermEnd(b, j);
      assert TermAt(w, |a| + j);
    }
  }

  lemma MatchEnds(nd: char -> bool, t: string, i: nat, e: nat)
    requires Matches(nd, t, i, e)
    ensures var c := t[e - 1]; c != ESC && c != '[' && !IsParam(nd, c)
  {
    if Osc(t, i, e) {
      var j :| i + 2 <= j && TermAt(t, j) && e == TermEnd(t, j);
      assert t[e - 1] == BEL || t[e - 1] == '\\';
    }
  }

  /** No removed sequence ends inside an SGR head, so the substitution arrives at its start. */
  lemma {:induction false} HeadReached(nd: char -> bool, t: string, i: nat, s: nat, p: nat)
    requires i <= s && SgrHead(nd, t, s, p) && Reached(nd, t, i, p)
    ensures Reached(nd, t, i, s)
    decreases |t| - i
  {
    if i < s {
      var e := Next(nd, t, i);
      ReachedForward(nd, t, e, p);
      NextOutside(nd, t, i, s, p);
      HeadReached(nd, t, e, s, p);
    }
  }

  lemma NextOutside(nd: char -> bool, t: string, i: nat, s: nat, p: nat)
    requires i < s && SgrHead(nd, t, s, p) && Next(nd, t, i) <= p
    ensures Next(nd, t, i) <= s
  {
    var e := Next(nd, t, i);
    if Gone(nd, t, i) {
      MatchEnds(nd, t, i, e);
      if s <= e - 1 { HeadChar(nd, t, s, p, e - 1); }
    }
  }

  lemma HeadChar(nd: char -> bool, t: string, s: nat, p: nat, k: nat)
    requires SgrHead(nd, t, s, p) && s <= k < p
    ensures t[k] == ESC || t[k] == '[' || IsParam(nd, t[k])
  {}

  lemma HeadNotGone(nd: char -> bool, t: string, s: nat, p: nat)
    requires SgrHead(nd, t, s, p) && p < |t| && t[p] == ESC
    ensures !Gone(nd, t, s)
  {
    if p > s + 1 { SgrDecided(nd, t, s, p); }
  }

  /** An SGR head that ESC cuts off is kept as it is. */
  lemma HeadKept(nd: char -> bool, t: string, s: nat, p: nat)
    requires SgrHead(nd, t, s, p) && p < |t| && t[p] == ESC
    ensures Stripped(nd, t, s) == t[s..p] + Stripped(nd, t, p)
  {
    HeadNotGone(nd, t, s, p);
    StrippedPlain(nd, t, s + 1, p);
    FirstApart(t, s, p, Stripped(nd, t, p));
  }

  lemma FirstApart(t: string, s: nat, p: nat, v: string)
    requires s < p <= |t|
    ensures [t[s]] + (t[s + 1..p] + v) == t[s..p] + v
  {}

  lemma HeadThen(nd: char -> bool, t: string, s: nat, p: nat, e: nat)
    requires SgrHead(nd, t, s, p) && Reached(nd, t, 0, p) && ShortestMatch(nd, t, p, e)
    ensures Reached(nd, t, 0, s) && Stripped(nd, t, s) == t[s..p] + Stripped(nd, t, e)
  {
    HeadReached(nd, t, 0, s, p);
    HeadKept(nd, t, s, p);
    StrippedAtMatch(nd, t, p, e);
  }

  lemma EscThen(nd: char -> bool, t: string, p: nat, e: nat)
    requires AfterEsc(t, p) && Reached(nd, t, 0, p) && ShortestMatch(nd, t, p, e)
    ensures Reached(nd, t, 0, p - 1) && Stripped(nd, t, p - 1) == [ESC] + Stripped(nd, t, e)
  {
    HeadThen(nd, t, p - 1, p, e);
    assert t[p - 1..p] == [ESC];
  }

  lemma SgrJoined(nd: char -> bool, head: string, v: string) returns (f: nat)
    requires SgrHead(nd, head, 0, |head|)
    requires CompletedBy(nd, v, |head| == 1)
    ensures Matches(nd, head + v, 0, f)
  {
    var w := head + v;
    if |head| == 1 {
      var j :| 0 <= j < |v[1..]| && v[1..][j] == 'm' && forall k :: 0 <= k < j ==> IsParam(nd, v[1..][k]);
      assert forall k :: 2 <= k < j + 2 ==> w[k] == v[1..][k - 2];
      f := j + 3;
    } else {
      var j :| 0 <= j < |v| && v[j] == 'm' && forall k :: 0 <= k < j ==> IsParam(nd, v[k]);
      assert forall k :: |head| <= k < |head| + j ==> w[k] == v[k - |head|];
      f := |head| + j + 1;
    }
  }

  lemma OscJoined(nd: char -> bool, body: string, j: nat) returns (f: nat)
    requires TermAt(body, j)
    ensures Matches(nd, [ESC, ']'] + body, 0, f)
  {
    var w := [ESC, ']'] + body;
    assert TermAt(w, j + 2);
    f := TermEnd(w, j + 2);
  }

  lemma OscRest(nd: char -> bool, v: string) returns (f: nat)
    requires v != "" && v[0] == ']' && OscTail(v[1..])
    ensures Matches(nd, [ESC] + v, 0, f)
  {
    var j: nat :| TermAt(v[1..], j);
    f := OscJoined(nd, v[1..], j);
    assert [ESC, ']'] + v[1..] == [ESC] + v;
  }

  lemma OscClosed(nd: char -> bool, b: string, v: string) returns (f: nat)
    requires v != "" && v[0] == '\\'
    ensures Matches(nd, [ESC, ']'] + (b + ([ESC] + v)), 0, f)
  {
    var body := b + ([ESC] + v);
    assert body[|b|] == ESC && body[|b| + 1] == '\\';
    f := OscJoined(nd, body, |b|);
  }

  /** A sequence at the start of what is kept from an arrival on is one of the whole kept text. */
  lemma ArrivalMatch(nd: char -> bool, t: string, s: nat, w: string, f: nat)
    requires Reached(nd, t, 0, s) && w == Stripped(nd, t, s) && Matches(nd, w, 0, f)
    ensures Strippable(nd, Stripped(nd, t, 0))
  {
    var a := ReachedSuffix(nd, t, 0, s);
    MatchShifted(nd, a, w, f);
  }

  lemma HeadMatch(nd: char -> bool, t: string, s: nat, p: nat, e: nat)
    requires SgrHead(nd, t, s, p) && Reached(nd, t, 0, p) && ShortestMatch(nd, t, p, e)
    requires CompletedBy(nd, Stripped(nd, t, e), p == s + 1)
    ensures Strippable(nd, Stripped(nd, t, 0))
  {
    var v, head := Stripped(nd, t, e), t[s..p];
    HeadThen(nd, t, s, p, e);
    var f := SgrJoined(nd, head, v);
    ArrivalMatch(nd, t, s, head + v, f);
  }

  lemma OscHeadMatch(nd: char -> bool, t: string, p: nat, e: nat)
    requires AfterEsc(t, p) && Reached(nd, t, 0, p) && ShortestMatch(nd, t, p, e)
    requires var v := Stripped(nd, t, e); v != "" && v[0] == ']' && OscTail(v[1..])
    ensures Strippable(nd, Stripped(nd, t, 0))
  {
    EscThen(nd, t, p, e);
    var f := OscRest(nd, Stripped(nd, t, e));
    ArrivalMatch(nd, t, p - 1, [ESC] + Stripped(nd, t, e), f);
  }

  /** ESC ] that is not removed is kept. */
  lemma OpenKept(nd: char -> bool, t: string, r: nat)
    requires OpenAt(nd, t, r)
    ensures Reached(nd, t, 0, r + 2) && Stripped(nd, t, r) == [ESC, ']'] + Stripped(nd, t, r + 2)
  {
    ReachedStep(nd, t, 0, r);
    BracketStays(nd, t, r + 1);
    ReachedStep(nd, t, 0, r + 1);
    TwoKept(nd, t, r);
  }

  lemma TwoKept(nd: char -> bool, t: string, r: nat)
    requires r + 2 <= |t| && !Gone(nd, t, r) && !Gone(nd, t, r + 1)
    ensures Stripped(nd, t, r) == [t[r], t[r + 1]] + Stripped(nd, t, r + 2)
  {
    var v := Stripped(nd, t, r + 2);
    assert [t[r]] + ([t[r + 1]] + v) == [t[r], t[r + 1]] + v;
  }

  lemma BracketStays(nd: char -> bool, t: string, i: nat)
    requires i < |t| && t[i] == ']'
    ensures !Gone(nd, t, i) && Stripped(nd, t, i) == [']'] + Stripped(nd, t, i + 1)
  {}

  lemma OpenMiddle(nd: char -> bool, t: string, r: nat, q: nat) returns (b: string)
    requires OpenAt(nd, t, r) && r + 2 <= q <= |t| && Reached(nd, t, 0, q)
    ensures Stripped(nd, t, r + 2) == b + Stripped(nd, t, q)
  {
    OpenKept(nd, t, r);
    ReachedBetween(nd, t, 0, r + 2, q);
    b := ReachedSuffix(nd, t, r + 2, q);
  }

  lemma InPlace(w: string, w1: string, w2: string, b: string, v: string)
    requires w == [ESC, ']'] + w1 && w1 == b + w2 && w2 == [ESC] + v
    ensures w == [ESC, ']'] + (b + ([ESC] + v))
  {}

  lemma OpenText(nd: char -> bool, t: string, r: nat, p: nat, e: nat) returns (b: string)
    requires Reached(nd, t, 0, p) && ShortestMatch(nd, t, p, e) && AfterEsc(t, p)
    requires OpenAt(nd, t, r) && r + 2 <= p - 1
    ensures Stripped(nd, t, r) == [ESC, ']'] + (b + ([ESC] + Stripped(nd, t, e)))
  {
    EscThen(nd, t, p, e);
    b := OpenMiddle(nd, t, r, p - 1);
    OpenKept(nd, t, r);
    InPlace(Stripped(nd, t, r), Stripped(nd, t, r + 2), Stripped(nd, t, p - 1), b, Stripped(nd, t, e));
  }

  lemma OpenMatch(nd: char -> bool, t: string, r: nat, p: nat, e: nat)
    requires Reached(nd, t, 0, p) && ShortestMatch(nd, t, p, e) && AfterEsc(t, p)
    requires OpenAt(nd, t, r) && r + 2 <= p - 1
    requires var v := Stripped(nd, t, e); v != "" && v[0] == '\\'
    ensures Strippable(nd, Stripped(nd, t, 0))
  {
    var b := OpenText(nd, t, r, p, e);
    var f := OscClosed(nd, b, Stripped(nd, t, e));
    ArrivalMatch(nd, t, r, [ESC, ']'] + (b + ([ESC] + Stripped(nd, t, e))), f);
  }

  lemma SeamMatches(nd: char -> bool, t: string, p: nat, e: nat)
    requires Seam(nd, t, p, e)
    ensures Strippable(nd, Stripped(nd, t, 0))
  {
    var v := Stripped(nd, t, e);
    if AfterSgrHead(nd, t, p) && SgrTail(nd, v) {
      var s: nat :| s + 2 <= p && SgrHead(nd, t, s, p);
      HeadMatch(nd, t, s, p, e);
    } else if v[0] == '\\' {
      var r: nat :| r + 2 <= p - 1 && OpenAt(nd, t, r);
      OpenMatch(nd, t, r, p, e);
    } else if v[0] == ']' {
      OscHeadMatch(nd, t, p, e);
    } else {
      HeadMatch(nd, t, p - 1, p, e);
    }
  }

  /** Main result on stripping twice: the second pass changes nothing exactly when no removed sequence has a
      cut-off sequence right before it that the text kept behind it completes. */
  lemma StableExactlyWhenNoSeam(nd: char -> bool, t: string)
    ensures Stripped(nd, Stripped(nd, t, 0), 0) == Stripped(nd, t, 0) <==> !Rejoins(nd, t)
  {
    var w := Stripped(nd, t, 0);
    UnchangedExactlyWhenNoMatch(nd, w, 0);
    assert w[0..] == w;
    if a, b :| Matches(nd, w, a, b) {
      MatchRejoins(nd, t, a, b);
    }
    if p, e :| Seam(nd, t, p, e) {
      SeamMatches(nd, t, p, e);
    }
  }

  // The same condition without what is kept: a walk over the text that skips the removed sequences.

  /** The first position from i on that is kept, if any is. */
  ghost function First(nd: char -> bool, t: string, i: nat): (k: nat)
    ensures i <= k && Stripped(nd, t, k) == Stripped(nd, t, i) && (k < |t| ==> !Gone(nd, t, k))
    decreases |t| - i
  {
    if i < |t| && Gone(nd, t, i) then First(nd, t, End(nd, t, i)) else i
  }

  /** From i on come parameters and then m. */
  ghost predicate SgrTailFrom(nd: char -> bool, t: string, i: nat)
    decreases |t| - i
  {
    i < |t| && if Gone(nd, t, i) then SgrTailFrom(nd, t, End(nd, t, i))
               else t[i] == 'm' || (IsParam(nd, t[i]) && SgrTailFrom(nd, t, i + 1))
  }

  ghost predicate FirstIs(nd: char -> bool, t: string, i: nat, c: char) {
    var k := First(nd, t, i);
    k < |t| && t[k] == c
  }

  /** Somewhere from i on comes a terminator. */
  ghost predicate TermFrom(nd: char -> bool, t: string, i: nat)
    decreases |t| - i
  {
    i < |t| && if Gone(nd, t, i) then TermFrom(nd, t, End(nd, t, i))
               else t[i] == BEL || (t[i] == ESC && FirstIs(nd, t, i + 1, '\\')) || TermFrom(nd, t, i + 1)
  }

  /** The text before p and the text from e on make a sequence across the removed t[p..e]: parameters and m
      for an SGR head, or the rest of a sequence of which ESC stands before p. */
  ghost predicate JoinedAcross(nd: char -> bool, t: string, p: nat, e: nat) {
    var k := First(nd, t, e);
    || (AfterSgrHead(nd, t, p) && SgrTailFrom(nd, t, e))
    || (AfterEsc(t, p) && k < |t| &&
        (|| (t[k] == '[' && SgrTailFrom(nd, t, k + 1))
         || (t[k] == ']' && TermFrom(nd, t, k + 1))
         || (t[k] == '\\' && OscOpen(nd, t, p - 1))))
  }

  lemma TailHere(nd: char -> bool, t: string, k: nat)
    requires k < |t| && !Gone(nd, t, k)
    ensures SgrTail(nd, Stripped(nd, t, k)) <==>
            t[k] == 'm' || (IsParam(nd, t[k]) && SgrTail(nd, Stripped(nd, t, k + 1)))
  {
    KeptFirst(nd, t, k);
    TailCons(nd, Stripped(nd, t, k));
  }

  lemma TailCons(nd: char -> bool, v: string)
    requires v != ""
    ensures SgrTail(nd, v) <==> v[0] == 'm' || (IsParam(nd, v[0]) && SgrTail(nd, v[1..]))
  {
    if SgrTail(nd, v) && v[0] != 'm' { TailRest(nd, v); }
    if IsParam(nd, v[0]) && SgrTail(nd, v[1..]) {
      var j :| 0 <= j < |v[1..]| && v[1..][j] == 'm' && forall k :: 0 <= k < j ==> IsParam(nd, v[1..][k]);
      assert v[j + 1] == 'm' && forall k :: 1 <= k < j + 1 ==> v[k] == v[1..][k - 1];
    }
  }

  lemma {:induction false} SgrTailText(nd: char -> bool, t: string, i: nat)
    ensures SgrTail(nd, Stripped(nd, t, i)) <==> SgrTailFrom(nd, t, i)
    decreases |t| - i
  {
    if i < |t| && Gone(nd, t, i) {
      SgrTailText(nd, t, End(nd, t, i));
    } else if i < |t| {
      SgrTailText(nd, t, i + 1);
      TailHere(nd, t, i);
    }
  }

  lemma TermCons(v: string, rest: string)
    requires v != "" && rest == v[1..]
    ensures OscTail(v) <==> v[0] == BEL || (v[0] == ESC && rest != "" && rest[0] == '\\') || OscTail(rest)
  {
    if TermAt(v, 0) {
      assert OscTail(v);
    } else if j: nat :| TermAt(v, j) {
      assert TermAt(rest, j - 1);
    }
    if j: nat :| TermAt(rest, j) {
      assert TermAt(v, j + 1);
    }
  }

  lemma FirstText(nd: char -> bool, t: string, i: nat, c: char)
    ensures FirstIs(nd, t, i, c) <==> Stripped(nd, t, i) != "" && Stripped(nd, t, i)[0] == c
  {
    var k := First(nd, t, i);
    if k < |t| { KeptFirst(nd, t, k); }
  }

  lemma TermHere(nd: char -> bool, t: string, k: nat)
    requires k < |t| && !Gone(nd, t, k)
    ensures var rest := Stripped(nd, t, k + 1);
            OscTail(Stripped(nd, t, k)) <==>
            t[k] == BEL || (t[k] == ESC && rest != "" && rest[0] == '\\') || OscTail(rest)
  {
    KeptFirst(nd, t, k);
    TermCons(Stripped(nd, t, k), Stripped(nd, t, k + 1));
  }

  lemma {:induction false} TermText(nd: char -> bool, t: string, i: nat)
    ensures OscTail(Stripped(nd, t, i)) <==> TermFrom(nd, t, i)
    decreases |t| - i
  {
    if i < |t| && Gone(nd, t, i) {
      TermText(nd, t, End(nd, t, i));
    } else if i < |t| {
      TermText(nd, t, i + 1);
      FirstText(nd, t, i + 1, '\\');
      TermHere(nd, t, i);
    }
  }

  lemma AcrossText(nd: char -> bool, t: string, p: nat, e: nat)
    ensures Joined(nd, t, p, Stripped(nd, t, e)) <==> JoinedAcross(nd, t, p, e)
  {
    var k := First(nd, t, e);
    SgrTailText(nd, t, e);
    if k < |t| {
      KeptFirst(nd, t, k);
      SgrTailText(nd, t, k + 1);
      TermText(nd, t, k + 1);
    }
  }

  /** Main result on stripping twice, read off the text: the second pass changes something exactly when somewhere
      a removed sequence stands between the two parts of another one. */
  lemma StableExactlyByText(nd: char -> bool, t: string)
    ensures Stripped(nd, Stripped(nd, t, 0), 0) == Stripped(nd, t, 0) <==>
            !exists p, e :: Reached(nd, t, 0, p) && ShortestMatch(nd, t, p, e) && JoinedAcross(nd, t, p, e)
  {
    StableExactlyWhenNoSeam(nd, t);
    forall p: nat, e: nat ensures Joined(nd, t, p, Stripped(nd, t, e)) <==> JoinedAcross(nd, t, p, e) {
      AcrossText(nd, t, p, e);
    }
    if p, e :| Reached(nd, t, 0, p) && ShortestMatch(nd, t, p, e) && JoinedAcross(nd, t, p, e) {
      assert Seam(nd, t, p, e);
    }
    if p, e :| Seam(nd, t, p, e) {
      assert JoinedAcross(nd, t, p, e);
    }
  }

  /** A simple sufficient condition on the text: when no removable sequence starts right after ESC or
      after ESC [ and parameters, one pass is enough. */
  lemma StableWithoutCutHeads(nd: char -> bool, t: string)
    requires forall p :: Gone(nd, t, p) ==> !AfterEsc(t, p) && !AfterSgrHead(nd, t, p)
    ensures Stripped(nd, Stripped(nd, t, 0), 0) == Stripped(nd, t, 0)
  {
    forall p, e ensures !Seam(nd, t, p, e) {
      if ShortestMatch(nd, t, p, e) { assert Gone(nd, t, p); }
    }
    StableExactlyWhenNoSeam(nd, t);
  }
}
