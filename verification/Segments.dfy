/** Segmented writing of input (src/session/io.py): the text is cut at the pause offsets and before a
    final line end of each piece, so that every piece reaches the terminal as a chunk of its own. */
module Segments {
  import opened Common

  predicate IsEol(c: char) { c == '\r' || c == '\n' }

  /** One of the segments, the first of which starts at base, ends at c. */
  predicate IsCut(segs: seq<string>, base: nat, c: int) {
    segs != [] && (c == base + |segs[0]| || IsCut(segs[1..], base + |segs[0]|, c))
  }

  ghost predicate NonEmpty(segs: seq<string>) { segs == [] || (segs[0] != "" && NonEmpty(segs[1..])) }

  lemma {:induction false} CutsAppend(a: seq<string>, b: seq<string>, base: nat, c: int)
    ensures IsCut(a + b, base, c) <==> IsCut(a, base, c) || IsCut(b, base + |Flatten(a)|, c)
  {
    if a == [] {
      assert a + b == b;
    } else {
      ConsAppend(a, b);
      CutsAppend(a[1..], b, base + |a[0]|, c);
    }
  }

  lemma {:induction false} NonEmptyAppend(a: seq<string>, b: seq<string>)
    ensures NonEmpty(a + b) <==> NonEmpty(a) && NonEmpty(b)
  {
    if a == [] {
      assert a + b == b;
    } else {
      ConsAppend(a, b);
      NonEmptyAppend(a[1..], b);
    }
  }

  lemma {:induction false} CutsRange(segs: seq<string>, base: nat, c: int)
    requires NonEmpty(segs)
    ensures IsCut(segs, base, c) ==> base < c <= base + |Flatten(segs)|
    ensures segs != [] ==> IsCut(segs, base, base + |Flatten(segs)|) && Flatten(segs) != ""
  {
    if segs != [] { CutsRange(segs[1..], base + |segs[0]|, c); }
  }

  /** The first segment ends at the first cut. */
  lemma FirstCut(a: seq<string>, b: seq<string>, base: nat)
    requires NonEmpty(a) && NonEmpty(b) && a != [] && b != []
    requires IsCut(b, base, base + |a[0]|)
    ensures |b[0]| <= |a[0]|
  {
    CutsRange(b[1..], base + |b[0]|, base + |a[0]|);
  }

  /** Segments are determined by the text and the places where it is cut: nothing else about the
      offsets, such as their order or repetition, can matter. */
  lemma {:induction false} CutsDetermine(a: seq<string>, b: seq<string>, base: nat)
    requires NonEmpty(a) && NonEmpty(b) && Flatten(a) == Flatten(b)
    requires forall c :: IsCut(a, base, c) <==> IsCut(b, base, c)
    ensures a == b
    decreases |a|
  {
    CutsRange(a, base, 0);
    CutsRange(b, base, 0);
    if a != [] {
      FirstCut(a, b, base);
      FirstCut(b, a, base);
      assert a[0] == Flatten(a)[..|a[0]|] == b[0];
      assert Flatten(a)[|a[0]|..] == Flatten(a[1..]) && Flatten(b)[|a[0]|..] == Flatten(b[1..]);
      var p := base + |a[0]|;
      forall c ensures IsCut(a[1..], p, c) <==> IsCut(b[1..], p, c) {
        CutsRange(a[1..], p, c);
        CutsRange(b[1..], p, c);
        assert IsCut(a, base, c) <==> IsCut(b, base, c);
      }
      CutsDetermine(a[1..], b[1..], p);
    }
  }

  // ----- the expected cuts -----

  /** An offset inside the text, or the end of it. */
  predicate TextCut(data: string, offsets: seq<int>, c: int) {
    0 < c <= |data| && (c in offsets || c == |data|)
  }

  /** A cut of the text, or the place before a line-end character there, which becomes a segment of its own. */
  predicate InputCut(data: string, offsets: seq<int>, c: int) {
    TextCut(data, offsets, c) || (0 < c < |data| && IsEol(data[c]) && TextCut(data, offsets, c + 1))
  }

  // ----- the procedure -----

  /** The built-in sort, by insertion. */
  function Insert(x: int, s: seq<int>): seq<int> {
    if s == [] || x <= s[0] then [x] + s else [s[0]] + Insert(x, s[1..])
  }

  function Sort(s: seq<int>): seq<int> {
    if s == [] then [] else Insert(s[0], Sort(s[1..]))
  }

  ghost predicate Ascending(s: seq<int>) { forall i, j :: 0 <= i < j < |s| ==> s[i] <= s[j] }

  lemma LeastFirst(x: int, s: seq<int>)
    requires Ascending(s) && forall y :: y in s ==> x <= y
    ensures Ascending([x] + s)
  {
    assert forall i :: 0 <= i < |s| ==> s[i] in s;
  }

  lemma {:induction false} InsertSorted(x: int, s: seq<int>)
    requires Ascending(s)
    ensures Ascending(Insert(x, s)) && forall y :: y in Insert(x, s) <==> y == x || y in s
  {
    if s != [] && x > s[0] {
      InsertSorted(x, s[1..]);
      var r := Insert(x, s[1..]);
      assert forall y :: y in s[1..] ==> s[0] <= y;
      assert forall y :: y in r ==> s[0] <= y;
      LeastFirst(s[0], r);
      assert s == [s[0]] + s[1..];
    }
  }

  lemma {:induction false} InsertKeeps(x: int, s: seq<int>)
    ensures multiset(Insert(x, s)) == multiset(s) + multiset{x}
  {
    if s != [] && x > s[0] {
      InsertKeeps(x, s[1..]);
      assert s == [s[0]] + s[1..];
    }
  }

  lemma {:induction false} SortKeeps(s: seq<int>)
    ensures multiset(Sort(s)) == multiset(s)
  {
    if s != [] {
      SortKeeps(s[1..]);
      InsertKeeps(s[0], Sort(s[1..]));
      assert s == [s[0]] + s[1..];
    }
  }

  lemma {:induction false} SortSorted(s: seq<int>)
    ensures Ascending(Sort(s)) && multiset(Sort(s)) == multiset(s)
    ensures forall y :: y in Sort(s) <==> y in s
  {
    SortKeeps(s);
    if s != [] {
      SortSorted(s[1..]);
      InsertSorted(s[0], Sort(s[1..]));
      assert s == [s[0]] + s[1..];
    }
  }

  /** The pieces up to prev, after the offsets os in ascending order. */
  ghost predicate CutSoFar(segs: seq<string>, data: string, os: seq<int>, prev: int) {
    && 0 <= prev <= |data| && (prev > 0 ==> prev in os)
    && NonEmpty(segs) && Flatten(segs) == data[..prev]
    && forall c :: IsCut(segs, 0, c) <==> 0 < c <= |data| && c in os
  }

  lemma Extend(segs: seq<string>, s: string, c: int)
    requires NonEmpty(segs) && s != ""
    ensures NonEmpty(segs + [s]) && Flatten(segs + [s]) == Flatten(segs) + s
    ensures IsCut(segs + [s], 0, c) <==> IsCut(segs, 0, c) || c == |Flatten(segs)| + |s|
  {
    FlattenAppend(segs, [s]);
    NonEmptyAppend(segs, [s]);
    CutsAppend(segs, [s], 0, c);
    assert [s][1..] == [] && Flatten([s]) == s;
  }

  lemma CutNext(segs: seq<string>, data: string, os: seq<int>, prev: int, off: int)
    requires CutSoFar(segs, data, os, prev) && prev < off <= |data|
    ensures CutSoFar(segs + [data[prev..off]], data, os + [off], off)
  {
    assert data[..prev] + data[prev..off] == data[..off];
    assert (os + [off])[|os|] == off;
    Extend(segs, data[prev..off], 0);
    forall c ensures IsCut(segs + [data[prev..off]], 0, c) <==> 0 < c <= |data| && c in os + [off] {
      Extend(segs, data[prev..off], c);
    }
  }

  lemma CutLast(segs: seq<string>, data: string, os: seq<int>, prev: int)
    requires CutSoFar(segs, data, os, prev)
    ensures var r := if prev < |data| then segs + [data[prev..]] else segs;
            Flatten(r) == data && NonEmpty(r) && forall c :: IsCut(r, 0, c) <==> TextCut(data, os, c)
  {
    if prev < |data| {
      assert data[..prev] + data[prev..] == data;
      Extend(segs, data[prev..], 0);
      forall c ensures IsCut(segs + [data[prev..]], 0, c) <==> TextCut(data, os, c) {
        Extend(segs, data[prev..], c);
      }
    } else {
      assert data[..prev] == data;
    }
  }

  /** The first loop: pieces between the offsets in ascending order, skipping those out of range or
      not ahead. */
  method CutAtOffsets(data: string, sorted: seq<int>) returns (segments: seq<string>)
    requires Ascending(sorted)
    ensures Flatten(segments) == data && NonEmpty(segments)
    ensures forall c :: IsCut(segments, 0, c) <==> TextCut(data, sorted, c)
  {
    segments := [];
    var prev, k := 0, 0;
    while k < |sorted|
      invariant 0 <= k <= |sorted| && CutSoFar(segments, data, sorted[..k], prev)
    {
      var off := sorted[k];
      assert sorted[..k + 1] == sorted[..k] + [off];
      if off <= prev || off > |data| {
        assert forall o :: o in sorted[..k] ==> o <= off;
        assert forall c :: 0 < c <= |data| ==> (c in sorted[..k] <==> c in sorted[..k + 1]);
      } else {
        CutNext(segments, data, sorted[..k], prev, off);
        segments := segments + [data[prev..off]];
        prev := off;
      }
      k := k + 1;
    }
    assert sorted[..k] == sorted;
    CutLast(segments, data, sorted, prev);
    if prev < |data| {
      segments := segments + [data[prev..]];
    }
  }

  /** What the second loop makes of one piece, without what is left empty. */
  function Pieces(seg: string): seq<string>
    requires seg != ""
  {
    var n := |seg| - 1;
    if IsEol(seg[n]) && n > 0 then [seg[..n], [seg[n]]] else [seg]
  }

  function Refined(segs: seq<string>): seq<string>
    requires NonEmpty(segs)
  {
    if segs == [] then [] else Pieces(segs[0]) + Refined(segs[1..])
  }

  /** The second loop. */
  method SeparateLineEnds(segments: seq<string>) returns (result: seq<string>)
    requires NonEmpty(segments)
    ensures result == Refined(segments)
  {
    result := [];
    var k := 0;
    while k < |segments|
      invariant 0 <= k <= |segments| && NonEmpty(segments[k..])
      invariant result + Refined(segments[k..]) == Refined(segments)
    {
      var seg := segments[k];
      assert segments[k..][0] == seg && segments[k..][1..] == segments[k + 1..];
      var last := seg[|seg| - 1];
      Regroup(result, Pieces(seg), Refined(segments[k + 1..]));
      if IsEol(last) {
        var parts := [seg[..|seg| - 1], [last]];
        assert |seg| == 1 ==> [last] == seg;
        result := result + if parts[0] == "" then parts[1..] else parts;
      } else {
        result := result + [seg];
      }
      k := k + 1;
    }
  }

  lemma PiecesOf(seg: string, base: nat, c: int)
    requires seg != ""
    ensures Flatten(Pieces(seg)) == seg && NonEmpty(Pieces(seg))
    ensures IsCut(Pieces(seg), base, c) <==>
            c == base + |seg| || (|seg| > 1 && IsEol(seg[|seg| - 1]) && c == base + |seg| - 1)
  {
    var n := |seg| - 1;
    if IsEol(seg[n]) && n > 0 {
      var p := Pieces(seg);
      var tail: seq<string> := [[seg[n]]];
      assert p[1..] == tail && tail[1..] == [] && Flatten(tail[1..]) == "";
      assert Flatten(tail) == [seg[n]] && seg[..n] + [seg[n]] == seg;
      assert NonEmpty(tail[1..]) && NonEmpty(tail) && !IsCut(tail[1..], base + n + 1, c);
    } else {
      assert [seg][1..] == [];
    }
  }

  lemma {:induction false} RefinedText(segs: seq<string>)
    requires NonEmpty(segs)
    ensures Flatten(Refined(segs)) == Flatten(segs) && NonEmpty(Refined(segs))
  {
    if segs != [] {
      RefinedText(segs[1..]);
      PiecesOf(segs[0], 0, 0);
      FlattenAppend(Pieces(segs[0]), Refined(segs[1..]));
      NonEmptyAppend(Pieces(segs[0]), Refined(segs[1..]));
    }
  }

  lemma FirstInText(segs: seq<string>, data: string, base: nat)
    requires NonEmpty(segs) && segs != [] && base <= |data| && data[base..] == Flatten(segs)
    ensures var p := base + |segs[0]|;
            p <= |data| && data[p..] == Flatten(segs[1..]) && data[p - 1] == segs[0][|segs[0]| - 1]
  {
    var seg := segs[0];
    assert data[base..] == seg + Flatten(segs[1..]);
    assert data[base + |seg|..] == data[base..][|seg|..];
    assert data[base + |seg| - 1] == data[base..][|seg| - 1];
  }

  /** Separating line ends adds just the cuts before them. */
  lemma {:induction false} RefinedCuts(segs: seq<string>, data: string, base: nat, c: int)
    requires NonEmpty(segs) && base <= |data| && data[base..] == Flatten(segs)
    ensures IsCut(Refined(segs), base, c) <==>
            IsCut(segs, base, c) || (base < c < |data| && IsEol(data[c]) && IsCut(segs, base, c + 1))
    decreases |segs|
  {
    if segs != [] {
      var rest, p := segs[1..], base + |segs[0]|;
      FirstInText(segs, data, base);
      PiecesOf(segs[0], base, c);
      CutsAppend(Pieces(segs[0]), Refined(rest), base, c);
      RefinedCuts(rest, data, p, c);
      CutsRange(rest, p, c);
      CutsRange(rest, p, c + 1);
    }
  }

  /** _split_by_offsets. The segments are not empty, concatenate to the input, and are cut exactly at
      the offsets inside it, whatever their order, and before the line-end characters at cuts. */
  method SplitByOffsets(data: string, offsets: seq<int>) returns (segments: seq<string>)
    ensures Flatten(segments) == data && NonEmpty(segments)
    ensures forall c :: IsCut(segments, 0, c) <==> InputCut(data, offsets, c)
  {
    SortSorted(offsets);
    var pieces := CutAtOffsets(data, Sort(offsets));
    segments := SeparateLineEnds(pieces);
    RefinedText(pieces);
    assert data[0..] == data;
    forall c ensures IsCut(segments, 0, c) <==> InputCut(data, offsets, c) {
      RefinedCuts(pieces, data, 0, c);
      assert IsCut(pieces, 0, c) <==> TextCut(data, offsets, c);
      assert IsCut(pieces, 0, c + 1) <==> TextCut(data, offsets, c + 1);
    }
  }

  // ----- writing -----

  datatype Action = Write(data: string) | Sleep

  function Written(actions: seq<Action>): string {
    if actions == [] then "" else (if actions[0].Write? then actions[0].data else "") + Written(actions[1..])
  }

  lemma {:induction false} WrittenAppend(a: seq<Action>, b: seq<Action>)
    ensures Written(a + b) == Written(a) + Written(b)
  {
    if a == [] {
      assert a + b == b;
    } else {
      ConsAppend(a, b);
      WrittenAppend(a[1..], b);
      Regroup(if a[0].Write? then a[0].data else "", Written(a[1..]), Written(b));
    }
  }

  /** The segments in order with one sleep between each two. */
  function Paced(segs: seq<string>): seq<Action> {
    if segs == [] then []
    else if |segs| == 1 then [Write(segs[0])]
    else Paced(segs[..|segs| - 1]) + [Sleep, Write(segs[|segs| - 1])]
  }

  /** Everything is written once and in order, and nothing else happens than writing the segments
      with a sleep between them. */
  lemma {:induction false} PacedWrites(segs: seq<string>)
    ensures Written(Paced(segs)) == Flatten(segs)
    ensures |Paced(segs)| == if segs == [] then 0 else 2 * |segs| - 1
    ensures forall k :: 0 <= k < |Paced(segs)| ==>
              Paced(segs)[k] == if k % 2 == 0 then Write(segs[k / 2]) else Sleep
    decreases |segs|
  {
    if segs != [] {
      var init, last := segs[..|segs| - 1], segs[|segs| - 1];
      assert segs == init + [last];
      FlattenAppend(init, [last]);
      OneWrite(last);
      if init != [] {
        PacedWrites(init);
        WrittenAppend(Paced(init), [Sleep, Write(last)]);
        assert [Sleep, Write(last)][1..] == [Write(last)];
      }
    }
  }

  lemma OneWrite(s: string)
    ensures Written([Write(s)]) == s && Flatten([s]) == s
  {
    assert [Write(s)][1..] == [] && [s][1..] == [];
  }

  /** write_input for text. */
  method WriteInput(data: string, offsets: seq<int>) returns (actions: seq<Action>, ghost segments: seq<string>)
    ensures Written(actions) == data
    ensures offsets == [] ==> actions == [Write(data)]
    ensures offsets != [] ==>
              && actions == Paced(segments) && Flatten(segments) == data && NonEmpty(segments)
              && forall c :: IsCut(segments, 0, c) <==> InputCut(data, offsets, c)
  {
    if offsets == [] {
      actions, segments := [Write(data)], [data];
      OneWrite(data);
      return;
    }
    var segs := SplitByOffsets(data, offsets);
    segments := segs;
    actions := [];
    var k := 0;
    while k < |segs|
      invariant 0 <= k <= |segs| && actions == Paced(segs[..k])
    {
      assert segs[..k + 1][..k] == segs[..k];
      if k > 0 {
        actions := actions + [Sleep];
      }
      actions := actions + [Write(segs[k])];
      k := k + 1;
    }
    assert segs[..k] == segs;
    PacedWrites(segs);
  }
}
