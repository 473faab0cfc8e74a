/** Unified-diff hunks (src/files/diff.py): grouping of SequenceMatcher opcodes with n lines of
    context, rendering, and the change counts. The opcodes are any list that tiles both sides. */
module Diff {
  import opened Common

  /** A line as splitlines(keepends=True) gives it; opcodes compare the text without the ending. */
  datatype Line = Line(text: string, ending: string)

  datatype Tag = Equal | Replace | Delete | Insert

  datatype Op = Op(tag: Tag, i1: nat, i2: nat, j1: nat, j2: nat)

  // ----- opcodes -----

  ghost predicate SameText(before: seq<Line>, after: seq<Line>, i: nat, i2: nat, j: nat) {
    && i <= i2 <= |before| && j + (i2 - i) <= |after|
    && forall k :: i <= k < i2 ==> before[k].text == after[k - i + j].text
  }

  ghost predicate ValidOp(op: Op, before: seq<Line>, after: seq<Line>) {
    && op.i1 <= op.i2 <= |before| && op.j1 <= op.j2 <= |after|
    && (op.tag.Equal? ==> op.i2 - op.i1 == op.j2 - op.j1 && SameText(before, after, op.i1, op.i2, op.j1))
    && (op.tag.Delete? ==> op.j1 == op.j2)
    && (op.tag.Insert? ==> op.i1 == op.i2)
  }

  ghost predicate AllValid(ops: seq<Op>, before: seq<Line>, after: seq<Line>) {
    ops == [] || (ValidOp(ops[0], before, after) && AllValid(ops[1..], before, after))
  }

  /** The operations lead from (i, j) to (i', j') without a gap. */
  ghost predicate Chain(ops: seq<Op>, i: nat, j: nat, i': nat, j': nat, before: seq<Line>, after: seq<Line>) {
    if ops == [] then i == i' && j == j'
    else ops[0].i1 == i && ops[0].j1 == j && ValidOp(ops[0], before, after)
         && Chain(ops[1..], ops[0].i2, ops[0].j2, i', j', before, after)
  }

  ghost predicate Tiles(ops: seq<Op>, before: seq<Line>, after: seq<Line>) {
    Chain(ops, 0, 0, |before|, |after|, before, after)
  }

  lemma {:induction false} ChainAppend(a: seq<Op>, b: seq<Op>, i: nat, j: nat, im: nat, jm: nat, i': nat, j': nat,
                                       before: seq<Line>, after: seq<Line>)
    requires Chain(a, i, j, im, jm, before, after) && Chain(b, im, jm, i', j', before, after)
    ensures Chain(a + b, i, j, i', j', before, after)
  {
    if a == [] {
      assert a + b == b;
    } else {
      ConsAppend(a, b);
      ChainAppend(a[1..], b, a[0].i2, a[0].j2, im, jm, i', j', before, after);
    }
  }

  lemma {:induction false} ChainForward(ops: seq<Op>, i: nat, j: nat, i': nat, j': nat,
                                        before: seq<Line>, after: seq<Line>)
    requires Chain(ops, i, j, i', j', before, after)
    ensures i <= i' && j <= j'
    ensures i <= |before| && j <= |after| ==> i' <= |before| && j' <= |after|
  {
    if ops != [] {
      ChainForward(ops[1..], ops[0].i2, ops[0].j2, i', j', before, after);
    }
  }

  // ----- grouping -----

  type Group = seq<Op>

  function Head(op: Op, n: nat): Op
    requires op.i1 + n <= op.i2
  {
    Op(op.tag, op.i1, op.i1 + n, op.j1, op.j1 + n)
  }

  function Tail(op: Op, n: nat): Op
    requires n <= op.i2 && n <= op.j2
  {
    Op(op.tag, op.i2 - n, op.i2, op.j2 - n, op.j2)
  }

  /** Only an equal run longer than both contexts together separates two groups. */
  predicate Separates(op: Op, n: nat) {
    op.tag.Equal? && op.i2 - op.i1 > 2 * n && op.j2 - op.j1 == op.i2 - op.i1
  }

  predicate HasChange(g: Group) { exists k :: 0 <= k < |g| && !g[k].tag.Equal? }

  function Close(cur: Group, op: Op, n: nat): seq<Group>
    requires Separates(op, n)
  {
    if cur == [] then [] else [cur + [Head(op, n)]]
  }

  function Reopen(op: Op, n: nat): Group
    requires Separates(op, n)
  {
    if n > 0 then [Tail(op, n)] else []
  }

  /** Every group still to come when cur is open. */
  function Split(ops: seq<Op>, cur: Group, n: nat): seq<Group>
    decreases |ops|
  {
    if ops == [] then if cur == [] then [] else [cur]
    else if Separates(ops[0], n) then Close(cur, ops[0], n) + Split(ops[1..], Reopen(ops[0], n), n)
    else Split(ops[1..], cur + [ops[0]], n)
  }

  function Changed(groups: seq<Group>): seq<Group> { Filter(HasChange, groups) }

  ghost predicate EqualLengths(ops: seq<Op>) {
    forall k :: 0 <= k < |ops| && ops[k].tag.Equal? ==> ops[k].j2 - ops[k].j1 == ops[k].i2 - ops[k].i1
  }

  /** _split_groups. */
  method SplitGroups(ops: seq<Op>, n: nat) returns (groups: seq<Group>)
    requires EqualLengths(ops)
    ensures groups == Changed(Split(ops, [], n))
  {
    var all: seq<Group>, cur: Group := [], [];
    var k := 0;
    while k < |ops|
      invariant 0 <= k <= |ops|
      invariant all + Split(ops[k..], cur, n) == Split(ops, [], n)
    {
      var op := ops[k];
      assert ops[k..][1..] == ops[k + 1..] && ops[k..][0] == op;
      if op.tag.Equal? && op.i2 - op.i1 > 2 * n {
        Regroup(all, Close(cur, op, n), Split(ops[k + 1..], Reopen(op, n), n));
        if cur != [] {
          all := all + [cur + [Op(op.tag, op.i1, op.i1 + n, op.j1, op.j1 + n)]];
          cur := [];
        }
        if n > 0 {
          cur := [Op(op.tag, op.i2 - n, op.i2, op.j2 - n, op.j2)];
        }
      } else {
        cur := cur + [op];
      }
      k := k + 1;
    }
    assert ops[k..] == [];
    if cur != [] {
      all := all + [cur];
    }
    assert all == Split(ops, [], n);
    groups := KeepChanged(all);
  }

  method KeepChanged(all: seq<Group>) returns (groups: seq<Group>)
    ensures groups == Changed(all)
  {
    groups := [];
    var k := 0;
    while k < |all|
      invariant 0 <= k <= |all| && groups == Changed(all[..k])
    {
      assert all[..k + 1] == all[..k] + [all[k]];
      FilterAppend(HasChange, all[..k], [all[k]]);
      if HasChange(all[k]) {
        groups := groups + [all[k]];
      }
      k := k + 1;
    }
    assert all[..k] == all;
  }

  // ----- the groups cover every change once -----

  lemma {:induction false} ChainEqualLengths(ops: seq<Op>, i: nat, j: nat, i': nat, j': nat,
                                             before: seq<Line>, after: seq<Line>)
    requires Chain(ops, i, j, i', j', before, after)
    ensures EqualLengths(ops)
  {
    if ops != [] {
      ChainEqualLengths(ops[1..], ops[0].i2, ops[0].j2, i', j', before, after);
      assert forall k :: 1 <= k < |ops| ==> ops[k] == ops[1..][k - 1];
    }
  }

  /** Groups, in order and apart, from (i, j) to the ends; the lines between them agree in text. */
  ghost predicate Linked(groups: seq<Group>, i: nat, j: nat, before: seq<Line>, after: seq<Line>)
    decreases |groups|
  {
    if groups == [] then |after| == j + |before| - i && SameText(before, after, i, |before|, j)
    else
      var g := groups[0];
      && g != [] && i <= g[0].i1 && g[0].j1 == j + (g[0].i1 - i) && SameText(before, after, i, g[0].i1, j)
      && Chain(g, g[0].i1, g[0].j1, Last(g).i2, Last(g).j2, before, after)
      && Linked(groups[1..], Last(g).i2, Last(g).j2, before, after)
  }

  function Last(g: Group): Op
    requires g != []
  {
    g[|g| - 1]
  }

  lemma {:induction false} ChainEnd(g: Group, i: nat, j: nat, i': nat, j': nat, before: seq<Line>, after: seq<Line>)
    requires g != [] && Chain(g, i, j, i', j', before, after)
    ensures i' == Last(g).i2 && j' == Last(g).j2
    ensures AllValid(g, before, after)
  {
    if |g| > 1 {
      ChainEnd(g[1..], g[0].i2, g[0].j2, i', j', before, after);
    }
  }

  lemma SameTextJoin(before: seq<Line>, after: seq<Line>, i: nat, im: nat, i2: nat, j: nat)
    requires SameText(before, after, i, im, j) && SameText(before, after, im, i2, j + (im - i))
    ensures SameText(before, after, i, i2, j)
  {}

  /** (gi, gj) is where the last closed group ended; after a gap without changes cur runs up to
      (i, j). */
  ghost predicate Open(cur: Group, gi: nat, gj: nat, i: nat, j: nat, before: seq<Line>, after: seq<Line>) {
    if cur == [] then gi <= i && j == gj + (i - gi) && SameText(before, after, gi, i, gj)
    else gi <= cur[0].i1 && cur[0].j1 == gj + (cur[0].i1 - gi) && SameText(before, after, gi, cur[0].i1, gj)
         && Chain(cur, cur[0].i1, cur[0].j1, i, j, before, after)
  }

  lemma OpenExtend(cur: Group, op: Op, gi: nat, gj: nat, before: seq<Line>, after: seq<Line>)
    requires Open(cur, gi, gj, op.i1, op.j1, before, after) && ValidOp(op, before, after)
    ensures Open(cur + [op], gi, gj, op.i2, op.j2, before, after)
  {
    assert [op][1..] == [];
    if cur != [] {
      ChainAppend(cur, [op], cur[0].i1, cur[0].j1, op.i1, op.j1, op.i2, op.j2, before, after);
    } else {
      assert cur + [op] == [op];
    }
  }

  lemma OpenAfterSeparator(op: Op, n: nat, hi: nat, hj: nat, before: seq<Line>, after: seq<Line>)
    requires Separates(op, n) && ValidOp(op, before, after)
    requires hi <= op.i1 + n && SameText(before, after, hi, op.i1 + n, hj) && op.j1 + n == hj + (op.i1 + n - hi)
    ensures Open(Reopen(op, n), hi, hj, op.i2, op.j2, before, after)
  {
    SameTextJoin(before, after, hi, op.i1 + n, op.i2 - n, hj);
    SameTextJoin(before, after, hi, op.i1 + n, op.i2, hj);
    if n > 0 { assert [Tail(op, n)][1..] == []; }
  }

  lemma LinkClosed(g: Group, groups: seq<Group>, gi: nat, gj: nat, i: nat, j: nat, before: seq<Line>, after: seq<Line>)
    requires g != [] && Open(g, gi, gj, i, j, before, after) && Linked(groups, i, j, before, after)
    ensures Linked([g] + groups, gi, gj, before, after)
  {
    ChainEnd(g, g[0].i1, g[0].j1, i, j, before, after);
    assert ([g] + groups)[1..] == groups;
  }

  /** Where the group open at a separator ends, or the gap if none is open. */
  function Closed(cur: Group, g: nat, at: nat, n: nat): nat { if cur == [] then g else at + n }

  lemma SeparatorOpens(cur: Group, op: Op, n: nat, gi: nat, gj: nat, before: seq<Line>, after: seq<Line>)
    requires Separates(op, n) && ValidOp(op, before, after)
    requires Open(cur, gi, gj, op.i1, op.j1, before, after)
    ensures Open(Reopen(op, n), Closed(cur, gi, op.i1, n), Closed(cur, gj, op.j1, n), op.i2, op.j2, before, after)
  {
    if cur == [] {
      SameTextJoin(before, after, gi, op.i1, op.i1 + n, gj);
    }
    OpenAfterSeparator(op, n, Closed(cur, gi, op.i1, n), Closed(cur, gj, op.j1, n), before, after);
  }

  lemma HeadOpens(cur: Group, op: Op, n: nat, gi: nat, gj: nat, before: seq<Line>, after: seq<Line>)
    requires Separates(op, n) && ValidOp(op, before, after) && Open(cur, gi, gj, op.i1, op.j1, before, after)
    ensures Open(cur + [Head(op, n)], gi, gj, op.i1 + n, op.j1 + n, before, after)
  {
    assert ValidOp(Head(op, n), before, after);
    OpenExtend(cur, Head(op, n), gi, gj, before, after);
  }

  lemma SeparatorLinks(cur: Group, op: Op, n: nat, gi: nat, gj: nat, later: seq<Group>,
                       before: seq<Line>, after: seq<Line>)
    requires Separates(op, n) && ValidOp(op, before, after)
    requires Open(cur, gi, gj, op.i1, op.j1, before, after)
    requires Linked(later, Closed(cur, gi, op.i1, n), Closed(cur, gj, op.j1, n), before, after)
    ensures Linked(Close(cur, op, n) + later, gi, gj, before, after)
  {
    if cur == [] {
      assert Close(cur, op, n) + later == later;
    } else {
      HeadOpens(cur, op, n, gi, gj, before, after);
      CloseLinks(cur, op, n, gi, gj, op.i1 + n, op.j1 + n, later, before, after);
    }
  }

  lemma CloseLinks(cur: Group, op: Op, n: nat, gi: nat, gj: nat, hi: nat, hj: nat, later: seq<Group>,
                   before: seq<Line>, after: seq<Line>)
    requires cur != [] && Separates(op, n) && Open(cur + [Head(op, n)], gi, gj, hi, hj, before, after)
    requires Linked(later, hi, hj, before, after)
    ensures Linked(Close(cur, op, n) + later, gi, gj, before, after)
  {
    LinkClosed(cur + [Head(op, n)], later, gi, gj, hi, hj, before, after);
  }

  /** Splitting never loses the thread: whatever is open, the groups to come link up to the end. */
  lemma {:induction false} SplitLinked(ops: seq<Op>, cur: Group, n: nat, gi: nat, gj: nat, i: nat, j: nat,
                                       before: seq<Line>, after: seq<Line>)
    requires Chain(ops, i, j, |before|, |after|, before, after)
    requires Open(cur, gi, gj, i, j, before, after)
    ensures Linked(Split(ops, cur, n), gi, gj, before, after)
    decreases |ops|
  {
    if ops == [] {
      if cur != [] { LinkClosed(cur, [], gi, gj, i, j, before, after); }
    } else {
      var op, rest := ops[0], ops[1..];
      if Separates(op, n) {
        SeparatorOpens(cur, op, n, gi, gj, before, after);
        SplitLinked(rest, Reopen(op, n), n, Closed(cur, gi, i, n), Closed(cur, gj, j, n), op.i2, op.j2, before, after);
        SeparatorLinks(cur, op, n, gi, gj, Split(rest, Reopen(op, n), n), before, after);
      } else {
        OpenExtend(cur, op, gi, gj, before, after);
        SplitLinked(rest, cur + [op], n, gi, gj, op.i2, op.j2, before, after);
      }
    }
  }

  /** A group of equal runs only is itself a gap without changes. */
  lemma {:induction false} UnchangedGroup(g: Group, i: nat, j: nat, i': nat, j': nat,
                                          before: seq<Line>, after: seq<Line>)
    requires Chain(g, i, j, i', j', before, after) && !HasChange(g)
    requires i <= |before| && j <= |after|
    ensures i <= i' && j' == j + (i' - i) && SameText(before, after, i, i', j)
  {
    if g != [] {
      assert forall k :: 0 <= k < |g[1..]| ==> g[1..][k] == g[k + 1];
      UnchangedGroup(g[1..], g[0].i2, g[0].j2, i', j', before, after);
    }
  }

  lemma {:induction false} ChangedLinked(groups: seq<Group>, i0: nat, j0: nat, i: nat, j: nat,
                                         before: seq<Line>, after: seq<Line>)
    requires Linked(groups, i, j, before, after)
    requires i0 <= i && j == j0 + (i - i0) && SameText(before, after, i0, i, j0)
    ensures Linked(Changed(groups), i0, j0, before, after)
    decreases |groups|
  {
    if groups == [] {
      SameTextJoin(before, after, i0, i, |before|, j0);
    } else {
      var g := groups[0];
      SameTextJoin(before, after, i0, i, g[0].i1, j0);
      if HasChange(g) {
        ChangedLinked(groups[1..], Last(g).i2, Last(g).j2, Last(g).i2, Last(g).j2, before, after);
        assert Changed(groups)[1..] == Changed(groups[1..]);
      } else {
        UnchangedGroup(g, g[0].i1, g[0].j1, Last(g).i2, Last(g).j2, before, after);
        SameTextJoin(before, after, i0, g[0].i1, Last(g).i2, j0);
        ChangedLinked(groups[1..], i0, j0, Last(g).i2, Last(g).j2, before, after);
        assert Changed(groups) == Changed(groups[1..]);
      }
    }
  }

  predicate IsChange(op: Op) { !op.tag.Equal? }

  function Changes(ops: seq<Op>): seq<Op> { Filter(IsChange, ops) }

  lemma SeparatorHasNoChange(op: Op, n: nat, cur: Group)
    requires Separates(op, n)
    ensures Changes(Reopen(op, n)) == []
    ensures Changes(Flatten(Close(cur, op, n))) == Changes(cur)
  {
    if n > 0 { assert [Tail(op, n)][1..] == []; }
    if cur != [] {
      var head := [Head(op, n)];
      assert head[1..] == [] && !IsChange(head[0]);
      assert Changes(head[1..]) == [];
      FilterAppend(IsChange, cur, head);
      assert [cur + head][1..] == [] && Flatten([cur + head]) == cur + head;
    }
  }

  lemma {:induction false} SplitChanges(ops: seq<Op>, cur: Group, n: nat)
    ensures Changes(Flatten(Split(ops, cur, n))) == Changes(cur) + Changes(ops)
    decreases |ops|
  {
    if ops == [] {
      if cur != [] { assert Flatten([cur]) == cur; }
    } else if Separates(ops[0], n) {
      var later := Split(ops[1..], Reopen(ops[0], n), n);
      SplitChanges(ops[1..], Reopen(ops[0], n), n);
      FlattenAppend(Close(cur, ops[0], n), later);
      FilterAppend(IsChange, Flatten(Close(cur, ops[0], n)), Flatten(later));
      SeparatorHasNoChange(ops[0], n, cur);
    } else {
      SplitChanges(ops[1..], cur + [ops[0]], n);
      FilterAppend(IsChange, cur, [ops[0]]);
      assert ops == [ops[0]] + ops[1..];
      FilterAppend(IsChange, [ops[0]], ops[1..]);
    }
  }

  lemma {:induction false} NoChanges(g: Group)
    ensures HasChange(g) <==> Changes(g) != []
  {
    if g != [] {
      NoChanges(g[1..]);
      if !g[0].tag.Equal? {
        assert HasChange(g);
      } else if HasChange(g) {
        var k :| 0 <= k < |g| && !g[k].tag.Equal?;
        assert g[1..][k - 1] == g[k];
      } else {
        assert forall k :: 0 <= k < |g[1..]| ==> g[1..][k] == g[k + 1];
      }
    }
  }

  lemma {:induction false} ChangedChanges(groups: seq<Group>)
    ensures Changes(Flatten(Changed(groups))) == Changes(Flatten(groups))
  {
    if groups != [] {
      ChangedChanges(groups[1..]);
      NoChanges(groups[0]);
      FilterAppend(IsChange, groups[0], Flatten(groups[1..]));
      if HasChange(groups[0]) {
        assert Changed(groups) == [groups[0]] + Changed(groups[1..]);
        FilterAppend(IsChange, groups[0], Flatten(Changed(groups[1..])));
      } else {
        assert Changed(groups) == Changed(groups[1..]);
      }
    }
  }

  /** The groups are in order, apart, link up from start to end, and hold every change exactly once
      and in order. */
  lemma GroupsCover(ops: seq<Op>, n: nat, before: seq<Line>, after: seq<Line>)
    requires Tiles(ops, before, after)
    ensures Linked(Changed(Split(ops, [], n)), 0, 0, before, after)
    ensures Changes(Flatten(Changed(Split(ops, [], n)))) == Changes(ops)
  {
    SplitLinked(ops, [], n, 0, 0, 0, 0, before, after);
    ChangedLinked(Split(ops, [], n), 0, 0, 0, 0, before, after);
    SplitChanges(ops, [], n);
    ChangedChanges(Split(ops, [], n));
  }

  /** No equal run inside a group is longer than 2n lines. */
  ghost predicate ShortEquals(g: Group, n: nat) {
    forall k :: 0 <= k < |g| && g[k].tag.Equal? ==> g[k].i2 - g[k].i1 <= 2 * n
  }

  /** Every equal run in a group is at most 2n lines long: a longer one separates. */
  lemma {:induction false} SplitContext(ops: seq<Op>, cur: Group, n: nat)
    requires EqualLengths(ops)
    requires ShortEquals(cur, n)
    ensures forall k :: 0 <= k < |Split(ops, cur, n)| ==> ShortEquals(Split(ops, cur, n)[k], n)
    decreases |ops|
  {
    if ops != [] {
      if Separates(ops[0], n) {
        SplitContext(ops[1..], Reopen(ops[0], n), n);
      } else {
        SplitContext(ops[1..], cur + [ops[0]], n);
      }
    }
  }

  function Length(op: Op): int { op.i2 - op.i1 }

  /** The context lines before the first change of a group, and after its last one. */
  function Lead(g: Group): int { if g == [] || !g[0].tag.Equal? then 0 else Length(g[0]) + Lead(g[1..]) }

  function Trail(g: Group): int {
    if g == [] || !Last(g).tag.Equal? then 0 else Length(Last(g)) + Trail(g[..|g| - 1])
  }

  /** SequenceMatcher joins neighbouring equal runs. */
  ghost predicate NoAdjacentEquals(ops: seq<Op>) {
    forall k :: 0 <= k < |ops| - 1 ==> !(ops[k].tag.Equal? && ops[k + 1].tag.Equal?)
  }

  /** Longer than the context it should give, but too short to be cut. */
  predicate MidRun(op: Op, n: nat) { op.tag.Equal? && n < Length(op) <= 2 * n }

  ghost predicate LeadsWithin(groups: seq<Group>, n: nat) {
    forall k :: 0 <= k < |groups| && HasChange(groups[k]) ==> Lead(groups[k]) <= n
  }

  ghost predicate TrailsWithin(groups: seq<Group>, n: nat) {
    forall k :: 0 <= k < |groups| && HasChange(groups[k]) ==> Trail(groups[k]) <= n
  }

  /** What an open group is at a point of the run: nothing, one equal run, or something with a change. */
  ghost predicate Opened(cur: Group) { cur == [] || HasChange(cur) || (|cur| == 1 && cur[0].tag.Equal?) }

  /** No two equal runs meet where the open group goes on. */
  ghost predicate Continues(cur: Group, ops: seq<Op>) {
    cur != [] && ops != [] ==> !(Last(cur).tag.Equal? && ops[0].tag.Equal?)
  }

  lemma {:induction false} LeadAppend(g: Group, op: Op)
    ensures Lead(g + [op]) == if HasChange(g) then Lead(g) else Lead(g) + if op.tag.Equal? then Length(op) else 0
    ensures HasChange(g + [op]) <==> HasChange(g) || !op.tag.Equal?
  {
    assert (g + [op])[|g|] == op;
    if HasChange(g) {
      var k :| 0 <= k < |g| && !g[k].tag.Equal?;
      assert (g + [op])[k] == g[k];
    }
    if g == [] {
      assert g + [op] == [op] && [op][1..] == [];
    } else {
      assert (g + [op])[1..] == g[1..] + [op];
      LeadAppend(g[1..], op);
      HasChangeRest(g);
    }
  }

  lemma HasChangeRest(g: Group)
    requires g != []
    ensures HasChange(g) <==> !g[0].tag.Equal? || HasChange(g[1..])
  {
    if HasChange(g) && g[0].tag.Equal? {
      var k :| 0 <= k < |g| && !g[k].tag.Equal?;
      assert g[1..][k - 1] == g[k];
    }
    if k :| 0 <= k < |g[1..]| && !g[1..][k].tag.Equal? {
      assert g[k + 1] == g[1..][k];
    }
  }

  lemma TrailAppend(g: Group, op: Op)
    ensures Trail(g + [op]) == if op.tag.Equal? then Length(op) + Trail(g) else 0
  {
    assert (g + [op])[..|g|] == g;
  }

  lemma WithinCons(g: Group, groups: seq<Group>, n: nat)
    ensures LeadsWithin([g] + groups, n) <==> (HasChange(g) ==> Lead(g) <= n) && LeadsWithin(groups, n)
    ensures TrailsWithin([g] + groups, n) <==> (HasChange(g) ==> Trail(g) <= n) && TrailsWithin(groups, n)
  {
    var all := [g] + groups;
    assert all[0] == g && forall k :: 0 <= k < |groups| ==> all[k + 1] == groups[k];
  }

  lemma WithinNone(n: nat)
    ensures LeadsWithin([], n) && TrailsWithin([], n)
  {}

  /** When the leading context of all groups to come, the open one included, is within n. */
  ghost predicate LeadExpected(ops: seq<Op>, cur: Group, n: nat) {
    if HasChange(cur) then Lead(cur) <= n
    else if ops == [] then true
    else if cur != [] then Lead(cur) <= n
    else |ops| == 1 || !MidRun(ops[0], n)
  }

  lemma {:induction false} LeadSplit(ops: seq<Op>, cur: Group, n: nat)
    requires EqualLengths(ops) && NoAdjacentEquals(ops) && Opened(cur) && Continues(cur, ops)
    ensures LeadsWithin(Split(ops, cur, n), n) <==> LeadExpected(ops, cur, n)
    decreases |ops|
  {
    WithinNone(n);
    if ops == [] {
      if cur != [] { WithinCons(cur, [], n); }
    } else {
      var op, rest := ops[0], ops[1..];
      RestEquals(ops);
      if Separates(op, n) {
        ReopenOpens(op, rest, n);
        LeadSplit(rest, Reopen(op, n), n);
        if cur == [] {
          assert Close(cur, op, n) + Split(rest, Reopen(op, n), n) == Split(rest, Reopen(op, n), n);
        } else {
          LeadAppend(cur, Head(op, n));
          WithinCons(cur + [Head(op, n)], Split(rest, Reopen(op, n), n), n);
        }
      } else {
        LeadAppend(cur, op);
        LeadSplit(rest, cur + [op], n);
      }
    }
  }

  lemma RestEquals(ops: seq<Op>)
    requires EqualLengths(ops) && NoAdjacentEquals(ops) && ops != []
    ensures EqualLengths(ops[1..]) && NoAdjacentEquals(ops[1..]) && Continues([ops[0]], ops[1..])
  {
    assert forall k :: 0 <= k < |ops[1..]| ==> ops[1..][k] == ops[k + 1];
  }

  lemma ReopenOpens(op: Op, rest: seq<Op>, n: nat)
    requires Separates(op, n) && Continues([op], rest)
    ensures var cur := Reopen(op, n);
            && Opened(cur) && Continues(cur, rest) && !HasChange(cur)
            && Lead(cur) == Trail(cur) == (if cur == [] then 0 else n)
            && LeadExpected(rest, cur, n)
  {
    if n > 0 {
      assert [Tail(op, n)][1..] == [] && [Tail(op, n)][..0] == [];
    }
  }

  /** When the trailing context of all groups to come, the open one included, is within n. */
  ghost predicate TrailExpected(ops: seq<Op>, cur: Group, n: nat) {
    if ops == [] then HasChange(cur) ==> Trail(cur) <= n
    else (|ops| == 1 && cur == []) || !MidRun(Last(ops), n)
  }

  lemma {:induction false} TrailSplit(ops: seq<Op>, cur: Group, n: nat)
    requires EqualLengths(ops) && NoAdjacentEquals(ops) && Opened(cur) && Continues(cur, ops)
    ensures TrailsWithin(Split(ops, cur, n), n) <==> TrailExpected(ops, cur, n)
    decreases |ops|
  {
    WithinNone(n);
    if ops == [] {
      if cur != [] { WithinCons(cur, [], n); }
    } else {
      var op, rest := ops[0], ops[1..];
      RestEquals(ops);
      if Separates(op, n) {
        ReopenOpens(op, rest, n);
        TrailSplit(rest, Reopen(op, n), n);
        if cur == [] {
          assert Close(cur, op, n) + Split(rest, Reopen(op, n), n) == Split(rest, Reopen(op, n), n);
        } else {
          TrailAppend(cur, Head(op, n));
          WithinCons(cur + [Head(op, n)], Split(rest, Reopen(op, n), n), n);
        }
      } else {
        LeadAppend(cur, op);
        TrailAppend(cur, op);
        TrailSplit(rest, cur + [op], n);
      }
    }
  }

  /** Every hunk has at most n lines of context before its first change and after its last one. */
  ghost predicate ContextWithin(hunks: seq<Group>, n: nat) {
    forall g :: g in hunks ==> Lead(g) <= n && Trail(g) <= n
  }

  lemma WithinChanged(groups: seq<Group>, n: nat)
    ensures ContextWithin(Changed(groups), n) <==> LeadsWithin(groups, n) && TrailsWithin(groups, n)
  {
    forall g ensures g in Changed(groups) <==> g in groups && HasChange(g) {
      FilterMember(HasChange, groups, g);
    }
    if ContextWithin(Changed(groups), n) {
      forall k | 0 <= k < |groups| && HasChange(groups[k]) ensures Lead(groups[k]) <= n && Trail(groups[k]) <= n {
        assert groups[k] in Changed(groups);
      }
    }
  }

  /** Main result on context: the n lines are kept to exactly when the file neither starts nor ends, around
      its changes, with an unchanged stretch of more than n and at most 2n lines. */
  lemma ContextExact(ops: seq<Op>, n: nat)
    requires EqualLengths(ops) && NoAdjacentEquals(ops) && HasChange(ops)
    ensures ContextWithin(Changed(Split(ops, [], n)), n) <==> !MidRun(ops[0], n) && !MidRun(Last(ops), n)
  {
    LeadSplit(ops, [], n);
    TrailSplit(ops, [], n);
    WithinChanged(Split(ops, [], n), n);
  }

  /** An unchanged stretch of 2n lines at either end of the file stays in the hunk whole. */
  lemma ContextReachesTwice(n: nat)
    ensures var run, change := Op(Equal, 0, 2 * n, 0, 2 * n), Op(Replace, 2 * n, 2 * n + 1, 2 * n, 2 * n + 1);
            Changed(Split([run, change], [], n)) == [[run, change]]
    ensures var change, run := Op(Replace, 0, 1, 0, 1), Op(Equal, 1, 2 * n + 1, 1, 2 * n + 1);
            Changed(Split([change, run], [], n)) == [[change, run]]
  {
    TwoOps(Op(Equal, 0, 2 * n, 0, 2 * n), Op(Replace, 2 * n, 2 * n + 1, 2 * n, 2 * n + 1), n);
    TwoOps(Op(Replace, 0, 1, 0, 1), Op(Equal, 1, 2 * n + 1, 1, 2 * n + 1), n);
  }

  lemma TwoOps(a: Op, b: Op, n: nat)
    requires !Separates(a, n) && !Separates(b, n) && !(a.tag.Equal? && b.tag.Equal?)
    ensures Changed(Split([a, b], [], n)) == [[a, b]]
  {
    var ops: Group := [a, b];
    assert ops[1..] == [b] && [b][1..] == [] && [] + [a] == [a] && [a] + [b] == ops;
    assert Split(ops, [], n) == Split([b], [a], n) == Split([], ops, n) == [ops];
    assert ops[0] == a && ops[1] == b;
    assert HasChange(ops);
    var groups: seq<Group> := [ops];
    assert groups[1..] == [];
    assert Filter(HasChange, groups[1..]) == [];
    assert Changed(groups) == groups + [];
  }

  // ----- rendering -----

  datatype Mark = Kept | Removed | Added

  datatype DiffLine = DiffLine(mark: Mark, line: Line)

  /** "first" or "first,count" of a hunk header. */
  datatype Range = Single(first: nat) | Span(first: nat, count: nat)

  datatype Hunk = Hunk(beforeRange: Range, afterRange: Range, body: seq<DiffLine>)

  /** _format_range_unified. */
  function FormatRange(start: nat, stop: nat): Range
    requires start <= stop
  {
    if stop - start == 1 then Single(start + 1)
    else if stop == start then Span(start, 0)
    else Span(start + 1, stop - start)
  }

  /** What a reader of the header makes of it: lines to skip from the top, and line count. */
  function ParseRange(r: Range): (int, nat) {
    match r
    case Single(first) => (first - 1, 1)
    case Span(first, count) => (if count == 0 then first else first - 1, count)
  }

  /** The header says what it was made from. */
  lemma RangeRoundTrip(start: nat, stop: nat)
    requires start <= stop
    ensures ParseRange(FormatRange(start, stop)) == (start, stop - start)
  {}

  function Marked(mark: Mark, lines: seq<Line>): seq<DiffLine> {
    seq(|lines|, k requires 0 <= k < |lines| => DiffLine(mark, lines[k]))
  }

  /** Lines equal in text but not in ending are shown as removed and added. */
  function Pair(b: Line, a: Line): seq<DiffLine> {
    if b != a then [DiffLine(Removed, b), DiffLine(Added, a)] else [DiffLine(Kept, b)]
  }

  function EqualBody(before: seq<Line>, after: seq<Line>): seq<DiffLine>
    requires |before| == |after|
  {
    if before == [] then [] else Pair(before[0], after[0]) + EqualBody(before[1..], after[1..])
  }

  function OpBody(op: Op, before: seq<Line>, after: seq<Line>): seq<DiffLine>
    requires ValidOp(op, before, after)
  {
    var was, now := before[op.i1..op.i2], after[op.j1..op.j2];
    if op.tag.Equal? then EqualBody(was, now)
    else (if op.tag.Insert? then [] else Marked(Removed, was)) + (if op.tag.Delete? then [] else Marked(Added, now))
  }

  function Body(g: Group, before: seq<Line>, after: seq<Line>): seq<DiffLine>
    requires AllValid(g, before, after)
  {
    if g == [] then [] else OpBody(g[0], before, after) + Body(g[1..], before, after)
  }

  ghost predicate Renderable(g: Group, before: seq<Line>, after: seq<Line>) {
    && g != [] && g[0].i1 <= Last(g).i2 <= |before| && g[0].j1 <= Last(g).j2 <= |after|
    && AllValid(g, before, after)
  }

  ghost predicate AllRenderable(groups: seq<Group>, before: seq<Line>, after: seq<Line>) {
    groups == [] || (Renderable(groups[0], before, after) && AllRenderable(groups[1..], before, after))
  }

  function HunkOf(g: Group, before: seq<Line>, after: seq<Line>): Hunk
    requires Renderable(g, before, after)
  {
    Hunk(FormatRange(g[0].i1, Last(g).i2), FormatRange(g[0].j1, Last(g).j2), Body(g, before, after))
  }

  function Hunks(groups: seq<Group>, before: seq<Line>, after: seq<Line>): seq<Hunk>
    requires AllRenderable(groups, before, after)
  {
    if groups == [] then [] else [HunkOf(groups[0], before, after)] + Hunks(groups[1..], before, after)
  }

  lemma {:induction false} LinkedRenderable(groups: seq<Group>, i: nat, j: nat, before: seq<Line>, after: seq<Line>)
    requires Linked(groups, i, j, before, after)
    ensures AllRenderable(groups, before, after)
    decreases |groups|
  {
    if groups != [] {
      var g := groups[0];
      ChainEnd(g, g[0].i1, g[0].j1, Last(g).i2, Last(g).j2, before, after);
      ChainForward(g, g[0].i1, g[0].j1, Last(g).i2, Last(g).j2, before, after);
      LinkedRenderable(groups[1..], Last(g).i2, Last(g).j2, before, after);
    }
  }

  // ----- applying a diff, independently of how it was made -----

  datatype Applied = Applied(pos: nat, out: seq<Line>)

  /** Applies the body of a hunk at pos; fails when a kept or removed line is not there. */
  function ApplyBody(body: seq<DiffLine>, lines: seq<Line>, pos: nat): Option<Applied> {
    if body == [] then Some(Applied(pos, []))
    else if body[0].mark.Added? then
      match ApplyBody(body[1..], lines, pos)
      case None => None
      case Some(r) => Some(Applied(r.pos, [body[0].line] + r.out))
    else if pos < |lines| && lines[pos] == body[0].line then
      match ApplyBody(body[1..], lines, pos + 1)
      case None => None
      case Some(r) => Some(Applied(r.pos, if body[0].mark.Kept? then [body[0].line] + r.out else r.out))
    else None
  }

  ghost predicate Gives(body: seq<DiffLine>, lines: seq<Line>, pos: nat, end: nat, out: seq<Line>) {
    var r := ApplyBody(body, lines, pos);
    r.Some? && r.value.pos == end && r.value.out == out
  }

  /** Applies hunks to lines[pos..] when made lines have been produced so far; the positions and
      counts in the headers must be right. */
  function Patch(lines: seq<Line>, hunks: seq<Hunk>, pos: nat, made: nat): Option<seq<Line>>
    requires pos <= |lines|
    decreases |hunks|
  {
    if hunks == [] then Some(lines[pos..])
    else
      var (start, count) := ParseRange(hunks[0].beforeRange);
      var (start', count') := ParseRange(hunks[0].afterRange);
      if !(pos <= start <= |lines|) || start' != made + (start - pos) then None
      else
        match ApplyBody(hunks[0].body, lines, start)
        case None => None
        case Some(r) =>
          if r.pos != start + count || |r.out| != count' || r.pos > |lines| then None
          else match Patch(lines, hunks[1..], r.pos, start' + count')
            case None => None
            case Some(rest) => Some(lines[pos..start] + r.out + rest)
  }

  lemma {:induction false} ApplyAppend(a: seq<DiffLine>, b: seq<DiffLine>, lines: seq<Line>, pos: nat,
                                       mid: nat, end: nat, out: seq<Line>, out': seq<Line>)
    requires Gives(a, lines, pos, mid, out) && Gives(b, lines, mid, end, out')
    ensures Gives(a + b, lines, pos, end, out + out')
  {
    if a == [] {
      assert a + b == b;
    } else {
      ConsAppend(a, b);
      var pos' := if a[0].mark.Added? then pos else pos + 1;
      ApplyAppend(a[1..], b, lines, pos', mid, end, ApplyBody(a[1..], lines, pos').value.out, out');
    }
  }

  lemma {:induction false} RemovedApplies(part: seq<Line>, lines: seq<Line>, pos: nat)
    requires pos + |part| <= |lines| && lines[pos..pos + |part|] == part
    ensures Gives(Marked(Removed, part), lines, pos, pos + |part|, [])
  {
    if part != [] {
      assert Marked(Removed, part)[1..] == Marked(Removed, part[1..]);
      assert lines[pos + 1..pos + |part|] == part[1..] && lines[pos] == part[0];
      RemovedApplies(part[1..], lines, pos + 1);
    }
  }

  lemma {:induction false} AddedApplies(part: seq<Line>, lines: seq<Line>, pos: nat)
    ensures Gives(Marked(Added, part), lines, pos, pos, part)
  {
    if part != [] {
      assert Marked(Added, part)[1..] == Marked(Added, part[1..]);
      AddedApplies(part[1..], lines, pos);
    }
  }

  lemma PairApplies(b: Line, a: Line, lines: seq<Line>, pos: nat)
    requires pos < |lines| && lines[pos] == b
    ensures Gives(Pair(b, a), lines, pos, pos + 1, [a])
  {
    var pair := Pair(b, a);
    if b != a {
      assert pair[1..] == [DiffLine(Added, a)] && pair[1..][1..] == [];
      assert Gives(pair[1..][1..], lines, pos + 1, pos + 1, []);
      assert Gives(pair[1..], lines, pos + 1, pos + 1, [a]);
    } else {
      assert pair[1..] == [];
      assert Gives(pair[1..], lines, pos + 1, pos + 1, []);
    }
  }

  lemma {:induction false} EqualApplies(was: seq<Line>, now: seq<Line>, lines: seq<Line>, pos: nat)
    requires |was| == |now| && pos + |was| <= |lines| && lines[pos..pos + |was|] == was
    ensures Gives(EqualBody(was, now), lines, pos, pos + |was|, now)
  {
    if was != [] {
      assert lines[pos] == was[0] && lines[pos + 1..pos + |was|] == was[1..];
      PairApplies(was[0], now[0], lines, pos);
      EqualApplies(was[1..], now[1..], lines, pos + 1);
      ApplyAppend(Pair(was[0], now[0]), EqualBody(was[1..], now[1..]), lines, pos,
                  pos + 1, pos + |was|, [now[0]], now[1..]);
      assert [now[0]] + now[1..] == now;
    }
  }

  lemma OpApplies(op: Op, before: seq<Line>, after: seq<Line>)
    requires ValidOp(op, before, after)
    ensures Gives(OpBody(op, before, after), before, op.i1, op.i2, after[op.j1..op.j2])
  {
    var was, now := before[op.i1..op.i2], after[op.j1..op.j2];
    if op.tag.Equal? {
      EqualApplies(was, now, before, op.i1);
    } else {
      RemovedApplies(was, before, op.i1);
      AddedApplies(now, before, op.i2);
      ApplyAppend(Marked(Removed, was), Marked(Added, now), before, op.i1, op.i2, op.i2, [], now);
      assert OpBody(op, before, after) == Marked(Removed, was) + Marked(Added, now);
    }
  }

  lemma OpThenRest(op: Op, rest: seq<DiffLine>, i': nat, j': nat, before: seq<Line>, after: seq<Line>)
    requires ValidOp(op, before, after) && op.j2 <= j' <= |after|
    requires Gives(rest, before, op.i2, i', after[op.j2..j'])
    ensures Gives(OpBody(op, before, after) + rest, before, op.i1, i', after[op.j1..j'])
  {
    OpApplies(op, before, after);
    ApplyAppend(OpBody(op, before, after), rest, before, op.i1, op.i2, i', after[op.j1..op.j2], after[op.j2..j']);
    JoinedSlices(after, op.j1, op.j2, j');
  }

  lemma JoinedSlices(s: seq<Line>, a: nat, b: nat, c: nat)
    requires a <= b <= c <= |s|
    ensures s[a..b] + s[b..c] == s[a..c]
  {}

  lemma {:induction false} GroupApplies(g: Group, i: nat, j: nat, i': nat, j': nat, before: seq<Line>, after: seq<Line>)
    requires Chain(g, i, j, i', j', before, after) && i <= |before| && j <= |after|
    requires AllValid(g, before, after)
    ensures i <= i' <= |before| && j <= j' <= |after|
    ensures Gives(Body(g, before, after), before, i, i', after[j..j'])
  {
    ChainForward(g, i, j, i', j', before, after);
    if g != [] {
      var op := g[0];
      GroupApplies(g[1..], op.i2, op.j2, i', j', before, after);
      ChainForward(g[1..], op.i2, op.j2, i', j', before, after);
      OpThenRest(op, Body(g[1..], before, after), i', j', before, after);
    }
  }

  /** What patching gives: before's lines in the gaps, after's lines in the groups. */
  ghost function Merged(groups: seq<Group>, i: nat, j: nat, before: seq<Line>, after: seq<Line>): seq<Line>
    requires Linked(groups, i, j, before, after) && i <= |before|
    decreases |groups|
  {
    if groups == [] then before[i..]
    else
      var g := groups[0];
      ChainForward(g, g[0].i1, g[0].j1, Last(g).i2, Last(g).j2, before, after);
      before[i..g[0].i1] + after[g[0].j1..Last(g).j2] + Merged(groups[1..], Last(g).i2, Last(g).j2, before, after)
  }

  /** The lines outside the groups agree including their endings. */
  ghost predicate GapsIdentical(groups: seq<Group>, i: nat, j: nat, before: seq<Line>, after: seq<Line>)
    requires Linked(groups, i, j, before, after)
    decreases |groups|
  {
    if groups == [] then before[i..] == after[j..]
    else
      var g := groups[0];
      before[i..g[0].i1] == after[j..g[0].j1] && GapsIdentical(groups[1..], Last(g).i2, Last(g).j2, before, after)
  }

  lemma HeaderSays(g: Group, i: nat, j: nat, i': nat, j': nat, before: seq<Line>, after: seq<Line>)
    requires Renderable(g, before, after) && i == g[0].i1 && j == g[0].j1 && i' == Last(g).i2 && j' == Last(g).j2
    ensures ParseRange(HunkOf(g, before, after).beforeRange) == (i, i' - i)
    ensures ParseRange(HunkOf(g, before, after).afterRange) == (j, j' - j)
  {
    RangeRoundTrip(i, i');
    RangeRoundTrip(j, j');
  }

  lemma PatchStep(g: Group, hunks: seq<Hunk>, i: nat, j: nat, rest: seq<Line>, before: seq<Line>, after: seq<Line>)
    requires Renderable(g, before, after)
    requires Chain(g, g[0].i1, g[0].j1, Last(g).i2, Last(g).j2, before, after)
    requires i <= g[0].i1 && g[0].j1 == j + (g[0].i1 - i)
    requires Patch(before, hunks, Last(g).i2, Last(g).j2) == Some(rest)
    ensures Patch(before, [HunkOf(g, before, after)] + hunks, i, j) ==
            Some(before[i..g[0].i1] + after[g[0].j1..Last(g).j2] + rest)
  {
    GroupApplies(g, g[0].i1, g[0].j1, Last(g).i2, Last(g).j2, before, after);
    HeaderSays(g, g[0].i1, g[0].j1, Last(g).i2, Last(g).j2, before, after);
    assert ([HunkOf(g, before, after)] + hunks)[1..] == hunks;
  }

  lemma {:induction false} PatchGives(groups: seq<Group>, i: nat, j: nat, before: seq<Line>, after: seq<Line>)
    requires Linked(groups, i, j, before, after) && i <= |before|
    requires AllRenderable(groups, before, after)
    ensures Patch(before, Hunks(groups, before, after), i, j) == Some(Merged(groups, i, j, before, after))
    decreases |groups|
  {
    if groups != [] {
      var g, later := groups[0], groups[1..];
      PatchGives(later, Last(g).i2, Last(g).j2, before, after);
      var rest := Merged(later, Last(g).i2, Last(g).j2, before, after);
      PatchStep(g, Hunks(later, before, after), i, j, rest, before, after);
    }
  }

  /** The first gap and group, and what comes behind them. */
  lemma MergedParts(groups: seq<Group>, i: nat, j: nat, before: seq<Line>, after: seq<Line>)
    returns (gap: seq<Line>, part: seq<Line>, rest: seq<Line>, j': nat)
    requires groups != [] && Linked(groups, i, j, before, after) && i <= |before| && j <= |after|
    ensures Last(groups[0]).i2 <= |before| && Last(groups[0]).j2 == j' <= |after|
    ensures i + |gap| <= |before| && gap == before[i..i + |gap|] && SameText(before, after, i, i + |gap|, j)
    ensures groups[0][0].i1 == i + |gap| && groups[0][0].j1 == j + |gap|
    ensures j' == j + |gap| + |part| && part == after[j + |gap|..j']
    ensures rest == Merged(groups[1..], Last(groups[0]).i2, j', before, after)
    ensures Merged(groups, i, j, before, after) == gap + part + rest
    ensures GapsIdentical(groups, i, j, before, after) <==>
            gap == after[j..j + |gap|] && GapsIdentical(groups[1..], Last(groups[0]).i2, j', before, after)
  {
    var g := groups[0];
    ChainForward(g, g[0].i1, g[0].j1, Last(g).i2, Last(g).j2, before, after);
    gap, part, j' := before[i..g[0].i1], after[g[0].j1..Last(g).j2], Last(g).j2;
    rest := Merged(groups[1..], Last(g).i2, j', before, after);
  }

  /** The patched lines have after's text. */
  lemma {:induction false} MergedText(groups: seq<Group>, i: nat, j: nat, before: seq<Line>, after: seq<Line>)
    requires Linked(groups, i, j, before, after) && i <= |before| && j <= |after|
    ensures var m := Merged(groups, i, j, before, after);
            |m| == |after| - j && forall k :: 0 <= k < |m| ==> m[k].text == after[j + k].text
    decreases |groups|
  {
    if groups == [] {
      assert forall k :: 0 <= k < |before| - i ==> before[i..][k] == before[i + k];
    } else {
      var gap, part, rest, j' := MergedParts(groups, i, j, before, after);
      MergedText(groups[1..], Last(groups[0]).i2, j', before, after);
      MergedStep(gap, part, rest, after, i, j, before);
    }
  }

  /** The patched lines are after itself exactly when the lines that no hunk shows agree including their
      endings. */
  lemma {:induction false} MergedExact(groups: seq<Group>, i: nat, j: nat, before: seq<Line>, after: seq<Line>)
    requires Linked(groups, i, j, before, after) && i <= |before| && j <= |after|
    ensures Merged(groups, i, j, before, after) == after[j..] <==> GapsIdentical(groups, i, j, before, after)
    decreases |groups|
  {
    if groups != [] {
      var gap, part, rest, j' := MergedParts(groups, i, j, before, after);
      MergedText(groups[1..], Last(groups[0]).i2, j', before, after);
      MergedStep(gap, part, rest, after, i, j, before);
      MergedExact(groups[1..], Last(groups[0]).i2, j', before, after);
    }
  }

  lemma MergedStep(gap: seq<Line>, part: seq<Line>, rest: seq<Line>, after: seq<Line>, i: nat, j: nat,
                   before: seq<Line>)
    requires j + |gap| + |part| + |rest| == |after| && i + |gap| <= |before| && gap == before[i..i + |gap|]
    requires SameText(before, after, i, i + |gap|, j)
    requires part == after[j + |gap|..j + |gap| + |part|]
    requires forall k :: 0 <= k < |rest| ==> rest[k].text == after[j + |gap| + |part| + k].text
    ensures forall k :: 0 <= k < |gap + part + rest| ==> (gap + part + rest)[k].text == after[j + k].text
    ensures gap + part + rest == after[j..] <==> gap == after[j..j + |gap|] && rest == after[j + |gap| + |part|..]
  {
    var m := gap + part + rest;
    forall k | 0 <= k < |m| ensures m[k].text == after[j + k].text {
      if k < |gap| {
        assert gap[k] == before[i + k];
      } else if k >= |gap| + |part| {
        assert rest[k - |gap| - |part|].text == after[j + k].text;
      }
    }
    assert m[..|gap|] == gap && m[|gap| + |part|..] == rest;
    assert after[j..][..|gap|] == after[j..j + |gap|];
    assert after[j..][|gap| + |part|..] == after[j + |gap| + |part|..];
    assert after[j..] == after[j..j + |gap|] + part + after[j + |gap| + |part|..];
  }

  // ----- which lines no hunk shows -----

  ghost predicate SameRun(before: seq<Line>, after: seq<Line>, i: int, i2: int, j: int) {
    && 0 <= i <= i2 <= |before| && 0 <= j && j + (i2 - i) <= |after|
    && before[i..i2] == after[j..j + (i2 - i)]
  }

  /** Of each equal run of more than 2n lines, all but the n lines next to a change before it and the n lines
      next to a change after it are hidden: they agree including their endings. */
  ghost predicate HiddenSame(ops: seq<Op>, first: bool, n: nat, before: seq<Line>, after: seq<Line>) {
    ops == [] ||
    (var op, head, tail := ops[0], if first then 0 else n, if |ops| == 1 then 0 else n;
     && (Separates(op, n) ==> SameRun(before, after, op.i1 + head, op.i2 - tail, op.j1 + head))
     && HiddenSame(ops[1..], false, n, before, after))
  }

  /** Where the open group starts. */
  function Start(cur: Group, i: nat): nat { if cur == [] then i else cur[0].i1 }

  ghost predicate Following(ops: seq<Op>, cur: Group, n: nat, gi: nat, gj: nat, i: nat, j: nat,
                            before: seq<Line>, after: seq<Line>) {
    && Chain(ops, i, j, |before|, |after|, before, after) && Open(cur, gi, gj, i, j, before, after)
    && NoAdjacentEquals(ops) && Opened(cur) && Continues(cur, ops)
  }

  lemma FollowingLinked(ops: seq<Op>, cur: Group, n: nat, gi: nat, gj: nat, i: nat, j: nat,
                        before: seq<Line>, after: seq<Line>)
    requires Following(ops, cur, n, gi, gj, i, j, before, after)
    ensures EqualLengths(ops) && Linked(Changed(Split(ops, cur, n)), gi, gj, before, after)
  {
    ChainEqualLengths(ops, i, j, |before|, |after|, before, after);
    SplitLinked(ops, cur, n, gi, gj, i, j, before, after);
    ChangedLinked(Split(ops, cur, n), gi, gj, gi, gj, before, after);
  }

  lemma SameRunJoin(before: seq<Line>, after: seq<Line>, i: int, im: int, i2: int, j: int)
    requires 0 <= i <= im <= i2 <= |before| && 0 <= j && j + (i2 - i) <= |after|
    ensures SameRun(before, after, i, i2, j) <==>
            SameRun(before, after, i, im, j) && SameRun(before, after, im, i2, j + (im - i))
  {
    var a, b := before[i..i2], after[j..j + (i2 - i)];
    assert a == before[i..im] + before[im..i2];
    assert b == after[j..j + (im - i)] + after[j + (im - i)..j + (i2 - i)];
    assert a[..im - i] == before[i..im] && b[..im - i] == after[j..j + (im - i)];
    assert a[im - i..] == before[im..i2] && b[im - i..] == after[j + (im - i)..j + (i2 - i)];
  }

  lemma ChangedCons(g: Group, groups: seq<Group>)
    ensures Changed([g] + groups) == (if HasChange(g) then [g] else []) + Changed(groups)
  {
    assert ([g] + groups)[1..] == groups;
  }

  lemma OnlyGroup(g: Group)
    ensures Changed([g]) == if HasChange(g) then [g] else []
  {
    ChangedCons(g, []);
    assert [g] + [] == [g];
  }

  lemma LastGap(cur: Group, gi: nat, gj: nat, i: nat, j: nat, before: seq<Line>, after: seq<Line>)
    requires HasChange(cur) && Open(cur, gi, gj, i, j, before, after) && i == |before| && j == |after|
    requires Linked([cur], gi, gj, before, after)
    ensures GapsIdentical([cur], gi, gj, before, after) <==> SameRun(before, after, gi, cur[0].i1, gj)
  {
    ChainEnd(cur, cur[0].i1, cur[0].j1, i, j, before, after);
    ChainForward(cur, cur[0].i1, cur[0].j1, i, j, before, after);
    assert [cur][1..] == [] && before[i..] == [] == after[j..];
  }

  lemma AfterLast(op: Op, n: nat, hi: nat, hj: nat, before: seq<Line>, after: seq<Line>)
    requires Separates(op, n) && op.i2 == |before| && op.j2 == |after|
    requires hi <= op.i2 && hj + (op.i2 - hi) == |after| && Linked([], hi, hj, before, after)
    ensures Changed(Split([], Reopen(op, n), n)) == []
    ensures GapsIdentical([], hi, hj, before, after) <==> SameRun(before, after, hi, op.i2, hj)
  {
    ReopenOpens(op, [], n);
    if n > 0 { OnlyGroup(Reopen(op, n)); }
    assert before[hi..op.i2] == before[hi..] && after[hj..hj + (op.i2 - hi)] == after[hj..];
  }

  /** The gaps between groups are identical exactly when something else holds. */
  ghost predicate GapsSay(groups: seq<Group>, i: nat, j: nat, before: seq<Line>, after: seq<Line>, same: bool) {
    Linked(groups, i, j, before, after) && (GapsIdentical(groups, i, j, before, after) <==> same)
  }

  /** What the part from the run on says about the groups to come. */
  ghost predicate LaterGaps(ops: seq<Op>, n: nat, hi: nat, hj: nat, before: seq<Line>, after: seq<Line>)
    requires ops != [] && Separates(ops[0], n)
  {
    var tail := if |ops| == 1 then 0 else n;
    GapsSay(Changed(Split(ops[1..], Reopen(ops[0], n), n)), hi, hj, before, after,
            SameRun(before, after, hi, ops[0].i2 - tail, hj) && HiddenSame(ops[1..], false, n, before, after))
  }

  /** From a separating run on, when the group before it has ended at (hi, hj), at most n lines into the run. */
  lemma {:induction false} AfterSeparator(ops: seq<Op>, n: nat, hi: nat, hj: nat, before: seq<Line>, after: seq<Line>)
    requires ops != [] && Separates(ops[0], n) && NoAdjacentEquals(ops) && EqualLengths(ops)
    requires Chain(ops, ops[0].i1, ops[0].j1, |before|, |after|, before, after)
    requires Open(Reopen(ops[0], n), hi, hj, ops[0].i2, ops[0].j2, before, after) && hi <= ops[0].i1 + n
    requires hj == ops[0].j1 + hi - ops[0].i1
    ensures LaterGaps(ops, n, hi, hj, before, after)
    decreases |ops|, 0
  {
    var op, cur := ops[0], Reopen(ops[0], n);
    SeparatorFollows(ops, n, hi, hj, before, after);
    if |ops| == 1 {
      SeparatorLast(ops, n, hi, hj, before, after);
    } else {
      HiddenAhead(ops[1..], cur, false, n, hi, hj, op.i2, op.j2, before, after);
      LaterHidden(ops, n, hi, hj, before, after);
    }
  }

  lemma SeparatorFollows(ops: seq<Op>, n: nat, hi: nat, hj: nat, before: seq<Line>, after: seq<Line>)
    requires ops != [] && Separates(ops[0], n) && NoAdjacentEquals(ops) && EqualLengths(ops)
    requires Chain(ops, ops[0].i1, ops[0].j1, |before|, |after|, before, after)
    requires Open(Reopen(ops[0], n), hi, hj, ops[0].i2, ops[0].j2, before, after)
    ensures Following(ops[1..], Reopen(ops[0], n), n, hi, hj, ops[0].i2, ops[0].j2, before, after)
    ensures ops[0].i2 <= |before| && ops[0].j2 <= |after|
    ensures |ops| > 1 ==> !ops[1].tag.Equal? && HasChange(ops[1..])
  {
    RestEquals(ops);
    ReopenOpens(ops[0], ops[1..], n);
    if |ops| > 1 { assert !ops[1..][0].tag.Equal?; }
  }

  lemma SeparatorLast(ops: seq<Op>, n: nat, hi: nat, hj: nat, before: seq<Line>, after: seq<Line>)
    requires |ops| == 1 && Separates(ops[0], n) && hi <= ops[0].i1 + n && hj == ops[0].j1 + hi - ops[0].i1
    requires Following([], Reopen(ops[0], n), n, hi, hj, ops[0].i2, ops[0].j2, before, after)
    ensures LaterGaps(ops, n, hi, hj, before, after)
  {
    var op, cur := ops[0], Reopen(ops[0], n);
    assert ops[1..] == [];
    FollowingLinked([], cur, n, hi, hj, op.i2, op.j2, before, after);
    ReopenOpens(op, [], n);
    assert Linked([], hi, hj, before, after) by {
      if n > 0 { OnlyGroup(cur); }
    }
    AfterLast(op, n, hi, hj, before, after);
  }

  lemma LaterHidden(ops: seq<Op>, n: nat, hi: nat, hj: nat, before: seq<Line>, after: seq<Line>)
    requires |ops| > 1 && Separates(ops[0], n)
    requires GapsAreHidden(ops[1..], Reopen(ops[0], n), false, n, hi, hj, ops[0].i2, before, after)
    ensures LaterGaps(ops, n, hi, hj, before, after)
  {
    assert Start(Reopen(ops[0], n), ops[0].i2) == ops[0].i2 - n;
  }

  /** At the start of the file nothing is open yet. */
  lemma FirstGap(ops: seq<Op>, n: nat, gi: nat, gj: nat, before: seq<Line>, after: seq<Line>)
    requires ops != [] && Separates(ops[0], n) && ValidOp(ops[0], before, after)
    requires gi <= ops[0].i1 && ops[0].j1 == gj + (ops[0].i1 - gi) && LaterGaps(ops, n, gi, gj, before, after)
    ensures Split(ops, [], n) == Split(ops[1..], Reopen(ops[0], n), n)
    ensures GapsIdentical(Changed(Split(ops[1..], Reopen(ops[0], n), n)), gi, gj, before, after) <==>
            SameRun(before, after, gi, ops[0].i1, gj) && HiddenSame(ops, true, n, before, after)
  {
    var split := Split(ops[1..], Reopen(ops[0], n), n);
    assert Close([], ops[0], n) + split == split;
    FirstRun(ops, n, gi, gj, before, after);
  }

  lemma FirstRun(ops: seq<Op>, n: nat, gi: nat, gj: nat, before: seq<Line>, after: seq<Line>)
    requires ops != [] && Separates(ops[0], n) && ValidOp(ops[0], before, after)
    requires gi <= ops[0].i1 && ops[0].j1 == gj + (ops[0].i1 - gi)
    ensures SameRun(before, after, gi, ops[0].i2 - (if |ops| == 1 then 0 else n), gj)
            && HiddenSame(ops[1..], false, n, before, after) <==>
            SameRun(before, after, gi, ops[0].i1, gj) && HiddenSame(ops, true, n, before, after)
  {
    SameRunJoin(before, after, gi, ops[0].i1, ops[0].i2 - if |ops| == 1 then 0 else n, gj);
  }

  /** A separating run behind an open group ends that group. */
  lemma MiddleSplit(ops: seq<Op>, cur: Group, n: nat)
    requires ops != [] && Separates(ops[0], n) && HasChange(cur)
    ensures Changed(Split(ops, cur, n)) == [cur + [Head(ops[0], n)]] + Changed(Split(ops[1..], Reopen(ops[0], n), n))
  {
    LeadAppend(cur, Head(ops[0], n));
    ChangedCons(cur + [Head(ops[0], n)], Split(ops[1..], Reopen(ops[0], n), n));
  }

  lemma ConsGaps(g: Group, later: seq<Group>, groups: seq<Group>, gi: nat, gj: nat, hi: nat, hj: nat,
                 before: seq<Line>, after: seq<Line>, same: bool)
    requires g != [] && groups == [g] + later && gi <= |before| && hi == Last(g).i2 && hj == Last(g).j2
    requires Linked(groups, gi, gj, before, after) && GapsSay(later, hi, hj, before, after, same)
    ensures GapsSay(groups, gi, gj, before, after, SameRun(before, after, gi, g[0].i1, gj) && same)
  {
    assert groups[1..] == later && groups[0] == g;
  }

  /** The gaps between the groups to come are exactly the hidden lines. */
  ghost predicate GapsAreHidden(ops: seq<Op>, cur: Group, first: bool, n: nat, gi: nat, gj: nat, i: nat,
                                before: seq<Line>, after: seq<Line>) {
    GapsSay(Changed(Split(ops, cur, n)), gi, gj, before, after,
            SameRun(before, after, gi, Start(cur, i), gj) && HiddenSame(ops, first, n, before, after))
  }

  lemma HiddenAtEnd(cur: Group, n: nat, gi: nat, gj: nat, i: nat, j: nat, before: seq<Line>, after: seq<Line>)
    requires Following([], cur, n, gi, gj, i, j, before, after) && HasChange(cur)
    ensures GapsAreHidden([], cur, false, n, gi, gj, i, before, after)
  {
    FollowingLinked([], cur, n, gi, gj, i, j, before, after);
    OnlyGroup(cur);
    LastGap(cur, gi, gj, i, j, before, after);
  }

  lemma {:induction false} SeparatorLater(ops: seq<Op>, cur: Group, n: nat, gi: nat, gj: nat, i: nat, j: nat,
                                          before: seq<Line>, after: seq<Line>)
    requires Following(ops, cur, n, gi, gj, i, j, before, after)
    requires ops != [] && Separates(ops[0], n)
    ensures LaterGaps(ops, n, Closed(cur, gi, i, n), Closed(cur, gj, j, n), before, after)
    decreases |ops|, 1
  {
    FollowingLinked(ops, cur, n, gi, gj, i, j, before, after);
    SeparatorOpens(cur, ops[0], n, gi, gj, before, after);
    AfterSeparator(ops, n, Closed(cur, gi, i, n), Closed(cur, gj, j, n), before, after);
  }

  lemma SeparatorFacts(ops: seq<Op>, cur: Group, n: nat, gi: nat, gj: nat, i: nat, j: nat,
                       before: seq<Line>, after: seq<Line>)
    requires Following(ops, cur, n, gi, gj, i, j, before, after) && ops != [] && Separates(ops[0], n)
    ensures ValidOp(ops[0], before, after) && i == ops[0].i1 && j == ops[0].j1
    ensures if cur == [] then gi <= i && j == gj + (i - gi) else HasChange(cur)
    ensures Open(cur, gi, gj, i, j, before, after)
  {}

  lemma {:induction false} HiddenAtSeparator(ops: seq<Op>, cur: Group, n: nat, gi: nat, gj: nat, i: nat, j: nat,
                                             before: seq<Line>, after: seq<Line>)
    requires Following(ops, cur, n, gi, gj, i, j, before, after) && gi <= |before|
    requires ops != [] && Separates(ops[0], n)
    ensures GapsAreHidden(ops, cur, cur == [], n, gi, gj, i, before, after)
    decreases |ops|, 2
  {
    SeparatorLater(ops, cur, n, gi, gj, i, j, before, after);
    SeparatorFacts(ops, cur, n, gi, gj, i, j, before, after);
    FollowingLinked(ops, cur, n, gi, gj, i, j, before, after);
    HiddenEither(ops, cur, n, gi, gj, before, after);
  }

  lemma HiddenEither(ops: seq<Op>, cur: Group, n: nat, gi: nat, gj: nat, before: seq<Line>, after: seq<Line>)
    requires ops != [] && Separates(ops[0], n) && ValidOp(ops[0], before, after) && gi <= |before|
    requires cur == [] || HasChange(cur)
    requires Open(cur, gi, gj, ops[0].i1, ops[0].j1, before, after)
    requires LaterGaps(ops, n, Closed(cur, gi, ops[0].i1, n), Closed(cur, gj, ops[0].j1, n), before, after)
    requires Linked(Changed(Split(ops, cur, n)), gi, gj, before, after)
    ensures GapsAreHidden(ops, cur, cur == [], n, gi, gj, ops[0].i1, before, after)
  {
    if cur == [] {
      HiddenFirst(ops, cur, n, gi, gj, Closed(cur, gi, ops[0].i1, n), Closed(cur, gj, ops[0].j1, n), before, after);
    } else {
      HiddenMiddle(ops, cur, n, gi, gj, Closed(cur, gi, ops[0].i1, n), Closed(cur, gj, ops[0].j1, n), before, after);
    }
  }

  lemma HiddenMiddle(ops: seq<Op>, cur: Group, n: nat, gi: nat, gj: nat, hi: nat, hj: nat,
                     before: seq<Line>, after: seq<Line>)
    requires ops != [] && Separates(ops[0], n) && HasChange(cur) && gi <= |before|
    requires hi == ops[0].i1 + n && hj == ops[0].j1 + n && LaterGaps(ops, n, hi, hj, before, after)
    requires Linked(Changed(Split(ops, cur, n)), gi, gj, before, after)
    ensures GapsAreHidden(ops, cur, false, n, gi, gj, ops[0].i1, before, after)
  {
    MiddleSplit(ops, cur, n);
    var groups, later := Changed(Split(ops, cur, n)), Changed(Split(ops[1..], Reopen(ops[0], n), n));
    var same := SameRun(before, after, hi, ops[0].i2 - (if |ops| == 1 then 0 else n), hj)
                && HiddenSame(ops[1..], false, n, before, after);
    ConsGaps(cur + [Head(ops[0], n)], later, groups, gi, gj, hi, hj, before, after, same);
    HiddenHere(ops, n, before, after);
    assert Start(cur, ops[0].i1) == (cur + [Head(ops[0], n)])[0].i1;
  }

  lemma HiddenHere(ops: seq<Op>, n: nat, before: seq<Line>, after: seq<Line>)
    requires ops != [] && Separates(ops[0], n)
    ensures HiddenSame(ops, false, n, before, after) <==>
            SameRun(before, after, ops[0].i1 + n, ops[0].i2 - (if |ops| == 1 then 0 else n), ops[0].j1 + n)
            && HiddenSame(ops[1..], false, n, before, after)
  {}

  lemma HiddenFirst(ops: seq<Op>, cur: Group, n: nat, gi: nat, gj: nat, hi: nat, hj: nat,
                    before: seq<Line>, after: seq<Line>)
    requires ops != [] && Separates(ops[0], n) && ValidOp(ops[0], before, after) && cur == []
    requires gi <= ops[0].i1 && ops[0].j1 == gj + (ops[0].i1 - gi)
    requires hi == gi && hj == gj && LaterGaps(ops, n, hi, hj, before, after)
    ensures GapsAreHidden(ops, cur, true, n, gi, gj, ops[0].i1, before, after)
  {
    FirstGap(ops, n, gi, gj, before, after);
  }

  lemma FollowingNext(ops: seq<Op>, cur: Group, n: nat, gi: nat, gj: nat, i: nat, j: nat,
                      before: seq<Line>, after: seq<Line>)
    requires Following(ops, cur, n, gi, gj, i, j, before, after) && ops != [] && !Separates(ops[0], n)
    ensures Following(ops[1..], cur + [ops[0]], n, gi, gj, ops[0].i2, ops[0].j2, before, after)
    ensures HasChange(cur + [ops[0]]) || HasChange(ops[1..]) <==> HasChange(cur) || HasChange(ops)
  {
    ChainEqualLengths(ops, i, j, |before|, |after|, before, after);
    RestEquals(ops);
    HasChangeRest(ops);
    LeadAppend(cur, ops[0]);
    OpenExtend(cur, ops[0], gi, gj, before, after);
  }

  lemma HiddenLater(ops: seq<Op>, cur: Group, first: bool, n: nat, gi: nat, gj: nat,
                    before: seq<Line>, after: seq<Line>)
    requires ops != [] && !Separates(ops[0], n) && (first ==> cur == [])
    requires GapsAreHidden(ops[1..], cur + [ops[0]], false, n, gi, gj, ops[0].i2, before, after)
    ensures GapsAreHidden(ops, cur, first, n, gi, gj, ops[0].i1, before, after)
  {}

  lemma {:induction false} HiddenAhead(ops: seq<Op>, cur: Group, first: bool, n: nat, gi: nat, gj: nat, i: nat, j: nat,
                                       before: seq<Line>, after: seq<Line>)
    requires Following(ops, cur, n, gi, gj, i, j, before, after) && gi <= |before|
    requires HasChange(cur) || HasChange(ops)
    requires first ==> cur == []
    requires cur == [] && !first && ops != [] ==> !ops[0].tag.Equal?
    ensures GapsAreHidden(ops, cur, first, n, gi, gj, i, before, after)
    decreases |ops|, 3
  {
    if ops == [] {
      HiddenAtEnd(cur, n, gi, gj, i, j, before, after);
    } else if Separates(ops[0], n) {
      HiddenAtSeparator(ops, cur, n, gi, gj, i, j, before, after);
    } else {
      FollowingNext(ops, cur, n, gi, gj, i, j, before, after);
      HiddenAhead(ops[1..], cur + [ops[0]], false, n, gi, gj, ops[0].i2, ops[0].j2, before, after);
      HiddenLater(ops, cur, first, n, gi, gj, before, after);
    }
  }

  /** Without a change there is no hunk, whatever is open. */
  lemma {:induction false} NoHunks(ops: seq<Op>, cur: Group, n: nat)
    requires !HasChange(cur) && !HasChange(ops)
    ensures Changed(Split(ops, cur, n)) == []
    decreases |ops|
  {
    if ops == [] {
      if cur != [] { OnlyGroup(cur); }
    } else {
      var op, rest := ops[0], ops[1..];
      HasChangeRest(ops);
      if Separates(op, n) {
        assert !HasChange(Reopen(op, n));
        NoHunks(rest, Reopen(op, n), n);
        NothingClosed(cur, op, n, Split(rest, Reopen(op, n), n));
      } else {
        LeadAppend(cur, op);
        NoHunks(rest, cur + [op], n);
      }
    }
  }

  lemma NothingClosed(cur: Group, op: Op, n: nat, later: seq<Group>)
    requires Separates(op, n) && !HasChange(cur) && Changed(later) == []
    ensures Changed(Close(cur, op, n) + later) == []
  {
    if cur == [] {
      assert Close(cur, op, n) + later == later;
    } else {
      LeadAppend(cur, Head(op, n));
      ChangedCons(cur + [Head(op, n)], later);
    }
  }

  /** The lines that no hunk shows, from the end (gi, gj) of the last hunk on: with a change open or to come, what
      precedes the open group and the lines of long equal runs out of reach of a change; otherwise all. */
  ghost predicate Unshown(ops: seq<Op>, cur: Group, first: bool, n: nat, gi: nat, gj: nat, i: nat,
                          before: seq<Line>, after: seq<Line>) {
    if HasChange(cur) || HasChange(ops) then
      SameRun(before, after, gi, Start(cur, i), gj) && HiddenSame(ops, first, n, before, after)
    else before[Min(gi, |before|)..] == after[Min(gj, |after|)..]
  }

  /** The gaps between the groups to come are identical exactly when the lines not shown are. */
  lemma HiddenGaps(ops: seq<Op>, cur: Group, first: bool, n: nat, gi: nat, gj: nat, i: nat, j: nat,
                   before: seq<Line>, after: seq<Line>)
    requires Following(ops, cur, n, gi, gj, i, j, before, after) && gi <= |before|
    requires first ==> cur == []
    requires cur == [] && !first && ops != [] ==> !ops[0].tag.Equal?
    ensures var groups := Changed(Split(ops, cur, n));
            && Linked(groups, gi, gj, before, after)
            && (GapsIdentical(groups, gi, gj, before, after) <==>
                Unshown(ops, cur, first, n, gi, gj, i, before, after))
  {
    if HasChange(cur) || HasChange(ops) {
      HiddenAhead(ops, cur, first, n, gi, gj, i, j, before, after);
    } else {
      NoHunks(ops, cur, n);
      FollowingLinked(ops, cur, n, gi, gj, i, j, before, after);
    }
  }

  /** Main result on line endings: when the opcodes hold a change, the hunks give after itself exactly when, in
      every equal run of more than 2n lines, the lines out of reach of a change have the same endings on both
      sides; when they hold none, as for files that differ in endings only, there is no hunk and before is given. */
  lemma PatchExact(ops: seq<Op>, n: nat, before: seq<Line>, after: seq<Line>)
    requires Tiles(ops, before, after) && NoAdjacentEquals(ops)
    ensures var groups := Changed(Split(ops, [], n));
            && Linked(groups, 0, 0, before, after)
            && (Merged(groups, 0, 0, before, after) == after <==>
                if HasChange(ops) then HiddenSame(ops, true, n, before, after) else before == after)
            && (groups == [] <==> !HasChange(ops))
  {
    HiddenGaps(ops, [], true, n, 0, 0, 0, 0, before, after);
    MergedExact(Changed(Split(ops, [], n)), 0, 0, before, after);
    assert after[0..] == after && before[0..] == before && before[0..0] == after[0..0];
    HunksExist(ops, n);
  }

  lemma HunksExist(ops: seq<Op>, n: nat)
    ensures Changed(Split(ops, [], n)) == [] <==> !HasChange(ops)
  {
    if HasChange(ops) {
      NoChanges(ops);
      SplitChanges(ops, [], n);
      ChangedChanges(Split(ops, [], n));
    } else {
      NoHunks(ops, [], n);
    }
  }

  /** The plainest such files: one line, without and with its line end. Every equal run is short, so that the
      condition on hidden lines holds, yet no hunk shows the difference. */
  lemma EndingsOnly(n: nat)
    ensures var before, after, ops := [Line("a", "")], [Line("a", "\n")], [Op(Equal, 0, 1, 0, 1)];
            && before != after && Tiles(ops, before, after) && NoAdjacentEquals(ops)
            && Changed(Split(ops, [], n)) == []
            && (n > 0 ==> HiddenSame(ops, true, n, before, after))
  {
    var ops := [Op(Equal, 0, 1, 0, 1)];
    assert ops[1..] == [];
    NoHunks(ops, [], n);
  }

  // ----- counting -----

  function Count(mark: Mark, body: seq<DiffLine>): nat {
    if body == [] then 0 else (if body[0].mark == mark then 1 else 0) + Count(mark, body[1..])
  }

  function Total(mark: Mark, hunks: seq<Hunk>): nat {
    if hunks == [] then 0 else Count(mark, hunks[0].body) + Total(mark, hunks[1..])
  }

  lemma {:induction false} CountAppend(mark: Mark, a: seq<DiffLine>, b: seq<DiffLine>)
    ensures Count(mark, a + b) == Count(mark, a) + Count(mark, b)
  {
    if a == [] {
      assert a + b == b;
    } else {
      ConsAppend(a, b);
      CountAppend(mark, a[1..], b);
    }
  }

  lemma {:induction false} CountMarked(mark: Mark, m: Mark, lines: seq<Line>)
    ensures Count(mark, Marked(m, lines)) == if mark == m then |lines| else 0
  {
    if lines != [] {
      assert Marked(m, lines)[1..] == Marked(m, lines[1..]);
      CountMarked(mark, m, lines[1..]);
    }
  }

  function AddedBy(op: Op): int { if op.tag.Replace? || op.tag.Insert? then op.j2 - op.j1 else 0 }
  function RemovedBy(op: Op): int { if op.tag.Replace? || op.tag.Delete? then op.i2 - op.i1 else 0 }

  function Adds(ops: seq<Op>): int { if ops == [] then 0 else AddedBy(ops[0]) + Adds(ops[1..]) }
  function Removes(ops: seq<Op>): int { if ops == [] then 0 else RemovedBy(ops[0]) + Removes(ops[1..]) }

  lemma {:induction false} SumsAppend(a: seq<Op>, b: seq<Op>)
    ensures Adds(a + b) == Adds(a) + Adds(b) && Removes(a + b) == Removes(a) + Removes(b)
  {
    if a == [] {
      assert a + b == b;
    } else {
      ConsAppend(a, b);
      SumsAppend(a[1..], b);
    }
  }

  lemma {:induction false} SumsOfChanges(ops: seq<Op>)
    ensures Adds(Changes(ops)) == Adds(ops) && Removes(Changes(ops)) == Removes(ops)
  {
    if ops != [] {
      SumsOfChanges(ops[1..]);
      if IsChange(ops[0]) {
        assert Changes(ops) == [ops[0]] + Changes(ops[1..]);
      } else {
        assert Changes(ops) == Changes(ops[1..]);
      }
    }
  }

  /** Lines equal in text that differ in ending. */
  function EndingPairs(was: seq<Line>, now: seq<Line>): nat
    requires |was| == |now|
  {
    if was == [] then 0 else (if was[0] != now[0] then 1 else 0) + EndingPairs(was[1..], now[1..])
  }

  /** The ending-only differences that the shown equal runs contain. */
  function ShownPairs(ops: seq<Op>, before: seq<Line>, after: seq<Line>): nat
    requires AllValid(ops, before, after)
  {
    if ops == [] then 0
    else (if ops[0].tag.Equal? then EndingPairs(before[ops[0].i1..ops[0].i2], after[ops[0].j1..ops[0].j2]) else 0)
         + ShownPairs(ops[1..], before, after)
  }

  lemma {:induction false} CountEqual(was: seq<Line>, now: seq<Line>)
    requires |was| == |now|
    ensures Count(Added, EqualBody(was, now)) == EndingPairs(was, now) == Count(Removed, EqualBody(was, now))
  {
    if was != [] {
      var pair, rest := Pair(was[0], now[0]), EqualBody(was[1..], now[1..]);
      CountEqual(was[1..], now[1..]);
      CountAppend(Added, pair, rest);
      CountAppend(Removed, pair, rest);
      assert pair[1..] == if was[0] != now[0] then [DiffLine(Added, now[0])] else [];
      assert pair[1..] != [] ==> pair[1..][1..] == [];
    }
  }

  // The lines of a body, one by one.

  /** The lines of a change: first those removed, in order, then those added. */
  lemma ChangeLine(op: Op, before: seq<Line>, after: seq<Line>, k: nat)
    requires ValidOp(op, before, after) && !op.tag.Equal?
    ensures var body, removed := OpBody(op, before, after), if op.tag.Insert? then 0 else op.i2 - op.i1;
            && |body| == removed + (if op.tag.Delete? then 0 else op.j2 - op.j1)
            && (k < removed ==> body[k] == DiffLine(Removed, before[op.i1 + k]))
            && (removed <= k < |body| ==> body[k] == DiffLine(Added, after[op.j1 + (k - removed)]))
  {
    var was, now := ChangeBody(op, before, after);
    MarkedLine(was, now, k);
  }

  lemma ChangeBody(op: Op, before: seq<Line>, after: seq<Line>) returns (was: seq<Line>, now: seq<Line>)
    requires ValidOp(op, before, after) && !op.tag.Equal?
    ensures OpBody(op, before, after) == Marked(Removed, was) + Marked(Added, now)
    ensures |was| == (if op.tag.Insert? then 0 else op.i2 - op.i1) && forall k :: 0 <= k < |was| ==>
              was[k] == before[op.i1 + k]
    ensures |now| == (if op.tag.Delete? then 0 else op.j2 - op.j1) && forall k :: 0 <= k < |now| ==>
              now[k] == after[op.j1 + k]
  {
    was := if op.tag.Insert? then [] else before[op.i1..op.i2];
    now := if op.tag.Delete? then [] else after[op.j1..op.j2];
    if op.tag.Insert? { assert Marked(Removed, was) == []; }
    if op.tag.Delete? { assert Marked(Added, now) == []; }
  }

  lemma MarkedLine(was: seq<Line>, now: seq<Line>, k: nat)
    ensures var body := Marked(Removed, was) + Marked(Added, now);
            && |body| == |was| + |now|
            && (k < |was| ==> body[k] == DiffLine(Removed, was[k]))
            && (|was| <= k < |body| ==> body[k] == DiffLine(Added, now[k - |was|]))
  {}

  lemma {:induction false} EqualBodySplit(was: seq<Line>, now: seq<Line>, k: nat)
    requires |was| == |now| && k < |was|
    ensures EqualBody(was, now) ==
            EqualBody(was[..k], now[..k]) + (Pair(was[k], now[k]) + EqualBody(was[k + 1..], now[k + 1..]))
    ensures |EqualBody(was[..k], now[..k])| == k + EndingPairs(was[..k], now[..k])
  {
    if k == 0 {
      assert was[..k] == [] && now[..k] == [];
    } else {
      EqualBodySplit(was[1..], now[1..], k - 1);
      assert was[..k][1..] == was[1..][..k - 1] && now[..k][1..] == now[1..][..k - 1];
      assert was[1..][k..] == was[k + 1..] && now[1..][k..] == now[k + 1..];
      Regroup(Pair(was[0], now[0]), EqualBody(was[1..][..k - 1], now[1..][..k - 1]),
              Pair(was[k], now[k]) + EqualBody(was[k + 1..], now[k + 1..]));
    }
  }

  /** The lines of an equal run: each is kept, or removed and then added when its ending differs; those before it
      take one line each and one more for every such pair. */
  lemma EqualLine(was: seq<Line>, now: seq<Line>, k: nat)
    requires |was| == |now| && k < |was|
    ensures var body, at := EqualBody(was, now), k + EndingPairs(was[..k], now[..k]);
            && at < |body|
            && if was[k] == now[k] then body[at] == DiffLine(Kept, was[k])
               else at + 1 < |body| && body[at] == DiffLine(Removed, was[k]) && body[at + 1] == DiffLine(Added, now[k])
  {
    EqualBodySplit(was, now, k);
  }

  lemma CountOp(op: Op, before: seq<Line>, after: seq<Line>)
    requires ValidOp(op, before, after)
    ensures AllValid([op], before, after)
    ensures Count(Added, OpBody(op, before, after)) == AddedBy(op) + ShownPairs([op], before, after)
    ensures Count(Removed, OpBody(op, before, after)) == RemovedBy(op) + ShownPairs([op], before, after)
  {
    var was, now := before[op.i1..op.i2], after[op.j1..op.j2];
    assert [op][1..] == [];
    if op.tag.Equal? {
      CountEqual(was, now);
    } else {
      var r := if op.tag.Insert? then [] else Marked(Removed, was);
      var a := if op.tag.Delete? then [] else Marked(Added, now);
      CountAppend(Added, r, a);
      CountAppend(Removed, r, a);
      CountMarked(Added, Removed, was);
      CountMarked(Removed, Removed, was);
      CountMarked(Added, Added, now);
      CountMarked(Removed, Added, now);
    }
  }

  lemma {:induction false} CountGroup(g: Group, before: seq<Line>, after: seq<Line>)
    requires AllValid(g, before, after)
    ensures Count(Added, Body(g, before, after)) == Adds(g) + ShownPairs(g, before, after)
    ensures Count(Removed, Body(g, before, after)) == Removes(g) + ShownPairs(g, before, after)
  {
    if g != [] {
      CountOp(g[0], before, after);
      CountGroup(g[1..], before, after);
      CountAppend(Added, OpBody(g[0], before, after), Body(g[1..], before, after));
      CountAppend(Removed, OpBody(g[0], before, after), Body(g[1..], before, after));
    }
  }

  /** All ending-only differences that the hunks show. */
  function ShownIn(groups: seq<Group>, before: seq<Line>, after: seq<Line>): nat
    requires AllRenderable(groups, before, after)
  {
    if groups == [] then 0
    else ShownPairs(groups[0], before, after) + ShownIn(groups[1..], before, after)
  }

  /** Each ending-only difference counts as one added and one removed line of the hunks, and as none of the
      opcodes. */
  lemma {:induction false} CountHunks(groups: seq<Group>, before: seq<Line>, after: seq<Line>)
    requires AllRenderable(groups, before, after)
    ensures var hunks, d := Hunks(groups, before, after), ShownIn(groups, before, after);
            && Total(Added, hunks) == Adds(Flatten(groups)) + d
            && Total(Removed, hunks) == Removes(Flatten(groups)) + d
  {
    if groups != [] {
      var later := groups[1..];
      CountGroup(groups[0], before, after);
      CountHunks(later, before, after);
      SumsAppend(groups[0], Flatten(later));
      assert Hunks(groups, before, after)[1..] == Hunks(later, before, after);
    }
  }

  lemma {:induction false} NetChange(ops: seq<Op>, i: nat, j: nat, i': nat, j': nat,
                                     before: seq<Line>, after: seq<Line>)
    requires Chain(ops, i, j, i', j', before, after)
    ensures Adds(ops) - Removes(ops) == (j' - j) - (i' - i)
  {
    if ops != [] {
      NetChange(ops[1..], ops[0].i2, ops[0].j2, i', j', before, after);
    }
  }

  // ----- the procedures -----

  method RenderEqual(was: seq<Line>, now: seq<Line>) returns (lines: seq<DiffLine>)
    requires |was| == |now|
    ensures lines == EqualBody(was, now)
  {
    lines := [];
    var k := 0;
    while k < |was|
      invariant 0 <= k <= |was|
      invariant lines + EqualBody(was[k..], now[k..]) == EqualBody(was, now)
    {
      assert was[k..][1..] == was[k + 1..] && now[k..][1..] == now[k + 1..];
      ghost var pair, rest := Pair(was[k], now[k]), EqualBody(was[k + 1..], now[k + 1..]);
      Regroup(lines, pair, rest);
      if was[k] != now[k] {
        lines := lines + [DiffLine(Removed, was[k]), DiffLine(Added, now[k])];
      } else {
        lines := lines + [DiffLine(Kept, was[k])];
      }
      k := k + 1;
    }
  }

  method RenderMarked(mark: Mark, lines: seq<Line>) returns (body: seq<DiffLine>)
    ensures body == Marked(mark, lines)
  {
    body := [];
    var k := 0;
    while k < |lines|
      invariant 0 <= k <= |lines| && body == Marked(mark, lines[..k])
    {
      body := body + [DiffLine(mark, lines[k])];
      k := k + 1;
    }
    assert lines[..k] == lines;
  }

  method RenderOp(op: Op, before: seq<Line>, after: seq<Line>) returns (body: seq<DiffLine>)
    requires ValidOp(op, before, after)
    ensures body == OpBody(op, before, after)
  {
    body := [];
    if op.tag.Equal? {
      body := RenderEqual(before[op.i1..op.i2], after[op.j1..op.j2]);
    } else if op.tag.Replace? || op.tag.Delete? {
      body := RenderMarked(Removed, before[op.i1..op.i2]);
    }
    if op.tag.Replace? || op.tag.Insert? {
      var added := RenderMarked(Added, after[op.j1..op.j2]);
      body := body + added;
    }
  }

  method RenderGroup(g: Group, before: seq<Line>, after: seq<Line>) returns (body: seq<DiffLine>)
    requires AllValid(g, before, after)
    ensures body == Body(g, before, after)
  {
    body := [];
    var m := 0;
    while m < |g|
      invariant 0 <= m <= |g|
      invariant AllValid(g[m..], before, after)
      invariant body + Body(g[m..], before, after) == Body(g, before, after)
    {
      assert g[m..][0] == g[m] && g[m..][1..] == g[m + 1..];
      var part := RenderOp(g[m], before, after);
      Regroup(body, part, Body(g[m + 1..], before, after));
      body := body + part;
      m := m + 1;
    }
  }

  /** One pass of the loop over the groups. */
  method RenderHunk(groups: seq<Group>, k: nat, before: seq<Line>, after: seq<Line>) returns (hunk: Hunk)
    requires k < |groups| && AllRenderable(groups[k..], before, after)
    ensures AllRenderable(groups[k + 1..], before, after)
    ensures Hunks(groups[k..], before, after) == [hunk] + Hunks(groups[k + 1..], before, after)
  {
    var g := groups[k];
    assert groups[k..][0] == g && groups[k..][1..] == groups[k + 1..];
    var body := RenderGroup(g, before, after);
    hunk := Hunk(FormatRange(g[0].i1, Last(g).i2), FormatRange(g[0].j1, Last(g).j2), body);
  }

  /** _render_diff_text below the two file-name lines. */
  method RenderHunks(groups: seq<Group>, before: seq<Line>, after: seq<Line>) returns (hunks: seq<Hunk>)
    requires AllRenderable(groups, before, after)
    ensures hunks == Hunks(groups, before, after)
  {
    hunks := [];
    var k := 0;
    while k < |groups|
      invariant 0 <= k <= |groups| && AllRenderable(groups[k..], before, after)
      invariant hunks + Hunks(groups[k..], before, after) == Hunks(groups, before, after)
    {
      var hunk := RenderHunk(groups, k, before, after);
      Regroup(hunks, [hunk], Hunks(groups[k + 1..], before, after));
      hunks := hunks + [hunk];
      k := k + 1;
    }
  }

  const CONTEXT: nat := 3

  /** generate_diff. Applying the hunks to before gives after's text line by line, and after itself exactly when
      the lines outside the hunks agree including their endings, that is when the files are the same, or the
      opcodes hold a change and the lines out of reach of one agree; the counts are those of the opcodes, and the
      hunks' own counts exceed them by the ending-only differences shown. */
  method GenerateDiff(before: seq<Line>, after: seq<Line>, ops: seq<Op>)
    returns (hunks: seq<Hunk>, additions: int, removals: int)
    requires Tiles(ops, before, after)
    ensures before == after ==> hunks == [] && additions == 0 && removals == 0
    ensures before != after ==> additions == Adds(ops) && removals == Removes(ops)
    ensures additions - removals == |after| - |before|
    ensures var p := Patch(before, hunks, 0, 0);
            && p.Some? && |p.value| == |after|
            && forall k :: 0 <= k < |after| ==> p.value[k].text == after[k].text
    ensures before != after ==>
              var groups := Changed(Split(ops, [], 3));
              && Linked(groups, 0, 0, before, after)
              && AllRenderable(groups, before, after)
              && hunks == Hunks(groups, before, after)
              && Total(Added, hunks) == additions + ShownIn(groups, before, after)
              && Total(Removed, hunks) == removals + ShownIn(groups, before, after)
              && (Patch(before, hunks, 0, 0) == Some(after) <==> GapsIdentical(groups, 0, 0, before, after))
    ensures NoAdjacentEquals(ops) ==>
              (Patch(before, hunks, 0, 0) == Some(after) <==>
               before == after || (HasChange(ops) && HiddenSame(ops, true, 3, before, after)))
  {
    if before == after {
      return [], 0, 0;
    }
    additions, removals := 0, 0;
    var k := 0;
    while k < |ops|
      invariant 0 <= k <= |ops|
      invariant additions + Adds(ops[k..]) == Adds(ops) && removals + Removes(ops[k..]) == Removes(ops)
    {
      var op := ops[k];
      assert ops[k..][1..] == ops[k + 1..];
      if op.tag.Replace? || op.tag.Delete? { removals := removals + (op.i2 - op.i1); }
      if op.tag.Replace? || op.tag.Insert? { additions := additions + (op.j2 - op.j1); }
      k := k + 1;
    }
    ChainEqualLengths(ops, 0, 0, |before|, |after|, before, after);
    var groups := SplitGroups(ops, CONTEXT);
    GroupsCover(ops, CONTEXT, before, after);
    LinkedRenderable(groups, 0, 0, before, after);
    hunks := RenderHunks(groups, before, after);
    CountHunks(groups, before, after);
    SumsOfChanges(Flatten(groups));
    SumsOfChanges(ops);
    NetChange(ops, 0, 0, |before|, |after|, before, after);
    PatchGives(groups, 0, 0, before, after);
    MergedText(groups, 0, 0, before, after);
    MergedExact(groups, 0, 0, before, after);
    assert after[0..] == after;
    if NoAdjacentEquals(ops) { PatchExact(ops, CONTEXT, before, after); }
  }
}
