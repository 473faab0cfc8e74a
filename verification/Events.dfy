/** The in-process event bus (src/plugins/events.py): subscriptions and topic matching. */
module Events {
  import opened Common

  /** A pattern with its callback. A callback is known by the plugin it was made for and a serial number,
      which stands for the identity of the function object. */
  datatype Subscription = Subscription(pattern: string, owner: string, serial: nat)

  // ----- topics -----

  ghost predicate Undotted(segments: seq<string>) {
    forall i :: 0 <= i < |segments| ==> '.' !in segments[i]
  }

  function Split(s: string): (segments: seq<string>)
    ensures segments != [] && Undotted(segments)
  {
    if s == "" then [""]
    else if s[0] == '.' then [""] + Split(s[1..])
    else
      var rest := Split(s[1..]);
      [[s[0]] + rest[0]] + rest[1..]
  }

  function Join(segments: seq<string>): string
    requires segments != []
  {
    if |segments| == 1 then segments[0] else segments[0] + "." + Join(segments[1..])
  }

  lemma {:induction false} JoinSplit(s: string)
    ensures Join(Split(s)) == s
  {
    if s != "" {
      JoinSplit(s[1..]);
      var rest := Split(s[1..]);
      if s[0] != '.' && |rest| > 1 {
        assert ([[s[0]] + rest[0]] + rest[1..])[1..] == rest[1..];
      } else if s[0] == '.' {
        assert ([""] + rest)[1..] == rest;
      }
    }
  }

  /** The segments of a topic are determined by having no dots and joining to it. */
  lemma {:induction false} SplitJoin(segments: seq<string>)
    requires segments != [] && Undotted(segments)
    ensures Split(Join(segments)) == segments
  {
    var first, rest := segments[0], segments[1..];
    assert '.' !in first;
    if rest == [] {
      SplitFront(first, "", "", []);
      assert first + "" == first && segments == [first];
    } else {
      SplitJoin(rest);
      var tail := "." + Join(rest);
      assert tail[0] == '.' && tail[1..] == Join(rest);
      SplitFront(first, tail, "", rest);
      Regroup(first, ".", Join(rest));
      assert first + "" == first && segments == [first] + rest;
    }
  }

  lemma SplitCons(c: char, text: string, first: string, later: seq<string>)
    requires c != '.' && Split(text) == [first] + later
    ensures Split([c] + text) == [[c] + first] + later
  {
    assert ([c] + text)[1..] == text && ([first] + later)[1..] == later;
  }

  lemma {:induction false} SplitFront(s: string, text: string, first: string, later: seq<string>)
    requires '.' !in s && Split(text) == [first] + later
    ensures Split(s + text) == [s + first] + later
  {
    if s == "" {
      assert s + text == text && s + first == first;
    } else {
      SplitFront(s[1..], text, first, later);
      SplitCons(s[0], s[1..] + text, s[1..] + first, later);
      assert [s[0]] + s[1..] == s;
      Regroup([s[0]], s[1..], text);
      Regroup([s[0]], s[1..], first);
    }
  }

  /** A segment list matches when it is covered segment by segment, up to the first ">". */
  predicate SegmentsMatch(p: seq<string>, t: seq<string>)
    decreases |p|
  {
    if p == [] then t == []
    else p[0] == ">" || (t != [] && (p[0] == "*" || p[0] == t[0]) && SegmentsMatch(p[1..], t[1..]))
  }

  predicate Matches(pattern: string, topic: string) { SegmentsMatch(Split(pattern), Split(topic)) }

  /** match_topic. */
  method MatchTopic(pattern: string, topic: string) returns (matched: bool)
    ensures matched == Matches(pattern, topic)
  {
    var p, t := Split(pattern), Split(topic);
    assert p[0..] == p && t[0..] == t;
    for i := 0 to |p|
      invariant i <= |t| && SegmentsMatch(p, t) == SegmentsMatch(p[i..], t[i..])
    {
      assert p[i..][1..] == p[i + 1..];
      if p[i] == ">" { return true; }
      if i >= |t| { return false; }
      assert t[i..][1..] == t[i + 1..];
      if p[i] == "*" { continue; }
      if p[i] != t[i] { return false; }
    }
    return |p| == |t|;
  }

  ghost predicate CoversTo(p: seq<string>, t: seq<string>, j: nat)
    requires j <= |p| && j <= |t|
  {
    forall i :: 0 <= i < j ==> p[i] != ">" && (p[i] == "*" || p[i] == t[i])
  }

  /** Without recursion: either the pattern has no ">" and covers the topic segment by segment, or the part
      before its first ">" covers that many leading segments, whatever follows on either side. */
  lemma {:induction false} MatchMeans(p: seq<string>, t: seq<string>)
    ensures SegmentsMatch(p, t) <==>
            || (|p| == |t| && CoversTo(p, t, |p|))
            || (exists j :: 0 <= j < |p| && j <= |t| && p[j] == ">" && CoversTo(p, t, j))
    decreases |p|
  {
    if p != [] && p[0] != ">" && t != [] && (p[0] == "*" || p[0] == t[0]) {
      var p', t' := p[1..], t[1..];
      MatchMeans(p', t');
      assert forall i :: 0 <= i < |p'| ==> p'[i] == p[i + 1];
      assert forall i :: 0 <= i < |t'| ==> t'[i] == t[i + 1];
      if |p'| == |t'| && CoversTo(p', t', |p'|) {
        assert forall i :: 1 <= i < |p| ==> p[i] == p'[i - 1] && t[i] == t'[i - 1];
        assert CoversTo(p, t, |p|);
      }
      if j :| 0 <= j < |p'| && j <= |t'| && p'[j] == ">" && CoversTo(p', t', j) {
        assert forall i :: 1 <= i <= j ==> p[i] == p'[i - 1] && t[i] == t'[i - 1];
        assert p[j + 1] == ">" && CoversTo(p, t, j + 1);
      }
      if j :| 0 <= j < |p| && j <= |t| && p[j] == ">" && CoversTo(p, t, j) {
        assert j > 0 && p'[j - 1] == ">" && CoversTo(p', t', j - 1);
      }
    } else if p != [] && p[0] == ">" {
      assert CoversTo(p, t, 0);
    }
  }

  // ----- the subscription list -----

  function Except(bus: seq<Subscription>, removed: seq<Subscription>): seq<Subscription> {
    if bus == [] then []
    else (if bus[0] in removed then [] else [bus[0]]) + Except(bus[1..], removed)
  }

  /** The subscriptions of one plugin, in order. */
  function Owned(bus: seq<Subscription>, owner: string): seq<Subscription> {
    if bus == [] then []
    else (if bus[0].owner == owner then [bus[0]] else []) + Owned(bus[1..], owner)
  }

  /** The bus without the subscriptions of some plugins. */
  function Without(bus: seq<Subscription>, gone: set<string>): seq<Subscription> {
    if bus == [] then []
    else (if bus[0].owner in gone then [] else [bus[0]]) + Without(bus[1..], gone)
  }

  function Delivered(bus: seq<Subscription>, topic: string): seq<Subscription> {
    if bus == [] then []
    else (if Matches(bus[0].pattern, topic) then [bus[0]] else []) + Delivered(bus[1..], topic)
  }

  class EventBus {
    var subs: seq<Subscription>

    constructor ()
      ensures subs == []
    {
      subs := [];
    }

    method Subscribe(x: Subscription)
      modifies this
      ensures subs == old(subs) + [x]
    {
      subs := subs + [x];
    }

    /** Every entry with this pattern and this very callback goes. */
    method Unsubscribe(x: Subscription)
      modifies this
      ensures subs == Except(old(subs), [x])
    {
      var kept: seq<Subscription>, i := [], 0;
      assert subs[0..] == subs;
      while i < |subs|
        invariant subs == old(subs)
        invariant 0 <= i <= |subs| && kept + Except(subs[i..], [x]) == Except(subs, [x])
      {
        assert subs[i..][1..] == subs[i + 1..];
        if subs[i] != x {
          assert (kept + [subs[i]]) + Except(subs[i + 1..], [x]) == kept + ([subs[i]] + Except(subs[i + 1..], [x]));
          kept := kept + [subs[i]];
        } else {
          assert [] + Except(subs[i + 1..], [x]) == Except(subs[i + 1..], [x]);
        }
        i := i + 1;
      }
      subs := kept;
    }

    /** publish: the callbacks that are called, in order. */
    method Publish(topic: string) returns (called: seq<Subscription>)
      ensures called == Delivered(subs, topic)
    {
      called := [];
      var i := 0;
      assert subs[0..] == subs;
      while i < |subs|
        invariant 0 <= i <= |subs| && called + Delivered(subs[i..], topic) == Delivered(subs, topic)
      {
        assert subs[i..][1..] == subs[i + 1..];
        ghost var rest := Delivered(subs[i + 1..], topic);
        var matched := MatchTopic(subs[i].pattern, topic);
        if matched {
          assert (called + [subs[i]]) + rest == called + ([subs[i]] + rest);
          called := called + [subs[i]];
        } else {
          assert [] + rest == rest;
        }
        i := i + 1;
      }
    }
  }

  lemma {:induction false} ExceptTwice(bus: seq<Subscription>, a: seq<Subscription>, b: seq<Subscription>)
    ensures Except(Except(bus, a), b) == Except(bus, a + b)
  {
    if bus != [] {
      ExceptTwice(bus[1..], a, b);
      if bus[0] !in a {
        assert ([bus[0]] + Except(bus[1..], a))[1..] == Except(bus[1..], a);
      } else {
        assert [] + Except(bus[1..], a) == Except(bus[1..], a);
      }
    }
  }

  lemma {:induction false} ExceptNone(bus: seq<Subscription>, none: seq<Subscription>)
    requires none == []
    ensures Except(bus, none) == bus
  {
    if bus != [] { ExceptNone(bus[1..], none); }
  }

  /** Unsubscribing all of a plugin's own entries takes out the plugin and nothing else. */
  lemma {:induction false} ExceptOwned(bus: seq<Subscription>, removed: seq<Subscription>, owner: string)
    requires forall x :: x in bus ==> (x in removed <==> x.owner == owner)
    ensures Except(bus, removed) == Without(bus, {owner})
  {
    if bus != [] {
      assert bus[0] in bus && forall x :: x in bus[1..] ==> x in bus;
      ExceptOwned(bus[1..], removed, owner);
    }
  }

  lemma {:induction false} WithoutMember(bus: seq<Subscription>, gone: set<string>, x: Subscription)
    ensures x in Without(bus, gone) <==> x in bus && x.owner !in gone
  {
    if bus != [] {
      WithoutMember(bus[1..], gone, x);
      assert bus == [bus[0]] + bus[1..];
    }
  }

  lemma {:induction false} WithoutTwice(bus: seq<Subscription>, a: set<string>, b: set<string>)
    ensures Without(Without(bus, a), b) == Without(bus, a + b)
  {
    if bus != [] {
      WithoutTwice(bus[1..], a, b);
      if bus[0].owner !in a {
        assert ([bus[0]] + Without(bus[1..], a))[1..] == Without(bus[1..], a);
      } else {
        assert [] + Without(bus[1..], a) == Without(bus[1..], a);
      }
    }
  }

  lemma {:induction false} WithoutNone(bus: seq<Subscription>, none: set<string>)
    requires none == {}
    ensures Without(bus, none) == bus
  {
    if bus != [] { WithoutNone(bus[1..], none); }
  }

  lemma {:induction false} WithoutOwned(bus: seq<Subscription>, gone: set<string>, owner: string)
    ensures Owned(Without(bus, gone), owner) == if owner in gone then [] else Owned(bus, owner)
  {
    if bus != [] {
      WithoutOwned(bus[1..], gone, owner);
      if bus[0].owner !in gone {
        assert ([bus[0]] + Without(bus[1..], gone))[1..] == Without(bus[1..], gone);
      } else {
        assert [] + Without(bus[1..], gone) == Without(bus[1..], gone);
      }
    }
  }

  lemma {:induction false} OwnedMember(bus: seq<Subscription>, owner: string, x: Subscription)
    ensures x in Owned(bus, owner) <==> x in bus && x.owner == owner
  {
    if bus != [] {
      OwnedMember(bus[1..], owner, x);
      assert bus == [bus[0]] + bus[1..];
    }
  }

  lemma {:induction false} OwnedAppend(a: seq<Subscription>, b: seq<Subscription>, owner: string)
    ensures Owned(a + b, owner) == Owned(a, owner) + Owned(b, owner)
  {
    if a == [] {
      assert a + b == b;
    } else {
      ConsAppend(a, b);
      OwnedAppend(a[1..], b, owner);
      Regroup(if a[0].owner == owner then [a[0]] else [], Owned(a[1..], owner), Owned(b, owner));
    }
  }

  lemma {:induction false} OwnedUniform(bus: seq<Subscription>, owner: string, source: string)
    requires forall x :: x in bus ==> x.owner == source
    ensures Owned(bus, owner) == if owner == source then bus else []
  {
    if bus != [] {
      assert bus[0] in bus && forall x :: x in bus[1..] ==> x in bus;
      OwnedUniform(bus[1..], owner, source);
    }
  }

  lemma {:induction false} DeliveredMember(bus: seq<Subscription>, topic: string, x: Subscription)
    ensures x in Delivered(bus, topic) <==> x in bus && Matches(x.pattern, topic)
  {
    if bus != [] {
      DeliveredMember(bus[1..], topic, x);
      assert bus == [bus[0]] + bus[1..];
    }
  }

  /** Callbacks are called in the order of their subscriptions, and as often as they are subscribed. */
  lemma {:induction false} DeliveredInOrder(a: seq<Subscription>, x: Subscription, b: seq<Subscription>, topic: string)
    ensures Delivered(a + ([x] + b), topic) ==
            Delivered(a, topic) + ((if Matches(x.pattern, topic) then [x] else []) + Delivered(b, topic))
  {
    var rest := (if Matches(x.pattern, topic) then [x] else []) + Delivered(b, topic);
    if a == [] {
      assert a + ([x] + b) == [x] + b && ([x] + b)[1..] == b && [] + rest == rest;
    } else {
      ConsAppend(a, [x] + b);
      DeliveredInOrder(a[1..], x, b, topic);
      Regroup(if Matches(a[0].pattern, topic) then [a[0]] else [], Delivered(a[1..], topic), rest);
    }
  }

  /** What is not unsubscribed stays, in its order. */
  lemma {:induction false} ExceptInOrder(a: seq<Subscription>, x: Subscription, b: seq<Subscription>,
                                         removed: seq<Subscription>)
    ensures Except(a + ([x] + b), removed) ==
            Except(a, removed) + ((if x in removed then [] else [x]) + Except(b, removed))
  {
    var rest := (if x in removed then [] else [x]) + Except(b, removed);
    if a == [] {
      assert a + ([x] + b) == [x] + b && ([x] + b)[1..] == b && [] + rest == rest;
    } else {
      ConsAppend(a, [x] + b);
      ExceptInOrder(a[1..], x, b, removed);
      Regroup(if a[0] in removed then [] else [a[0]], Except(a[1..], removed), rest);
    }
  }
}
