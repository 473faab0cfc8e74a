/** The notification queue (src/daemon/notifications.py): one global queue in publication order, a
    limit per session that evicts that session's oldest entry, and an archive of what was consumed. */
module Notifications {
  import opened Common

  const ARCHIVE_SIZE: nat := 200

  /** stamp numbers the publications; an empty session means none. */
  datatype Entry = Entry(nid: string, session: string, response: string, stamp: nat)

  datatype Store = Store(queue: seq<Entry>, archive: seq<Entry>, counts: map<string, nat>)

  const EMPTY := Store([], [], map[])

  /** The entries of one session, in order. */
  function Of(q: seq<Entry>, s: string): seq<Entry> {
    if q == [] then [] else (if q[0].session == s then [q[0]] else []) + Of(q[1..], s)
  }

  /** The entries of all other sessions, in order. */
  function Except(q: seq<Entry>, s: string): seq<Entry> {
    if q == [] then [] else (if q[0].session == s then [] else [q[0]]) + Except(q[1..], s)
  }

  /** The queue without the oldest entry of a session. */
  function WithoutOldest(q: seq<Entry>, s: string): seq<Entry> {
    if q == [] then [] else if q[0].session == s then q[1..] else [q[0]] + WithoutOldest(q[1..], s)
  }

  function LastN<T>(s: seq<T>, n: nat): seq<T> { if |s| <= n then s else s[|s| - n..] }

  function Count(st: Store, s: string): nat { if s in st.counts then st.counts[s] else 0 }

  // ----- the operations -----

  function AfterPublish(st: Store, e: Entry, limit: nat): Store {
    if e.session == "" then st.(queue := st.queue + [e])
    else
      var count := Count(st, e.session) + 1;
      if count > limit && Of(st.queue, e.session) != [] then
        st.(queue := WithoutOldest(st.queue, e.session) + [e], counts := st.counts[e.session := count - 1])
      else st.(queue := st.queue + [e], counts := st.counts[e.session := count])
  }

  function AfterConsumePending(st: Store): Store {
    Store([], LastN(st.archive + st.queue, ARCHIVE_SIZE), map[])
  }

  function AfterConsumeBySession(st: Store, s: string): Store {
    if s == "" || Of(st.queue, s) == [] then st
    else Store(Except(st.queue, s), LastN(st.archive + Of(st.queue, s), ARCHIVE_SIZE), st.counts - {s})
  }

  class NotificationManager {
    const maxPerSession: nat
    var store: Store

    constructor (maxPerSession: nat)
      ensures store == EMPTY && this.maxPerSession == maxPerSession
    {
      this.maxPerSession := maxPerSession;
      store := EMPTY;
    }

    method Publish(e: Entry)
      modifies this
      ensures store == AfterPublish(old(store), e, maxPerSession)
    {
      if e.session != "" {
        var count := Count(store, e.session) + 1;
        var queue, counts := store.queue, store.counts[e.session := count];
        if count > maxPerSession {
          var found;
          found, queue := DropOldest(queue, e.session);
          if found {
            counts := store.counts[e.session := count - 1];
          }
        }
        store := Store(queue, store.archive, counts);
      }
      store := store.(queue := store.queue + [e]);
    }

    static method DropOldest(q: seq<Entry>, s: string) returns (found: bool, r: seq<Entry>)
      ensures found <==> Of(q, s) != []
      ensures r == WithoutOldest(q, s) && (!found ==> r == q)
    {
      var i := 0;
      assert q[0..] == q;
      while i < |q| && q[i].session != s
        invariant 0 <= i <= |q|
        invariant q[..i] + WithoutOldest(q[i..], s) == WithoutOldest(q, s) && Of(q[i..], s) == Of(q, s)
      {
        assert q[i..][1..] == q[i + 1..] && q[..i] + [q[i]] == q[..i + 1];
        Regroup(q[..i], [q[i]], WithoutOldest(q[i + 1..], s));
        i := i + 1;
      }
      if i == |q| {
        assert q[i..] == [] && q[..i] == q;
        return false, q;
      }
      assert q[i..][1..] == q[i + 1..];
      return true, q[..i] + q[i + 1..];
    }

    /** Returns what was pending, oldest first. */
    method ConsumePending() returns (r: seq<Entry>)
      requires |store.archive| <= ARCHIVE_SIZE
      modifies this
      ensures r == old(store).queue && store == AfterConsumePending(old(store))
    {
      r := store.queue;
      var archive, i := store.archive, 0;
      while i < |r|
        invariant store == old(store)
        invariant 0 <= i <= |r| && archive == LastN(store.archive + r[..i], ARCHIVE_SIZE)
      {
        Regroup(store.archive, r[..i], [r[i]]);
        assert r[..i] + [r[i]] == r[..i + 1];
        LastNAgain(store.archive + r[..i], r[i], ARCHIVE_SIZE);
        archive := LastN(archive + [r[i]], ARCHIVE_SIZE);
        i := i + 1;
      }
      assert r[..i] == r;
      store := Store([], archive, map[]);
    }

    /** Returns how many entries of the session were consumed. */
    method ConsumeBySession(s: string) returns (n: nat)
      requires |store.archive| <= ARCHIVE_SIZE
      modifies this
      ensures store == AfterConsumeBySession(old(store), s)
      ensures n == if s == "" then 0 else |Of(old(store).queue, s)|
    {
      if s == "" { return 0; }
      var removed := Of(store.queue, s);
      if removed == [] { return 0; }
      var kept, archive := MoveToArchive(store.queue, store.archive, s);
      store := Store(kept, archive, store.counts - {s});
      return |removed|;
    }

    static method MoveToArchive(q: seq<Entry>, archive0: seq<Entry>, s: string)
      returns (kept: seq<Entry>, archive: seq<Entry>)
      requires |archive0| <= ARCHIVE_SIZE
      ensures kept == Except(q, s) && archive == LastN(archive0 + Of(q, s), ARCHIVE_SIZE)
    {
      kept, archive := [], archive0;
      var i := 0;
      while i < |q|
        invariant 0 <= i <= |q|
        invariant kept == Except(q[..i], s) && archive == LastN(archive0 + Of(q[..i], s), ARCHIVE_SIZE)
      {
        assert q[..i + 1] == q[..i] + [q[i]];
        SelectLast(q[..i], q[i], s);
        if q[i].session == s {
          Regroup(archive0, Of(q[..i], s), [q[i]]);
          LastNAgain(archive0 + Of(q[..i], s), q[i], ARCHIVE_SIZE);
          archive := LastN(archive + [q[i]], ARCHIVE_SIZE);
        } else {
          kept := kept + [q[i]];
        }
        i := i + 1;
      }
      assert q[..i] == q;
    }

    /** Pending entries first, then the archive. */
    method GetByNid(nid: string) returns (r: Option<string>)
      ensures r.None? <==> forall e :: e in store.queue || e in store.archive ==> e.nid != nid
      ensures r.Some? ==> exists k :: FirstWith(store.queue + store.archive, nid, k)
                                      && r.value == (store.queue + store.archive)[k].response
    {
      var all := store.queue + store.archive;
      assert forall e :: e in all <==> e in store.queue || e in store.archive;
      var k := 0;
      while k < |all|
        invariant 0 <= k <= |all| && forall j :: 0 <= j < k ==> all[j].nid != nid
      {
        if all[k].nid == nid { return Some(all[k].response); }
        k := k + 1;
      }
      return None;
    }
  }

  ghost predicate FirstWith(all: seq<Entry>, nid: string, k: int) {
    0 <= k < |all| && all[k].nid == nid && forall j :: 0 <= j < k ==> all[j].nid != nid
  }

  /** A bounded deque drops at its front what an append pushes over the bound. */
  lemma LastNAgain<T>(x: seq<T>, e: T, n: nat)
    ensures LastN(LastN(x, n) + [e], n) == LastN(x + [e], n)
  {}

  // ----- runs -----

  /** A publication carries everything but its stamp. */
  datatype Op = Publishing(nid: string, session: string, response: string) | ConsumingAll | Consuming(session: string)

  /** What happened: every published entry, in order, and where entries that left the queue went. */
  datatype Trace = Trace(store: Store, published: seq<Entry>, consumed: seq<Entry>, evicted: seq<Entry>)

  const START := Trace(EMPTY, [], [], [])

  function Apply(t: Trace, op: Op, limit: nat): Trace {
    match op
    case Publishing(nid, session, response) =>
      var e := Entry(nid, session, response, |t.published|);
      var out := if session != "" && Count(t.store, session) + 1 > limit then Of(t.store.queue, session) else [];
      Trace(AfterPublish(t.store, e, limit), t.published + [e], t.consumed,
            t.evicted + if out == [] then [] else [out[0]])
    case ConsumingAll =>
      t.(store := AfterConsumePending(t.store), consumed := t.consumed + t.store.queue)
    case Consuming(s) =>
      t.(store := AfterConsumeBySession(t.store, s),
         consumed := t.consumed + if s == "" then [] else Of(t.store.queue, s))
  }

  /** The run is given with its last operation at the end. */
  function Run(ops: seq<Op>, limit: nat): Trace {
    if ops == [] then START else Apply(Run(ops[..|ops| - 1], limit), ops[|ops| - 1], limit)
  }

  /** Reference: what session s has published since it was last consumed. */
  function Since(ops: seq<Op>, limit: nat, s: string): seq<Entry> {
    if ops == [] then []
    else
      var before, op := ops[..|ops| - 1], ops[|ops| - 1];
      match op
      case Publishing(nid, session, response) =>
        Since(before, limit, s) +
        if session == s then [Entry(nid, session, response, |Run(before, limit).published|)] else []
      case ConsumingAll => []
      case Consuming(c) => if c == s && s != "" then [] else Since(before, limit, s)
  }

  // ----- facts about selections -----

  lemma {:induction false} OfAppend(a: seq<Entry>, b: seq<Entry>, s: string)
    ensures Of(a + b, s) == Of(a, s) + Of(b, s)
  {
    if a == [] {
      assert a + b == b;
    } else {
      ConsAppend(a, b);
      OfAppend(a[1..], b, s);
      Regroup(if a[0].session == s then [a[0]] else [], Of(a[1..], s), Of(b, s));
    }
  }

  lemma {:induction false} ExceptAppend(a: seq<Entry>, b: seq<Entry>, s: string)
    ensures Except(a + b, s) == Except(a, s) + Except(b, s)
  {
    if a == [] {
      assert a + b == b;
    } else {
      ConsAppend(a, b);
      ExceptAppend(a[1..], b, s);
      Regroup(if a[0].session == s then [] else [a[0]], Except(a[1..], s), Except(b, s));
    }
  }

  lemma SelectLast(q: seq<Entry>, e: Entry, s: string)
    ensures Of(q + [e], s) == if e.session == s then Of(q, s) + [e] else Of(q, s)
    ensures Except(q + [e], s) == if e.session == s then Except(q, s) else Except(q, s) + [e]
  {
    assert [e][1..] == [];
    OfAppend(q, [e], s);
    ExceptAppend(q, [e], s);
  }

  lemma {:induction false} OfExcept(q: seq<Entry>, s: string, other: string)
    ensures Of(Except(q, s), other) == if other == s then [] else Of(q, other)
  {
    if q != [] {
      OfExcept(q[1..], s, other);
      OfAppend(if q[0].session == s then [] else [q[0]], Except(q[1..], s), other);
      assert q[0].session != s ==> [q[0]][1..] == [];
    }
  }

  lemma {:induction false} OfWithoutOldest(q: seq<Entry>, s: string, other: string)
    requires Of(q, s) != []
    ensures Of(WithoutOldest(q, s), other) == if other == s then Of(q, s)[1..] else Of(q, other)
  {
    if q[0].session != s {
      OfWithoutOldest(q[1..], s, other);
      assert ([q[0]] + WithoutOldest(q[1..], s))[1..] == WithoutOldest(q[1..], s);
    }
  }

  // ----- the counter map -----

  /** The redundant counter map is exact and no session exceeds the limit; a limit of zero still
      leaves one entry, as the newest is kept in any case. */
  ghost predicate Counted(st: Store, limit: nat) {
    && "" !in st.counts
    && forall s :: s != "" ==> Count(st, s) == |Of(st.queue, s)| <= Max(1, limit)
  }

  lemma PublishOf(st: Store, e: Entry, limit: nat, s: string)
    ensures Of(AfterPublish(st, e, limit).queue, s) ==
            if e.session != s then Of(st.queue, s)
            else (if s != "" && Count(st, s) + 1 > limit && Of(st.queue, s) != [] then Of(st.queue, s)[1..]
                  else Of(st.queue, s)) + [e]
  {
    assert [e][1..] == [] && Of([e], s) == if e.session == s then [e] else [];
    OfAppend(st.queue, [e], s);
    if e.session != "" && Of(st.queue, e.session) != [] {
      OfWithoutOldest(st.queue, e.session, s);
      OfAppend(WithoutOldest(st.queue, e.session), [e], s);
    }
  }

  lemma ConsumeOf(st: Store, c: string, s: string)
    ensures Of(AfterConsumeBySession(st, c).queue, s) == if c == s && s != "" then [] else Of(st.queue, s)
  {
    OfExcept(st.queue, c, s);
  }

  lemma ApplyCounted(t: Trace, op: Op, limit: nat)
    requires Counted(t.store, limit)
    ensures Counted(Apply(t, op, limit).store, limit)
  {
    var st' := Apply(t, op, limit).store;
    forall s | s != "" ensures Count(st', s) == |Of(st'.queue, s)| <= Max(1, limit) {
      match op
      case Publishing(nid, session, response) =>
        PublishOf(t.store, Entry(nid, session, response, |t.published|), limit, s);
      case ConsumingAll =>
      case Consuming(c) => ConsumeOf(t.store, c, s);
    }
  }

  lemma {:induction false} RunCounted(ops: seq<Op>, limit: nat)
    ensures Counted(Run(ops, limit).store, limit)
  {
    if ops != [] {
      RunCounted(ops[..|ops| - 1], limit);
      ApplyCounted(Run(ops[..|ops| - 1], limit), ops[|ops| - 1], limit);
    }
  }

  // ----- what is pending, and in which order -----

  lemma LastNStep<T>(x: seq<T>, e: T, limit: nat)
    ensures var m := Max(1, limit);
            var l := LastN(x, m);
            (if |l| + 1 > limit && l != [] then l[1..] else l) + [e] == LastN(x + [e], m)
  {}

  lemma PublishPending(st: Store, e: Entry, limit: nat, s: string, since: seq<Entry>)
    requires Counted(st, limit)
    requires Of(st.queue, s) == if s == "" then since else LastN(since, Max(1, limit))
    ensures var since' := if e.session == s then since + [e] else since;
            Of(AfterPublish(st, e, limit).queue, s) == if s == "" then since' else LastN(since', Max(1, limit))
  {
    PublishOf(st, e, limit, s);
    LastNStep(since, e, limit);
    assert s != "" ==> Count(st, s) == |Of(st.queue, s)|;
  }

  /** Main result: over every run, what is pending for a session is exactly the newest `limit` of what
      it has published since it was last consumed; nothing another session does can remove it.
      Entries without a session are never evicted. */
  lemma {:induction false} PendingOfSession(ops: seq<Op>, limit: nat, s: string)
    ensures Of(Run(ops, limit).store.queue, s) ==
            if s == "" then Since(ops, limit, s) else LastN(Since(ops, limit, s), Max(1, limit))
  {
    if ops != [] {
      var before, op := ops[..|ops| - 1], ops[|ops| - 1];
      PendingOfSession(before, limit, s);
      var t, since := Run(before, limit), Since(before, limit, s);
      match op
      case Publishing(nid, session, response) =>
        RunCounted(before, limit);
        var e := Entry(nid, session, response, |t.published|);
        PublishPending(t.store, e, limit, s, since);
        assert Since(ops, limit, s) == if session == s then since + [e] else since;
      case ConsumingAll =>
        assert Since(ops, limit, s) == [] && Run(ops, limit).store.queue == [];
      case Consuming(c) =>
        ConsumeOf(t.store, c, s);
        assert Since(ops, limit, s) == if c == s && s != "" then [] else since;
    }
  }

  /** Stamps ascend between lo and hi. */
  ghost predicate Stamped(q: seq<Entry>, lo: nat, hi: nat) {
    if q == [] then lo <= hi else lo <= q[0].stamp && Stamped(q[1..], q[0].stamp + 1, hi)
  }

  lemma {:induction false} StampedFrom(q: seq<Entry>, lo: nat, lo': nat, hi: nat)
    requires Stamped(q, lo, hi) && lo' <= lo
    ensures Stamped(q, lo', hi)
  {}

  lemma {:induction false} StampedExcept(q: seq<Entry>, s: string, lo: nat, hi: nat)
    requires Stamped(q, lo, hi)
    ensures Stamped(Except(q, s), lo, hi)
  {
    if q != [] {
      StampedExcept(q[1..], s, q[0].stamp + 1, hi);
      if q[0].session == s {
        assert Except(q, s) == Except(q[1..], s);
        StampedFrom(Except(q[1..], s), q[0].stamp + 1, lo, hi);
      } else {
        assert Except(q, s)[1..] == Except(q[1..], s);
      }
    }
  }

  lemma {:induction false} StampedWithoutOldest(q: seq<Entry>, s: string, lo: nat, hi: nat)
    requires Stamped(q, lo, hi)
    ensures Stamped(WithoutOldest(q, s), lo, hi)
  {
    if q != [] {
      if q[0].session == s {
        StampedFrom(q[1..], q[0].stamp + 1, lo, hi);
      } else {
        StampedWithoutOldest(q[1..], s, q[0].stamp + 1, hi);
        assert WithoutOldest(q, s)[1..] == WithoutOldest(q[1..], s);
      }
    }
  }

  lemma {:induction false} StampedAppend(q: seq<Entry>, e: Entry, lo: nat, hi: nat)
    requires Stamped(q, lo, hi) && e.stamp == hi
    ensures Stamped(q + [e], lo, hi + 1)
  {
    if q == [] {
      assert [e][1..] == [] && q + [e] == [e];
    } else {
      StampedAppend(q[1..], e, q[0].stamp + 1, hi);
      assert (q + [e])[1..] == q[1..] + [e];
    }
  }

  /** The queue is in publication order across sessions. */
  lemma {:induction false} QueueInOrder(ops: seq<Op>, limit: nat)
    ensures Stamped(Run(ops, limit).store.queue, 0, |Run(ops, limit).published|)
  {
    if ops != [] {
      var before, op := ops[..|ops| - 1], ops[|ops| - 1];
      QueueInOrder(before, limit);
      var t := Run(before, limit);
      var q, n := t.store.queue, |t.published|;
      match op
      case Publishing(nid, session, response) =>
        var e := Entry(nid, session, response, n);
        StampedAppend(q, e, 0, n);
        StampedWithoutOldest(q, session, 0, n);
        StampedAppend(WithoutOldest(q, session), e, 0, n);
      case ConsumingAll =>
      case Consuming(c) => StampedExcept(q, c, 0, n);
    }
  }

  // ----- conservation -----

  lemma {:induction false} ConsumedPartition(q: seq<Entry>, s: string)
    ensures multiset(q) == multiset(Of(q, s)) + multiset(Except(q, s))
  {
    if q != [] {
      assert q == [q[0]] + q[1..];
      ConsumedPartition(q[1..], s);
    }
  }

  lemma {:induction false} EvictedPartition(q: seq<Entry>, s: string)
    requires Of(q, s) != []
    ensures multiset(q) == multiset(WithoutOldest(q, s)) + multiset{Of(q, s)[0]}
  {
    assert q == [q[0]] + q[1..];
    if q[0].session != s {
      EvictedPartition(q[1..], s);
    }
  }

  /** Every published entry is, exactly once, still pending, consumed or evicted, and the archive
      holds the last consumed ones in the order of consumption. */
  ghost predicate Conserved(t: Trace) {
    && multiset(t.published) == multiset(t.store.queue) + multiset(t.consumed) + multiset(t.evicted)
    && t.store.archive == LastN(t.consumed, ARCHIVE_SIZE)
  }

  lemma PublishConserves(t: Trace, nid: string, session: string, response: string, limit: nat)
    requires Conserved(t)
    ensures Conserved(Apply(t, Publishing(nid, session, response), limit))
  {
    var e := Entry(nid, session, response, |t.published|);
    if session != "" && Count(t.store, session) + 1 > limit && Of(t.store.queue, session) != [] {
      EvictedPartition(t.store.queue, session);
    }
  }

  lemma LastNOfLastN<T>(a: seq<T>, b: seq<T>, n: nat)
    ensures LastN(LastN(a, n) + b, n) == LastN(a + b, n)
  {}

  lemma ConsumeConserves(t: Trace, s: string, limit: nat)
    requires Conserved(t)
    ensures Conserved(Apply(t, Consuming(s), limit))
  {
    var of := Of(t.store.queue, s);
    if s != "" && of != [] {
      ConsumedPartition(t.store.queue, s);
      LastNOfLastN(t.consumed, of, ARCHIVE_SIZE);
    } else {
      assert t.consumed + [] == t.consumed;
    }
  }

  lemma ConsumeAllConserves(t: Trace, limit: nat)
    requires Conserved(t)
    ensures Conserved(Apply(t, ConsumingAll, limit))
  {
    LastNOfLastN(t.consumed, t.store.queue, ARCHIVE_SIZE);
  }

  lemma {:induction false} NothingLost(ops: seq<Op>, limit: nat)
    ensures Conserved(Run(ops, limit))
  {
    if ops != [] {
      var before, op := ops[..|ops| - 1], ops[|ops| - 1];
      NothingLost(before, limit);
      match op
      case Publishing(nid, session, response) => PublishConserves(Run(before, limit), nid, session, response, limit);
      case ConsumingAll => ConsumeAllConserves(Run(before, limit), limit);
      case Consuming(s) => ConsumeConserves(Run(before, limit), s, limit);
    }
  }
}
