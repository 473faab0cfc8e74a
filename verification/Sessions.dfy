/** The session manager (src/session/manager.py): the two session tables under their lock, and the threads
    that take a session out and then, without the lock, archive and announce it. */
module Sessions {
  import opened Common

  const MAX_SESSIONS: nat := 50

  /** sessions: uid to the session's own sid; index: sid to uid. */
  datatype Tables = Tables(sessions: map<string, string>, index: map<string, string>)

  datatype CreateError = InvalidId | Exists | TooMany

  // ----- the steps that hold the lock -----

  function Create(t: Tables, sid: string, uid: string): Result<Tables, CreateError> {
    if sid == "" then Err(InvalidId)
    else if sid in t.index then Err(Exists)
    else if |t.sessions| >= MAX_SESSIONS then Err(TooMany)
    else Ok(Tables(t.sessions[uid := sid], t.index[sid := uid]))
  }

  function Pop(t: Tables, uid: string, sid: string): Tables {
    Tables(t.sessions - {uid}, if sid in t.index && t.index[sid] == uid then t.index - {sid} else t.index)
  }

  /** _lookup: a uid first, then a sid. */
  function Lookup(t: Tables, identifier: string): Option<string> {
    if identifier in t.sessions then Some(identifier)
    else if identifier in t.index && t.index[identifier] in t.sessions then Some(t.index[identifier])
    else None
  }

  /** The tables are inverse to each other. */
  ghost predicate Inverse(t: Tables) {
    && (forall u :: u in t.sessions ==> t.sessions[u] in t.index && t.index[t.sessions[u]] == u)
    && (forall i :: i in t.index ==> t.index[i] in t.sessions && t.sessions[t.index[i]] == i)
  }

  /** A listed session has this sid. */
  ghost predicate Listed(t: Tables, sid: string) { exists u :: u in t.sessions && t.sessions[u] == sid }

  /** What a creation answers, from the listed sessions alone. */
  ghost function Refusal(t: Tables, sid: string): Option<CreateError> {
    if sid == "" then Some(InvalidId)
    else if Listed(t, sid) then Some(Exists)
    else if |t.sessions| >= 50 then Some(TooMany)
    else None
  }

  /** A creation is refused exactly for an empty sid, for one that a listed session has, or next to 50 listed
      sessions; otherwise the new session is listed beside the others, and found under its uid. */
  lemma CreateDecides(t: Tables, sid: string, uid: string)
    requires Inverse(t) && uid !in t.sessions
    ensures var r := Create(t, sid, uid);
            match Refusal(t, sid)
            case Some(e) => r == Err(e)
            case None => r.Ok? && r.value.sessions == t.sessions[uid := sid] && Inverse(r.value)
                         && Lookup(r.value, uid) == Some(uid)
  {
    assert Listed(t, sid) <==> sid in t.index;
  }

  /** The second table follows from the first. */
  lemma IndexDetermined(t: Tables, t': Tables)
    requires Inverse(t) && Inverse(t') && t.sessions == t'.sessions
    ensures t == t'
  {
    forall i ensures i in t.index <==> i in t'.index {
      if i in t.index { assert t.sessions[t.index[i]] == i; }
      if i in t'.index { assert t'.sessions[t'.index[i]] == i; }
    }
    forall i | i in t.index ensures t.index[i] == t'.index[i] {
      assert t.sessions[t.index[i]] == i;
    }
    assert t.index == t'.index;
  }

  lemma CreateKeeps(t: Tables, sid: string, uid: string)
    requires Inverse(t) && |t.sessions| <= MAX_SESSIONS && uid !in t.sessions
    ensures var r := Create(t, sid, uid);
            r.Ok? ==> Inverse(r.value) && |r.value.sessions| == |t.sessions| + 1 <= MAX_SESSIONS
  {
  }

  lemma PopKeeps(t: Tables, uid: string, sid: string)
    requires Inverse(t) && (uid in t.sessions ==> t.sessions[uid] == sid)
    ensures Inverse(Pop(t, uid, sid)) && |Pop(t, uid, sid).sessions| <= |t.sessions|
  {
    if uid in t.sessions {
      assert t.sessions == (t.sessions - {uid})[uid := sid];
    } else {
      assert t.sessions - {uid} == t.sessions;
    }
  }

  /** As many sids are taken as there are sessions. */
  lemma {:induction false} SameSize(t: Tables)
    requires Inverse(t)
    ensures |t.index| == |t.sessions|
    decreases |t.sessions|
  {
    if uid :| uid in t.sessions {
      var sid := t.sessions[uid];
      assert t.sessions == (t.sessions - {uid})[uid := sid];
      assert t.index == (t.index - {sid})[sid := uid];
      PopKeeps(t, uid, sid);
      SameSize(Pop(t, uid, sid));
    } else {
      assert t.sessions == map[];
      assert t.index == map[];
    }
  }

  /** A sid finds its own session exactly when it is not the uid of a different one. */
  lemma SidFinds(t: Tables, sid: string)
    requires Inverse(t) && sid in t.index
    ensures Lookup(t, sid) == Some(t.index[sid]) <==> (sid in t.sessions ==> t.sessions[sid] == sid)
  {
  }

  /** An identifier finds nothing exactly when no session has it as uid or sid. */
  lemma LookupNone(t: Tables, identifier: string)
    requires Inverse(t)
    ensures Lookup(t, identifier) == None <==>
            forall u :: u in t.sessions ==> u != identifier && t.sessions[u] != identifier
  {
    if identifier in t.index {
      assert t.sessions[t.index[identifier]] == identifier;
    }
  }

  class SessionManager {
    var sessions: map<string, string>
    var index: map<string, string>

    function View(): Tables
      reads this
    {
      Tables(sessions, index)
    }

    constructor ()
      ensures View() == Tables(map[], map[]) && Inverse(View())
    {
      sessions, index := map[], map[];
    }

    /** The locked part of create_session; uid is the new session's. */
    method CreateSession(sid: string, uid: string) returns (error: Option<CreateError>)
      requires Inverse(View()) && |sessions| <= MAX_SESSIONS && uid !in sessions
      modifies this
      ensures error == None ==> Create(old(View()), sid, uid) == Ok(View())
      ensures error.Some? ==> Create(old(View()), sid, uid) == Err(error.value) && View() == old(View())
      ensures error == Refusal(old(View()), sid)
      ensures sessions == if error == None then old(sessions)[uid := sid] else old(sessions)
      ensures Inverse(View()) && |sessions| <= MAX_SESSIONS
    {
      CreateKeeps(View(), sid, uid);
      CreateDecides(View(), sid, uid);
      if sid == "" { return Some(InvalidId); }
      if sid in index { return Some(Exists); }
      if |sessions| >= MAX_SESSIONS { return Some(TooMany); }
      sessions := sessions[uid := sid];
      index := index[sid := uid];
      return None;
    }

    /** The locked part of a failed start, and the two assignments shared by every removal. */
    method PopSession(uid: string, sid: string)
      requires Inverse(View()) && (uid in sessions ==> sessions[uid] == sid)
      modifies this
      ensures View() == Pop(old(View()), uid, sid) && Inverse(View()) && |sessions| <= old(|sessions|)
    {
      PopKeeps(View(), uid, sid);
      sessions := sessions - {uid};
      if sid in index && index[sid] == uid {
        index := index - {sid};
      }
    }

    /** The locked part of _on_session_ended: whether this thread has to finish the session. */
    method SessionEnded(uid: string, sid: string) returns (mine: bool)
      requires Inverse(View()) && (uid in sessions ==> sessions[uid] == sid)
      modifies this
      ensures mine == (uid in old(sessions)) && uid !in sessions && Inverse(View())
      ensures View() == if mine then Pop(old(View()), uid, sid) else old(View())
    {
      if uid !in sessions { return false; }
      PopSession(uid, sid);
      return true;
    }

    method Find(identifier: string) returns (uid: Option<string>)
      ensures uid == Lookup(View(), identifier)
    {
      if identifier in sessions { return Some(identifier); }
      if identifier in index {
        var u := index[identifier];
        if u in sessions { return Some(u); }
      }
      return None;
    }

    /** The locked part of remove_session. */
    method RemoveSession(identifier: string) returns (taken: Option<string>)
      requires Inverse(View())
      modifies this
      ensures taken == Lookup(old(View()), identifier) && Inverse(View())
      ensures taken == None ==> View() == old(View())
      ensures taken.Some? ==> taken.value in old(sessions) && taken.value !in sessions
                              && View() == Pop(old(View()), taken.value, old(sessions)[taken.value])
    {
      taken := Find(identifier);
      if taken.Some? {
        PopSession(taken.value, sessions[taken.value]);
      }
    }
  }

  // ----- all threads together -----

  datatype Tag = EndedTag | HistoryTag

  datatype Phase = ToArchive | ToAnnounce | Finished

  /** A thread that has taken a session out of the tables, and what it still has to do. */
  datatype Leaver = Leaver(uid: string, tag: Tag, phase: Phase)

  datatype Record = Record(uid: string, tag: Tag)

  /** issued: every session ever created with its sid; aborted: those whose failed start took them out. */
  datatype World = World(tables: Tables, issued: map<string, string>, aborted: set<string>,
                         leavers: seq<Leaver>, archived: seq<Record>, announced: seq<string>)

  /** One step of some thread. The uid of a new session is fresh. */
  datatype Step =
    | Creates(sid: string, uid: string)
    | StartFails(uid: string)
    | Ends(uid: string)
    | Removes(identifier: string)
    | Archives(thread: nat)
    | Announces(thread: nat)

  function Take(w: World, uid: string, tag: Tag): World
    requires uid in w.issued
  {
    w.(tables := Pop(w.tables, uid, w.issued[uid]), leavers := w.leavers + [Leaver(uid, tag, ToArchive)])
  }

  function Advance(w: World, thread: nat, phase: Phase): World
    requires thread < |w.leavers|
  {
    w.(leavers := w.leavers[thread := w.leavers[thread].(phase := phase)])
  }

  function Apply(w: World, step: Step): World {
    match step
    case Creates(sid, uid) =>
      var r := Create(w.tables, sid, uid);
      if uid !in w.issued && r.Ok? then w.(tables := r.value, issued := w.issued[uid := sid]) else w
    case StartFails(uid) =>
      if uid in w.issued then
        w.(tables := Pop(w.tables, uid, w.issued[uid]),
           aborted := if uid in w.tables.sessions then w.aborted + {uid} else w.aborted)
      else w
    case Ends(uid) =>
      if uid in w.issued && uid in w.tables.sessions then Take(w, uid, EndedTag) else w
    case Removes(identifier) =>
      var taken := Lookup(w.tables, identifier);
      if taken.Some? && taken.value in w.issued then Take(w, taken.value, HistoryTag) else w
    case Archives(i) =>
      if i < |w.leavers| && w.leavers[i].phase == ToArchive then
        Advance(w, i, ToAnnounce).(archived := w.archived + [Record(w.leavers[i].uid, w.leavers[i].tag)])
      else w
    case Announces(i) =>
      if i < |w.leavers| && w.leavers[i].phase == ToAnnounce then
        Advance(w, i, Finished).(announced := w.announced + [w.leavers[i].uid])
      else w
  }

  function Run(w: World, steps: seq<Step>): World
    decreases |steps|
  {
    if steps == [] then w else Run(Apply(w, steps[0]), steps[1..])
  }

  function Count<T(==)>(s: seq<T>, x: T): nat {
    if s == [] then 0 else (if s[0] == x then 1 else 0) + Count(s[1..], x)
  }

  lemma {:induction false} CountAppend<T>(a: seq<T>, b: seq<T>, x: T)
    ensures Count(a + b, x) == Count(a, x) + Count(b, x)
  {
    if a == [] {
      assert a + b == b;
    } else {
      ConsAppend(a, b);
      CountAppend(a[1..], b, x);
    }
  }

  lemma CountLast<T>(a: seq<T>, y: T, x: T)
    ensures Count(a + [y], x) == Count(a, x) + if x == y then 1 else 0
  {
    CountAppend(a, [y], x);
    assert [y][1..] == [];
  }

  /** The thread that takes care of a session. */
  ghost predicate Takes(w: World, i: int, uid: string) { 0 <= i < |w.leavers| && w.leavers[i].uid == uid }

  ghost predicate Taken(w: World, uid: string) { exists i :: Takes(w, i, uid) }

  ghost predicate OneTaker(w: World) {
    forall i, j :: 0 <= i < j < |w.leavers| ==> w.leavers[i].uid != w.leavers[j].uid
  }

  /** Every session ever created is in exactly one place: in the tables, given up by its failed start, or
      in the hands of a thread. */
  ghost predicate Placed(w: World, uid: string) {
    && (uid in w.issued <==> uid in w.tables.sessions || uid in w.aborted || Taken(w, uid))
    && !(uid in w.tables.sessions && uid in w.aborted)
    && !(uid in w.tables.sessions && Taken(w, uid))
    && !(uid in w.aborted && Taken(w, uid))
  }

  /** One thread has archived and announced its session as often as its phase says. */
  ghost predicate LoggedAt(w: World, i: int)
    requires 0 <= i < |w.leavers|
  {
    var l := w.leavers[i];
    && Count(w.archived, Record(l.uid, l.tag)) == (if l.phase == ToArchive then 0 else 1)
    && Count(w.announced, l.uid) == (if l.phase == Finished then 1 else 0)
  }

  ghost predicate TakenAs(w: World, r: Record) {
    exists i :: Takes(w, i, r.uid) && w.leavers[i].tag == r.tag
  }

  ghost predicate Logged(w: World) {
    && (forall i :: 0 <= i < |w.leavers| ==> LoggedAt(w, i))
    && (forall r :: r in w.archived ==> TakenAs(w, r))
    && (forall uid :: uid in w.announced ==> Taken(w, uid))
  }

  ghost predicate TablesOk(w: World) {
    && Inverse(w.tables) && |w.tables.sessions| <= MAX_SESSIONS
    && forall u :: u in w.tables.sessions ==> u in w.issued && w.tables.sessions[u] == w.issued[u]
  }

  ghost predicate Inv(w: World) {
    && TablesOk(w) && OneTaker(w) && (forall uid :: Placed(w, uid)) && Logged(w)
  }

  lemma {:induction false} CountIn<T>(s: seq<T>, x: T)
    ensures Count(s, x) > 0 <==> x in s
  {
    if s != [] {
      CountIn(s[1..], x);
      assert s == [s[0]] + s[1..];
    }
  }

  lemma SameLeavers(w: World, w': World)
    requires Logged(w) && w'.leavers == w.leavers && w'.archived == w.archived && w'.announced == w.announced
    ensures Logged(w') && (OneTaker(w) ==> OneTaker(w')) && forall uid :: Taken(w', uid) <==> Taken(w, uid)
  {
    forall uid ensures Taken(w', uid) <==> Taken(w, uid) {
      if i :| Takes(w, i, uid) { assert Takes(w', i, uid); }
      if i :| Takes(w', i, uid) { assert Takes(w, i, uid); }
    }
    forall r | r in w'.archived ensures TakenAs(w', r) {
      var i :| Takes(w, i, r.uid) && w.leavers[i].tag == r.tag;
      assert Takes(w', i, r.uid);
    }
    forall i | 0 <= i < |w'.leavers| ensures LoggedAt(w', i) {
      assert LoggedAt(w, i);
    }
  }

  lemma CreateStep(w: World, sid: string, uid: string)
    requires Inv(w)
    ensures Inv(Apply(w, Creates(sid, uid)))
  {
    var w' := Apply(w, Creates(sid, uid));
    SameLeavers(w, w');
    assert forall u :: Placed(w, u);
    if uid !in w.issued { CreateKeeps(w.tables, sid, uid); }
    forall u ensures Placed(w', u) {
      assert Placed(w, u);
    }
  }

  lemma StartFailsStep(w: World, uid: string)
    requires Inv(w)
    ensures Inv(Apply(w, StartFails(uid)))
  {
    var w' := Apply(w, StartFails(uid));
    SameLeavers(w, w');
    if uid in w.issued { PopKeeps(w.tables, uid, w.issued[uid]); }
    forall u ensures Placed(w', u) {
      assert Placed(w, u);
    }
  }

  lemma TakenAfterTake(w: World, uid: string, tag: Tag, u: string)
    requires uid in w.issued
    ensures Taken(Take(w, uid, tag), u) <==> Taken(w, u) || u == uid
  {
    var w' := Take(w, uid, tag);
    if i :| Takes(w, i, u) { assert Takes(w', i, u); }
    if u == uid { assert Takes(w', |w.leavers|, u); }
    if i :| Takes(w', i, u) { assert i < |w.leavers| ==> Takes(w, i, u); }
  }

  lemma TakeLogged(w: World, uid: string, tag: Tag)
    requires Logged(w) && uid in w.issued && !Taken(w, uid)
    ensures Logged(Take(w, uid, tag))
  {
    var w' := Take(w, uid, tag);
    forall r | r in w.archived ensures r.uid != uid {
      assert TakenAs(w, r);
    }
    forall i | 0 <= i < |w'.leavers| ensures LoggedAt(w', i) {
      if i < |w.leavers| {
        assert LoggedAt(w, i);
      } else {
        CountIn(w.archived, Record(uid, tag));
        CountIn(w.announced, uid);
      }
    }
    forall r | r in w'.archived ensures TakenAs(w', r) {
      assert TakenAs(w, r);
      var i :| Takes(w, i, r.uid) && w.leavers[i].tag == r.tag;
      assert Takes(w', i, r.uid);
    }
    forall u | u in w'.announced ensures Taken(w', u) { TakenAfterTake(w, uid, tag, u); }
  }

  /** Popping a session and becoming its thread happen under the same lock, so no session gets two. */
  lemma TakeStep(w: World, uid: string, tag: Tag)
    requires Inv(w) && uid in w.tables.sessions && uid in w.issued
    ensures Inv(Take(w, uid, tag))
  {
    var w' := Take(w, uid, tag);
    assert Placed(w, uid);
    PopKeeps(w.tables, uid, w.issued[uid]);
    TakeLogged(w, uid, tag);
    forall u ensures Placed(w', u) {
      assert Placed(w, u);
      TakenAfterTake(w, uid, tag, u);
    }
    forall i, j | 0 <= i < j < |w'.leavers| ensures w'.leavers[i].uid != w'.leavers[j].uid {
      assert Takes(w, i, w.leavers[i].uid);
    }
  }

  lemma AdvanceTakes(w: World, w': World, i: nat, u: string)
    requires i < |w.leavers| == |w'.leavers|
    requires forall j :: 0 <= j < |w.leavers| ==>
               w'.leavers[j].uid == w.leavers[j].uid && w'.leavers[j].tag == w.leavers[j].tag
    ensures Taken(w', u) <==> Taken(w, u)
    ensures forall r: Record :: TakenAs(w', r) <==> TakenAs(w, r)
  {
    if j :| Takes(w, j, u) { assert Takes(w', j, u); }
    if j :| Takes(w', j, u) { assert Takes(w, j, u); }
    forall r: Record ensures TakenAs(w', r) <==> TakenAs(w, r) {
      if j :| Takes(w, j, r.uid) && w.leavers[j].tag == r.tag { assert Takes(w', j, r.uid); }
      if j :| Takes(w', j, r.uid) && w'.leavers[j].tag == r.tag { assert Takes(w, j, r.uid); }
    }
  }

  lemma ArchiveStep(w: World, i: nat)
    requires Inv(w) && i < |w.leavers| && w.leavers[i].phase == ToArchive
    ensures Inv(Apply(w, Archives(i)))
  {
    var w' := Apply(w, Archives(i));
    var l := w.leavers[i];
    var mine := Record(l.uid, l.tag);
    assert w'.archived == w.archived + [mine];
    AdvanceTakes(w, w', i, l.uid);
    forall j | 0 <= j < |w'.leavers| ensures LoggedAt(w', j) {
      assert LoggedAt(w, j);
      CountLast(w.archived, mine, Record(w.leavers[j].uid, w.leavers[j].tag));
      if i < j { assert w.leavers[i].uid != w.leavers[j].uid; }
    }
    assert Takes(w', i, l.uid);
    forall u ensures Placed(w', u) && (Taken(w', u) <==> Taken(w, u)) {
      assert Placed(w, u);
      AdvanceTakes(w, w', i, u);
    }
  }

  lemma AnnounceStep(w: World, i: nat)
    requires Inv(w) && i < |w.leavers| && w.leavers[i].phase == ToAnnounce
    ensures Inv(Apply(w, Announces(i)))
  {
    var w' := Apply(w, Announces(i));
    var l := w.leavers[i];
    assert w'.announced == w.announced + [l.uid];
    AdvanceTakes(w, w', i, l.uid);
    forall j | 0 <= j < |w'.leavers| ensures LoggedAt(w', j) {
      assert LoggedAt(w, j);
      CountLast(w.announced, l.uid, w.leavers[j].uid);
      if i < j { assert w.leavers[i].uid != w.leavers[j].uid; }
    }
    assert Takes(w', i, l.uid);
    forall u ensures Placed(w', u) && (Taken(w', u) <==> Taken(w, u)) {
      assert Placed(w, u);
      AdvanceTakes(w, w', i, u);
    }
  }

  lemma ApplyKeeps(w: World, step: Step)
    requires Inv(w)
    ensures Inv(Apply(w, step))
  {
    match step
    case Creates(sid, uid) => CreateStep(w, sid, uid);
    case StartFails(uid) => StartFailsStep(w, uid);
    case Ends(uid) => if uid in w.issued && uid in w.tables.sessions { TakeStep(w, uid, EndedTag); }
    case Removes(identifier) =>
      var taken := Lookup(w.tables, identifier);
      if taken.Some? { TakeStep(w, taken.value, HistoryTag); }
    case Archives(i) => if i < |w.leavers| && w.leavers[i].phase == ToArchive { ArchiveStep(w, i); }
    case Announces(i) => if i < |w.leavers| && w.leavers[i].phase == ToAnnounce { AnnounceStep(w, i); }
  }

  const START := World(Tables(map[], map[]), map[], {}, [], [], [])

  lemma StartOk()
    ensures Inv(START)
  {
    forall u ensures Placed(START, u) {}
  }

  lemma {:induction false} RunKeepsInv(w: World, steps: seq<Step>)
    requires Inv(w)
    ensures Inv(Run(w, steps))
    decreases |steps|
  {
    if steps != [] {
      ApplyKeeps(w, steps[0]);
      RunKeepsInv(Apply(w, steps[0]), steps[1..]);
    }
  }

  function Archivals(w: World, uid: string): nat {
    Count(w.archived, Record(uid, EndedTag)) + Count(w.archived, Record(uid, HistoryTag))
  }

  ghost predicate AllFinished(w: World) {
    forall i :: 0 <= i < |w.leavers| ==> w.leavers[i].phase == Finished
  }

  lemma LeaverCounts(w: World, i: nat)
    requires Inv(w) && i < |w.leavers|
    ensures Archivals(w, w.leavers[i].uid) == if w.leavers[i].phase == ToArchive then 0 else 1
    ensures Count(w.announced, w.leavers[i].uid) == if w.leavers[i].phase == Finished then 1 else 0
  {
    var l := w.leavers[i];
    assert LoggedAt(w, i);
    var other := Record(l.uid, if l.tag == EndedTag then HistoryTag else EndedTag);
    CountIn(w.archived, other);
    forall r | r in w.archived && r.uid == l.uid ensures r.tag == l.tag {
      assert TakenAs(w, r);
      var j :| Takes(w, j, r.uid) && w.leavers[j].tag == r.tag;
      assert j == i;
    }
  }

  lemma UntakenCounts(w: World, uid: string)
    requires Inv(w) && !Taken(w, uid)
    ensures Archivals(w, uid) == 0 && Count(w.announced, uid) == 0
  {
    CountIn(w.announced, uid);
    CountIn(w.archived, Record(uid, EndedTag));
    CountIn(w.archived, Record(uid, HistoryTag));
    forall r | r in w.archived ensures r.uid != uid { assert TakenAs(w, r); }
  }

  /** Main result, for every interleaving of creations, failed starts, natural ends, removals and the
      threads that follow them: the tables are inverse and bounded; a session that is still listed, or whose
      start failed, has been neither archived nor announced; any other has been archived at most once and
      announced at most as often as archived, and exactly once each when no thread is left to run. */
  lemma ExactlyOnce(steps: seq<Step>, uid: string)
    ensures var w := Run(START, steps);
            && Inverse(w.tables) && |w.tables.index| == |w.tables.sessions| <= MAX_SESSIONS
            && (uid in w.tables.sessions || uid in w.aborted || uid !in w.issued ==>
                  Archivals(w, uid) == 0 && Count(w.announced, uid) == 0)
            && Count(w.announced, uid) <= Archivals(w, uid) <= 1
            && (AllFinished(w) && uid in w.issued && uid !in w.tables.sessions && uid !in w.aborted ==>
                  Archivals(w, uid) == 1 && Count(w.announced, uid) == 1)
  {
    var w := Run(START, steps);
    StartOk();
    RunKeepsInv(START, steps);
    SameSize(w.tables);
    assert Placed(w, uid);
    if Taken(w, uid) {
      var i :| Takes(w, i, uid);
      LeaverCounts(w, i);
    } else {
      UntakenCounts(w, uid);
    }
  }

  // ----- what every step does -----

  /** A creation of a fresh session lists it whenever its sid is not empty, not taken, and fewer than 50 sessions
      are listed; otherwise it changes nothing. */
  lemma CreatesLists(w: World, sid: string, uid: string)
    requires Inv(w) && uid !in w.issued
    ensures var w' := Apply(w, Creates(sid, uid));
            if Refusal(w.tables, sid) == None then
              && w'.tables.sessions == w.tables.sessions[uid := sid] && w'.issued == w.issued[uid := sid]
              && w'.leavers == w.leavers && w'.aborted == w.aborted
            else w' == w
  {
    assert uid !in w.tables.sessions;
    CreateDecides(w.tables, sid, uid);
  }

  /** A listed session that ends leaves the table, alone, and has a thread of its own from then on. */
  lemma EndsTakes(w: World, uid: string)
    requires Inv(w)
    ensures var w' := Apply(w, Ends(uid));
            if uid in w.tables.sessions then
              && w'.tables.sessions == w.tables.sessions - {uid} && w'.issued == w.issued
              && w'.leavers == w.leavers + [Leaver(uid, EndedTag, ToArchive)] && w'.aborted == w.aborted
            else w' == w
  {
  }

  /** A removal takes the session with this uid, else the one with this sid, and nothing when there is neither. */
  lemma RemovesTakes(w: World, identifier: string, u: string)
    requires Inv(w)
    ensures var w' := Apply(w, Removes(identifier));
            && ((u in w.tables.sessions && u == identifier) || Sole(w.tables, identifier, u) ==>
                  && w'.tables.sessions == w.tables.sessions - {u} && w'.issued == w.issued
                  && w'.leavers == w.leavers + [Leaver(u, HistoryTag, ToArchive)] && w'.aborted == w.aborted)
            && (identifier !in w.tables.sessions && !Listed(w.tables, identifier) ==> w' == w)
  {
    LookupNone(w.tables, identifier);
  }

  ghost predicate Sole(t: Tables, sid: string, u: string) {
    sid !in t.sessions && u in t.sessions && t.sessions[u] == sid
  }

  /** A start that fails takes its session out without a thread to archive it; one whose session has already gone
      changes nothing. */
  lemma StartFailsAborts(w: World, uid: string)
    requires Inv(w)
    ensures var w' := Apply(w, StartFails(uid));
            if uid in w.tables.sessions then
              && w'.tables.sessions == w.tables.sessions - {uid} && w'.aborted == w.aborted + {uid}
              && w'.leavers == w.leavers && w'.issued == w.issued
            else w' == w
  {
    StartFailsStep(w, uid);
    if uid !in w.tables.sessions && uid in w.issued {
      assert w.tables.sessions - {uid} == w.tables.sessions;
      IndexDetermined(w.tables, Pop(w.tables, uid, w.issued[uid]));
    }
  }

  ghost predicate OnlyLeavers(steps: seq<Step>) {
    forall s :: s in steps ==> s.Archives? || s.Announces?
  }

  /** One thread runs to its end. */
  lemma ThreadFinishes(w: World, i: nat)
    requires Inv(w) && i < |w.leavers|
    ensures var w' := Apply(Apply(w, Archives(i)), Announces(i));
            && Inv(w') && w'.tables == w.tables && w'.aborted == w.aborted && w'.issued == w.issued
            && |w'.leavers| == |w.leavers| && w'.leavers[i].phase == Finished
            && forall j :: 0 <= j < |w.leavers| && j != i ==> w'.leavers[j] == w.leavers[j]
  {
    ArchivesAdvances(w, i);
    AnnouncesAdvances(Apply(w, Archives(i)), i);
  }

  ghost predicate OnlyAdvanced(w: World, w': World, i: nat) {
    && w'.tables == w.tables && w'.aborted == w.aborted && w'.issued == w.issued && |w'.leavers| == |w.leavers|
    && forall j :: 0 <= j < |w.leavers| && j != i ==> w'.leavers[j] == w.leavers[j]
  }

  lemma ArchivesAdvances(w: World, i: nat)
    requires Inv(w) && i < |w.leavers|
    ensures var w' := Apply(w, Archives(i));
            && Inv(w') && OnlyAdvanced(w, w', i)
            && w'.leavers[i].phase == if w.leavers[i].phase == ToArchive then ToAnnounce else w.leavers[i].phase
  {
    ApplyKeeps(w, Archives(i));
  }

  lemma AnnouncesAdvances(w: World, i: nat)
    requires Inv(w) && i < |w.leavers|
    ensures var w' := Apply(w, Announces(i));
            && Inv(w') && OnlyAdvanced(w, w', i)
            && w'.leavers[i].phase == if w.leavers[i].phase == ToAnnounce then Finished else w.leavers[i].phase
  {
    ApplyKeeps(w, Announces(i));
  }

  lemma {:induction false} FinishFrom(w: World, i: nat) returns (steps: seq<Step>)
    requires Inv(w) && i <= |w.leavers| && forall j :: 0 <= j < i ==> w.leavers[j].phase == Finished
    ensures var w' := Run(w, steps);
            && Inv(w') && AllFinished(w') && w'.tables == w.tables && w'.aborted == w.aborted && w'.issued == w.issued
    ensures OnlyLeavers(steps)
    decreases |w.leavers| - i
  {
    if i == |w.leavers| { return []; }
    ThreadFinishes(w, i);
    var w1 := Apply(w, Archives(i));
    var w2 := Apply(w1, Announces(i));
    var rest := FinishFrom(w2, i + 1);
    steps := [Archives(i)] + ([Announces(i)] + rest);
    RunCons(w, Archives(i), [Announces(i)] + rest);
    RunCons(w1, Announces(i), rest);
  }

  lemma RunCons(w: World, step: Step, steps: seq<Step>)
    ensures Run(w, [step] + steps) == Run(Apply(w, step), steps)
  {
    assert ([step] + steps)[1..] == steps;
  }

  lemma {:induction false} RunAppend(w: World, a: seq<Step>, b: seq<Step>)
    ensures Run(w, a + b) == Run(Run(w, a), b)
    decreases |a|
  {
    if a == [] {
      assert a + b == b;
    } else {
      ConsAppend(a, b);
      RunAppend(Apply(w, a[0]), a[1..], b);
    }
  }

  /** Nothing is lost on the way: every run can be completed by the threads alone, and then every session ever
      created is listed, given up by its failed start, or archived and announced exactly once. */
  lemma EveryRunFinishes(steps: seq<Step>) returns (rest: seq<Step>)
    ensures OnlyLeavers(rest)
    ensures var w, w' := Run(START, steps), Run(START, steps + rest);
            && w'.tables == w.tables && w'.aborted == w.aborted && w'.issued == w.issued && AllFinished(w')
            && forall uid :: uid in w.issued && uid !in w.tables.sessions && uid !in w.aborted ==>
                 Archivals(w', uid) == 1 && Count(w'.announced, uid) == 1
  {
    StartOk();
    RunKeepsInv(START, steps);
    rest := FinishFrom(Run(START, steps), 0);
    RunAppend(START, steps, rest);
    forall uid { ExactlyOnce(steps + rest, uid); }
  }
}
