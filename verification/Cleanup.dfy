/** The cleanup of the token area when the daemon ends (src/ipc/shm.py): it writes zeros over the sequence byte
    and the data without marking anything, while the rotation thread may be publishing and clients reading.
    Here nothing interrupts it; the module Zeroing has the steps between its bytes. */
module Cleanup {
  import opened Common
  import opened Seqlock

  /** What publishing the empty token would leave. */
  function Zeros(): (z: Payload)
    ensures forall i :: 0 <= i < DATA_SIZE ==> z[i] == 0
  {
    seq(DATA_SIZE, _ => 0)
  }

  /** To a reader it is one more publish, of the empty token. */
  function Wiped(s: State): State { s.(mem := [0] + Zeros(), history := s.history + [Zeros()]) }

  // ----- which cleanups are harmless -----

  /** At most one byte is not zero. */
  ghost predicate Short(p: Payload) {
    forall i, j :: 0 <= i < j < DATA_SIZE ==> p[i] == 0 || p[j] == 0
  }

  /** What a read under way has when it loads the rest after the cleanup. */
  function Filled(r: Reader): Payload
    requires r.Reading?
  {
    seq(DATA_SIZE, i requires 0 <= i < DATA_SIZE => if i in r.todo then 0 else r.buf[i])
  }

  /** The publish under way, if any, goes on from byte 0, or from byte 254 with a token of at most one byte; and
      between its marks it stores nothing but zeros. */
  ghost predicate PublishHarmless(w: Writer) {
    w.Idle? ||
    ((w.seqNo == 0 || (w.seqNo == 254 && Short(w.payload))) && (w.Writing? ==> w.payload == Zeros()))
  }

  /** Behind the cleanup the byte that a read under way has seen comes back after seq1 / 2 publishes, so that the read
      can return; a publish under way brings it back only when that is at once. If by then fewer than 128 publishes
      have completed during the read, its data must be settled, because it has all its bytes or the zeros still
      stand, and must be a token that was current during it. */
  ghost predicate ReadHarmless(s: State) {
    s.reader.Reading? ==>
      var later := s.reader.seq1 / 2;
      (s.writer.Idle? || later == 0) && |s.history| + later - s.reader.begin < 128 ==>
        && (later == 0 || s.reader.todo == {})
        && Among(s.history + [Zeros()], s.reader.begin, |s.history|, Filled(s.reader))
  }

  ghost predicate Harmless(s: State) { PublishHarmless(s.writer) && ReadHarmless(s) }

  // ----- a protocol that goes on around a read from before -----

  function ByteAt(seq0: byte, i: nat): byte { (seq0 + 2 * i) % 256 }

  /** The publishes complete when the byte is next even. */
  function NextStable(s: State): int { Published(s) + if s.writer.Writing? then 1 else 0 }

  /** The byte that the read has seen does not come back before its 128th publish. */
  ghost predicate NotBefore(seq0: byte, s: State, from: int)
    requires s.reader.Reading?
  {
    forall e: nat :: e >= from && ByteAt(seq0, e) == s.reader.seq1 ==> e - s.reader.begin >= 128
  }

  /** An ordinary read. */
  ghost predicate Fresh(seq0: byte, s: State)
    requires s.reader.Reading? && s.history != []
  {
    && s.reader.seq1 == ByteAt(seq0, s.reader.begin) && s.reader.begin < |s.history|
    && (s.reader.begin == Published(s) && !s.writer.Writing? ==>
          forall i :: 0 <= i < DATA_SIZE && i !in s.reader.todo ==> s.reader.buf[i] == s.history[s.reader.begin][i])
  }

  /** A read that has all its bytes. */
  ghost predicate Done(s: State)
    requires s.reader.Reading?
  {
    s.reader.todo == {} && Among(s.history, s.reader.begin, Published(s), s.reader.buf)
  }

  /** A read that can only return while the zeros stand. */
  ghost predicate Now(seq0: byte, s: State)
    requires s.reader.Reading? && s.history != []
  {
    && !s.writer.Writing? && s.history[Published(s)] == Zeros()
    && Among(s.history, s.reader.begin, Published(s), Filled(s.reader))
    && NotBefore(seq0, s, Published(s) + 1)
  }

  /** A read that began between the zeros and a short token p behind the same byte. */
  ghost predicate Half(seq0: byte, s: State)
    requires s.reader.Reading? && s.history != []
  {
    var b, p := s.reader.begin, if s.writer.Writing? then s.writer.payload else s.history[Published(s)];
    && b + 1 == NextStable(s) && b < |s.history| && s.history[b] == Zeros() && Short(p)
    && MaskLoaded(s.reader, p) && NotBefore(seq0, s, b + 2)
  }

  /** What is loaded are bytes of p, or zeros. */
  ghost predicate MaskLoaded(r: Reader, p: Payload)
    requires r.Reading?
  {
    forall i :: 0 <= i < DATA_SIZE && i !in r.todo ==> r.buf[i] == 0 || r.buf[i] == p[i]
  }

  lemma MaskLoads(r: Reader, p: Payload, i: nat, v: byte)
    requires r.Reading? && MaskLoaded(r, p) && i < DATA_SIZE && (v == 0 || v == p[i])
    ensures MaskLoaded(r.(todo := r.todo - {i}, buf := r.buf[i := v]), p)
  {}

  ghost predicate ReadOk(seq0: byte, s: State)
    requires s.history != []
  {
    s.reader.Reading? ==>
      && s.reader.begin < |s.history| && s.reader.seq1 % 2 == 0 && After(s.log, s.reader.begin)
      && (Fresh(seq0, s) || NotBefore(seq0, s, NextStable(s)) || Done(s) || Now(seq0, s) || Half(seq0, s))
  }

  /** All returned reads ended before begin. */
  ghost predicate After(log: seq<Outcome>, begin: nat) {
    forall i :: 0 <= i < |log| && log[i].Returned? ==> log[i].end <= begin
  }

  ghost predicate AfterInv(seq0: byte, s: State) {
    && |s.mem| == AREA_SIZE && s.history != []
    && WriterInv(seq0, s) && ReadOk(seq0, s) && DataSafe(s.log, s.history) && After(s.log, Published(s))
  }

  lemma DataGrows(log: seq<Outcome>, history: seq<Payload>, p: Payload)
    requires DataSafe(log, history)
    ensures DataSafe(log, history + [p])
  {
    forall i | 0 <= i < |log| && log[i].Returned? ensures RightRead(log[i], history + [p]) {
      assert RightRead(log[i], history);
      AmongGrows(history, log[i].begin, log[i].end, log[i].end, log[i].data, p);
    }
  }

  lemma AmongGrows(history: seq<Payload>, lo: int, hi: int, hi': int, data: Payload, p: Payload)
    requires hi <= hi' <= |history|
    ensures Among(history, lo, hi, data) ==> Among(history + [p], lo, hi', data)
  {
    if k :| 0 <= lo <= k <= hi < |history| && history[k] == data {
      assert (history + [p])[k] == data;
    }
  }

  lemma DataAppends(log: seq<Outcome>, history: seq<Payload>, o: Outcome)
    requires DataSafe(log, history) && (o.Returned? ==> RightRead(o, history) && After(log, o.begin))
    ensures DataSafe(log + [o], history)
  {
    var all := log + [o];
    forall i | 0 <= i < |all| && all[i].Returned? ensures RightRead(all[i], history) {
      if i < |log| { assert all[i] == log[i]; }
    }
  }

  lemma ReadsSeqOk(seq0: byte, s: State)
    requires seq0 % 2 == 0 && AfterInv(seq0, s) && Apply(s, ReaderReadsSeq).Some?
    ensures ReadOk(seq0, Apply(s, ReaderReadsSeq).value)
  {
    var s' := Apply(s, ReaderReadsSeq).value;
    StableByte(seq0, s);
    if s'.reader.Reading? { assert Fresh(seq0, s'); }
  }

  /** The byte is even exactly when nothing is being written, and then tells the number of publishes. */
  lemma StableByte(seq0: byte, s: State)
    requires seq0 % 2 == 0 && |s.mem| == AREA_SIZE && s.history != [] && WriterInv(seq0, s)
    ensures s.mem[0] % 2 == 0 <==> !s.writer.Writing?
    ensures !s.writer.Writing? ==> s.mem[0] == ByteAt(seq0, Published(s))
  {
    var busy := if s.writer.Writing? then 1 else 0;
    SameParity(seq0 + 2 * Published(s) + busy);
    EvenAdded(seq0 + busy, Published(s));
  }

  lemma LoadsFresh(seq0: byte, s: State, i: nat)
    requires |s.mem| == AREA_SIZE && s.history != [] && WriterInv(seq0, s)
    requires Apply(s, ReaderLoads(i)).Some? && Fresh(seq0, s)
    ensures Fresh(seq0, Apply(s, ReaderLoads(i)).value)
  {}

  lemma LoadsNow(seq0: byte, s: State, i: nat)
    requires |s.mem| == AREA_SIZE && s.history != [] && WriterInv(seq0, s)
    requires Apply(s, ReaderLoads(i)).Some? && Now(seq0, s)
    ensures Now(seq0, Apply(s, ReaderLoads(i)).value)
  {
    assert s.mem[1 + i] == s.history[Published(s)][i] == 0;
    assert Filled(Apply(s, ReaderLoads(i)).value.reader) == Filled(s.reader);
  }

  lemma LoadsHalf(seq0: byte, s: State, i: nat)
    requires |s.mem| == AREA_SIZE && s.history != [] && WriterInv(seq0, s)
    requires Apply(s, ReaderLoads(i)).Some? && Half(seq0, s)
    ensures Half(seq0, Apply(s, ReaderLoads(i)).value)
  {
    var s' := Apply(s, ReaderLoads(i)).value;
    var p := if s.writer.Writing? then s.writer.payload else s.history[Published(s)];
    HalfByte(seq0, s, p, i);
    MaskLoads(s.reader, p, i, s.mem[1 + i]);
    HalfKept(seq0, s, s', p);
  }

  lemma HalfKept(seq0: byte, s: State, s': State, p: Payload)
    requires s.reader.Reading? && s'.reader.Reading? && s.history != [] && Half(seq0, s) && MaskLoaded(s'.reader, p)
    requires s'.reader.begin == s.reader.begin && s'.reader.seq1 == s.reader.seq1
    requires s'.writer == s.writer && s'.history == s.history
    requires p == if s.writer.Writing? then s.writer.payload else s.history[Published(s)]
    ensures Half(seq0, s')
  {
    assert NotBefore(seq0, s', s.reader.begin + 2);
  }

  lemma HalfByte(seq0: byte, s: State, p: Payload, i: nat)
    requires |s.mem| == AREA_SIZE && s.history != [] && WriterInv(seq0, s) && i < DATA_SIZE
    requires if s.writer.Writing? then s.history[Published(s)] == Zeros() && p == s.writer.payload
             else p == s.history[Published(s)]
    ensures s.mem[1 + i] == 0 || s.mem[1 + i] == p[i]
  {}

  lemma LoadsOk(seq0: byte, s: State, i: nat)
    requires AfterInv(seq0, s) && Apply(s, ReaderLoads(i)).Some?
    ensures ReadOk(seq0, Apply(s, ReaderLoads(i)).value)
  {
    var s' := Apply(s, ReaderLoads(i)).value;
    if Fresh(seq0, s) {
      LoadsFresh(seq0, s, i);
    } else if NotBefore(seq0, s, NextStable(s)) {
      assert NotBefore(seq0, s', NextStable(s'));
    } else if Now(seq0, s) {
      LoadsNow(seq0, s, i);
    } else {
      LoadsHalf(seq0, s, i);
    }
  }

  lemma MarksOddOk(seq0: byte, s: State)
    requires AfterInv(seq0, s) && Apply(s, WriterMarksOdd).Some?
    ensures ReadOk(seq0, Apply(s, WriterMarksOdd).value)
  {
    var s' := Apply(s, WriterMarksOdd).value;
    if s.reader.Reading? && (Now(seq0, s) || Half(seq0, s)) {
      assert NotBefore(seq0, s', NextStable(s'));
    }
  }

  lemma MarksEvenOk(seq0: byte, s: State)
    requires AfterInv(seq0, s) && Apply(s, WriterMarksEven).Some?
    ensures ReadOk(seq0, Apply(s, WriterMarksEven).value)
  {
    var s' := Apply(s, WriterMarksEven).value;
    assert Published(s') == Published(s) + 1;
    if s.reader.Reading? {
      AmongGrows(s.history, s.reader.begin, Published(s), Published(s'), s.reader.buf, s.writer.payload);
      if Half(seq0, s) { assert Half(seq0, s'); }
    }
  }

  lemma OtherOk(seq0: byte, s: State, step: Step)
    requires AfterInv(seq0, s) && Apply(s, step).Some?
    requires step.WriterReadsSeq? || step.WriterStores?
             || step.ReaderCalls? || step.ReaderGivesUp? || step.ReaderChecksSeq?
    ensures ReadOk(seq0, Apply(s, step).value)
  {
    var s' := Apply(s, step).value;
    if s'.reader.Reading? && Half(seq0, s) { assert Half(seq0, s'); }
  }

  /** A mask of a short token is the token or nothing. */
  lemma ShortMask(p: Payload, d: Payload)
    requires Short(p) && forall i :: 0 <= i < DATA_SIZE ==> d[i] == 0 || d[i] == p[i]
    ensures d == p || d == Zeros()
  {
    if i :| 0 <= i < DATA_SIZE && d[i] != p[i] {
      OnlyByte(p, i);
      assert forall j :: 0 <= j < DATA_SIZE ==> d[j] == 0;
    }
  }

  lemma OnlyByte(p: Payload, i: int)
    requires Short(p) && 0 <= i < DATA_SIZE && p[i] != 0
    ensures forall j :: 0 <= j < DATA_SIZE && j != i ==> p[j] == 0
  {}

  /** What a read returns when the byte is the one it has seen. */
  lemma ReturnRight(seq0: byte, s: State)
    requires seq0 % 2 == 0 && AfterInv(seq0, s) && s.reader.Reading? && s.reader.todo == {}
    requires s.mem[0] == s.reader.seq1
    ensures RightRead(Returned(s.reader.buf, s.reader.begin, Published(s)), s.history)
  {
    var b, n := s.reader.begin, Published(s);
    StableByte(seq0, s);
    if n - b < 128 {
      if Fresh(seq0, s) {
        SameSeqSamePublish(seq0, b, n, 0);
        assert s.reader.buf == s.history[b];
      } else if Now(seq0, s) {
        assert Filled(s.reader) == s.reader.buf;
      } else if Half(seq0, s) {
        ShortMask(s.history[n], s.reader.buf);
      }
    }
  }

  lemma LogOk(seq0: byte, s: State, step: Step)
    requires seq0 % 2 == 0 && AfterInv(seq0, s) && Apply(s, step).Some?
    ensures var s' := Apply(s, step).value; DataSafe(s'.log, s'.history) && After(s'.log, Published(s'))
  {
    match step
    case WriterMarksEven => DataGrows(s.log, s.history, s.writer.payload);
    case ReaderGivesUp => DataAppends(s.log, s.history, GaveUp);
    case ReaderChecksSeq =>
      if s.mem[0] == s.reader.seq1 {
        ReturnRight(seq0, s);
        DataAppends(s.log, s.history, Returned(s.reader.buf, s.reader.begin, Published(s)));
      }
    case _ =>
  }

  lemma StepKeepsAfter(seq0: byte, s: State, step: Step)
    requires seq0 % 2 == 0 && AfterInv(seq0, s) && Apply(s, step).Some?
    ensures AfterInv(seq0, Apply(s, step).value)
  {
    StepKeepsWriter(seq0, s, step);
    LogOk(seq0, s, step);
    match step
    case WriterMarksOdd => MarksOddOk(seq0, s);
    case WriterMarksEven => MarksEvenOk(seq0, s);
    case ReaderReadsSeq => ReadsSeqOk(seq0, s);
    case ReaderLoads(i) => LoadsOk(seq0, s, i);
    case _ => OtherOk(seq0, s, step);
  }

  // ----- right behind the cleanup, when a publish is under way -----

  /** The byte 0 stands, and the publish under way will not go on from it but from q. */
  ghost predicate Between(q: byte, s: State) {
    && |s.mem| == AREA_SIZE && s.history != [] && s.mem == [0] + Zeros() && s.history[Published(s)] == Zeros()
    && !s.writer.Idle? && s.writer.seqNo == q && PublishHarmless(s.writer)
    && DataSafe(s.log, s.history) && After(s.log, Published(s))
    && (s.reader.Reading? ==>
          s.reader.begin < |s.history| && s.reader.seq1 % 2 == 0 && After(s.log, s.reader.begin)
          && (BegunNow(s) || BegunBefore(q, s)))
  }

  ghost predicate BegunNow(s: State)
    requires s.reader.Reading? && s.history != []
  {
    && s.reader.begin == Published(s) && s.reader.seq1 == 0
    && forall i :: 0 <= i < DATA_SIZE && i !in s.reader.todo ==> s.reader.buf[i] == 0
  }

  ghost predicate BegunBefore(q: byte, s: State)
    requires s.reader.Reading? && s.history != []
  {
    var b, n := s.reader.begin, Published(s);
    && (s.reader.seq1 == 0 && n - b < 128 ==> Among(s.history, b, n, Filled(s.reader)))
    && forall j: nat :: j >= 1 && Plus(q, 2 * j) == s.reader.seq1 ==> n + j - b >= 128
  }

  /** The sequence that has byte q at the n-th publish. */
  function StartAt(q: byte, n: nat): byte { (q + 254 * n) % 256 }

  lemma Turns(a: int, n: nat)
    ensures (a + 256 * n) % 256 == a % 256
  {}

  lemma StartAtByte(q: byte, n: nat, j: nat)
    ensures ByteAt(StartAt(q, n), n + j) == Plus(q, 2 * j)
  {
    NextSeq(q + 254 * n, 2 * (n + j));
    Turns(q + 2 * j, n);
  }

  lemma StartAtHere(q: byte, n: nat)
    ensures ByteAt(StartAt(q, n), n) == q
  {
    var a := q + 254 * n;
    assert a % 256 + 2 * n == q + 256 * (n - a / 256);
    SameByte(q, n - a / 256);
  }

  lemma SameByte(q: byte, turns: int)
    ensures (q + 256 * turns) % 256 == q
  {}

  lemma StartAtEven(q: byte, n: nat)
    requires q % 2 == 0
    ensures StartAt(q, n) % 2 == 0
  {
    SameParity(q + 254 * n);
    EvenAdded(q, 127 * n);
  }

  /** From the next mark on the publishes go on from q, and every read takes its place. */
  lemma BetweenReads(q: byte, s: State, s': State)
    requires Between(q, s) && s'.reader == s.reader && s'.log == s.log && s'.history != []
    requires if s'.writer.Writing? then s'.history == s.history && s'.writer.payload == s.writer.payload
             else s'.history == s.history + [s.writer.payload]
    requires NextStable(s') == Published(s) + 1
    ensures ReadOk(StartAt(q, Published(s)), s')
  {
    var n := Published(s);
    StartAtEven(q, n);
    StartAtHere(q, n);
    if s.reader.Reading? {
      if BegunNow(s) {
        if q == 0 {
          assert ByteAt(StartAt(q, n), n) == 0;
          assert Fresh(StartAt(q, n), s');
        } else {
          ZeroAgain(StartAt(q, n), n, s');
          assert Half(StartAt(q, n), s');
        }
      } else {
        forall e: nat | e >= n + 1 && ByteAt(StartAt(q, n), e) == s.reader.seq1 ensures e - s.reader.begin >= 128 {
          StartAtByte(q, n, e - n);
        }
        assert NotBefore(StartAt(q, n), s', NextStable(s'));
      }
    }
  }

  lemma ZeroAgain(seq0: byte, n: nat, s: State)
    requires ByteAt(seq0, n) == 254 && s.reader.Reading? && s.reader.begin == n && s.reader.seq1 == 0
    ensures NotBefore(seq0, s, n + 2)
  {
    forall e: nat | e >= n + 2 && ByteAt(seq0, e) == 0 ensures e - n >= 128 {
      NextSeq(seq0 + 2 * n, 2 * (e - n));
      assert (254 + 2 * (e - n)) % 256 == 0;
    }
  }

  lemma BetweenWriter(q: byte, s: State, step: Step)
    requires Between(q, s) && Apply(s, step).Some? && (step.WriterMarksOdd? || step.WriterMarksEven?)
    ensures q % 2 == 0 && AfterInv(StartAt(q, Published(s)), Apply(s, step).value)
  {
    var s' := Apply(s, step).value;
    StartAtEven(q, Published(s));
    StartAtHere(q, Published(s));
    BetweenReads(q, s, s');
    if step.WriterMarksEven? {
      DataGrows(s.log, s.history, s.writer.payload);
      MarkedEven(StartAt(q, Published(s)), s);
    } else {
      MarkedOdd(StartAt(q, Published(s)), s);
    }
  }

  lemma MarkedOdd(seq0: byte, s: State)
    requires |s.mem| == AREA_SIZE && s.history != [] && s.writer.GotSeq?
    requires s.writer.seqNo == ByteAt(seq0, Published(s)) && s.mem[1..] == s.history[Published(s)]
    ensures WriterInv(seq0, Apply(s, WriterMarksOdd).value)
  {
    NextSeq(seq0 + 2 * Published(s), 1);
    assert forall i :: 0 <= i < DATA_SIZE ==> s.mem[1 + i] == s.mem[1..][i];
  }

  lemma MarkedEven(seq0: byte, s: State)
    requires |s.mem| == AREA_SIZE && s.history != [] && s.writer.Writing? && s.writer.todo == {}
    requires s.writer.seqNo == ByteAt(seq0, Published(s)) && s.mem[1..] == s.writer.payload
    ensures WriterInv(seq0, Apply(s, WriterMarksEven).value)
  {
    var s', n := Apply(s, WriterMarksEven).value, Published(s);
    NextSeq(seq0 + 2 * n, 2);
    assert Published(s') == n + 1 && s'.history[n + 1] == s.writer.payload;
    assert forall i :: 0 <= i < DATA_SIZE ==> s.mem[1 + i] == s.mem[1..][i];
  }

  lemma BetweenReader(q: byte, s: State, step: Step)
    requires Between(q, s) && Apply(s, step).Some?
    requires step.ReaderReadsSeq? || step.ReaderLoads? || step.ReaderChecksSeq?
    ensures Between(q, Apply(s, step).value)
  {
    var s' := Apply(s, step).value;
    match step
    case ReaderReadsSeq =>
    case ReaderLoads(i) =>
      if BegunBefore(q, s) {
        assert Filled(s'.reader) == Filled(s.reader);
        assert BegunBefore(q, s');
      }
    case ReaderChecksSeq =>
      if s.mem[0] == s.reader.seq1 { BetweenReturns(q, s); }
  }

  lemma BetweenReturns(q: byte, s: State)
    requires Between(q, s) && s.reader.Reading? && s.reader.todo == {} && s.reader.seq1 == 0
    ensures DataSafe(s.log + [Returned(s.reader.buf, s.reader.begin, Published(s))], s.history)
  {
    var b, n := s.reader.begin, Published(s);
    assert Filled(s.reader) == s.reader.buf;
    if BegunNow(s) {
      assert s.reader.buf == Zeros() == s.history[n];
    }
    DataAppends(s.log, s.history, Returned(s.reader.buf, b, n));
  }

  lemma BetweenStep(q: byte, s: State, step: Step) returns (seq0: byte)
    requires Between(q, s) && Apply(s, step).Some?
    ensures var s' := Apply(s, step).value; Between(q, s') || (seq0 % 2 == 0 && AfterInv(seq0, s'))
  {
    seq0 := 0;
    match step
    case WriterMarksOdd =>
      BetweenWriter(q, s, step);
      seq0 := StartAt(q, Published(s));
      StartAtEven(q, Published(s));
      StartAtHere(q, Published(s));
    case WriterMarksEven =>
      BetweenWriter(q, s, step);
      seq0 := StartAt(q, Published(s));
      StartAtEven(q, Published(s));
      StartAtHere(q, Published(s));
    case WriterStores(i) => assert s.mem[1 + i := 0] == s.mem;
    case WriterReadsSeq(_) =>
    case ReaderCalls =>
    case ReaderGivesUp => DataAppends(s.log, s.history, GaveUp);
    case _ => BetweenReader(q, s, step);
  }

  lemma {:induction false} RunSafe(q: byte, seq0: byte, s: State, run: seq<Step>)
    requires Between(q, s) || (seq0 % 2 == 0 && AfterInv(seq0, s))
    requires |s.mem| == AREA_SIZE && Exec(s, run).Some?
    ensures var s' := Exec(s, run).value; DataSafe(s'.log, s'.history)
    decreases |run|
  {
    if run != [] {
      var s' := Apply(s, run[0]).value;
      ApplyKeepsSize(s, run[0]);
      if Between(q, s) {
        var seq0' := BetweenStep(q, s, run[0]);
        RunSafe(q, seq0', s', run[1..]);
      } else {
        StepKeepsAfter(seq0, s, run[0]);
        RunSafe(q, seq0, s', run[1..]);
      }
    }
  }

  // ----- harmless cleanups -----

  /** A byte below a whole turn comes back after half of it at the earliest. */
  lemma FirstReturn(later: nat, k: nat)
    requires later < 128 && 2 * k % 256 == 2 * later
    ensures k >= later && (k > later ==> k >= later + 128)
  {
    var t := 2 * k / 256;
    assert 2 * k == 256 * t + 2 * later;
  }

  lemma IdleReads(s: State, n: nat)
    requires |s.history| == n + 2 && s.history[n + 1] == Zeros() && s.writer.Idle? && s.reader.Reading?
    requires s.reader.begin <= n && s.reader.seq1 % 2 == 0 && After(s.log, s.reader.begin)
    requires var later := s.reader.seq1 / 2;
             n + 1 + later - s.reader.begin < 128 ==>
               (later == 0 || s.reader.todo == {}) && Among(s.history, s.reader.begin, n + 1, Filled(s.reader))
    ensures ReadOk(StartAt(0, n + 1), s)
  {
    var seq0, b, later := StartAt(0, n + 1), s.reader.begin, s.reader.seq1 / 2;
    forall e: nat | e >= n + 1 && ByteAt(seq0, e) == s.reader.seq1
      ensures e >= n + 1 + later && (e > n + 1 + later ==> e >= n + 1 + later + 128)
    {
      StartAtByte(0, n + 1, e - (n + 1));
      FirstReturn(later, e - (n + 1));
    }
    if n + 1 + later - b >= 128 {
      assert NotBefore(seq0, s, NextStable(s));
    } else if later == 0 {
      assert NotBefore(seq0, s, n + 2);
      assert Now(seq0, s);
    } else {
      assert Filled(s.reader) == s.reader.buf;
      assert Done(s);
    }
  }

  lemma HarmlessIdle(seq0: byte, s: State)
    requires seq0 % 2 == 0 && Inv(seq0, s) && s.writer.Idle? && ReadHarmless(s)
    ensures AfterInv(StartAt(0, Published(s) + 1), Wiped(s))
  {
    var s', n := Wiped(s), Published(s);
    StartAtEven(0, n + 1);
    StartAtHere(0, n + 1);
    LogSafeData(s.log, s.history);
    DataGrows(s.log, s.history, Zeros());
    assert Published(s') == n + 1;
    if s.reader.Reading? {
      EvenByte(seq0, s.reader.begin);
      IdleReads(s', n);
    }
  }

  /** A publish under way leads back to a byte from before only after a whole turn. */
  lemma WholeTurn(seq0: byte, b: nat, n: nat, q: byte, j: nat)
    requires b <= n && j >= 1 && q == ByteAt(seq0, n) && Plus(q, 2 * j) == ByteAt(seq0, b)
    ensures n + j - b >= 128
  {
    NextSeq(seq0 + 2 * n, 2 * j);
    SameSeqSamePublish(seq0, b, n + j, 0);
  }

  lemma HarmlessBusy(seq0: byte, s: State)
    requires seq0 % 2 == 0 && Inv(seq0, s) && !s.writer.Idle? && Harmless(s)
    ensures Between(s.writer.seqNo, Wiped(s))
  {
    var s', n, q := Wiped(s), Published(s), s.writer.seqNo;
    LogSafeData(s.log, s.history);
    DataGrows(s.log, s.history, Zeros());
    assert Published(s') == n + 1;
    if s.reader.Reading? {
      var b := s.reader.begin;
      EvenByte(seq0, b);
      forall j: nat | j >= 1 && Plus(q, 2 * j) == s.reader.seq1 ensures n + 1 + j - b >= 128 {
        WholeTurn(seq0, b, n, q, j);
      }
      assert BegunBefore(q, s');
    }
  }

  lemma HarmlessSafe(seq0: byte, s: State)
    requires seq0 % 2 == 0 && Inv(seq0, s) && Harmless(s)
    ensures SafeFrom(Wiped(s))
  {
    var q := if s.writer.Idle? then 0 else s.writer.seqNo;
    var seq0' := StartAt(0, Published(s) + 1);
    StartAtEven(0, Published(s) + 1);
    StartAtHere(0, Published(s) + 1);
    if s.writer.Idle? { HarmlessIdle(seq0, s); } else { HarmlessBusy(seq0, s); }
    forall run | Exec(Wiped(s), run).Some?
      ensures DataSafe(Exec(Wiped(s), run).value.log, Exec(Wiped(s), run).value.history)
    {
      RunSafe(q, seq0', Wiped(s), run);
    }
  }

  // ----- all others let a read return a mixture -----

  ghost predicate WriterLive(s: State) { s.writer.Writing? ==> s.writer.todo <= AllBytes() }

  lemma {:induction false} RunKeepsWriterLive(s: State, run: seq<Step>)
    requires |s.mem| == AREA_SIZE && WriterLive(s) && Exec(s, run).Some?
    ensures WriterLive(Exec(s, run).value)
    decreases |run|
  {
    if run != [] {
      ApplyKeepsSize(s, run[0]);
      RunKeepsWriterLive(Apply(s, run[0]).value, run[1..]);
    }
  }

  /** Some run from s makes a read return what no publish during it had stored. */
  ghost predicate Breaks(s: State, run: seq<Step>)
    requires |s.mem| == AREA_SIZE
  {
    Exec(s, run).Some? && !DataSafe(Exec(s, run).value.log, Exec(s, run).value.history)
  }

  lemma BreaksAfter(s: State, first: seq<Step>, s1: State, run: seq<Step>)
    requires |s.mem| == |s1.mem| == AREA_SIZE && Exec(s, first) == Some(s1) && Breaks(s1, run)
    ensures Breaks(s, first + run)
  {
    ExecTwo(s, first, run, s1, Exec(s1, run));
  }

  lemma WrongData(log: seq<Outcome>, history: seq<Payload>, data: Payload, b: nat, e: nat)
    requires b <= e < b + 128 && !Among(history, b, e, data)
    ensures !DataSafe(log + [Returned(data, b, e)], history)
  {
    var all := log + [Returned(data, b, e)];
    assert all[|log|] == Returned(data, b, e) && !RightRead(all[|log|], history);
  }

  /** The read under way loads the rest and returns. */
  lemma ReadReturns(s: State) returns (run: seq<Step>)
    requires |s.mem| == AREA_SIZE && s.history != [] && s.reader.Reading? && ReaderLive(s)
    requires s.mem[0] == s.reader.seq1
    ensures Exec(s, run) ==
            Some(s.(reader := Away, log := s.log + [Returned(Loaded(s), s.reader.begin, Published(s))]))
  {
    var loads := DrainLoads(s);
    var s1 := s.(reader := s.reader.(todo := {}, buf := Loaded(s)));
    ExecOne(s1, ReaderChecksSeq);
    ExecTwo(s, loads, [ReaderChecksSeq], s1, Apply(s1, ReaderChecksSeq));
    run := loads + [ReaderChecksSeq];
  }

  lemma ReturnBreaks(s: State) returns (run: seq<Step>)
    requires |s.mem| == AREA_SIZE && s.history != [] && s.reader.Reading? && ReaderLive(s)
    requires s.mem[0] == s.reader.seq1 && s.reader.begin <= Published(s) < s.reader.begin + 128
    requires !Among(s.history, s.reader.begin, Published(s), Loaded(s))
    ensures Breaks(s, run)
  {
    run := ReadReturns(s);
    WrongData(s.log, s.history, Loaded(s), s.reader.begin, Published(s));
  }

  lemma {:induction false} SettleAttempt(s: State) returns (run: seq<Step>)
    requires |s.mem| == AREA_SIZE && s.history != [] && s.mem[0] % 2 == 0 && ReaderLive(s) && s.reader.Attempt?
    ensures Exec(s, run).Some?
    ensures var s' := Exec(s, run).value; ReaderOnly(s, s') && s'.reader.Away?
  {
    if s.reader.n == READ_RETRIES {
      ExecOne(s, ReaderGivesUp);
      run := [ReaderGivesUp];
    } else {
      ExecOne(s, ReaderReadsSeq);
      var s1 := Apply(s, ReaderReadsSeq).value;
      var rest := ReadReturns(s1);
      ExecTwo(s, [ReaderReadsSeq], rest, s1, Exec(s1, rest));
      run := [ReaderReadsSeq] + rest;
    }
  }

  /** While the byte is even and nothing is written, the reader can finish its call. */
  lemma Settle(s: State) returns (run: seq<Step>)
    requires |s.mem| == AREA_SIZE && s.history != [] && s.mem[0] % 2 == 0 && ReaderLive(s)
    ensures Exec(s, run).Some?
    ensures var s' := Exec(s, run).value; ReaderOnly(s, s') && s'.reader.Away?
  {
    if s.reader.Away? {
      run := [];
    } else if s.reader.Attempt? {
      run := SettleAttempt(s);
    } else if s.mem[0] == s.reader.seq1 {
      run := ReadReturns(s);
    } else {
      var loads := DrainLoads(s);
      var s1 := Exec(s, loads).value;
      ExecOne(s1, ReaderChecksSeq);
      var s2 := Apply(s1, ReaderChecksSeq).value;
      var rest := SettleAttempt(s2);
      ExecTwo(s1, [ReaderChecksSeq], rest, s2, Exec(s2, rest));
      ExecTwo(s, loads, [ReaderChecksSeq] + rest, s1, Exec(s2, rest));
      run := loads + ([ReaderChecksSeq] + rest);
    }
  }

  // A read under way.

  lemma {:induction false} SizeOf(values: seq<byte>)
    ensures var used: set<int> := set x | x in values; |used| <= |values|
  {
    if values != [] {
      var rest := values[1..];
      SizeOf(rest);
      var used: set<int> := set x | x in values;
      var some: set<int> := set x | x in rest;
      assert used == some + {values[0]} by {
        forall x ensures x in used <==> x in some || x == values[0] {
          assert values == [values[0]] + rest;
        }
      }
    }
  }

  lemma {:induction false} BytesBelow(n: nat) returns (all: set<int>)
    ensures |all| == n && forall x :: x in all <==> 0 <= x < n
  {
    if n == 0 {
      all := {};
    } else {
      var some := BytesBelow(n - 1);
      all := some + {n - 1};
    }
  }

  /** Fewer than 256 bytes leave one out. */
  lemma OtherByte(values: seq<byte>) returns (v: byte)
    requires |values| < 256
    ensures v !in values
  {
    var used: set<int> := set x | x in values;
    var all := BytesBelow(256);
    SizeOf(values);
    SmallerLacks(all, used);
    var w :| w in all && w !in used;
    v := w;
  }

  lemma SmallerLacks(a: set<int>, b: set<int>)
    requires |b| < |a|
    ensures exists w :: w in a && w !in b
  {
    if forall w :: w in a ==> w in b {
      assert a - b == {};
      SubsetSize(a, b);
    }
  }

  lemma SubsetSize(a: set<int>, b: set<int>)
    ensures a - b == {} ==> |a| <= |b|
  {
    assert |a| == |a - b| + |a * b| && |b| == |b - a| + |a * b|;
  }

  /** A payload with two given bytes. */
  lemma TwoBytes(i: nat, x: byte, j: nat, y: byte) returns (p: Payload)
    requires i < DATA_SIZE && j < DATA_SIZE && i != j
    ensures p[i] == x && p[j] == y && Pad(p) == p
  {
    p := Zeros()[i := x][j := y];
  }

  /** A token that differs from data at byte i, and at byte j from everything published since b. */
  lemma OddToken(history: seq<Payload>, b: nat, i: nat, j: nat, data: Payload) returns (p: Payload)
    requires b < |history| < b + 200 && i < DATA_SIZE && j < DATA_SIZE && i != j
    ensures Pad(p) == p && p[i] != data[i] && forall k :: b <= k < |history| ==> history[k][j] != p[j]
  {
    var values := seq(|history| - b, t requires 0 <= t < |history| - b => history[b + t][j]);
    var v := OtherByte(values);
    p := TwoBytes(i, Plus(data[i], 1), j, v);
    forall k | b <= k < |history| ensures history[k][j] != p[j] {
      assert values[k - b] == history[k][j];
    }
  }

  lemma NotAmong(history: seq<Payload>, p: Payload, k: nat, b: nat, data: Payload)
    requires b < |history|
    requires data != p && forall t :: b <= t < |history| ==> history[t] != data
    ensures !Among(history + Copies(p, k), b, |history| + k - 1, data)
  {
    var all := history + Copies(p, k);
    forall t | b <= t < |all| ensures all[t] != data {}
  }

  /** Publishing p until the byte is back, and then returning. */
  lemma PublishThenReturn(s: State, p: Payload, k: nat) returns (run: seq<Step>)
    requires |s.mem| == AREA_SIZE && s.history != [] && s.writer.Idle? && s.reader.Reading? && ReaderLive(s)
    requires k >= 1 && Plus(s.mem[0], 2 * k) == s.reader.seq1 && Pad(p) == p
    requires s.reader.begin < |s.history| && |s.history| + k - 1 < s.reader.begin + 128
    requires var data := Loaded(s.(mem := [s.reader.seq1] + p));
             data != p && forall t :: s.reader.begin <= t < |s.history| ==> s.history[t] != data
    ensures Breaks(s, run)
  {
    ExecTimes(s, p, k);
    var s1 := s.(mem := [s.reader.seq1] + p, history := s.history + Copies(p, k));
    assert Loaded(s1) == Loaded(s.(mem := [s.reader.seq1] + p));
    NotAmong(s.history, p, k, s.reader.begin, Loaded(s1));
    var rest := ReturnBreaks(s1);
    BreaksAfter(s, Times(p, k), s1, rest);
    run := Times(p, k) + rest;
  }

  /** The byte comes back after some publishes: then the bytes still to load make a mixture, unless there are none
      and what is loaded is a token. */
  lemma LaterBreaks(s: State) returns (run: seq<Step>)
    requires |s.mem| == AREA_SIZE && s.history != [] && s.writer.Idle? && s.reader.Reading? && ReaderLive(s)
    requires s.mem[0] == 0 && s.reader.seq1 % 2 == 0 && s.reader.seq1 > 0
    requires s.reader.begin < |s.history| && Published(s) + s.reader.seq1 / 2 < s.reader.begin + 128
    requires !(s.reader.todo == {} && Among(s.history, s.reader.begin, Published(s), s.reader.buf))
    ensures Breaks(s, run)
  {
    var b, k := s.reader.begin, s.reader.seq1 / 2;
    if s.reader.todo == {} {
      var p := TwoBytes(0, Plus(s.reader.buf[0], 1), 1, 0);
      assert Loaded(s.(mem := [s.reader.seq1] + p)) == s.reader.buf;
      run := PublishThenReturn(s, p, k);
    } else {
      var j :| j in s.reader.todo;
      var i: nat := if j == 0 then 1 else 0;
      run := MixBreaks(s, i, j);
    }
  }

  lemma MixBreaks(s: State, i: nat, j: nat) returns (run: seq<Step>)
    requires |s.mem| == AREA_SIZE && s.history != [] && s.writer.Idle? && s.reader.Reading? && ReaderLive(s)
    requires s.mem[0] == 0 && s.reader.seq1 % 2 == 0 && s.reader.seq1 > 0
    requires s.reader.begin < |s.history| && Published(s) + s.reader.seq1 / 2 < s.reader.begin + 128
    requires i < DATA_SIZE && j in s.reader.todo && i != j
    ensures Breaks(s, run)
    decreases i in s.reader.todo
  {
    if i in s.reader.todo {
      ExecOne(s, ReaderLoads(i));
      var s1 := Apply(s, ReaderLoads(i)).value;
      var rest := MixBreaks(s1, i, j);
      BreaksAfter(s, [ReaderLoads(i)], s1, rest);
      run := [ReaderLoads(i)] + rest;
    } else {
      assert j in AllBytes();
      var p := OddToken(s.history, s.reader.begin, i, j, s.reader.buf);
      var data := Loaded(s.(mem := [s.reader.seq1] + p));
      assert data[i] == s.reader.buf[i] && data[j] == p[j];
      run := PublishThenReturn(s, p, s.reader.seq1 / 2);
    }
  }

  lemma ReadBreaks(seq0: byte, s: State) returns (run: seq<Step>)
    requires seq0 % 2 == 0 && Inv(seq0, s) && ReaderLive(s) && !ReadHarmless(s)
    ensures Breaks(Wiped(s), run)
  {
    var s' := Wiped(s);
    EvenByte(seq0, s.reader.begin);
    assert s'.history == s.history + [Zeros()];
    if s.reader.seq1 == 0 {
      assert Loaded(s') == Filled(s.reader);
      run := ReturnBreaks(s');
    } else {
      if s.reader.todo == {} { assert Filled(s.reader) == s.reader.buf; }
      run := LaterBreaks(s');
    }
  }

  // A publish under way.

  /** The rest of a publish that has not marked the byte yet. */
  lemma FinishUnmarked(s: State) returns (run: seq<Step>)
    requires |s.mem| == AREA_SIZE && s.writer.GotSeq?
    ensures Exec(s, run) ==
            Some(s.(mem := [Plus(s.writer.seqNo, 2)] + s.writer.payload, writer := Idle,
                    history := s.history + [s.writer.payload]))
  {
    var p, q := s.writer.payload, s.writer.seqNo;
    ExecOne(s, WriterMarksOdd);
    var s1 := Apply(s, WriterMarksOdd).value;
    ExecStores(s1, 0, DATA_SIZE);
    var s2 := s1.(mem := [s1.mem[0]] + p, writer := s1.writer.(todo := {}));
    assert s1.mem[..1] + p[0..DATA_SIZE] + s1.mem[1 + DATA_SIZE..] == s2.mem && From(DATA_SIZE) == {};
    ExecClosing(s2);
    assert s2.mem[0 := Plus(q, 2)] == [Plus(q, 2)] + p;
    ExecThree(s, [WriterMarksOdd], Stores(0, DATA_SIZE), Closing(), s1, s2,
              Some(s.(mem := [Plus(q, 2)] + p, writer := Idle, history := s.history + [p])));
    run := [WriterMarksOdd] + Stores(0, DATA_SIZE) + Closing();
  }

  lemma TailOnly(s: State, n: nat, i: nat, j: nat)
    requires |s.mem| == AREA_SIZE && s.reader.Reading? && i < j < DATA_SIZE && |s.history| == n + 2
    requires s.history[n] == Zeros() && s.history[n + 1][i] != 0 && s.history[n + 1][j] != 0
    requires s.mem[1..] == s.history[n + 1] && i !in s.reader.todo && j in s.reader.todo && s.reader.buf[i] == 0
    ensures !Among(s.history, n, n + 1, Loaded(s))
  {
    var d := Loaded(s);
    assert d[i] == 0 && d[j] == s.mem[1..][j];
    forall k | n <= k <= n + 1 ensures s.history[k] != d {
      assert k == n ==> d[j] != s.history[k][j];
      assert k == n + 1 ==> d[i] != s.history[k][i];
    }
  }

  /** From byte 254 the publish brings back byte 0, and a read over it returns the token without its first bytes. */
  lemma UnmarkedBreaks(s: State, i: nat, j: nat) returns (run: seq<Step>)
    requires |s.mem| == AREA_SIZE && s.history != [] && s.mem == [0] + Zeros() && s.history[Published(s)] == Zeros()
    requires s.reader.Away? && s.writer.GotSeq? && s.writer.seqNo == 254
    requires i < j < DATA_SIZE && s.writer.payload[i] != 0 && s.writer.payload[j] != 0
    ensures Breaks(s, run)
  {
    FirstBytesRead(s, i + 1);
    var buf := s.mem[1..1 + (i + 1)] + Pad([])[i + 1..];
    assert buf[i] == s.mem[1 + i] == Zeros()[i];
    var s1 := s.(reader := Reading(0, 0, From(i + 1), buf, Published(s)));
    var rest := UnmarkedTail(s1, i, j);
    BreaksAfter(s, ReadStart() + Loads(0, i + 1), s1, rest);
    run := ReadStart() + Loads(0, i + 1) + rest;
  }

  lemma UnmarkedTail(s: State, i: nat, j: nat) returns (run: seq<Step>)
    requires |s.mem| == AREA_SIZE && s.history != [] && s.history[Published(s)] == Zeros()
    requires s.writer.GotSeq? && s.writer.seqNo == 254 && s.reader.Reading? && s.reader.n == 0 && s.reader.seq1 == 0
    requires i < j < DATA_SIZE && s.writer.payload[i] != 0 && s.writer.payload[j] != 0
    requires s.reader.begin == Published(s) && s.reader.todo == From(i + 1) && s.reader.buf[i] == 0
    ensures Breaks(s, run)
  {
    var n, p := Published(s), s.writer.payload;
    var finish := FinishUnmarked(s);
    var s1 := s.(mem := [0] + p, writer := Idle, history := s.history + [p]);
    TailOnly(s1, n, i, j);
    var rest := ReturnBreaks(s1);
    BreaksAfter(s, finish, s1, rest);
    run := finish + rest;
  }

  /** From any other byte than 0 the publish takes less than a whole turn to bring back byte 0, with tokens of
      its own on the way. */
  lemma OtherBaseBreaks(s: State) returns (run: seq<Step>)
    requires |s.mem| == AREA_SIZE && s.history != [] && s.mem == [0] + Zeros() && s.history[Published(s)] == Zeros()
    requires s.reader.Away? && !s.writer.Idle? && WriterLive(s)
    requires s.writer.seqNo % 2 == 0 && s.writer.seqNo != 0 && s.writer.seqNo != 254
    ensures Breaks(s, run)
  {
    FirstBytesRead(s, 1);
    var buf := s.mem[1..1 + 1] + Pad([])[1..];
    assert buf[0] == s.mem[1] == Zeros()[0];
    var s1 := s.(reader := Reading(0, 0, From(1), buf, Published(s)));
    var rest := OtherBaseTail(s1);
    BreaksAfter(s, ReadStart() + Loads(0, 1), s1, rest);
    run := ReadStart() + Loads(0, 1) + rest;
  }

  lemma OtherBaseTail(s: State) returns (run: seq<Step>)
    requires |s.mem| == AREA_SIZE && s.history != [] && s.history[Published(s)] == Zeros()
    requires !s.writer.Idle? && WriterLive(s)
    requires s.writer.seqNo % 2 == 0 && s.writer.seqNo != 0 && s.writer.seqNo != 254
    requires s.reader.Reading? && s.reader.n == 0 && s.reader.seq1 == 0 && s.reader.begin == Published(s)
    requires s.reader.todo == From(1) && s.reader.buf[0] == 0
    ensures Breaks(s, run)
  {
    var q, b := s.writer.seqNo, s.reader.begin;
    var finish := FinishPublish(s);
    var s1 := Exec(s, finish).value;
    var p := OddToken(s1.history, b, 0, 1, s.reader.buf);
    var data := Loaded(s1.(mem := [0] + p));
    assert data[0] == 0 && data[1] == p[1];
    var k := (254 - q) / 2;
    assert Plus(Plus(q, 2), 2 * k) == 0;
    var rest := PublishThenReturn(s1, p, k);
    BreaksAfter(s, finish, s1, rest);
    run := finish + rest;
  }

  /** Only the writer has moved. */
  ghost predicate WriterOnly(s: State, s': State) {
    s'.reader == s.reader && s'.log == s.log && |s'.mem| == AREA_SIZE
  }

  /** s' has every byte that the writer still had to store in s, and the others as they were. */
  ghost predicate AllStored(s: State, s': State)
    requires |s.mem| == AREA_SIZE && s.writer.Writing?
  {
    && WriterOnly(s, s') && s'.history == s.history && s'.writer == s.writer.(todo := {}) && s'.mem[0] == s.mem[0]
    && forall i :: 0 <= i < DATA_SIZE ==>
         s'.mem[1 + i] == if i in s.writer.todo then s.writer.payload[i] else s.mem[1 + i]
  }

  lemma OneStored(s: State, s': State, i: nat)
    requires |s.mem| == AREA_SIZE && s.writer.Writing? && i in s.writer.todo && i < DATA_SIZE
    requires var s1 := s.(mem := s.mem[1 + i := s.writer.payload[i]], writer := s.writer.(todo := s.writer.todo - {i}));
             AllStored(s1, s')
    ensures AllStored(s, s')
  {
    var s1 := s.(mem := s.mem[1 + i := s.writer.payload[i]], writer := s.writer.(todo := s.writer.todo - {i}));
    forall j | 0 <= j < DATA_SIZE
      ensures s'.mem[1 + j] == if j in s.writer.todo then s.writer.payload[j] else s.mem[1 + j]
    {
      assert s'.mem[1 + j] == if j in s1.writer.todo then s1.writer.payload[j] else s1.mem[1 + j];
    }
  }

  lemma {:induction false} DrainStores(s: State) returns (run: seq<Step>)
    requires |s.mem| == AREA_SIZE && s.writer.Writing? && WriterLive(s)
    ensures Exec(s, run).Some? && AllStored(s, Exec(s, run).value)
    decreases |s.writer.todo|
  {
    if i :| i in s.writer.todo {
      assert i in AllBytes();
      ExecOne(s, WriterStores(i));
      var s1 := Apply(s, WriterStores(i)).value;
      var rest := DrainStores(s1);
      ExecTwo(s, [WriterStores(i)], rest, s1, Exec(s1, rest));
      OneStored(s, Exec(s1, rest).value, i);
      run := [WriterStores(i)] + rest;
    } else {
      run := [];
    }
  }

  /** A publish under way can complete. */
  lemma FinishPublish(s: State) returns (run: seq<Step>)
    requires |s.mem| == AREA_SIZE && !s.writer.Idle? && WriterLive(s)
    ensures Exec(s, run).Some?
    ensures var s' := Exec(s, run).value;
            && WriterOnly(s, s') && s'.writer.Idle? && s'.history == s.history + [s.writer.payload]
            && s'.mem[0] == Plus(s.writer.seqNo, 2)
  {
    if s.writer.GotSeq? {
      run := FinishUnmarked(s);
    } else {
      var drain := DrainStores(s);
      var s1 := Exec(s, drain).value;
      ExecClosing(s1);
      ExecTwo(s, drain, Closing(), s1, Exec(s1, Closing()));
      run := drain + Closing();
    }
  }

  /** A whole read that returns something else than the current token. */
  lemma WrongRead(s: State, k: nat) returns (run: seq<Step>)
    requires |s.mem| == AREA_SIZE && s.history != [] && s.mem[0] % 2 == 0 && s.reader.Away? && k <= DATA_SIZE
    requires s.mem[1..] != s.history[Published(s)]
    ensures Breaks(s, run)
  {
    ExecWholeRead(s, k);
    var n := Published(s);
    NotSafe(s.log + [Returned(s.mem[1..], n, n)], s.history, |s.log|, n);
    run := WholeRead(k);
  }

  /** Between its marks a publish of anything but zeros: its remaining bytes appear without a mark, or its earlier
      bytes are missing for good. */
  lemma HalfStoredBreaks(s: State) returns (run: seq<Step>)
    requires |s.mem| == AREA_SIZE && s.mem == [0] + Zeros() && s.reader.Away? && WriterLive(s)
    requires s.history != [] && s.history[Published(s)] == Zeros()
    requires s.writer.Writing? && s.writer.seqNo % 2 == 0 && s.writer.payload != Zeros()
    ensures Breaks(s, run)
  {
    var drain := DrainStores(s);
    var s1 := Exec(s, drain).value;
    if s1.mem[1..] != Zeros() {
      var rest := WrongRead(s1, 1);
      BreaksAfter(s, drain, s1, rest);
      run := drain + rest;
    } else {
      ExecClosing(s1);
      var s2 := Exec(s1, Closing()).value;
      assert s2.mem[1..] == s1.mem[1..];
      var rest := WrongRead(s2, 1);
      BreaksAfter(s1, Closing(), s2, rest);
      BreaksAfter(s, drain, s1, Closing() + rest);
      run := drain + (Closing() + rest);
    }
  }

  lemma PublishBreaks(s: State) returns (run: seq<Step>)
    requires |s.mem| == AREA_SIZE && s.mem == [0] + Zeros() && s.history != [] && s.history[Published(s)] == Zeros()
    requires s.reader.Away? && WriterLive(s) && !PublishHarmless(s.writer) && s.writer.seqNo % 2 == 0
    ensures Breaks(s, run)
  {
    if s.writer.Writing? && s.writer.payload != Zeros() {
      run := HalfStoredBreaks(s);
    } else if s.writer.seqNo != 254 {
      run := OtherBaseBreaks(s);
    } else {
      var i, j :| 0 <= i < j < DATA_SIZE && s.writer.payload[i] != 0 && s.writer.payload[j] != 0;
      run := UnmarkedBreaks(s, i, j);
    }
  }

  lemma WipeBreaks(seq0: byte, s: State) returns (run: seq<Step>)
    requires seq0 % 2 == 0 && Inv(seq0, s) && ReaderLive(s) && WriterLive(s) && !Harmless(s)
    ensures Breaks(Wiped(s), run)
  {
    if !ReadHarmless(s) {
      run := ReadBreaks(seq0, s);
    } else {
      EvenByte(seq0, Published(s));
      var settle := Settle(Wiped(s));
      var s1 := Exec(Wiped(s), settle).value;
      var rest := PublishBreaks(s1);
      BreaksAfter(Wiped(s), settle, s1, rest);
      run := settle + rest;
    }
  }

  /** Main result: in every state that a run from an even start reaches, an uninterrupted cleanup leaves all reads,
      those under way and those to come, with tokens that were current during them, exactly as Harmless says. */
  lemma CleanupSafeExactly(seq0: byte, data: Payload, before: seq<Step>)
    requires seq0 % 2 == 0 && Exec(Init(seq0, data), before).Some?
    ensures var s := Exec(Init(seq0, data), before).value;
            |s.mem| == AREA_SIZE && (SafeFrom(Wiped(s)) <==> Harmless(s))
  {
    RunKeepsInv(seq0, Init(seq0, data), before);
    RunKeepsReaderLive(Init(seq0, data), before);
    RunKeepsWriterLive(Init(seq0, data), before);
    var s := Exec(Init(seq0, data), before).value;
    if Harmless(s) {
      HarmlessSafe(seq0, s);
    } else {
      var run := WipeBreaks(seq0, s);
    }
  }

  /** A cleanup that finds zeros under byte zero changes nothing, and accordingly is harmless to a read. */
  lemma NothingToWipe(s: State)
    requires |s.mem| == AREA_SIZE && s.history != [] && s.writer.Idle? && s.mem == [0] + Zeros()
    requires s.reader.Reading? && s.reader.seq1 == 0 && s.reader.begin == Published(s)
    requires forall i :: 0 <= i < DATA_SIZE && i !in s.reader.todo ==> s.reader.buf[i] == 0
    ensures Wiped(s).mem == s.mem && Harmless(s)
  {
    assert Filled(s.reader) == Zeros() == (s.history + [Zeros()])[|s.history|];
  }

  /** A cleanup is harmless to a read that has all its bytes, of a token that was current. */
  lemma AllLoadedHarmless(s: State)
    requires s.writer.Idle? && s.reader.Reading? && s.reader.todo == {}
    requires Among(s.history, s.reader.begin, Published(s), s.reader.buf)
    ensures Harmless(s)
  {
    assert Filled(s.reader) == s.reader.buf;
    AmongGrows(s.history, s.reader.begin, Published(s), |s.history|, s.reader.buf, Zeros());
  }
}
