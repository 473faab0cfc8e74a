/** The token area of the shared memory (src/ipc/shm.py): one sequence byte followed by 63 data
    bytes, one writer that publishes tokens and readers that retry on torn reads.
    Every shared-memory access of one byte is one atomic step; a run is any interleaving of them.
    Neither side is assumed to copy the data bytes in any particular order. */
module Seqlock {
  import opened Common

  const DATA_SIZE: nat := 63
  const AREA_SIZE: nat := 64
  const READ_RETRIES: nat := 4

  /** The contents of the data bytes. */
  type Payload = p: seq<byte> | |p| == DATA_SIZE witness seq(DATA_SIZE, _ => 0)

  /** The sequence byte wraps at 256. */
  function Plus(b: byte, d: nat): byte { (b as int + d) % 256 }

  // ----- token text and padded data bytes -----

  function Pad(token: seq<byte>): Payload {
    if |token| >= DATA_SIZE then token[..DATA_SIZE]
    else token + seq(DATA_SIZE - |token|, _ => 0)
  }

  function StripNuls(data: seq<byte>): (r: seq<byte>)
    ensures r <= data
    ensures r != [] ==> r[|r| - 1] != 0
    ensures forall i :: |r| <= i < |data| ==> data[i] == 0
  {
    if data == [] || data[|data| - 1] != 0 then data else StripNuls(data[..|data| - 1])
  }

  lemma {:induction false} StripOfPrefix(data: seq<byte>, t: seq<byte>)
    requires t <= data
    requires t == [] || t[|t| - 1] != 0
    requires forall i :: |t| <= i < |data| ==> data[i] == 0
    ensures StripNuls(data) == t
  {
    if |t| < |data| {
      StripOfPrefix(data[..|data| - 1], t);
    }
  }

  /** A reader gets back the very token that was published exactly when it fits the area and does
      not end in NUL; generated tokens are 62 hexadecimal digits and always do. */
  lemma TokenRoundTrip(token: seq<byte>)
    ensures StripNuls(Pad(token)) == token
      <==> |token| <= DATA_SIZE && (token == [] || token[|token| - 1] != 0)
  {
    if |token| <= DATA_SIZE && (token == [] || token[|token| - 1] != 0) {
      StripOfPrefix(Pad(token), token);
    }
  }

  // ----- the protocol as a state machine -----

  datatype Writer =
    | Idle
    | GotSeq(payload: Payload, seqNo: byte)
    | Writing(payload: Payload, seqNo: byte, todo: set<nat>)

  /** begin records how many publishes were complete when the attempt read the sequence byte. */
  datatype Reader =
    | Away
    | Attempt(n: nat)
    | Reading(n: nat, seq1: byte, todo: set<nat>, buf: Payload, begin: nat)

  /** A finished call: given up after the last retry, or data returned by an attempt during which
      the number of complete publishes went from begin to end. */
  datatype Outcome = GaveUp | Returned(data: Payload, begin: nat, end: nat)

  /** history[0] is what the area held at first, history[k] what the k-th complete publish stored. */
  datatype State = State(mem: seq<byte>, writer: Writer, reader: Reader,
                         history: seq<Payload>, log: seq<Outcome>)

  datatype Step =
    | WriterReadsSeq(token: seq<byte>)
    | WriterMarksOdd
    | WriterStores(at: nat)
    | WriterMarksEven
    | ReaderCalls
    | ReaderReadsSeq
    | ReaderLoads(at: nat)
    | ReaderChecksSeq
    | ReaderGivesUp

  /** The data offsets from k on. */
  function From(k: nat): (r: set<nat>)
    requires k <= DATA_SIZE
    ensures forall i :: i in r <==> k <= i < DATA_SIZE
  {
    var offsets := seq(DATA_SIZE - k, j requires 0 <= j => k + j);
    assert forall i {:trigger i in offsets} :: k <= i < DATA_SIZE ==> i in offsets by {
      forall i | k <= i < DATA_SIZE ensures i in offsets {
        assert offsets[i - k] == i;
      }
    }
    set i | i in offsets
  }

  function AllBytes(): set<nat> { From(0) }

  function Published(s: State): int { |s.history| - 1 }

  /** The effect of one step, or None where the step is not enabled. */
  function Apply(s: State, step: Step): Option<State>
    requires |s.mem| == AREA_SIZE
  {
    match step
    case WriterReadsSeq(token) =>
      if s.writer.Idle? then Some(s.(writer := GotSeq(Pad(token), s.mem[0]))) else None
    case WriterMarksOdd =>
      if s.writer.GotSeq? then
        Some(s.(mem := s.mem[0 := Plus(s.writer.seqNo, 1)],
                writer := Writing(s.writer.payload, s.writer.seqNo, AllBytes())))
      else None
    case WriterStores(i) =>
      if s.writer.Writing? && i in s.writer.todo && i < DATA_SIZE then
        Some(s.(mem := s.mem[1 + i := s.writer.payload[i]],
                writer := s.writer.(todo := s.writer.todo - {i})))
      else None
    case WriterMarksEven =>
      if s.writer.Writing? && s.writer.todo == {} then
        Some(s.(mem := s.mem[0 := Plus(s.writer.seqNo, 2)], writer := Idle,
                history := s.history + [s.writer.payload]))
      else None
    case ReaderCalls =>
      if s.reader.Away? then Some(s.(reader := Attempt(0))) else None
    case ReaderReadsSeq =>
      if s.reader.Attempt? && s.reader.n < READ_RETRIES && |s.history| > 0 then
        Some(s.(reader :=
          if s.mem[0] % 2 == 1 then Attempt(s.reader.n + 1)
          else Reading(s.reader.n, s.mem[0], AllBytes(), Pad([]), |s.history| - 1)))
      else None
    case ReaderLoads(i) =>
      if s.reader.Reading? && i in s.reader.todo && i < DATA_SIZE then
        Some(s.(reader := s.reader.(todo := s.reader.todo - {i}, buf := s.reader.buf[i := s.mem[1 + i]])))
      else None
    case ReaderChecksSeq =>
      if s.reader.Reading? && s.reader.todo == {} && |s.history| > 0 then
        if s.mem[0] != s.reader.seq1 then Some(s.(reader := Attempt(s.reader.n + 1)))
        else Some(s.(reader := Away,
                     log := s.log + [Returned(s.reader.buf, s.reader.begin, |s.history| - 1)]))
      else None
    case ReaderGivesUp =>
      if s.reader.Attempt? && s.reader.n == READ_RETRIES then
        Some(s.(reader := Away, log := s.log + [GaveUp]))
      else None
  }

  lemma ApplyKeepsSize(s: State, step: Step)
    requires |s.mem| == AREA_SIZE
    ensures Apply(s, step).Some? ==> |Apply(s, step).value.mem| == AREA_SIZE
  {}

  /** The state after a whole run, or None when some step is not enabled. */
  function Exec(s: State, run: seq<Step>): Option<State>
    requires |s.mem| == AREA_SIZE
    decreases |run|
  {
    if run == [] then Some(s)
    else
      ApplyKeepsSize(s, run[0]);
      match Apply(s, run[0])
      case None => None
      case Some(s') => Exec(s', run[1..])
  }

  function Init(seq0: byte, data: Payload): State {
    State([seq0] + data, Idle, Away, [data], [])
  }

  // ----- safety over every run -----

  /** What a caller may rely on: a read returns only when a multiple of 128 publishes completed during it; when
      that is none, it returns the token that was current when the attempt began, untorn; and reads never go
      back in time. */
  ghost predicate LogSafe(log: seq<Outcome>, history: seq<Payload>) {
    && (forall i :: 0 <= i < |log| && log[i].Returned? ==>
          log[i].begin <= log[i].end < |history| && (log[i].end - log[i].begin) % 128 == 0
          && (log[i].end == log[i].begin ==> log[i].data == history[log[i].begin]))
    && (forall i, j :: 0 <= i < j < |log| && log[i].Returned? && log[j].Returned? ==>
          log[i].end <= log[j].begin)
  }

  /** One of the tokens that were current from the lo-th to the hi-th publish. */
  ghost predicate Among(history: seq<Payload>, lo: int, hi: int, data: Payload) {
    exists k :: 0 <= lo <= k <= hi < |history| && history[k] == data
  }

  /** What is left of that without counting publishes: a read that fewer than 128 publishes overlap returns one of
      the tokens that were current during it, and reads never go back in time. */
  ghost predicate DataSafe(log: seq<Outcome>, history: seq<Payload>) {
    && (forall i :: 0 <= i < |log| && log[i].Returned? ==> RightRead(log[i], history))
    && (forall i, j :: 0 <= i < j < |log| && log[i].Returned? && log[j].Returned? ==>
          log[i].end <= log[j].begin)
  }

  ghost predicate RightRead(o: Outcome, history: seq<Payload>)
    requires o.Returned?
  {
    && o.begin <= o.end < |history|
    && (o.end - o.begin < 128 ==> Among(history, o.begin, o.end, o.data))
  }

  lemma LogSafeData(log: seq<Outcome>, history: seq<Payload>)
    requires LogSafe(log, history)
    ensures DataSafe(log, history)
  {
    forall i | 0 <= i < |log| && log[i].Returned? ensures RightRead(log[i], history) {
      var b, e := log[i].begin, log[i].end;
      if e - b < 128 { assert e == b && history[b] == log[i].data; }
    }
  }

  ghost predicate WriterInv(seq0: byte, s: State)
    requires |s.mem| == AREA_SIZE && s.history != []
  {
    var n := Published(s);
    && (!s.writer.Idle? ==> s.writer.seqNo == (seq0 + 2 * n) % 256)
    && s.mem[0] == (seq0 + 2 * n + if s.writer.Writing? then 1 else 0) % 256
    && (forall i :: 0 <= i < DATA_SIZE ==>
          s.mem[1 + i] == if s.writer.Writing? && i !in s.writer.todo then s.writer.payload[i] else s.history[n][i])
  }

  ghost predicate ReaderInv(seq0: byte, s: State)
    requires |s.mem| == AREA_SIZE && s.history != []
  {
    s.reader.Reading? ==>
      && s.reader.seq1 == (seq0 + 2 * s.reader.begin) % 256
      && s.reader.begin < |s.history|
      && (forall i :: 0 <= i < |s.log| && s.log[i].Returned? ==> s.log[i].end <= s.reader.begin)
      && (s.reader.begin == Published(s) && !s.writer.Writing? ==>
            forall i :: 0 <= i < DATA_SIZE && i !in s.reader.todo ==> s.reader.buf[i] == s.history[s.reader.begin][i])
  }

  ghost predicate Inv(seq0: byte, s: State) {
    && |s.mem| == AREA_SIZE
    && s.history != []
    && WriterInv(seq0, s)
    && ReaderInv(seq0, s)
    && LogSafe(s.log, s.history)
  }

  /** Equal even sequence bytes mean that no publish is under way and that a multiple of 128 completed. */
  lemma SameSeqSamePublish(seq0: byte, begin: nat, end: nat, busy: int)
    requires begin <= end && 0 <= busy <= 1
    requires (seq0 + 2 * begin) % 256 == (seq0 + 2 * end + busy) % 256
    ensures (end - begin) % 128 == 0 && busy == 0
  {
    var a, b := seq0 + 2 * begin, seq0 + 2 * end + busy;
    var n := b / 256 - a / 256;
    assert 2 * (end - begin) + busy == b - a == 256 * n;
    assert end - begin == 128 * n;
  }

  lemma StepKeepsWriter(seq0: byte, s: State, step: Step)
    requires |s.mem| == AREA_SIZE && s.history != [] && WriterInv(seq0, s) && Apply(s, step).Some?
    ensures var s' := Apply(s, step).value;
            |s'.mem| == AREA_SIZE && s'.history != [] && WriterInv(seq0, s')
  {
    var s' := Apply(s, step).value;
    match step
    case WriterMarksOdd =>
      NextSeq(seq0 + 2 * Published(s), 1);
    case WriterMarksEven =>
      NextSeq(seq0 + 2 * Published(s), 2);
      assert Published(s') == Published(s) + 1;
    case _ =>
  }

  lemma NextSeq(a: int, d: nat)
    ensures (a % 256 + d) % 256 == (a + d) % 256
  {}

  lemma WriterKeepsReader(seq0: byte, s: State, step: Step)
    requires seq0 % 2 == 0 && Inv(seq0, s) && Apply(s, step).Some?
    requires step.WriterReadsSeq? || step.WriterMarksOdd? || step.WriterStores?
    ensures var s' := Apply(s, step).value;
            |s'.mem| == AREA_SIZE && s'.history != [] && ReaderInv(seq0, s')
  {
  }

  lemma PublishKeepsReader(seq0: byte, s: State, step: Step)
    requires seq0 % 2 == 0 && Inv(seq0, s) && Apply(s, step).Some? && step.WriterMarksEven?
    ensures var s' := Apply(s, step).value;
            |s'.mem| == AREA_SIZE && s'.history != [] && ReaderInv(seq0, s')
  {
  }

  lemma LoadKeepsReader(seq0: byte, s: State, step: Step)
    requires seq0 % 2 == 0 && Inv(seq0, s) && Apply(s, step).Some? && step.ReaderLoads?
    ensures var s' := Apply(s, step).value;
            |s'.mem| == AREA_SIZE && s'.history != [] && ReaderInv(seq0, s')
  {
  }

  lemma SameParity(a: int)
    ensures (a % 256) % 2 == a % 2
  {
    EvenAdded(a % 256, 128 * (a / 256));
  }

  /** Publishing keeps the parity of the sequence byte. */
  lemma EvenByte(seq0: byte, n: nat)
    requires seq0 % 2 == 0
    ensures (seq0 + 2 * n) % 256 % 2 == 0
  {
    SameParity(seq0 + 2 * n);
    EvenAdded(seq0, n);
  }

  lemma EvenAdded(r: int, m: int)
    ensures (r + 2 * m) % 2 == r % 2
  {}

  lemma AttemptKeepsReader(seq0: byte, s: State, step: Step)
    requires seq0 % 2 == 0 && Inv(seq0, s) && Apply(s, step).Some? && step.ReaderReadsSeq?
    ensures var s' := Apply(s, step).value;
            |s'.mem| == AREA_SIZE && s'.history != [] && ReaderInv(seq0, s')
  {
    var s', busy := Apply(s, step).value, if s.writer.Writing? then 1 else 0;
    SameParity(seq0 + 2 * Published(s) + busy);
    if s.mem[0] % 2 == 0 {
      assert busy == 0 && s'.reader == Reading(s.reader.n, s.mem[0], AllBytes(), Pad([]), Published(s));
    } else {
      assert !s'.reader.Reading?;
    }
  }

  lemma ReturnKeepsReader(seq0: byte, s: State, step: Step)
    requires seq0 % 2 == 0 && Inv(seq0, s) && Apply(s, step).Some?
    requires step.ReaderCalls? || step.ReaderChecksSeq? || step.ReaderGivesUp?
    ensures var s' := Apply(s, step).value;
            |s'.mem| == AREA_SIZE && s'.history != [] && ReaderInv(seq0, s')
  {
  }

  lemma StepKeepsReader(seq0: byte, s: State, step: Step)
    requires seq0 % 2 == 0 && Inv(seq0, s) && Apply(s, step).Some?
    ensures var s' := Apply(s, step).value;
            |s'.mem| == AREA_SIZE && s'.history != [] && ReaderInv(seq0, s')
  {
    match step
    case WriterMarksEven => PublishKeepsReader(seq0, s, step);
    case WriterReadsSeq(_) => WriterKeepsReader(seq0, s, step);
    case WriterMarksOdd => WriterKeepsReader(seq0, s, step);
    case WriterStores(_) => WriterKeepsReader(seq0, s, step);
    case ReaderLoads(_) => LoadKeepsReader(seq0, s, step);
    case ReaderReadsSeq => AttemptKeepsReader(seq0, s, step);
    case _ => ReturnKeepsReader(seq0, s, step);
  }

  lemma StepKeepsLog(seq0: byte, s: State, step: Step)
    requires seq0 % 2 == 0 && Inv(seq0, s) && Apply(s, step).Some?
    ensures var s' := Apply(s, step).value; LogSafe(s'.log, s'.history)
  {
    match step
    case WriterMarksEven => HistoryGrows(s.log, s.history, s.writer.payload);
    case ReaderGivesUp => GaveUpSafe(s.log, s.history);
    case ReaderChecksSeq => CheckKeepsLog(seq0, s);
    case _ =>
  }

  lemma HistoryGrows(log: seq<Outcome>, history: seq<Payload>, p: Payload)
    requires LogSafe(log, history)
    ensures LogSafe(log, history + [p])
  {}

  lemma GaveUpSafe(log: seq<Outcome>, history: seq<Payload>)
    requires LogSafe(log, history)
    ensures LogSafe(log + [GaveUp], history)
  {}

  lemma CheckKeepsLog(seq0: byte, s: State)
    requires Inv(seq0, s) && Apply(s, ReaderChecksSeq).Some?
    ensures var s' := Apply(s, ReaderChecksSeq).value; LogSafe(s'.log, s'.history)
  {
    if s.mem[0] == s.reader.seq1 {
      var b := s.reader.begin;
      SameSeqSamePublish(seq0, b, Published(s), if s.writer.Writing? then 1 else 0);
      if b == Published(s) { assert s.reader.buf == s.history[b]; }
      ReturnedSafe(s.log, s.history, s.reader.buf, b);
    }
  }

  lemma ReturnedSafe(log: seq<Outcome>, history: seq<Payload>, data: Payload, begin: nat)
    requires LogSafe(log, history) && begin < |history| && (|history| - 1 - begin) % 128 == 0
    requires begin == |history| - 1 ==> data == history[begin]
    requires forall i :: 0 <= i < |log| && log[i].Returned? ==> log[i].end <= begin
    ensures LogSafe(log + [Returned(data, begin, |history| - 1)], history)
  {}

  lemma StepKeepsInv(seq0: byte, s: State, step: Step)
    requires seq0 % 2 == 0 && Inv(seq0, s) && Apply(s, step).Some?
    ensures Inv(seq0, Apply(s, step).value)
  {
    StepKeepsWriter(seq0, s, step);
    StepKeepsReader(seq0, s, step);
    StepKeepsLog(seq0, s, step);
  }

  lemma {:induction false} RunKeepsInv(seq0: byte, s: State, run: seq<Step>)
    requires seq0 % 2 == 0 && Inv(seq0, s) && Exec(s, run).Some?
    ensures Inv(seq0, Exec(s, run).value)
    decreases |run|
  {
    if run != [] {
      StepKeepsInv(seq0, s, run[0]);
      RunKeepsInv(seq0, Apply(s, run[0]).value, run[1..]);
    }
  }

  /** Main result: from an even sequence byte every interleaving is safe. */
  lemma SeqlockSafe(seq0: byte, data: Payload, run: seq<Step>)
    requires seq0 % 2 == 0 && Exec(Init(seq0, data), run).Some?
    ensures var s := Exec(Init(seq0, data), run).value; LogSafe(s.log, s.history)
  {
    RunKeepsInv(seq0, Init(seq0, data), run);
  }

  // ----- when a reader gives up -----

  function GaveUps(log: seq<Outcome>): nat {
    if log == [] then 0 else GaveUps(log[..|log| - 1]) + if log[|log| - 1].GaveUp? then 1 else 0
  }

  lemma GaveUpsMore(log: seq<Outcome>, o: Outcome)
    ensures GaveUps(log + [o]) == GaveUps(log) + if o.GaveUp? then 1 else 0
  {
    assert (log + [o])[..|log|] == log;
  }

  /** The failed attempts of the call under way. */
  function Spent(r: Reader): nat {
    match r
    case Away => 0
    case Attempt(n) => n
    case Reading(n, _, _, _, _) => n
  }

  /** The reader meets a publish: one under way, or one that completed since the attempt began. */
  predicate Disturbed(s: State, step: Step) {
    || (step.ReaderReadsSeq? && s.writer.Writing?)
    || (step.ReaderChecksSeq? && s.reader.Reading? && (s.writer.Writing? || s.reader.begin < Published(s)))
  }

  function Disturbances(s: State, run: seq<Step>): nat
    requires |s.mem| == AREA_SIZE
    decreases |run|
  {
    if run == [] then 0
    else
      ApplyKeepsSize(s, run[0]);
      match Apply(s, run[0])
      case None => 0
      case Some(s') => (if Disturbed(s, run[0]) then 1 else 0) + Disturbances(s', run[1..])
  }

  lemma ReadsSeqSpends(seq0: byte, s: State)
    requires seq0 % 2 == 0 && Inv(seq0, s) && Apply(s, ReaderReadsSeq).Some?
    ensures Spent(Apply(s, ReaderReadsSeq).value.reader) <=
            Spent(s.reader) + if Disturbed(s, ReaderReadsSeq) then 1 else 0
  {
    if !s.writer.Writing? { EvenByte(seq0, Published(s)); }
  }

  lemma ChecksSeqSpends(seq0: byte, s: State)
    requires seq0 % 2 == 0 && Inv(seq0, s) && Apply(s, ReaderChecksSeq).Some?
    ensures Spent(Apply(s, ReaderChecksSeq).value.reader) <=
            Spent(s.reader) + if Disturbed(s, ReaderChecksSeq) then 1 else 0
  {}

  /** Only a disturbed attempt fails, and giving up costs four failed attempts. */
  lemma StepSpends(seq0: byte, s: State, step: Step)
    requires seq0 % 2 == 0 && Inv(seq0, s) && Apply(s, step).Some?
    ensures var s' := Apply(s, step).value;
            4 * GaveUps(s'.log) + Spent(s'.reader) <=
            4 * GaveUps(s.log) + Spent(s.reader) + if Disturbed(s, step) then 1 else 0
  {
    match step
    case ReaderReadsSeq => ReadsSeqSpends(seq0, s);
    case ReaderChecksSeq =>
      ChecksSeqSpends(seq0, s);
      GaveUpsMore(s.log, Returned(s.reader.buf, s.reader.begin, |s.history| - 1));
    case ReaderGivesUp => GaveUpsMore(s.log, GaveUp);
    case _ =>
  }

  lemma {:induction false} RunSpends(seq0: byte, s: State, run: seq<Step>)
    requires seq0 % 2 == 0 && Inv(seq0, s) && Exec(s, run).Some?
    ensures var s' := Exec(s, run).value;
            4 * GaveUps(s'.log) + Spent(s'.reader) <= 4 * GaveUps(s.log) + Spent(s.reader) + Disturbances(s, run)
    decreases |run|
  {
    if run != [] {
      StepKeepsInv(seq0, s, run[0]);
      StepSpends(seq0, s, run[0]);
      RunSpends(seq0, Apply(s, run[0]).value, run[1..]);
    }
  }

  /** Over every interleaving: a call gives up only after four attempts each of which met a publish, so that giving up
      is as rare as publishing makes it; and no call makes more than four attempts. */
  lemma GivesUpOnlyDisturbed(seq0: byte, data: Payload, run: seq<Step>)
    requires seq0 % 2 == 0 && Exec(Init(seq0, data), run).Some?
    ensures var s := Exec(Init(seq0, data), run).value;
            4 * GaveUps(s.log) + Spent(s.reader) <= Disturbances(Init(seq0, data), run) && Spent(s.reader) <= 4
  {
    RunSpends(seq0, Init(seq0, data), run);
    RunKeepsReaderLive(Init(seq0, data), run);
  }

  // ----- particular runs -----

  lemma {:induction false} ExecSize(s: State, run: seq<Step>)
    requires |s.mem| == AREA_SIZE
    ensures Exec(s, run).Some? ==> |Exec(s, run).value.mem| == AREA_SIZE
    decreases |run|
  {
    if run != [] && Apply(s, run[0]).Some? {
      ExecSize(Apply(s, run[0]).value, run[1..]);
    }
  }

  lemma {:induction false} ExecAppend(s: State, a: seq<Step>, b: seq<Step>)
    requires |s.mem| == AREA_SIZE && Exec(s, a).Some?
    ensures |Exec(s, a).value.mem| == AREA_SIZE
    ensures Exec(s, a + b) == Exec(Exec(s, a).value, b)
    decreases |a|
  {
    ExecSize(s, a);
    if a == [] {
      assert a + b == b;
    } else {
      ConsAppend(a, b);
      ExecAppend(Apply(s, a[0]).value, a[1..], b);
    }
  }

  /** The data bytes from a up to b, in ascending order. */
  function Stores(a: nat, b: nat): seq<Step>
    requires a <= b <= DATA_SIZE
  {
    seq(b - a, j requires 0 <= j => WriterStores(a + j))
  }

  function Loads(a: nat, b: nat): seq<Step>
    requires a <= b <= DATA_SIZE
  {
    seq(b - a, j requires 0 <= j => ReaderLoads(a + j))
  }

  function ReadStart(): seq<Step> { [ReaderCalls, ReaderReadsSeq] }

  function ReadRest(k: nat): seq<Step>
    requires k <= DATA_SIZE
  {
    Loads(k, DATA_SIZE) + [ReaderChecksSeq]
  }

  function Opening(token: seq<byte>): seq<Step> { [WriterReadsSeq(token), WriterMarksOdd] }

  function Closing(): seq<Step> { [WriterMarksEven] }

  /** One complete publish, as the writer performs it. */
  function Publishing(token: seq<byte>): seq<Step> { Opening(token) + Stores(0, DATA_SIZE) + Closing() }

  /** Overwriting a stretch byte by byte. */
  lemma OneMore(x: seq<byte>, at: nat, part: seq<byte>)
    requires part != [] && at + |part| <= |x|
    ensures var y := x[at := part[0]];
            y[..at + 1] + part[1..] + y[at + |part|..] == x[..at] + part + x[at + |part|..]
  {}

  lemma {:induction false} ExecStores(s: State, a: nat, b: nat)
    requires |s.mem| == AREA_SIZE && a <= b <= DATA_SIZE
    requires s.writer.Writing? && s.writer.todo == From(a)
    ensures Exec(s, Stores(a, b)) ==
            Some(s.(mem := s.mem[..1 + a] + s.writer.payload[a..b] + s.mem[1 + b..],
                    writer := s.writer.(todo := From(b))))
    decreases b - a
  {
    if a < b {
      var s' := s.(mem := s.mem[1 + a := s.writer.payload[a]], writer := s.writer.(todo := From(a + 1)));
      assert From(a) - {a} == From(a + 1);
      assert Apply(s, WriterStores(a)) == Some(s');
      assert Stores(a, b)[1..] == Stores(a + 1, b);
      ExecStores(s', a + 1, b);
      assert s.writer.payload[a..b][1..] == s.writer.payload[a + 1..b];
      OneMore(s.mem, 1 + a, s.writer.payload[a..b]);
    } else {
      assert Stores(a, b) == [];
      assert s.mem[..1 + a] + s.writer.payload[a..b] + s.mem[1 + b..] == s.mem;
    }
  }

  lemma {:induction false} ExecLoads(s: State, a: nat, b: nat)
    requires |s.mem| == AREA_SIZE && a <= b <= DATA_SIZE
    requires s.reader.Reading? && s.reader.todo == From(a)
    ensures Exec(s, Loads(a, b)) ==
            Some(s.(reader := s.reader.(todo := From(b),
                                        buf := s.reader.buf[..a] + s.mem[1 + a..1 + b] + s.reader.buf[b..])))
    decreases b - a
  {
    if a < b {
      var s' := s.(reader := s.reader.(todo := From(a + 1), buf := s.reader.buf[a := s.mem[1 + a]]));
      assert From(a) - {a} == From(a + 1);
      assert Apply(s, ReaderLoads(a)) == Some(s');
      assert Loads(a, b)[1..] == Loads(a + 1, b);
      ExecLoads(s', a + 1, b);
      assert s.mem[1 + a..1 + b][1..] == s.mem[1 + (a + 1)..1 + b];
      OneMore(s.reader.buf, a, s.mem[1 + a..1 + b]);
    } else {
      assert Loads(a, b) == [];
      assert s.reader.buf[..a] + s.mem[1 + a..1 + b] + s.reader.buf[b..] == s.reader.buf;
    }
  }

  function AfterPublish(mem: seq<byte>, token: seq<byte>): seq<byte>
    requires |mem| == AREA_SIZE
  {
    [Plus(mem[0], 2)] + Pad(token)
  }

  lemma ExecOpening(s: State, token: seq<byte>)
    requires |s.mem| == AREA_SIZE && s.writer.Idle?
    ensures Exec(s, Opening(token)) ==
            Some(s.(mem := s.mem[0 := Plus(s.mem[0], 1)], writer := Writing(Pad(token), s.mem[0], AllBytes())))
  {
    var s1 := s.(writer := GotSeq(Pad(token), s.mem[0]));
    ExecOne(s, WriterReadsSeq(token));
    ExecOne(s1, WriterMarksOdd);
    ExecAppend(s, [WriterReadsSeq(token)], [WriterMarksOdd]);
    assert [WriterReadsSeq(token)] + [WriterMarksOdd] == Opening(token);
  }

  lemma ExecClosing(s: State)
    requires |s.mem| == AREA_SIZE && s.writer.Writing? && s.writer.todo == {}
    ensures Exec(s, Closing()) ==
            Some(s.(mem := s.mem[0 := Plus(s.writer.seqNo, 2)], writer := Idle,
                    history := s.history + [s.writer.payload]))
  {
    ExecOne(s, WriterMarksEven);
  }

  lemma ExecTwo(s: State, a: seq<Step>, b: seq<Step>, s1: State, r: Option<State>)
    requires |s.mem| == |s1.mem| == AREA_SIZE
    requires Exec(s, a) == Some(s1) && Exec(s1, b) == r
    ensures Exec(s, a + b) == r
  {
    ExecAppend(s, a, b);
  }

  lemma ExecThree(s: State, a: seq<Step>, b: seq<Step>, c: seq<Step>, s1: State, s2: State, r: Option<State>)
    requires |s.mem| == |s1.mem| == |s2.mem| == AREA_SIZE
    requires Exec(s, a) == Some(s1) && Exec(s1, b) == Some(s2) && Exec(s2, c) == r
    ensures Exec(s, a + b + c) == r
  {
    ExecAppend(s, a, b);
    ExecAppend(s, a + b, c);
  }

  lemma ExecPublishing(s: State, token: seq<byte>)
    requires |s.mem| == AREA_SIZE && s.writer.Idle?
    ensures Exec(s, Publishing(token)) ==
            Some(s.(mem := AfterPublish(s.mem, token), history := s.history + [Pad(token)]))
  {
    var s1 := s.(mem := s.mem[0 := Plus(s.mem[0], 1)], writer := Writing(Pad(token), s.mem[0], AllBytes()));
    ExecOpening(s, token);
    ExecStores(s1, 0, DATA_SIZE);
    var s2 := s1.(mem := [s1.mem[0]] + Pad(token), writer := s1.writer.(todo := {}));
    assert s1.mem[..1] + Pad(token)[0..DATA_SIZE] + s1.mem[1 + DATA_SIZE..] == s2.mem && From(DATA_SIZE) == {};
    ExecClosing(s2);
    var s3 := s2.(mem := s2.mem[0 := Plus(s.mem[0], 2)], writer := Idle, history := s2.history + [Pad(token)]);
    assert s3.mem == AfterPublish(s.mem, token);
    ExecThree(s, Opening(token), Stores(0, DATA_SIZE), Closing(), s1, s2, Some(s3));
  }

  function Times(token: seq<byte>, n: nat): seq<Step> {
    if n == 0 then [] else Publishing(token) + Times(token, n - 1)
  }

  function Copies(p: Payload, n: nat): seq<Payload> { seq(n, _ => p) }

  lemma {:induction false} ExecTimes(s: State, token: seq<byte>, n: nat)
    requires |s.mem| == AREA_SIZE && s.writer.Idle?
    ensures Exec(s, Times(token, n)) == Some(s.(
              mem := if n == 0 then s.mem else [Plus(s.mem[0], 2 * n)] + Pad(token),
              history := s.history + Copies(Pad(token), n)))
    decreases n
  {
    if n == 0 {
      assert s.history + Copies(Pad(token), 0) == s.history;
    } else {
      ExecPublishing(s, token);
      var s' := Exec(s, Publishing(token)).value;
      ExecTimes(s', token, n - 1);
      ExecAppend(s, Publishing(token), Times(token, n - 1));
      var m: int := s.mem[0];
      NextSeq(m + 2, 2 * (n - 1));
      assert Plus(Plus(s.mem[0], 2), 2 * (n - 1)) == Plus(s.mem[0], 2 * n);
      assert s.history + [Pad(token)] + Copies(Pad(token), n - 1) == s.history + Copies(Pad(token), n);
    }
  }

  lemma ExecOne(s: State, step: Step)
    requires |s.mem| == AREA_SIZE
    ensures Exec(s, [step]) == Apply(s, step)
  {
    if Apply(s, step).Some? {
      assert [step][1..] == [];
      ApplyKeepsSize(s, step);
    }
  }

  /** The first two steps of a read of a stable area. */
  lemma BeginRead(s: State)
    requires |s.mem| == AREA_SIZE && s.history != [] && s.reader.Away? && s.mem[0] % 2 == 0
    ensures Exec(s, ReadStart()) == Some(s.(reader := Reading(0, s.mem[0], AllBytes(), Pad([]), Published(s))))
  {
    ExecOne(s, ReaderCalls);
    var s1 := s.(reader := Attempt(0));
    ExecOne(s1, ReaderReadsSeq);
    ExecAppend(s, [ReaderCalls], [ReaderReadsSeq]);
    assert [ReaderCalls] + [ReaderReadsSeq] == [ReaderCalls, ReaderReadsSeq];
  }

  /** The rest of a read whose sequence byte is unchanged. */
  lemma FinishRead(s: State, k: nat)
    requires |s.mem| == AREA_SIZE && s.history != [] && k <= DATA_SIZE
    requires s.reader.Reading? && s.reader.todo == From(k) && s.reader.seq1 == s.mem[0]
    ensures Exec(s, ReadRest(k)) == Some(s.(reader := Away,
              log := s.log + [Returned(s.reader.buf[..k] + s.mem[1 + k..], s.reader.begin, Published(s))]))
  {
    ExecLoads(s, k, DATA_SIZE);
    var buf := s.reader.buf[..k] + s.mem[1 + k..];
    assert s.reader.buf[..k] + s.mem[1 + k..1 + DATA_SIZE] + s.reader.buf[DATA_SIZE..] == buf;
    var s1 := s.(reader := s.reader.(todo := {}, buf := buf));
    assert From(DATA_SIZE) == {};
    ExecOne(s1, ReaderChecksSeq);
    ExecTwo(s, Loads(k, DATA_SIZE), [ReaderChecksSeq], s1, Apply(s1, ReaderChecksSeq));
  }

  /** A read of a stable area up to its first k data bytes. */
  lemma FirstBytesRead(s: State, k: nat)
    requires |s.mem| == AREA_SIZE && s.history != [] && s.reader.Away? && s.mem[0] % 2 == 0 && k <= DATA_SIZE
    ensures Exec(s, ReadStart() + Loads(0, k)) ==
            Some(s.(reader := Reading(0, s.mem[0], From(k), s.mem[1..1 + k] + Pad([])[k..], Published(s))))
  {
    BeginRead(s);
    var s1 := s.(reader := Reading(0, s.mem[0], AllBytes(), Pad([]), Published(s)));
    ExecLoads(s1, 0, k);
    assert Pad([])[..0] + s.mem[1..1 + k] + Pad([])[k..] == s.mem[1..1 + k] + Pad([])[k..];
    ExecTwo(s, ReadStart(), Loads(0, k), s1, Exec(s1, Loads(0, k)));
  }

  function WholeRead(k: nat): seq<Step>
    requires k <= DATA_SIZE
  {
    ReadStart() + Loads(0, k) + ReadRest(k)
  }

  /** A whole read of a stable area, with a pause after k bytes. */
  lemma ExecWholeRead(s: State, k: nat)
    requires |s.mem| == AREA_SIZE && s.history != [] && s.reader.Away? && s.mem[0] % 2 == 0 && k <= DATA_SIZE
    ensures Exec(s, WholeRead(k)) ==
            Some(s.(log := s.log + [Returned(s.mem[1..], Published(s), Published(s))]))
  {
    FirstBytesRead(s, k);
    var buf := s.mem[1..1 + k] + Pad([])[k..];
    var s1 := s.(reader := Reading(0, s.mem[0], From(k), buf, Published(s)));
    FinishRead(s1, k);
    assert buf[..k] + s.mem[1 + k..] == s.mem[1..];
    ExecTwo(s, ReadStart() + Loads(0, k), ReadRest(k), s1,
            Some(s.(log := s.log + [Returned(s.mem[1..], Published(s), Published(s))])));
  }

  /** Between publishes the area holds the current token under an even byte. */
  lemma StableArea(seq0: byte, s: State)
    requires seq0 % 2 == 0 && Inv(seq0, s) && !s.writer.Writing?
    ensures s.mem[0] % 2 == 0 && s.mem[1..] == s.history[Published(s)]
  {
    var n := Published(s);
    EvenByte(seq0, n);
    forall i | 0 <= i < DATA_SIZE ensures s.mem[1..][i] == s.history[n][i] {
      assert s.mem[1 + i] == s.history[n][i];
    }
  }

  /** A reader that no writer step interrupts returns the current token at its first attempt. */
  lemma QuietReadReturnsCurrent(seq0: byte, s: State, k: nat)
    requires seq0 % 2 == 0 && Inv(seq0, s) && s.reader.Away? && !s.writer.Writing? && k <= DATA_SIZE
    ensures Exec(s, WholeRead(k)) ==
            Some(s.(log := s.log + [Returned(s.history[Published(s)], Published(s), Published(s))]))
  {
    StableArea(seq0, s);
    ExecWholeRead(s, k);
  }

  lemma TimesAround(s: State, token: seq<byte>, n: nat)
    requires |s.mem| == AREA_SIZE && s.writer.Idle? && n > 0 && n % 128 == 0
    ensures Exec(s, Times(token, n)) ==
            Some(s.(mem := [s.mem[0]] + Pad(token), history := s.history + Copies(Pad(token), n)))
  {
    ExecTimes(s, token, n);
    WrappedAround(s.mem[0], n);
  }

  lemma SpanTears(s0: State, token: seq<byte>, n: nat, k: nat) returns (run: seq<Step>)
    requires |s0.mem| == AREA_SIZE && s0.history != [] && s0.writer.Idle? && s0.reader.Away? && s0.mem[0] % 2 == 0
    requires n > 0 && n % 128 == 0 && k <= DATA_SIZE
    ensures Exec(s0, run).Some?
    ensures var s, b := Exec(s0, run).value, Published(s0);
            s.history == s0.history + Copies(Pad(token), n)
            && s.log == s0.log + [Returned(s0.mem[1..1 + k] + Pad(token)[k..], b, b + n)]
  {
    FirstBytesRead(s0, k);
    var buf, b := s0.mem[1..1 + k] + Pad([])[k..], Published(s0);
    var s1 := s0.(reader := Reading(0, s0.mem[0], From(k), buf, b));
    TimesAround(s1, token, n);
    var s2 := s1.(mem := [s0.mem[0]] + Pad(token), history := s0.history + Copies(Pad(token), n));
    FinishRead(s2, k);
    assert buf[..k] + s2.mem[1 + k..] == s0.mem[1..1 + k] + Pad(token)[k..];
    run := ReadStart() + Loads(0, k) + Times(token, n) + ReadRest(k);
    var read := Returned(s0.mem[1..1 + k] + Pad(token)[k..], b, b + n);
    ExecThree(s0, ReadStart() + Loads(0, k), Times(token, n), ReadRest(k), s1, s2,
              Some(s2.(reader := Away, log := s0.log + [read])));
  }

  /** The sequence byte wraps: a read that spans a positive multiple of 128 publishes can return the first k
      bytes of one token with the rest of another. */
  lemma WrapTears(seq0: byte, data: Payload, token: seq<byte>, n: nat, k: nat) returns (run: seq<Step>)
    requires seq0 % 2 == 0 && n > 0 && n % 128 == 0 && k <= DATA_SIZE
    ensures Exec(Init(seq0, data), run).Some?
    ensures var s := Exec(Init(seq0, data), run).value;
            s.history == [data] + Copies(Pad(token), n)
            && s.log == [Returned(data[..k] + Pad(token)[k..], 0, n)]
  {
    run := SpanTears(Init(seq0, data), token, n, k);
    assert Init(seq0, data).mem[1..1 + k] == data[..k];
  }

  lemma WrappedAround(b: byte, n: nat)
    requires n % 128 == 0
    ensures Plus(b, 2 * n) == b
  {
    assert 2 * n == 256 * (n / 128);
  }

  /** At every positive multiple of 128 publishes during a read the guarantee is lost, for every initial content:
      some run returns bytes that were never published together. */
  lemma BoundIsTight(seq0: byte, data: Payload, n: nat) returns (run: seq<Step>, r: Outcome)
    requires seq0 % 2 == 0 && n > 0 && n % 128 == 0
    ensures Exec(Init(seq0, data), run).Some?
    ensures var s := Exec(Init(seq0, data), run).value;
            s.log == [r] && r.Returned? && r.end - r.begin == n && r.data !in s.history
  {
    var token := [Plus(data[0], 1), Plus(data[1], 1)];
    run := WrapTears(seq0, data, token, n, 1);
    r := Returned(data[..1] + Pad(token)[1..], 0, n);
    assert r.data[0] != Pad(token)[0] && r.data[1] != data[1];
  }

  /** The i-th call of a run returns bytes never published together, and n publishes completed during it. */
  ghost predicate TornIn(seq0: byte, data: Payload, run: seq<Step>, i: nat, n: int) {
    && Exec(Init(seq0, data), run).Some?
    && var s := Exec(Init(seq0, data), run).value;
       i < |s.log| && s.log[i].Returned? && s.log[i].end - s.log[i].begin == n && s.log[i].data !in s.history
  }

  /** Main result on the wrap: torn reads span a positive multiple of 128 publishes, and each such span occurs. */
  lemma TearsExactlyAtWraps(seq0: byte, data: Payload, n: int)
    requires seq0 % 2 == 0
    ensures (exists run, i :: TornIn(seq0, data, run, i, n)) <==> n > 0 && n % 128 == 0
  {
    if run, i :| TornIn(seq0, data, run, i, n) {
      SeqlockSafe(seq0, data, run);
    }
    if n > 0 && n % 128 == 0 {
      var run, r := BoundIsTight(seq0, data, n);
      assert TornIn(seq0, data, run, 0, n);
    }
  }

  /** From an odd sequence byte the roles are reversed: the area reads as stable while it is being written,
      and a read overlapping a single unfinished publish returns its first k bytes with the rest of what was
      there before. */
  lemma OddTears(s0: State, token: seq<byte>, k: nat) returns (run: seq<Step>)
    requires |s0.mem| == AREA_SIZE && s0.history != [] && s0.writer.Idle? && s0.reader.Away? && s0.mem[0] % 2 == 1
    requires k <= DATA_SIZE
    ensures Exec(s0, run).Some?
    ensures var s, n := Exec(s0, run).value, Published(s0);
            s.history == s0.history && s.log == s0.log + [Returned(Pad(token)[..k] + s0.mem[1 + k..], n, n)]
  {
    var s1 := s0.(mem := s0.mem[0 := Plus(s0.mem[0], 1)], writer := Writing(Pad(token), s0.mem[0], AllBytes()));
    ExecOpening(s0, token);
    ExecStores(s1, 0, k);
    var mixed := Pad(token)[..k] + s0.mem[1 + k..];
    var s2 := s1.(mem := [s1.mem[0]] + mixed, writer := s1.writer.(todo := From(k)));
    assert s1.mem[..1] + Pad(token)[0..k] + s1.mem[1 + k..] == s2.mem;
    ExecWholeRead(s2, k);
    assert s2.mem[1..] == mixed;
    run := Opening(token) + Stores(0, k) + WholeRead(k);
    ExecThree(s0, Opening(token), Stores(0, k), WholeRead(k), s1, s2,
              Some(s2.(log := s2.log + [Returned(mixed, Published(s0), Published(s0))])));
  }

  lemma OddStartTears(seq0: byte, data: Payload, token: seq<byte>, k: nat) returns (run: seq<Step>)
    requires seq0 % 2 == 1 && k <= DATA_SIZE
    ensures Exec(Init(seq0, data), run).Some?
    ensures Exec(Init(seq0, data), run).value.log == [Returned(Pad(token)[..k] + data[k..], 0, 0)]
  {
    run := OddTears(Init(seq0, data), token, k);
    assert Init(seq0, data).mem[1 + k..] == data[k..];
  }

  /** However the run goes on, no read returns wrong data. */
  ghost predicate SafeFrom(s: State)
    requires |s.mem| == AREA_SIZE
  {
    forall run :: Exec(s, run).Some? ==> DataSafe(Exec(s, run).value.log, Exec(s, run).value.history)
  }

  /** The protocol is safe exactly when it starts from an even sequence byte. */
  lemma SafeExactlyWhenEven(seq0: byte, data: Payload)
    ensures SafeFrom(Init(seq0, data)) <==> seq0 % 2 == 0
  {
    if seq0 % 2 == 0 {
      InvSafe(seq0, Init(seq0, data));
    } else {
      var token := [Plus(data[0], 1)];
      var run := OddStartTears(seq0, data, token, 1);
      var s := Exec(Init(seq0, data), run).value;
      HistoryStart(Init(seq0, data), run);
      assert s.history[0] == data;
      assert s.log[0].data[0] != data[0];
      NotSafe(s.log, s.history, 0, 0);
    }
  }

  lemma InvSafe(seq0: byte, s: State)
    requires seq0 % 2 == 0 && Inv(seq0, s)
    ensures SafeFrom(s)
  {
    forall run | Exec(s, run).Some?
      ensures DataSafe(Exec(s, run).value.log, Exec(s, run).value.history)
    {
      RunKeepsInv(seq0, s, run);
      LogSafeData(Exec(s, run).value.log, Exec(s, run).value.history);
    }
  }

  lemma {:induction false} HistoryStart(s: State, run: seq<Step>)
    requires |s.mem| == AREA_SIZE && Exec(s, run).Some?
    ensures s.history <= Exec(s, run).value.history
    decreases |run|
  {
    if run != [] {
      HistoryStart(Apply(s, run[0]).value, run[1..]);
    }
  }

  // ----- the writer dies and another one takes over -----

  /** The mapping outlives its writer while a reader holds it; the next writer goes on from its bytes. */
  function Crash(s: State): State { s.(writer := Idle) }

  /** Several lives of the writer, with a crash at the end of each. */
  function ExecLives(s: State, lives: seq<seq<Step>>): Option<State>
    requires |s.mem| == AREA_SIZE
    decreases |lives|
  {
    if lives == [] then Some(s)
    else
      ExecSize(s, lives[0]);
      match Exec(s, lives[0])
      case None => None
      case Some(s') => ExecLives(Crash(s'), lives[1..])
  }

  /** No crash falls between the two marks of a publish. */
  ghost predicate QuietCrashes(s: State, lives: seq<seq<Step>>)
    requires |s.mem| == AREA_SIZE
    decreases |lives|
  {
    lives == [] ||
    (ExecSize(s, lives[0]);
     Exec(s, lives[0]).Some? ==>
       !Exec(s, lives[0]).value.writer.Writing? && QuietCrashes(Crash(Exec(s, lives[0]).value), lives[1..]))
  }

  lemma QuietCrashKeepsInv(seq0: byte, s: State)
    requires Inv(seq0, s) && !s.writer.Writing?
    ensures Inv(seq0, Crash(s))
  {}

  /** Crashes outside the two marks do no harm, however many there are. */
  lemma {:induction false} LivesKeepInv(seq0: byte, s: State, lives: seq<seq<Step>>)
    requires seq0 % 2 == 0 && Inv(seq0, s) && ExecLives(s, lives).Some? && QuietCrashes(s, lives)
    ensures Inv(seq0, ExecLives(s, lives).value)
    decreases |lives|
  {
    if lives != [] {
      ExecSize(s, lives[0]);
      RunKeepsInv(seq0, s, lives[0]);
      var s' := Exec(s, lives[0]).value;
      QuietCrashKeepsInv(seq0, s');
      LivesKeepInv(seq0, Crash(s'), lives[1..]);
    }
  }

  lemma SafeAcrossQuietCrashes(seq0: byte, data: Payload, lives: seq<seq<Step>>)
    requires seq0 % 2 == 0 && QuietCrashes(Init(seq0, data), lives) && ExecLives(Init(seq0, data), lives).Some?
    ensures var s := ExecLives(Init(seq0, data), lives).value; LogSafe(s.log, s.history)
  {
    LivesKeepInv(seq0, Init(seq0, data), lives);
  }

  /** The reader can always go on to the end of its call. */
  ghost predicate ReaderLive(s: State) {
    && (s.reader.Attempt? ==> s.reader.n <= READ_RETRIES)
    && (s.reader.Reading? ==> s.reader.n < READ_RETRIES && s.reader.todo <= AllBytes())
  }

  lemma {:induction false} RunKeepsReaderLive(s: State, run: seq<Step>)
    requires |s.mem| == AREA_SIZE && ReaderLive(s) && Exec(s, run).Some?
    ensures ReaderLive(Exec(s, run).value)
    decreases |run|
  {
    if run != [] {
      ApplyKeepsSize(s, run[0]);
      RunKeepsReaderLive(Apply(s, run[0]).value, run[1..]);
    }
  }

  /** Only the reader has moved. */
  ghost predicate ReaderOnly(s: State, s': State) {
    s'.mem == s.mem && s'.writer == s.writer && s'.history == s.history
  }

  lemma {:induction false} DrainLoads(s: State) returns (run: seq<Step>)
    requires |s.mem| == AREA_SIZE && s.reader.Reading? && s.reader.todo <= AllBytes()
    ensures Exec(s, run) == Some(s.(reader := s.reader.(todo := {}, buf := Loaded(s))))
    decreases |s.reader.todo|
  {
    if i :| i in s.reader.todo {
      ExecOne(s, ReaderLoads(i));
      var s1 := Apply(s, ReaderLoads(i)).value;
      assert Loaded(s1) == Loaded(s);
      var rest := DrainLoads(s1);
      ExecTwo(s, [ReaderLoads(i)], rest, s1, Exec(s1, rest));
      run := [ReaderLoads(i)] + rest;
    } else {
      assert Loaded(s) == s.reader.buf;
      run := [];
    }
  }

  /** What the read under way has when it loads the rest now. */
  function Loaded(s: State): Payload
    requires |s.mem| == AREA_SIZE && s.reader.Reading?
  {
    seq(DATA_SIZE, i requires 0 <= i < DATA_SIZE => if i in s.reader.todo then s.mem[1 + i] else s.reader.buf[i])
  }

  /** While the sequence byte is odd, attempts only count up to giving up. */
  lemma {:induction false} DrainAttempts(s: State) returns (run: seq<Step>)
    requires |s.mem| == AREA_SIZE && s.history != [] && s.mem[0] % 2 == 1
    requires s.reader.Attempt? && s.reader.n <= READ_RETRIES
    ensures Exec(s, run).Some?
    ensures var s' := Exec(s, run).value; ReaderOnly(s, s') && s'.reader.Away?
    decreases READ_RETRIES - s.reader.n
  {
    var step := if s.reader.n == READ_RETRIES then ReaderGivesUp else ReaderReadsSeq;
    ExecOne(s, step);
    if s.reader.n == READ_RETRIES {
      run := [step];
    } else {
      var rest := DrainAttempts(Apply(s, step).value);
      ExecAppend(s, [step], rest);
      run := [step] + rest;
    }
  }

  lemma DrainReader(s: State) returns (run: seq<Step>)
    requires |s.mem| == AREA_SIZE && s.history != [] && s.mem[0] % 2 == 1 && ReaderLive(s)
    requires s.reader.Reading? ==> s.reader.seq1 % 2 == 0
    ensures Exec(s, run).Some?
    ensures var s' := Exec(s, run).value; ReaderOnly(s, s') && s'.reader.Away?
  {
    if s.reader.Away? {
      run := [];
    } else if s.reader.Attempt? {
      run := DrainAttempts(s);
    } else {
      var loads := DrainLoads(s);
      var s1 := Exec(s, loads).value;
      ExecOne(s1, ReaderChecksSeq);
      var s2 := Apply(s1, ReaderChecksSeq).value;
      var rest := DrainAttempts(s2);
      ExecAppend(s1, [ReaderChecksSeq], rest);
      ExecAppend(s, loads, [ReaderChecksSeq] + rest);
      run := loads + ([ReaderChecksSeq] + rest);
    }
  }

  lemma NotSafe(log: seq<Outcome>, history: seq<Payload>, i: nat, n: nat)
    requires i < |log| && n < |history| && log[i].Returned? && log[i].begin == log[i].end == n
    requires log[i].data != history[n]
    ensures !DataSafe(log, history)
  {
    assert !RightRead(log[i], history);
  }

  /** From an odd sequence byte the reader can finish its call and read the next publish torn. */
  lemma OddStateTears(s: State) returns (run: seq<Step>)
    requires |s.mem| == AREA_SIZE && s.history != [] && s.mem[0] % 2 == 1 && s.writer.Idle? && ReaderLive(s)
    requires s.reader.Reading? ==> s.reader.seq1 % 2 == 0
    ensures Exec(s, run).Some?
    ensures var s' := Exec(s, run).value; !DataSafe(s'.log, s'.history)
  {
    var n := Published(s);
    var drain := DrainReader(s);
    var s1 := Exec(s, drain).value;
    var token := [Plus(s.history[n][0], 1)];
    var tear := OddTears(s1, token, 1);
    ExecAppend(s, drain, tear);
    run := drain + tear;
    var log := Exec(s1, tear).value.log;
    assert log[|s1.log|].data[0] != s.history[n][0];
    NotSafe(log, s.history, |s1.log|, n);
  }

  /** After a crash between the marks the next publish can be read torn. */
  lemma CrashTears(seq0: byte, s: State) returns (run: seq<Step>)
    requires seq0 % 2 == 0 && Inv(seq0, s) && s.writer.Writing? && ReaderLive(s)
    ensures Exec(Crash(s), run).Some?
    ensures var s' := Exec(Crash(s), run).value; !DataSafe(s'.log, s'.history)
  {
    SameParity(seq0 + 2 * Published(s) + 1);
    if s.reader.Reading? { EvenByte(seq0, s.reader.begin); }
    run := OddStateTears(Crash(s));
  }

  /** In every state that a run from an even start reaches, a crash of the writer is harmless exactly when it
      does not fall between the two marks of a publish. */
  lemma CrashSafeExactlyWhenQuiet(seq0: byte, data: Payload, before: seq<Step>)
    requires seq0 % 2 == 0 && Exec(Init(seq0, data), before).Some?
    ensures var s := Exec(Init(seq0, data), before).value;
            |s.mem| == AREA_SIZE && (SafeFrom(Crash(s)) <==> !s.writer.Writing?)
  {
    RunKeepsInv(seq0, Init(seq0, data), before);
    RunKeepsReaderLive(Init(seq0, data), before);
    var s := Exec(Init(seq0, data), before).value;
    if s.writer.Writing? {
      var run := CrashTears(seq0, s);
    } else {
      QuietCrashKeepsInv(seq0, s);
      InvSafe(seq0, Crash(s));
    }
  }

  // ----- the two procedures, run alone on the real memory -----

  class TokenArea {
    const area: array<byte>

    /** A mapping that nobody held yet is zero; Crash says what a later writer finds otherwise. */
    constructor ()
      ensures fresh(area) && area.Length == AREA_SIZE && area[..] == seq(AREA_SIZE, _ => 0)
    {
      area := new byte[AREA_SIZE](_ => 0);
    }

    /** _publish_token: leaves the memory as the writer's steps do in the state machine. */
    method Publish(token: seq<byte>)
      requires area.Length == AREA_SIZE
      modifies area
      ensures area[..] == AfterPublish(old(area[..]), token)
    {
      var data := Pad(token);
      var seqNo := area[0];
      area[0] := Plus(seqNo, 1);
      var i := 0;
      while i < DATA_SIZE
        invariant 0 <= i <= DATA_SIZE
        invariant forall k :: 1 <= k < 1 + i ==> area[k] == data[k - 1]
      {
        area[1 + i] := data[i];
        i := i + 1;
      }
      area[0] := Plus(seqNo, 2);
      assert area[..] == AfterPublish(old(area[..]), token);
    }

    /** read_auth_token without interference: the stored token when the sequence byte is even and
        the token is not empty, and None otherwise. */
    method Read() returns (token: Option<seq<byte>>)
      requires area.Length == AREA_SIZE
      ensures token == if area[0] % 2 == 0 && StripNuls(area[1..]) != []
                       then Some(StripNuls(area[1..])) else None
    {
      var attempt := 0;
      while attempt < READ_RETRIES
        invariant 0 <= attempt <= READ_RETRIES
        invariant attempt > 0 ==> area[0] % 2 == 1
      {
        var seq1 := area[0];
        if seq1 % 2 == 0 {
          var data := area[1..];
          if area[0] == seq1 {
            var t := StripNuls(data);
            return if t == [] then None else Some(t);
          }
        }
        attempt := attempt + 1;
      }
      return None;
    }
  }
}
