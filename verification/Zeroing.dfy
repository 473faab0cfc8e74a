/** The cleanup of the token area byte by byte (src/ipc/shm.py): what a read can return that is made between its
    stores, while a publish may be under way too. */
module Zeroing {
  import opened Common
  import opened Seqlock
  import opened Cleanup

  /** The zeros are stored one byte at a time, in any order; left holds the offsets still to be zeroed. */
  datatype Sweep = Sweep(s: State, left: set<nat>)

  datatype SweepStep = Zeroes(at: nat) | Takes(step: Step)

  /** Reads go on and a publish under way does; no other publish begins. */
  function SweepApply(w: Sweep, x: SweepStep): (r: Option<Sweep>)
    requires |w.s.mem| == AREA_SIZE
    ensures r.Some? ==> |r.value.s.mem| == AREA_SIZE
  {
    match x
    case Zeroes(i) =>
      if i in w.left && i < AREA_SIZE then Some(Sweep(w.s.(mem := w.s.mem[i := 0]), w.left - {i})) else None
    case Takes(step) =>
      if !step.WriterReadsSeq? && Apply(w.s, step).Some? then Some(w.(s := Apply(w.s, step).value)) else None
  }

  function SweepExec(w: Sweep, run: seq<SweepStep>): Option<Sweep>
    requires |w.s.mem| == AREA_SIZE
    decreases |run|
  {
    if run == [] then Some(w)
    else match SweepApply(w, run[0])
      case None => None
      case Some(w') => SweepExec(w', run[1..])
  }

  function WholeArea(): (r: set<nat>)
    ensures forall i :: i in r <==> 0 <= i < AREA_SIZE
  {
    var offsets := seq(AREA_SIZE, j requires 0 <= j => j);
    assert forall i {:trigger i in offsets} :: 0 <= i < AREA_SIZE ==> i in offsets by {
      forall i | 0 <= i < AREA_SIZE ensures i in offsets { assert offsets[i] == i; }
    }
    set i | i in offsets
  }

  /** v is byte i of p, of the token under way, or zero. */
  ghost predicate MixedByte(p: Payload, under: Writer, i: int, v: byte)
    requires 0 <= i < DATA_SIZE
  {
    v == p[i] || v == 0 || (!under.Idle? && v == under.payload[i])
  }

  /** d is put together, byte by byte, from p, the token under way and zeros. */
  ghost predicate Mixes(p: Payload, under: Writer, d: Payload) {
    forall i :: 0 <= i < DATA_SIZE ==> MixedByte(p, under, i, d[i])
  }

  // ----- nothing else is returned -----

  /** The area, what the reader has loaded and what it returned from call number seen on are such mixtures. */
  ghost predicate Mixed(p: Payload, under: Writer, seen: nat, w: Sweep) {
    && |w.s.mem| == AREA_SIZE && Mixes(p, under, w.s.mem[1..])
    && (!w.s.writer.Idle? ==> !under.Idle? && w.s.writer.payload == under.payload)
    && (w.s.reader.Reading? ==>
          forall i :: 0 <= i < DATA_SIZE && i !in w.s.reader.todo ==> MixedByte(p, under, i, w.s.reader.buf[i]))
    && (forall i :: seen <= i < |w.s.log| && w.s.log[i].Returned? ==> Mixes(p, under, w.s.log[i].data))
  }

  lemma ByteStored(p: Payload, under: Writer, mem: seq<byte>, i: nat, v: byte)
    requires |mem| == AREA_SIZE && Mixes(p, under, mem[1..]) && i < AREA_SIZE
    requires i > 0 ==> MixedByte(p, under, i - 1, v)
    ensures Mixes(p, under, mem[i := v][1..])
  {
    var data := mem[i := v][1..];
    forall j | 0 <= j < DATA_SIZE ensures MixedByte(p, under, j, data[j]) {
      assert MixedByte(p, under, j, mem[1..][j]);
    }
  }

  lemma StepKeepsMixed(p: Payload, under: Writer, seen: nat, w: Sweep, x: SweepStep)
    requires Mixed(p, under, seen, w) && SweepApply(w, x).Some?
    ensures Mixed(p, under, seen, SweepApply(w, x).value)
  {
    match x
    case Zeroes(i) => ByteStored(p, under, w.s.mem, i, 0);
    case Takes(step) =>
      match step
      case WriterMarksOdd => ByteStored(p, under, w.s.mem, 0, Plus(w.s.writer.seqNo, 1));
      case WriterMarksEven => ByteStored(p, under, w.s.mem, 0, Plus(w.s.writer.seqNo, 2));
      case WriterStores(i) => ByteStored(p, under, w.s.mem, 1 + i, w.s.writer.payload[i]);
      case ReaderLoads(i) => assert MixedByte(p, under, i, w.s.mem[1..][i]);
      case _ =>
  }

  lemma {:induction false} RunKeepsMixed(p: Payload, under: Writer, seen: nat, w: Sweep, run: seq<SweepStep>)
    requires Mixed(p, under, seen, w) && SweepExec(w, run).Some?
    ensures Mixed(p, under, seen, SweepExec(w, run).value)
    decreases |run|
  {
    if run != [] {
      StepKeepsMixed(p, under, seen, w, run[0]);
      RunKeepsMixed(p, under, seen, SweepApply(w, run[0]).value, run[1..]);
    }
  }

  // ----- and every mixture is -----

  lemma StepThen(w: Sweep, x: SweepStep, run: seq<SweepStep>)
    requires |w.s.mem| == AREA_SIZE && SweepApply(w, x).Some?
    ensures SweepExec(w, [x] + run) == SweepExec(SweepApply(w, x).value, run)
  {
    assert ([x] + run)[1..] == run;
  }

  /** Byte i is as it was, and may still be zeroed, and stored if a publish is under way. */
  ghost predicate Untouched(p: Payload, under: Writer, w: Sweep, i: int)
    requires |w.s.mem| == AREA_SIZE && 0 <= i < DATA_SIZE
  {
    w.s.mem[1 + i] == p[i] && 1 + i in w.left && (w.s.writer.Writing? ==> i in w.s.writer.todo)
  }

  /** The publish stands between its marks, if there is one. */
  ghost predicate Storing(under: Writer, w: Writer) {
    if under.Idle? then w.Idle? else w.Writing? && w.payload == under.payload
  }

  /** The read stands before byte k, and neither the cleanup nor the publish has come to it or to those behind. */
  ghost predicate Before(p: Payload, under: Writer, w: Sweep, k: nat)
    requires k <= DATA_SIZE
  {
    && |w.s.mem| == AREA_SIZE && w.s.history != [] && w.s.reader.Reading? && Storing(under, w.s.writer)
    && w.s.reader.todo == From(k) && w.s.mem[0] == w.s.reader.seq1
    && forall i :: k <= i < DATA_SIZE ==> Untouched(p, under, w, i)
  }

  /** The load of byte k, as it is or changed just before. */
  lemma LoadByte(p: Payload, under: Writer, w: Sweep, k: nat) returns (w': Sweep)
    requires k < DATA_SIZE && |w.s.mem| == AREA_SIZE && w.s.history != [] && Storing(under, w.s.writer)
    requires w.s.reader.Reading? && w.s.reader.todo == From(k) && w.s.mem[0] == w.s.reader.seq1
    requires forall i :: k < i < DATA_SIZE ==> Untouched(p, under, w, i)
    ensures SweepApply(w, Takes(ReaderLoads(k))) == Some(w')
    ensures Before(p, under, w', k + 1)
    ensures w'.s.log == w.s.log && w'.s.reader.buf == w.s.reader.buf[k := w.s.mem[1 + k]]
  {
    assert From(k) - {k} == From(k + 1);
    w' := SweepApply(w, Takes(ReaderLoads(k))).value;
    forall i | k < i < DATA_SIZE ensures Untouched(p, under, w', i) {
      assert Untouched(p, under, w, i);
    }
  }

  lemma ChangeThenLoad(p: Payload, under: Writer, w: Sweep, k: nat, change: SweepStep, w1: Sweep)
    returns (run: seq<SweepStep>, w': Sweep)
    requires k < DATA_SIZE && Before(p, under, w, k) && SweepApply(w, change) == Some(w1)
    requires w1.s.reader == w.s.reader && w1.s.log == w.s.log && w1.s.history == w.s.history
    requires w1.s.mem[0] == w.s.mem[0] && Storing(under, w1.s.writer)
    requires forall i :: k < i < DATA_SIZE ==> Untouched(p, under, w1, i)
    ensures |w'.s.mem| == AREA_SIZE
    ensures forall rest :: SweepExec(w, run + rest) == SweepExec(w', rest)
    ensures Before(p, under, w', k + 1)
    ensures w'.s.log == w.s.log && w'.s.reader.buf == w.s.reader.buf[k := w1.s.mem[1 + k]]
  {
    var load := Takes(ReaderLoads(k));
    w' := LoadByte(p, under, w1, k);
    run := [change, load];
    forall rest ensures SweepExec(w, run + rest) == SweepExec(w', rest) {
      assert run + rest == [change] + ([load] + rest);
      StepThen(w, change, [load] + rest);
      StepThen(w1, load, rest);
    }
  }

  lemma PlainLoad(p: Payload, under: Writer, w: Sweep, k: nat) returns (run: seq<SweepStep>, w': Sweep)
    requires k < DATA_SIZE && Before(p, under, w, k)
    ensures |w'.s.mem| == AREA_SIZE
    ensures forall rest :: SweepExec(w, run + rest) == SweepExec(w', rest)
    ensures Before(p, under, w', k + 1) && w'.s.log == w.s.log && w'.s.reader.buf == w.s.reader.buf[k := p[k]]
  {
    assert Untouched(p, under, w, k);
    w' := LoadByte(p, under, w, k);
    run := [Takes(ReaderLoads(k))];
    forall rest ensures SweepExec(w, run + rest) == SweepExec(w', rest) {
      StepThen(w, Takes(ReaderLoads(k)), rest);
    }
  }

  /** Byte k can be loaded before it is touched, behind the zero, or behind the store. */
  lemma AnyByte(p: Payload, under: Writer, w: Sweep, k: nat, v: byte) returns (run: seq<SweepStep>, w': Sweep)
    requires k < DATA_SIZE && Before(p, under, w, k) && MixedByte(p, under, k, v)
    ensures |w'.s.mem| == AREA_SIZE
    ensures forall rest :: SweepExec(w, run + rest) == SweepExec(w', rest)
    ensures Before(p, under, w', k + 1) && w'.s.log == w.s.log && w'.s.reader.buf == w.s.reader.buf[k := v]
  {
    if v == p[k] {
      run, w' := PlainLoad(p, under, w, k);
    } else {
      assert Untouched(p, under, w, k);
      var change := if v == 0 then Zeroes(1 + k) else Takes(WriterStores(k));
      var w1 := SweepApply(w, change).value;
      forall i | k < i < DATA_SIZE ensures Untouched(p, under, w1, i) {
        assert Untouched(p, under, w, i);
      }
      run, w' := ChangeThenLoad(p, under, w, k, change, w1);
    }
  }

  lemma {:induction false} AnyMixture(p: Payload, under: Writer, w: Sweep, k: nat, d: Payload)
    returns (run: seq<SweepStep>)
    requires k <= DATA_SIZE && Before(p, under, w, k) && Mixes(p, under, d) && w.s.reader.buf[..k] == d[..k]
    ensures SweepExec(w, run).Some?
    ensures var log := SweepExec(w, run).value.s.log;
            |log| == |w.s.log| + 1 && log[|w.s.log|].Returned? && log[|w.s.log|].data == d
    decreases DATA_SIZE - k
  {
    if k == DATA_SIZE {
      assert From(k) == {} && w.s.reader.buf == d;
      run := [Takes(ReaderChecksSeq)];
      assert run[1..] == [];
    } else {
      var first, w' := AnyByte(p, under, w, k, d[k]);
      assert w'.s.reader.buf[..k + 1] == d[..k + 1];
      var rest := AnyMixture(p, under, w', k + 1, d);
      run := first + rest;
    }
  }

  /** Once the byte is zero a read can begin, between the marks of the publish as well. */
  lemma BeginsReading(s: State, left: set<nat>) returns (start: seq<SweepStep>, w: Sweep)
    requires |s.mem| == AREA_SIZE && s.history != [] && s.reader.Away? && !s.writer.GotSeq?
    requires s.writer.Writing? ==> s.writer.todo == AllBytes()
    requires forall i :: i in left <==> 0 <= i < AREA_SIZE
    ensures |w.s.mem| == AREA_SIZE && Before(s.mem[1..], s.writer, w, 0) && w.s.log == s.log
    ensures forall rest :: SweepExec(Sweep(s, left), start + rest) == SweepExec(w, rest)
  {
    var w0 := Sweep(s, left);
    var w1 := SweepApply(w0, Zeroes(0)).value;
    var w2 := SweepApply(w1, Takes(ReaderCalls)).value;
    w := SweepApply(w2, Takes(ReaderReadsSeq)).value;
    start := [Zeroes(0), Takes(ReaderCalls), Takes(ReaderReadsSeq)];
    forall i | 0 <= i < DATA_SIZE ensures Untouched(s.mem[1..], s.writer, w, i) {
      assert s.mem[1..][i] == s.mem[1 + i];
    }
    forall rest ensures SweepExec(w0, start + rest) == SweepExec(w, rest) {
      assert start + rest == [Zeroes(0)] + ([Takes(ReaderCalls)] + ([Takes(ReaderReadsSeq)] + rest));
      StepThen(w0, Zeroes(0), [Takes(ReaderCalls)] + ([Takes(ReaderReadsSeq)] + rest));
      StepThen(w1, Takes(ReaderCalls), [Takes(ReaderReadsSeq)] + rest);
      StepThen(w2, Takes(ReaderReadsSeq), rest);
    }
  }

  /** A read that is made while the cleanup goes on returns d. */
  ghost predicate ReturnedDuring(s: State, run: seq<SweepStep>, i: nat, d: Payload)
    requires |s.mem| == AREA_SIZE
  {
    && SweepExec(Sweep(s, WholeArea()), run).Some?
    && var log := SweepExec(Sweep(s, WholeArea()), run).value.s.log;
       |s.log| <= i < |log| && log[i].Returned? && log[i].data == d
  }

  lemma MixtureReturned(s: State, d: Payload) returns (run: seq<SweepStep>)
    requires |s.mem| == AREA_SIZE && s.history != [] && s.reader.Away? && !s.writer.Writing?
    requires Mixes(s.mem[1..], s.writer, d)
    ensures ReturnedDuring(s, run, |s.log|, d)
  {
    var w := Sweep(s, WholeArea());
    var s1 := if s.writer.GotSeq? then Apply(s, WriterMarksOdd).value else s;
    var start, w' := BeginsReading(s1, WholeArea());
    assert s1.mem[1..] == s.mem[1..];
    assert Mixes(s1.mem[1..], s1.writer, d) by {
      forall i | 0 <= i < DATA_SIZE ensures MixedByte(s1.mem[1..], s1.writer, i, d[i]) {
        assert MixedByte(s.mem[1..], s.writer, i, d[i]);
      }
    }
    var rest := AnyMixture(s1.mem[1..], s1.writer, w', 0, d);
    run := start + rest;
    if s.writer.GotSeq? {
      StepThen(w, Takes(WriterMarksOdd), run);
      run := [Takes(WriterMarksOdd)] + run;
    }
  }

  /** Main result on reads during the cleanup: when no publish or one is under way they can return, byte by byte,
      any mixture of the old token, the token under way and zeros, and nothing else. */
  lemma ReadDuringCleanup(s: State, d: Payload)
    requires |s.mem| == AREA_SIZE && s.history != [] && s.reader.Away? && !s.writer.Writing?
    ensures (exists run, i :: ReturnedDuring(s, run, i, d)) <==> Mixes(s.mem[1..], s.writer, d)
  {
    var p: Payload, w := s.mem[1..], Sweep(s, WholeArea());
    if run, i :| ReturnedDuring(s, run, i, d) {
      assert Mixed(p, s.writer, |s.log|, w);
      RunKeepsMixed(p, s.writer, |s.log|, w, run);
    }
    if Mixes(p, s.writer, d) {
      var run := MixtureReturned(s, d);
    }
  }

  /** Without a publish none of these is a mixture exactly when the token has at most one byte that is not zero, so
      not for a token of 62 digits. */
  lemma WholeExactlyWhenShort(p: Payload)
    ensures (forall d: Payload :: Mixes(p, Idle, d) ==> d == p || d == Zeros()) <==> Short(p)
  {
    if i, j :| 0 <= i < j < DATA_SIZE && p[i] != 0 && p[j] != 0 {
      var d: Payload := p[i := 0];
      assert Mixes(p, Idle, d) && d[i] != p[i] && d[j] != Zeros()[j];
    } else {
      forall d: Payload | Mixes(p, Idle, d) ensures d == p || d == Zeros() {
        forall i | 0 <= i < DATA_SIZE ensures d[i] == 0 || d[i] == p[i] {
          assert MixedByte(p, Idle, i, d[i]);
        }
        ShortMask(p, d);
      }
    }
  }
}
