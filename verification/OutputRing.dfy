/** The output buffer with absolute stream offsets (src/session/buffer.py): what it retains of the
    appended history, what a resuming reader is given, and the amortised cost of trimming. */
module OutputRing {
  import opened Common

  /** The cost of a slice deletion at the head is the bytes that move down; moved adds them up. */
  class OutputBuffer {
    const maxSize: nat
    var buffer: seq<byte>
    var droppedBytes: nat
    var trimGen: nat
    var trimBase: nat
    var readCycle: nat
    ghost var history: seq<byte>
    ghost var moved: nat

    /** The buffer is the suffix of the history that starts at trimBase, never more than the soft
        limit and never less than the newest maxSize bytes, and four times the appended bytes have paid
        for all trimming so far and for the next one. */
    ghost predicate Valid()
      reads this
    {
      && trimBase <= |history| && buffer == history[trimBase..]
      && Min(maxSize, |history|) <= |buffer| <= SoftLimit(maxSize)
      && droppedBytes == trimBase
      && moved + 4 * Excess(maxSize, |buffer|) <= 4 * |history|
    }

    constructor (maxSize: nat)
      ensures Valid() && history == [] && this.maxSize == maxSize && trimBase == 0 && trimGen == 0 && moved == 0
    {
      this.maxSize := maxSize;
      buffer, droppedBytes, trimGen, trimBase, readCycle := [], 0, 0, 0, 0;
      history, moved := [], 0;
    }

    method Append(data: seq<byte>) returns (ok: bool)
      requires Valid()
      modifies this
      ensures Valid() && ok
      ensures history == old(history) + data
      ensures readCycle == old(readCycle) + 1
      ensures trimBase == TrimBase(maxSize, old(trimBase), |history|)
      ensures var size := old(|buffer|) + |data|;
              |buffer| == if size > maxSize + maxSize / 4 then maxSize else size
      ensures trimGen == old(trimGen) + if trimBase != old(trimBase) then 1 else 0
      ensures moved == old(moved) + if trimBase != old(trimBase) then maxSize else 0
    {
      buffer := buffer + data;
      history := history + data;
      assert buffer == history[trimBase..];
      if |buffer| > maxSize + maxSize / 4 {
        var drop := |buffer| - maxSize;
        moved := moved + (|buffer| - drop);
        buffer := buffer[drop..];
        droppedBytes := droppedBytes + drop;
        trimGen := trimGen + 1;
        trimBase := trimBase + drop;
      }
      readCycle := readCycle + 1;
      ok := true;
    }

    method StreamEnd() returns (end: nat)
      requires Valid()
      ensures end == |history|
    {
      end := trimBase + |buffer|;
    }

    /** read_stream: what is retained of the history from streamStart on, and whether bytes that were
        asked for are gone. */
    method ReadStream(streamStart: int) returns (bytes: seq<byte>, actualStart: nat, droppedBefore: bool)
      requires Valid()
      ensures Delivery(bytes, actualStart, droppedBefore) == Read(history, trimBase, streamStart)
      ensures actualStart == Max(Max(streamStart, 0), trimBase) && (droppedBefore <==> Max(streamStart, 0) < trimBase)
      ensures bytes == if actualStart < |history| then history[actualStart..] else []
    {
      var start := Max(streamStart, 0);
      actualStart := if start >= trimBase then start else trimBase;
      droppedBefore := start < trimBase;
      var rel := actualStart - trimBase;
      if rel >= |buffer| {
        return [], actualStart, droppedBefore;
      }
      bytes := buffer[rel..];
      assert bytes == history[actualStart..];
    }
  }

  function SoftLimit(maxSize: nat): nat { maxSize + maxSize / 4 }

  function Excess(maxSize: nat, size: nat): nat { if size > maxSize then size - maxSize else 0 }

  /** The offset of the oldest retained byte once total bytes have been appended. */
  function TrimBase(maxSize: nat, base: nat, total: nat): nat
    requires base <= total
  {
    if total - base > SoftLimit(maxSize) then total - maxSize else base
  }

  datatype Delivery = Delivery(bytes: seq<byte>, start: nat, gap: bool)

  function Read(history: seq<byte>, base: nat, from: int): Delivery
    requires base <= |history|
  {
    var start := Max(Max(from, 0), base);
    Delivery(if start >= |history| then [] else history[start..], start, Max(from, 0) < base)
  }

  // ----- runs of appends and reads by one resuming reader -----

  datatype Op = Appending(data: seq<byte>) | Reading

  /** cursor is where the reader resumes: the end of its last delivery. */
  datatype State = State(history: seq<byte>, base: nat, moved: nat, cursor: nat, got: seq<Delivery>)

  const START := State([], 0, 0, 0, [])

  /** One call, as the class performs it. */
  function Apply(maxSize: nat, s: State, op: Op): (r: State)
    requires s.base <= |s.history|
    ensures r.base <= |r.history|
  {
    match op
    case Appending(data) =>
      var base := TrimBase(maxSize, s.base, |s.history + data|);
      s.(history := s.history + data, base := base, moved := s.moved + if base != s.base then maxSize else 0)
    case Reading =>
      var d := Read(s.history, s.base, s.cursor);
      s.(cursor := d.start + |d.bytes|, got := s.got + [d])
  }

  /** Where delivery k ended; the reader starts at 0. */
  function End(got: seq<Delivery>, k: int): nat
    requires -1 <= k < |got|
  {
    if k == -1 then 0 else got[k].start + |got[k].bytes|
  }

  ghost predicate Inv(maxSize: nat, s: State) {
    // retention and cost
    && s.base <= |s.history| && Min(maxSize, |s.history|) <= |s.history| - s.base <= SoftLimit(maxSize)
    && s.moved + 4 * Excess(maxSize, |s.history| - s.base) <= 4 * |s.history|
    // the reader
    && s.cursor == End(s.got, |s.got| - 1) <= |s.history|
    && (forall k :: 0 <= k < |s.got| ==> Delivered(s.got, k, s.history))
  }

  /** Delivery k is a piece of the history at its offset, it starts no earlier than the last one
      ended, and it is marked as following a gap exactly when it starts later. */
  ghost predicate Delivered(got: seq<Delivery>, k: nat, history: seq<byte>)
    requires k < |got|
  {
    && End(got, k) <= |history| && got[k].bytes == history[got[k].start..End(got, k)]
    && End(got, k - 1) <= got[k].start
    && (got[k].gap <==> End(got, k - 1) < got[k].start)
  }

  lemma StillDelivered(got: seq<Delivery>, k: nat, history: seq<byte>, data: seq<byte>)
    requires k < |got| && Delivered(got, k, history)
    ensures Delivered(got, k, history + data)
  {
    assert (history + data)[got[k].start..End(got, k)] == history[got[k].start..End(got, k)];
  }

  lemma DeliveredBefore(got: seq<Delivery>, d: Delivery, k: nat, history: seq<byte>)
    requires k < |got| && Delivered(got, k, history)
    ensures Delivered(got + [d], k, history)
  {
    assert (got + [d])[k] == got[k] && (k > 0 ==> (got + [d])[k - 1] == got[k - 1]);
  }

  lemma AppendingKeepsInv(maxSize: nat, s: State, data: seq<byte>)
    requires Inv(maxSize, s)
    ensures Inv(maxSize, Apply(maxSize, s, Appending(data)))
  {
    var s' := Apply(maxSize, s, Appending(data));
    assert s'.cursor == End(s'.got, |s'.got| - 1) <= |s'.history|;
    forall k | 0 <= k < |s'.got| ensures Delivered(s'.got, k, s'.history) {
      StillDelivered(s.got, k, s.history, data);
    }
  }

  /** The new delivery goes on where the last one ended, or at the start of what is retained. */
  lemma ReadIsDelivered(got: seq<Delivery>, history: seq<byte>, base: nat)
    requires base <= |history| && End(got, |got| - 1) <= |history|
    ensures var d := Read(history, base, End(got, |got| - 1));
            Delivered(got + [d], |got|, history) && End(got + [d], |got|) == d.start + |d.bytes| <= |history|
  {
    var d := Read(history, base, End(got, |got| - 1));
    assert (got + [d])[|got|] == d && End(got + [d], |got| - 1) == End(got, |got| - 1);
  }

  lemma ReadingKeepsInv(maxSize: nat, s: State)
    requires Inv(maxSize, s)
    ensures Inv(maxSize, Apply(maxSize, s, Reading))
  {
    var d := Read(s.history, s.base, s.cursor);
    ReadIsDelivered(s.got, s.history, s.base);
    forall k | 0 <= k < |s.got + [d]| ensures Delivered(s.got + [d], k, s.history) {
      if k < |s.got| { DeliveredBefore(s.got, d, k, s.history); }
    }
  }

  lemma ApplyKeepsInv(maxSize: nat, s: State, op: Op)
    requires Inv(maxSize, s)
    ensures Inv(maxSize, Apply(maxSize, s, op))
  {
    match op
    case Appending(data) => AppendingKeepsInv(maxSize, s, data);
    case Reading => ReadingKeepsInv(maxSize, s);
  }

  function Run(maxSize: nat, s: State, ops: seq<Op>): State
    requires s.base <= |s.history|
    decreases |ops|
  {
    if ops == [] then s
    else Run(maxSize, Apply(maxSize, s, ops[0]), ops[1..])
  }

  lemma {:induction false} RunKeepsInv(maxSize: nat, s: State, ops: seq<Op>)
    requires Inv(maxSize, s)
    ensures Inv(maxSize, Run(maxSize, s, ops))
    decreases |ops|
  {
    if ops != [] {
      ApplyKeepsInv(maxSize, s, ops[0]);
      RunKeepsInv(maxSize, Apply(maxSize, s, ops[0]), ops[1..]);
    }
  }

  /** Main result: over every run and for every limit, each delivery is the right piece of the
      history, no byte is delivered twice or out of order, and bytes are skipped exactly where a gap
      is reported. */
  lemma ReaderNeverMisled(maxSize: nat, ops: seq<Op>, k: nat)
    requires k < |Run(maxSize, START, ops).got|
    ensures var s := Run(maxSize, START, ops); Delivered(s.got, k, s.history)
  {
    RunKeepsInv(maxSize, START, ops);
  }

  /** Every read catches up: it delivers all that is retained behind the last one, and no more is skipped than has
      been trimmed. */
  lemma ReadingCatchesUp(maxSize: nat, ops: seq<Op>)
    ensures var s := Run(maxSize, START, ops);
            s.base <= |s.history| && CaughtUp(s, Apply(maxSize, s, Reading))
  {
    RunKeepsInv(maxSize, START, ops);
    ReadsRest(Run(maxSize, START, ops), maxSize);
  }

  lemma ReadsRest(s: State, maxSize: nat)
    requires s.base <= |s.history| && s.cursor <= |s.history|
    ensures CaughtUp(s, Apply(maxSize, s, Reading))
  {
    var from := Max(s.cursor, s.base);
    assert s.history[from..] == if from >= |s.history| then [] else s.history[from..];
  }

  ghost predicate CaughtUp(s: State, s': State) {
    var from := Max(s.cursor, s.base);
    && s'.history == s.history && s'.cursor == |s.history| && from <= |s.history|
    && s'.got == s.got + [Delivery(s.history[from..], from, s.cursor < s.base)]
  }

  /** Whatever was appended, the newest maxSize bytes are still there to read. */
  lemma NewestRetained(maxSize: nat, ops: seq<Op>, from: int)
    ensures var s := Run(maxSize, START, ops);
            |s.history| - maxSize <= from <= |s.history| && 0 <= from ==>
              s.base <= |s.history| && Read(s.history, s.base, from) == Delivery(s.history[from..], from, false)
  {
    RunKeepsInv(maxSize, START, ops);
  }

  /** Trimming is linear: all the bytes that all trims move are at most four times those appended. */
  lemma TrimmingIsAmortised(maxSize: nat, ops: seq<Op>)
    ensures var s := Run(maxSize, START, ops); s.moved <= 4 * |s.history|
  {
    RunKeepsInv(maxSize, START, ops);
  }

  function Received(got: seq<Delivery>): seq<byte> {
    if got == [] then [] else Received(got[..|got| - 1]) + got[|got| - 1].bytes
  }

  ghost predicate Gapless(got: seq<Delivery>, history: seq<byte>) {
    forall k :: 0 <= k < |got| ==> Delivered(got, k, history) && !got[k].gap
  }

  lemma GaplessBefore(got: seq<Delivery>, history: seq<byte>)
    requires got != [] && Gapless(got, history)
    ensures Gapless(got[..|got| - 1], history)
  {
    var before := got[..|got| - 1];
    forall k | 0 <= k < |before| ensures Delivered(before, k, history) && !before[k].gap {
      assert Delivered(got, k, history) && before[k] == got[k] && (k > 0 ==> before[k - 1] == got[k - 1]);
    }
  }

  /** Without a gap the last delivery starts where the one before it ended. */
  lemma LastGoesOn(got: seq<Delivery>, history: seq<byte>)
    requires got != [] && Gapless(got, history)
    ensures var from, end := End(got, |got| - 2), End(got, |got| - 1);
            && End(got[..|got| - 1], |got| - 2) == from <= end <= |history|
            && got[|got| - 1].bytes == history[from..end]
  {
    assert Delivered(got, |got| - 1, history);
  }

  lemma SliceExtend(s: seq<byte>, from: nat, end: nat)
    requires from <= end <= |s|
    ensures s[..from] + s[from..end] == s[..end]
  {}

  lemma {:induction false} GaplessReceived(got: seq<Delivery>, history: seq<byte>)
    requires Gapless(got, history)
    ensures End(got, |got| - 1) <= |history| && Received(got) == history[..End(got, |got| - 1)]
  {
    if got != [] {
      GaplessBefore(got, history);
      GaplessReceived(got[..|got| - 1], history);
      LastGoesOn(got, history);
      SliceExtend(history, End(got, |got| - 2), End(got, |got| - 1));
    }
  }

  /** A reader that was never told of a gap has received the whole history up to its cursor. */
  lemma GaplessReaderHasEverything(maxSize: nat, ops: seq<Op>)
    requires forall k :: 0 <= k < |Run(maxSize, START, ops).got| ==> !Run(maxSize, START, ops).got[k].gap
    ensures var s := Run(maxSize, START, ops);
            s.cursor <= |s.history| && Received(s.got) == s.history[..s.cursor]
  {
    RunKeepsInv(maxSize, START, ops);
    GaplessReceived(Run(maxSize, START, ops).got, Run(maxSize, START, ops).history);
  }
}
