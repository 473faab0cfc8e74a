/** Messages and file-transfer frames on one connection (src/protocol/message.py,
    src/protocol/transfer.py): both readers share one receive buffer per connection, and what they
    return does not depend on how the byte stream is cut into chunks. */
module Wire {
  import opened Common

  const NEWLINE: byte := 10
  const RECV_SIZE: nat := 65536
  const MAX_MESSAGE_LENGTH: nat := 50331648

  // ----- the connection -----

  /** The entry of the shared buffer table: message reading keeps a bytearray, frame reading leaves
      immutable bytes behind, and either may find no entry. */
  datatype Stored = Absent | Growable(data: seq<byte>) | Frozen(data: seq<byte>)

  /** What the next socket read gives; an empty chunk, like the end of the list, is the peer's close. */
  datatype Event = Chunk(data: seq<byte>) | Timeout | Reset

  function Data(s: Stored): seq<byte> { if s.Absent? then [] else s.data }

  /** Message.recv starts a bytearray for a connection that has no entry. */
  function Opened(s: Stored): Stored { if s.Absent? then Growable([]) else s }

  /** A close or a reset: nothing more is read. */
  predicate Ends(e: Event) { e.Reset? || (e.Chunk? && e.data == []) }

  /** The bytes still to arrive: those before the first close or reset. */
  function Stream(net: seq<Event>): seq<byte> {
    if net == [] || Ends(net[0]) then []
    else (if net[0].Chunk? then net[0].data else []) + Stream(net[1..])
  }

  function Size(e: Event): nat { if e.Chunk? then |e.data| else 0 }

  /** How many timeouts fall where at least lo and fewer than hi bytes have arrived. */
  function TimeoutsIn(net: seq<Event>, arrived: int, lo: int, hi: int): nat
    decreases |net|
  {
    if net == [] then 0
    else (if net[0].Timeout? && lo <= arrived < hi then 1 else 0) + TimeoutsIn(net[1..], arrived + Size(net[0]), lo, hi)
  }

  /** How many bytes have arrived when at least need have. */
  function Arrived(net: seq<Event>, have: nat, need: nat): nat
    decreases |net|
  {
    if have >= need || net == [] then have else Arrived(net[1..], have + Size(net[0]), need)
  }

  /** The events still to come when at least need bytes have arrived. */
  function Rest(net: seq<Event>, have: nat, need: nat): seq<Event>
    decreases |net|
  {
    if have >= need || net == [] then net else Rest(net[1..], have + Size(net[0]), need)
  }

  /** Chunks as recv(65536) can return them. */
  ghost predicate InChunks(net: seq<Event>) {
    forall e :: e in net ==> Size(e) <= RECV_SIZE
  }

  // ----- reading a line -----

  /** ImmutableBuffer is the exception raised when the entry holds bytes: TypeError where a line is cut off,
      AttributeError where a chunk is appended. */
  datatype LineResult =
    | Line(bytes: seq<byte>)
    | EmptyLine
    | LineClosed
    | LineTimedOut
    | LineReset
    | LineTooLong
    | ImmutableBuffer

  datatype LineOutcome = LineOutcome(result: LineResult, stored: Stored, net: seq<Event>)

  /** Index of the first newline at or after from, or |b|. */
  function NewlineFrom(b: seq<byte>, from: nat): (i: nat)
    requires from <= |b|
    ensures from <= i <= |b|
    ensures i < |b| ==> b[i] == NEWLINE
    ensures forall k :: from <= k < i ==> b[k] != NEWLINE
    decreases |b| - from
  {
    if from == |b| || b[from] == NEWLINE then from else NewlineFrom(b, from + 1)
  }

  lemma NewlineUnique(b: seq<byte>, i: nat)
    requires i < |b| && b[i] == NEWLINE && forall k :: 0 <= k < i ==> b[k] != NEWLINE
    ensures NewlineFrom(b, 0) == i
  {}

  /** Message.recv up to the complete line, as a function of the buffer, the events to come, and the
      timeouts already seen by this call. */
  function ReadLine(stored: Stored, net: seq<Event>, retries: nat, maxRetries: nat): LineOutcome
    decreases |net|
  {
    var buf := Data(stored);
    var idx := NewlineFrom(buf, 0);
    if idx < |buf| then
      if stored.Frozen? then LineOutcome(ImmutableBuffer, stored, net)
      else LineOutcome(if idx == 0 then EmptyLine else Line(buf[..idx]), Growable(buf[idx + 1..]), net)
    else if net == [] then LineOutcome(LineClosed, Absent, net)
    else match net[0]
      case Timeout =>
        if retries + 1 >= maxRetries then LineOutcome(LineTimedOut, Absent, net[1..])
        else ReadLine(Opened(stored), net[1..], retries + 1, maxRetries)
      case Reset => LineOutcome(LineReset, Absent, net[1..])
      case Chunk(c) =>
        if c == [] then LineOutcome(LineClosed, Absent, net[1..])
        else if stored.Frozen? then LineOutcome(ImmutableBuffer, stored, net[1..])
        else if |buf| + |c| > MAX_MESSAGE_LENGTH then LineOutcome(LineTooLong, Absent, net[1..])
        else ReadLine(Growable(buf + c), net[1..], retries, maxRetries)
  }

  // ----- frames -----

  const FT_DATA: byte := 1
  const FT_ABORT: byte := 6
  const MAX_DATA_PAYLOAD: nat := 262144
  const MAX_CONTROL_PAYLOAD: nat := 16777216
  const HEADER_SIZE: nat := 5
  const COMPACT_THRESHOLD: nat := 1048576

  predicate KnownType(t: byte) { FT_DATA <= t <= FT_ABORT }

  function MaxPayload(t: byte): nat { if t == FT_DATA then MAX_DATA_PAYLOAD else MAX_CONTROL_PAYLOAD }

  datatype FrameError = PayloadTooLarge | BadHeaderLength | UnknownType

  function BigEndian(n: nat): (h: seq<byte>)
    requires n < 0x1_0000_0000
    ensures |h| == 4
  {
    [n / 0x100_0000, n / 0x1_0000 % 256, n / 256 % 256, n % 256]
  }

  function FromBigEndian(h: seq<byte>): nat
    requires |h| == 4
  {
    h[0] as int * 0x100_0000 + h[1] as int * 0x1_0000 + h[2] as int * 256 + h[3] as int
  }

  lemma BigEndianRoundTrip(n: nat)
    requires n < 0x1_0000_0000
    ensures FromBigEndian(BigEndian(n)) == n
  {
    var a := n / 256;
    var b := a / 256;
    assert n / 0x1_0000 == b && n / 0x100_0000 == b / 256;
  }

  /** encode_frame. */
  function EncodeFrame(t: byte, payload: seq<byte>): Result<seq<byte>, FrameError> {
    if |payload| > MaxPayload(t) then Err(PayloadTooLarge)
    else Ok(BigEndian(|payload|) + [t] + payload)
  }

  /** decode_frame: payload length and type from the five header bytes. */
  function DecodeHeader(header: seq<byte>): Result<(nat, byte), FrameError> {
    if |header| != HEADER_SIZE then Err(BadHeaderLength)
    else
      var len, t := FromBigEndian(header[..4]), header[4];
      if !KnownType(t) then Err(UnknownType)
      else if len > MaxPayload(t) then Err(PayloadTooLarge)
      else Ok((len, t))
  }

  /** A header decodes exactly when the type is known and the payload is within its limit, and then
      to what was encoded. */
  lemma HeaderRoundTrip(t: byte, payload: seq<byte>)
    ensures EncodeFrame(t, payload).Ok? ==>
              var h := EncodeFrame(t, payload).value[..HEADER_SIZE];
              DecodeHeader(h) == if KnownType(t) then Ok((|payload|, t)) else Err(UnknownType)
  {
    if EncodeFrame(t, payload).Ok? {
      var f := EncodeFrame(t, payload).value;
      BigEndianRoundTrip(|payload|);
      assert f[..HEADER_SIZE] == BigEndian(|payload|) + [t];
      assert f[..HEADER_SIZE][..4] == BigEndian(|payload|);
    }
  }

  datatype FrameResult =
    | Frame(frameType: byte, payload: seq<byte>)
    | FrameClosed
    | FrameTimedOut
    | FrameReset
    | FrameRejected(error: FrameError)

  datatype FillOutcome = Filled | FillClosed | FillTimedOut | FillReset

  datatype Fill = Fill(outcome: FillOutcome, buf: seq<byte>, net: seq<Event>)

  /** Reads until at least n bytes are buffered. */
  function FillTo(buf: seq<byte>, n: nat, net: seq<Event>): (r: Fill)
    ensures r.outcome.Filled? ==> |r.buf| >= n
    decreases |net|
  {
    if |buf| >= n then Fill(Filled, buf, net)
    else if net == [] then Fill(FillClosed, buf, net)
    else match net[0]
      case Timeout => Fill(FillTimedOut, buf, net[1..])
      case Reset => Fill(FillReset, buf, net[1..])
      case Chunk(c) => if c == [] then Fill(FillClosed, buf, net[1..]) else FillTo(buf + c, n, net[1..])
  }

  datatype FrameOutcome = FrameOutcome(result: FrameResult, stored: Stored, net: seq<Event>)

  function Failed(f: Fill): FrameOutcome
    requires !f.outcome.Filled?
  {
    var result := match f.outcome
      case FillClosed => FrameClosed
      case FillTimedOut => FrameTimedOut
      case _ => FrameReset;
    FrameOutcome(result, Absent, f.net)
  }

  /** recv_frame: takes the buffer out of the table, and puts only the bytes after the frame back. */
  function ReadFrame(stored: Stored, net: seq<Event>): FrameOutcome {
    var f := FillTo(Data(stored), HEADER_SIZE, net);
    if !f.outcome.Filled? then Failed(f)
    else match DecodeHeader(f.buf[..HEADER_SIZE])
      case Err(e) => FrameOutcome(FrameRejected(e), Absent, f.net)
      case Ok((len, t)) =>
        var g := FillTo(f.buf, HEADER_SIZE + len, f.net);
        if !g.outcome.Filled? then Failed(g)
        else
          var rest := g.buf[HEADER_SIZE + len..];
          var payload := g.buf[HEADER_SIZE..HEADER_SIZE + len];
          FrameOutcome(Frame(t, payload), if rest == [] then Absent else Frozen(rest), g.net)
  }

  // ----- the procedures on the shared buffer -----

  class Connection {
    var stored: Stored
    var net: seq<Event>

    constructor (events: seq<Event>)
      ensures stored == Absent && net == events
    {
      stored, net := Absent, events;
    }

    /** Message.recv: the search cursor skips what was searched before. */
    method Recv(maxRetries: nat) returns (r: LineResult)
      modifies this
      ensures LineOutcome(r, stored, net) == ReadLine(old(stored), old(net), 0, maxRetries)
    {
      if stored.Absent? {
        stored := Growable([]);
      }
      var retries: nat, searchFrom: nat := 0, 0;
      while true
        invariant !stored.Absent? && searchFrom <= |stored.data|
        invariant forall k :: 0 <= k < searchFrom ==> stored.data[k] != NEWLINE
        invariant ReadLine(stored, net, retries, maxRetries) == ReadLine(old(stored), old(net), 0, maxRetries)
        decreases |net|
      {
        var buf := stored.data;
        var idx := NewlineFrom(buf, searchFrom);
        if idx < |buf| {
          NewlineUnique(buf, idx);
          if stored.Frozen? { return ImmutableBuffer; }
          stored := Growable(buf[idx + 1..]);
          return if idx == 0 then EmptyLine else Line(buf[..idx]);
        }
        assert NewlineFrom(buf, 0) == |buf|;
        searchFrom := |buf|;
        if net == [] {
          stored := Absent;
          return LineClosed;
        }
        var event := net[0];
        net := net[1..];
        match event {
          case Timeout =>
            retries := retries + 1;
            if retries >= maxRetries {
              stored := Absent;
              return LineTimedOut;
            }
          case Reset =>
            stored := Absent;
            return LineReset;
          case Chunk(c) =>
            if c == [] {
              stored := Absent;
              return LineClosed;
            }
            if stored.Frozen? { return ImmutableBuffer; }
            stored := Growable(buf + c);
            if |stored.data| > MAX_MESSAGE_LENGTH {
              stored := Absent;
              return LineTooLong;
            }
        }
      }
    }

    /** recv_frame: the fill and compact helpers work on a private copy of the buffer. */
    method RecvFrame() returns (r: FrameResult)
      modifies this
      ensures FrameOutcome(r, stored, net) == ReadFrame(old(stored), old(net))
    {
      var buf, pos: nat := Data(stored), 0;
      stored := Absent;
      var outcome;
      outcome, buf := FillBuffer(buf, HEADER_SIZE);
      if !outcome.Filled? {
        return Failed(Fill(outcome, buf, net)).result;
      }
      var header := DecodeHeader(buf[pos..pos + HEADER_SIZE]);
      assert buf[0..HEADER_SIZE] == buf[..HEADER_SIZE];
      if header.Err? {
        return FrameRejected(header.error);
      }
      var (len, t) := header.value;
      pos := pos + HEADER_SIZE;
      outcome, buf := FillBuffer(buf, pos + len);
      if !outcome.Filled? {
        return Failed(Fill(outcome, buf, net)).result;
      }
      var payload := buf[pos..pos + len];
      pos := pos + len;
      ghost var rest := buf[pos..];
      if pos >= COMPACT_THRESHOLD {
        buf := buf[pos..];
        pos := 0;
      }
      assert buf[pos..] == rest;
      if pos < |buf| {
        stored := Frozen(buf[pos..]);
      }
      return Frame(t, payload);
    }

    method FillBuffer(buf0: seq<byte>, n: nat) returns (outcome: FillOutcome, buf: seq<byte>)
      modifies this`net
      ensures Fill(outcome, buf, net) == FillTo(buf0, n, old(net))
    {
      buf := buf0;
      while |buf| < n
        invariant FillTo(buf, n, net) == FillTo(buf0, n, old(net))
        decreases |net|
      {
        if net == [] { return FillClosed, buf; }
        var event := net[0];
        net := net[1..];
        match event {
          case Timeout => return FillTimedOut, buf;
          case Reset => return FillReset, buf;
          case Chunk(c) =>
            if c == [] { return FillClosed, buf; }
            buf := buf + c;
        }
      }
      return Filled, buf;
    }
  }

  // ----- independence of chunking -----

  /** What a connection still holds for its reader. */
  function Unread(o: Stored, net: seq<Event>): seq<byte> { Data(o) + Stream(net) }

  /** The newline found in the buffer is the one that ends the next line of the stream. */
  lemma LineInBuffer(buf: seq<byte>, more: seq<byte>, line: seq<byte>, rest: seq<byte>)
    requires buf + more == line + [NEWLINE] + rest && NEWLINE !in line
    ensures NewlineFrom(buf, 0) < |buf| <==> |line| < |buf|
    ensures |line| < |buf| ==>
              NewlineFrom(buf, 0) == |line| && buf[..|line|] == line && buf[|line| + 1..] + more == rest
  {
    Regroup(line, [NEWLINE], rest);
    if |line| < |buf| {
      LineFound(buf, more, line, rest);
    } else {
      Overlap(line, [NEWLINE] + rest, buf, more);
      assert forall k :: 0 <= k < |buf| ==> buf[k] == line[k];
    }
  }

  lemma LineFound(buf: seq<byte>, more: seq<byte>, line: seq<byte>, rest: seq<byte>)
    requires buf + more == line + ([NEWLINE] + rest) && NEWLINE !in line && |line| < |buf|
    ensures NewlineFrom(buf, 0) == |line| && buf[..|line|] == line && buf[|line| + 1..] + more == rest
  {
    var n := |line|;
    Overlap(buf, more, line, [NEWLINE] + rest);
    assert forall k :: 0 <= k < n ==> buf[k] == line[k];
    assert buf[n] == (buf[n..] + more)[0] == NEWLINE;
    NewlineUnique(buf, n);
    assert buf[n + 1..] + more == (buf[n..] + more)[1..];
  }

  lemma {:induction false} TimeoutsSplit(net: seq<Event>, arrived: int, lo: int, mid: int, hi: int)
    requires lo <= mid <= hi
    ensures TimeoutsIn(net, arrived, lo, hi) == TimeoutsIn(net, arrived, lo, mid) + TimeoutsIn(net, arrived, mid, hi)
    decreases |net|
  {
    if net != [] { TimeoutsSplit(net[1..], arrived + Size(net[0]), lo, mid, hi); }
  }

  lemma {:induction false} TimeoutsShift(net: seq<Event>, arrived: int, lo: int, hi: int, shift: int)
    ensures TimeoutsIn(net, arrived - shift, lo, hi) == TimeoutsIn(net, arrived, lo + shift, hi + shift)
    decreases |net|
  {
    if net != [] { TimeoutsShift(net[1..], arrived + Size(net[0]), lo, hi, shift); }
  }

  // Where a reader stands once so many bytes have arrived.

  lemma {:induction false} RestSplit(net: seq<Event>, have: nat, need: nat, later: nat)
    requires need <= later
    ensures Arrived(net, have, need) >= have
    ensures var net', have' := Rest(net, have, need), Arrived(net, have, need);
            && Arrived(net', have', later) == Arrived(net, have, later)
            && Rest(net', have', later) == Rest(net, have, later)
    decreases |net|
  {
    if have < need && net != [] { RestSplit(net[1..], have + Size(net[0]), need, later); }
  }

  lemma {:induction false} RestTimeouts(net: seq<Event>, have: nat, need: nat, lo: int, hi: int)
    requires need <= lo
    ensures TimeoutsIn(Rest(net, have, need), Arrived(net, have, need), lo, hi) == TimeoutsIn(net, have, lo, hi)
    decreases |net|
  {
    if have < need && net != [] { RestTimeouts(net[1..], have + Size(net[0]), need, lo, hi); }
  }

  lemma {:induction false} ArrivedShift(net: seq<Event>, have: nat, need: nat, shift: nat)
    requires shift <= have
    ensures Arrived(net, have - shift, need) == Arrived(net, have, need + shift) - shift
    decreases |net|
  {
    if have < need + shift && net != [] { ArrivedShift(net[1..], have + Size(net[0]), need, shift); }
  }

  /** A reader has taken size bytes off the stream, reading no further than it had to. */
  ghost predicate Taken(net: seq<Event>, have: nat, size: nat, net': seq<Event>, have': nat) {
    net' == Rest(net, have, size) && have' + size == Arrived(net, have, size)
  }

  /** What is still to come then is what was to come there before. */
  lemma TakenLater(net: seq<Event>, have: nat, size: nat, net': seq<Event>, have': nat, lo: nat, hi: int)
    requires Taken(net, have, size, net', have')
    ensures TimeoutsIn(net', have', lo, hi) == TimeoutsIn(net, have, lo + size, hi + size)
    ensures Arrived(net', have', lo) == Arrived(net, have, lo + size) - size
  {
    TimeoutsShift(net', have' + size, lo, hi, size);
    RestTimeouts(net, have, size, lo + size, hi + size);
    ArrivedShift(net', have' + size, lo, size);
    RestSplit(net, have, size, lo + size);
  }

  /** The line that starts from bytes down the stream is in the buffer already, or the buffer is still within
      the limit after the chunk that completes the line; the lines before it are then out of the buffer. */
  predicate FitsAt(net: seq<Event>, have: nat, from: nat, line: seq<byte>) {
    from + |line| < have || Arrived(net, have, from + |line| + 1) - from <= MAX_MESSAGE_LENGTH
  }

  predicate Fits(stored: Stored, net: seq<Event>, line: seq<byte>) { FitsAt(net, |Data(stored)|, 0, line) }

  /** Room for one chunk is enough, however the stream is cut. */
  lemma {:induction false} RoomFits(net: seq<Event>, have: nat, from: nat, line: seq<byte>)
    requires InChunks(net) && |line| + RECV_SIZE <= MAX_MESSAGE_LENGTH
    ensures FitsAt(net, have, from, line)
    decreases |net|
  {
    if have <= from + |line| && net != [] {
      assert net[0] in net && forall e :: e in net[1..] ==> e in net;
      RoomFits(net[1..], have + Size(net[0]), from, line);
    }
  }

  lemma ReadAfterTimeout(stored: Stored, net: seq<Event>, retries: nat, maxRetries: nat)
    requires NewlineFrom(Data(stored), 0) == |Data(stored)|
    requires net != [] && net[0].Timeout? && retries + 1 < maxRetries
    ensures ReadLine(stored, net, retries, maxRetries) == ReadLine(Opened(stored), net[1..], retries + 1, maxRetries)
  {}

  lemma ReadAfterChunk(stored: Stored, net: seq<Event>, retries: nat, maxRetries: nat)
    requires !stored.Frozen? && NewlineFrom(Data(stored), 0) == |Data(stored)|
    requires net != [] && net[0].Chunk? && net[0].data != []
    requires |Data(stored)| + |net[0].data| <= MAX_MESSAGE_LENGTH
    ensures ReadLine(stored, net, retries, maxRetries)
         == ReadLine(Growable(Data(stored) + net[0].data), net[1..], retries, maxRetries)
  {}

  lemma BufferGrows(buf: seq<byte>, net: seq<Event>)
    requires net != [] && net[0].Chunk? && net[0].data != []
    ensures (buf + net[0].data) + Stream(net[1..]) == buf + Stream(net)
  {
    Regroup(buf, net[0].data, Stream(net[1..]));
  }

  /** No timeout falls inside the line that starts from bytes down the stream, or too few to give up. */
  predicate InTime(net: seq<Event>, have: nat, from: nat, line: seq<byte>, retries: nat, maxRetries: nat) {
    var timeouts := TimeoutsIn(net, have, from, from + |line| + 1);
    timeouts == 0 || retries + timeouts < maxRetries
  }

  /** What reading a line comes to: returned, with exactly the unread bytes left and no more taken off the
      socket than needed, if it fits and comes in time; otherwise dropped, with all that is buffered. */
  ghost predicate LineRead(o: LineOutcome, stored: Stored, net: seq<Event>, retries: nat, maxRetries: nat,
                           line: seq<byte>, rest: seq<byte>) {
    if Fits(stored, net, line) && InTime(net, |Data(stored)|, 0, line, retries, maxRetries) then
      && o.result == (if line == [] then EmptyLine else Line(line))
      && o.stored.Growable? && Unread(o.stored, o.net) == rest
      && Taken(net, |Data(stored)|, |line| + 1, o.net, |o.stored.data|)
    else o.result in {LineTooLong, LineTimedOut} && o.stored == Absent
  }

  lemma LineThere(stored: Stored, net: seq<Event>, retries: nat, maxRetries: nat, line: seq<byte>, rest: seq<byte>)
    requires !stored.Frozen? && |line| < |Data(stored)|
    requires Unread(stored, net) == line + [NEWLINE] + rest && NEWLINE !in line
    ensures LineRead(ReadLine(stored, net, retries, maxRetries), stored, net, retries, maxRetries, line, rest)
  {
    LineInBuffer(Data(stored), Stream(net), line, rest);
    NoneBefore(net, |Data(stored)|, 0, |line| + 1);
  }

  lemma TooLong(stored: Stored, net: seq<Event>, retries: nat, maxRetries: nat, line: seq<byte>)
    requires !stored.Frozen? && NewlineFrom(Data(stored), 0) == |Data(stored)| <= |line|
    requires net != [] && net[0].Chunk? && net[0].data != []
    requires |Data(stored)| + |net[0].data| > MAX_MESSAGE_LENGTH
    ensures var o := ReadLine(stored, net, retries, maxRetries); o.result == LineTooLong && o.stored == Absent
    ensures !Fits(stored, net, line)
  {
    RestSplit(net[1..], |Data(stored)| + |net[0].data|, |line| + 1, |line| + 1);
  }

  /** Reading on past an event that does not complete the line. */
  lemma LineReadOn(o: LineOutcome, stored: Stored, net: seq<Event>, stored': Stored, retries: nat, retries': nat,
                   maxRetries: nat, line: seq<byte>, rest: seq<byte>)
    requires net != [] && |Data(stored)| <= |line| && |Data(stored')| == |Data(stored)| + Size(net[0])
    requires |Data(stored')| <= MAX_MESSAGE_LENGTH || net[0].Timeout?
    requires if net[0].Timeout? then retries' == retries + 1 < maxRetries else retries' == retries
    requires LineRead(o, stored', net[1..], retries', maxRetries, line, rest)
    ensures LineRead(o, stored, net, retries, maxRetries, line, rest)
  {}

  /** The last timeout that the caller waits for. */
  lemma GivesUp(stored: Stored, net: seq<Event>, retries: nat, maxRetries: nat, line: seq<byte>)
    requires NewlineFrom(Data(stored), 0) == |Data(stored)| <= |line|
    requires net != [] && net[0].Timeout? && retries + 1 >= maxRetries
    ensures var o := ReadLine(stored, net, retries, maxRetries); o.result == LineTimedOut && o.stored == Absent
    ensures !InTime(net, |Data(stored)|, 0, line, retries, maxRetries)
  {}

  /** Whatever the chunks and timeouts, a line is returned, once and with exactly the unread bytes left, if and only
      if it fits and fewer than maxRetries timeouts fall inside it, or none; otherwise it is dropped. */
  lemma {:induction false} LineReceived(stored: Stored, net: seq<Event>, retries: nat, maxRetries: nat,
                                        line: seq<byte>, rest: seq<byte>)
    requires !stored.Frozen?
    requires Unread(stored, net) == line + [NEWLINE] + rest && NEWLINE !in line
    ensures LineRead(ReadLine(stored, net, retries, maxRetries), stored, net, retries, maxRetries, line, rest)
    decreases |net|
  {
    var buf := Data(stored);
    if |line| < |buf| {
      LineThere(stored, net, retries, maxRetries, line, rest);
    } else {
      LineInBuffer(buf, Stream(net), line, rest);
      assert |Stream(net)| > 0;
      if net[0].Timeout? && retries + 1 >= maxRetries {
        GivesUp(stored, net, retries, maxRetries, line);
      } else if net[0].Timeout? {
        ReadAfterTimeout(stored, net, retries, maxRetries);
        LineReceived(Opened(stored), net[1..], retries + 1, maxRetries, line, rest);
        LineReadOn(ReadLine(stored, net, retries, maxRetries), stored, net, Opened(stored), retries, retries + 1,
                   maxRetries, line, rest);
      } else if |buf| + |net[0].data| > MAX_MESSAGE_LENGTH {
        TooLong(stored, net, retries, maxRetries, line);
      } else {
        var grown := Growable(buf + net[0].data);
        BufferGrows(buf, net);
        ReadAfterChunk(stored, net, retries, maxRetries);
        LineReceived(grown, net[1..], retries, maxRetries, line, rest);
        LineReadOn(ReadLine(stored, net, retries, maxRetries), stored, net, grown, retries, retries, maxRetries,
                   line, rest);
      }
    }
  }

  /** Filling takes bytes off the stream without losing or reordering any, and no more than it must. */
  lemma {:induction false} FillKeepsBytes(buf: seq<byte>, n: nat, net: seq<Event>)
    requires TimeoutsIn(net, |buf|, 0, n) == 0 && n <= |buf| + |Stream(net)|
    ensures var f := FillTo(buf, n, net);
            && f.outcome.Filled? && f.buf + Stream(f.net) == buf + Stream(net)
            && f.net == Rest(net, |buf|, n) && |f.buf| == Arrived(net, |buf|, n)
    decreases |net|
  {
    if |buf| < n {
      BufferGrows(buf, net);
      FillKeepsBytes(buf + net[0].data, n, net[1..]);
    }
  }

  lemma {:induction false} NoneBefore(net: seq<Event>, arrived: int, lo: int, hi: int)
    requires hi <= arrived
    ensures TimeoutsIn(net, arrived, lo, hi) == 0
    decreases |net|
  {
    if net != [] { NoneBefore(net[1..], arrived + Size(net[0]), lo, hi); }
  }

  /** No timeout before size bytes: none before fewer, and none between. */
  lemma QuietParts(net: seq<Event>, have: nat, part: nat, size: nat)
    requires part <= size && TimeoutsIn(net, have, 0, size) == 0
    ensures TimeoutsIn(net, have, 0, part) == 0
    ensures part <= Arrived(net, have, part) ==>
              TimeoutsIn(Rest(net, have, part), Arrived(net, have, part), 0, size) == 0
  {
    var net', have' := Rest(net, have, part), Arrived(net, have, part);
    TimeoutsSplit(net, have, 0, part, size);
    RestTimeouts(net, have, part, part, size);
    TimeoutsSplit(net', have', 0, part, size);
    if part <= have' { NoneBefore(net', have', 0, part); }
  }

  /** Both fills of a frame go through. */
  lemma FrameFills(buf: seq<byte>, net: seq<Event>, size: nat, f: Fill, g: Fill)
    requires HEADER_SIZE <= size <= |buf| + |Stream(net)|
    requires TimeoutsIn(net, |buf|, 0, size) == 0
    requires f == FillTo(buf, HEADER_SIZE, net) && g == FillTo(f.buf, size, f.net)
    ensures f.outcome.Filled? && f.buf + Stream(f.net) == buf + Stream(net)
    ensures g.outcome.Filled? && g.buf + Stream(g.net) == buf + Stream(net)
    ensures g.net == Rest(net, |buf|, size) && |g.buf| == Arrived(net, |buf|, size)
  {
    QuietParts(net, |buf|, HEADER_SIZE, size);
    FillKeepsBytes(buf, HEADER_SIZE, net);
    assert |f.buf| + |Stream(f.net)| == |f.buf + Stream(f.net)|;
    FillKeepsBytes(f.buf, size, f.net);
    RestSplit(net, |buf|, HEADER_SIZE, size);
  }

  lemma WireParts(t: byte, payload: seq<byte>)
    requires KnownType(t) && EncodeFrame(t, payload).Ok?
    ensures var wire := EncodeFrame(t, payload).value;
            && |wire| == HEADER_SIZE + |payload| && wire[HEADER_SIZE..] == payload
            && DecodeHeader(wire[..HEADER_SIZE]) == Ok((|payload|, t))
  {
    HeaderRoundTrip(t, payload);
  }

  /** The two fills hold the frame. */
  lemma FrameThere(wire: seq<byte>, rest: seq<byte>, f: Fill, g: Fill)
    requires |wire| >= HEADER_SIZE && |f.buf| >= HEADER_SIZE && |g.buf| >= |wire|
    requires f.buf + Stream(f.net) == wire + rest == g.buf + Stream(g.net)
    ensures f.buf[..HEADER_SIZE] == wire[..HEADER_SIZE]
    ensures g.buf[HEADER_SIZE..|wire|] == wire[HEADER_SIZE..] && g.buf[|wire|..] + Stream(g.net) == rest
  {
    assert f.buf[..HEADER_SIZE] == (f.buf + Stream(f.net))[..HEADER_SIZE] == (wire + rest)[..HEADER_SIZE];
    Overlap(g.buf, Stream(g.net), wire, rest);
    assert g.buf[HEADER_SIZE..|wire|] == g.buf[..|wire|][HEADER_SIZE..];
  }

  /** What reading a frame comes to. */
  ghost predicate FrameRead(o: FrameOutcome, stored: Stored, net: seq<Event>, t: byte, payload: seq<byte>,
                            rest: seq<byte>) {
    && o.result == Frame(t, payload)
    && o.stored == (if Data(o.stored) == [] then Absent else Frozen(Data(o.stored)))
    && Unread(o.stored, o.net) == rest
    && Taken(net, |Data(stored)|, HEADER_SIZE + |payload|, o.net, |Data(o.stored)|)
  }

  lemma ReadFrameOf(stored: Stored, net: seq<Event>, t: byte, len: nat, f: Fill, g: Fill)
    requires f == FillTo(Data(stored), HEADER_SIZE, net) && f.outcome.Filled?
    requires DecodeHeader(f.buf[..HEADER_SIZE]) == Ok((len, t))
    requires g == FillTo(f.buf, HEADER_SIZE + len, f.net)
    ensures ReadFrame(stored, net) ==
            if !g.outcome.Filled? then Failed(g)
            else
              var rest := g.buf[HEADER_SIZE + len..];
              FrameOutcome(Frame(t, g.buf[HEADER_SIZE..HEADER_SIZE + len]),
                           if rest == [] then Absent else Frozen(rest), g.net)
  {}

  lemma FrameWhole(stored: Stored, net: seq<Event>, t: byte, payload: seq<byte>, rest: seq<byte>)
    requires KnownType(t) && EncodeFrame(t, payload).Ok?
    requires TimeoutsIn(net, |Data(stored)|, 0, |EncodeFrame(t, payload).value|) == 0
    requires Unread(stored, net) == EncodeFrame(t, payload).value + rest
    ensures FrameRead(ReadFrame(stored, net), stored, net, t, payload, rest)
  {
    var wire := EncodeFrame(t, payload).value;
    WireParts(t, payload);
    var f := FillTo(Data(stored), HEADER_SIZE, net);
    var g := FillTo(f.buf, |wire|, f.net);
    assert |wire + rest| == |Data(stored)| + |Stream(net)|;
    FrameFills(Data(stored), net, |wire|, f, g);
    FrameThere(wire, rest, f, g);
    ReadFrameOf(stored, net, t, |payload|, f, g);
  }

  /** The first timeout ends the filling. */
  lemma {:induction false} FillStops(buf: seq<byte>, n: nat, net: seq<Event>)
    requires TimeoutsIn(net, |buf|, 0, n) > 0 && n <= |buf| + |Stream(net)|
    ensures FillTo(buf, n, net).outcome == FillTimedOut
    decreases |net|
  {
    if |buf| >= n {
      NoneBefore(net, |buf|, 0, n);
    } else if !net[0].Timeout? {
      FillStops(buf + net[0].data, n, net[1..]);
    }
  }

  /** A timeout inside a frame falls into the header or behind it. */
  lemma FrameStops(buf: seq<byte>, net: seq<Event>, size: nat, f: Fill, g: Fill)
    requires HEADER_SIZE <= size <= |buf| + |Stream(net)|
    requires TimeoutsIn(net, |buf|, 0, size) > 0
    requires f == FillTo(buf, HEADER_SIZE, net) && g == FillTo(f.buf, size, f.net)
    ensures if f.outcome.Filled? then
              f.buf + Stream(f.net) == buf + Stream(net) && g.outcome == FillTimedOut
            else f.outcome == FillTimedOut
  {
    if TimeoutsIn(net, |buf|, 0, HEADER_SIZE) > 0 {
      FillStops(buf, HEADER_SIZE, net);
    } else {
      FillKeepsBytes(buf, HEADER_SIZE, net);
      TimeoutsSplit(net, |buf|, 0, HEADER_SIZE, size);
      RestTimeouts(net, |buf|, HEADER_SIZE, HEADER_SIZE, size);
      TimeoutsSplit(f.net, |f.buf|, 0, HEADER_SIZE, size);
      FillStops(f.buf, size, f.net);
    }
  }

  /** A timeout inside a frame loses what was buffered of it. */
  ghost predicate FrameLost(o: FrameOutcome) { o.result == FrameTimedOut && o.stored == Absent }

  lemma FrameCut(stored: Stored, net: seq<Event>, t: byte, payload: seq<byte>, rest: seq<byte>)
    requires KnownType(t) && EncodeFrame(t, payload).Ok?
    requires TimeoutsIn(net, |Data(stored)|, 0, |EncodeFrame(t, payload).value|) > 0
    requires Unread(stored, net) == EncodeFrame(t, payload).value + rest
    ensures FrameLost(ReadFrame(stored, net))
  {
    var wire := EncodeFrame(t, payload).value;
    WireParts(t, payload);
    var f := FillTo(Data(stored), HEADER_SIZE, net);
    var g := FillTo(f.buf, |wire|, f.net);
    assert |wire + rest| == |Data(stored)| + |Stream(net)|;
    FrameStops(Data(stored), net, |wire|, f, g);
    if f.outcome.Filled? {
      assert f.buf[..HEADER_SIZE] == (f.buf + Stream(f.net))[..HEADER_SIZE] == (wire + rest)[..HEADER_SIZE];
      assert (wire + rest)[..HEADER_SIZE] == wire[..HEADER_SIZE];
      ReadFrameOf(stored, net, t, |payload|, f, g);
    }
  }

  /** Whatever the chunks and whatever message reading left buffered, a frame is returned whole, with exactly the
      unread bytes left, if and only if no timeout falls inside it; otherwise what was buffered of it is lost. */
  lemma FrameReceived(stored: Stored, net: seq<Event>, t: byte, payload: seq<byte>, rest: seq<byte>)
    requires KnownType(t) && EncodeFrame(t, payload).Ok?
    requires Unread(stored, net) == EncodeFrame(t, payload).value + rest
    ensures if TimeoutsIn(net, |Data(stored)|, 0, |EncodeFrame(t, payload).value|) == 0
            then FrameRead(ReadFrame(stored, net), stored, net, t, payload, rest)
            else FrameLost(ReadFrame(stored, net))
  {
    if TimeoutsIn(net, |Data(stored)|, 0, |EncodeFrame(t, payload).value|) == 0 {
      FrameWhole(stored, net, t, payload, rest);
    } else {
      FrameCut(stored, net, t, payload, rest);
    }
  }

  // ----- what any call returns, whatever the peer does -----

  /** The timeouts before the first close or reset. */
  function Waits(net: seq<Event>): nat {
    if net == [] || Ends(net[0]) then 0 else (if net[0].Timeout? then 1 else 0) + Waits(net[1..])
  }

  /** The events behind the first close or reset. */
  function Behind(net: seq<Event>): seq<Event> {
    if net == [] then [] else if Ends(net[0]) then net[1..] else Behind(net[1..])
  }

  /** The stream ends by a reset. */
  predicate ByReset(net: seq<Event>) {
    net != [] && if Ends(net[0]) then net[0].Reset? else ByReset(net[1..])
  }

  /** All that still arrives can be buffered, and a reader has the patience to wait for its end. */
  predicate ReachesEnd(have: nat, net: seq<Event>, retries: nat, maxRetries: nat) {
    && (Stream(net) == [] || have + |Stream(net)| <= 50331648)
    && (Waits(net) == 0 || retries + Waits(net) < maxRetries)
  }

  /** What a reader has read to the end without a newline is dropped. */
  ghost predicate CutOff(o: LineOutcome, stored: Stored, net: seq<Event>, retries: nat, maxRetries: nat) {
    && o.stored == Absent && o.net == Behind(net) && NEWLINE !in Unread(stored, net)
    && ReachesEnd(|Data(stored)|, net, retries, maxRetries)
  }

  /** What each answer says about the bytes buffered or arriving before the first close or reset. */
  ghost predicate LineSound(o: LineOutcome, stored: Stored, net: seq<Event>, retries: nat, maxRetries: nat) {
    match o.result
    case Line(l) =>
      && SendableLine(l) && !stored.Frozen? && o.stored.Growable?
      && Unread(stored, net) == l + [NEWLINE] + Unread(o.stored, o.net)
    case EmptyLine =>
      !stored.Frozen? && o.stored.Growable? && Unread(stored, net) == [NEWLINE] + Unread(o.stored, o.net)
    case LineClosed => CutOff(o, stored, net, retries, maxRetries) && !ByReset(net)
    case LineReset => CutOff(o, stored, net, retries, maxRetries) && ByReset(net)
    case LineTooLong =>
      && o.stored == Absent && !stored.Frozen?
      && Stream(net) != [] && |Unread(stored, net)| > 50331648
    case LineTimedOut => o.stored == Absent && Waits(net) > 0 && retries + Waits(net) >= maxRetries
    case ImmutableBuffer => stored.Frozen? && o.stored == stored
  }

  /** What holds behind an event that does not end the stream held before it. */
  lemma SoundBefore(o: LineOutcome, stored: Stored, net: seq<Event>, stored': Stored, retries: nat, retries': nat,
                    maxRetries: nat)
    requires net != [] && !Ends(net[0])
    requires if net[0].Timeout? then stored' == Opened(stored) && retries' == retries + 1 < maxRetries
             else !stored.Frozen? && stored' == Growable(Data(stored) + net[0].data) && retries' == retries
    requires |Data(stored')| <= MAX_MESSAGE_LENGTH || net[0].Timeout?
    requires LineSound(o, stored', net[1..], retries', maxRetries)
    ensures LineSound(o, stored, net, retries, maxRetries)
  {
    if net[0].Chunk? {
      BufferGrows(Data(stored), net);
    } else {
      assert Stream(net) == Stream(net[1..]);
    }
  }

  lemma SoundAtOnce(stored: Stored, net: seq<Event>, retries: nat, maxRetries: nat)
    requires NewlineFrom(Data(stored), 0) < |Data(stored)|
    ensures LineSound(ReadLine(stored, net, retries, maxRetries), stored, net, retries, maxRetries)
  {
    var buf, idx := Data(stored), NewlineFrom(Data(stored), 0);
    assert buf == buf[..idx] + [NEWLINE] + buf[idx + 1..];
    Regroup(buf[..idx] + [NEWLINE], buf[idx + 1..], Stream(net));
    if idx == 0 { assert buf[..idx] + [NEWLINE] == [NEWLINE]; }
  }

  lemma SoundAtEnd(stored: Stored, net: seq<Event>, retries: nat, maxRetries: nat)
    requires NewlineFrom(Data(stored), 0) == |Data(stored)| && (net == [] || Ends(net[0]))
    ensures LineSound(ReadLine(stored, net, retries, maxRetries), stored, net, retries, maxRetries)
  {
    assert Unread(stored, net) == Data(stored);
  }

  /** Whatever arrives, closes, is reset or times out: a line is returned only when it and its newline came before any
      close; a close or a reset is reported, and what was buffered dropped, only when no newline came before it; and
      a line is too long, or has timed out, only when its bytes or its timeouts say so. */
  lemma {:induction false} LineExplained(stored: Stored, net: seq<Event>, retries: nat, maxRetries: nat)
    ensures LineSound(ReadLine(stored, net, retries, maxRetries), stored, net, retries, maxRetries)
    decreases |net|
  {
    var buf := Data(stored);
    if NewlineFrom(buf, 0) < |buf| {
      SoundAtOnce(stored, net, retries, maxRetries);
    } else if net == [] || Ends(net[0]) {
      SoundAtEnd(stored, net, retries, maxRetries);
    } else if net[0].Timeout? {
      if retries + 1 < maxRetries {
        ReadAfterTimeout(stored, net, retries, maxRetries);
        LineExplained(Opened(stored), net[1..], retries + 1, maxRetries);
        SoundBefore(ReadLine(stored, net, retries, maxRetries), stored, net, Opened(stored), retries, retries + 1,
                    maxRetries);
      }
    } else if !stored.Frozen? && |buf| + |net[0].data| <= MAX_MESSAGE_LENGTH {
      var grown := Growable(buf + net[0].data);
      ReadAfterChunk(stored, net, retries, maxRetries);
      LineExplained(grown, net[1..], retries, maxRetries);
      SoundBefore(ReadLine(stored, net, retries, maxRetries), stored, net, grown, retries, retries, maxRetries);
    } else {
      BufferGrows(buf, net);
    }
  }

  /** A line that the peer cuts off by closing or resetting the connection is dropped, and the answer says which it
      was, unless the bytes are too many or the timeouts end the call before. */
  lemma LineCutOff(stored: Stored, net: seq<Event>, retries: nat, maxRetries: nat)
    requires !stored.Frozen? && NEWLINE !in Unread(stored, net)
    ensures var o := ReadLine(stored, net, retries, maxRetries);
            && o.stored == Absent
            && if ReachesEnd(|Data(stored)|, net, retries, maxRetries) then
                 o.result == (if ByReset(net) then LineReset else LineClosed) && o.net == Behind(net)
               else o.result in {LineTooLong, LineTimedOut}
  {
    LineExplained(stored, net, retries, maxRetries);
  }

  /** Bytes that frame reading left behind make reading a message fail, and stay, when a newline is among them or a
      chunk comes before too many timeouts; otherwise the end of the stream or the timeouts end the call. */
  lemma {:induction false} FrozenExactly(stored: Stored, net: seq<Event>, retries: nat, maxRetries: nat)
    requires stored.Frozen?
    ensures var o, waits := ReadLine(stored, net, retries, maxRetries), WaitsForChunk(net);
            if NEWLINE in Data(stored) || (Stream(net) != [] && (waits == 0 || retries + waits < maxRetries))
            then o.result == ImmutableBuffer && o.stored == stored
            else o.result in {LineClosed, LineReset, LineTimedOut} && o.stored == Absent
    decreases |net|
  {
    var buf := Data(stored);
    if NewlineFrom(buf, 0) == |buf| && net != [] && net[0].Timeout? && retries + 1 < maxRetries {
      FrozenExactly(stored, net[1..], retries + 1, maxRetries);
    }
  }

  /** The timeouts before the first chunk, or the end. */
  function WaitsForChunk(net: seq<Event>): nat {
    if net == [] || !net[0].Timeout? then 0 else 1 + WaitsForChunk(net[1..])
  }

  // Frames: what an encoding is, what a header says, and what is returned for any bytes.

  /** Every payload within the limit of its type is encoded, whatever the type, and no other. */
  lemma EncodesExactly(t: byte, payload: seq<byte>)
    ensures EncodeFrame(t, payload).Ok? <==> |payload| <= if t == 1 then 262144 else 16777216
    ensures EncodeFrame(t, payload).Ok? ==>
              var wire := EncodeFrame(t, payload).value;
              && |wire| == 5 + |payload| && wire[5..] == payload && wire[4] == t
              && |payload| == wire[0] as int * 0x100_0000 + wire[1] as int * 0x1_0000 + wire[2] as int * 256
                              + wire[3] as int
  {
    if EncodeFrame(t, payload).Ok? {
      BigEndianRoundTrip(|payload|);
      var wire := EncodeFrame(t, payload).value;
      assert wire[..4] == BigEndian(|payload|);
    }
  }

  /** A header is accepted exactly when its type is one of six and the length it spells, most significant byte
      first, is within the limit of that type. */
  lemma HeaderExactly(h: seq<byte>, len: nat, t: byte)
    ensures DecodeHeader(h) == Ok((len, t)) <==>
            && |h| == 5 && h[4] == t && 1 <= t <= 6
            && len == h[0] as int * 0x100_0000 + h[1] as int * 0x1_0000 + h[2] as int * 256 + h[3] as int
            && len <= if t == 1 then 262144 else 16777216
    ensures DecodeHeader(h) == Err(BadHeaderLength) <==> |h| != 5
    ensures DecodeHeader(h) == Err(UnknownType) <==> |h| == 5 && !(1 <= h[4] <= 6)
  {}

  /** A length has one spelling. */
  lemma BigEndianBack(h: seq<byte>)
    requires |h| == 4
    ensures FromBigEndian(h) < 0x1_0000_0000 && BigEndian(FromBigEndian(h)) == h
  {
    Digits(h[0] as int, h[1] as int, h[2] as int, h[3] as int);
  }

  lemma Digits(a: nat, b: nat, c: nat, d: nat)
    requires a < 256 && b < 256 && c < 256 && d < 256
    ensures var n := a * 0x100_0000 + b * 0x1_0000 + c * 256 + d;
            n < 0x1_0000_0000 && n / 0x100_0000 == a && n / 0x1_0000 % 256 == b && n / 256 % 256 == c && n % 256 == d
  {
    LastDigit(a * 0x1_0000 + b * 256 + c, d);
    LastDigit(a * 256 + b, c);
    LastDigit(a, b);
    DivideTwice(a, b, c, d);
  }

  lemma LastDigit(q: nat, d: nat)
    requires d < 256
    ensures (q * 256 + d) / 256 == q && (q * 256 + d) % 256 == d
  {}

  lemma DivideTwice(a: nat, b: nat, c: nat, d: nat)
    requires b < 256 && c < 256 && d < 256
    ensures var n := a * 0x100_0000 + b * 0x1_0000 + c * 256 + d;
            n / 0x1_0000 == a * 256 + b && n / 0x100_0000 == a
  {}

  /** The stream ends before n bytes are there. */
  lemma {:induction false} FillShort(buf: seq<byte>, n: nat, net: seq<Event>)
    requires |buf| + |Stream(net)| < n
    ensures var f := FillTo(buf, n, net);
            if Waits(net) == 0 then
              f.outcome == (if ByReset(net) then FillReset else FillClosed) && f.net == Behind(net)
            else f.outcome == FillTimedOut
    decreases |net|
  {
    if net != [] && !Ends(net[0]) && !net[0].Timeout? { FillShort(buf + net[0].data, n, net[1..]); }
  }

  /** What is said of a frame that the end of the stream, or a timeout before it, cuts off. */
  ghost predicate FrameShort(o: FrameOutcome, net: seq<Event>) {
    && o.stored == Absent
    && if Waits(net) == 0 then o.result == (if ByReset(net) then FrameReset else FrameClosed) && o.net == Behind(net)
       else o.result == FrameTimedOut
  }

  /** The header of the next frame, when its bytes are there. */
  function NextHeader(all: seq<byte>): Result<(nat, byte), FrameError>
    requires |all| >= HEADER_SIZE
  {
    DecodeHeader(all[..HEADER_SIZE])
  }

  /** What reading a frame comes to, for any bytes and events. */
  ghost predicate FrameSound(o: FrameOutcome, stored: Stored, net: seq<Event>) {
    var all, have := Unread(stored, net), |Data(stored)|;
    if |all| < HEADER_SIZE then FrameShort(o, net)
    else
      match NextHeader(all)
      case Err(e) =>
        if TimeoutsIn(net, have, 0, HEADER_SIZE) > 0 then FrameLost(o)
        else o == FrameOutcome(FrameRejected(e), Absent, Rest(net, have, HEADER_SIZE))
      case Ok((len, t)) =>
        var size := HEADER_SIZE + len;
        if |all| < size then FrameShort(o, net)
        else
          && EncodeFrame(t, all[HEADER_SIZE..size]) == Ok(all[..size])
          && if TimeoutsIn(net, have, 0, size) > 0 then FrameLost(o)
             else FrameRead(o, stored, net, t, all[HEADER_SIZE..size], all[size..])
  }

  /** The first fill takes no part of what ends the stream. */
  lemma {:induction false} RestEnds(net: seq<Event>, have: nat, need: nat)
    requires need <= have + |Stream(net)|
    ensures TimeoutsIn(net, have, 0, need) > 0 ==> Waits(net) > 0
    ensures var net' := Rest(net, have, need);
            TimeoutsIn(net, have, 0, need) == 0 ==>
              Waits(net') == Waits(net) && (ByReset(net') <==> ByReset(net)) && Behind(net') == Behind(net)
    decreases |net|
  {
    if have >= need {
      NoneBefore(net, have, 0, need);
    } else {
      RestEnds(net[1..], have + Size(net[0]), need);
    }
  }

  lemma FrameFailed(stored: Stored, net: seq<Event>, f: Fill)
    requires f == FillTo(Data(stored), HEADER_SIZE, net) && !f.outcome.Filled?
    ensures ReadFrame(stored, net) == Failed(f)
  {}

  lemma FrameRefused(stored: Stored, net: seq<Event>, f: Fill, e: FrameError)
    requires f == FillTo(Data(stored), HEADER_SIZE, net) && f.outcome.Filled?
    requires DecodeHeader(f.buf[..HEADER_SIZE]) == Err(e)
    ensures ReadFrame(stored, net) == FrameOutcome(FrameRejected(e), Absent, f.net)
  {}

  /** The first fill: a timeout ends it, or the header is there. */
  lemma HeaderFill(stored: Stored, net: seq<Event>, f: Fill)
    requires |Unread(stored, net)| >= HEADER_SIZE && f == FillTo(Data(stored), HEADER_SIZE, net)
    ensures if TimeoutsIn(net, |Data(stored)|, 0, HEADER_SIZE) > 0 then f.outcome == FillTimedOut && Waits(net) > 0
            else
              && f.outcome.Filled? && f.buf[..HEADER_SIZE] == Unread(stored, net)[..HEADER_SIZE]
              && |f.buf| + |Stream(f.net)| == |Unread(stored, net)| && f.net == Rest(net, |Data(stored)|, HEADER_SIZE)
              && Waits(f.net) == Waits(net) && (ByReset(f.net) <==> ByReset(net)) && Behind(f.net) == Behind(net)
  {
    var buf := Data(stored);
    assert |buf| + |Stream(net)| == |Unread(stored, net)|;
    RestEnds(net, |buf|, HEADER_SIZE);
    if TimeoutsIn(net, |buf|, 0, HEADER_SIZE) > 0 {
      FillStops(buf, HEADER_SIZE, net);
    } else {
      FillKeepsBytes(buf, HEADER_SIZE, net);
      assert |f.buf + Stream(f.net)| == |Unread(stored, net)|;
      assert f.buf[..HEADER_SIZE] == (f.buf + Stream(f.net))[..HEADER_SIZE];
    }
  }

  lemma ShortHeader(stored: Stored, net: seq<Event>)
    requires |Unread(stored, net)| < HEADER_SIZE
    ensures FrameShort(ReadFrame(stored, net), net)
  {
    var f := FillTo(Data(stored), HEADER_SIZE, net);
    FillShort(Data(stored), HEADER_SIZE, net);
    FrameFailed(stored, net, f);
  }

  lemma BadHeader(stored: Stored, net: seq<Event>, e: FrameError)
    requires |Unread(stored, net)| >= HEADER_SIZE && NextHeader(Unread(stored, net)) == Err(e)
    ensures if TimeoutsIn(net, |Data(stored)|, 0, HEADER_SIZE) > 0 then FrameLost(ReadFrame(stored, net))
            else ReadFrame(stored, net) ==
                 FrameOutcome(FrameRejected(e), Absent, Rest(net, |Data(stored)|, HEADER_SIZE))
  {
    var f := FillTo(Data(stored), HEADER_SIZE, net);
    HeaderFill(stored, net, f);
    if f.outcome.Filled? { FrameRefused(stored, net, f, e); } else { FrameFailed(stored, net, f); }
  }

  lemma ShortPayload(stored: Stored, net: seq<Event>, len: nat, t: byte)
    requires |Unread(stored, net)| >= HEADER_SIZE && NextHeader(Unread(stored, net)) == Ok((len, t))
    requires |Unread(stored, net)| < HEADER_SIZE + len
    ensures FrameShort(ReadFrame(stored, net), net)
  {
    var f := FillTo(Data(stored), HEADER_SIZE, net);
    HeaderFill(stored, net, f);
    if f.outcome.Filled? {
      var g := FillTo(f.buf, HEADER_SIZE + len, f.net);
      FillShort(f.buf, HEADER_SIZE + len, f.net);
      ReadFrameOf(stored, net, t, len, f, g);
    } else {
      FrameFailed(stored, net, f);
    }
  }

  /** Bytes behind a good header that are long enough are an encoded frame. */
  lemma FrameIsEncoding(all: seq<byte>, len: nat, t: byte)
    requires |all| >= HEADER_SIZE + len && NextHeader(all) == Ok((len, t))
    ensures KnownType(t) && EncodeFrame(t, all[HEADER_SIZE..HEADER_SIZE + len]) == Ok(all[..HEADER_SIZE + len])
  {
    var h := all[..HEADER_SIZE];
    BigEndianBack(h[..4]);
    assert h == h[..4] + [t];
    assert all[..HEADER_SIZE + len] == h + all[HEADER_SIZE..HEADER_SIZE + len];
  }

  lemma WholeFrame(stored: Stored, net: seq<Event>, len: nat, t: byte)
    requires |Unread(stored, net)| >= HEADER_SIZE + len && NextHeader(Unread(stored, net)) == Ok((len, t))
    ensures FrameSound(ReadFrame(stored, net), stored, net)
  {
    var all, size := Unread(stored, net), HEADER_SIZE + len;
    FrameIsEncoding(all, len, t);
    assert all == all[..size] + all[size..];
    FrameReceived(stored, net, t, all[HEADER_SIZE..size], all[size..]);
  }

  /** Whatever arrives, closes, is reset or times out: a frame is returned exactly when its whole encoding arrives
      before the stream ends and before any timeout; a bad header is reported exactly when its bytes do; and what the
      end of the stream or a timeout cuts off is dropped and reported as just that. */
  lemma FrameExplained(stored: Stored, net: seq<Event>)
    ensures FrameSound(ReadFrame(stored, net), stored, net)
  {
    var all := Unread(stored, net);
    if |all| < HEADER_SIZE {
      ShortHeader(stored, net);
    } else {
      match NextHeader(all)
      case Err(e) => BadHeader(stored, net, e);
      case Ok((len, t)) =>
        if |all| < HEADER_SIZE + len {
          ShortPayload(stored, net, len, t);
        } else {
          WholeFrame(stored, net, len, t);
        }
    }
  }

  // ----- a whole conversation -----

  datatype Item = Item(frameType: byte, payload: seq<byte>)

  function Lines(msgs: seq<seq<byte>>): seq<byte> {
    if msgs == [] then [] else msgs[0] + [NEWLINE] + Lines(msgs[1..])
  }

  ghost predicate SendableLine(m: seq<byte>) { m != [] && NEWLINE !in m }

  ghost predicate SendableLines(msgs: seq<seq<byte>>) {
    msgs == [] || (SendableLine(msgs[0]) && SendableLines(msgs[1..]))
  }

  ghost predicate SendableFrames(items: seq<Item>) {
    items == [] || (KnownType(items[0].frameType) && EncodeFrame(items[0].frameType, items[0].payload).Ok?
                    && SendableFrames(items[1..]))
  }

  function Frames(items: seq<Item>): seq<byte>
    requires SendableFrames(items)
  {
    if items == [] then [] else EncodeFrame(items[0].frameType, items[0].payload).value + Frames(items[1..])
  }

  function LinesReceived(msgs: seq<seq<byte>>): seq<LineResult> {
    if msgs == [] then [] else [Line(msgs[0])] + LinesReceived(msgs[1..])
  }

  function FramesReceived(items: seq<Item>): seq<FrameResult> {
    if items == [] then [] else [Frame(items[0].frameType, items[0].payload)] + FramesReceived(items[1..])
  }

  datatype Session = Session(lines: seq<LineResult>, frames: seq<FrameResult>, stored: Stored, net: seq<Event>)

  /** m calls of recv_frame on one connection. */
  function TakeFrames(m: nat, stored: Stored, net: seq<Event>): Session {
    if m == 0 then Session([], [], stored, net)
    else
      var o := ReadFrame(stored, net);
      var s := TakeFrames(m - 1, o.stored, o.net);
      s.(frames := [o.result] + s.frames)
  }

  /** n calls of recv, then m calls of recv_frame, on one connection. */
  function Converse(n: nat, m: nat, stored: Stored, net: seq<Event>, maxRetries: nat): Session {
    if n == 0 then TakeFrames(m, stored, net)
    else
      var o := ReadLine(stored, net, 0, maxRetries);
      var s := Converse(n - 1, m, o.stored, o.net, maxRetries);
      s.(lines := [o.result] + s.lines)
  }

  /** Frames come out one per call, in order, exactly when no timeout falls inside any of them. */
  lemma {:induction false} FramesDelivered(items: seq<Item>, tail: seq<byte>, stored: Stored, net: seq<Event>)
    requires SendableFrames(items)
    requires Unread(stored, net) == Frames(items) + tail
    ensures var s := TakeFrames(|items|, stored, net);
            s.lines == [] && FramesCame(s, AllQuiet(items, stored, net), items, tail)
    decreases |items|
  {
    if items == [] {
      NoFrames(items, tail, stored, net);
    } else {
      var o, s', quiet' := FrameCall(items, tail, stored, net);
      if o.result.Frame? { FramesDelivered(items[1..], tail, o.stored, o.net); }
      FramesCameOn(TakeFrames(|items|, stored, net), s', o.result, AllQuiet(items, stored, net), quiet', items, tail);
    }
  }

  predicate AllQuiet(items: seq<Item>, stored: Stored, net: seq<Event>)
    requires SendableFrames(items)
  {
    TimeoutsIn(net, |Data(stored)|, 0, |Frames(items)|) == 0
  }

  ghost predicate FramesCame(s: Session, quiet: bool, items: seq<Item>, tail: seq<byte>) {
    (s.frames == FramesReceived(items) <==> quiet) && (quiet ==> Unread(s.stored, s.net) == tail)
  }

  /** s goes on from its first frame as s' does. */
  ghost predicate FramesGoOn(s: Session, s': Session, first: FrameResult, items: seq<Item>)
    requires items != []
  {
    && s.lines == s'.lines == [] && s.stored == s'.stored && s.net == s'.net
    && (s.frames == FramesReceived(items) <==>
        first == Frame(items[0].frameType, items[0].payload) && s'.frames == FramesReceived(items[1..]))
  }

  lemma FramesCameOn(s: Session, s': Session, first: FrameResult, quiet: bool, quiet': bool,
                     items: seq<Item>, tail: seq<byte>)
    requires items != [] && FramesGoOn(s, s', first, items)
    requires if first.Frame? then first == Frame(items[0].frameType, items[0].payload) && (quiet <==> quiet')
             else !quiet
    requires first.Frame? ==> FramesCame(s', quiet', items[1..], tail)
    ensures s.lines == [] && FramesCame(s, quiet, items, tail)
  {}

  lemma NoFrames(items: seq<Item>, tail: seq<byte>, stored: Stored, net: seq<Event>)
    requires items == [] && Unread(stored, net) == Frames(items) + tail
    ensures var s := TakeFrames(|items|, stored, net);
            s.lines == [] && FramesCame(s, AllQuiet(items, stored, net), items, tail)
  {
    NoneBefore(net, |Data(stored)|, 0, 0);
    assert Frames(items) + tail == tail;
  }

  lemma FrameCall(items: seq<Item>, tail: seq<byte>, stored: Stored, net: seq<Event>)
    returns (o: FrameOutcome, s': Session, quiet': bool)
    requires items != [] && SendableFrames(items)
    requires Unread(stored, net) == Frames(items) + tail
    ensures s' == TakeFrames(|items| - 1, o.stored, o.net) && quiet' == AllQuiet(items[1..], o.stored, o.net)
    ensures FramesGoOn(TakeFrames(|items|, stored, net), s', o.result, items)
    ensures if o.result.Frame? then
              && o.result == Frame(items[0].frameType, items[0].payload)
              && (AllQuiet(items, stored, net) <==> quiet')
              && Unread(o.stored, o.net) == Frames(items[1..]) + tail
            else !AllQuiet(items, stored, net)
  {
    o := ReadFrame(stored, net);
    FirstFrame(items, tail, stored, net, o);
    FrameThen(|items| - 1, stored, net, items);
    s', quiet' := TakeFrames(|items| - 1, o.stored, o.net), AllQuiet(items[1..], o.stored, o.net);
  }

  lemma FirstFrame(items: seq<Item>, tail: seq<byte>, stored: Stored, net: seq<Event>, o: FrameOutcome)
    requires items != [] && SendableFrames(items) && o == ReadFrame(stored, net)
    requires Unread(stored, net) == Frames(items) + tail
    ensures if o.result.Frame? then
              && o.result == Frame(items[0].frameType, items[0].payload)
              && (AllQuiet(items, stored, net) <==> AllQuiet(items[1..], o.stored, o.net))
              && Unread(o.stored, o.net) == Frames(items[1..]) + tail
            else !AllQuiet(items, stored, net)
  {
    var t, payload, later := items[0].frameType, items[0].payload, Frames(items[1..]);
    var wire := EncodeFrame(t, payload).value;
    WireParts(t, payload);
    Regroup(wire, later, tail);
    TimeoutsSplit(net, |Data(stored)|, 0, |wire|, |Frames(items)|);
    FrameReceived(stored, net, t, payload, later + tail);
    if o.result.Frame? {
      TakenLater(net, |Data(stored)|, |wire|, o.net, |Data(o.stored)|, 0, |later|);
    }
  }

  /** The first call and the others. */
  lemma {:induction false} FrameThen(n: nat, stored: Stored, net: seq<Event>, items: seq<Item>)
    requires items != []
    ensures var o := ReadFrame(stored, net);
            FramesGoOn(TakeFrames(n + 1, stored, net), TakeFrames(n, o.stored, o.net), o.result, items)
  {
    var o := ReadFrame(stored, net);
    var frames := TakeFrames(n, o.stored, o.net).frames;
    NoLinesTaken(n, o.stored, o.net);
    assert ([o.result] + frames)[0] == o.result && ([o.result] + frames)[1..] == frames;
    var all := FramesReceived(items);
    assert all[0] == Frame(items[0].frameType, items[0].payload) && all[1..] == FramesReceived(items[1..]);
  }

  lemma {:induction false} NoLinesTaken(n: nat, stored: Stored, net: seq<Event>)
    ensures TakeFrames(n, stored, net).lines == []
  {
    if n > 0 {
      var o := ReadFrame(stored, net);
      NoLinesTaken(n - 1, o.stored, o.net);
    }
  }

  /** No timeout or fewer than maxRetries fall inside each message, of which the first starts at from. */
  predicate Patient(net: seq<Event>, have: nat, from: nat, msgs: seq<seq<byte>>, maxRetries: nat)
    decreases |msgs|
  {
    msgs == [] || (InTime(net, have, from, msgs[0], 0, maxRetries)
                   && Patient(net, have, from + |msgs[0]| + 1, msgs[1..], maxRetries))
  }

  /** Each message fits where this chunking leaves it. */
  predicate AllFit(net: seq<Event>, have: nat, from: nat, msgs: seq<seq<byte>>)
    decreases |msgs|
  {
    msgs == [] || (FitsAt(net, have, from, msgs[0]) && AllFit(net, have, from + |msgs[0]| + 1, msgs[1..]))
  }

  lemma {:induction false} PatientLater(net: seq<Event>, have: nat, size: nat, net': seq<Event>, have': nat,
                                        from: nat, msgs: seq<seq<byte>>, maxRetries: nat)
    requires Taken(net, have, size, net', have')
    ensures Patient(net', have', from, msgs, maxRetries) <==> Patient(net, have, from + size, msgs, maxRetries)
    decreases |msgs|
  {
    if msgs != [] {
      TakenLater(net, have, size, net', have', from, from + |msgs[0]| + 1);
      PatientLater(net, have, size, net', have', from + |msgs[0]| + 1, msgs[1..], maxRetries);
    }
  }

  lemma FitLater(net: seq<Event>, have: nat, line: seq<byte>, net': seq<Event>, have': nat, from: nat, m: seq<byte>)
    requires Taken(net, have, |line| + 1, net', have') && FitsAt(net, have, 0, line)
    ensures FitsAt(net', have', from, m) <==> FitsAt(net, have, from + (|line| + 1), m)
  {
    TakenLater(net, have, |line| + 1, net', have', from + |m| + 1, 0);
    RestSplit(net, have, |line| + 1, from + |m| + 1 + (|line| + 1));
  }

  lemma {:induction false} AllFitLater(net: seq<Event>, have: nat, line: seq<byte>, net': seq<Event>, have': nat,
                                       from: nat, msgs: seq<seq<byte>>)
    requires Taken(net, have, |line| + 1, net', have') && FitsAt(net, have, 0, line)
    ensures AllFit(net', have', from, msgs) <==> AllFit(net, have, from + (|line| + 1), msgs)
    decreases |msgs|
  {
    if msgs != [] {
      FitLater(net, have, line, net', have', from, msgs[0]);
      AllFitLater(net, have, line, net', have', from + |msgs[0]| + 1, msgs[1..]);
    }
  }

  /** Messages that leave room for one chunk fit in every chunking. */
  lemma {:induction false} RoomAllFit(net: seq<Event>, have: nat, from: nat, msgs: seq<seq<byte>>)
    requires InChunks(net) && forall m :: m in msgs ==> |m| + RECV_SIZE <= MAX_MESSAGE_LENGTH
    ensures AllFit(net, have, from, msgs)
    decreases |msgs|
  {
    if msgs != [] {
      RoomFits(net, have, from, msgs[0]);
      RoomAllFit(net, have, from + |msgs[0]| + 1, msgs[1..]);
    }
  }

  /** What is on its way: newline-free messages, then frames, then anything, with timeouts anywhere and any end of
      the stream behind. */
  ghost predicate Sent(msgs: seq<seq<byte>>, items: seq<Item>, tail: seq<byte>, stored: Stored, net: seq<Event>) {
    && SendableLines(msgs) && SendableFrames(items)
    && (msgs != [] ==> !stored.Frozen?)
    && Unread(stored, net) == Lines(msgs) + (Frames(items) + tail)
  }

  /** Each message fits in this cut of the byte stream into chunks, and comes in time. */
  predicate LinesPass(net: seq<Event>, have: nat, msgs: seq<seq<byte>>, maxRetries: nat) {
    AllFit(net, have, 0, msgs) && Patient(net, have, 0, msgs, maxRetries)
  }

  /** No timeout falls inside the frames behind the messages. */
  predicate FramesQuiet(net: seq<Event>, have: nat, msgs: seq<seq<byte>>, items: seq<Item>)
    requires SendableFrames(items)
  {
    TimeoutsIn(net, have, |Lines(msgs)|, |Lines(msgs)| + |Frames(items)|) == 0
  }

  /** As many calls of recv and recv_frame bring all messages if and only if they pass, and then all frames if and
      only if those are quiet. */
  ghost predicate ConversationCame(msgs: seq<seq<byte>>, items: seq<Item>, tail: seq<byte>, stored: Stored,
                                   net: seq<Event>, maxRetries: nat)
    requires SendableFrames(items)
  {
    Came(Converse(|msgs|, |items|, stored, net, maxRetries), LinesPass(net, |Data(stored)|, msgs, maxRetries),
         FramesQuiet(net, |Data(stored)|, msgs, items), msgs, items, tail)
  }

  /** Main result: the messages come out one per call, in order, exactly when each fits and comes in time; then the
      frames do exactly when no timeout falls inside them; and then exactly the unread bytes stay behind. */
  lemma {:induction false} ConversationDelivered(msgs: seq<seq<byte>>, items: seq<Item>, tail: seq<byte>,
                                                 stored: Stored, net: seq<Event>, maxRetries: nat)
    requires Sent(msgs, items, tail, stored, net)
    ensures ConversationCame(msgs, items, tail, stored, net, maxRetries)
    decreases |msgs|
  {
    if msgs == [] {
      NoLines(msgs, items, tail, stored, net, maxRetries);
    } else {
      var stored', net', first := FirstCall(msgs, items, tail, stored, net, maxRetries);
      if first { ConversationDelivered(msgs[1..], items, tail, stored', net', maxRetries); }
    }
  }

  ghost predicate Came(s: Session, pass: bool, quiet: bool, msgs: seq<seq<byte>>, items: seq<Item>, tail: seq<byte>) {
    (s.lines == LinesReceived(msgs) <==> pass) && (pass ==> FramesCame(s, quiet, items, tail))
  }

  /** s goes on from its first line as s' does. */
  ghost predicate GoesOn(s: Session, s': Session, first: LineResult, msgs: seq<seq<byte>>)
    requires msgs != []
  {
    && s.frames == s'.frames && s.stored == s'.stored && s.net == s'.net
    && (s.lines == LinesReceived(msgs) <==> first == Line(msgs[0]) && s'.lines == LinesReceived(msgs[1..]))
  }

  lemma CameOn(s: Session, s': Session, first: LineResult, pass: bool, quiet: bool, pass': bool, quiet': bool,
               msgs: seq<seq<byte>>, items: seq<Item>, tail: seq<byte>)
    requires msgs != [] && GoesOn(s, s', first, msgs)
    requires if first == Line(msgs[0]) then (pass <==> pass') && (quiet <==> quiet') else !pass
    requires first == Line(msgs[0]) ==> Came(s', pass', quiet', msgs[1..], items, tail)
    ensures Came(s, pass, quiet, msgs, items, tail)
  {}

  lemma NoLines(msgs: seq<seq<byte>>, items: seq<Item>, tail: seq<byte>, stored: Stored, net: seq<Event>,
                maxRetries: nat)
    requires msgs == [] && Sent(msgs, items, tail, stored, net)
    ensures ConversationCame(msgs, items, tail, stored, net, maxRetries)
  {
    assert Lines(msgs) + (Frames(items) + tail) == Frames(items) + tail;
    FramesDelivered(items, tail, stored, net);
  }

  /** After the first call it remains to show what comes of the others, if the first message was received. */
  lemma FirstCall(msgs: seq<seq<byte>>, items: seq<Item>, tail: seq<byte>, stored: Stored, net: seq<Event>,
                  maxRetries: nat)
    returns (stored': Stored, net': seq<Event>, first: bool)
    requires msgs != [] && Sent(msgs, items, tail, stored, net)
    ensures first ==> Sent(msgs[1..], items, tail, stored', net')
    ensures (first ==> ConversationCame(msgs[1..], items, tail, stored', net', maxRetries)) ==>
            ConversationCame(msgs, items, tail, stored, net, maxRetries)
  {
    var o := ReadLine(stored, net, 0, maxRetries);
    stored', net', first := o.stored, o.net, o.result == Line(msgs[0]);
    FirstLine(|msgs| - 1, |items|, stored, net, maxRetries, msgs);
    var pass', quiet' := FirstReceived(msgs, items, tail, stored, net, maxRetries, o);
    var s' := Converse(|msgs| - 1, |items|, o.stored, o.net, maxRetries);
    if first ==> Came(s', pass', quiet', msgs[1..], items, tail) {
      CameOn(Converse(|msgs|, |items|, stored, net, maxRetries), s', o.result,
             LinesPass(net, |Data(stored)|, msgs, maxRetries), FramesQuiet(net, |Data(stored)|, msgs, items),
             pass', quiet', msgs, items, tail);
    }
  }

  /** The first message is received, and the others are then on their way as before; or it does not pass. */
  lemma FirstReceived(msgs: seq<seq<byte>>, items: seq<Item>, tail: seq<byte>, stored: Stored, net: seq<Event>,
                      maxRetries: nat, o: LineOutcome)
    returns (pass': bool, quiet': bool)
    requires msgs != [] && Sent(msgs, items, tail, stored, net) && o == ReadLine(stored, net, 0, maxRetries)
    ensures pass' == LinesPass(o.net, |Data(o.stored)|, msgs[1..], maxRetries)
    ensures quiet' == FramesQuiet(o.net, |Data(o.stored)|, msgs[1..], items)
    ensures var pass, quiet := LinesPass(net, |Data(stored)|, msgs, maxRetries),
                               FramesQuiet(net, |Data(stored)|, msgs, items);
            if o.result == Line(msgs[0]) then (pass <==> pass') && (quiet <==> quiet') else !pass
    ensures o.result == Line(msgs[0]) ==> Sent(msgs[1..], items, tail, o.stored, o.net)
  {
    var rest := Lines(msgs[1..]) + (Frames(items) + tail);
    Regroup(msgs[0] + [NEWLINE], Lines(msgs[1..]), Frames(items) + tail);
    LineReceived(stored, net, 0, maxRetries, msgs[0], rest);
    pass' := LinesPass(o.net, |Data(o.stored)|, msgs[1..], maxRetries);
    quiet' := FramesQuiet(o.net, |Data(o.stored)|, msgs[1..], items);
    if o.result == Line(msgs[0]) {
      FirstTaken(msgs, net, |Data(stored)|, o.net, |Data(o.stored)|, maxRetries, |Frames(items)|);
    }
  }

  /** The others are then in time, fit, and are followed by the frames where they were before. */
  lemma FirstTaken(msgs: seq<seq<byte>>, net: seq<Event>, have: nat, net': seq<Event>, have': nat,
                   maxRetries: nat, frames: nat)
    requires msgs != [] && Taken(net, have, |msgs[0]| + 1, net', have') && FitsAt(net, have, 0, msgs[0])
    requires InTime(net, have, 0, msgs[0], 0, maxRetries)
    ensures Patient(net, have, 0, msgs, maxRetries) <==> Patient(net', have', 0, msgs[1..], maxRetries)
    ensures AllFit(net, have, 0, msgs) <==> AllFit(net', have', 0, msgs[1..])
    ensures var later := |Lines(msgs[1..])|;
            TimeoutsIn(net', have', later, later + frames)
            == TimeoutsIn(net, have, |Lines(msgs)|, |Lines(msgs)| + frames)
  {
    var size, later := |msgs[0]| + 1, |Lines(msgs[1..])|;
    PatientLater(net, have, size, net', have', 0, msgs[1..], maxRetries);
    AllFitLater(net, have, msgs[0], net', have', 0, msgs[1..]);
    TakenLater(net, have, size, net', have', later, later + frames);
  }

  /** The first call and the others. */
  lemma FirstLine(n: nat, m: nat, stored: Stored, net: seq<Event>, maxRetries: nat, msgs: seq<seq<byte>>)
    requires msgs != []
    ensures var o, s := ReadLine(stored, net, 0, maxRetries), Converse(n + 1, m, stored, net, maxRetries);
            GoesOn(s, Converse(n, m, o.stored, o.net, maxRetries), o.result, msgs)
  {
    var o := ReadLine(stored, net, 0, maxRetries);
    var lines := Converse(n, m, o.stored, o.net, maxRetries).lines;
    assert ([o.result] + lines)[0] == o.result && ([o.result] + lines)[1..] == lines;
    assert LinesReceived(msgs)[0] == Line(msgs[0]) && LinesReceived(msgs)[1..] == LinesReceived(msgs[1..]);
  }

  /** Going back from frames to messages works exactly when frame reading left no bytes behind: the leftover
      is immutable, and message reading fails on it instead of returning the line. */
  lemma LineAfterFrame(stored: Stored, net: seq<Event>, maxRetries: nat, line: seq<byte>, rest: seq<byte>)
    requires !stored.Growable? && Fits(stored, net, line)
    requires TimeoutsIn(net, |Data(stored)|, 0, |line| + 1) < maxRetries
    requires Unread(stored, net) == line + [NEWLINE] + rest && NEWLINE !in line && line != []
    ensures ReadLine(stored, net, 0, maxRetries).result == Line(line) <==> stored.Absent?
    ensures stored.Frozen? ==> ReadLine(stored, net, 0, maxRetries).result == ImmutableBuffer
  {
    if stored.Absent? {
      LineReceived(stored, net, 0, maxRetries, line, rest);
    } else {
      FrozenFails(stored, net, 0, maxRetries, line, rest);
    }
  }

  lemma {:induction false} FrozenFails(stored: Stored, net: seq<Event>, retries: nat, maxRetries: nat,
                                       line: seq<byte>, rest: seq<byte>)
    requires stored.Frozen?
    requires retries + TimeoutsIn(net, |Data(stored)|, 0, |line| + 1) < maxRetries
    requires Unread(stored, net) == line + [NEWLINE] + rest && NEWLINE !in line
    ensures ReadLine(stored, net, retries, maxRetries).result == ImmutableBuffer
    decreases |net|
  {
    LineInBuffer(Data(stored), Stream(net), line, rest);
    if |line| >= |Data(stored)| {
      assert |Stream(net)| > 0;
      if net[0].Timeout? { FrozenFails(stored, net[1..], retries + 1, maxRetries, line, rest); }
    }
  }
}
