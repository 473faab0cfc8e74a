/** Decoding of output that chunk boundaries cut inside a character (src/session/codec.py), for
    UTF-8 (RFC 3629 sections 3 and 4) and two-byte GBK. */
module Codec {
  import opened Common

  datatype Encoding = Utf8 | Gbk

  // ----- characters and their bytes -----

  /** A character of valid text: a Unicode scalar value, or for GBK an ASCII code or 256 times the
      lead byte plus the trail byte. */
  predicate IsChar(e: Encoding, c: int) {
    match e
    case Utf8 => 0 <= c < 0xD800 || 0xE000 <= c < 0x110000
    case Gbk => 0 <= c < 0x80 || (0x81 <= c / 256 <= 0xFE && GbkTrail(c % 256))
  }

  predicate GbkTrail(b: int) { 0x40 <= b <= 0x7E || 0x80 <= b <= 0xFE }

  function Bytes(e: Encoding, c: int): (r: seq<byte>)
    requires IsChar(e, c)
    ensures 1 <= |r| <= 4
  {
    if e.Utf8? then Utf8Bytes(c) else if c < 0x80 then [c] else [c / 256, c % 256]
  }

  function Utf8Bytes(c: nat): (r: seq<byte>)
    requires c < 0x11_0000
    ensures 1 <= |r| <= 4
  {
    if c < 0x80 then [c]
    else if c < 0x800 then [0xC0 + c / 64, 0x80 + c % 64]
    else if c < 0x1_0000 then [0xE0 + c / 4096, 0x80 + c / 64 % 64, 0x80 + c % 64]
    else [0xF0 + c / 262144, 0x80 + c / 4096 % 64, 0x80 + c / 64 % 64, 0x80 + c % 64]
  }

  ghost predicate IsText(e: Encoding, t: seq<int>) { t == [] || (IsChar(e, t[0]) && IsText(e, t[1..])) }

  ghost function Encoded(e: Encoding, t: seq<int>): seq<byte>
    requires IsText(e, t)
  {
    if t == [] then [] else Bytes(e, t[0]) + Encoded(e, t[1..])
  }

  // ----- strict decoding -----

  predicate IsTail(b: byte) { 0x80 <= b <= 0xBF }

  /** The second byte that the syntax of RFC 3629 section 4 allows after a lead byte. */
  predicate SecondOk(lead: byte, b: byte) {
    if lead == 0xE0 then 0xA0 <= b <= 0xBF
    else if lead == 0xED then 0x80 <= b <= 0x9F
    else if lead == 0xF0 then 0x90 <= b <= 0xBF
    else if lead == 0xF4 then 0x80 <= b <= 0x8F
    else IsTail(b)
  }

  /** Length of the character a byte begins, 0 if it begins none. */
  function CharLength(e: Encoding, lead: byte): nat {
    if lead < 0x80 then 1
    else if e.Gbk? then (if 0x81 <= lead <= 0xFE then 2 else 0)
    else if 0xC2 <= lead <= 0xDF then 2
    else if 0xE0 <= lead <= 0xEF then 3
    else if 0xF0 <= lead <= 0xF4 then 4
    else 0
  }

  /** Appends the six bits of a tail byte. */
  function Join(high: int, tail: byte): int { high * 64 + (tail as int - 0x80) }

  lemma JoinDigits(high: nat, tail: byte)
    requires IsTail(tail)
    ensures Join(high, tail) / 64 == high && Join(high, tail) % 64 == tail as int - 0x80
  {}

  /** The first character of d and its length. */
  function DecodeOne(e: Encoding, d: seq<byte>): Option<(int, nat)> {
    if d == [] then None
    else
      var n := CharLength(e, d[0]);
      if n == 0 || n > |d| then None
      else if n == 1 then Some((d[0], 1))
      else if e.Gbk? then if GbkTrail(d[1]) then Some((d[0] as int * 256 + d[1], 2)) else None
      else if !SecondOk(d[0], d[1]) || (n > 2 && !IsTail(d[2])) || (n > 3 && !IsTail(d[3])) then None
      else Some((
        if n == 2 then Join(d[0] as int - 0xC0, d[1])
        else if n == 3 then Join(Join(d[0] as int - 0xE0, d[1]), d[2])
        else Join(Join(Join(d[0] as int - 0xF0, d[1]), d[2]), d[3]), n))
  }

  /** bytes.decode without an error handler: None where it raises. */
  function DecodeStrict(e: Encoding, d: seq<byte>): Option<seq<int>>
    decreases |d|
  {
    if d == [] then Some([])
    else match DecodeOne(e, d)
      case None => None
      case Some((c, n)) =>
        if n == 0 || n > |d| then None
        else match DecodeStrict(e, d[n..])
          case None => None
          case Some(t) => Some([c] + t)
  }

  lemma DecodeOneOfBytes(e: Encoding, c: int, rest: seq<byte>)
    requires IsChar(e, c)
    ensures DecodeOne(e, Bytes(e, c) + rest) == Some((c, |Bytes(e, c)|))
  {
    if e.Utf8? && c >= 0x1_0000 {
      DecodeFour(c, rest);
    } else if e.Utf8? && c >= 0x800 {
      DecodeThree(c, rest);
    }
  }

  lemma DecodeThree(c: int, rest: seq<byte>)
    requires IsChar(Utf8, c) && 0x800 <= c < 0x1_0000
    ensures DecodeOne(Utf8, Bytes(Utf8, c) + rest) == Some((c, 3))
  {
    var d := Bytes(Utf8, c) + rest;
    Digits(c);
    assert d[0] == 0xE0 + c / 4096 && d[1] == 0x80 + c / 64 % 64 && d[2] == 0x80 + c % 64;
    assert CharLength(Utf8, d[0]) == 3 && SecondOk(d[0], d[1]) && IsTail(d[2]);
  }

  lemma DecodeFour(c: int, rest: seq<byte>)
    requires IsChar(Utf8, c) && 0x1_0000 <= c
    ensures DecodeOne(Utf8, Bytes(Utf8, c) + rest) == Some((c, 4))
  {
    var d := Bytes(Utf8, c) + rest;
    Digits(c);
    assert d[0] == 0xF0 + c / 262144 && d[1] == 0x80 + c / 4096 % 64;
    assert d[2] == 0x80 + c / 64 % 64 && d[3] == 0x80 + c % 64;
    assert CharLength(Utf8, d[0]) == 4 && SecondOk(d[0], d[1]) && IsTail(d[2]) && IsTail(d[3]);
  }

  /** The base-64 digits of a code point. */
  lemma Digits(c: nat)
    ensures c == c / 64 * 64 + c % 64
    ensures c / 64 == c / 4096 * 64 + c / 64 % 64
    ensures c / 4096 == c / 262144 * 64 + c / 4096 % 64
  {
    var a := c / 64;
    var b := a / 64;
    assert c / 4096 == b && c / 262144 == b / 64;
  }

  lemma ThreeBytes(d: seq<byte>)
    requires |d| >= 3 && 0xE0 <= d[0] <= 0xEF && SecondOk(d[0], d[1]) && IsTail(d[2])
    ensures var c := Join(Join(d[0] as int - 0xE0, d[1]), d[2]);
            IsChar(Utf8, c) && d[..3] == Utf8Bytes(c)
  {
    var h := Join(d[0] as int - 0xE0, d[1]);
    JoinDigits(d[0] - 0xE0, d[1]);
    JoinDigits(h, d[2]);
    assert Join(h, d[2]) / 4096 == h / 64;
  }

  /** The upper eleven bits of a four-byte character: the second byte keeps it within the code points. */
  lemma UpperBits(lead: byte, second: byte)
    requires 0xF0 <= lead <= 0xF4 && SecondOk(lead, second)
    ensures 0x10 <= Join(lead as int - 0xF0, second) < 0x110
  {}

  lemma FourRange(h: nat, x: nat, y: nat)
    requires 0x10 <= h < 0x110 && x < 64 && y < 64
    ensures 0x1_0000 <= (h * 64 + x) * 64 + y < 0x11_0000
  {}

  /** The digits of a number given in base 64. */
  lemma FourDigits(a: nat, b: nat, x: nat, y: nat, c: nat)
    requires b < 64 && x < 64 && y < 64 && c == ((a * 64 + b) * 64 + x) * 64 + y
    ensures c / 262144 == a && c / 4096 % 64 == b && c / 64 % 64 == x && c % 64 == y
  {
    var h1 := a * 64 + b;
    var h2 := h1 * 64 + x;
    assert c / 64 == h2 && h2 % 64 == x;
    assert c / 4096 == h1 && h1 % 64 == b;
    assert c / 262144 == a;
  }

  lemma FourForm(a: nat, b: nat, x: nat, y: nat, c: nat)
    requires a <= 4 && b < 64 && x < 64 && y < 64 && 0x1_0000 <= c < 0x11_0000
    requires c / 262144 == a && c / 4096 % 64 == b && c / 64 % 64 == x && c % 64 == y
    ensures Utf8Bytes(c) == [0xF0 + a, 0x80 + b, 0x80 + x, 0x80 + y]
  {}

  lemma FourJoined(p: byte, q: byte, r: byte, s: byte, c: int)
    requires 0xF0 <= p <= 0xF4 && SecondOk(p, q) && IsTail(r) && IsTail(s)
    requires c == Join(Join(Join(p as int - 0xF0, q), r), s)
    ensures 0x1_0000 <= c < 0x11_0000 && Utf8Bytes(c) == [p, q, r, s]
  {
    var a, b, x, y := p as int - 0xF0, q as int - 0x80, r as int - 0x80, s as int - 0x80;
    UpperBits(p, q);
    FourRange(Join(a, q), x, y);
    FourDigits(a, b, x, y, c);
    FourForm(a, b, x, y, c);
  }

  lemma FourBytes(d: seq<byte>)
    requires |d| >= 4 && 0xF0 <= d[0] <= 0xF4 && SecondOk(d[0], d[1]) && IsTail(d[2]) && IsTail(d[3])
    ensures var c := Join(Join(Join(d[0] as int - 0xF0, d[1]), d[2]), d[3]);
            IsChar(Utf8, c) && d[..4] == Utf8Bytes(c)
  {
    FourJoined(d[0], d[1], d[2], d[3], Join(Join(Join(d[0] as int - 0xF0, d[1]), d[2]), d[3]));
    assert d[..4] == [d[0], d[1], d[2], d[3]];
  }

  /** Whatever decodes is the encoding of its character: strict decoding accepts nothing else. */
  lemma DecodeOneIsBytes(e: Encoding, d: seq<byte>)
    requires DecodeOne(e, d).Some?
    ensures var (c, n) := DecodeOne(e, d).value;
            0 < n <= |d| && IsChar(e, c) && d[..n] == Bytes(e, c)
  {
    var (c, n) := DecodeOne(e, d).value;
    if e.Gbk? && n == 2 {
      assert c / 256 == d[0] && c % 256 == d[1];
    } else if n == 2 {
      JoinDigits(d[0] - 0xC0, d[1]);
    } else if n == 3 {
      ThreeBytes(d);
    } else if n == 4 {
      FourBytes(d);
    }
  }

  /** No character is a proper prefix of another, so a cut character does not decode. */
  lemma CutDoesNotDecode(e: Encoding, c: int, n: nat)
    requires IsChar(e, c) && n < |Bytes(e, c)|
    ensures DecodeOne(e, Bytes(e, c)[..n]).None?
  {}

  lemma DecodeStrictCons(e: Encoding, c: int, rest: seq<byte>, d: seq<byte>, u: seq<int>)
    requires IsChar(e, c) && d == Bytes(e, c) + rest
    ensures DecodeStrict(e, rest).None? ==> DecodeStrict(e, d).None?
    ensures Decodes(e, rest, u) ==> Decodes(e, d, [c] + u)
  {
    DecodeOneOfBytes(e, c, rest);
    var n := |Bytes(e, c)|;
    Behind(Bytes(e, c), rest);
  }

  ghost predicate Decodes(e: Encoding, d: seq<byte>, t: seq<int>) {
    var r := DecodeStrict(e, d);
    r.Some? && r.value == t
  }

  /** Text in front of other bytes decodes if and only if they do. */
  lemma {:induction false} DecodeStrictOfText(e: Encoding, t: seq<int>, rest: seq<byte>)
    requires IsText(e, t)
    ensures DecodeStrict(e, rest).None? ==> DecodeStrict(e, Encoded(e, t) + rest).None?
    ensures rest == [] ==> Decodes(e, Encoded(e, t) + rest, t)
    decreases |t|
  {
    if t == [] {
      assert Encoded(e, t) + rest == rest;
    } else {
      Regroup(Bytes(e, t[0]), Encoded(e, t[1..]), rest);
      DecodeStrictOfText(e, t[1..], rest);
      DecodeStrictCons(e, t[0], Encoded(e, t[1..]) + rest, Encoded(e, t) + rest, t[1..]);
      assert [t[0]] + t[1..] == t;
    }
  }

  lemma FirstDecodes(e: Encoding, d: seq<byte>, t: seq<int>) returns (n: nat)
    requires Decodes(e, d, t) && d != []
    ensures 0 < n <= |d| && t != [] && IsChar(e, t[0]) && d[..n] == Bytes(e, t[0]) && Decodes(e, d[n..], t[1..])
  {
    n := DecodeOne(e, d).value.1;
    DecodeOneIsBytes(e, d);
  }

  lemma {:induction false} DecodeStrictSound(e: Encoding, d: seq<byte>, t: seq<int>)
    requires Decodes(e, d, t)
    ensures IsText(e, t) && Encoded(e, t) == d
    decreases |d|
  {
    if d != [] {
      var n := FirstDecodes(e, d, t);
      DecodeStrictSound(e, d[n..], t[1..]);
      assert d == d[..n] + d[n..];
    }
  }

  /** Strict decoding succeeds exactly on the encodings of texts, and returns the text. */
  lemma DecodeStrictExactly(e: Encoding, d: seq<byte>, t: seq<int>)
    ensures Decodes(e, d, t) <==> IsText(e, t) && Encoded(e, t) == d
  {
    if Decodes(e, d, t) {
      DecodeStrictSound(e, d, t);
    }
    if IsText(e, t) && Encoded(e, t) == d {
      DecodeStrictOfText(e, t, []);
      assert d + [] == d;
    }
  }

  // ----- trimming -----

  /** The last index up to i whose byte is not ASCII, or -1. */
  function SkipAscii(d: seq<byte>, i: int): (j: int)
    requires -1 <= i < |d|
    ensures -1 <= j <= i && (j >= 0 ==> d[j] >= 0x80)
    decreases i + 1
  {
    if i >= 0 && d[i] < 0x80 then SkipAscii(d, i - 1) else i
  }

  /** The last index up to i whose byte is not a UTF-8 tail byte, or -1. */
  function SkipTails(d: seq<byte>, i: int): (j: int)
    requires -1 <= i < |d|
    ensures -1 <= j <= i && (j >= 0 ==> !IsTail(d[j])) && forall k :: j < k <= i ==> IsTail(d[k])
    decreases i + 1
  {
    if i >= 0 && IsTail(d[i]) then SkipTails(d, i - 1) else i
  }

  function TailsExpected(lead: byte): nat { if lead < 0xE0 then 1 else if lead < 0xF0 then 2 else 3 }

  function Utf8Trimmed(d: seq<byte>): seq<byte> {
    var i := SkipAscii(d, |d| - 1);
    if i < 0 then d
    else if IsTail(d[i]) then
      var start := SkipTails(d, i);
      if start < 0 then []
      else if d[start] < 0xC0 || i - start < TailsExpected(d[start]) then d[..start]
      else d[..i + 1]
    else if |d| - i - 1 < TailsExpected(d[i]) then d[..i]
    else d
  }

  function GbkTrimmed(d: seq<byte>): seq<byte> {
    var i := SkipAscii(d, |d| - 1);
    if i < 0 then d
    else if 0x81 <= d[i] <= 0xFE then d[..i]
    else if 0x40 <= d[i] <= 0xFE && i > 0 && 0x81 <= d[i - 1] <= 0xFE then d
    else if 0x40 <= d[i] <= 0xFE then d[..i]
    else d
  }

  function Trimmed(e: Encoding, d: seq<byte>): seq<byte> {
    if e.Utf8? then Utf8Trimmed(d) else GbkTrimmed(d)
  }

  /** _utf8_trim_tail. */
  method Utf8TrimTail(data: seq<byte>) returns (r: seq<byte>)
    ensures r == Utf8Trimmed(data)
  {
    if data == [] { return data; }
    var i := |data| - 1;
    while i >= 0 && data[i] < 0x80
      invariant -1 <= i < |data| && SkipAscii(data, i) == SkipAscii(data, |data| - 1)
    {
      i := i - 1;
    }
    if i < 0 { return data; }
    if IsTail(data[i]) {
      var start := i;
      while start >= 0 && IsTail(data[start])
        invariant -1 <= start <= i && SkipTails(data, start) == SkipTails(data, i)
      {
        start := start - 1;
      }
      if start < 0 { return []; }
      if data[start] < 0xC0 { return data[..start]; }
      var have := i - start;
      if have < TailsExpected(data[start]) { return data[..start]; }
      return data[..i + 1];
    }
    var have := |data| - i - 1;
    if have < TailsExpected(data[i]) { return data[..i]; }
    return data;
  }

  /** _gbk_trim_tail. */
  method GbkTrimTail(data: seq<byte>) returns (r: seq<byte>)
    ensures r == GbkTrimmed(data)
  {
    if data == [] { return data; }
    var i := |data| - 1;
    while i >= 0 && data[i] < 0x80
      invariant -1 <= i < |data| && SkipAscii(data, i) == SkipAscii(data, |data| - 1)
    {
      i := i - 1;
    }
    if i < 0 { return data; }
    var b := data[i];
    if 0x81 <= b <= 0xFE { return data[..i]; }
    if 0x40 <= b <= 0xFE && i > 0 && 0x81 <= data[i - 1] <= 0xFE { return data; }
    if 0x40 <= b <= 0xFE { return data[..i]; }
    return data;
  }

  lemma {:induction false} TailsBack(d: seq<byte>, lead: nat, i: nat)
    requires lead <= i < |d| && !IsTail(d[lead]) && forall k :: lead < k <= i ==> IsTail(d[k])
    ensures SkipTails(d, i) == lead
  {
    if lead < i { TailsBack(d, lead, i - 1); }
  }

  lemma Utf8TrimmedAtCut(whole: seq<byte>, cut: seq<byte>)
    requires cut != [] && cut[0] >= 0xC0 && |cut| - 1 < TailsExpected(cut[0])
    requires forall k :: 1 <= k < |cut| ==> IsTail(cut[k])
    ensures Utf8Trimmed(whole + cut) == whole
  {
    var d, n := whole + cut, |cut|;
    assert d[|whole|] == cut[0] && d[..|whole|] == whole;
    assert d[|d| - 1] == cut[n - 1] && SkipAscii(d, |d| - 1) == |d| - 1;
    if n > 1 {
      assert forall k :: |whole| < k <= |d| - 1 ==> d[k] == cut[k - |whole|];
      TailsBack(d, |whole|, |d| - 1);
    }
  }

  /** Trimming takes off exactly the bytes of a cut character. */
  lemma TrimmedAtCut(e: Encoding, whole: seq<byte>, c: int, n: nat)
    requires IsChar(e, c) && 0 < n < |Bytes(e, c)|
    ensures Trimmed(e, whole + Bytes(e, c)[..n]) == whole
  {
    var cut := Bytes(e, c)[..n];
    if e.Utf8? {
      Utf8TrimmedAtCut(whole, cut);
    } else {
      var d := whole + cut;
      assert d[|d| - 1] == cut[0] && d[..|whole|] == whole;
    }
  }

  // ----- decoding a prefix of valid text -----

  /** decode_strip_tail_len: None stands for the replacement-character path, whose result is a
      guess. */
  function DecodeStripTailLen(e: Encoding, d: seq<byte>): Option<(seq<int>, nat)> {
    if d == [] then Some(([], 0))
    else match DecodeStrict(e, d)
      case Some(t) => Some((t, |d|))
      case None =>
        var trimmed := Trimmed(e, d);
        if trimmed == d then None
        else match DecodeStrict(e, trimmed)
          case Some(t) => Some((t, |trimmed|))
          case None => None
  }

  lemma TrimmedIsPrefix(e: Encoding, d: seq<byte>)
    ensures Trimmed(e, d) <= d
  {}

  /** Whatever the bytes: what is returned is the text of exactly the bytes reported as consumed, all of them when all
      are text and otherwise those that trimming leaves. */
  lemma ConsumedIsText(e: Encoding, d: seq<byte>)
    ensures var r := DecodeStripTailLen(e, d);
            if r.Some? then
              var t, used := r.value.0, r.value.1;
              && used <= |d| && IsText(e, t) && Encoded(e, t) == d[..used]
              && (used == |d| || (d[..used] == Trimmed(e, d) && DecodeStrict(e, d).None?))
            else DecodeStrict(e, d).None? && DecodeStrict(e, Trimmed(e, d)).None?
  {
    TrimmedIsPrefix(e, d);
    if DecodeStrict(e, d).Some? { DecodeStrictExactly(e, d, DecodeStrict(e, d).value); }
    if DecodeStrict(e, Trimmed(e, d)).Some? {
      DecodeStrictExactly(e, Trimmed(e, d), DecodeStrict(e, Trimmed(e, d)).value);
    }
  }

  /** c is less than the first character of v, so that no character is held back whole. */
  ghost predicate Short(e: Encoding, c: seq<byte>, v: seq<int>)
    requires IsText(e, v)
  {
    if v == [] then c == [] else |c| < |Bytes(e, v[0])|
  }

  lemma Prepend(e: Encoding, t: seq<int>, data: seq<byte>, more: seq<byte>, u: seq<int>, v: seq<int>, c: seq<byte>)
    requires t != [] && IsChar(e, t[0]) && IsText(e, u)
    requires data == Bytes(e, t[0]) + more && t[1..] == u + v && more == Encoded(e, u) + c
    ensures IsText(e, [t[0]] + u) && t == [t[0]] + u + v && data == Encoded(e, [t[0]] + u) + c
  {
    assert ([t[0]] + u)[1..] == u;
    Regroup([t[0]], u, v);
    Regroup(Bytes(e, t[0]), Encoded(e, u), c);
  }

  /** Bytes that begin the encoding of t are the encoding of whole characters u followed by a proper
      prefix c of the next one. */
  lemma {:induction false} SplitText(e: Encoding, t: seq<int>, data: seq<byte>, later: seq<byte>)
    returns (u: seq<int>, v: seq<int>, c: seq<byte>)
    requires IsText(e, t) && data + later == Encoded(e, t)
    ensures t == u + v && IsText(e, u) && IsText(e, v)
    ensures data == Encoded(e, u) + c && Encoded(e, v) == c + later && Short(e, c, v)
    decreases |t|
  {
    if t == [] {
      assert |data + later| == 0;
      u, v, c := [], [], [];
    } else {
      var b := Bytes(e, t[0]);
      if |b| <= |data| {
        Overlap(data, later, b, Encoded(e, t[1..]));
        var u1;
        u1, v, c := SplitText(e, t[1..], data[|b|..], later);
        Prepend(e, t, data, data[|b|..], u1, v, c);
        u := [t[0]] + u1;
      } else {
        u, v, c := [], t, data;
      }
    }
  }

  /** A decoded call: this text, and this many bytes consumed. */
  ghost predicate Yields(e: Encoding, d: seq<byte>, text: seq<int>, used: nat) {
    var r := DecodeStripTailLen(e, d);
    r.Some? && r.value.0 == text && r.value.1 == used
  }

  lemma CutYields(e: Encoding, t: seq<int>, c: int, n: nat)
    requires IsText(e, t) && IsChar(e, c) && n < |Bytes(e, c)|
    ensures Yields(e, Encoded(e, t) + Bytes(e, c)[..n], t, |Encoded(e, t)|)
  {
    var head, cut := Encoded(e, t), Bytes(e, c)[..n];
    DecodeStrictOfText(e, t, []);
    assert head + [] == head;
    if n == 0 {
      assert head + cut == head;
    } else {
      CutDoesNotDecode(e, c, n);
      assert DecodeStrict(e, cut).None?;
      DecodeStrictOfText(e, t, cut);
      TrimmedAtCut(e, head, c, n);
    }
  }

  /** Main result for one call: whatever part of valid text has arrived, its whole characters are
      returned, the length of their encoding is reported as consumed, and what is left over is less
      than one character. */
  lemma PrefixYields(e: Encoding, t: seq<int>, data: seq<byte>, later: seq<byte>)
    returns (u: seq<int>, v: seq<int>, c: seq<byte>)
    requires IsText(e, t) && data + later == Encoded(e, t)
    ensures t == u + v && IsText(e, u) && IsText(e, v)
    ensures Yields(e, data, u, |Encoded(e, u)|) && data == Encoded(e, u) + c
    ensures Encoded(e, v) == c + later && Short(e, c, v)
  {
    u, v, c := SplitText(e, t, data, later);
    if v == [] {
      assert data == Encoded(e, u) + Bytes(e, 0)[..0];
      CutYields(e, u, 0, 0);
    } else {
      assert c == (c + later)[..|c|] == Bytes(e, v[0])[..|c|];
      CutYields(e, u, v[0], |c|);
    }
  }

  datatype Feed = Feed(text: seq<int>, carry: seq<byte>)

  /** The incremental use: each chunk is decoded together with the tail the last call left. */
  function FeedAll(e: Encoding, carry: seq<byte>, chunks: seq<seq<byte>>): Option<Feed>
    decreases |chunks|
  {
    if chunks == [] then Some(Feed([], carry))
    else
      var data := carry + chunks[0];
      match DecodeStripTailLen(e, data)
      case None => None
      case Some((text, used)) =>
        if used > |data| then None
        else match FeedAll(e, data[used..], chunks[1..])
          case None => None
          case Some(f) => Some(Feed(text + f.text, f.carry))
  }

  ghost predicate Fed(r: Option<Feed>, text: seq<int>, carry: seq<byte>) {
    r.Some? && r.value.text == text && r.value.carry == carry
  }

  /** One chunk, whose whole characters are u1, and then the others. */
  lemma FeedStep(e: Encoding, t: seq<int>, carry: seq<byte>, chunks: seq<seq<byte>>,
                 u1: seq<int>, v1: seq<int>, c1: seq<byte>, u2: seq<int>, v: seq<int>, c: seq<byte>)
    requires chunks != [] && IsText(e, u1) && t == u1 + v1 && v1 == u2 + v
    requires Yields(e, carry + chunks[0], u1, |Encoded(e, u1)|) && carry + chunks[0] == Encoded(e, u1) + c1
    requires Fed(FeedAll(e, c1, chunks[1..]), u2, c)
    ensures Fed(FeedAll(e, carry, chunks), u1 + u2, c) && t == u1 + u2 + v
  {
    Behind(Encoded(e, u1), c1);
    Regroup(u1, u2, v);
  }

  lemma Behind(a: seq<byte>, b: seq<byte>)
    ensures (a + b)[|a|..] == b
  {}

  /** Main result for a stream: however the part of valid text that has arrived is cut into chunks,
      the decoded pieces concatenate to its whole characters u, and the carry c is the part of the
      one cut character that has arrived. */
  lemma {:induction false} AnyChunkingDecodes(e: Encoding, t: seq<int>, carry: seq<byte>, chunks: seq<seq<byte>>,
                                              later: seq<byte>)
    returns (u: seq<int>, v: seq<int>, c: seq<byte>)
    requires IsText(e, t) && Short(e, carry, t) && carry + (Flatten(chunks) + later) == Encoded(e, t)
    ensures Fed(FeedAll(e, carry, chunks), u, c)
    ensures t == u + v && IsText(e, v) && Encoded(e, v) == c + later && Short(e, c, v)
    decreases |chunks|
  {
    if chunks == [] {
      u, v, c := [], t, carry;
      assert [] + later == later;
    } else {
      Regroup(chunks[0], Flatten(chunks[1..]), later);
      Regroup(carry, chunks[0], Flatten(chunks[1..]) + later);
      var u1, v1, c1 := PrefixYields(e, t, carry + chunks[0], Flatten(chunks[1..]) + later);
      var u2;
      u2, v, c := AnyChunkingDecodes(e, v1, c1, chunks[1..], later);
      FeedStep(e, t, carry, chunks, u1, v1, c1, u2, v, c);
      u := u1 + u2;
    }
  }

  lemma NothingMissing(e: Encoding, v: seq<int>, c: seq<byte>)
    requires IsText(e, v) && Short(e, c, v) && Encoded(e, v) == c
    ensures v == [] && c == []
  {}

  /** In particular every chunking of a complete text gives back the text and carries nothing. */
  lemma WholeStreamDecodes(e: Encoding, t: seq<int>, chunks: seq<seq<byte>>)
    requires IsText(e, t) && Flatten(chunks) == Encoded(e, t)
    ensures Fed(FeedAll(e, [], chunks), t, [])
  {
    assert [] + (Flatten(chunks) + []) == Flatten(chunks);
    var u, v, c := AnyChunkingDecodes(e, t, [], chunks, []);
    assert c + [] == c;
    NothingMissing(e, v, c);
    assert u == t;
  }
}
