// WebSocket framing (RFC 6455, sections 5.2, 5.3 and 5.5) as the terminal
// speaks it: unfragmented masked frames in, unfragmented unmasked frames out.

module WebSocketFrames {
  import opened Sequences
  import opened Wrappers

  // Bit fields are read with / and %: b / 128 is the top bit, b % 128 the rest.
  newtype Byte = x: int | 0 <= x < 256
  type Bytes = seq<Byte>

  const MAX_CLIENT_FRAME: nat := 65536
  const MAX_CONTROL: nat := 125
  const CONTROL: Byte := 8

  datatype Error = EndOfStream | FragmentedOrReserved | Unmasked | TooLong | OversizedControl

  datatype Decoded = Frame(opcode: Byte, payload: Bytes, rest: Bytes) | Fail(error: Error)

  // ---- numbers and masks ---------------------------------------------------

  function Pow(k: nat): (p: nat)
    ensures p > 0
  {
    if k == 0 then 1 else 256 * Pow(k - 1)
  }

  // The value of big-endian bytes.
  function Value(s: Bytes): nat {
    if s == [] then 0 else 256 * Value(s[..|s| - 1]) + s[|s| - 1] as int
  }

  function BigEndian(k: nat, n: nat): (s: Bytes)
    ensures |s| == k
  {
    if k == 0 then [] else BigEndian(k - 1, n / 256) + [(n % 256) as Byte]
  }

  lemma {:induction false} ValueOfBigEndian(k: nat, n: nat)
    requires n < Pow(k)
    ensures Value(BigEndian(k, n)) == n
  {
    if k > 0 {
      ValueOfBigEndian(k - 1, n / 256);
      assert BigEndian(k, n)[..k - 1] == BigEndian(k - 1, n / 256);
    }
  }

  lemma {:induction false} BigEndianOfValue(s: Bytes)
    ensures Value(s) < Pow(|s|) && BigEndian(|s|, Value(s)) == s
  {
    if s != [] {
      BigEndianOfValue(s[..|s| - 1]);
      assert s == s[..|s| - 1] + [s[|s| - 1]];
    }
  }

  function Two(k: nat): nat { if k == 0 then 1 else 2 * Two(k - 1) }

  // Exclusive or of the k lowest bits.
  function XorBits(k: nat, a: nat, b: nat): (x: nat)
    ensures x < Two(k)
  {
    if k == 0 then 0 else (a % 2 + b % 2) % 2 + 2 * XorBits(k - 1, a / 2, b / 2)
  }

  lemma Halves(x: nat, bit: nat)
    requires bit < 2
    ensures (bit + 2 * x) / 2 == x && (bit + 2 * x) % 2 == bit
  {}

  lemma Parity(p: nat, q: nat)
    requires p < 2 && q < 2
    ensures ((p + q) % 2 + q) % 2 == p
  {}

  lemma {:induction false} XorTwice(k: nat, a: nat, b: nat)
    requires a < Two(k)
    ensures XorBits(k, XorBits(k, a, b), b) == a
  {
    if k > 0 {
      XorTwice(k - 1, a / 2, b / 2);
      var p, q, x := a % 2, b % 2, XorBits(k - 1, a / 2, b / 2);
      Halves(x, (p + q) % 2);
      Parity(p, q);
      assert XorBits(k, a, b) == (p + q) % 2 + 2 * x;
    }
  }

  // The j-th bit of x, the lowest first.
  function Bit(x: nat, j: nat): nat { if j == 0 then x % 2 else Bit(x / 2, j - 1) }

  // A bit is set where exactly one of the two has it.
  lemma {:induction false} XorAt(k: nat, a: nat, b: nat, j: nat)
    requires j < k
    ensures Bit(XorBits(k, a, b), j) == if Bit(a, j) != Bit(b, j) then 1 else 0
  {
    var bit, x := (a % 2 + b % 2) % 2, XorBits(k - 1, a / 2, b / 2);
    Halves(x, bit);
    if j > 0 { XorAt(k - 1, a / 2, b / 2, j - 1); }
  }

  lemma EightBits()
    ensures Two(8) == 256
  {
    assert Two(4) == 16;
  }

  function Xor(a: Byte, b: Byte): Byte {
    EightBits();
    XorBits(8, a as int, b as int) as Byte
  }

  function Masked(s: Bytes, mask: Bytes): (r: Bytes)
    requires |mask| == 4
    ensures |r| == |s| && forall i :: 0 <= i < |s| ==> r[i] == Xor(s[i], mask[i % 4])
  {
    seq(|s|, i requires 0 <= i < |s| => Xor(s[i], mask[i % 4]))
  }

  lemma MaskedTwice(s: Bytes, mask: Bytes)
    requires |mask| == 4
    ensures Masked(Masked(s, mask), mask) == s
  {
    forall i | 0 <= i < |s| ensures Masked(Masked(s, mask), mask)[i] == s[i] {
      EightBits();
      XorTwice(8, s[i] as int, mask[i % 4] as int);
    }
  }

  // ---- section 5.2, any frame ----------------------------------------------

  datatype Header = Header(fin: bool, reserved: Byte, opcode: Byte, masked: bool)

  datatype Parsed = Complete(header: Header, payload: Bytes, rest: Bytes) | Incomplete

  function HeaderOf(first: Byte, second: Byte): Header {
    Header(first >= 128, first % 128 / 16, first % 16, second >= 128)
  }

  // The length field: how many bytes after the second it takes.
  function Extra(second: Byte): nat {
    if second % 128 == 126 then 2 else if second % 128 == 127 then 8 else 0
  }

  function LengthOf(second: Byte, extra: Bytes): nat {
    if second % 128 < 126 then (second % 128) as int else Value(extra)
  }

  // The mask and the payload from at on.
  function ParseFrom(header: Header, n: nat, s: Bytes, at: nat): Parsed {
    var data := if header.masked then at + 4 else at;
    if |s| < data + n then Incomplete
    else
      var body := s[data..data + n];
      Complete(header, if header.masked then Masked(body, s[at..at + 4]) else body, s[data + n..])
  }

  function Parse(s: Bytes): Parsed {
    if |s| < 2 || |s| < 2 + Extra(s[1]) then Incomplete
    else
      var at := 2 + Extra(s[1]);
      ParseFrom(HeaderOf(s[0], s[1]), LengthOf(s[1], s[2..at]), s, at)
  }

  // ---- the reader ----------------------------------------------------------

  // What the reader makes of the stream.
  function Decode(s: Bytes): Decoded {
    if |s| < 2 then Fail(EndOfStream)
    else if s[0] < 128 || s[0] % 128 / 16 != 0 then Fail(FragmentedOrReserved)
    else if s[1] < 128 then Fail(Unmasked)
    else
      var at := 2 + Extra(s[1]);
      if |s| < at then Fail(EndOfStream)
      else
        var length := LengthOf(s[1], s[2..at]);
        if length > MAX_CLIENT_FRAME then Fail(TooLong)
        else if s[0] % 16 >= CONTROL && length > MAX_CONTROL then Fail(OversizedControl)
        else if |s| < at + 4 + length then Fail(EndOfStream)
        else Frame(s[0] % 16, Masked(s[at + 4..at + 4 + length], s[at..at + 4]), s[at + 4 + length..])
  }

  // Where the mask stands, and the length a masked frame announces, byte by byte.
  function MaskAt(s: Bytes): nat
    requires |s| >= 2
  {
    if s[1] == 254 then 4 else if s[1] == 255 then 10 else 2
  }

  function Announced(s: Bytes): int
    requires |s| >= 2 && |s| >= MaskAt(s) && s[1] >= 128
  {
    if s[1] == 254 then s[2] as int * 256 + s[3] as int
    else if s[1] == 255 then
      s[2] as int * 0x100_0000_0000_0000 + s[3] as int * 0x1_0000_0000_0000 + s[4] as int * 0x100_0000_0000 + s[5] as int * 0x1_0000_0000
      + s[6] as int * 0x100_0000 + s[7] as int * 0x1_0000 + s[8] as int * 0x100 + s[9] as int
    else s[1] as int - 128
  }

  lemma {:induction false} ValueNext(s: Bytes, b: Byte)
    ensures Value(s + [b]) == 256 * Value(s) + b as int
  {
    assert (s + [b])[..|s|] == s;
  }

  lemma ValueOfFour(a: Byte, b: Byte, c: Byte, d: Byte, s: Bytes)
    ensures Value(s + [a] + [b] + [c] + [d])
         == Value(s) * 0x1_0000_0000 + a as int * 0x100_0000 + b as int * 0x1_0000 + c as int * 0x100 + d as int
  {
    ValueNext(s, a);
    ValueNext(s + [a], b);
    ValueNext(s + [a] + [b], c);
    ValueNext(s + [a] + [b] + [c], d);
  }

  lemma AnnouncedIsLength(s: Bytes)
    requires |s| >= 2 && s[1] >= 128 && |s| >= MaskAt(s)
    ensures MaskAt(s) == 2 + Extra(s[1]) && Announced(s) == LengthOf(s[1], s[2..MaskAt(s)])
  {
    if s[1] == 254 {
      ValueNext([], s[2]);
      ValueNext([s[2]], s[3]);
      assert s[2..4] == [s[2]] + [s[3]] && [] + [s[2]] == [s[2]];
    } else if s[1] == 255 {
      ValueOfFour(s[2], s[3], s[4], s[5], []);
      var high := [] + [s[2]] + [s[3]] + [s[4]] + [s[5]];
      ValueOfFour(s[6], s[7], s[8], s[9], high);
      assert s[2..10] == high + [s[6]] + [s[7]] + [s[8]] + [s[9]];
    }
  }

  // The verdict in bytes: final, nothing reserved, masked, within the limits.
  lemma DecodeInBytes(s: Bytes)
    ensures Decode(s).Frame? <==>
      && |s| >= 2 && s[0] / 16 == 8 && s[1] >= 128 && |s| >= MaskAt(s) && Announced(s) <= 65536
      && (s[0] % 16 >= 8 ==> Announced(s) <= 125) && |s| >= MaskAt(s) + 4 + Announced(s)
    ensures Decode(s).Frame? ==>
      var f, at := Decode(s), MaskAt(s);
      && f.opcode == s[0] % 16 && |f.payload| == Announced(s) && f.rest == s[at + 4 + |f.payload|..]
      && forall i :: 0 <= i < |f.payload| ==> f.payload[i] == Xor(s[at + 4 + i], s[at + i % 4])
    ensures Decode(s) == Fail(FragmentedOrReserved) <==> |s| >= 2 && s[0] / 16 != 8
    ensures Decode(s) == Fail(Unmasked) <==> |s| >= 2 && s[0] / 16 == 8 && s[1] < 128
    ensures Decode(s) == Fail(TooLong) <==> |s| >= 2 && s[0] / 16 == 8 && s[1] >= 128 && |s| >= MaskAt(s) && Announced(s) > 65536
    ensures Decode(s) == Fail(OversizedControl) <==>
      && |s| >= 2 && s[0] / 16 == 8 && s[1] >= 128 && |s| >= MaskAt(s) && 125 < Announced(s) <= 65536 && s[0] % 16 >= 8
  {
    if |s| >= 2 && s[1] >= 128 {
      assert MaskAt(s) == 2 + Extra(s[1]);
      if |s| >= MaskAt(s) { AnnouncedIsLength(s); }
    }
  }

  // What it makes of t, the stream after the two bytes of the header.
  function DecodeBody(opcode: Byte, second: Byte, t: Bytes): Decoded {
    var n := Extra(second);
    if |t| < n then Fail(EndOfStream)
    else
      var length := LengthOf(second, t[..n]);
      if length > MAX_CLIENT_FRAME then Fail(TooLong)
      else if opcode >= CONTROL && length > MAX_CONTROL then Fail(OversizedControl)
      else DecodePayload(opcode, length, t[n..])
  }

  // And of u, the stream after the length.
  function DecodePayload(opcode: Byte, length: nat, u: Bytes): Decoded {
    if |u| < 4 + length then Fail(EndOfStream)
    else Frame(opcode, Masked(u[4..4 + length], u[..4]), u[4 + length..])
  }

  lemma Reslices(s: Bytes, at: nat, i: nat, j: nat)
    requires at <= |s| && i <= j && at + j <= |s|
    ensures s[at..][i..j] == s[at + i..at + j] && s[at..][j..] == s[at + j..]
  {}

  lemma PayloadOfTail(s: Bytes, at: nat, opcode: Byte, length: nat)
    requires at + 4 + length <= |s|
    ensures DecodePayload(opcode, length, s[at..])
         == Frame(opcode, Masked(s[at + 4..at + 4 + length], s[at..at + 4]), s[at + 4 + length..])
  {
    Reslices(s, at, 0, 4);
    Reslices(s, at, 4, 4 + length);
    assert s[at..][..4] == s[at..][0..4];
  }

  lemma DecodeInSteps(s: Bytes)
    requires |s| >= 2 && s[0] >= 128 && s[0] % 128 / 16 == 0 && s[1] >= 128
    ensures Decode(s) == DecodeBody(s[0] % 16, s[1], s[2..])
  {
    var n := Extra(s[1]);
    var at := 2 + n;
    if at <= |s| {
      Reslices(s, 2, 0, n);
      assert s[2..][..n] == s[2..][0..n] && s[2..][n..] == s[at..];
      var length := LengthOf(s[1], s[2..at]);
      if at + 4 + length <= |s| { PayloadOfTail(s, at, s[0] % 16, length); }
    }
  }

  class Reader {
    var stream: Bytes

    constructor (stream: Bytes)
      ensures this.stream == stream
    {
      this.stream := stream;
    }

    // io.ReadFull
    method ReadFull(n: nat) returns (r: Option<Bytes>)
      modifies this
      ensures r.Some? <==> n <= |old(stream)|
      ensures r.Some? ==> r.value == old(stream)[..n] && stream == old(stream)[n..]
      ensures r.None? ==> stream == []
    {
      if n > |stream| {
        stream := [];
        return None;
      }
      r := Some(stream[..n]);
      stream := stream[n..];
    }

    method ReadByte() returns (r: Option<Byte>)
      modifies this
      ensures r.Some? <==> old(stream) != []
      ensures r.Some? ==> r.value == old(stream)[0] && stream == old(stream)[1..]
      ensures r.None? ==> stream == []
    {
      if stream == [] { return None; }
      r := Some(stream[0]);
      stream := stream[1..];
    }

    // The extended length of 0, 2 or 8 bytes.
    method ReadLength(second: Byte) returns (length: Option<nat>)
      modifies this
      ensures length.Some? <==> Extra(second) <= |old(stream)|
      ensures length.Some? ==>
        length.value == LengthOf(second, old(stream)[..Extra(second)]) && stream == old(stream)[Extra(second)..]
    {
      var n := second % 128;
      if n == 126 {
        var raw := ReadFull(2);
        if raw.None? { return None; }
        length := Some(Value(raw.value));
      } else if n == 127 {
        var raw := ReadFull(8);
        if raw.None? { return None; }
        length := Some(Value(raw.value));
      } else {
        length := Some(n as int);
      }
    }

    method ReadPayload(length: nat) returns (payload: Option<Bytes>)
      modifies this
      ensures payload.Some? <==> 4 + length <= |old(stream)|
      ensures payload.Some? ==>
        payload.value == Masked(old(stream)[4..4 + length], old(stream)[..4]) && stream == old(stream)[4 + length..]
    {
      var mask := ReadFull(4);
      if mask.None? { return None; }
      var raw := ReadFull(length);
      if raw.None? { return None; }
      var buffer := new Byte[length](i requires 0 <= i < |raw.value| => raw.value[i]);
      Unmask(buffer, mask.value);
      assert raw.value == old(stream)[4..4 + length];
      payload := Some(buffer[..]);
    }

    method ReadBody(opcode: Byte, second: Byte) returns (r: Decoded)
      modifies this
      ensures r == DecodeBody(opcode, second, old(stream)) && (r.Frame? ==> stream == r.rest)
    {
      var length := ReadLength(second);
      if length.None? { return Fail(EndOfStream); }
      if length.value > MAX_CLIENT_FRAME { return Fail(TooLong); }
      if opcode >= CONTROL && length.value > MAX_CONTROL { return Fail(OversizedControl); }
      var payload := ReadPayload(length.value);
      if payload.None? { return Fail(EndOfStream); }
      r := Frame(opcode, payload.value, stream);
    }

    method ReadClientFrame() returns (r: Decoded)
      modifies this
      ensures r == Decode(old(stream)) && (r.Frame? ==> stream == r.rest)
      ensures r.Frame? <==>
        var s := old(stream);
        && |s| >= 2 && s[0] / 16 == 8 && s[1] >= 128 && |s| >= MaskAt(s) && Announced(s) <= 65536
        && (s[0] % 16 >= 8 ==> Announced(s) <= 125) && |s| >= MaskAt(s) + 4 + Announced(s)
      ensures r.Frame? ==>
        var s, at := old(stream), MaskAt(old(stream));
        && r.opcode == s[0] % 16 && |r.payload| == Announced(s) && stream == s[at + 4 + |r.payload|..]
        && forall i :: 0 <= i < |r.payload| ==> r.payload[i] == Xor(s[at + 4 + i], s[at + i % 4])
      ensures r == Fail(FragmentedOrReserved) <==> |old(stream)| >= 2 && old(stream)[0] / 16 != 8
      ensures r == Fail(Unmasked) <==> |old(stream)| >= 2 && old(stream)[0] / 16 == 8 && old(stream)[1] < 128
    {
      DecodeInBytes(stream);
      ghost var s := stream;
      var first := ReadByte();
      if first.None? { return Fail(EndOfStream); }
      var second := ReadByte();
      if second.None? { return Fail(EndOfStream); }
      assert s[0] == first.value && s[1] == second.value && stream == s[2..];
      if first.value < 128 || first.value % 128 / 16 != 0 { return Fail(FragmentedOrReserved); }
      if second.value < 128 { return Fail(Unmasked); }
      DecodeInSteps(s);
      r := ReadBody(first.value % 16, second.value);
    }
  }

  method Unmask(payload: array<Byte>, mask: Bytes)
    requires |mask| == 4
    modifies payload
    ensures payload[..] == Masked(old(payload[..]), mask)
  {
    for i := 0 to payload.Length
      invariant forall k :: 0 <= k < i ==> payload[k] == Xor(old(payload[k]), mask[k % 4])
      invariant forall k :: i <= k < payload.Length ==> payload[k] == old(payload[k])
    {
      payload[i] := Xor(payload[i], mask[i % 4]);
    }
  }

  // The reader accepts exactly the frames of section 5.2 that are final, have no
  // reserved bit, are masked and stay within the limits, in any of the three
  // length forms.
  lemma ReaderAcceptsExactly(s: Bytes, opcode: Byte, payload: Bytes, rest: Bytes)
    ensures Decode(s) == Frame(opcode, payload, rest)
      <==> Parse(s) == Complete(Header(true, 0, opcode, true), payload, rest)
           && |payload| <= 65536 && (opcode >= 8 ==> |payload| <= 125)
  {}

  lemma SameSlices(s: Bytes, more: Bytes, i: nat, j: nat)
    requires i <= j <= |s|
    ensures (s + more)[i..j] == s[i..j] && (s + more)[j..] == s[j..] + more
  {}

  lemma LongerFrame(s: Bytes, more: Bytes, at: nat, length: nat)
    requires |s| >= 2 && at == 2 + Extra(s[1]) && at + 4 + length <= |s| && length == LengthOf(s[1], s[2..at])
    requires Decode(s).Frame?
    ensures Decode(s + more) == Frame(Decode(s).opcode, Decode(s).payload, Decode(s).rest + more)
  {
    SameSlices(s, more, 2, at);
    SameSlices(s, more, at, at + 4);
    SameSlices(s, more, at + 4, at + 4 + length);
    assert (s + more)[0] == s[0] && (s + more)[1] == s[1];
  }

  // More bytes never change a verdict that did not wait for them.
  lemma VerdictStays(s: Bytes, more: Bytes)
    requires Decode(s) != Fail(EndOfStream)
    ensures Decode(s + more) == if Decode(s).Frame? then Decode(s).(rest := Decode(s).rest + more) else Decode(s)
  {
    var at := 2 + Extra(s[1]);
    assert (s + more)[0] == s[0] && (s + more)[1] == s[1];
    if Decode(s).Frame? {
      LongerFrame(s, more, at, LengthOf(s[1], s[2..at]));
    } else if at <= |s| {
      SameSlices(s, more, 2, at);
    }
  }

  // ---- printing ------------------------------------------------------------

  datatype Form = Short | Medium | Long

  predicate Fits(form: Form, n: nat) {
    match form
    case Short => n <= 125
    case Medium => n < Pow(2)
    case Long => n < Pow(8)
  }

  // The second byte and the extended length.
  function LengthField(form: Form, n: nat, mask: bool): Bytes
    requires Fits(form, n)
  {
    var flag: int := if mask then 128 else 0;
    match form
    case Short => [(flag + n) as Byte]
    case Medium => [(flag + 126) as Byte] + BigEndian(2, n)
    case Long => [(flag + 127) as Byte] + BigEndian(8, n)
  }

  function Body(payload: Bytes, mask: Option<Bytes>): Bytes
    requires mask.Some? ==> |mask.value| == 4
  {
    if mask.Some? then mask.value + Masked(payload, mask.value) else payload
  }

  // A final frame without reserved bits, masked when a mask is given.
  function Printed(opcode: Byte, payload: Bytes, form: Form, mask: Option<Bytes>): Bytes
    requires opcode < 16 && Fits(form, |payload|) && (mask.Some? ==> |mask.value| == 4)
  {
    [128 + opcode] + LengthField(form, |payload|, mask.Some?) + Body(payload, mask)
  }

  lemma FirstAndTail(first: Byte, tail: Bytes, all: Bytes)
    requires all == [first] + tail
    ensures |all| == 1 + |tail| && all[0] == first && all[1..] == tail
  {}

  lemma FieldParses(form: Form, n: nat, mask: bool)
    requires Fits(form, n)
    ensures var f := LengthField(form, n, mask);
      && |f| == 1 + Extra(f[0]) && LengthOf(f[0], f[1..]) == n && (f[0] >= 128 <==> mask)
  {
    var f := LengthField(form, n, mask);
    match form
    case Short =>
    case Medium => ExtendedParses(f, if mask then 254 else 126, BigEndian(2, n), n);
    case Long => ExtendedParses(f, if mask then 255 else 127, BigEndian(8, n), n);
  }

  lemma ExtendedParses(f: Bytes, second: Byte, extra: Bytes, n: nat)
    requires f == [second] + extra && (second % 128 == 126 || second % 128 == 127) && |extra| == Extra(second)
    requires n < Pow(|extra|) && extra == BigEndian(|extra|, n)
    ensures |f| == 1 + Extra(f[0]) && f[0] == second && LengthOf(f[0], f[1..]) == n
  {
    ValueOfBigEndian(|extra|, n);
    FirstAndTail(second, extra, f);
  }

  lemma HeadParses(s: Bytes, opcode: Byte, field: Bytes, n: nat, masked: bool, tail: Bytes)
    requires opcode < 16 && |field| >= 1 && |field| == 1 + Extra(field[0]) && LengthOf(field[0], field[1..]) == n
    requires (field[0] >= 128 <==> masked) && s == [128 + opcode] + field + tail
    ensures |s| >= 2 && 1 + |field| == 2 + Extra(s[1]) && HeaderOf(s[0], s[1]) == Header(true, 0, opcode, masked)
    ensures LengthOf(s[1], s[2..2 + Extra(s[1])]) == n && s[1 + |field|..] == tail
  {
    assert s[0] == 128 + opcode && s[1] == field[0] && s[2..1 + |field|] == field[1..];
  }

  lemma BodyParses(s: Bytes, at: nat, payload: Bytes, mask: Option<Bytes>, suffix: Bytes)
    requires at <= |s| && (mask.Some? ==> |mask.value| == 4) && s[at..] == Body(payload, mask) + suffix
    ensures var data, n := if mask.Some? then at + 4 else at, |payload|;
      && |s| >= data + n && s[data + n..] == suffix
      && (mask.Some? ==> s[at..data] == mask.value && Masked(s[data..data + n], mask.value) == payload)
      && (mask.None? ==> s[data..data + n] == payload)
  {
    var n, tail := |payload|, s[at..];
    if mask.Some? {
      MaskedTwice(payload, mask.value);
      assert s[at..at + 4] == tail[..4] == mask.value;
      assert s[at + 4..at + 4 + n] == tail[4..4 + n] == Masked(payload, mask.value);
      assert s[at + 4 + n..] == tail[4 + n..] == suffix;
    } else {
      assert s[at..at + n] == tail[..n] == payload;
      assert s[at + n..] == tail[n..] == suffix;
    }
  }

  lemma ParsesFrom(s: Bytes, at: nat, header: Header, payload: Bytes, mask: Option<Bytes>, suffix: Bytes)
    requires at <= |s| && header.masked == mask.Some? && (mask.Some? ==> |mask.value| == 4)
    requires s[at..] == Body(payload, mask) + suffix
    ensures ParseFrom(header, |payload|, s, at) == Complete(header, payload, suffix)
  {
    BodyParses(s, at, payload, mask, suffix);
  }

  lemma ParseAt(s: Bytes, at: nat, header: Header, n: nat)
    requires |s| >= 2 && at == 2 + Extra(s[1]) <= |s| && HeaderOf(s[0], s[1]) == header && LengthOf(s[1], s[2..at]) == n
    ensures Parse(s) == ParseFrom(header, n, s, at)
  {}

  lemma ParseParts(s: Bytes, at: nat, header: Header, payload: Bytes, mask: Option<Bytes>, suffix: Bytes)
    requires |s| >= 2 && at == 2 + Extra(s[1]) <= |s| && HeaderOf(s[0], s[1]) == header && header.masked == mask.Some?
    requires LengthOf(s[1], s[2..at]) == |payload| && (mask.Some? ==> |mask.value| == 4)
    requires s[at..] == Body(payload, mask) + suffix
    ensures Parse(s) == Complete(header, payload, suffix)
  {
    ParseAt(s, at, header, |payload|);
    ParsesFrom(s, at, header, payload, mask, suffix);
  }

  // Whatever is printed, followed by anything, parses back.
  lemma PrintedParses(opcode: Byte, payload: Bytes, form: Form, mask: Option<Bytes>, suffix: Bytes)
    requires opcode < 16 && Fits(form, |payload|) && (mask.Some? ==> |mask.value| == 4)
    ensures Parse(Printed(opcode, payload, form, mask) + suffix) == Complete(Header(true, 0, opcode, mask.Some?), payload, suffix)
  {
    var f, body := LengthField(form, |payload|, mask.Some?), Body(payload, mask);
    var s := Printed(opcode, payload, form, mask) + suffix;
    FieldParses(form, |payload|, mask.Some?);
    Associates([128 + opcode] + f, body, suffix);
    HeadParses(s, opcode, f, |payload|, mask.Some?, body + suffix);
    ParseParts(s, 1 + |f|, Header(true, 0, opcode, mask.Some?), payload, mask, suffix);
  }

  lemma FieldPrints(second: Byte, extra: Bytes) returns (form: Form)
    requires |extra| == Extra(second)
    ensures Fits(form, LengthOf(second, extra))
    ensures LengthField(form, LengthOf(second, extra), second >= 128) == [second] + extra
  {
    form := if second % 128 == 126 then Medium else if second % 128 == 127 then Long else Short;
    BigEndianOfValue(extra);
    if form.Short? { assert [second] + extra == [second]; }
  }

  lemma BodyPrints(s: Bytes, at: nat, n: nat, masked: bool) returns (mask: Option<Bytes>)
    requires |s| >= at + n + if masked then 4 else 0
    ensures mask.Some? == masked && (mask.Some? ==> |mask.value| == 4)
    ensures var data := if masked then at + 4 else at;
      var body := s[data..data + n];
      && (masked ==> mask.value == s[at..at + 4])
      && s[at..] == Body(if masked then Masked(body, mask.value) else body, mask) + s[data + n..]
  {
    if masked {
      mask := Some(s[at..at + 4]);
      MaskedTwice(s[at + 4..at + 4 + n], mask.value);
      assert s[at..] == s[at..at + 4] + s[at + 4..at + 4 + n] + s[at + 4 + n..];
    } else {
      mask := None;
      assert s[at..] == s[at..at + n] + s[at + n..];
    }
  }

  lemma ThreeParts(s: Bytes, at: nat, field: Bytes, tail: Bytes)
    requires 2 <= at <= |s| && field == [s[1]] + s[2..at] && tail == s[at..]
    ensures s == [s[0]] + field + tail
  {}

  lemma HeadPrints(s: Bytes, at: nat, form: Form, payload: Bytes, mask: Option<Bytes>, rest: Bytes)
    requires 2 <= at <= |s| && s[0] >= 128 && s[0] % 128 / 16 == 0
    requires Fits(form, |payload|) && (mask.Some? ==> |mask.value| == 4)
    requires LengthField(form, |payload|, mask.Some?) == [s[1]] + s[2..at] && s[at..] == Body(payload, mask) + rest
    ensures s == Printed(s[0] % 16, payload, form, mask) + rest
  {
    var field, body := LengthField(form, |payload|, mask.Some?), Body(payload, mask);
    ThreeParts(s, at, field, body + rest);
    Associates([s[0]] + field, body, rest);
    assert s[0] == 128 + s[0] % 16;
  }

  lemma FormOf(s: Bytes) returns (form: Form)
    requires Parse(s).Complete?
    ensures var p := Parse(s);
      Fits(form, |p.payload|) && LengthField(form, |p.payload|, p.header.masked) == [s[1]] + s[2..2 + Extra(s[1])]
  {
    form := FieldPrints(s[1], s[2..2 + Extra(s[1])]);
  }

  lemma MaskOf(s: Bytes) returns (mask: Option<Bytes>)
    requires Parse(s).Complete?
    ensures mask.Some? == Parse(s).header.masked && (mask.Some? ==> |mask.value| == 4)
    ensures s[2 + Extra(s[1])..] == Body(Parse(s).payload, mask) + Parse(s).rest
  {
    var at := 2 + Extra(s[1]);
    mask := BodyPrints(s, at, LengthOf(s[1], s[2..at]), Parse(s).header.masked);
  }

  // Whatever parses as a final frame without reserved bits was printed from its
  // opcode and payload, with some mask and length form.
  lemma ParsedIsPrinted(s: Bytes) returns (form: Form, mask: Option<Bytes>)
    requires Parse(s).Complete? && Parse(s).header.fin && Parse(s).header.reserved == 0
    ensures var p := Parse(s);
      && p.header.opcode < 16 && Fits(form, |p.payload|) && (mask.Some? ==> |mask.value| == 4) && mask.Some? == p.header.masked
      && s == Printed(p.header.opcode, p.payload, form, mask) + p.rest
  {
    form := FormOf(s);
    mask := MaskOf(s);
    HeadPrints(s, 2 + Extra(s[1]), form, Parse(s).payload, mask, Parse(s).rest);
  }

  // A client's masked frame within the limits is read back, whatever follows.
  lemma ReaderReadsPrinted(opcode: Byte, payload: Bytes, form: Form, mask: Bytes, suffix: Bytes)
    requires opcode < 16 && Fits(form, |payload|) && |mask| == 4
    requires |payload| <= 65536 && (opcode >= 8 ==> |payload| <= 125)
    ensures Decode(Printed(opcode, payload, form, Some(mask)) + suffix) == Frame(opcode, payload, suffix)
  {
    PrintedParses(opcode, payload, form, Some(mask), suffix);
    ReaderAcceptsExactly(Printed(opcode, payload, form, Some(mask)) + suffix, opcode, payload, suffix);
  }

  // ---- the writer ----------------------------------------------------------

  function Shortest(n: nat): Form { if n < 126 then Short else if n <= 65535 then Medium else Long }

  // From before to after some of s was written; all of it when ok.
  predicate Sent(before: Bytes, after: Bytes, s: Bytes, ok: bool) {
    before <= after <= before + s && (ok ==> after == before + s)
  }

  lemma SentThen(a: Bytes, b: Bytes, c: Bytes, s: Bytes, t: Bytes, ok: bool)
    requires Sent(a, b, s, true) && Sent(b, c, t, ok)
    ensures Sent(a, c, s + t, ok)
  {
    assert a + s + t == a + (s + t);
  }

  lemma SentPart(a: Bytes, b: Bytes, s: Bytes, t: Bytes)
    requires Sent(a, b, s, false)
    ensures Sent(a, b, s + t, false)
  {
    assert a + s + t == a + (s + t);
  }

  // The buffered writer under the frame writer. A write may fail; some of its bytes
  // may then have been taken.
  // The head of an unmasked frame, byte by byte.
  function Sized(opcode: Byte, n: nat): Bytes
    requires n < 0x1_0000_0000_0000_0000
  {
    [128 + opcode % 16]
    + if n < 126 then [n as Byte]
      else if n <= 65535 then [126, (n / 256) as Byte, (n % 256) as Byte]
      else [127, (n / 0x100_0000_0000_0000) as Byte, (n / 0x1_0000_0000_0000 % 256) as Byte, (n / 0x100_0000_0000 % 256) as Byte,
            (n / 0x1_0000_0000 % 256) as Byte, (n / 0x100_0000 % 256) as Byte, (n / 0x1_0000 % 256) as Byte, (n / 0x100 % 256) as Byte,
            (n % 256) as Byte]
  }

  lemma EightPowers()
    ensures Pow(2) == 0x1_0000 && Pow(8) == 0x1_0000_0000_0000_0000
  {
    assert Pow(0) == 1 && Pow(1) == 256;
    assert Pow(4) == 0x1_0000_0000 && Pow(6) == 0x1_0000_0000_0000;
  }

  lemma BigEndianTwo(n: nat)
    requires n < 0x1_0000
    ensures BigEndian(2, n) == [(n / 256) as Byte, (n % 256) as Byte]
  {
    assert BigEndian(1, n / 256) == [(n / 256) as Byte] by { assert BigEndian(0, n / 256 / 256) == []; }
  }

  lemma BigEndianFour(k: nat, n: nat)
    ensures BigEndian(k + 4, n) == BigEndian(k, n / 0x1_0000_0000)
                                   + [(n / 0x100_0000 % 256) as Byte, (n / 0x1_0000 % 256) as Byte, (n / 0x100 % 256) as Byte, (n % 256) as Byte]
  {
    assert n / 256 / 256 == n / 0x1_0000 && n / 0x1_0000 / 256 == n / 0x100_0000 && n / 0x100_0000 / 256 == n / 0x1_0000_0000;
    assert BigEndian(k + 2, n / 256 / 256) == BigEndian(k, n / 0x1_0000_0000) + [(n / 0x100_0000 % 256) as Byte] + [(n / 0x1_0000 % 256) as Byte];
    assert BigEndian(k + 4, n) == BigEndian(k + 2, n / 256 / 256) + [(n / 0x100 % 256) as Byte] + [(n % 256) as Byte];
  }

  lemma HighQuotients(n: nat)
    requires n < 0x1_0000_0000_0000_0000
    ensures var high := n / 0x1_0000_0000;
      && high / 0x100_0000 % 256 == n / 0x100_0000_0000_0000 < 256
      && high / 0x1_0000 == n / 0x1_0000_0000_0000 && high / 0x100 == n / 0x100_0000_0000
  {}

  lemma BigEndianEight(n: nat)
    requires n < 0x1_0000_0000_0000_0000
    ensures BigEndian(8, n)
         == [(n / 0x100_0000_0000_0000) as Byte, (n / 0x1_0000_0000_0000 % 256) as Byte, (n / 0x100_0000_0000 % 256) as Byte,
             (n / 0x1_0000_0000 % 256) as Byte, (n / 0x100_0000 % 256) as Byte, (n / 0x1_0000 % 256) as Byte, (n / 0x100 % 256) as Byte,
             (n % 256) as Byte]
  {
    var high := n / 0x1_0000_0000;
    BigEndianFour(4, n);
    BigEndianFour(0, high);
    HighQuotients(n);
    assert BigEndian(0, high / 0x1_0000_0000) == [];
  }

  lemma SizedIsPrinted(opcode: Byte, payload: Bytes)
    requires |payload| < Pow(8)
    ensures |payload| < 0x1_0000_0000_0000_0000 && Fits(Shortest(|payload|), |payload|)
    ensures Printed(opcode % 16, payload, Shortest(|payload|), None) == Sized(opcode, |payload|) + payload
  {
    var n := |payload|;
    EightPowers();
    if n <= 65535 { BigEndianTwo(n); } else { BigEndianEight(n); }
  }

  class Writer {
    var out: Bytes

    constructor ()
      ensures out == []
    {
      out := [];
    }

    method Write(s: Bytes) returns (ok: bool)
      modifies this
      ensures Sent(old(out), out, s, ok)
    {
      ok := *;
      var taken: nat :| taken <= |s| && (ok ==> taken == |s|);
      out := out + s[..taken];
    }

    method WriteLong(marker: Byte, extended: Bytes) returns (ok: bool)
      modifies this
      ensures Sent(old(out), out, [marker] + extended, ok)
    {
      ok := Write([marker]);
      if !ok {
        SentPart(old(out), out, [marker], extended);
        return;
      }
      ghost var middle := out;
      ok := Write(extended);
      SentThen(old(out), middle, out, [marker], extended, ok);
    }

    method WriteLength(length: nat) returns (ok: bool)
      requires length < Pow(8)
      modifies this
      ensures Fits(Shortest(length), length) && Sent(old(out), out, LengthField(Shortest(length), length, false), ok)
    {
      assert Pow(2) == 65536 by { assert Pow(0) == 1 && Pow(1) == 256; }
      if length < 126 {
        ok := Write([length as Byte]);
      } else if length <= 65535 {
        ok := WriteLong(126, BigEndian(2, length));
      } else {
        ok := WriteLong(127, BigEndian(8, length));
      }
    }

    method WriteHead(opcode: Byte, length: nat) returns (ok: bool)
      requires length < Pow(8)
      modifies this
      ensures Fits(Shortest(length), length)
      ensures Sent(old(out), out, [128 + opcode % 16] + LengthField(Shortest(length), length, false), ok)
    {
      var first := [128 + opcode % 16];
      ok := Write(first);
      ghost var middle := out;
      ShortestFits(length);
      if !ok {
        SentPart(old(out), out, first, LengthField(Shortest(length), length, false));
        return;
      }
      ok := WriteLength(length);
      SentThen(old(out), middle, out, first, LengthField(Shortest(length), length, false), ok);
    }

    // ok: every write and the flush succeeded.
    method WriteFrame(opcode: Byte, payload: Bytes) returns (ok: bool)
      requires |payload| < Pow(8)
      modifies this
      ensures Fits(Shortest(|payload|), |payload|)
      ensures Sent(old(out), out, Printed(opcode % 16, payload, Shortest(|payload|), None), ok)
      ensures old(out) <= out
      ensures ok ==> out == old(out) + Sized(opcode, |payload|) + payload
    {
      SizedIsPrinted(opcode, payload);
      ok := WriteHead(opcode, |payload|);
      ghost var middle, head := out, [128 + opcode % 16] + LengthField(Shortest(|payload|), |payload|, false);
      if !ok {
        SentPart(old(out), out, head, payload);
        return;
      }
      if |payload| != 0 { ok := Write(payload); }
      SentThen(old(out), middle, out, head, payload, ok);
      var flushed := *;
      ok := ok && flushed;
    }
  }

  lemma ShortestFits(n: nat)
    requires n < Pow(8)
    ensures Fits(Shortest(n), n)
  {
    assert Pow(2) == 65536 by { assert Pow(0) == 1 && Pow(1) == 256; }
  }

  // The writer's frame parses back to its opcode and payload, whatever follows,
  // and no other length form is shorter.
  lemma WriterIsShortest(opcode: Byte, payload: Bytes, form: Form, suffix: Bytes)
    requires opcode < 16 && Fits(form, |payload|)
    ensures Fits(Shortest(|payload|), |payload|)
    ensures var written := Printed(opcode, payload, Shortest(|payload|), None);
      && Parse(written + suffix) == Complete(Header(true, 0, opcode, false), payload, suffix)
      && |written| <= |Printed(opcode, payload, form, None)|
      && (form != Shortest(|payload|) ==> |written| < |Printed(opcode, payload, form, None)|)
  {
    assert Pow(2) == 65536 by { assert Pow(0) == 1 && Pow(1) == 256; }
    PrintedParses(opcode, payload, Shortest(|payload|), None, suffix);
  }
}
