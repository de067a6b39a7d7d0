/** WebSocket frames as the embedded signaling server writes and reads them: base framing and
    masking, sections 5.2 and 5.3 of RFC 6455. */
module WsFrame {

  type byte = n: nat | n < 256

  datatype Option<+T> = None | Some(value: T)

  /** A decoded frame and how many bytes of the buffer it took. */
  datatype Frame = Frame(payload: seq<byte>, consumed: nat, opcode: nat)

  const SAFE_INTEGER: nat := 0x20_0000_0000_0000

  // ----- bytes and numbers -----

  function Pow2(k: nat): nat {
    if k == 0 then 1 else 2 * Pow2(k - 1)
  }

  /** Exclusive or of the low `bits` bits of two numbers. */
  function XorBits(a: nat, b: nat, bits: nat): (r: nat)
    ensures r < Pow2(bits)
  {
    if bits == 0 then 0 else (if a % 2 == b % 2 then 0 else 1) + 2 * XorBits(a / 2, b / 2, bits - 1)
  }

  lemma {:induction false} XorBitsTwice(a: nat, k: nat, bits: nat)
    requires a < Pow2(bits)
    ensures XorBits(XorBits(a, k, bits), k, bits) == a
  {
    if bits > 0 {
      XorBitsTwice(a / 2, k / 2, bits - 1);
      var x := XorBits(a, k, bits);
      assert x / 2 == XorBits(a / 2, k / 2, bits - 1);
      assert x % 2 == (if a % 2 == k % 2 then 0 else 1);
      assert a == a % 2 + 2 * (a / 2);
    }
  }

  /** Bit `i` of a number, the lowest being bit 0. */
  function Bit(n: nat, i: nat): nat {
    if i == 0 then n % 2 else Bit(n / 2, i - 1)
  }

  lemma {:induction false} BitsOfXor(a: nat, b: nat, bits: nat, i: nat)
    requires i < bits
    ensures Bit(XorBits(a, b, bits), i) == if Bit(a, i) == Bit(b, i) then 0 else 1
  {
    var x := XorBits(a, b, bits);
    assert x / 2 == XorBits(a / 2, b / 2, bits - 1) && x % 2 == (if a % 2 == b % 2 then 0 else 1);
    if i > 0 { BitsOfXor(a / 2, b / 2, bits - 1, i - 1); }
  }

  lemma Pow2Of8()
    ensures Pow2(8) == 256
  {
    assert Pow2(4) == 16;
  }

  function Xor(a: byte, b: byte): byte {
    Pow2Of8();
    XorBits(a, b, 8)
  }

  lemma XorTwice(a: byte, k: byte)
    ensures Xor(Xor(a, k), k) == a
  {
    Pow2Of8();
    XorBitsTwice(a, k, 8);
  }

  /** `b | 0x80` on a byte. */
  function WithFin(b: byte): byte {
    if b >= 128 then b else b + 128
  }

  function Pow256(k: nat): nat {
    if k == 0 then 1 else 256 * Pow256(k - 1)
  }

  /** The low `k` bytes of `n`, most significant first. */
  function WriteBE(n: nat, k: nat): (s: seq<byte>)
    ensures |s| == k
  {
    if k == 0 then [] else WriteBE(n / 256, k - 1) + [n % 256]
  }

  function ReadBE(s: seq<byte>): nat {
    if s == [] then 0 else 256 * ReadBE(s[..|s| - 1]) + s[|s| - 1]
  }

  lemma {:induction false} ReadWriteBE(n: nat, k: nat)
    requires n < Pow256(k)
    ensures ReadBE(WriteBE(n, k)) == n
  {
    if k > 0 {
      ReadWriteBE(n / 256, k - 1);
      var s := WriteBE(n, k);
      assert s[..|s| - 1] == WriteBE(n / 256, k - 1);
    }
  }

  /** The spacing of doubles around `n`. */
  function Spacing(n: nat): (u: nat)
    ensures u >= 1
  {
    if n < SAFE_INTEGER then 1 else 2 * Spacing(n / 2)
  }

  /** `Number(n)` for a big integer: exact below 2^53, else rounded to the nearest double with ties
      to even. */
  function Number(n: nat): (r: nat)
    ensures n < SAFE_INTEGER ==> r == n
  {
    if n < SAFE_INTEGER then n else
    var unit := Spacing(n);
    var q, r := n / unit, n % unit;
    if 2 * r > unit || (2 * r == unit && q % 2 == 1) then (q + 1) * unit else q * unit
  }

  // ----- writing -----

  function LengthField(len: nat): (field: seq<byte>)
    ensures |field| >= 1 && field[0] < 128
  {
    if len < 126 then [len]
    else if len < 65536 then [126] + WriteBE(len, 2)
    else [127] + WriteBE(len, 8)
  }

  function Encode(payload: seq<byte>, opcode: byte): seq<byte> {
    [WithFin(opcode)] + LengthField(|payload|) + payload
  }

  /** Section 5.3: octet `i` of the payload is combined with octet `i mod 4` of the key. */
  function Masked(data: seq<byte>, key: seq<byte>): (r: seq<byte>)
    requires |key| == 4
    ensures |r| == |data|
  {
    seq(|data|, i requires 0 <= i < |data| => Xor(data[i], key[i % 4]))
  }

  /** A frame as a client sends it: mask bit set, then the key, then the masked payload. */
  function EncodeMasked(payload: seq<byte>, opcode: byte, key: seq<byte>): seq<byte>
    requires |key| == 4
  {
    var length := LengthField(|payload|);
    [WithFin(opcode)] + [length[0] + 128] + length[1..] + key + Masked(payload, key)
  }

  // ----- reading -----

  /** The part of a header that precedes the masking key. */
  datatype Header = Header(opcode: nat, masked: bool, len: nat, offset: nat)

  function ParseHeader(b: seq<byte>): (h: Option<Header>)
    ensures h.Some? ==> 2 <= h.value.offset <= |b|
  {
    if |b| < 2 then None
    else
      var opcode, masked, short := b[0] % 16, b[1] >= 128, b[1] % 128;
      if short == 126 then
        if |b| < 4 then None else Some(Header(opcode, masked, ReadBE(b[2..4]), 4))
      else if short == 127 then
        if |b| < 10 then None else Some(Header(opcode, masked, Number(ReadBE(b[2..10])), 10))
      else Some(Header(opcode, masked, short, 2))
  }

  function Parse(b: seq<byte>): (f: Option<Frame>)
    ensures f.Some? ==> 2 <= f.value.consumed <= |b|
  {
    var header := ParseHeader(b);
    if header.None? then None
    else
      var Header(opcode, masked, len, offset) := header.value;
      if !masked then
        if |b| < offset + len then None
        else Some(Frame(b[offset..offset + len], offset + len, opcode))
      else if |b| < offset + 4 || |b| < offset + 4 + len then None
      else Some(Frame(Masked(b[offset + 4..offset + 4 + len], b[offset..offset + 4]), offset + 4 + len, opcode))
  }

  // ----- stability -----

  lemma HeaderStable(b: seq<byte>, more: seq<byte>)
    requires ParseHeader(b).Some?
    ensures ParseHeader(b + more) == ParseHeader(b)
  {
    assert |b| >= 4 ==> (b + more)[2..4] == b[2..4];
    assert |b| >= 10 ==> (b + more)[2..10] == b[2..10];
  }

  /** A frame that is complete stays the same frame whatever follows it. */
  lemma ParseStable(b: seq<byte>, more: seq<byte>)
    requires Parse(b).Some?
    ensures Parse(b + more) == Parse(b)
  {
    HeaderStable(b, more);
    var h := ParseHeader(b).value;
    var start := if h.masked then h.offset + 4 else h.offset;
    assert (b + more)[start..start + h.len] == b[start..start + h.len];
    assert h.masked ==> (b + more)[h.offset..start] == b[h.offset..start];
  }

  /** No strict prefix of a frame parses. */
  lemma PrefixIsIncomplete(b: seq<byte>, k: nat)
    requires Parse(b).Some? && k < Parse(b).value.consumed
    ensures Parse(b[..k]) == None
  {
    assert b[..k] + b[k..] == b;
    if Parse(b[..k]).Some? {
      ParseStable(b[..k], b[k..]);
    }
  }

  /** The header of a frame is read from its own bytes alone. */
  lemma HeaderParsesAlone(b: seq<byte>, n: nat)
    requires ParseHeader(b).Some? && ParseHeader(b).value.offset <= n <= |b|
    ensures ParseHeader(b[..n]) == ParseHeader(b)
  {
    hide ReadBE, Number;
    assert n >= 4 ==> b[..n][2..4] == b[2..4];
    assert n >= 10 ==> b[..n][2..10] == b[2..10];
  }

  /** And so is the frame. */
  lemma FrameParsesAlone(b: seq<byte>)
    requires Parse(b).Some?
    ensures Parse(b[..Parse(b).value.consumed]) == Parse(b)
  {
    hide ParseHeader, Masked;
    var h := ParseHeader(b).value;
    var n, start := Parse(b).value.consumed, if h.masked then h.offset + 4 else h.offset;
    HeaderParsesAlone(b, n);
    assert b[..n][start..n] == b[start..n];
    assert h.masked ==> b[..n][h.offset..start] == b[h.offset..start];
  }

  // ----- round trips -----

  lemma Pow256Values()
    ensures Pow256(2) == 65536 && Pow256(8) == 0x1_0000_0000_0000_0000
  {
    assert Pow256(4) == 256 * Pow256(3) == 0x1_0000_0000;
    assert Pow256(8) == 256 * (256 * (256 * (256 * Pow256(4))));
  }

  lemma LengthFieldReads(len: nat, mask: nat, op: byte, more: seq<byte>)
    requires len < SAFE_INTEGER && mask in {0, 128}
    ensures var field := LengthField(len);
            var b := [op, field[0] + mask] + field[1..] + more;
            ParseHeader(b) == Some(Header(op % 16, mask == 128, len, 1 + |field|))
  {
    Pow256Values();
    var field := LengthField(len);
    var b := [op, field[0] + mask] + field[1..] + more;
    if 126 <= len < 65536 {
      ReadWriteBE(len, 2);
      assert b[2..4] == WriteBE(len, 2);
    } else if len >= 65536 {
      ReadWriteBE(len, 8);
      assert b[2..10] == WriteBE(len, 8);
    }
  }

  /** Reading back what was written, with any bytes after it. */
  lemma RoundTrip(payload: seq<byte>, opcode: byte, more: seq<byte>)
    requires |payload| < SAFE_INTEGER
    ensures Parse(Encode(payload, opcode) + more)
         == Some(Frame(payload, |Encode(payload, opcode)|, opcode % 16))
  {
    hide LengthField, ParseHeader;
    var field := LengthField(|payload|);
    LengthFieldReads(|payload|, 0, WithFin(opcode), payload + more);
    var b := Encode(payload, opcode) + more;
    assert b == [WithFin(opcode), field[0] + 0] + field[1..] + (payload + more);
    assert b[1 + |field|..1 + |field| + |payload|] == payload;
  }

  lemma MaskedTwice(data: seq<byte>, key: seq<byte>)
    requires |key| == 4
    ensures Masked(Masked(data, key), key) == data
  {
    forall i | 0 <= i < |data| ensures Masked(Masked(data, key), key)[i] == data[i] {
      XorTwice(data[i], key[i % 4]);
    }
  }

  /** Section 5.3, bit by bit: octet `i` differs from the original exactly in the bits that are set in
      octet `i mod 4` of the key. */
  lemma MaskedBits(data: seq<byte>, key: seq<byte>, i: nat, bit: nat)
    requires |key| == 4 && i < |data| && bit < 8
    ensures Bit(Masked(data, key)[i], bit) == if Bit(data[i], bit) == Bit(key[i % 4], bit) then 0 else 1
  {
    Pow2Of8();
    BitsOfXor(data[i], key[i % 4], 8, bit);
  }

  /** A frame masked with any key parses to the unmasked payload. */
  lemma MaskedRoundTrip(payload: seq<byte>, opcode: byte, key: seq<byte>, more: seq<byte>)
    requires |payload| < SAFE_INTEGER && |key| == 4
    ensures Parse(EncodeMasked(payload, opcode, key) + more)
         == Some(Frame(payload, |EncodeMasked(payload, opcode, key)|, opcode % 16))
  {
    hide LengthField, ParseHeader, Masked;
    var field, body := LengthField(|payload|), Masked(payload, key);
    LengthFieldReads(|payload|, 128, WithFin(opcode), key + body + more);
    var b := EncodeMasked(payload, opcode, key) + more;
    assert b == [WithFin(opcode), field[0] + 128] + field[1..] + (key + body + more);
    var start := 1 + |field|;
    assert b[start..] == key + body + more;
    assert b[start..start + 4] == key;
    assert b[start + 4..start + 4 + |payload|] == body;
    MaskedTwice(payload, key);
  }

  /** Section 5.2: the minimal number of bytes is used for the length. No unmasked frame that parses
      to the same payload is shorter than the one written. */
  lemma EncodingIsShortest(b: seq<byte>, opcode: byte)
    requires Parse(b).Some? && !ParseHeader(b).value.masked
    ensures |Encode(Parse(b).value.payload, opcode)| <= Parse(b).value.consumed
  {
    var f := Parse(b).value;
    if b[1] % 128 == 126 {
      ReadBound(b[2..4]);
      Pow256Values();
    }
  }

  lemma {:induction false} ReadBound(s: seq<byte>)
    ensures ReadBE(s) < Pow256(|s|)
  {
    if s != [] { ReadBound(s[..|s| - 1]); }
  }

  /** Two frames never start with the same bytes unless they are the same frame. */
  lemma EncodingIsPrefixFree(p: seq<byte>, op: byte, q: seq<byte>, oq: byte, x: seq<byte>, y: seq<byte>)
    requires |p| < SAFE_INTEGER && |q| < SAFE_INTEGER && op < 16 && oq < 16
    requires Encode(p, op) + x == Encode(q, oq) + y
    ensures p == q && op == oq && x == y
  {
    RoundTrip(p, op, x);
    RoundTrip(q, oq, y);
    assert x == (Encode(p, op) + x)[|Encode(p, op)|..];
    assert y == (Encode(q, oq) + y)[|Encode(q, oq)|..];
  }

  // ----- the bytes of a frame -----

  /** The two and the eight bytes from `at` on as a number, most significant byte first. */
  ghost function Uint16(b: seq<byte>, at: nat): nat
    requires at + 2 <= |b|
  {
    var high: nat, low: nat := b[at], b[at + 1];
    0x100 * high + low
  }

  ghost function Uint64(b: seq<byte>, at: nat): nat
    requires at + 8 <= |b|
  {
    0x1_0000_0000_0000 * Uint16(b, at) + 0x1_0000_0000 * Uint16(b, at + 2)
    + 0x1_0000 * Uint16(b, at + 4) + Uint16(b, at + 6)
  }

  lemma ReadTwo(b: seq<byte>, at: nat, upTo: nat)
    requires at + 2 <= upTo <= |b|
    ensures ReadBE(b[at..upTo]) == 0x1_0000 * ReadBE(b[at..upTo - 2]) + Uint16(b, upTo - 2)
  {
    assert b[at..upTo][..upTo - at - 1] == b[at..upTo - 1];
    assert b[at..upTo - 1][..upTo - at - 2] == b[at..upTo - 2];
  }

  lemma ReadsUint(b: seq<byte>, at: nat)
    ensures at + 2 <= |b| ==> ReadBE(b[at..at + 2]) == Uint16(b, at)
    ensures at + 8 <= |b| ==> ReadBE(b[at..at + 8]) == Uint64(b, at)
  {
    if at + 2 <= |b| {
      ReadTwo(b, at, at + 2);
      assert b[at..at] == [];
    }
    if at + 8 <= |b| {
      ReadTwo(b, at, at + 4);
      ReadTwo(b, at, at + 6);
      ReadTwo(b, at, at + 8);
    }
  }

  /** Section 5.2, byte by byte: FIN set, no mask, the length in the shortest of its three forms with the
      most significant byte first, and then the payload as it is. */
  ghost predicate IsServerFrame(frame: seq<byte>, payload: seq<byte>, opcode: byte) {
    var len := |payload|;
    && |frame| == len + (if len < 126 then 2 else if len < 0x1_0000 then 4 else 10)
    && frame[|frame| - len..] == payload
    && frame[0] == (if opcode < 128 then 128 + opcode else opcode)
    && (len < 126 ==> frame[1] == len)
    && (126 <= len < 0x1_0000 ==> frame[1] == 126 && Uint16(frame, 2) == len)
    && (0x1_0000 <= len ==> frame[1] == 127 && (len < 0x1_0000_0000_0000_0000 ==> Uint64(frame, 2) == len))
  }

  lemma EncodingBytes(payload: seq<byte>, opcode: byte)
    ensures IsServerFrame(Encode(payload, opcode), payload, opcode)
    ensures var frame := Encode(payload, opcode);
            |frame| >= 2 && frame[0] >= 128 && frame[0] % 16 == opcode % 16 && frame[1] < 128
  {
    hide WriteBE, ReadBE, Uint16, Uint64;
    var len, frame := |payload|, Encode(payload, opcode);
    Pow256Values();
    assert frame == [WithFin(opcode)] + (LengthField(len) + payload);
    assert frame[|frame| - len..] == payload;
    if 126 <= len < 0x1_0000 {
      ReadWriteBE(len, 2);
      ReadsUint(frame, 2);
      assert frame[2..4] == WriteBE(len, 2);
    } else if 0x1_0000 <= len < 0x1_0000_0000_0000_0000 {
      ReadWriteBE(len, 8);
      ReadsUint(frame, 2);
      assert frame[2..10] == WriteBE(len, 8);
    }
  }

  /** How many bytes of a frame precede its mask, and the length that they give. */
  ghost function LengthEnd(b: seq<byte>): nat
    requires |b| >= 2
  {
    match b[1] % 128 case 126 => 4 case 127 => 10 case _ => 2
  }

  ghost function GivenLength(b: seq<byte>): nat
    requires |b| >= 2 && |b| >= LengthEnd(b)
  {
    match b[1] % 128 case 126 => Uint16(b, 2) case 127 => Number(Uint64(b, 2)) case _ => b[1] % 128
  }

  /** A buffer holds a frame exactly when all bytes that its header announces are there; the frame is
      those bytes, and payload byte `i` is combined with key byte `i mod 4` if there is a mask. */
  lemma ParseReads(b: seq<byte>)
    ensures Parse(b).Some? <==>
              && |b| >= 2 && |b| >= LengthEnd(b)
              && |b| >= LengthEnd(b) + (if b[1] >= 128 then 4 else 0) + GivenLength(b)
    ensures Parse(b).Some? ==>
              var Frame(payload, consumed, opcode) := Parse(b).value;
              var key, masked := LengthEnd(b), b[1] >= 128;
              var start := if masked then key + 4 else key;
              && opcode == b[0] % 16 && |payload| == GivenLength(b) && consumed == start + |payload|
              && forall i | 0 <= i < |payload| ::
                   payload[i] == if masked then Xor(b[start + i], b[key + i % 4]) else b[start + i]
  {
    hide ReadBE, Uint16, Uint64, Number, Xor;
    ReadsUint(b, 2);
  }

  lemma Rounds(q: nat, r: nat, unit: nat)
    requires r < unit
    ensures var n, up := q * unit + r, (q + 1) * unit;
            && (2 * r <= unit ==> 2 * (n - q * unit) <= unit && q * unit <= n)
            && (2 * r >= unit ==> 2 * (up - n) <= unit && n <= up)
  {
    assert (q + 1) * unit == q * unit + unit;
  }

  /** A length that a double cannot hold is read as one of the nearest that it can. */
  lemma NumberIsNearest(n: nat)
    ensures 2 * (if Number(n) >= n then Number(n) - n else n - Number(n)) <= Spacing(n)
  {
    hide Spacing;
    if n >= SAFE_INTEGER {
      var unit := Spacing(n);
      Rounds(n / unit, n % unit, unit);
      assert n == n / unit * unit + n % unit;
    }
  }

  // ----- the code -----

  /** `writeUInt16BE` and `writeBigUInt64BE`: `k` bytes of `n` into `a` from position `at`. */
  method WriteInto(a: array<byte>, n: nat, at: nat, k: nat)
    requires at + k <= a.Length
    modifies a
    ensures a[..at] == old(a[..at]) && a[at + k..] == old(a[at + k..])
    ensures a[at..at + k] == WriteBE(n, k)
  {
    if k > 0 {
      WriteInto(a, n / 256, at, k - 1);
      ghost var before := a[at..at + k - 1];
      a[at + k - 1] := n % 256;
      assert a[at..at + k] == before + [n % 256];
      assert a[at + k..] == old(a[at + k - 1..])[1..];
    }
  }

  lemma HeaderBytes(header: seq<byte>, opcode: byte, len: nat)
    requires |header| >= 2 && header[0] == WithFin(opcode)
    requires header[1] == if len < 126 then len else if len < 65536 then 126 else 127
    requires header[2..] == if len < 126 then [] else WriteBE(len, if len < 65536 then 2 else 8)
    ensures header == [WithFin(opcode)] + LengthField(len)
  {
    hide WriteBE, WithFin;
    assert header == [header[0]] + ([header[1]] + header[2..]);
  }

  method CreateWSFrame(payload: seq<byte>, opcode: byte) returns (frame: seq<byte>)
    ensures frame == Encode(payload, opcode)
    ensures IsServerFrame(frame, payload, opcode)
    ensures |frame| >= 2 && frame[0] >= 128 && frame[0] % 16 == opcode % 16 && frame[1] < 128
  {
    hide WriteBE, WithFin, LengthField, IsServerFrame;
    var len := |payload|;
    var header: array<byte>;
    if len < 126 {
      header := new byte[2](_ => 0);
      header[0] := WithFin(opcode);
      header[1] := len;
      HeaderBytes(header[..], opcode, len);
    } else if len < 65536 {
      header := new byte[4](_ => 0);
      header[0] := WithFin(opcode);
      header[1] := 126;
      WriteInto(header, len, 2, 2);
      assert header[..][2..] == header[2..4];
      HeaderBytes(header[..], opcode, len);
    } else {
      header := new byte[10](_ => 0);
      header[0] := WithFin(opcode);
      header[1] := 127;
      WriteInto(header, len, 2, 8);
      assert header[..][2..] == header[2..10];
      HeaderBytes(header[..], opcode, len);
    }
    frame := header[..] + payload;
    EncodingBytes(payload, opcode);
  }

  /** The in-place unmasking loop. */
  method UnmaskInPlace(a: array<byte>, key: seq<byte>)
    requires |key| == 4
    modifies a
    ensures a[..] == Masked(old(a[..]), key)
  {
    for i := 0 to a.Length
      invariant a[..i] == Masked(old(a[..]), key)[..i]
      invariant a[i..] == old(a[i..])
    {
      a[i] := Xor(a[i], key[i % 4]);
    }
  }

  method ParseWSFrame(buffer: seq<byte>) returns (frame: Option<Frame>)
    ensures frame == Parse(buffer)
  {
    if |buffer| < 2 { return None; }
    var opcode, masked := buffer[0] % 16, buffer[1] >= 128;
    var payloadLen: nat := buffer[1] % 128;
    var offset := 2;
    if payloadLen == 126 {
      if |buffer| < 4 { return None; }
      payloadLen := ReadBE(buffer[2..4]);
      offset := 4;
    } else if payloadLen == 127 {
      if |buffer| < 10 { return None; }
      payloadLen := Number(ReadBE(buffer[2..10]));
      offset := 10;
    }
    var key: Option<seq<byte>> := None;
    if masked {
      if |buffer| < offset + 4 { return None; }
      key := Some(buffer[offset..offset + 4]);
      offset := offset + 4;
    }
    if |buffer| < offset + payloadLen { return None; }
    var payload := buffer[offset..offset + payloadLen];
    if key.Some? {
      var copy := new byte[|payload|](i requires 0 <= i < |payload| => payload[i]);
      assert copy[..] == payload;
      UnmaskInPlace(copy, key.value);
      payload := copy[..];
    }
    return Some(Frame(payload, offset + payloadLen, opcode));
  }
}
