/** The frame format of `TcpConnection`: big-endian header, payload, FNV-1a checksum. */
module Wire {
  type Byte = b: int | 0 <= b < 0x100
  type Word16 = w: int | 0 <= w < 0x1_0000
  type Word32 = w: int | 0 <= w < 0x1_0000_0000

  const WORD32 := 0x1_0000_0000
  const MAGIC: Word32 := 0x4D55_4F4E
  const PROTOCOL_VERSION: Word16 := 1
  const HEADER_SIZE := 12
  const CHECKSUM_SIZE := 4
  const FRAME_OVERHEAD := HEADER_SIZE + CHECKSUM_SIZE
  const MAX_PAYLOAD_SIZE := 1024 * 1024

  // ---------------------------------------------------------------- checksum

  const FNV_OFFSET: Word32 := 2166136261
  const FNV_PRIME := 16777619
  /** FNV_PRIME * FNV_INVERSE == 1 (mod 2^32) */
  const FNV_INVERSE := 899433627

  /** Bitwise exclusive or on non-negative integers. */
  function Xor(a: nat, b: nat): nat
    decreases a + b
  {
    if a == 0 && b == 0 then 0
    else (if a % 2 == b % 2 then 0 else 1) + 2 * Xor(a / 2, b / 2)
  }

  lemma {:induction false} XorCancels(a: nat, b: nat)
    ensures Xor(Xor(a, b), b) == a
    decreases a + b
  {
    if a != 0 || b != 0 {
      var x := Xor(a, b);
      XorCancels(a / 2, b / 2);
      assert x / 2 == Xor(a / 2, b / 2);
    }
  }

  lemma {:induction false} XorCommutes(a: nat, b: nat)
    ensures Xor(a, b) == Xor(b, a)
    decreases a + b
  {
    if a != 0 || b != 0 {
      XorCommutes(a / 2, b / 2);
    }
  }

  /** Xor with a byte touches only the low byte, so it stays inside every multiple of 256. */
  lemma {:induction false} XorStaysBelow(a: nat, b: nat, bits: nat, m: nat)
    requires b < Pow2(bits)
    requires a < m * Pow2(bits)
    ensures Xor(a, b) < m * Pow2(bits)
    decreases bits
  {
    if bits == 0 {
      XorZero(a);
    } else {
      var h := Pow2(bits - 1);
      assert m * Pow2(bits) == 2 * (m * h);
      XorStaysBelow(a / 2, b / 2, bits - 1, m);
    }
  }

  lemma {:induction false} XorZero(a: nat)
    ensures Xor(a, 0) == a
  {
    if a != 0 {
      XorZero(a / 2);
    }
  }

  lemma XorHalves(a: nat, b: nat)
    ensures Xor(a, b) % 2 == (a + b) % 2 && Xor(a, b) / 2 == Xor(a / 2, b / 2)
  {
  }

  /** `a` without its lowest `k` bits. */
  function Shifted(a: nat, k: nat): nat {
    if k == 0 then a else Shifted(a / 2, k - 1)
  }

  /** Bit by bit, one where exactly one of the two is. */
  lemma {:induction false} XorBit(a: nat, b: nat, k: nat)
    ensures Shifted(Xor(a, b), k) % 2 == (Shifted(a, k) + Shifted(b, k)) % 2
    decreases k
  {
    hide Xor;
    XorHalves(a, b);
    if k > 0 {
      XorBit(a / 2, b / 2, k - 1);
    }
  }

  lemma XorDouble(a: nat, b: nat, v: nat)
    requires Xor(a / 2, b / 2) == v
    ensures Xor(a, b) == (a + b) % 2 + 2 * v
  {
    XorHalves(a, b);
  }

  function Pow2(n: nat): (p: nat)
    ensures p > 0
  {
    if n == 0 then 1 else 2 * Pow2(n - 1)
  }

  function FnvStep(h: Word32, b: Byte): Word32 {
    Xor(h, b) * FNV_PRIME % WORD32
  }

  /** The checksum loop, as a left fold. */
  function Fnv(h: Word32, s: seq<Byte>): Word32
    decreases |s|
  {
    if s == [] then h else Fnv(FnvStep(h, s[0]), s[1..])
  }

  function Checksum(payload: seq<Byte>): Word32 {
    Fnv(FNV_OFFSET, payload)
  }

  method ComputeChecksum(payload: seq<Byte>) returns (hash: Word32)
    ensures hash == Checksum(payload)
  {
    hash := FNV_OFFSET;
    for i := 0 to |payload|
      invariant hash == Checksum(payload[..i])
    {
      FnvAppend(FNV_OFFSET, payload[..i], payload[i..i + 1]);
      assert payload[..i] + payload[i..i + 1] == payload[..i + 1];
      hash := Xor(hash, payload[i]) * FNV_PRIME % WORD32;
    }
    assert payload[..|payload|] == payload;
  }

  lemma {:induction false} FnvAppend(h: Word32, a: seq<Byte>, b: seq<Byte>)
    ensures Fnv(h, a + b) == Fnv(Fnv(h, a), b)
    decreases |a|
  {
    if a == [] {
      assert a + b == b;
    } else {
      assert (a + b)[1..] == a[1..] + b;
      FnvAppend(FnvStep(h, a[0]), a[1..], b);
    }
  }

  /** Multiplication by the FNV prime is undone by its inverse. */
  lemma MulInverse(x: Word32)
    ensures (x * FNV_PRIME % WORD32) * FNV_INVERSE % WORD32 == x
  {
    var q := x * FNV_PRIME / WORD32;
    var r := x * FNV_PRIME % WORD32;
    assert FNV_PRIME * FNV_INVERSE == 3513497 * WORD32 + 1;
    assert x * FNV_PRIME == q * WORD32 + r;
    assert r * FNV_INVERSE == x + WORD32 * (x * 3513497 - q * FNV_INVERSE);
    RemainderOf(x, x * 3513497 - q * FNV_INVERSE);
  }

  lemma RemainderOf(x: Word32, t: int)
    ensures (x + WORD32 * t) % WORD32 == x
  {
  }

  lemma XorWordBound(h: Word32, b: Byte)
    ensures Xor(h, b) < WORD32
  {
    assert Pow2(2) == 4 && Pow2(4) == 16 && Pow2(6) == 64 && Pow2(8) == 256;
    XorStaysBelow(h, b, 8, 0x100_0000);
  }

  /** Each step is injective in the running hash and in the byte. */
  lemma FnvStepInjective(h: Word32, b: Byte, h': Word32, b': Byte)
    requires FnvStep(h, b) == FnvStep(h', b')
    ensures b == b' ==> h == h'
    ensures h == h' ==> b == b'
  {
    XorWordBound(h, b);
    XorWordBound(h', b');
    MulInverse(Xor(h, b));
    MulInverse(Xor(h', b'));
    assert Xor(h, b) == Xor(h', b');
    if b == b' {
      XorCancels(h, b);
      XorCancels(h', b);
    }
    if h == h' {
      XorCommutes(h, b);
      XorCommutes(h, b');
      XorCancels(b, h);
      XorCancels(b', h);
    }
  }

  lemma {:induction false} FnvInjective(h: Word32, h': Word32, s: seq<Byte>)
    requires h != h'
    ensures Fnv(h, s) != Fnv(h', s)
    decreases |s|
  {
    if s != [] {
      if FnvStep(h, s[0]) == FnvStep(h', s[0]) {
        FnvStepInjective(h, s[0], h', s[0]);
      }
      FnvInjective(FnvStep(h, s[0]), FnvStep(h', s[0]), s[1..]);
    }
  }

  /** Payloads of equal length that differ in exactly one byte have different checksums. */
  lemma OneByteChangesChecksum(p: seq<Byte>, i: nat, b: Byte)
    requires i < |p| && p[i] != b
    ensures Checksum(p[i := b]) != Checksum(p)
  {
    var head, tail := p[..i], p[i + 1..];
    var h := Fnv(FNV_OFFSET, head);
    assert p == head + ([p[i]] + tail);
    assert p[i := b] == head + ([b] + tail);
    FnvAppend(FNV_OFFSET, head, [p[i]] + tail);
    FnvAppend(FNV_OFFSET, head, [b] + tail);
    assert ([p[i]] + tail)[1..] == tail && ([b] + tail)[1..] == tail;
    if FnvStep(h, p[i]) == FnvStep(h, b) {
      FnvStepInjective(h, p[i], h, b);
    }
    FnvInjective(FnvStep(h, p[i]), FnvStep(h, b), tail);
  }

  // ------------------------------------------------------------------ frames

  function U16(v: Word16): (s: seq<Byte>)
    ensures |s| == 2
  {
    [v / 0x100, v % 0x100]
  }

  function U32(v: Word32): (s: seq<Byte>)
    ensures |s| == 4
  {
    [v / 0x100_0000, v / 0x1_0000 % 0x100, v / 0x100 % 0x100, v % 0x100]
  }

  function ReadU16(s: seq<Byte>, i: nat): Word16
    requires i + 2 <= |s|
  {
    s[i] as int * 0x100 + s[i + 1]
  }

  function ReadU32(s: seq<Byte>, i: nat): Word32
    requires i + 4 <= |s|
  {
    s[i] as int * 0x100_0000 + s[i + 1] as int * 0x1_0000 + s[i + 2] as int * 0x100 + s[i + 3]
  }

  lemma ReadWrittenU32(s: seq<Byte>, i: nat, v: Word32)
    requires i + 4 <= |s|
    ensures ReadU32(s, i) == v <==> s[i..i + 4] == U32(v)
  {
    assert s[i..i + 4] == [s[i], s[i + 1], s[i + 2], s[i + 3]];
    DigitsOfWord(s[i], s[i + 1], s[i + 2], s[i + 3]);
    WordOfDigits(v);
  }

  lemma DigitsOfWord(a: Byte, b: Byte, c: Byte, d: Byte)
    ensures U32(a as int * 0x100_0000 + b as int * 0x1_0000 + c as int * 0x100 + d) == [a, b, c, d]
  {
    var r := a as int * 0x100_0000 + b as int * 0x1_0000 + c as int * 0x100 + d;
    assert r / 0x100_0000 == a;
    assert r / 0x1_0000 == a as int * 0x100 + b;
    assert r / 0x100 == a as int * 0x1_0000 + b as int * 0x100 + c;
  }

  lemma WordOfDigits(v: Word32)
    ensures var s := U32(v);
            v == s[0] as int * 0x100_0000 + s[1] as int * 0x1_0000 + s[2] as int * 0x100 + s[3]
  {
    var high, low := v / 0x1_0000, v % 0x1_0000;
    assert v / 0x100 == high * 0x100 + low / 0x100;
    assert v / 0x100_0000 == high / 0x100;
    assert v / 0x100 % 0x100 == low / 0x100;
    assert v % 0x100 == low % 0x100;
  }

  lemma ReadWrittenU16(s: seq<Byte>, i: nat, v: Word16)
    requires i + 2 <= |s|
    ensures ReadU16(s, i) == v <==> s[i..i + 2] == U16(v)
  {
    assert s[i..i + 2] == [s[i], s[i + 1]];
  }

  datatype Packet = Packet(key: Word16, payload: seq<Byte>)

  /** Packets the parser is willing to accept. */
  predicate Sendable(p: Packet) {
    |p.payload| <= MAX_PAYLOAD_SIZE
  }

  function Header(key: Word16, size: Word32): (s: seq<Byte>)
    ensures |s| == HEADER_SIZE
  {
    U32(MAGIC) + U16(PROTOCOL_VERSION) + U16(key) + U32(size)
  }

  function Frame(p: Packet): (s: seq<Byte>)
    ensures |s| == FRAME_OVERHEAD + |p.payload|
  {
    Header(p.key, |p.payload| % WORD32) + p.payload + U32(Checksum(p.payload))
  }

  /** Where everything is in a frame, byte by byte and most significant byte first. */
  lemma FrameLayout(p: Packet)
    requires |p.payload| < WORD32
    ensures var f, n := Frame(p), |p.payload|;
            && f[..4] == [0x4D, 0x55, 0x4F, 0x4E]
            && f[4..6] == [0, 1]
            && f[6] as int * 0x100 + f[7] == p.key
            && f[8] as int * 0x100_0000 + f[9] as int * 0x1_0000 + f[10] as int * 0x100 + f[11] == n
            && f[12..12 + n] == p.payload
            && |f| == 16 + n
            && f[12 + n] as int * 0x100_0000 + f[13 + n] as int * 0x1_0000 + f[14 + n] as int * 0x100 + f[15 + n]
               == Checksum(p.payload)
  {
    hide Checksum, U32, U16, Header;
    var f, n := Frame(p), |p.payload|;
    var header, sum := Header(p.key, n), U32(Checksum(p.payload));
    assert f == header + p.payload + sum;
    assert f[..4] == header[..4] && f[4..6] == header[4..6];
    assert forall i :: 0 <= i < 12 ==> f[i] == header[i];
    assert forall i :: 0 <= i < 4 ==> f[12 + n + i] == sum[i];
    HeaderLayout(p.key, n);
    WordOfDigits(Checksum(p.payload));
  }

  lemma HeaderLayout(key: Word16, size: Word32)
    ensures var h := Header(key, size);
            && h[..4] == [0x4D, 0x55, 0x4F, 0x4E]
            && h[4..6] == [0, 1]
            && h[6] as int * 0x100 + h[7] == key
            && h[8] as int * 0x100_0000 + h[9] as int * 0x1_0000 + h[10] as int * 0x100 + h[11] == size
  {
    WordOfDigits(size);
    hide U32;
    var h := Header(key, size);
    assert U32(MAGIC) == [0x4D, 0x55, 0x4F, 0x4E] by {
      MagicBytes();
    }
    assert forall i :: 0 <= i < 4 ==> h[8 + i] == U32(size)[i];
  }

  lemma MagicBytes()
    ensures U32(MAGIC) == [0x4D, 0x55, 0x4F, 0x4E]
  {
  }

  /** Test vectors of the hash: the empty payload, and the one byte "a". */
  lemma ChecksumVectors()
    ensures Checksum([]) == 0x811C_9DC5
    ensures Checksum([0x61]) == 0xE40C_292C
  {
    hide Xor;
    XorZero(0x102393B);
    XorDouble(0x2047277, 0x1, 0x102393B);
    XorDouble(0x408E4EE, 0x3, 0x2047276);
    XorDouble(0x811C9DC, 0x6, 0x408E4ED);
    XorDouble(0x102393B8, 0xC, 0x811C9DA);
    XorDouble(0x20472771, 0x18, 0x102393B4);
    XorDouble(0x408E4EE2, 0x30, 0x20472769);
    XorDouble(0x811C9DC5, 0x61, 0x408E4ED2);
    assert [0x61][1..] == [];
  }

  lemma HeaderIs(key: Word16, size: Word32)
    ensures Header(key, size) == U32(MAGIC) + U16(PROTOCOL_VERSION) + U16(key) + U32(size)
  {
  }

  /** buildFrame: fills a zero-initialised buffer in place. */
  method BuildFrame(p: Packet) returns (frame: array<Byte>)
    ensures fresh(frame)
    ensures frame[..] == Frame(p)
  {
    hide Checksum, U32, U16, Header;
    var n := |p.payload|;
    frame := new Byte[FRAME_OVERHEAD + n](_ => 0);
    WriteHeader(frame, p.key, n % WORD32);
    for i := 0 to n
      invariant frame[..12] == Header(p.key, n % WORD32)
      invariant frame[12..12 + i] == p.payload[..i]
    {
      frame[HEADER_SIZE + i] := p.payload[i];
    }
    var sum := ComputeChecksum(p.payload);
    ghost var body := frame[..12 + n];
    assert body[..12] == frame[..12] && body[12..] == frame[12..12 + n] == p.payload;
    assert body == Header(p.key, n % WORD32) + p.payload;
    WriteU32(frame, HEADER_SIZE + n, sum);
    assert frame[..] == body + U32(sum);
  }

  /** The first four writes of buildFrame. */
  method WriteHeader(a: array<Byte>, key: Word16, size: Word32)
    requires HEADER_SIZE <= a.Length
    modifies a
    ensures a[..HEADER_SIZE] == Header(key, size) && a[HEADER_SIZE..] == old(a[HEADER_SIZE..])
  {
    hide U32, U16, Header;
    ghost var rest := a[HEADER_SIZE..];
    WriteU32(a, 0, MAGIC);
    assert a[..4] == U32(MAGIC) && a[HEADER_SIZE..] == rest;
    WriteU16(a, 4, PROTOCOL_VERSION);
    assert a[..6] == U32(MAGIC) + U16(PROTOCOL_VERSION) && a[HEADER_SIZE..] == rest;
    WriteU16(a, 6, key);
    assert a[..8] == U32(MAGIC) + U16(PROTOCOL_VERSION) + U16(key) && a[HEADER_SIZE..] == rest;
    WriteU32(a, 8, size);
    HeaderIs(key, size);
  }

  method WriteU16(a: array<Byte>, at: nat, v: Word16)
    requires at + 2 <= a.Length
    modifies a
    ensures a[..] == old(a[..at]) + U16(v) + old(a[at + 2..])
  {
    a[at] := v / 0x100;
    a[at + 1] := v % 0x100;
  }

  method WriteU32(a: array<Byte>, at: nat, v: Word32)
    requires at + 4 <= a.Length
    modifies a
    ensures a[..] == old(a[..at]) + U32(v) + old(a[at + 4..])
  {
    a[at] := v / 0x100_0000;
    a[at + 1] := v / 0x1_0000 % 0x100;
    a[at + 2] := v / 0x100 % 0x100;
    a[at + 3] := v % 0x100;
  }

  // ----------------------------------------------------------------- parsing

  datatype CloseReason = BadMagic | BadVersion | Oversized | BadChecksum | SocketError

  datatype Outcome = NeedMore | Rejected(why: CloseReason) | Parsed(packet: Packet, rest: seq<Byte>)

  /** One call of tryParsePacket on the receive buffer. */
  function Parse(buf: seq<Byte>): Outcome {
    if |buf| < HEADER_SIZE then NeedMore
    else if ReadU32(buf, 0) != MAGIC then Rejected(BadMagic)
    else if ReadU16(buf, 4) != PROTOCOL_VERSION then Rejected(BadVersion)
    else
      var size := ReadU32(buf, 8);
      if size > MAX_PAYLOAD_SIZE then Rejected(Oversized)
      else if |buf| < FRAME_OVERHEAD + size then NeedMore
      else
        var payload := buf[HEADER_SIZE..HEADER_SIZE + size];
        if ReadU32(buf, HEADER_SIZE + size) != Checksum(payload) then Rejected(BadChecksum)
        else Parsed(Packet(ReadU16(buf, 6), payload), buf[FRAME_OVERHEAD + size..])
  }

  lemma HeaderReads(buf: seq<Byte>, key: Word16, size: Word32)
    requires |buf| >= HEADER_SIZE
    ensures buf[..HEADER_SIZE] == Header(key, size) <==>
            && ReadU32(buf, 0) == MAGIC && ReadU16(buf, 4) == PROTOCOL_VERSION
            && ReadU16(buf, 6) == key && ReadU32(buf, 8) == size
  {
    hide U16, U32, ReadU16, ReadU32;
    ReadWrittenU32(buf, 0, MAGIC);
    ReadWrittenU16(buf, 4, PROTOCOL_VERSION);
    ReadWrittenU16(buf, 6, key);
    ReadWrittenU32(buf, 8, size);
    var h := Header(key, size);
    assert h[0..4] == U32(MAGIC) && h[4..6] == U16(PROTOCOL_VERSION) && h[6..8] == U16(key) && h[8..12] == U32(size);
    assert buf[..12] == buf[0..4] + buf[4..6] + buf[6..8] + buf[8..12];
    if buf[..12] == h {
      assert buf[0..4] == buf[..12][0..4] && buf[4..6] == buf[..12][4..6]
          && buf[6..8] == buf[..12][6..8] && buf[8..12] == buf[..12][8..12];
    }
  }

  /** The parser accepts exactly the frames of sendable packets: parsing inverts framing, both ways. */
  lemma ParseExact(buf: seq<Byte>, p: Packet, rest: seq<Byte>)
    ensures Parse(buf) == Parsed(p, rest) <==> Sendable(p) && buf == Frame(p) + rest
  {
    hide Parse, Frame;
    if Parse(buf) == Parsed(p, rest) {
      ParseSound(buf, p, rest);
    }
    if Sendable(p) && buf == Frame(p) + rest {
      ParseComplete(p, rest);
    }
  }

  lemma ParseSound(buf: seq<Byte>, p: Packet, rest: seq<Byte>)
    requires Parse(buf) == Parsed(p, rest)
    ensures Sendable(p) && buf == Frame(p) + rest
  {
    hide U16, U32, Header, Checksum;
    var n := |p.payload|;
    var header, sum := Header(p.key, n % WORD32), Checksum(p.payload);
    HeaderReads(buf, p.key, n);
    ReadWrittenU32(buf, 12 + n, sum);
    Assemble(buf, header, p.payload, U32(sum), rest);
  }

  lemma Assemble(s: seq<Byte>, a: seq<Byte>, b: seq<Byte>, c: seq<Byte>, d: seq<Byte>)
    requires |s| == |a| + |b| + |c| + |d|
    requires s[..|a|] == a && s[|a|..|a| + |b|] == b
    requires s[|a| + |b|..|a| + |b| + |c|] == c && s[|a| + |b| + |c|..] == d
    ensures s == a + b + c + d
  {
  }

  lemma ParseComplete(p: Packet, rest: seq<Byte>)
    requires Sendable(p)
    ensures Parse(Frame(p) + rest) == Parsed(p, rest)
  {
    hide U16, U32, Header, Checksum;
    var n := |p.payload|;
    var buf := Frame(p) + rest;
    assert buf[..12] == Header(p.key, n);
    HeaderReads(buf, p.key, n);
    assert buf[12..12 + n] == p.payload;
    assert buf[12 + n..16 + n] == U32(Checksum(p.payload));
    ReadWrittenU32(buf, 12 + n, Checksum(p.payload));
    assert buf[16 + n..] == rest;
  }

  /** A verdict other than "need more" does not depend on the bytes that follow. */
  lemma ParseStable(buf: seq<Byte>, more: seq<Byte>)
    ensures Parse(buf).Parsed? ==> Parse(buf + more) == Parsed(Parse(buf).packet, Parse(buf).rest + more)
    ensures Parse(buf).Rejected? ==> Parse(buf + more) == Parse(buf)
  {
    hide Frame, Checksum;
    match Parse(buf)
    case NeedMore =>
    case Parsed(p, rest) =>
      ParseSound(buf, p, rest);
      assert buf + more == Frame(p) + (rest + more);
      ParseComplete(p, rest + more);
    case Rejected(why) =>
      if why == BadChecksum {
        var size := ReadU32(buf, 8);
        assert (buf + more)[12..12 + size] == buf[12..12 + size];
      }
  }

  /** A frame with one corrupted payload byte is rejected, whatever follows it. */
  lemma CorruptFrameRejected(p: Packet, i: nat, b: Byte, rest: seq<Byte>)
    requires Sendable(p) && i < |p.payload| && p.payload[i] != b
    ensures Parse(Frame(p)[HEADER_SIZE + i := b] + rest) == Rejected(BadChecksum)
  {
    hide U16, U32, Header, Checksum;
    var n := |p.payload|;
    var buf := Frame(p)[12 + i := b] + rest;
    assert buf[..12] == Header(p.key, n);
    HeaderReads(buf, p.key, n);
    assert buf[12..12 + n] == p.payload[i := b];
    assert buf[12 + n..16 + n] == U32(Checksum(p.payload));
    ReadWrittenU32(buf, 12 + n, Checksum(p.payload));
    OneByteChangesChecksum(p.payload, i, b);
  }

  /** A frame whose payload is too long for the receiver but fits the length field is refused. */
  lemma OversizedFrameRejected(p: Packet, rest: seq<Byte>)
    requires MAX_PAYLOAD_SIZE < |p.payload| < WORD32
    ensures Parse(Frame(p) + rest) == Rejected(Oversized)
  {
    hide U16, U32, Header, Checksum;
    var buf := Frame(p) + rest;
    assert buf[..12] == Header(p.key, |p.payload|);
    HeaderReads(buf, p.key, |p.payload|);
  }
}
