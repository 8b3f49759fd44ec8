/** Fixed-width integers as byte strings, in both byte orders. */
module Words {
  type u8 = x: nat | x < 0x100
  type u32 = x: nat | x < 0x1_0000_0000
  type u64 = x: nat | x < U64_SIZE

  const U64_SIZE := 0x1_0000_0000_0000_0000

  function Pow256(n: nat): (r: nat)
    ensures r > 0
  {
    if n == 0 then 1 else 256 * Pow256(n - 1)
  }

  function Pow2(n: nat): (r: nat)
    ensures r > 0
  {
    if n == 0 then 1 else 2 * Pow2(n - 1)
  }

  lemma WordSizes()
    ensures Pow256(4) == 0x1_0000_0000 && Pow256(8) == U64_SIZE
  {
    assert Pow256(2) == 0x1_0000;
    assert Pow256(4) == 0x1_0000_0000;
    assert Pow256(6) == 0x1_0000_0000_0000;
  }

  /** The low `n` bytes of `v`, most significant first. */
  function BigEndian(n: nat, v: nat): (s: seq<u8>)
    ensures |s| == n
  {
    if n == 0 then [] else BigEndian(n - 1, v / 256) + [v % 256]
  }

  function FromBigEndian(s: seq<u8>): nat {
    if s == [] then 0 else 256 * FromBigEndian(s[..|s| - 1]) + s[|s| - 1]
  }

  /** The low `n` bytes of `v`, least significant first. */
  function LittleEndian(n: nat, v: nat): (s: seq<u8>)
    ensures |s| == n
  {
    if n == 0 then [] else [v % 256] + LittleEndian(n - 1, v / 256)
  }

  /** Digit `k` of `v` in base 256, counted from the least significant. */
  function Digit(v: nat, k: nat): u8 {
    if k == 0 then v % 256 else Digit(v / 256, k - 1)
  }

  /** The eight digits of a 64-bit word, each times its weight, make up the word. */
  lemma DigitsMakeWord(v: u64)
    ensures v == Digit(v, 0) as nat + Digit(v, 1) as nat * 0x100 + Digit(v, 2) as nat * 0x1_0000
                 + Digit(v, 3) as nat * 0x100_0000 + Digit(v, 4) as nat * 0x1_0000_0000
                 + Digit(v, 5) as nat * 0x100_0000_0000 + Digit(v, 6) as nat * 0x1_0000_0000_0000
                 + Digit(v, 7) as nat * 0x100_0000_0000_0000
  {
    var hi := v / 0x1_0000_0000;
    HalfWord(v);
    HalfWord(hi);
    UpperDigits(v);
    assert hi / 0x1_0000_0000 == 0;
  }

  lemma HalfWord(v: nat)
    ensures v == v / 0x1_0000_0000 * 0x1_0000_0000 + Digit(v, 0) as nat + Digit(v, 1) as nat * 0x100
                 + Digit(v, 2) as nat * 0x1_0000 + Digit(v, 3) as nat * 0x100_0000
  {
    Quarter(v);
    assert Digit(v, 1) == v / 256 % 256;
    assert Digit(v, 2) == Digit(v / 256, 1) == v / 256 / 256 % 256;
    assert Digit(v, 3) == Digit(v / 256, 2) == Digit(v / 256 / 256, 1) == v / 256 / 256 / 256 % 256;
  }

  lemma Quarter(v: nat)
    ensures v / 256 / 256 / 256 / 256 == v / 0x1_0000_0000
  {
  }

  lemma UpperDigits(v: nat)
    ensures forall k: nat :: k < 4 ==> Digit(v, k + 4) == Digit(v / 0x1_0000_0000, k)
  {
    Quarter(v);
    forall k: nat | k < 4
      ensures Digit(v, k + 4) == Digit(v / 0x1_0000_0000, k)
    {
      assert Digit(v, k + 4) == Digit(v / 256, k + 3) == Digit(v / 256 / 256, k + 2);
      assert Digit(v / 256 / 256, k + 2) == Digit(v / 256 / 256 / 256, k + 1);
    }
  }

  /** Byte `k` of the big-endian form is digit `n - 1 - k`. */
  lemma {:induction false} BigEndianAt(n: nat, v: nat, k: nat)
    requires k < n
    ensures BigEndian(n, v)[k] == Digit(v, n - 1 - k)
  {
    if k < n - 1 {
      BigEndianAt(n - 1, v / 256, k);
    }
  }

  /** Byte `k` of the little-endian form is digit `k`. */
  lemma {:induction false} LittleEndianAt(n: nat, v: nat, k: nat)
    requires k < n
    ensures LittleEndian(n, v)[k] == Digit(v, k)
  {
    if k > 0 {
      LittleEndianAt(n - 1, v / 256, k - 1);
    }
  }

  /** Four bytes as a number, the first the most significant. */
  lemma FourBytes(s: seq<u8>)
    requires |s| == 4
    ensures FromBigEndian(s) == s[0] as nat * 0x100_0000 + s[1] as nat * 0x1_0000 + s[2] as nat * 0x100 + s[3]
  {
    assert s[..3][..2] == s[..2] && s[..2][..1] == s[..1] && s[..1][..0] == [];
    assert FromBigEndian(s[..1]) == s[0];
    assert FromBigEndian(s[..2]) == 256 * FromBigEndian(s[..1]) + s[1];
    assert FromBigEndian(s[..3]) == 256 * FromBigEndian(s[..2]) + s[2];
  }

  lemma {:induction false} BigEndianRoundTrip(n: nat, v: nat)
    requires v < Pow256(n)
    ensures FromBigEndian(BigEndian(n, v)) == v
  {
    if n > 0 {
      BigEndianRoundTrip(n - 1, v / 256);
      assert BigEndian(n, v)[..n - 1] == BigEndian(n - 1, v / 256);
    }
  }

  lemma {:induction false} FromBigEndianRoundTrip(s: seq<u8>)
    ensures FromBigEndian(s) < Pow256(|s|)
    ensures BigEndian(|s|, FromBigEndian(s)) == s
  {
    if s != [] {
      FromBigEndianRoundTrip(s[..|s| - 1]);
    }
  }

  lemma {:induction false} LittleEndianInjective(n: nat, v: nat, w: nat)
    requires v < Pow256(n) && w < Pow256(n) && LittleEndian(n, v) == LittleEndian(n, w)
    ensures v == w
  {
    if n > 0 {
      assert LittleEndian(n, v)[0] == LittleEndian(n, w)[0];
      assert LittleEndian(n, v)[1..] == LittleEndian(n, w)[1..];
      LittleEndianInjective(n - 1, v / 256, w / 256);
    }
  }
}

/** The 16-byte header in front of every packet. */
module Headers {
  import opened Words

  const VERSION: u8 := 1
  const HEADER_LEN := 16

  const TYPE_MESSAGE: u8 := 1

  const HANDSHAKE_INITIATION: u8 := 0
  const HANDSHAKE_RESPONSE: u8 := 1

  datatype Header = Header(version: u8, kind: u8, subType: u8, remoteIndex: u32, counter: u64)

  datatype ParseResult = Parsed(header: Header) | TooShort(got: nat) | BadVersion(version: u8)

  type Head = s: seq<u8> | |s| == HEADER_LEN witness seq(HEADER_LEN, _ => 0)

  /** Version above, type below: the 8-bit shift drops the version's high four bits and the
      mask the type's. */
  function FirstByte(version: u8, kind: u8): u8 {
    (version % 16) * 16 + kind % 16
  }

  lemma FirstByteParts(version: u8, kind: u8)
    ensures FirstByte(version, kind) / 16 == version % 16 && FirstByte(version, kind) % 16 == kind % 16
  {
  }

  function ToBytes(h: Header): Head {
    [FirstByte(h.version, h.kind), h.subType, 0, 0] + BigEndian(4, h.remoteIndex) + BigEndian(8, h.counter)
  }

  /** Where each field is: big-endian numbers behind two single bytes and two zeros. */
  lemma BytesAt(h: Header)
    ensures var s := ToBytes(h);
            && s[0] == (h.version % 16) * 16 + h.kind % 16 && s[1] == h.subType && s[2] == s[3] == 0
            && (forall k :: 4 <= k < 8 ==> s[k] == Digit(h.remoteIndex, 7 - k))
            && (forall k :: 8 <= k < 16 ==> s[k] == Digit(h.counter, 15 - k))
  {
    hide BigEndian, Digit;
    forall k | 4 <= k < 8
      ensures ToBytes(h)[k] == Digit(h.remoteIndex, 7 - k)
    {
      BigEndianAt(4, h.remoteIndex, k - 4);
    }
    forall k | 8 <= k < 16
      ensures ToBytes(h)[k] == Digit(h.counter, 15 - k)
    {
      BigEndianAt(8, h.counter, k - 8);
    }
  }

  /** Writes a header at the front of a caller's buffer; a short buffer is left alone. */
  method Encode(h: Header, buf: array<u8>) returns (ok: bool)
    modifies buf
    ensures ok <==> HEADER_LEN <= buf.Length
    ensures ok ==> buf[..HEADER_LEN] == ToBytes(h) && buf[HEADER_LEN..] == old(buf[HEADER_LEN..])
    ensures !ok ==> buf[..] == old(buf[..])
    ensures ok ==> buf[0] == (h.version % 16) * 16 + h.kind % 16 && buf[1] == h.subType && buf[2] == buf[3] == 0
    ensures ok ==> forall k :: 4 <= k < 8 ==> buf[k] == Digit(h.remoteIndex, 7 - k)
    ensures ok ==> forall k :: 8 <= k < 16 ==> buf[k] == Digit(h.counter, 15 - k)
  {
    if buf.Length < HEADER_LEN {
      return false;
    }
    buf[0] := FirstByte(h.version, h.kind);
    buf[1] := h.subType;
    buf[2] := 0;
    buf[3] := 0;
    PutAt(buf, 4, BigEndian(4, h.remoteIndex));
    assert buf[..8] == buf[..4] + buf[4..8];
    PutAt(buf, 8, BigEndian(8, h.counter));
    assert buf[..HEADER_LEN] == buf[..8] + buf[8..HEADER_LEN];
    BytesAt(h);
    assert forall k :: 0 <= k < HEADER_LEN ==> buf[k] == buf[..HEADER_LEN][k];
    return true;
  }

  method PutAt(buf: array<u8>, at: nat, s: seq<u8>)
    requires at + |s| <= buf.Length
    modifies buf
    ensures buf[at..at + |s|] == s
    ensures buf[..at] == old(buf[..at]) && buf[at + |s|..] == old(buf[at + |s|..])
  {
    forall i | 0 <= i < |s| {
      buf[at + i] := s[i];
    }
  }

  function Parse(buf: seq<u8>): ParseResult {
    if |buf| < HEADER_LEN then TooShort(|buf|)
    else if buf[0] / 16 != VERSION then BadVersion(buf[0] / 16)
    else
      FieldSizes(buf);
      Parsed(Header(buf[0] / 16, buf[0] % 16, buf[1], FromBigEndian(buf[4..8]), FromBigEndian(buf[8..16])))
  }

  lemma FieldSizes(buf: seq<u8>)
    requires HEADER_LEN <= |buf|
    ensures FromBigEndian(buf[4..8]) < Pow256(4) == 0x1_0000_0000
    ensures FromBigEndian(buf[8..16]) < Pow256(8) == U64_SIZE
  {
    WordSizes();
    FromBigEndianRoundTrip(buf[4..8]);
    FromBigEndianRoundTrip(buf[8..16]);
  }

  /** Exactly the buffers of fewer than sixteen bytes are too short, and exactly the others whose
      first four bits are not 1 have a bad version. */
  lemma RefusedExactly(buf: seq<u8>)
    ensures Parse(buf).TooShort? <==> |buf| < 16
    ensures Parse(buf).BadVersion? <==> |buf| >= 16 && buf[0] / 16 != 1
  {
    hide FromBigEndian;
  }

  method Bytes(h: Header) returns (s: Head)
    ensures s == ToBytes(h)
  {
    var buf := new u8[HEADER_LEN](_ => 0);
    var _ := Encode(h, buf);
    s := buf[..];
  }

  /** What comes back from the wire, for every header and whatever follows it. */
  lemma ParseOfBytes(h: Header, rest: seq<u8>)
    ensures Parse(ToBytes(h) + rest)
         == if h.version % 16 == VERSION then Parsed(h.(version := VERSION, kind := h.kind % 16))
            else BadVersion(h.version % 16)
  {
    var buf := ToBytes(h) + rest;
    hide BigEndian, FromBigEndian, FirstByte, Pow256;
    WordSizes();
    BigEndianRoundTrip(4, h.remoteIndex);
    BigEndianRoundTrip(8, h.counter);
    FirstByteParts(h.version, h.kind);
    assert buf[4..8] == BigEndian(4, h.remoteIndex);
    assert buf[8..16] == BigEndian(8, h.counter);
  }

  /** A header survives the wire exactly when its version is 1 and its type fits in four bits. */
  lemma RoundTripExactly(h: Header, rest: seq<u8>)
    ensures Parse(ToBytes(h) + rest) == Parsed(h) <==> h.version == VERSION && h.kind < 16
  {
    ParseOfBytes(h, rest);
  }

  /** Re-encoding an accepted buffer gives it back, with the reserved bytes cleared. */
  lemma ReencodeClearsReserved(buf: seq<u8>)
    requires Parse(buf).Parsed?
    ensures ToBytes(Parse(buf).header) == buf[..16][2 := 0][3 := 0]
  {
    hide BigEndian, FromBigEndian, Pow256;
    FromBigEndianRoundTrip(buf[4..8]);
    FromBigEndianRoundTrip(buf[8..16]);
    var out, want := ToBytes(Parse(buf).header), buf[..16][2 := 0][3 := 0];
    assert out[..4] == want[..4];
    assert out[4..8] == buf[4..8] == want[4..8];
    assert out[8..16] == buf[8..16] == want[8..16];
    assert out == out[..4] + out[4..8] + out[8..16];
    assert want == want[..4] + want[4..8] + want[8..16];
  }
}
