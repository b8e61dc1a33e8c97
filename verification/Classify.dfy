/** Byte layout of the classify tables and sessions (internal/vpp/classify.go). */
module Classify {
  import opened Model

  const ETH_HDR_LEN: nat := 14
  const VEC: nat := 16
  /** Enough buffer memory for the match region of every mask. */
  const FRAME_MIN: nat := 64

  datatype Family = IPv4 | IPv6

  datatype MaskSpec = MaskSpec(family: Family, isDst: bool, maskBits: nat) {
    function FieldOffset(): (o: nat) {
      if family == IPv4 then (if isDst then 16 else 12) else (if isDst then 24 else 8)
    }

    function AddrLen(): (n: nat) { if family == IPv4 then 4 else 16 }

    function AbsStart(): (n: nat) { ETH_HDR_LEN + FieldOffset() }

    function Skip(): (n: nat) { AbsStart() / VEC }

    function MatchVectors(): (n: nat) { (AbsStart() + AddrLen() - 1) / VEC - Skip() + 1 }

    /** Offset of the address inside the match region. */
    function Off(): (n: nat) { AbsStart() - Skip() * VEC }
  }

  function SpecOf(m: MaskKind): (r: Option<MaskSpec>) {
    match m
    case IP4Dst32 => Some(MaskSpec(IPv4, true, 32))
    case IP4Dst24 => Some(MaskSpec(IPv4, true, 24))
    case IP6Dst128 => Some(MaskSpec(IPv6, true, 128))
    case IP4Src32 => Some(MaskSpec(IPv4, false, 32))
    case IP4Src24 => Some(MaskSpec(IPv4, false, 24))
    case IP6Src128 => Some(MaskSpec(IPv6, false, 128))
    case UnknownMask(_) => None
  }

  // ----- bits ------------------------------------------------------------------

  function Weight(j: nat): (w: Byte)
    requires j < 8
  {
    if j == 0 then 128 else if j == 1 then 64 else if j == 2 then 32 else if j == 3 then 16
    else if j == 4 then 8 else if j == 5 then 4 else if j == 6 then 2 else 1
  }

  /** Bit `j` of `b`, most significant first. */
  predicate BitOf(b: Byte, j: nat)
    requires j < 8
  {
    (b / Weight(j)) % 2 == 1
  }

  function FromBits(b0: bool, b1: bool, b2: bool, b3: bool, b4: bool, b5: bool, b6: bool, b7: bool): (b: Byte) {
    (if b0 then 128 else 0) + (if b1 then 64 else 0) + (if b2 then 32 else 0) + (if b3 then 16 else 0) +
    (if b4 then 8 else 0) + (if b5 then 4 else 0) + (if b6 then 2 else 0) + (if b7 then 1 else 0)
  }

  function And(a: Byte, b: Byte): (c: Byte) {
    FromBits(BitOf(a, 0) && BitOf(b, 0), BitOf(a, 1) && BitOf(b, 1),
             BitOf(a, 2) && BitOf(b, 2), BitOf(a, 3) && BitOf(b, 3),
             BitOf(a, 4) && BitOf(b, 4), BitOf(a, 5) && BitOf(b, 5),
             BitOf(a, 6) && BitOf(b, 6), BitOf(a, 7) && BitOf(b, 7))
  }

  lemma ByteIsItsBits(a: Byte)
    ensures a == FromBits(BitOf(a, 0), BitOf(a, 1), BitOf(a, 2), BitOf(a, 3),
                          BitOf(a, 4), BitOf(a, 5), BitOf(a, 6), BitOf(a, 7))
  {
    Digits(a);
    BitsAreDigits(a);
    hide BitOf, FromBits;
    Pack(a / 128 % 2, a / 64 % 2, a / 32 % 2, a / 16 % 2, a / 8 % 2, a / 4 % 2, a / 2 % 2, a % 2);
  }

  lemma BitsAreDigits(a: Byte)
    ensures BitOf(a, 0) == (a / 128 % 2 == 1) && BitOf(a, 1) == (a / 64 % 2 == 1)
    ensures BitOf(a, 2) == (a / 32 % 2 == 1) && BitOf(a, 3) == (a / 16 % 2 == 1)
    ensures BitOf(a, 4) == (a / 8 % 2 == 1) && BitOf(a, 5) == (a / 4 % 2 == 1)
    ensures BitOf(a, 6) == (a / 2 % 2 == 1) && BitOf(a, 7) == (a % 2 == 1)
  {
    assert a / 1 == a;
  }

  lemma Pack(d0: int, d1: int, d2: int, d3: int, d4: int, d5: int, d6: int, d7: int)
    requires 0 <= d0 <= 1 && 0 <= d1 <= 1 && 0 <= d2 <= 1 && 0 <= d3 <= 1
    requires 0 <= d4 <= 1 && 0 <= d5 <= 1 && 0 <= d6 <= 1 && 0 <= d7 <= 1
    ensures FromBits(d0 == 1, d1 == 1, d2 == 1, d3 == 1, d4 == 1, d5 == 1, d6 == 1, d7 == 1) ==
            128 * d0 + 64 * d1 + 32 * d2 + 16 * d3 + 8 * d4 + 4 * d5 + 2 * d6 + d7
  {
  }

  lemma Digits(a: Byte)
    ensures a == 128 * (a / 128 % 2) + 64 * (a / 64 % 2) + 32 * (a / 32 % 2) + 16 * (a / 16 % 2)
               + 8 * (a / 8 % 2) + 4 * (a / 4 % 2) + 2 * (a / 2 % 2) + a % 2
  {
    DivChain(a);
    Horner(a, a / 2, a / 4, a / 8, a / 16, a / 32, a / 64, a / 128);
  }

  lemma DivChain(a: int)
    requires 0 <= a
    ensures a / 4 == a / 2 / 2 && a / 8 == a / 4 / 2 && a / 16 == a / 8 / 2
    ensures a / 32 == a / 16 / 2 && a / 64 == a / 32 / 2 && a / 128 == a / 64 / 2
  {
  }

  lemma Horner(a0: int, a1: int, a2: int, a3: int, a4: int, a5: int, a6: int, a7: int)
    requires a1 == a0 / 2 && a2 == a1 / 2 && a3 == a2 / 2 && a4 == a3 / 2
    requires a5 == a4 / 2 && a6 == a5 / 2 && a7 == a6 / 2 && 0 <= a7 < 2
    ensures a0 == 128 * (a7 % 2) + 64 * (a6 % 2) + 32 * (a5 % 2) + 16 * (a4 % 2)
                + 8 * (a3 % 2) + 4 * (a2 % 2) + 2 * (a1 % 2) + a0 % 2
  {
  }

  lemma AndOnesZeros(a: Byte)
    ensures And(a, 255) == a && And(a, 0) == 0
  {
    ByteIsItsBits(a);
    ConstantBits();
    hide BitOf;
  }

  lemma ConstantBits()
    ensures BitOf(255, 0) && BitOf(255, 1) && BitOf(255, 2) && BitOf(255, 3)
    ensures BitOf(255, 4) && BitOf(255, 5) && BitOf(255, 6) && BitOf(255, 7)
    ensures !BitOf(0, 0) && !BitOf(0, 1) && !BitOf(0, 2) && !BitOf(0, 3)
    ensures !BitOf(0, 4) && !BitOf(0, 5) && !BitOf(0, 6) && !BitOf(0, 7)
  {
  }

  lemma SameBitsSameByte(a: Byte, b: Byte)
    requires forall j: nat | j < 8 :: BitOf(a, j) == BitOf(b, j)
    ensures a == b
  {
    ByteIsItsBits(a);
    ByteIsItsBits(b);
    assert BitOf(a, 0) == BitOf(b, 0) && BitOf(a, 1) == BitOf(b, 1) && BitOf(a, 2) == BitOf(b, 2)
        && BitOf(a, 3) == BitOf(b, 3) && BitOf(a, 4) == BitOf(b, 4) && BitOf(a, 5) == BitOf(b, 5)
        && BitOf(a, 6) == BitOf(b, 6) && BitOf(a, 7) == BitOf(b, 7);
  }

  /** The i-th octet of a netmask of width `bits`: bit j is set exactly when 8*i + j < bits. */
  function NetmaskByte(bits: int, i: nat): (b: Byte) {
    FromBits(8 * i < bits, 8 * i + 1 < bits, 8 * i + 2 < bits, 8 * i + 3 < bits,
             8 * i + 4 < bits, 8 * i + 5 < bits, 8 * i + 6 < bits, 8 * i + 7 < bits)
  }

  // ----- buffers ---------------------------------------------------------------

  function Zeros(n: nat): (s: seq<Byte>) { seq(n, _ => 0) }

  function NetmaskOf(ms: MaskSpec): (s: seq<Byte>) {
    seq(ms.AddrLen(), (i: nat) => NetmaskByte(ms.maskBits, i))
  }

  /** The match-only mask buffer of a table. */
  function TableMaskOf(ms: MaskSpec): (s: seq<Byte>)
    ensures |s| == ms.MatchVectors() * VEC
  {
    Zeros(ms.Off()) + NetmaskOf(ms) + Zeros(ms.MatchVectors() * VEC - ms.Off() - ms.AddrLen())
  }

  /** The address octets a session of this mask carries, or None on a family mismatch. */
  function SessionAddr(ms: MaskSpec, p: Prefix): (r: Option<seq<Byte>>)
    ensures r.Some? ==> |r.value| == ms.AddrLen()
  {
    if ms.family == IPv4 && p.addr.V4? then Some(p.addr.o4)
    else if ms.family == IPv6 && p.addr.V6? && !p.addr.Is4In6() then Some(p.addr.o16)
    else None
  }

  /** The full session buffer: the address at its absolute packet offset, zeros elsewhere. */
  function MatchBuffer(ms: MaskSpec, addr: seq<Byte>): (s: seq<Byte>)
    requires |addr| == ms.AddrLen()
    ensures |s| == (ms.Skip() + ms.MatchVectors()) * VEC
  {
    Zeros(ms.AbsStart()) + addr +
    Zeros((ms.Skip() + ms.MatchVectors()) * VEC - ms.AbsStart() - ms.AddrLen())
  }

  /** The stored key of a session: its buffer without the skipped region. */
  function SessionKey(m: MaskKind, p: Prefix): (r: Option<seq<Byte>>) {
    var spec := SpecOf(m);
    if spec.None? then None else
    var addr := SessionAddr(spec.value, p);
    if addr.None? then None else
    Some(MatchBuffer(spec.value, addr.value)[spec.value.Skip() * VEC..])
  }

  /** What VPP keeps of a full session buffer: the match region under the table mask. */
  function Stored(ms: MaskSpec, full: seq<Byte>): (key: seq<Byte>)
    requires |full| == (ms.Skip() + ms.MatchVectors()) * VEC
  {
    seq(ms.MatchVectors() * VEC,
        (i: nat) requires i < ms.MatchVectors() * VEC =>
          And(full[ms.Skip() * VEC + i], TableMaskOf(ms)[i]))
  }

  /** VPP's per-packet test: packet bytes after `skip` vectors, ANDed with the table mask, equal the key. */
  predicate Matches(ms: MaskSpec, frame: seq<Byte>, key: seq<Byte>)
    requires |frame| >= FRAME_MIN
  {
    |key| == ms.MatchVectors() * VEC &&
    ms.Skip() * VEC + ms.MatchVectors() * VEC <= FRAME_MIN &&
    forall i | 0 <= i < ms.MatchVectors() * VEC ::
      And(frame[ms.Skip() * VEC + i], TableMaskOf(ms)[i]) == key[i]
  }

  // ----- reference: packets and prefixes ------------------------------------------

  /** Octets before the source address in an IPv4 header (section 3.1 of RFC 791): version/IHL,
      type of service, total length, identification, flags/fragment, time to live, protocol, checksum. */
  const IP4_SRC_AT: nat := 1 + 1 + 2 + 2 + 2 + 1 + 1 + 2
  /** Octets before the source address in an IPv6 header (section 3 of RFC 8200): version/class/flow,
      payload length, next header, hop limit. */
  const IP6_SRC_AT: nat := 4 + 2 + 1 + 1

  /** The address an untagged Ethernet frame carries in the direction and family of the mask. */
  function PacketAddr(ms: MaskSpec, frame: seq<Byte>): (a: seq<Byte>)
    requires |frame| >= FRAME_MIN
  {
    match (ms.family, ms.isDst)
    case (IPv4, false) => frame[14 + IP4_SRC_AT..][..4]
    case (IPv4, true) => frame[14 + IP4_SRC_AT + 4..][..4]
    case (IPv6, false) => frame[14 + IP6_SRC_AT..][..16]
    case (IPv6, true) => frame[14 + IP6_SRC_AT + 16..][..16]
  }

  predicate AddrBit(a: seq<Byte>, i: nat)
    requires i < 8 * |a|
  {
    BitOf(a[i / 8], i % 8)
  }

  /** `a` lies in the prefix `p`/`bits`: the first `bits` bits agree. */
  predicate InPrefix(a: seq<Byte>, p: seq<Byte>, bits: nat) {
    |a| == |p| && bits <= 8 * |a| && forall i: nat | i < bits :: AddrBit(a, i) == AddrBit(p, i)
  }

  /** No host bit is set beyond the prefix width. */
  predicate Canonical(p: seq<Byte>, bits: nat) {
    forall i: nat | bits <= i < 8 * |p| :: !AddrBit(p, i)
  }

  lemma InPrefixByOctets(a: seq<Byte>, p: seq<Byte>, n: nat)
    requires |a| == |p| && n <= |a|
    ensures InPrefix(a, p, 8 * n) <==> a[..n] == p[..n]
  {
    if InPrefix(a, p, 8 * n) {
      forall k | 0 <= k < n ensures a[k] == p[k] {
        forall j: nat | j < 8 ensures BitOf(a[k], j) == BitOf(p[k], j) {
          assert AddrBit(a, 8 * k + j) == AddrBit(p, 8 * k + j);
        }
        SameBitsSameByte(a[k], p[k]);
      }
    }
    if a[..n] == p[..n] {
      forall i: nat | i < 8 * n ensures AddrBit(a, i) == AddrBit(p, i) {
        assert a[..n][i / 8] == p[..n][i / 8];
      }
    }
  }

  lemma CanonicalByOctets(p: seq<Byte>, n: nat)
    requires n <= |p|
    ensures Canonical(p, 8 * n) <==> forall k | n <= k < |p| :: p[k] == 0
  {
    if Canonical(p, 8 * n) {
      forall k | n <= k < |p| ensures p[k] == 0 {
        forall j: nat | j < 8 ensures BitOf(p[k], j) == BitOf(0, j) {
          assert !AddrBit(p, 8 * k + j);
        }
        SameBitsSameByte(p[k], 0);
      }
    }
  }

  /** The table mask is 255 over the first maskBits/8 address octets and 0 elsewhere. */
  lemma TableMaskShape(m: MaskKind)
    requires SpecOf(m).Some?
    ensures var ms := SpecOf(m).value; var n := ms.maskBits / 8;
            ms.maskBits == 8 * n && n <= ms.AddrLen() &&
            ms.Off() + ms.AddrLen() <= ms.MatchVectors() * VEC &&
            ms.Skip() * VEC + ms.MatchVectors() * VEC <= FRAME_MIN &&
            forall i | 0 <= i < ms.MatchVectors() * VEC ::
              TableMaskOf(ms)[i] == if ms.Off() <= i < ms.Off() + n then 255 else 0
  {
    var ms := SpecOf(m).value;
    forall i: nat | i < ms.AddrLen()
      ensures NetmaskOf(ms)[i] == if i < ms.maskBits / 8 then 255 else 0
    {
    }
  }

  lemma KeyParts(m: MaskKind, p: Prefix)
    requires SessionKey(m, p).Some?
    ensures SpecOf(m).Some? && SessionAddr(SpecOf(m).value, p).Some?
    ensures |SessionAddr(SpecOf(m).value, p).value| == SpecOf(m).value.AddrLen()
  {
  }

  /** A key octet is the address octet at its offset, zero elsewhere. */
  lemma KeyShape(m: MaskKind, p: Prefix)
    requires SessionKey(m, p).Some?
    ensures var ms := SpecOf(m).value; var key := SessionKey(m, p).value; var addr := SessionAddr(ms, p).value;
            |key| == ms.MatchVectors() * VEC &&
            forall i | 0 <= i < |key| ::
              key[i] == if ms.Off() <= i < ms.Off() + |addr| then addr[i - ms.Off()] else 0
  {
  }

  lemma PacketAddrIsField(m: MaskKind, frame: seq<Byte>)
    requires SpecOf(m).Some? && |frame| >= FRAME_MIN
    ensures var ms := SpecOf(m).value;
            ms.AbsStart() + ms.AddrLen() <= FRAME_MIN &&
            PacketAddr(ms, frame) == frame[ms.AbsStart()..ms.AbsStart() + ms.AddrLen()]
  {
  }

  /** What the table mask leaves of one byte of the match region. */
  lemma MaskedByte(m: MaskKind, full: seq<Byte>, i: nat)
    requires SpecOf(m).Some?
    requires |full| >= (SpecOf(m).value.Skip() + SpecOf(m).value.MatchVectors()) * VEC
    requires i < SpecOf(m).value.MatchVectors() * VEC
    ensures var ms := SpecOf(m).value;
            And(full[ms.Skip() * VEC + i], TableMaskOf(ms)[i]) ==
            if ms.Off() <= i < ms.Off() + ms.maskBits / 8 then full[ms.Skip() * VEC + i] else 0
  {
    TableMaskShape(m);
    AndOnesZeros(full[SpecOf(m).value.Skip() * VEC + i]);
  }

  /** A frame matches a key exactly when the masked address octets agree and all other key octets are zero. */
  lemma MatchesByOctets(m: MaskKind, frame: seq<Byte>, key: seq<Byte>)
    requires SpecOf(m).Some? && |frame| >= FRAME_MIN && |key| == SpecOf(m).value.MatchVectors() * VEC
    ensures var ms := SpecOf(m).value;
            ms.Skip() * VEC + |key| <= FRAME_MIN &&
            (Matches(ms, frame, key) <==>
             forall i | 0 <= i < |key| ::
               key[i] == if ms.Off() <= i < ms.Off() + ms.maskBits / 8 then frame[ms.Skip() * VEC + i] else 0)
  {
    hide TableMaskOf, And;
    var ms := SpecOf(m).value;
    TableMaskShape(m);
    forall i: nat | i < |key|
      ensures And(frame[ms.Skip() * VEC + i], TableMaskOf(ms)[i]) ==
              if ms.Off() <= i < ms.Off() + ms.maskBits / 8 then frame[ms.Skip() * VEC + i] else 0
    {
      MaskedByte(m, frame, i);
    }
  }

  /** The octet argument behind `MatchIffInPrefix`, over plain numbers. */
  lemma OctetMatch(frame: seq<Byte>, key: seq<Byte>, addr: seq<Byte>, base: nat, off: nat, n: nat)
    requires n <= |addr| && off + |addr| <= |key| && base + |key| <= |frame|
    requires forall i | 0 <= i < |key| :: key[i] == if off <= i < off + |addr| then addr[i - off] else 0
    requires forall k | n <= k < |addr| :: addr[k] == 0
    ensures (forall i | 0 <= i < |key| :: key[i] == if off <= i < off + n then frame[base + i] else 0) <==>
            frame[base + off..base + off + |addr|][..n] == addr[..n]
  {
    var a := frame[base + off..base + off + |addr|];
    if forall i | 0 <= i < |key| :: key[i] == if off <= i < off + n then frame[base + i] else 0 {
      forall k | 0 <= k < n ensures a[k] == addr[k] {
        assert key[off + k] == addr[k];
      }
    }
    if a[..n] == addr[..n] {
      forall i | 0 <= i < |key| ensures key[i] == if off <= i < off + n then frame[base + i] else 0 {
        if off <= i < off + n {
          assert a[..n][i - off] == addr[..n][i - off];
        }
      }
    }
  }

  /** For a canonical prefix, the classifier's byte comparison decides prefix membership. */
  lemma MatchIffInPrefix(m: MaskKind, p: Prefix, frame: seq<Byte>)
    requires SessionKey(m, p).Some? && |frame| >= FRAME_MIN
    requires Canonical(SessionAddr(SpecOf(m).value, p).value, SpecOf(m).value.maskBits)
    ensures var ms := SpecOf(m).value;
            Matches(ms, frame, SessionKey(m, p).value) <==>
            InPrefix(PacketAddr(ms, frame), SessionAddr(ms, p).value, ms.maskBits)
  {
    hide *;
    KeyParts(m, p);
    var ms := SpecOf(m).value;
    var key, addr, a := SessionKey(m, p).value, SessionAddr(ms, p).value, PacketAddr(ms, frame);
    var n := ms.maskBits / 8;
    TableMaskShape(m);
    KeyShape(m, p);
    PacketAddrIsField(m, frame);
    FieldInRegion(m);
    InPrefixByOctets(a, addr, n);
    CanonicalByOctets(addr, n);
    MatchesByOctets(m, frame, key);
    OctetMatch(frame, key, addr, ms.Skip() * VEC, ms.Off(), n);
  }

  lemma FieldInRegion(m: MaskKind)
    requires SpecOf(m).Some?
    ensures var ms := SpecOf(m).value; ms.AbsStart() == ms.Skip() * VEC + ms.Off()
  {
  }

  /** With a host bit set, the unmasked key matches no packet at all. */
  lemma NonCanonicalNeverMatches(m: MaskKind, p: Prefix, frame: seq<Byte>)
    requires SessionKey(m, p).Some? && |frame| >= FRAME_MIN
    requires !Canonical(SessionAddr(SpecOf(m).value, p).value, SpecOf(m).value.maskBits)
    ensures !Matches(SpecOf(m).value, frame, SessionKey(m, p).value)
  {
    var ms := SpecOf(m).value;
    var addr := SessionAddr(ms, p).value;
    TableMaskShape(m);
    KeyShape(m, p);
    CanonicalByOctets(addr, ms.maskBits / 8);
    MatchesByOctets(m, frame, SessionKey(m, p).value);
    var k :| ms.maskBits / 8 <= k < |addr| && addr[k] != 0;
    assert SessionKey(m, p).value[ms.Off() + k] != 0;
  }

  ghost predicate DecidesMembership(m: MaskKind, p: Prefix)
    requires SessionKey(m, p).Some?
  {
    forall frame: seq<Byte> | |frame| >= FRAME_MIN ::
      Matches(SpecOf(m).value, frame, SessionKey(m, p).value) <==>
      InPrefix(PacketAddr(SpecOf(m).value, frame), SessionAddr(SpecOf(m).value, p).value, SpecOf(m).value.maskBits)
  }

  /** The key compares packets to the prefix correctly exactly for canonical prefixes. */
  lemma MembershipIffCanonical(m: MaskKind, p: Prefix)
    requires SessionKey(m, p).Some?
    ensures DecidesMembership(m, p) <==> Canonical(SessionAddr(SpecOf(m).value, p).value, SpecOf(m).value.maskBits)
  {
    hide Matches, TableMaskOf, SessionKey;
    KeyParts(m, p);
    var ms := SpecOf(m).value;
    var addr := SessionAddr(ms, p).value;
    if Canonical(addr, ms.maskBits) {
      forall frame: seq<Byte> | |frame| >= FRAME_MIN
        ensures Matches(ms, frame, SessionKey(m, p).value) <==> InPrefix(PacketAddr(ms, frame), addr, ms.maskBits)
      {
        MatchIffInPrefix(m, p, frame);
      }
    } else {
      var frame := Zeros(ms.AbsStart()) + addr + Zeros(FRAME_MIN);
      PacketAddrIsField(m, frame);
      assert PacketAddr(ms, frame) == addr;
      NonCanonicalNeverMatches(m, p, frame);
      InPrefixItself(m, addr);
    }
  }

  lemma InPrefixItself(m: MaskKind, addr: seq<Byte>)
    requires SpecOf(m).Some? && |addr| == SpecOf(m).value.AddrLen()
    ensures InPrefix(addr, addr, SpecOf(m).value.maskBits)
  {
  }

  // ----- what each mask kind polices ------------------------------------------------

  /** The frames a session of kind `m` for `p` is meant for. An untagged frame has 14 octets of Ethernet header; an
      IPv4 header has its source at 12 and its destination at 16, an IPv6 header at 8 and 24. */
  predicate Covers(m: MaskKind, p: Prefix, frame: seq<Byte>)
    requires |frame| >= 64
  {
    match m
    case IP4Dst32 => p.addr.V4? && frame[30..34] == p.addr.o4
    case IP4Dst24 => p.addr.V4? && frame[30..33] == p.addr.o4[..3]
    case IP4Src32 => p.addr.V4? && frame[26..30] == p.addr.o4
    case IP4Src24 => p.addr.V4? && frame[26..29] == p.addr.o4[..3]
    case IP6Dst128 => p.addr.V6? && !p.addr.Is4In6() && frame[38..54] == p.addr.o16
    case IP6Src128 => p.addr.V6? && !p.addr.Is4In6() && frame[22..38] == p.addr.o16
    case UnknownMask(_) => false
  }

  /** The last octet of a /24 kind's address, which is not compared, is set. */
  predicate HostBits(m: MaskKind, p: Prefix) { (m == IP4Dst24 || m == IP4Src24) && p.addr.V4? && p.addr.o4[3] != 0 }

  /** The key the agent computes for the session matches the frame. */
  predicate KeyMatches(m: MaskKind, p: Prefix, frame: seq<Byte>)
    requires |frame| >= 64
  {
    SessionKey(m, p).Some? && Matches(SpecOf(m).value, frame, SessionKey(m, p).value)
  }

  /** The key VPP stores for the session's buffer matches the frame. */
  predicate StoredMatches(m: MaskKind, p: Prefix, frame: seq<Byte>)
    requires |frame| >= 64
  {
    SessionKey(m, p).Some? &&
    var ms := SpecOf(m).value;
    Matches(ms, frame, Stored(ms, MatchBuffer(ms, SessionAddr(ms, p).value)))
  }

  /** A session has a key exactly when its mask is one of the six and its address is of the mask's family. */
  lemma KeyedIff(m: MaskKind, p: Prefix)
    ensures SessionKey(m, p).Some? <==>
            match m
            case IP4Dst32 | IP4Dst24 | IP4Src32 | IP4Src24 => p.addr.V4?
            case IP6Dst128 | IP6Src128 => p.addr.V6? && !p.addr.Is4In6()
            case UnknownMask(_) => false
  {
    hide MatchBuffer;
  }

  lemma StartOfField(frame: seq<Byte>, at: nat, len: nat, n: nat)
    requires n <= len && at + len <= |frame|
    ensures frame[at..at + len][..n] == frame[at..at + n]
  {
  }

  lemma KeyMatchesOctets(m: MaskKind, p: Prefix, frame: seq<Byte>)
    requires SessionKey(m, p).Some? && |frame| >= 64
    ensures var ms := SpecOf(m).value; var n := ms.maskBits / 8; var addr := SessionAddr(ms, p).value;
            n <= |addr| && ms.AbsStart() + n <= 64 &&
            (KeyMatches(m, p, frame) <==>
             frame[ms.AbsStart()..ms.AbsStart() + n] == addr[..n] && forall k | n <= k < |addr| :: addr[k] == 0)
  {
    hide SpecOf, SessionKey, SessionAddr, Matches, PacketAddr, InPrefix, Canonical, TableMaskOf;
    KeyParts(m, p);
    var ms := SpecOf(m).value;
    var n, addr, a := ms.maskBits / 8, SessionAddr(ms, p).value, PacketAddr(ms, frame);
    TableMaskShape(m);
    PacketAddrIsField(m, frame);
    InPrefixByOctets(a, addr, n);
    CanonicalByOctets(addr, n);
    StartOfField(frame, ms.AbsStart(), ms.AddrLen(), n);
    if Canonical(addr, ms.maskBits) {
      MatchIffInPrefix(m, p, frame);
    } else {
      NonCanonicalNeverMatches(m, p, frame);
    }
  }

  lemma StoredMatchesOctets(m: MaskKind, p: Prefix, frame: seq<Byte>)
    requires SessionKey(m, p).Some? && |frame| >= 64
    ensures var ms := SpecOf(m).value; var n := ms.maskBits / 8; var addr := SessionAddr(ms, p).value;
            n <= |addr| && ms.AbsStart() + n <= 64 &&
            (StoredMatches(m, p, frame) <==> frame[ms.AbsStart()..ms.AbsStart() + n] == addr[..n])
  {
    hide SpecOf, SessionKey, SessionAddr, Matches, Stored, TableMaskOf, MatchBuffer;
    KeyParts(m, p);
    var ms := SpecOf(m).value;
    var n, addr := ms.maskBits / 8, SessionAddr(ms, p).value;
    TableMaskShape(m);
    FieldInRegion(m);
    BufferOctets(ms, addr, n);
    var full := MatchBuffer(ms, addr);
    StoredByOctets(m, full);
    var key := Stored(ms, full);
    MatchesByOctets(m, frame, key);
    OctetMatch(frame, key, addr[..n], ms.Skip() * VEC, ms.Off(), n);
    var a := frame[ms.AbsStart()..ms.AbsStart() + n];
    assert a[..n] == a && addr[..n][..n] == addr[..n];
  }

  lemma BufferOctets(ms: MaskSpec, addr: seq<Byte>, n: nat)
    requires n <= |addr| == ms.AddrLen() && ms.AbsStart() == ms.Skip() * VEC + ms.Off()
    requires ms.Off() + ms.AddrLen() <= ms.MatchVectors() * VEC
    ensures forall i: nat | ms.Off() <= i < ms.Off() + n ::
              MatchBuffer(ms, addr)[ms.Skip() * VEC..][i] == addr[..n][i - ms.Off()]
  {
  }

  /** The kinds one by one: where the address is, how much of it counts. */
  lemma CoversOctets(m: MaskKind, p: Prefix, frame: seq<Byte>)
    requires SessionKey(m, p).Some? && |frame| >= 64
    ensures var ms := SpecOf(m).value; var n := ms.maskBits / 8; var addr := SessionAddr(ms, p).value;
            n <= |addr| && ms.AbsStart() + n <= 64 &&
            (Covers(m, p, frame) <==> frame[ms.AbsStart()..ms.AbsStart() + n] == addr[..n]) &&
            (HostBits(m, p) <==> exists k :: n <= k < |addr| && addr[k] != 0)
  {
    KeyParts(m, p);
    hide SessionKey;
    WholeAddress(p);
    match m
    case IP4Dst32 => assert SpecOf(m) == Some(MaskSpec(IPv4, true, 32));
    case IP4Dst24 =>
      assert SpecOf(m) == Some(MaskSpec(IPv4, true, 24));
      LastOctet(p.addr.o4);
    case IP6Dst128 => assert SpecOf(m) == Some(MaskSpec(IPv6, true, 128));
    case IP4Src32 => assert SpecOf(m) == Some(MaskSpec(IPv4, false, 32));
    case IP4Src24 =>
      assert SpecOf(m) == Some(MaskSpec(IPv4, false, 24));
      LastOctet(p.addr.o4);
    case IP6Src128 => assert SpecOf(m) == Some(MaskSpec(IPv6, false, 128));
  }

  lemma LastOctet(o: Octets4)
    ensures o[3] != 0 <==> exists k :: 3 <= k < |o| && o[k] != 0
  {
  }

  /** The agent's key polices exactly the frames its kind is for, and none at all with host bits set. */
  lemma KeyPolicesIff(m: MaskKind, p: Prefix, frame: seq<Byte>)
    requires |frame| >= 64
    ensures KeyMatches(m, p, frame) <==> Covers(m, p, frame) && !HostBits(m, p)
  {
    KeyedIff(m, p);
    if SessionKey(m, p).Some? {
      KeyMatchesOctets(m, p, frame);
      CoversOctets(m, p, frame);
      hide *;
    }
  }

  /** What VPP stores polices exactly the frames the kind is for, host bits or not. */
  lemma StoredPolicesIff(m: MaskKind, p: Prefix, frame: seq<Byte>)
    requires |frame| >= 64
    ensures StoredMatches(m, p, frame) <==> Covers(m, p, frame)
  {
    KeyedIff(m, p);
    if SessionKey(m, p).Some? {
      StoredMatchesOctets(m, p, frame);
      CoversOctets(m, p, frame);
      hide *;
    }
  }

  lemma WholeAddress(p: Prefix)
    ensures p.addr.V4? ==> p.addr.o4[..4] == p.addr.o4
    ensures p.addr.V6? ==> p.addr.o16[..16] == p.addr.o16
  {
  }

  /** Covering is lying in the prefix, bit by bit, at the kind's width. */
  lemma CoversIffInPrefix(p: Prefix, frame: seq<Byte>)
    requires |frame| >= 64
    ensures p.addr.V4? ==> (Covers(IP4Dst32, p, frame) <==> InPrefix(frame[30..34], p.addr.o4, 32))
    ensures p.addr.V4? ==> (Covers(IP4Dst24, p, frame) <==> InPrefix(frame[30..34], p.addr.o4, 24))
    ensures p.addr.V4? ==> (Covers(IP4Src32, p, frame) <==> InPrefix(frame[26..30], p.addr.o4, 32))
    ensures p.addr.V4? ==> (Covers(IP4Src24, p, frame) <==> InPrefix(frame[26..30], p.addr.o4, 24))
    ensures p.addr.V6? && !p.addr.Is4In6() ==>
              (Covers(IP6Dst128, p, frame) <==> InPrefix(frame[38..54], p.addr.o16, 128)) &&
              (Covers(IP6Src128, p, frame) <==> InPrefix(frame[22..38], p.addr.o16, 128))
  {
    hide InPrefix;
    WholeAddress(p);
    if p.addr.V4? {
      InPrefixByOctets(frame[30..34], p.addr.o4, 4);
      InPrefixByOctets(frame[30..34], p.addr.o4, 3);
      InPrefixByOctets(frame[26..30], p.addr.o4, 4);
      InPrefixByOctets(frame[26..30], p.addr.o4, 3);
      assert frame[30..34][..3] == frame[30..33] && frame[26..30][..3] == frame[26..29];
      assert frame[30..34][..4] == frame[30..34] && frame[26..30][..4] == frame[26..30];
    } else if p.addr.V6? {
      InPrefixByOctets(frame[38..54], p.addr.o16, 16);
      InPrefixByOctets(frame[22..38], p.addr.o16, 16);
      assert frame[38..54][..16] == frame[38..54] && frame[22..38][..16] == frame[22..38];
    }
  }

  /** VPP masks the buffer on insert; the key it stores is `SessionKey` exactly for canonical prefixes. */
  lemma StoredIsSessionKey(m: MaskKind, p: Prefix)
    requires SessionKey(m, p).Some?
    ensures var ms := SpecOf(m).value; var addr := SessionAddr(ms, p).value;
            Stored(ms, MatchBuffer(ms, addr)) == SessionKey(m, p).value <==> Canonical(addr, ms.maskBits)
  {
    hide *;
    KeyParts(m, p);
    var ms := SpecOf(m).value;
    var addr, key := SessionAddr(ms, p).value, SessionKey(m, p).value;
    var full := MatchBuffer(ms, addr);
    TableMaskShape(m);
    KeyShape(m, p);
    KeyIsRegion(m, p);
    CanonicalByOctets(addr, ms.maskBits / 8);
    StoredByOctets(m, full);
    StoredEqual(Stored(ms, full), key, addr, ms.Off(), ms.maskBits / 8);
  }

  lemma KeyIsRegion(m: MaskKind, p: Prefix)
    requires SessionKey(m, p).Some?
    ensures var ms := SpecOf(m).value; var full := MatchBuffer(ms, SessionAddr(ms, p).value);
            |full| == (ms.Skip() + ms.MatchVectors()) * VEC && full[ms.Skip() * VEC..] == SessionKey(m, p).value
  {
  }

  lemma StoredByOctets(m: MaskKind, full: seq<Byte>)
    requires SpecOf(m).Some?
    requires |full| == (SpecOf(m).value.Skip() + SpecOf(m).value.MatchVectors()) * VEC
    ensures var ms := SpecOf(m).value;
            |Stored(ms, full)| == ms.MatchVectors() * VEC &&
            forall i: nat | i < ms.MatchVectors() * VEC ::
              Stored(ms, full)[i] ==
              if ms.Off() <= i < ms.Off() + ms.maskBits / 8 then full[ms.Skip() * VEC..][i] else 0
  {
    var ms := SpecOf(m).value;
    forall i: nat | i < ms.MatchVectors() * VEC
      ensures Stored(ms, full)[i] ==
              if ms.Off() <= i < ms.Off() + ms.maskBits / 8 then full[ms.Skip() * VEC..][i] else 0
    {
      MaskedByte(m, full, i);
    }
  }

  lemma StoredEqual(stored: seq<Byte>, key: seq<Byte>, addr: seq<Byte>, off: nat, n: nat)
    requires n <= |addr| && off + |addr| <= |key| == |stored|
    requires forall i | 0 <= i < |key| :: key[i] == if off <= i < off + |addr| then addr[i - off] else 0
    requires forall i | 0 <= i < |key| :: stored[i] == if off <= i < off + n then key[i] else 0
    ensures stored == key <==> forall k | n <= k < |addr| :: addr[k] == 0
  {
    if stored == key {
      forall k | n <= k < |addr| ensures addr[k] == 0 {
        assert stored[off + k] == key[off + k];
      }
    }
  }

  /** Two prefixes of one mask with the same key carry the same address. */
  lemma SessionKeyInjective(m: MaskKind, p: Prefix, q: Prefix)
    requires SessionKey(m, p).Some? && SessionKey(m, p) == SessionKey(m, q)
    ensures p.addr == q.addr
  {
    var ms := SpecOf(m).value;
    KeyShape(m, p);
    KeyShape(m, q);
    var a, b := SessionAddr(ms, p).value, SessionAddr(ms, q).value;
    forall i | 0 <= i < |a| ensures a[i] == b[i] {
      assert SessionKey(m, p).value[ms.Off() + i] == SessionKey(m, q).value[ms.Off() + i];
    }
    assert a == b;
  }

  /** Ingress and egress IPv6 keys of one member are the same bytes: the mask must namespace them. */
  lemma Ip6KeysCoincide(p: Prefix)
    requires p.addr.V6? && !p.addr.Is4In6()
    ensures SessionKey(IP6Dst128, p).Some? && SessionKey(IP6Dst128, p) == SessionKey(IP6Src128, p)
  {
    KeyShape(IP6Dst128, p);
    KeyShape(IP6Src128, p);
    assert SessionKey(IP6Dst128, p).value == SessionKey(IP6Src128, p).value;
  }

  // ----- buffer-filling code --------------------------------------------------------

  /** Overwrites `a` from `at` with `src`. */
  method CopyInto(a: array<Byte>, at: nat, src: seq<Byte>)
    requires at + |src| <= a.Length
    modifies a
    ensures a[..] == old(a[..at]) + src + old(a[at + |src|..])
  {
    for i := 0 to |src|
      invariant forall k | 0 <= k < a.Length ::
        a[k] == if at <= k < at + i then src[k - at] else old(a[k])
    {
      a[at + i] := src[i];
    }
  }

  method Netmask(ms: MaskSpec) returns (out: seq<Byte>)
    ensures out == NetmaskOf(ms)
  {
    var buf := new Byte[ms.AddrLen()](_ => 0);
    var bits := ms.maskBits;
    for i := 0 to buf.Length
      invariant bits == if ms.maskBits > 8 * i then ms.maskBits - 8 * i else 0
      invariant forall k | 0 <= k < i :: buf[k] == NetmaskByte(ms.maskBits, k)
      invariant forall k | i <= k < buf.Length :: buf[k] == 0
    {
      if bits >= 8 {
        buf[i] := 0xff;
        bits := bits - 8;
      } else if bits > 0 {
        buf[i] := (0xff * Weight(bits - 1)) % 256;  // 0xff << (8 - bits), truncated to a byte
        bits := 0;
      }
    }
    out := buf[..];
  }

  method TableMask(ms: MaskSpec) returns (skip: nat, matchN: nat, mask: seq<Byte>)
    ensures skip == ms.Skip() && matchN == ms.MatchVectors() && mask == TableMaskOf(ms)
  {
    skip, matchN := ms.Skip(), ms.MatchVectors();
    var buf := new Byte[matchN * VEC](_ => 0);
    var netmask := Netmask(ms);
    CopyInto(buf, ms.AbsStart() - skip * VEC, netmask);
    mask := buf[..];
  }

  method SessionMatch(ms: MaskSpec, p: Prefix) returns (r: Option<seq<Byte>>)
    ensures r.Some? <==> SessionAddr(ms, p).Some?
    ensures r.Some? ==> r.value == MatchBuffer(ms, SessionAddr(ms, p).value)
  {
    var addr := SessionAddr(ms, p);
    if addr.None? { return None; }
    var buf := new Byte[(ms.Skip() + ms.MatchVectors()) * VEC](_ => 0);
    CopyInto(buf, ms.AbsStart(), addr.value);
    r := Some(buf[..]);
  }

  /** The buffer a delete-by-key sends: the skipped region (zeros) put back before the key. */
  method DeleteBuffer(ms: MaskSpec, key: seq<Byte>) returns (full: seq<Byte>)
    ensures full == Zeros(ms.Skip() * VEC) + key
  {
    var buf := new Byte[ms.Skip() * VEC + |key|](_ => 0);
    CopyInto(buf, ms.Skip() * VEC, key);
    full := buf[..];
  }

  /** Deleting by a session's key sends the very buffer its insertion sent. */
  lemma DeleteBufferIsAddBuffer(m: MaskKind, p: Prefix)
    requires SessionKey(m, p).Some?
    ensures Zeros(SpecOf(m).value.Skip() * VEC) + SessionKey(m, p).value ==
            MatchBuffer(SpecOf(m).value, SessionAddr(SpecOf(m).value, p).value)
  {
  }

  // ----- recovering tables --------------------------------------------------------------

  datatype TableInfo = TableInfo(skip: nat, matchN: nat, mask: seq<Byte>)

  function InfoOf(ms: MaskSpec): (i: TableInfo) { TableInfo(ms.Skip(), ms.MatchVectors(), TableMaskOf(ms)) }

  const ALL_MASKS: seq<MaskKind> := [IP4Dst32, IP4Dst24, IP6Dst128, IP4Src32, IP4Src24, IP6Src128]

  /** The six layouts are pairwise different, so a table's layout names its mask. */
  lemma LayoutsDiffer(a: MaskKind, b: MaskKind)
    requires SpecOf(a).Some? && SpecOf(b).Some? && InfoOf(SpecOf(a).value) == InfoOf(SpecOf(b).value)
    ensures a == b
  {
    TableMaskShape(a);
    TableMaskShape(b);
    var x, y := SpecOf(a).value, SpecOf(b).value;
    var mask := TableMaskOf(x);
    assert mask == TableMaskOf(y);
    assert mask[x.Off()] == 255 && mask[y.Off()] == 255;
    assert x.family == y.family && x.isDst == y.isDst;
    assert x.family == IPv4 ==> (mask[x.Off() + 3] == 255 <==> x.maskBits == 32);
  }

  lemma KnownMaskListed(m: MaskKind)
    requires SpecOf(m).Some?
    ensures m in ALL_MASKS
  {
    assert ALL_MASKS[0] == IP4Dst32 && ALL_MASKS[1] == IP4Dst24 && ALL_MASKS[2] == IP6Dst128
        && ALL_MASKS[3] == IP4Src32 && ALL_MASKS[4] == IP4Src24 && ALL_MASKS[5] == IP6Src128;
  }

  /** The mask kind whose layout a table has, if any. */
  method MaskOf(info: TableInfo) returns (r: Option<MaskKind>)
    ensures r.Some? ==> SpecOf(r.value).Some? && info == InfoOf(SpecOf(r.value).value)
    ensures r.None? ==> forall m | SpecOf(m).Some? :: info != InfoOf(SpecOf(m).value)
  {
    forall m | SpecOf(m).Some? ensures m in ALL_MASKS { KnownMaskListed(m); }
    for j := 0 to |ALL_MASKS|
      invariant forall q | 0 <= q < j :: SpecOf(ALL_MASKS[q]).Some? ==> info != InfoOf(SpecOf(ALL_MASKS[q]).value)
    {
      var ms := SpecOf(ALL_MASKS[j]);
      if ms.Some? {
        var skip, matchN, mask := TableMask(ms.value);
        if info.skip == skip && info.matchN == matchN && info.mask == mask { return Some(ALL_MASKS[j]); }
      }
    }
    r := None;
  }

  predicate HasLayout(info: TableInfo, m: MaskKind) { SpecOf(m).Some? && info == InfoOf(SpecOf(m).value) }

  /** The last listed table with the layout of `m`. */
  function LastWith(ids: seq<nat>, info: map<nat, TableInfo>, m: MaskKind): (r: Option<nat>)
    requires forall i | 0 <= i < |ids| :: ids[i] in info
    ensures r.Some? ==> r.value in ids && HasLayout(info[r.value], m)
    ensures r.None? ==> forall id | id in ids :: !HasLayout(info[id], m)
  {
    if ids == [] then None
    else if HasLayout(info[ids[|ids| - 1]], m) then Some(ids[|ids| - 1])
    else LastWith(ids[..|ids| - 1], info, m)
  }

  /** The tables VPP lists, by mask: for each mask exactly the last listed table with its layout. */
  method RecoverTables(ids: seq<nat>, info: map<nat, TableInfo>) returns (out: map<MaskKind, nat>)
    requires forall i | 0 <= i < |ids| :: ids[i] in info
    ensures forall m | m in out :: LastWith(ids, info, m) == Some(out[m])
    ensures forall m | LastWith(ids, info, m).Some? :: m in out
  {
    out := map[];
    for i := 0 to |ids|
      invariant forall m | m in out :: LastWith(ids[..i], info, m) == Some(out[m])
      invariant forall m | LastWith(ids[..i], info, m).Some? :: m in out
    {
      assert ids[..i + 1][..i] == ids[..i];
      var mk := MaskOf(info[ids[i]]);
      forall m ensures HasLayout(info[ids[i]], m) <==> mk == Some(m) {
        if mk.Some? && HasLayout(info[ids[i]], m) { LayoutsDiffer(m, mk.value); }
      }
      hide HasLayout;
      if mk.Some? {
        out := out[mk.value := ids[i]];
      }
    }
    assert ids[..|ids|] == ids;
  }

  /** When the listed tables are those of `tables`, one per mask, the recovered map is `tables`. */
  lemma RecoveredExactly(ids: seq<nat>, info: map<nat, TableInfo>, tables: map<MaskKind, nat>, m: MaskKind)
    requires forall i | 0 <= i < |ids| :: ids[i] in info
    requires forall t | t in tables :: SpecOf(t).Some? && tables[t] in ids && info[tables[t]] == InfoOf(SpecOf(t).value)
    requires forall id | id in ids :: id in tables.Values
    ensures LastWith(ids, info, m) == if m in tables then Some(tables[m]) else None
  {
    var r := LastWith(ids, info, m);
    if r.Some? {
      var t :| t in tables && tables[t] == r.value;
      LayoutsDiffer(t, m);
    }
  }
}
