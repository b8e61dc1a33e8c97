/** The wire codec of BIRD's api protocol: the encoder (internal/birdfeed/encode.go,
    internal/redirectec/redirectec.go) and the decoder its header describes. */
module Codec {
  import opened Model
  import opened Desired
  import C = Classify

  const WIRE_VERSION: Byte := 1
  const HDR_LEN: nat := 8
  const OP_ADD: Byte := 1
  const OP_DEL: Byte := 2
  const OP_EOR: Byte := 3
  const OP_HELLO: Byte := 4
  const NET_IP4: Byte := 1
  const NET_IP6: Byte := 2
  const NET_FLOW4: Byte := 7
  const NET_FLOW6: Byte := 8
  const ATTR_BLACKHOLE: Byte := 1
  const ATTR_EXTCOMM: Byte := 2
  const ATTR_COMMUNITY: Byte := 4
  const ATTR_LARGE: Byte := 5
  const MAX_COMMUNITIES: nat := 63
  const MAX_LARGE: nat := 21

  // ----- big-endian words ----------------------------------------------------------------------------

  function Be16(w: Word16): (b: seq<Byte>)
    ensures |b| == 2 && Un16(b) == w
  {
    var x: int := w;
    [x / 256, x % 256]
  }

  function Un16(b: seq<Byte>): (w: Word16)
    requires |b| == 2
  {
    var hi: int := b[0];
    hi * 256 + b[1]
  }

  /** The four octets of a word, most significant first. */
  function Be32(w: Word32): (b: seq<Byte>)
    ensures |b| == 4 && Un32(b) == w
  {
    var x: int := w;
    var b := [x / 0x100_0000, x / 0x1_0000 % 256, x / 256 % 256, x % 256];
    Digits(x);
    b
  }

  lemma Digits(x: int)
    requires 0 <= x < 0x1_0000_0000
    ensures x == x / 0x100_0000 * 0x100_0000 + x / 0x1_0000 % 256 * 0x1_0000 + x / 256 % 256 * 256 + x % 256
  {
    var b, c := x / 256, x / 0x1_0000;
    assert c == b / 256 && x / 0x100_0000 == c / 256;
  }

  function Un32(b: seq<Byte>): (w: Word32)
    requires |b| == 4
  {
    var b0: int, b1: int, b2: int := b[0], b[1], b[2];
    b0 * 0x100_0000 + b1 * 0x1_0000 + b2 * 256 + b[3]
  }

  // ----- operations and their frames -----------------------------------------------------------------

  datatype Kind = Unicast | Flow
  /** What BIRD keys a route by. */
  datatype Net = Net(kind: Kind, prefix: Prefix)
  /** One frame's content; `attrs` are an anchor's community TLVs or a flow's redirect community. */
  datatype Op = Hello | Eor | Add(net: Net, attrs: seq<Byte>) | Del(net: Net)

  /** A prefix `netip` would accept. */
  predicate ValidPrefix(p: Prefix) {
    match p.addr
    case NoAddr => false
    case V4(_) => p.bits <= 32
    case V6(_) => p.bits <= 128
  }

  function AddrBytes(a: Addr): (b: seq<Byte>) {
    match a
    case V4(o) => o
    case V6(o) => o
    case NoAddr => seq(16, _ => 0)
  }

  function NetType(n: Net): (t: Byte) {
    match n.kind
    case Unicast => if n.prefix.addr.V6? then NET_IP6 else NET_IP4
    case Flow => if n.prefix.addr.V6? then NET_FLOW6 else NET_FLOW4
  }

  function NetBytes(n: Net): (b: seq<Byte>) { [NetType(n), n.prefix.bits % 256] + AddrBytes(n.prefix.addr) }

  function OpCode(op: Op): (c: Byte) {
    match op
    case Hello => OP_HELLO
    case Eor => OP_EOR
    case Add(_, _) => OP_ADD
    case Del(_) => OP_DEL
  }

  /** The attribute TLVs an ADD carries. */
  function TlvBytes(kind: Kind, attrs: seq<Byte>): (b: seq<Byte>) {
    match kind
    case Unicast => [ATTR_BLACKHOLE, 0] + attrs
    case Flow => [ATTR_EXTCOMM, |attrs| % 256] + attrs
  }

  function BodyOf(op: Op): (b: seq<Byte>) {
    match op
    case Hello => []
    case Eor => []
    case Add(n, attrs) => NetBytes(n) + TlvBytes(n.kind, attrs)
    case Del(n) => NetBytes(n)
  }

  /** Header and body; the length field covers the whole frame and is 32 bits wide. */
  function FrameBytes(op: Byte, body: seq<Byte>): (b: seq<Byte>)
    ensures |b| == HDR_LEN + |body|
  {
    [WIRE_VERSION, op, 0, 0] + Be32((HDR_LEN + |body|) % 0x1_0000_0000) + body
  }

  function Encode(op: Op): (b: seq<Byte>)
    ensures |b| >= HDR_LEN
  {
    FrameBytes(OpCode(op), BodyOf(op))
  }

  /** The bytes on the socket for a sequence of operations. */
  function Stream(ops: seq<Op>): (b: seq<Byte>) {
    if ops == [] then [] else Encode(ops[0]) + Stream(ops[1..])
  }

  // ----- the encoder's methods -------------------------------------------------------------------------

  method Frame(op: Byte, body: seq<Byte>) returns (b: array<Byte>)
    ensures fresh(b) && b[..] == FrameBytes(op, body)
  {
    b := new Byte[HDR_LEN + |body|](_ => 0);
    b[0] := WIRE_VERSION;
    b[1] := op;
    var len := Be32((HDR_LEN + |body|) % 0x1_0000_0000);
    C.CopyInto(b, 4, len);
    C.CopyInto(b, HDR_LEN, body);
    assert b[..] == [WIRE_VERSION, op, 0, 0] + len + body;
  }

  method FrameAnchor(op: Byte, p: Prefix, attrs: seq<Byte>) returns (b: array<Byte>)
    requires op == OP_ADD || op == OP_DEL
    ensures fresh(b) && b[..] == Encode(if op == OP_ADD then Add(Net(Unicast, p), attrs) else Del(Net(Unicast, p)))
  {
    hide FrameBytes, AddrBytes;
    var nt := NET_IP4;
    if p.addr.V6? { nt := NET_IP6; }
    var body: seq<Byte> := [nt, p.bits % 256];
    body := body + AddrBytes(p.addr);
    if op == OP_ADD {
      body := body + [ATTR_BLACKHOLE, 0];
      body := body + attrs;
    }
    assert body == BodyOf(if op == OP_ADD then Add(Net(Unicast, p), attrs) else Del(Net(Unicast, p)));
    b := Frame(op, body);
  }

  /** The redirect community behind the net. */
  method FlowBody(ghost n: Net, net: seq<Byte>, ec: seq<Byte>) returns (body: seq<Byte>)
    requires n.kind == Flow && net == NetBytes(n)
    ensures body == BodyOf(Add(n, ec))
  {
    hide NetBytes;
    body := net + [ATTR_EXTCOMM, |ec| % 256];
    body := body + ec;
    assert body == net + TlvBytes(Flow, ec);
  }

  method FrameFlow(op: Byte, src: Prefix, ec: seq<Byte>) returns (b: array<Byte>)
    requires op == OP_ADD || op == OP_DEL
    ensures fresh(b) && b[..] == Encode(if op == OP_ADD then Add(Net(Flow, src), ec) else Del(Net(Flow, src)))
  {
    hide FrameBytes, AddrBytes;
    var nt := NET_FLOW4;
    if src.addr.V6? { nt := NET_FLOW6; }
    var body: seq<Byte> := [nt, src.bits % 256];
    body := body + AddrBytes(src.addr);
    assert body == NetBytes(Net(Flow, src));
    if op == OP_ADD {
      body := FlowBody(Net(Flow, src), body, ec);
    }
    b := Frame(op, body);
  }

  // ----- community attributes --------------------------------------------------------------------------

  function CommunityBytes(c: Community): (b: seq<Byte>)
    ensures |b| == 4
  {
    Be16(c.asn) + Be16(c.value)
  }

  function LargeBytes(c: LargeCommunity): (b: seq<Byte>)
    ensures |b| == 12
  {
    Be32(c.global) + Be32(c.data1) + Be32(c.data2)
  }

  function CommunityBlock(cs: seq<Community>): (b: seq<Byte>)
    ensures |b| == 4 * |cs|
  {
    if cs == [] then [] else CommunityBlock(cs[..|cs| - 1]) + CommunityBytes(cs[|cs| - 1])
  }

  function LargeBlock(cs: seq<LargeCommunity>): (b: seq<Byte>)
    ensures |b| == 12 * |cs|
  {
    if cs == [] then [] else LargeBlock(cs[..|cs| - 1]) + LargeBytes(cs[|cs| - 1])
  }

  /** As many list elements as one TLV can carry. */
  function Capped<T>(xs: seq<T>, cap: nat): (r: seq<T>)
    ensures r <= xs && |r| <= cap
    ensures r == xs <==> |xs| <= cap
  {
    if |xs| > cap then xs[..cap] else xs
  }

  function CommunityTlv(cs: seq<Community>): (b: seq<Byte>)
    ensures |b| <= 254
  {
    if cs == [] then [] else
      var n := Capped(cs, MAX_COMMUNITIES);
      [ATTR_COMMUNITY, 4 * |n|] + CommunityBlock(n)
  }

  function LargeTlv(cs: seq<LargeCommunity>): (b: seq<Byte>)
    ensures |b| <= 254
  {
    if cs == [] then [] else
      var n := Capped(cs, MAX_LARGE);
      [ATTR_LARGE, 12 * |n|] + LargeBlock(n)
  }

  function AttrBytes(a: Anchor): (b: seq<Byte>)
    ensures |b| <= 508
  {
    CommunityTlv(a.communities) + LargeTlv(a.large)
  }

  method AnchorAttrBytes(a: Anchor) returns (out: seq<Byte>)
    ensures out == AttrBytes(a)
  {
    if |a.communities| == 0 && |a.large| == 0 { return []; }
    out := [];
    var n := |a.communities|;
    if n > 0 {
      if n > 63 { n := 63; }
      out := out + [ATTR_COMMUNITY, n * 4];
      for i := 0 to n
        invariant out == [ATTR_COMMUNITY, n * 4] + CommunityBlock(a.communities[..i])
      {
        var c := a.communities[i];
        assert a.communities[..i + 1][..i] == a.communities[..i];
        var asn: int, value: int := c.asn, c.value;
        out := out + [asn / 256, asn % 256, value / 256, value % 256];
      }
      assert a.communities[..n] == Capped(a.communities, MAX_COMMUNITIES);
    }
    assert out == CommunityTlv(a.communities);
    out := AppendLarge(out, a.large);
  }

  method AppendWords(b: seq<Byte>, c: LargeCommunity) returns (out: seq<Byte>)
    ensures out == b + LargeBytes(c)
  {
    hide Un32;
    out := b;
    var words := [c.global, c.data1, c.data2];
    for j := 0 to 3
      invariant out == b + WordBytes(words[..j])
    {
      assert words[..j + 1][..j] == words[..j];
      var w: int := words[j];
      out := out + [w / 0x100_0000, w / 0x1_0000 % 256, w / 256 % 256, w % 256];
    }
    ThreeWords(words);
    assert words[..3] == words;
  }

  function WordBytes(ws: seq<Word32>): (b: seq<Byte>) {
    if ws == [] then [] else WordBytes(ws[..|ws| - 1]) + Be32(ws[|ws| - 1])
  }

  lemma ThreeWords(ws: seq<Word32>)
    requires |ws| == 3
    ensures WordBytes(ws) == Be32(ws[0]) + Be32(ws[1]) + Be32(ws[2])
  {
    hide Be32;
    assert ws[..2][..1] == ws[..1] && ws[..1][..0] == [];
    assert WordBytes(ws[..1]) == Be32(ws[0]);
    assert WordBytes(ws[..2]) == Be32(ws[0]) + Be32(ws[1]);
  }

  method AppendLarge(b: seq<Byte>, large: seq<LargeCommunity>) returns (out: seq<Byte>)
    ensures out == b + LargeTlv(large)
  {
    hide LargeBytes;
    out := b;
    var n := |large|;
    if n > 0 {
      if n > 21 { n := 21; }
      out := out + [ATTR_LARGE, n * 12];
      ghost var head := [ATTR_LARGE, n * 12];
      for i := 0 to n
        invariant out == b + (head + LargeBlock(large[..i]))
      {
        assert large[..i + 1][..i] == large[..i];
        out := AppendWords(out, large[i]);
      }
      assert large[..n] == Capped(large, MAX_LARGE);
    }
  }

  // ----- redirect communities ---------------------------------------------------------------------------

  /** The 8-octet redirect-to-IPv4 community. */
  method RedirectIP4(nextHop: Addr) returns (ec: seq<Byte>)
    requires nextHop.V4?
    ensures ec == Redirect(nextHop)
  {
    var b := new Byte[8](_ => 0);
    b[0], b[1] := 0x01, 0x0c;
    C.CopyInto(b, 2, nextHop.o4);
    ec := b[..];
    assert ec == [0x01, 0x0c] + nextHop.o4 + [0, 0];
  }

  /** The 20-octet redirect-to-IPv6 community, in the form of section 2 of RFC 5701. */
  method RedirectI6(nextHop6: Addr) returns (ec: seq<Byte>)
    requires nextHop6.V6?
    ensures ec == Redirect(nextHop6)
  {
    var b := new Byte[20](_ => 0);
    C.CopyInto(b, 0, Be16(0x000c));
    C.CopyInto(b, 2, nextHop6.o16);
    ec := b[..];
    assert Be16(0x000c) == [0x00, 0x0c];
    assert ec[..2] == [0x00, 0x0c] && ec[2..18] == nextHop6.o16 && ec[18..] == [0, 0];
    assert ec == ec[..2] + ec[2..18] + ec[18..];
  }

  function Redirect(nextHop: Addr): (ec: seq<Byte>)
    ensures |ec| <= 20
  {
    match nextHop
    case NoAddr => []
    case V4(o) => [0x01, 0x0c] + o + [0, 0]
    case V6(o) => [0x00, 0x0c] + o + [0, 0]
  }

  // ----- the decoder ------------------------------------------------------------------------------------

  datatype Attr =
    | Blackhole
    | Communities(cs: seq<Community>)
    | LargeCommunities(ls: seq<LargeCommunity>)
    | RedirectTo(target: Addr)

  /** A received message; `attrs` is `None` when the TLVs do not parse. */
  datatype Msg = HelloMsg | EorMsg | Announce(net: Net, attrs: Option<seq<Attr>>) | Withdraw(net: Net)

  function DecodeNet(kind: Kind, bits: Byte, key: seq<Byte>): (n: Option<Net>) {
    if |key| == 4 then Some(Net(kind, Prefix(V4(key), bits)))
    else if |key| == 16 then Some(Net(kind, Prefix(V6(key), bits)))
    else None
  }

  /** Net and what follows it. */
  function SplitNet(body: seq<Byte>): (r: Option<(Net, seq<Byte>)>) {
    if |body| < 2 then None
    else
      var len := if body[0] == NET_IP4 || body[0] == NET_FLOW4 then 4 else 16;
      if body[0] !in {NET_IP4, NET_IP6, NET_FLOW4, NET_FLOW6} || |body| < 2 + len then None
      else
        var kind := if body[0] == NET_IP4 || body[0] == NET_IP6 then Unicast else Flow;
        var n := DecodeNet(kind, body[1], body[2..2 + len]);
        if n.None? then None else Some((n.value, body[2 + len..]))
  }

  function DecodeOneCommunity(b: seq<Byte>): (c: Community)
    requires |b| == 4
  {
    Community(Un16(b[..2]), Un16(b[2..]))
  }

  function DecodeCommunities(b: seq<Byte>): (cs: seq<Community>)
    requires |b| % 4 == 0
  {
    if b == [] then [] else DecodeCommunities(b[..|b| - 4]) + [DecodeOneCommunity(b[|b| - 4..])]
  }

  function DecodeOneLarge(b: seq<Byte>): (c: LargeCommunity)
    requires |b| == 12
  {
    LargeCommunity(Un32(b[..4]), Un32(b[4..8]), Un32(b[8..]))
  }

  function DecodeLarge(b: seq<Byte>): (cs: seq<LargeCommunity>)
    requires |b| % 12 == 0
  {
    if b == [] then [] else DecodeLarge(b[..|b| - 12]) + [DecodeOneLarge(b[|b| - 12..])]
  }

  function DecodeAttr(t: Byte, v: seq<Byte>): (a: Option<Attr>) {
    if t == ATTR_BLACKHOLE && v == [] then Some(Blackhole)
    else if t == ATTR_COMMUNITY && |v| % 4 == 0 then Some(Communities(DecodeCommunities(v)))
    else if t == ATTR_LARGE && |v| % 12 == 0 then Some(LargeCommunities(DecodeLarge(v)))
    else if t == ATTR_EXTCOMM && |v| == 8 && v[..2] == [0x01, 0x0c] then Some(RedirectTo(V4(v[2..6])))
    else if t == ATTR_EXTCOMM && |v| == 20 && v[..2] == [0x00, 0x0c] then Some(RedirectTo(V6(v[2..18])))
    else None
  }

  function DecodeAttrs(b: seq<Byte>): (r: Option<seq<Attr>>)
    decreases |b|
  {
    if b == [] then Some([])
    else if |b| < 2 then None
    else
      var len: int := b[1];
      if |b| < 2 + len then None
      else
        var first := DecodeAttr(b[0], b[2..2 + len]);
        var rest := DecodeAttrs(b[2 + len..]);
        if first.None? || rest.None? then None else Some([first.value] + rest.value)
  }

  function DecodeBody(op: Byte, body: seq<Byte>): (m: Option<Msg>) {
    if op == OP_HELLO && body == [] then Some(HelloMsg)
    else if op == OP_EOR && body == [] then Some(EorMsg)
    else
      var n := SplitNet(body);
      if n.None? then None
      else if op == OP_ADD then Some(Announce(n.value.0, DecodeAttrs(n.value.1)))
      else if op == OP_DEL && n.value.1 == [] then Some(Withdraw(n.value.0))
      else None
  }

  /** Takes one whole frame off the front of the receive buffer. */
  function TakeFrame(b: seq<Byte>): (r: Option<(Msg, seq<Byte>)>)
    ensures r.Some? ==> |r.value.1| < |b|
  {
    if |b| < HDR_LEN || b[0] != WIRE_VERSION then None
    else
      var len := Un32(b[4..8]);
      if len < HDR_LEN || len > |b| then None
      else
        var m := DecodeBody(b[1], b[HDR_LEN..len]);
        if m.None? then None else Some((m.value, b[len..]))
  }

  /** Every whole frame received so far. */
  function Decode(b: seq<Byte>): (ms: seq<Msg>)
    decreases |b|
  {
    var f := TakeFrame(b);
    if f.None? then [] else [f.value.0] + Decode(f.value.1)
  }

  // ----- framing round trip -----------------------------------------------------------------------------

  /** What the feed sends: valid prefixes, attributes of bounded size. */
  predicate Sendable(op: Op) {
    match op
    case Add(n, attrs) => ValidPrefix(n.prefix) && |attrs| <= 508 && (n.kind == Flow ==> |attrs| <= 255)
    case Del(n) => ValidPrefix(n.prefix)
    case _ => true
  }

  predicate AllSendable(ops: seq<Op>) { forall op | op in ops :: Sendable(op) }

  /** The message an operation stands for. */
  function Meaning(op: Op): (m: Msg) {
    match op
    case Hello => HelloMsg
    case Eor => EorMsg
    case Add(n, attrs) => Announce(n, DecodeAttrs(TlvBytes(n.kind, attrs)))
    case Del(n) => Withdraw(n)
  }

  function Meanings(ops: seq<Op>): (ms: seq<Msg>) {
    if ops == [] then [] else [Meaning(ops[0])] + Meanings(ops[1..])
  }

  lemma NetRoundTrip(n: Net, more: seq<Byte>)
    requires ValidPrefix(n.prefix)
    ensures SplitNet(NetBytes(n) + more) == Some((n, more))
  {
    var b := NetBytes(n) + more;
    var len := if n.prefix.addr.V4? then 4 else 16;
    assert b[2..2 + len] == AddrBytes(n.prefix.addr) && b[2 + len..] == more;
  }

  lemma BodyRoundTrip(op: Op)
    requires Sendable(op)
    ensures DecodeBody(OpCode(op), BodyOf(op)) == Some(Meaning(op))
    ensures |BodyOf(op)| <= 600
  {
    hide SplitNet, DecodeAttrs;
    match op
    case Hello =>
    case Eor =>
    case Add(n, attrs) => NetRoundTrip(n, TlvBytes(n.kind, attrs));
    case Del(n) =>
      NetRoundTrip(n, []);
      assert NetBytes(n) + [] == NetBytes(n);
  }

  lemma FrameLayout(op: Byte, body: seq<Byte>, more: seq<Byte>)
    requires |body| <= 600
    ensures var f := FrameBytes(op, body); var s := f + more;
            s[0] == WIRE_VERSION && s[1] == op && Un32(s[4..8]) == |f| && s[HDR_LEN..|f|] == body && s[|f|..] == more
  {
    hide Be32, Un32;
    var s := FrameBytes(op, body) + more;
    assert s[4..8] == Be32(HDR_LEN + |body|);
  }

  lemma CutFrame(s: seq<Byte>, k: nat, len: nat, m: Msg)
    requires k <= |s| && HDR_LEN <= len <= |s|
    requires s[0] == WIRE_VERSION && Un32(s[4..8]) == len && DecodeBody(s[1], s[HDR_LEN..len]) == Some(m)
    ensures TakeFrame(s[..k]) == if k < len then None else Some((m, s[len..k]))
  {
    hide Un32, DecodeBody;
    var b := s[..k];
    if k >= HDR_LEN { assert b[4..8] == s[4..8]; }
    if k >= len { assert b[HDR_LEN..len] == s[HDR_LEN..len] && b[len..] == s[len..k]; }
  }

  /** One frame comes off the front whole, and only once all of it has arrived. */
  lemma FrameRoundTrip(op: Op, more: seq<Byte>, k: nat)
    requires Sendable(op) && k <= |Encode(op) + more|
    ensures TakeFrame((Encode(op) + more)[..k]) ==
            if k < |Encode(op)| then None else Some((Meaning(op), more[..k - |Encode(op)|]))
  {
    hide Un32, DecodeBody, BodyOf, OpCode, Meaning, Sendable, TakeFrame, FrameBytes;
    BodyRoundTrip(op);
    var s, len := Encode(op) + more, |Encode(op)|;
    FrameLayout(OpCode(op), BodyOf(op), more);
    CutFrame(s, k, len, Meaning(op));
    if k >= len { assert s[len..k] == more[..k - len]; }
  }

  /** How many leading operations are complete within the first `k` bytes. */
  function Whole(ops: seq<Op>, k: nat): (n: nat)
    ensures n <= |ops|
  {
    if ops == [] || k < |Encode(ops[0])| then 0 else 1 + Whole(ops[1..], k - |Encode(ops[0])|)
  }

  /** However the byte stream is cut, the receiver has seen exactly a prefix of the operations. */
  lemma {:induction false} CutStreamIsPrefix(ops: seq<Op>, k: nat)
    requires AllSendable(ops) && k <= |Stream(ops)|
    ensures Decode(Stream(ops)[..k]) == Meanings(ops[..Whole(ops, k)])
    ensures k == |Stream(ops)| ==> Whole(ops, k) == |ops|
    decreases |ops|
  {
    hide TakeFrame, Encode, Meaning, Sendable;
    if ops == [] {
      NothingToTake();
    } else {
      FrameRoundTrip(ops[0], Stream(ops[1..]), k);
      var rest := ops[1..];
      if k >= |Encode(ops[0])| {
        var j := k - |Encode(ops[0])|;
        CutStreamIsPrefix(rest, j);
        var all := ops[..1 + Whole(rest, j)];
        assert all[0] == ops[0] && all[1..] == rest[..Whole(rest, j)];
      }
    }
  }

  lemma {:induction false} MeaningsConcat(a: seq<Op>, b: seq<Op>)
    ensures Meanings(a + b) == Meanings(a) + Meanings(b)
  {
    hide Meaning;
    if a == [] {
      assert a + b == b;
    } else {
      assert (a + b)[0] == a[0] && (a + b)[1..] == a[1..] + b;
      MeaningsConcat(a[1..], b);
    }
  }

  lemma {:induction false} StreamConcat(a: seq<Op>, b: seq<Op>)
    ensures Stream(a + b) == Stream(a) + Stream(b)
  {
    hide Encode;
    if a == [] {
      assert a + b == b;
    } else {
      assert (a + b)[0] == a[0] && (a + b)[1..] == a[1..] + b;
      StreamConcat(a[1..], b);
    }
  }

  /** The operations complete after `k` bytes take no more than those, and what is complete later is counted
      from the first one that was not. */
  lemma {:induction false} WholeLater(ops: seq<Op>, k: nat, later: nat)
    requires k <= later
    ensures var j := Whole(ops, k); var taken := |Stream(ops[..j])|;
            taken <= k && Whole(ops, later) == j + Whole(ops[j..], later - taken)
    decreases |ops|
  {
    hide Encode;
    var j := Whole(ops, k);
    if j == 0 {
      assert ops[..0] == [] && ops[0..] == ops;
    } else {
      var len := |Encode(ops[0])|;
      WholeLater(ops[1..], k - len, later - len);
      assert ops[..j][0] == ops[0] && ops[..j][1..] == ops[1..][..j - 1] && ops[j..] == ops[1..][j - 1..];
    }
  }

  /** Cutting the stream is handing over whole operations. After `k` bytes the receiver has those complete by
      then; the rest can be sent, and cut again, as a stream of its own from the first one that was not. */
  lemma CutIsHandOver(ops: seq<Op>, k: nat, later: nat)
    requires AllSendable(ops) && k <= later <= |Stream(ops)|
    ensures var j := Whole(ops, k); var taken := |Stream(ops[..j])|;
            && Decode(Stream(ops)[..k]) == Meanings(ops[..j]) && taken <= k
            && Stream(ops)[taken..] == Stream(ops[j..])
            && Decode(Stream(ops)[..later]) == Meanings(ops[..j]) + Decode(Stream(ops)[taken..][..later - taken])
  {
    hide Decode, Meanings, AllSendable, Stream, Whole;
    var j := Whole(ops, k);
    var taken := |Stream(ops[..j])|;
    CutStreamIsPrefix(ops, k);
    WholeLater(ops, k, later);
    StreamRest(ops, j);
    CutStreamIsPrefix(ops, later);
    CutStreamIsPrefix(ops[j..], later - taken);
    MeaningsRest(ops, j, Whole(ops[j..], later - taken));
  }

  lemma StreamRest(ops: seq<Op>, j: nat)
    requires j <= |ops|
    ensures |Stream(ops[..j])| <= |Stream(ops)| && Stream(ops)[|Stream(ops[..j])|..] == Stream(ops[j..])
    ensures AllSendable(ops) ==> AllSendable(ops[j..])
  {
    hide Stream, Sendable;
    assert ops == ops[..j] + ops[j..];
    StreamConcat(ops[..j], ops[j..]);
  }

  lemma MeaningsRest(ops: seq<Op>, j: nat, m: nat)
    requires j + m <= |ops|
    ensures Meanings(ops[..j + m]) == Meanings(ops[..j]) + Meanings(ops[j..][..m])
  {
    hide Meanings;
    assert ops[..j + m] == ops[..j] + ops[j..][..m];
    MeaningsConcat(ops[..j], ops[j..][..m]);
  }

  lemma NothingToTake()
    ensures TakeFrame([]) == None
  {
  }

  // ----- attribute round trip -----------------------------------------------------------------------------

  lemma OneCommunityRoundTrip(c: Community)
    ensures DecodeOneCommunity(CommunityBytes(c)) == c
  {
    hide Be16, Un16;
    var b := CommunityBytes(c);
    assert b[..2] == Be16(c.asn) && b[2..] == Be16(c.value);
  }

  lemma {:induction false} CommunitiesRoundTrip(cs: seq<Community>)
    ensures DecodeCommunities(CommunityBlock(cs)) == cs
  {
    hide DecodeOneCommunity, CommunityBytes;
    if cs == [] {
    } else {
      var rest, last := cs[..|cs| - 1], cs[|cs| - 1];
      CommunitiesRoundTrip(rest);
      OneCommunityRoundTrip(last);
      var b := CommunityBlock(cs);
      assert b[..|b| - 4] == CommunityBlock(rest) && b[|b| - 4..] == CommunityBytes(last);
    }
  }

  lemma OneLargeRoundTrip(c: LargeCommunity)
    ensures DecodeOneLarge(LargeBytes(c)) == c
  {
    hide Be32, Un32;
    var b := LargeBytes(c);
    assert b[..4] == Be32(c.global) && b[4..8] == Be32(c.data1) && b[8..] == Be32(c.data2);
  }

  lemma {:induction false} LargeRoundTrip(cs: seq<LargeCommunity>)
    ensures DecodeLarge(LargeBlock(cs)) == cs
  {
    hide DecodeOneLarge, LargeBytes;
    if cs == [] {
    } else {
      var rest, last := cs[..|cs| - 1], cs[|cs| - 1];
      LargeRoundTrip(rest);
      OneLargeRoundTrip(last);
      var b := LargeBlock(cs);
      assert b[..|b| - 12] == LargeBlock(rest) && b[|b| - 12..] == LargeBytes(last);
    }
  }

  lemma TlvRoundTrip(t: Byte, v: seq<Byte>, a: Attr, more: seq<Byte>, rest: seq<Attr>)
    requires |v| <= 255 && DecodeAttr(t, v) == Some(a) && DecodeAttrs(more) == Some(rest)
    ensures DecodeAttrs([t, |v|] + v + more) == Some([a] + rest)
  {
    hide DecodeAttr;
    var b := [t, |v|] + v + more;
    assert b[2..2 + |v|] == v && b[2 + |v|..] == more;
  }

  lemma LargeAttr(ls: seq<LargeCommunity>)
    ensures DecodeAttr(ATTR_LARGE, LargeBlock(ls)) == Some(LargeCommunities(ls))
  {
    hide DecodeLarge, LargeBlock;
    LargeRoundTrip(ls);
  }

  lemma CommunityAttr(cs: seq<Community>)
    ensures DecodeAttr(ATTR_COMMUNITY, CommunityBlock(cs)) == Some(Communities(cs))
  {
    hide DecodeCommunities, CommunityBlock;
    CommunitiesRoundTrip(cs);
  }

  function CommunityAttrs(cs: seq<Community>): (r: seq<Attr>) {
    if cs == [] then [] else [Communities(Capped(cs, MAX_COMMUNITIES))]
  }

  function LargeAttrs(ls: seq<LargeCommunity>): (r: seq<Attr>) {
    if ls == [] then [] else [LargeCommunities(Capped(ls, MAX_LARGE))]
  }

  /** The attributes an anchor is announced with. */
  function AnchorAttrs(a: Anchor): (r: seq<Attr>) {
    [Blackhole] + (CommunityAttrs(a.communities) + LargeAttrs(a.large))
  }

  lemma LargeTlvRoundTrip(ls: seq<LargeCommunity>)
    ensures DecodeAttrs(LargeTlv(ls)) == Some(LargeAttrs(ls))
  {
    hide DecodeAttr, LargeBlock;
    if ls != [] {
      var n := Capped(ls, MAX_LARGE);
      LargeAttr(n);
      TlvRoundTrip(ATTR_LARGE, LargeBlock(n), LargeCommunities(n), [], []);
      assert [ATTR_LARGE, 12 * |n|] + LargeBlock(n) + [] == LargeTlv(ls);
      assert [LargeCommunities(n)] + [] == [LargeCommunities(n)];
    }
  }

  lemma CommunityTlvRoundTrip(cs: seq<Community>, more: seq<Byte>, rest: seq<Attr>)
    requires DecodeAttrs(more) == Some(rest)
    ensures DecodeAttrs(CommunityTlv(cs) + more) == Some(CommunityAttrs(cs) + rest)
  {
    hide DecodeAttr, CommunityBlock, DecodeAttrs;
    if cs == [] {
      assert CommunityTlv(cs) + more == more && [] + rest == rest;
    } else {
      var n := Capped(cs, MAX_COMMUNITIES);
      CommunityAttr(n);
      TlvRoundTrip(ATTR_COMMUNITY, CommunityBlock(n), Communities(n), more, rest);
    }
  }

  /** BIRD reads back an anchor's communities up to the TLV caps. */
  lemma AnchorRoundTrip(a: Anchor)
    ensures DecodeAttrs(TlvBytes(Unicast, AttrBytes(a))) == Some(AnchorAttrs(a))
  {
    assert DecodeAttr(ATTR_BLACKHOLE, []) == Some(Blackhole);
    hide CommunityTlv, LargeTlv, CommunityAttrs, LargeAttrs, DecodeAttr, DecodeAttrs;
    LargeTlvRoundTrip(a.large);
    CommunityTlvRoundTrip(a.communities, LargeTlv(a.large), LargeAttrs(a.large));
    TlvRoundTrip(ATTR_BLACKHOLE, [], Blackhole, AttrBytes(a), CommunityAttrs(a.communities) + LargeAttrs(a.large));
    assert [ATTR_BLACKHOLE, 0] + [] + AttrBytes(a) == TlvBytes(Unicast, AttrBytes(a));
  }

  /** BIRD reads back the redirect target, of either family. */
  lemma RedirectRoundTrip(nextHop: Addr)
    requires nextHop.IsValid()
    ensures DecodeAttrs(TlvBytes(Flow, Redirect(nextHop))) == Some([RedirectTo(nextHop)])
  {
    var ec := Redirect(nextHop);
    if nextHop.V4? {
      assert ec[..2] == [0x01, 0x0c] && ec[2..6] == nextHop.o4;
    } else {
      assert ec[..2] == [0x00, 0x0c] && ec[2..18] == nextHop.o16;
    }
    assert DecodeAttr(ATTR_EXTCOMM, ec) == Some(RedirectTo(nextHop));
    TlvRoundTrip(ATTR_EXTCOMM, ec, RedirectTo(nextHop), [], []);
    assert [RedirectTo(nextHop)] + [] == [RedirectTo(nextHop)];
    assert [ATTR_EXTCOMM, |ec|] + ec + [] == TlvBytes(Flow, ec);
  }

  // ----- end to end ---------------------------------------------------------------------------------------

  /** What the feed means to tell BIRD. */
  datatype Intent = Begin | End | AnnounceAnchor(a: Anchor) | WithdrawAnchor(p: Prefix)
                  | AnnounceFlow(src: Prefix, target: Addr) | WithdrawFlow(src: Prefix)

  predicate ValidIntent(i: Intent) {
    match i
    case AnnounceAnchor(a) => ValidPrefix(a.prefix)
    case WithdrawAnchor(p) => ValidPrefix(p)
    case AnnounceFlow(src, target) => ValidPrefix(src) && target.IsValid()
    case WithdrawFlow(src) => ValidPrefix(src)
    case _ => true
  }

  function OpOf(i: Intent): (op: Op) {
    match i
    case Begin => Hello
    case End => Eor
    case AnnounceAnchor(a) => Add(Net(Unicast, a.prefix), AttrBytes(a))
    case WithdrawAnchor(p) => Del(Net(Unicast, p))
    case AnnounceFlow(src, target) => Add(Net(Flow, src), Redirect(target))
    case WithdrawFlow(src) => Del(Net(Flow, src))
  }

  /** Reading a message back. */
  function IntentOf(m: Msg): (i: Option<Intent>) {
    match m
    case HelloMsg => Some(Begin)
    case EorMsg => Some(End)
    case Withdraw(n) => Some(if n.kind == Unicast then WithdrawAnchor(n.prefix) else WithdrawFlow(n.prefix))
    case Announce(n, attrs) =>
      if attrs.None? then None
      else if n.kind == Flow then
        (if |attrs.value| == 1 && attrs.value[0].RedirectTo?
         then Some(AnnounceFlow(n.prefix, attrs.value[0].target))
         else None)
      else if attrs.value == [] || attrs.value[0] != Blackhole then None
      else
        var rest := attrs.value[1..];
        var cs := if rest != [] && rest[0].Communities? then rest[0].cs else [];
        var rest' := if rest != [] && rest[0].Communities? then rest[1..] else rest;
        var ls := if rest' != [] && rest'[0].LargeCommunities? then rest'[0].ls else [];
        Some(AnnounceAnchor(Anchor(n.prefix, cs, ls)))
  }

  /** An anchor's communities cut to the caps; everything else as it is. */
  function Cut(i: Intent): (r: Intent) {
    if i.AnnounceAnchor? then
      AnnounceAnchor(Anchor(i.a.prefix, Capped(i.a.communities, MAX_COMMUNITIES), Capped(i.a.large, MAX_LARGE)))
    else i
  }

  lemma AnchorMeaning(a: Anchor)
    ensures IntentOf(Meaning(OpOf(AnnounceAnchor(a)))) == Some(Cut(AnnounceAnchor(a)))
  {
    AnchorRoundTrip(a);
    hide DecodeAttrs, AttrBytes;
    var attrs := AnchorAttrs(a);
    assert attrs[0] == Blackhole;
    if a.communities != [] { assert attrs[1] == Communities(Capped(a.communities, MAX_COMMUNITIES)); }
    if a.large != [] {
      assert attrs[|attrs| - 1] == LargeCommunities(Capped(a.large, MAX_LARGE));
    }
  }

  lemma IntentMeaning(i: Intent)
    requires ValidIntent(i)
    ensures Sendable(OpOf(i)) && IntentOf(Meaning(OpOf(i))) == Some(Cut(i))
  {
    hide DecodeAttrs, AttrBytes, Capped;
    if i.AnnounceAnchor? { AnchorMeaning(i.a); }
    if i.AnnounceFlow? { RedirectRoundTrip(i.target); }
  }

  function OpsOf(xs: seq<Intent>): (ops: seq<Op>)
    ensures |ops| == |xs| && forall j | 0 <= j < |xs| :: ops[j] == OpOf(xs[j])
  {
    if xs == [] then [] else OpsOf(xs[..|xs| - 1]) + [OpOf(xs[|xs| - 1])]
  }

  lemma {:induction false} MeaningAt(ops: seq<Op>, j: nat)
    requires j < |ops|
    ensures |Meanings(ops)| == |ops| && Meanings(ops)[j] == Meaning(ops[j])
  {
    if j == 0 {
      if |ops| > 1 { MeaningAt(ops[1..], 0); }
    } else {
      MeaningAt(ops[1..], j - 1);
    }
  }

  lemma MeaningsLength(ops: seq<Op>)
    ensures |Meanings(ops)| == |ops|
  {
    if ops != [] { MeaningAt(ops, 0); }
  }

  /** Decoding any concatenation of frames gives back every operation in order, with prefix, attributes and
      redirect target; community lists come back cut to what one TLV holds. */
  lemma StreamRoundTrip(xs: seq<Intent>)
    requires forall i | i in xs :: ValidIntent(i)
    ensures var ms := Decode(Stream(OpsOf(xs)));
              |ms| == |xs| && forall j | 0 <= j < |xs| :: IntentOf(ms[j]) == Some(Cut(xs[j]))
  {
    hide Decode, Stream, Meanings, Sendable, ValidIntent, IntentOf, Cut, OpOf;
    var ops := OpsOf(xs);
    forall j | 0 <= j < |xs| ensures Sendable(ops[j]) { assert xs[j] in xs; IntentMeaning(xs[j]); }
    assert AllSendable(ops);
    CutStreamIsPrefix(ops, |Stream(ops)|);
    assert Stream(ops)[..|Stream(ops)|] == Stream(ops) && ops[..|ops|] == ops;
    MeaningsLength(ops);
    forall j | 0 <= j < |xs| ensures IntentOf(Meanings(ops)[j]) == Some(Cut(xs[j])) {
      assert xs[j] in xs;
      IntentMeaning(xs[j]);
      MeaningAt(ops, j);
    }
  }

  /** Nothing is lost exactly when the community lists fit the caps. */
  lemma LosslessIff(i: Intent)
    requires ValidIntent(i)
    ensures IntentOf(Meaning(OpOf(i))) == Some(i) <==>
            (i.AnnounceAnchor? ==> |i.a.communities| <= 63 && |i.a.large| <= 21)
  {
    hide IntentOf, Meaning, OpOf, ValidIntent;
    IntentMeaning(i);
  }

  /** The diff signature is faithful: equal attribute bytes mean the same communities reach BIRD. */
  lemma SignatureIffSameAttrs(a: Anchor, b: Anchor)
    ensures AttrBytes(a) == AttrBytes(b) <==>
            Capped(a.communities, MAX_COMMUNITIES) == Capped(b.communities, MAX_COMMUNITIES) &&
            Capped(a.large, MAX_LARGE) == Capped(b.large, MAX_LARGE)
  {
    AnchorMeaning(a.(prefix := Prefix(NoAddr, 0)));
    AnchorMeaning(b.(prefix := Prefix(NoAddr, 0)));
    AttrBytesCapped(a);
    AttrBytesCapped(b);
  }

  lemma AttrBytesCapped(a: Anchor)
    ensures AttrBytes(a) == AttrBytes(Anchor(a.prefix, Capped(a.communities, MAX_COMMUNITIES),
                                             Capped(a.large, MAX_LARGE)))
  {
  }

  // ----- the octets -----------------------------------------------------------------------------------------

  /** Version 1, the opcode, no flags, the length of the whole frame in network order, the body. */
  function Framed(op: Byte, body: seq<Byte>): (b: seq<Byte>)
    requires |body| < 0x1_0000
  {
    [1, op, 0, 0, 0, (8 + |body|) / 0x1_0000, (8 + |body|) / 256 % 256, (8 + |body|) % 256] + body
  }

  lemma FramedIs(op: Byte, body: seq<Byte>)
    requires |body| < 0x1_0000
    ensures FrameBytes(op, body) == Framed(op, body)
  {
    var n := 8 + |body|;
    assert n % 0x1_0000_0000 == n && n / 0x100_0000 == 0 && n / 0x1_0000 % 256 == n / 0x1_0000;
    assert Be32(n) == [0, n / 0x1_0000, n / 256 % 256, n % 256];
  }

  /** Net type, prefix length, address: 1 and 2 are BIRD's IPv4 and IPv6 unicast, 7 and 8 its flow types. */
  function NetOctets(p: Prefix, v4: Byte, v6: Byte): (b: seq<Byte>)
    requires ValidPrefix(p)
  {
    if p.addr.V4? then [v4, p.bits] + p.addr.o4 else [v6, p.bits] + p.addr.o16
  }

  lemma NetOctetsIs(p: Prefix)
    requires ValidPrefix(p)
    ensures NetBytes(Net(Unicast, p)) == NetOctets(p, 1, 2) && NetBytes(Net(Flow, p)) == NetOctets(p, 7, 8)
    ensures |NetOctets(p, 1, 2)| <= 18 && |NetOctets(p, 7, 8)| <= 18
  {
  }

  /** The redirect community: 8 octets of an IPv4 target, 20 of an IPv6 one. */
  function RedirectOctets(target: Addr): (b: seq<Byte>)
    requires target.IsValid()
  {
    if target.V4? then [2, 8, 0x01, 0x0c] + target.o4 + [0, 0] else [2, 20, 0x00, 0x0c] + target.o16 + [0, 0]
  }

  lemma RedirectOctetsIs(target: Addr)
    requires target.IsValid()
    ensures TlvBytes(Flow, Redirect(target)) == RedirectOctets(target) && |RedirectOctets(target)| <= 22
  {
    var ec := Redirect(target);
    assert |ec| == if target.V4? then 8 else 20;
    assert TlvBytes(Flow, ec) == [2, |ec|] + ec;
  }

  /** Every frame the feed can write, octet by octet. */
  lemma OnTheWire(i: Intent)
    requires ValidIntent(i)
    ensures i.Begin? ==> Encode(OpOf(i)) == [1, 4, 0, 0, 0, 0, 0, 8]
    ensures i.End? ==> Encode(OpOf(i)) == [1, 3, 0, 0, 0, 0, 0, 8]
    ensures i.AnnounceAnchor? ==> Encode(OpOf(i)) == Framed(1, NetOctets(i.a.prefix, 1, 2) + [1, 0] + AttrBytes(i.a))
    ensures i.WithdrawAnchor? ==> Encode(OpOf(i)) == Framed(2, NetOctets(i.p, 1, 2))
    ensures i.AnnounceFlow? ==> Encode(OpOf(i)) == Framed(1, NetOctets(i.src, 7, 8) + RedirectOctets(i.target))
    ensures i.WithdrawFlow? ==> Encode(OpOf(i)) == Framed(2, NetOctets(i.src, 7, 8))
  {
    hide AttrBytes, FrameBytes, Framed, NetOctets, NetBytes, RedirectOctets, Redirect;
    match i
    case Begin => FramedEmpty(4);
    case End => FramedEmpty(3);
    case AnnounceAnchor(a) =>
      NetOctetsIs(a.prefix);
      var body := NetOctets(a.prefix, 1, 2) + [1, 0] + AttrBytes(a);
      assert body == NetBytes(Net(Unicast, a.prefix)) + TlvBytes(Unicast, AttrBytes(a));
      FramedIs(1, body);
    case WithdrawAnchor(p) =>
      NetOctetsIs(p);
      FramedIs(2, NetOctets(p, 1, 2));
    case AnnounceFlow(src, target) =>
      NetOctetsIs(src);
      RedirectOctetsIs(target);
      FramedIs(1, NetOctets(src, 7, 8) + RedirectOctets(target));
    case WithdrawFlow(src) =>
      NetOctetsIs(src);
      FramedIs(2, NetOctets(src, 7, 8));
  }

  lemma FramedEmpty(op: Byte)
    ensures FrameBytes(op, []) == [1, op, 0, 0, 0, 0, 0, 8]
  {
    FramedIs(op, []);
    hide FrameBytes;
  }

  /** An anchor's attributes: type 4 with up to 63 communities of four octets, type 5 with up to 21 large ones of
      twelve, each list only if there are any. */
  lemma AttrOctets(a: Anchor)
    ensures var n := if |a.communities| <= 63 then |a.communities| else 63;
            var m := if |a.large| <= 21 then |a.large| else 21;
            AttrBytes(a) ==
            (if a.communities == [] then [] else [4, 4 * n] + CommunityBlock(a.communities[..n])) +
            (if a.large == [] then [] else [5, 12 * m] + LargeBlock(a.large[..m]))
  {
    hide CommunityBlock, LargeBlock;
    var n, m := if |a.communities| <= 63 then |a.communities| else 63, if |a.large| <= 21 then |a.large| else 21;
    assert Capped(a.communities, MAX_COMMUNITIES) == a.communities[..n] && Capped(a.large, MAX_LARGE) == a.large[..m];
  }

  lemma {:induction false} CommunityOctets(cs: seq<Community>, k: nat)
    requires k < |cs|
    ensures CommunityBlock(cs)[4 * k..4 * k + 4] ==
            [cs[k].asn / 256, cs[k].asn % 256, cs[k].value / 256, cs[k].value % 256]
  {
    var rest := cs[..|cs| - 1];
    if k < |rest| {
      CommunityOctets(rest, k);
      assert CommunityBlock(cs)[4 * k..4 * k + 4] == CommunityBlock(rest)[4 * k..4 * k + 4];
    }
  }

  function WordOctets(w: Word32): (b: seq<Byte>) { [w / 0x100_0000, w / 0x1_0000 % 256, w / 256 % 256, w % 256] }

  lemma {:induction false} LargeOctets(ls: seq<LargeCommunity>, k: nat)
    requires k < |ls|
    ensures LargeBlock(ls)[12 * k..12 * k + 12] ==
            WordOctets(ls[k].global) + WordOctets(ls[k].data1) + WordOctets(ls[k].data2)
  {
    hide WordOctets, Be32;
    var rest := ls[..|ls| - 1];
    if k < |rest| {
      LargeOctets(rest, k);
      assert LargeBlock(ls)[12 * k..12 * k + 12] == LargeBlock(rest)[12 * k..12 * k + 12];
    } else {
      WordOctetsIs(ls[k].global);
      WordOctetsIs(ls[k].data1);
      WordOctetsIs(ls[k].data2);
    }
  }

  lemma WordOctetsIs(w: Word32)
    ensures Be32(w) == WordOctets(w)
  {
  }
}
