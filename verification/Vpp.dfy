/** VPP as an abstract machine behind the materializers of internal/vpp, and the byte-level wrappers
    around its session calls. Any call may fail; a failing call changes nothing. */
module VppApi {
  import opened Model
  import opened Desired
  import C = Classify

  type Key = seq<Byte>
  /** A session's identity: its mask (one table per mask) and its stored key. */
  type SKey = (MaskKind, Key)

  // ----- policer configuration --------------------------------------------------------

  datatype Conf = Conf(cir: nat, cb: int, rate: RateType, colorAware: bool, conform: PolicerAction,
                       exceed: PolicerAction)
  datatype LivePolicer = LivePolicer(index: nat, conf: Conf)
  /** What a policer dump returns: neither the index nor the actions. */
  datatype PolicerInfo = PolicerInfo(cir: nat, cb: int)

  function U32(n: nat): (r: nat) { n % 0x1_0000_0000 }
  function U64(n: nat): (r: nat) { n % 0x1_0000_0000_0000_0000 }

  function CbMsForPps(burstPackets: nat, cirPps: nat): (ms: int) {
    if cirPps == 0 then 0 else U64(U64(burstPackets * 1000) + cirPps / 2) / cirPps
  }

  function ConfOf(spec: PolicerSpec): (c: Conf) {
    Conf(U32(spec.cir),
         if spec.rateType == Pps then CbMsForPps(spec.burstPackets, spec.cir) else spec.burstBytes,
         spec.rateType, spec.colorAware, spec.conform, spec.exceed)
  }

  /** A configuration carries out a spec: its rate in 32 bits, its own rate type, colour mode and actions, and as
      burst the bytes, or for packets a second the nearest number of milliseconds, ties upwards. */
  predicate RunsAs(c: Conf, spec: PolicerSpec) {
    && c.cir == spec.cir % 0x1_0000_0000
    && c.rate == spec.rateType && c.colorAware == spec.colorAware
    && c.conform == spec.conform && c.exceed == spec.exceed
    && (spec.rateType != Pps ==> c.cb == spec.burstBytes)
    && (spec.rateType == Pps && spec.cir == 0 ==> c.cb == 0)
    && (spec.rateType == Pps && spec.cir > 0 && MsInRange(spec) ==>
          Nearest(c.cb, spec.burstPackets * 1000, spec.cir))
  }

  /** `x` is the integer nearest to `a / c`, the upper one of two. */
  predicate Nearest(x: int, a: int, c: int) { 2 * (a - x * c) < c && 2 * (x * c - a) <= c }

  /** The millisecond computation stays within 64 bits. */
  predicate MsInRange(spec: PolicerSpec) { spec.burstPackets * 1000 + spec.cir / 2 < 0x1_0000_0000_0000_0000 }

  lemma Rounded(a: int, c: int)
    requires a >= 0 && c > 0
    ensures Nearest((a + c / 2) / c, a, c)
  {
    var h := c / 2;
    var q, r := (a + h) / c, (a + h) % c;
    assert q * c + r == a + h;
  }

  /** There is only one. */
  lemma NearestIsOne(a: int, c: int, x: int, y: int)
    requires c > 0 && Nearest(x, a, c) && Nearest(y, a, c)
    ensures x == y
  {
    if x < y { MultiplesApart(x, y, c); }
    if y < x { MultiplesApart(y, x, c); }
  }

  lemma MultiplesApart(x: int, y: int, c: int)
    requires x < y && c > 0
    ensures y * c >= x * c + c
  {
    var d := y - x - 1;
    assert y * c == (x + 1 + d) * c == x * c + c + d * c;
    assert d * c >= 0;
  }

  /** What is sent for a spec carries it out, and within 64 bits nothing else does. */
  lemma SentRunsAsIff(c: Conf, spec: PolicerSpec)
    ensures c == ConfOf(spec) ==> RunsAs(c, spec)
    ensures spec.rateType != Pps || MsInRange(spec) ==> (c == ConfOf(spec) <==> RunsAs(c, spec))
  {
    hide Nearest;
    if spec.rateType == Pps && spec.cir > 0 && MsInRange(spec) {
      var a := spec.burstPackets * 1000;
      MsIs(spec);
      hide CbMsForPps;
      Rounded(a, spec.cir);
      if RunsAs(c, spec) { NearestIsOne(a, spec.cir, c.cb, CbMsForPps(spec.burstPackets, spec.cir)); }
    }
  }

  lemma MsIs(spec: PolicerSpec)
    requires spec.cir > 0 && MsInRange(spec)
    ensures CbMsForPps(spec.burstPackets, spec.cir) == (spec.burstPackets * 1000 + spec.cir / 2) / spec.cir
  {
    var a := spec.burstPackets * 1000;
    assert U64(a) == a && U64(a + spec.cir / 2) == a + spec.cir / 2;
    hide U64;
  }

  function InfoOf(p: LivePolicer): (i: PolicerInfo) { PolicerInfo(p.conf.cir, p.conf.cb) }

  /** The policers with `conf` written at `index`. */
  function UpdateIndex(ps: map<string, LivePolicer>, index: nat, conf: Conf): (r: map<string, LivePolicer>) {
    map n | n in ps :: if ps[n].index == index then LivePolicer(index, conf) else ps[n]
  }

  predicate DistinctIndexes(ps: map<string, LivePolicer>) {
    forall a, b | a in ps && b in ps && ps[a].index == ps[b].index :: a == b
  }

  predicate GoodPolicers(ps: map<string, LivePolicer>) {
    DistinctIndexes(ps) && forall n | n in ps :: ps[n].index < NO_TABLE
  }

  predicate GoodTables(tables: map<MaskKind, nat>) {
    && (forall m | m in tables :: C.SpecOf(m).Some? && tables[m] < NO_TABLE)
    && (forall a, b | a in tables && b in tables && tables[a] == tables[b] :: a == b)
  }

  function MaskFamily(m: MaskKind): (f: C.Family) {
    if m == IP6Dst128 || m == IP6Src128 then C.IPv6 else C.IPv4
  }

  /** The table of `m` is the only one of its family. */
  predicate Lone(tables: map<MaskKind, nat>, m: MaskKind) {
    m in tables && forall o | o in tables && MaskFamily(o) == MaskFamily(m) :: o == m
  }

  /** A family's only table ends its chain: tables are created so and never deleted. */
  predicate GoodLinks(tables: map<MaskKind, nat>, next: map<nat, nat>) {
    forall m | m in tables && Lone(tables, m) :: tables[m] in next && next[tables[m]] == NO_TABLE
  }

  predicate GoodSessions(sessions: map<SKey, nat>, tables: map<MaskKind, nat>) {
    forall k | k in sessions :: k.0 in tables && TableKey(k.0, k.1) && sessions[k] < NO_TABLE
  }

  lemma LinksAfterAdd(tables: map<MaskKind, nat>, next: map<nat, nat>, mask: MaskKind, idx: nat)
    requires GoodLinks(tables, next) && mask !in tables && idx !in tables.Values
    ensures GoodLinks(tables[mask := idx], next[idx := NO_TABLE])
  {
    var t' := tables[mask := idx];
    forall m | Lone(t', m) ensures t'[m] in next[idx := NO_TABLE] && next[idx := NO_TABLE][t'[m]] == NO_TABLE {
      if m != mask {
        forall o | o in tables && MaskFamily(o) == MaskFamily(m) ensures o == m { assert o in t'; }
        assert Lone(tables, m);
      }
    }
  }

  lemma UpdateIndexAt(ps: map<string, LivePolicer>, name: string, conf: Conf)
    requires name in ps && DistinctIndexes(ps)
    ensures UpdateIndex(ps, ps[name].index, conf) == ps[name := LivePolicer(ps[name].index, conf)]
  {
  }

  // ----- sessions ---------------------------------------------------------------------

  /** The sessions of one mask's table. */
  function Slice(sessions: map<SKey, nat>, mask: MaskKind): (r: map<Key, nat>) {
    map sk | sk in sessions && sk.0 == mask :: sk.1 := sessions[sk]
  }

  function Hit(sessions: map<SKey, nat>, mask: MaskKind, key: Key): (h: nat) {
    if (mask, key) in sessions then sessions[(mask, key)] else NO_TABLE
  }

  /** A key VPP can hold on the mask's table: masking it changes nothing. */
  predicate TableKey(mask: MaskKind, key: Key) {
    var spec := C.SpecOf(mask);
    spec.Some? && |key| == spec.value.MatchVectors() * C.VEC &&
    C.Stored(spec.value, C.Zeros(spec.value.Skip() * C.VEC) + key) == key
  }

  /** A prefix without host bits for the mask's width. */
  predicate CanonicalFor(mask: MaskKind, p: Prefix) {
    C.SessionKey(mask, p).Some? ==>
      C.Canonical(C.SessionAddr(C.SpecOf(mask).value, p).value, C.SpecOf(mask).value.maskBits)
  }

  lemma CanonicalIsTableKey(mask: MaskKind, p: Prefix)
    requires CanonicalFor(mask, p) && C.SessionKey(mask, p).Some?
    ensures TableKey(mask, C.SessionKey(mask, p).value)
    ensures C.Stored(C.SpecOf(mask).value,
                     C.MatchBuffer(C.SpecOf(mask).value, C.SessionAddr(C.SpecOf(mask).value, p).value))
            == C.SessionKey(mask, p).value
  {
    C.StoredIsSessionKey(mask, p);
    C.DeleteBufferIsAddBuffer(mask, p);
    C.KeyShape(mask, p);
  }

  /** Masking twice is masking once, so whatever VPP stores is a key of its table. */
  lemma StoredIsTableKey(mask: MaskKind, full: seq<Byte>)
    requires C.SpecOf(mask).Some?
    requires |full| == (C.SpecOf(mask).value.Skip() + C.SpecOf(mask).value.MatchVectors()) * C.VEC
    ensures TableKey(mask, C.Stored(C.SpecOf(mask).value, full))
  {
    hide C.And, C.TableMaskOf, C.Stored, C.SpecOf;
    var ms := C.SpecOf(mask).value;
    C.StoredByOctets(mask, full);
    var key := C.Stored(ms, full);
    var again := C.Zeros(ms.Skip() * C.VEC) + key;
    C.StoredByOctets(mask, again);
    assert again[ms.Skip() * C.VEC..] == key;
    assert C.Stored(ms, again) == key;
  }

  /** The key VPP holds a prefix's session under. */
  function StoredKey(mask: MaskKind, p: Prefix): (r: Option<Key>) {
    var spec := C.SpecOf(mask);
    if spec.None? || C.SessionAddr(spec.value, p).None? then None
    else Some(C.Stored(spec.value, C.MatchBuffer(spec.value, C.SessionAddr(spec.value, p).value)))
  }

  lemma StoredKeyNeedsSpec(mask: MaskKind, p: Prefix)
    ensures StoredKey(mask, p).Some? ==> C.SpecOf(mask).Some?
  {
  }

  /** It is the key the agent computes, for a prefix without host bits. */
  lemma CanonicalStoredKey(mask: MaskKind, p: Prefix)
    requires CanonicalFor(mask, p)
    ensures StoredKey(mask, p) == C.SessionKey(mask, p)
  {
    if C.SessionKey(mask, p).Some? { CanonicalIsTableKey(mask, p); }
  }

  // ----- batched lookups ------------------------------------------------------------------

  /** A buffer cut into keys of `n` bytes, as the lookup plugin reads it. */
  function Cut(buf: seq<Byte>, n: nat): (keys: seq<seq<Byte>>)
    decreases |buf|
  {
    if n == 0 || |buf| < n then [] else Cut(buf[..|buf| - n], n) + [buf[|buf| - n..]]
  }

  function Joined(keys: seq<seq<Byte>>): (buf: seq<Byte>) {
    if keys == [] then [] else Joined(keys[..|keys| - 1]) + keys[|keys| - 1]
  }

  /** Keys of one length survive being packed into one request. */
  lemma {:induction false} CutJoined(keys: seq<seq<Byte>>, n: nat)
    requires n > 0 && forall i | 0 <= i < |keys| :: |keys[i]| == n
    ensures Cut(Joined(keys), n) == keys
  {
    if keys == [] {
    } else {
      var rest, last := keys[..|keys| - 1], keys[|keys| - 1];
      CutJoined(rest, n);
      var buf := Joined(keys);
      assert buf[..|buf| - n] == Joined(rest) && buf[|buf| - n..] == last;
      assert keys == rest + [last];
    }
  }

  /** The answer the plugin gives for one full buffer on the mask's table. */
  function HitOfBuffer(sessions: map<SKey, nat>, mask: MaskKind, full: seq<Byte>): (h: nat) {
    var spec := C.SpecOf(mask);
    if spec.Some? && |full| == (spec.value.Skip() + spec.value.MatchVectors()) * C.VEC
    then Hit(sessions, mask, C.Stored(spec.value, full))
    else NO_TABLE
  }

  lemma HitOfPrefix(sessions: map<SKey, nat>, mask: MaskKind, p: Prefix)
    requires C.SpecOf(mask).Some? && C.SessionAddr(C.SpecOf(mask).value, p).Some?
    ensures HitOfBuffer(sessions, mask,
                        C.MatchBuffer(C.SpecOf(mask).value, C.SessionAddr(C.SpecOf(mask).value, p).value))
            == Hit(sessions, mask, StoredKey(mask, p).value)
  {
  }

  const LOOKUP_CHUNK: nat := 1024

  // ----- free indexes --------------------------------------------------------------------------

  /** The numbers below `n`. */
  function Below(n: nat): (r: set<nat>)
    ensures |r| == n && forall i: nat :: i in r <==> i < n
  {
    if n == 0 then {} else Below(n - 1) + {n - 1}
  }

  /** Fewer than `n` numbers leave one below `n` free. */
  lemma FreeNumber(used: set<nat>, n: nat)
    requires |used| < n
    ensures exists i :: 0 <= i < n && i !in used
  {
    var all := Below(n);
    assert all - used == {} ==> used == all + (used - all);
    var i :| i in all - used;
  }

  function Used(ps: map<string, LivePolicer>): (r: set<nat>) { set n | n in ps :: ps[n].index }

  lemma {:induction false} UsedCard(ps: map<string, LivePolicer>)
    ensures |Used(ps)| <= |ps|
    decreases |ps|
  {
    if ps == map[] {
      assert Used(ps) == {};
    } else {
      var n :| n in ps;
      var rest := ps - {n};
      assert ps.Keys == rest.Keys + {n} && |rest.Keys| == |rest| && |ps.Keys| == |ps|;
      UsedCard(rest);
      assert Used(ps) == Used(rest) + {ps[n].index};
    }
  }

  lemma TablesFew(tables: map<MaskKind, nat>)
    requires GoodTables(tables)
    ensures |tables.Values| <= 6
  {
    var six := {IP4Dst32, IP4Dst24, IP6Dst128, IP4Src32, IP4Src24, IP6Src128};
    assert tables.Keys <= six;
    assert six == tables.Keys + (six - tables.Keys);
    ValuesCard(tables);
  }

  lemma {:induction false} ValuesCard(tables: map<MaskKind, nat>)
    ensures |tables.Values| <= |tables.Keys|
    decreases |tables|
  {
    if tables == map[] {
      assert tables.Values == {};
    } else {
      var m :| m in tables;
      var rest := tables - {m};
      assert tables.Keys == rest.Keys + {m} && |rest.Keys| == |rest| && |tables.Keys| == |tables|;
      ValuesCard(rest);
      assert tables.Values == rest.Values + {tables[m]};
    }
  }

  class Vpp {
    var policers: map<string, LivePolicer>
    var tables: map<MaskKind, nat>
    var sessions: map<SKey, nat>
    /** Next-table links, interface bindings per family, interface indexes. */
    var next: map<nat, nat>
    var bound4: map<nat, nat>
    var bound6: map<nat, nat>
    const ifaces: map<string, nat>
    /** Whether VPP refuses only what it cannot do, and the policers it takes. */
    const obliging: bool
    const accepts: PolicerSpec -> bool

    /** At most one table per mask, a family's only table ending its chain, no two policers on one index,
        every session on an existing table under a key and a hit VPP can represent. */
    ghost predicate Valid()
      reads this
    {
      GoodPolicers(policers) && GoodTables(tables) && GoodLinks(tables, next) && GoodSessions(sessions, tables)
    }

    constructor (ifaces: map<string, nat>, obliging: bool, accepts: PolicerSpec -> bool)
      ensures Valid() && policers == map[] && tables == map[] && sessions == map[]
      ensures next == map[] && bound4 == map[] && bound6 == map[] && this.ifaces == ifaces
    {
      policers, tables, sessions, next, bound4, bound6 := map[], map[], map[], map[], map[], map[];
      this.ifaces, this.obliging, this.accepts := ifaces, obliging, accepts;
    }

    // ----- policers ----------------------------------------------------------------------

    method DumpPolicers() returns (r: Result<map<string, PolicerInfo>>)
      ensures r.Ok? ==> r.value == map n | n in policers :: InfoOf(policers[n])
      ensures obliging ==> r.Ok?
    {
      var refuse: bool := *;
      if refuse && !obliging { return Err; }
      r := Ok(map n | n in policers :: InfoOf(policers[n]));
    }

    method AddPolicer(spec: PolicerSpec) returns (r: Result<nat>)
      requires GoodPolicers(policers)
      modifies this`policers
      ensures GoodPolicers(policers)
      ensures r.Err? ==> policers == old(policers)
      ensures r.Ok? ==> spec.name !in old(policers) &&
                        policers == old(policers)[spec.name := LivePolicer(r.value, ConfOf(spec))]
      ensures r.Ok? ==> RunsAs(policers[spec.name].conf, spec)
      ensures obliging && |old(policers)| < NO_TABLE ==> (r.Ok? <==> accepts(spec) && spec.name !in old(policers))
    {
      var idx: nat, refuse: bool := *, *;
      if |policers| < NO_TABLE {
        UsedCard(policers);
        FreeNumber(Used(policers), NO_TABLE);
        if obliging { idx :| 0 <= idx < NO_TABLE && idx !in Used(policers); }
      }
      if (refuse && !obliging) || !accepts(spec) || spec.name in policers || idx >= NO_TABLE || idx in Used(policers) {
        return Err;
      }
      SentRunsAsIff(ConfOf(spec), spec);
      policers := policers[spec.name := LivePolicer(idx, ConfOf(spec))];
      r := Ok(idx);
    }

    method UpdatePolicer(index: nat, spec: PolicerSpec) returns (ok: bool)
      requires GoodPolicers(policers)
      modifies this`policers
      ensures GoodPolicers(policers)
      ensures !ok ==> policers == old(policers)
      ensures ok ==> policers == UpdateIndex(old(policers), index, ConfOf(spec))
      ensures ok ==> forall n | n in policers && policers[n].index == index :: RunsAs(policers[n].conf, spec)
      ensures obliging && index in Used(old(policers)) ==> (ok <==> accepts(spec))
    {
      var refuse: bool := *;
      if (refuse && !obliging) || !accepts(spec) { return false; }
      SentRunsAsIff(ConfOf(spec), spec);
      policers := UpdateIndex(policers, index, ConfOf(spec));
      ok := true;
    }

    method DeletePolicerByName(name: string) returns (ok: bool)
      requires GoodPolicers(policers)
      modifies this`policers
      ensures GoodPolicers(policers)
      ensures !ok ==> policers == old(policers)
      ensures ok ==> name in old(policers) && policers == old(policers) - {name}
      ensures obliging ==> (ok <==> name in old(policers))
    {
      var refuse: bool := *;
      if (refuse && !obliging) || name !in policers { return false; }
      policers := policers - {name};
      ok := true;
    }

    // ----- tables ---------------------------------------------------------------------------

    /** The tables VPP lists, in some order, with their layouts. */
    method ListTables() returns (ids: seq<nat>, info: map<nat, C.TableInfo>)
      requires GoodTables(tables)
      ensures forall i | 0 <= i < |ids| :: ids[i] in info
      ensures forall t | t in tables ::
                C.SpecOf(t).Some? && tables[t] in ids && info[tables[t]] == C.InfoOf(C.SpecOf(t).value)
      ensures forall id | id in ids :: id in tables.Values
    {
      ids, info := [], map[];
      var todo := tables.Keys;
      while todo != {}
        invariant todo <= tables.Keys && forall i | 0 <= i < |ids| :: ids[i] in info
        invariant forall t | t in tables && t !in todo ::
                    tables[t] in ids && info[tables[t]] == C.InfoOf(C.SpecOf(t).value)
        invariant forall id | id in ids :: id in tables.Values
      {
        var t :| t in todo;
        ids := ids + [tables[t]];
        info := info[tables[t] := C.InfoOf(C.SpecOf(t).value)];
        todo := todo - {t};
      }
    }

    /** Recovers the mask of every table from its layout. */
    method FindTablesByMask() returns (r: Result<map<MaskKind, nat>>)
      requires GoodTables(tables)
      ensures r.Ok? ==> r.value == tables
      ensures obliging ==> r.Ok?
    {
      var refuse: bool := *;
      if refuse && !obliging { return Err; }
      var ids, info := ListTables();
      var out := C.RecoverTables(ids, info);
      hide GoodTables, C.LastWith;
      forall m ensures C.LastWith(ids, info, m) == if m in tables then Some(tables[m]) else None {
        C.RecoveredExactly(ids, info, tables, m);
      }
      assert out.Keys == tables.Keys;
      r := Ok(out);
    }

    method AddTable(mask: MaskKind) returns (r: Result<nat>)
      requires GoodTables(tables) && GoodLinks(tables, next) && mask !in tables
      modifies this`tables, this`next
      ensures GoodTables(tables) && GoodLinks(tables, next)
      ensures r.Err? ==> tables == old(tables) && next == old(next)
      ensures r.Ok? ==> tables == old(tables)[mask := r.value] && next == old(next)[r.value := NO_TABLE]
      ensures r.Ok? ==> forall m | m in old(tables) :: old(tables)[m] != r.value
      ensures obliging ==> (r.Ok? <==> C.SpecOf(mask).Some?)
    {
      hide GoodLinks;
      var idx: nat, refuse: bool := *, *;
      TablesFew(tables);
      FreeNumber(tables.Values, NO_TABLE);
      if obliging { idx :| 0 <= idx < NO_TABLE && idx !in tables.Values; }
      if (refuse && !obliging) || C.SpecOf(mask).None? || idx >= NO_TABLE || idx in tables.Values { return Err; }
      LinksAfterAdd(tables, next, mask, idx);
      tables := tables[mask := idx];
      next := next[idx := NO_TABLE];
      r := Ok(idx);
    }

    method DumpSessions(table: nat, mask: MaskKind) returns (r: Result<map<Key, nat>>)
      requires mask in tables && tables[mask] == table
      ensures r.Ok? ==> r.value == Slice(sessions, mask)
      ensures obliging ==> r.Ok?
    {
      var refuse: bool := *;
      if refuse && !obliging { return Err; }
      r := Ok(Slice(sessions, mask));
    }

    // ----- sessions ---------------------------------------------------------------------------

    /** classify_add_del_session: VPP stores the match region of the buffer under the table mask;
        deleting a session that is not there is an error. */
    method SessionCall(isAdd: bool, table: nat, mask: MaskKind, full: seq<Byte>, hit: nat) returns (ok: bool)
      requires GoodTables(tables) && GoodSessions(sessions, tables) && mask in tables && tables[mask] == table
      requires |full| == (C.SpecOf(mask).value.Skip() + C.SpecOf(mask).value.MatchVectors()) * C.VEC
      requires isAdd ==> hit < NO_TABLE
      modifies this`sessions
      ensures GoodSessions(sessions, tables)
      ensures !ok ==> sessions == old(sessions)
      ensures ok ==> var k := (mask, C.Stored(C.SpecOf(mask).value, full));
                     if isAdd then sessions == old(sessions)[k := hit]
                     else k in old(sessions) && sessions == old(sessions) - {k}
      ensures obliging ==> (ok <==> isAdd || (mask, C.Stored(C.SpecOf(mask).value, full)) in old(sessions))
    {
      var refuse: bool := *;
      StoredIsTableKey(mask, full);
      var k := (mask, C.Stored(C.SpecOf(mask).value, full));
      if (refuse && !obliging) || (!isAdd && k !in sessions) { return false; }
      sessions := if isAdd then sessions[k := hit] else sessions - {k};
      ok := true;
    }

    /** Any prefix of the mask's family goes in, under the key VPP makes of it. */
    method AddSession(table: nat, mask: MaskKind, prefix: Prefix, hit: nat) returns (ok: bool)
      requires GoodTables(tables) && GoodSessions(sessions, tables) && mask in tables && tables[mask] == table &&
               hit < NO_TABLE
      modifies this`sessions
      ensures GoodSessions(sessions, tables)
      ensures !ok ==> sessions == old(sessions)
      ensures ok ==> StoredKey(mask, prefix).Some? &&
                     sessions == old(sessions)[(mask, StoredKey(mask, prefix).value) := hit]
      ensures obliging ==> (ok <==> StoredKey(mask, prefix).Some?)
    {
      var spec := C.SpecOf(mask);
      var full := C.SessionMatch(spec.value, prefix);
      if full.None? { return false; }
      ok := SessionCall(true, table, mask, full.value, hit);
    }

    method DelSessionByKey(table: nat, mask: MaskKind, key: Key) returns (ok: bool)
      requires GoodTables(tables) && GoodSessions(sessions, tables) && mask in tables && tables[mask] == table &&
               TableKey(mask, key)
      modifies this`sessions
      ensures GoodSessions(sessions, tables)
      ensures !ok ==> sessions == old(sessions)
      ensures ok ==> (mask, key) in old(sessions) && sessions == old(sessions) - {(mask, key)}
      ensures obliging ==> (ok <==> (mask, key) in old(sessions))
    {
      var full := C.DeleteBuffer(C.SpecOf(mask).value, key);
      ok := SessionCall(false, table, mask, full, NO_TABLE);
    }

    // ----- point lookups ------------------------------------------------------------------------

    /** probe_classify_lookup: one hit per key packed in the buffer. */
    method ProbeClassifyLookup(table: nat, mask: MaskKind, keyLen: nat, buf: seq<Byte>) returns (r: Result<seq<nat>>)
      requires mask in tables && tables[mask] == table
      ensures r.Ok? ==> |r.value| == |Cut(buf, keyLen)|
      ensures r.Ok? ==> forall i | 0 <= i < |r.value| :: r.value[i] == HitOfBuffer(sessions, mask, Cut(buf, keyLen)[i])
      ensures obliging ==> r.Ok?
    {
      var refuse: bool := *;
      if refuse && !obliging { return Err; }
      var keys := Cut(buf, keyLen);
      r := Ok(seq(|keys|, (i: nat) requires i < |keys| reads this => HitOfBuffer(sessions, mask, keys[i])));
    }

    /** The match buffers of one chunk, packed. */
    method PackChunk(ms: C.MaskSpec, prefixes: seq<Prefix>) returns (r: Option<seq<Byte>>, keyLen: nat)
      ensures r.Some? ==> forall p | p in prefixes :: C.SessionAddr(ms, p).Some?
      ensures r.Some? ==> r.value ==
                            Joined(seq(|prefixes|, (i: nat) requires i < |prefixes| &&
                                       C.SessionAddr(ms, prefixes[i]).Some? =>
                                                  C.MatchBuffer(ms, C.SessionAddr(ms, prefixes[i]).value)))
      ensures (forall p | p in prefixes :: C.SessionAddr(ms, p).Some?) ==> r.Some?
      ensures r.Some? && prefixes != [] ==> keyLen == (ms.Skip() + ms.MatchVectors()) * C.VEC
    {
      var buf := [];
      keyLen := 0;
      ghost var keys: seq<seq<Byte>> := [];
      for i := 0 to |prefixes|
        invariant forall k | 0 <= k < i :: C.SessionAddr(ms, prefixes[k]).Some?
        invariant |keys| == i &&
                  forall k | 0 <= k < i :: keys[k] == C.MatchBuffer(ms, C.SessionAddr(ms, prefixes[k]).value)
        invariant buf == Joined(keys)
        invariant i > 0 ==> keyLen == (ms.Skip() + ms.MatchVectors()) * C.VEC
      {
        var m := C.SessionMatch(ms, prefixes[i]);
        if m.None? { return None, 0; }
        keyLen := |m.value|;
        buf := buf + m.value;
        ghost var longer := keys + [m.value];
        assert longer[..i] == keys;
        keys := longer;
      }
      assert keys == seq(|prefixes|, (i: nat) requires i < |prefixes| && C.SessionAddr(ms, prefixes[i]).Some? =>
                           C.MatchBuffer(ms, C.SessionAddr(ms, prefixes[i]).value));
      r := Some(buf);
    }

    method LookupOneChunk(table: nat, mask: MaskKind, ms: C.MaskSpec, prefixes: seq<Prefix>)
      returns (r: Result<seq<nat>>)
      requires mask in tables && tables[mask] == table && C.SpecOf(mask) == Some(ms)
      requires prefixes != []
      ensures r.Ok? ==> |r.value| == |prefixes|
      ensures r.Ok? ==> forall i | 0 <= i < |prefixes| ::
                StoredKey(mask, prefixes[i]).Some? &&
                r.value[i] == Hit(sessions, mask, StoredKey(mask, prefixes[i]).value)
      ensures obliging && (forall p | p in prefixes :: StoredKey(mask, p).Some?) ==> r.Ok?
    {
      hide C.MatchBuffer, C.Stored, C.TableMaskOf, Hit, HitOfBuffer, Cut, Joined, C.SpecOf;
      var buf, keyLen := PackChunk(ms, prefixes);
      if buf.None? { return Err; }
      ghost var keys := seq(|prefixes|, (i: nat) requires i < |prefixes| && C.SessionAddr(ms, prefixes[i]).Some? =>
                              C.MatchBuffer(ms, C.SessionAddr(ms, prefixes[i]).value));
      CutJoined(keys, keyLen);
      r := ProbeClassifyLookup(table, mask, keyLen, buf.value);
      if r.Ok? && |r.value| != |prefixes| { return Err; }
      forall i | 0 <= i < |prefixes|
        ensures StoredKey(mask, prefixes[i]).Some?
        ensures r.Ok? ==> r.value[i] == Hit(sessions, mask, StoredKey(mask, prefixes[i]).value)
      {
        HitOfPrefix(sessions, mask, prefixes[i]);
      }
    }

    /** Chunked lookups answer exactly like looking every prefix up on its own, for any list length. */
    method LookupHits(table: nat, mask: MaskKind, prefixes: seq<Prefix>) returns (r: Result<seq<nat>>)
      requires mask in tables && tables[mask] == table
      ensures r.Ok? ==> |r.value| == |prefixes|
      ensures r.Ok? ==> forall i | 0 <= i < |prefixes| ::
                StoredKey(mask, prefixes[i]).Some? &&
                r.value[i] == Hit(sessions, mask, StoredKey(mask, prefixes[i]).value)
      ensures obliging && (forall p | p in prefixes :: StoredKey(mask, p).Some?) ==> r.Ok?
    {
      hide StoredKey, Hit;
      if |prefixes| == 0 { return Ok([]); }
      StoredKeyNeedsSpec(mask, prefixes[0]);
      assert prefixes[0] in prefixes;
      var ms := C.SpecOf(mask);
      if ms.None? { return Err; }
      var out := [];
      var start := 0;
      while start < |prefixes|
        invariant 0 <= start <= |prefixes| && |out| == start
        invariant forall i | 0 <= i < start ::
                    StoredKey(mask, prefixes[i]).Some? &&
                    out[i] == Hit(sessions, mask, StoredKey(mask, prefixes[i]).value)
      {
        var end := if start + LOOKUP_CHUNK > |prefixes| then |prefixes| else start + LOOKUP_CHUNK;
        assert forall p | p in prefixes[start..end] :: p in prefixes;
        var part := LookupOneChunk(table, mask, ms.value, prefixes[start..end]);
        if part.Err? { return Err; }
        forall i | start <= i < end
          ensures StoredKey(mask, prefixes[i]).Some?
          ensures part.value[i - start] == Hit(sessions, mask, StoredKey(mask, prefixes[i]).value)
        {
          assert prefixes[start..end][i - start] == prefixes[i];
        }
        out := out + part.value;
        start := end;
      }
      r := Ok(out);
    }

    // ----- chain links and interface bindings ----------------------------------------------------

    method LinkTable(table: nat, nextTable: nat) returns (ok: bool)
      modifies this`next
      ensures next == if ok then old(next)[table := nextTable] else old(next)
    {
      if * { return false; }
      next := next[table := nextTable];
      ok := true;
    }

    /** policer_classify_set_interface: a family whose table is NO_TABLE is left alone; a combined call
        takes effect for ip4 only; detaching needs the table that is attached. */
    method SetPolicerInterface(sw: nat, ip4: nat, ip6: nat, isAdd: bool) returns (ok: bool)
      modifies this`bound4, this`bound6
      ensures !ok ==> bound4 == old(bound4) && bound6 == old(bound6)
      ensures ok && ip4 != NO_TABLE ==> bound6 == old(bound6)
      ensures ok && ip4 != NO_TABLE && isAdd ==> bound4 == old(bound4)[sw := ip4]
      ensures ok && ip4 != NO_TABLE && !isAdd ==>
                sw in old(bound4) && old(bound4)[sw] == ip4 && bound4 == old(bound4) - {sw}
      ensures ok && ip4 == NO_TABLE ==> bound4 == old(bound4)
      ensures ok && ip4 == NO_TABLE && ip6 != NO_TABLE && isAdd ==> bound6 == old(bound6)[sw := ip6]
      ensures ok && ip4 == NO_TABLE && ip6 != NO_TABLE && !isAdd ==>
                sw in old(bound6) && old(bound6)[sw] == ip6 && bound6 == old(bound6) - {sw}
      ensures ok && ip4 == NO_TABLE && ip6 == NO_TABLE ==> bound6 == old(bound6)
    {
      var refuse: bool := *;
      if refuse { return false; }
      if ip4 != NO_TABLE {
        if isAdd { bound4 := bound4[sw := ip4]; }
        else if sw in bound4 && bound4[sw] == ip4 { bound4 := bound4 - {sw}; }
        else { return false; }
      } else if ip6 != NO_TABLE {
        if isAdd { bound6 := bound6[sw := ip6]; }
        else if sw in bound6 && bound6[sw] == ip6 { bound6 := bound6 - {sw}; }
        else { return false; }
      }
      ok := true;
    }

    method DumpPolicerClassify(family: C.Family) returns (r: Result<map<nat, nat>>)
      ensures r.Ok? ==> r.value == if family == C.IPv4 then bound4 else bound6
    {
      if * { return Err; }
      r := Ok(if family == C.IPv4 then bound4 else bound6);
    }

    /** Interface indexes by name; a missing name is an error. */
    method IndexMap(names: seq<string>) returns (r: Result<map<string, nat>>)
      ensures r.Ok? ==> forall n | n in names :: n in ifaces && n in r.value && r.value[n] == ifaces[n]
    {
      var refuse: bool := *;
      if refuse || exists n | n in names :: n !in ifaces { return Err; }
      r := Ok(ifaces);
    }
  }
}
