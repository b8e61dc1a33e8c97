/** What the reconciler aims for: targets, drift, and the pure effects both apply paths are proved against. */
module Plan {
  import opened Model
  import opened Desired
  import opened VppApi
  import C = Classify

  /** `model.ParsePolicerName`: the pool a managed policer name belongs to. Its definition is not part
      of this model; every result holds for every such function. */
  type Parse = string -> Option<PoolID>

  // ----- policers -------------------------------------------------------------------------

  function Managed(ps: map<string, LivePolicer>, parse: Parse): (r: set<string>) {
    set n | n in ps && parse(n).Some?
  }

  /** Every learned index is the index VPP has that policer at. */
  predicate Sound(idx: map<string, nat>, ps: map<string, LivePolicer>) {
    forall n | n in idx :: n in ps && ps[n].index == idx[n]
  }

  predicate ManagedNames(idx: map<string, nat>, parse: Parse) {
    forall n | n in idx :: parse(n).Some?
  }

  /** Live policers, the indexes learned for them, and the naming scheme agree. */
  predicate Tracks(idx: map<string, nat>, ps: map<string, LivePolicer>, parse: Parse) {
    GoodPolicers(ps) && Sound(idx, ps) && ManagedNames(idx, parse)
  }

  lemma TracksGood(idx: map<string, nat>, ps: map<string, LivePolicer>, parse: Parse)
    requires Tracks(idx, ps, parse)
    ensures GoodPolicers(ps)
  {
  }

  /** Indexes VPP could have issued, under managed names; nothing says that they are right. */
  predicate Listed(idx: map<string, nat>, parse: Parse) {
    forall n | n in idx :: parse(n).Some? && idx[n] < NO_TABLE
  }

  lemma TracksListed(idx: map<string, nat>, ps: map<string, LivePolicer>, parse: Parse)
    requires Tracks(idx, ps, parse)
    ensures Listed(idx, parse)
  {
    forall n | n in idx ensures idx[n] < NO_TABLE { assert n in ps && ps[n].index == idx[n]; }
  }

  /** Where `idx` knows one of `names` and VPP has it, `idx` is right. */
  predicate RightFor(idx: map<string, nat>, ps: map<string, LivePolicer>, names: set<string>) {
    forall n | n in names && n in idx && n in ps :: idx[n] == ps[n].index
  }

  /** What a full pass needs of its indexes: right for the desired policers VPP has, and no other name unless
      VPP has it. A wrong index for a desired policer VPP lacks does no harm: adding it overwrites the index. */
  predicate Usable(idx: map<string, nat>, ps: map<string, LivePolicer>, want: set<string>) {
    RightFor(idx, ps, want) && forall n | n in idx && n !in want :: n in ps
  }

  lemma SoundIsUsable(idx: map<string, nat>, ps: map<string, LivePolicer>, want: set<string>)
    requires Sound(idx, ps)
    ensures Usable(idx, ps, want)
  {
  }

  /** Which policer sits at which index, whatever its configuration. */
  function Slots(ps: map<string, LivePolicer>): (r: map<string, nat>) { map n | n in ps :: ps[n].index }

  lemma SlotsApart(ps: map<string, LivePolicer>, ps0: map<string, LivePolicer>, name: string)
    requires ps - {name} == ps0 - {name}
    ensures Slots(ps) - {name} == Slots(ps0) - {name}
  {
    assert Slots(ps - {name}) == Slots(ps) - {name};
    assert Slots(ps0 - {name}) == Slots(ps0) - {name};
  }

  lemma SlotsUpdated(ps: map<string, LivePolicer>, index: nat, conf: Conf)
    ensures Slots(UpdateIndex(ps, index, conf)) == Slots(ps)
  {
  }

  /** Where a pass leaves one desired policer and what it knows of it: a known policer that VPP had stays at
      its index under the index that was known, any other one is known at the index it got. */
  predicate Placed(name: string, at0: map<string, nat>, idx0: map<string, nat>, at: map<string, nat>,
                   idx: map<string, nat>) {
    && name in at && name in idx
    && if name in at0 && name in idx0 then at[name] == at0[name] && idx[name] == idx0[name] else at[name] == idx[name]
  }

  lemma MinusMore<K, V>(m: map<K, V>, a: set<K>, k: K)
    ensures m - {} == m && (m - a) - {k} == m - (a + {k})
  {
    assert ((m - a) - {k}).Keys == (m - (a + {k})).Keys;
  }

  lemma ReplaceAt<T>(m: map<string, T>, name: string, x: T)
    ensures m[name := x] - {name} == m - {name} && (m - {name})[name := x] - {name} == m - {name}
    ensures name !in m ==> m - {name} == m
  {
    assert (m[name := x] - {name}).Keys == (m - {name}).Keys;
    assert ((m - {name})[name := x] - {name}).Keys == (m - {name}).Keys;
  }

  lemma TracksAfterDelete(idx: map<string, nat>, ps: map<string, LivePolicer>, parse: Parse, name: string)
    requires Tracks(idx, ps, parse)
    ensures Tracks(idx - {name}, ps - {name}, parse)
  {
  }

  lemma TracksAfterAdd(idx: map<string, nat>, ps: map<string, LivePolicer>, parse: Parse, name: string, p: LivePolicer)
    requires Tracks(idx, ps, parse) && name !in ps
    requires GoodPolicers(ps[name := p])
    ensures Tracks(idx, ps[name := p], parse)
    ensures parse(name).Some? ==> Tracks(idx[name := p.index], ps[name := p], parse)
  {
  }

  /** Desired policers by name; a later entry replaces an earlier one. */
  function ByName(specs: seq<PolicerSpec>): (r: map<string, PolicerSpec>)
    ensures forall n | n in r :: r[n].name == n && r[n] in specs
    ensures forall p | p in specs :: p.name in r
  {
    if specs == [] then map[]
    else ByName(specs[..|specs| - 1])[specs[|specs| - 1].name := specs[|specs| - 1]]
  }

  /** Live at the rate and burst of its spec, in bytes whatever the rate type: all that a pass looks at. */
  predicate OnRate(spec: PolicerSpec, p: LivePolicer) {
    p.conf.cir == spec.cir % 0x1_0000_0000 && p.conf.cb == spec.burstBytes
  }

  lemma OnRateIff(spec: PolicerSpec, p: LivePolicer)
    ensures OnRate(spec, p) <==> !Drifted(spec, InfoOf(p))
  {
  }

  predicate Drifted(spec: PolicerSpec, cur: PolicerInfo) {
    U32(spec.cir) != cur.cir || spec.burstBytes != cur.cb
  }

  /** The configuration sent for this spec reads back as not drifted. */
  predicate Steady(spec: PolicerSpec) {
    ConfOf(spec).cb == spec.burstBytes
  }

  lemma KbpsIsSteady(spec: PolicerSpec)
    requires spec.rateType != Pps
    ensures Steady(spec)
  {
  }

  /** Every policer of the state is. */
  predicate AllSteady(d: State) {
    forall n | n in ByName(d.policers) :: Steady(ByName(d.policers)[n])
  }

  /** The wanted policers run on the whole configuration that would be sent for them. */
  predicate AsSent(want: map<string, PolicerSpec>, ps: map<string, LivePolicer>) {
    forall n | n in want :: n in ps && ps[n].conf == ConfOf(want[n])
  }

  /** A pps policer is steady exactly when its millisecond burst equals its byte burst. */
  lemma PpsSteadyIff(spec: PolicerSpec)
    requires spec.rateType == Pps
    ensures Steady(spec) <==> OnRate(spec, LivePolicer(0, ConfOf(spec)))
    ensures spec.cir > 0 && MsInRange(spec) ==>
              (Steady(spec) <==> Nearest(spec.burstBytes, spec.burstPackets * 1000, spec.cir))
  {
    SentRunsAsIff(ConfOf(spec), spec);
    hide CbMsForPps, Nearest;
    if spec.cir > 0 && MsInRange(spec) && Nearest(spec.burstBytes, spec.burstPackets * 1000, spec.cir) {
      NearestIsOne(spec.burstPackets * 1000, spec.cir, spec.burstBytes, ConfOf(spec).cb);
    }
  }

  /** What a full pass leaves of one desired policer, given VPP and the index map before it. */
  predicate Settled(name: string, spec: PolicerSpec, ps0: map<string, LivePolicer>, idx0: map<string, nat>,
                    ps: map<string, LivePolicer>, idx: map<string, nat>)
  {
    && name in ps && name in idx
    && (name in ps0 && name in idx0 ==>
          ps[name] ==
          if Drifted(spec, InfoOf(ps0[name])) then LivePolicer(ps0[name].index, ConfOf(spec)) else ps0[name])
    && (name !in ps0 || name !in idx0 ==> ps[name].conf == ConfOf(spec))
  }

  /** Desired policers the pass has to rewrite: drifted ones, and ones whose index is unknown. */
  function ToUpdate(want: map<string, PolicerSpec>, ps: map<string, LivePolicer>,
                    idx: map<string, nat>): (r: set<string>) {
    set n | n in want && n in ps && (n !in idx || Drifted(want[n], InfoOf(ps[n])))
  }

  // ----- sessions -------------------------------------------------------------------------

  predicate Keyed(s: Session) { C.SessionKey(s.mask, s.prefix).Some? }

  function KeyOr(s: Session): (k: Key) {
    var k := C.SessionKey(s.mask, s.prefix);
    if k.Some? then k.value else []
  }

  /** A session's identity in VPP, namespaced by mask. */
  function SK(s: Session): (k: SKey) { (s.mask, KeyOr(s)) }

  function Keys(ss: seq<Session>): (r: set<SKey>) { set s | s in ss :: SK(s) }

  predicate DistinctKeys(ss: seq<Session>) {
    forall i, j | 0 <= i < j < |ss| :: SK(ss[i]) != SK(ss[j])
  }

  function IndexOf(idx: map<string, nat>, s: Session): (h: nat) {
    if s.policerName in idx then idx[s.policerName] else NO_TABLE
  }

  /** The session table that desired asks for: each key hits the index of the policer its session names. */
  function Goal(ss: seq<Session>, idx: map<string, nat>): (r: map<SKey, nat>)
    ensures r.Keys == Keys(ss)
  {
    if ss == [] then map[]
    else Goal(ss[..|ss| - 1], idx)[SK(ss[|ss| - 1]) := IndexOf(idx, ss[|ss| - 1])]
  }

  lemma {:induction false} GoalAt(ss: seq<Session>, idx: map<string, nat>, s: Session)
    requires DistinctKeys(ss) && s in ss
    ensures Goal(ss, idx)[SK(s)] == IndexOf(idx, s)
  {
    var rest, last := ss[..|ss| - 1], ss[|ss| - 1];
    if s == last {
    } else {
      assert s in rest;
      GoalAt(rest, idx, s);
      var i :| 0 <= i < |rest| && rest[i] == s;
      assert SK(ss[i]) != SK(ss[|ss| - 1]);
    }
  }

  /** Only the indexes of the policers named matter. */
  lemma {:induction false} GoalDependsOnNamed(ss: seq<Session>, a: map<string, nat>, b: map<string, nat>)
    requires forall s | s in ss :: IndexOf(a, s) == IndexOf(b, s)
    ensures Goal(ss, a) == Goal(ss, b)
  {
    if ss == [] {
    } else {
      GoalDependsOnNamed(ss[..|ss| - 1], a, b);
    }
  }

  datatype SessionWant = SessionWant(mask: MaskKind, prefix: Prefix, hit: nat, key: SKey)

  function WantOf(s: Session, idx: map<string, nat>): (w: SessionWant) {
    SessionWant(s.mask, s.prefix, IndexOf(idx, s), SK(s))
  }

  /** The wants of one mask, in desired order. */
  function WantsFor(ss: seq<Session>, mask: MaskKind, idx: map<string, nat>): (r: seq<SessionWant>) {
    if ss == [] then []
    else
      var last := ss[|ss| - 1];
      WantsFor(ss[..|ss| - 1], mask, idx) + if last.mask == mask then [WantOf(last, idx)] else []
  }

  function WantMap(ws: seq<SessionWant>): (r: map<SKey, nat>)
    ensures forall k | k in r :: exists w :: w in ws && w.key == k
    ensures forall w | w in ws :: w.key in r
  {
    if ws == [] then map[] else WantMap(ws[..|ws| - 1])[ws[|ws| - 1].key := ws[|ws| - 1].hit]
  }

  /** A want that can be installed on `mask`'s table. */
  predicate GoodWant(w: SessionWant, mask: MaskKind) {
    && w.mask == mask && CanonicalFor(mask, w.prefix) && C.SessionKey(mask, w.prefix).Some?
    && w.key == (mask, C.SessionKey(mask, w.prefix).value) && w.hit < NO_TABLE
  }

  predicate DistinctWants(ws: seq<SessionWant>) {
    forall i, j | 0 <= i < j < |ws| :: ws[i].key != ws[j].key
  }

  /** Every session names a policer with a known index and has a key. */
  predicate Resolvable(ss: seq<Session>, idx: map<string, nat>) {
    forall s | s in ss :: s.policerName in idx && Keyed(s)
  }

  /** Wants grouped by mask, each group in desired order. */
  predicate Grouped(byMask: map<MaskKind, seq<SessionWant>>, ss: seq<Session>, idx: map<string, nat>) {
    && byMask.Keys == (set s | s in ss :: s.mask)
    && forall m | m in byMask :: byMask[m] == WantsFor(ss, m, idx)
  }

  lemma {:induction false} NoWants(ss: seq<Session>, mask: MaskKind, idx: map<string, nat>)
    requires forall s | s in ss :: s.mask != mask
    ensures WantsFor(ss, mask, idx) == []
  {
    if ss == [] {
    } else {
      NoWants(ss[..|ss| - 1], mask, idx);
      assert ss[|ss| - 1] in ss;
    }
  }

  lemma GroupedStep(byMask: map<MaskKind, seq<SessionWant>>, ss: seq<Session>, s: Session, idx: map<string, nat>)
    requires Grouped(byMask, ss, idx)
    ensures var before := if s.mask in byMask then byMask[s.mask] else [];
            Grouped(byMask[s.mask := before + [WantOf(s, idx)]], ss + [s], idx)
  {
    hide WantOf;
    assert (ss + [s])[..|ss|] == ss;
    if s.mask !in byMask { NoWants(ss, s.mask, idx); }
    forall m ensures WantsFor(ss + [s], m, idx) == WantsFor(ss, m, idx) + if s.mask == m then [WantOf(s, idx)] else [] {
    }
  }

  /** `g` on one mask. */
  function OnMask(g: map<SKey, nat>, mask: MaskKind): (r: map<SKey, nat>) {
    map k | k in g && k.0 == mask :: g[k]
  }

  lemma OnMaskUpdate(g: map<SKey, nat>, mask: MaskKind, k: SKey, h: nat)
    ensures OnMask(g[k := h], mask) == if k.0 == mask then OnMask(g, mask)[k := h] else OnMask(g, mask)
  {
  }

  lemma WantMapSnoc(ws: seq<SessionWant>, w: SessionWant)
    ensures WantMap(ws + [w]) == WantMap(ws)[w.key := w.hit]
  {
    assert (ws + [w])[..|ws|] == ws;
  }

  lemma {:induction false} WantsForIsGoal(ss: seq<Session>, mask: MaskKind, idx: map<string, nat>)
    ensures WantMap(WantsFor(ss, mask, idx)) == OnMask(Goal(ss, idx), mask)
  {
    if ss == [] {
    } else {
      var rest, last := ss[..|ss| - 1], ss[|ss| - 1];
      WantsForIsGoal(rest, mask, idx);
      OnMaskUpdate(Goal(rest, idx), mask, SK(last), IndexOf(idx, last));
      WantMapSnoc(WantsFor(rest, mask, idx), WantOf(last, idx));
      assert WantsFor(rest, mask, idx) + [] == WantsFor(rest, mask, idx);
    }
  }

  lemma {:induction false} WantsForGood(ss: seq<Session>, mask: MaskKind, idx: map<string, nat>)
    requires Resolvable(ss, idx) && forall n | n in idx :: idx[n] < NO_TABLE
    ensures forall w | w in WantsFor(ss, mask, idx) :: GoodWant(w, mask)
  {
    if ss == [] {
    } else {
      var rest, last := ss[..|ss| - 1], ss[|ss| - 1];
      WantsForGood(rest, mask, idx);
      assert last in ss;
    }
  }

  lemma {:induction false} WantsForKeys(ss: seq<Session>, mask: MaskKind, idx: map<string, nat>)
    ensures forall w | w in WantsFor(ss, mask, idx) :: w.key in Keys(ss)
  {
    if ss == [] {
    } else {
      WantsForKeys(ss[..|ss| - 1], mask, idx);
      assert ss[|ss| - 1] in ss;
    }
  }

  lemma {:induction false} WantsForDistinct(ss: seq<Session>, mask: MaskKind, idx: map<string, nat>)
    requires DistinctKeys(ss)
    ensures DistinctWants(WantsFor(ss, mask, idx))
  {
    if ss == [] {
    } else {
      var rest, last := ss[..|ss| - 1], ss[|ss| - 1];
      WantsForDistinct(rest, mask, idx);
      WantsForKeys(rest, mask, idx);
      assert SK(last) !in Keys(rest);
    }
  }

  // ----- replacing one mask at a time ---------------------------------------------------------

  /** `g` on the masks in `done`, `s` on the others. */
  function Mix(s: map<SKey, nat>, g: map<SKey, nat>, done: set<MaskKind>): (r: map<SKey, nat>) {
    map k | k in s.Keys + g.Keys && (if k.0 in done then k in g else k in s) ::
      if k.0 in done then g[k] else s[k]
  }

  lemma MixStep(s: map<SKey, nat>, g: map<SKey, nat>, done: set<MaskKind>, mask: MaskKind)
    ensures Mix(Mix(s, g, done), g, {mask}) == Mix(s, g, done + {mask})
  {
  }

  function Within(a: set<SKey>, ms: set<MaskKind>): (r: set<SKey>) { set k | k in a && k.0 in ms }

  lemma WithinAdd(a: set<SKey>, ms: set<MaskKind>, mask: MaskKind)
    requires mask !in ms
    ensures |Within(a, ms + {mask})| == |Within(a, ms)| + |Within(a, {mask})|
  {
    assert Within(a, ms + {mask}) == Within(a, ms) + Within(a, {mask});
    assert Within(a, ms) !! Within(a, {mask});
  }

  /** Keys present on both sides with different hits. */
  function MovedKeys(s: map<SKey, nat>, g: map<SKey, nat>): (r: set<SKey>) {
    set k | k in s && k in g && s[k] != g[k]
  }

  /** The keys of one mask's table, namespaced. */
  function Namespaced(mask: MaskKind, keys: set<Key>): (r: set<SKey>) { set k | k in keys :: (mask, k) }

  /** What `applySessionUpserts` has done after the wants in `ws`: installed all of them, added the absent
      ones, moved the ones with another hit. */
  predicate Upserted(s0: map<SKey, nat>, ws: seq<SessionWant>, s: map<SKey, nat>, added: int, moved: int) {
    UpsertedMap(s0, WantMap(ws), s, added, moved)
  }

  /** `g` was installed over `s0`, with the number of keys added and re-pointed. */
  predicate UpsertedMap(s0: map<SKey, nat>, g: map<SKey, nat>, s: map<SKey, nat>, added: int, moved: int) {
    && s == s0 + g
    && added == |g.Keys - s0.Keys|
    && moved == |MovedKeys(s0, g)|
  }

  lemma UpsertedStart(s0: map<SKey, nat>)
    ensures Upserted(s0, [], s0, 0, 0)
  {
    assert WantMap([]).Keys - s0.Keys == {} && MovedKeys(s0, WantMap([])) == {};
  }

  lemma FreshWant(ws: seq<SessionWant>, w: SessionWant)
    requires DistinctWants(ws + [w])
    ensures w.key !in WantMap(ws)
  {
    forall v | v in ws ensures v.key != w.key {
      var i :| 0 <= i < |ws| && ws[i] == v;
      assert (ws + [w])[i].key != (ws + [w])[|ws|].key;
    }
  }

  lemma DistinctPrefix(ws: seq<SessionWant>, i: nat)
    requires DistinctWants(ws) && i < |ws|
    ensures DistinctWants(ws[..i] + [ws[i]])
  {
    assert ws[..i] + [ws[i]] == ws[..i + 1];
  }

  lemma UpsertedStep(s0: map<SKey, nat>, ws: seq<SessionWant>, s: map<SKey, nat>, added: int, moved: int,
                     w: SessionWant)
    requires Upserted(s0, ws, s, added, moved) && DistinctWants(ws + [w])
    ensures w.key !in s0 ==> Upserted(s0, ws + [w], s[w.key := w.hit], added + 1, moved)
    ensures w.key in s0 && s0[w.key] != w.hit ==> Upserted(s0, ws + [w], s[w.key := w.hit], added, moved + 1)
    ensures w.key in s0 && s0[w.key] == w.hit ==> Upserted(s0, ws + [w], s, added, moved)
    ensures w.key in s <==> w.key in s0
  {
    FreshWant(ws, w);
    WantMapSnoc(ws, w);
    hide WantMap, DistinctWants;
    CountAdded(s0, WantMap(ws), w.key, w.hit);
    CountMoved(s0, WantMap(ws), w.key, w.hit);
    PlusUpdate(s0, WantMap(ws), w.key, w.hit);
  }

  lemma PlusUpdate<K, V>(s0: map<K, V>, g: map<K, V>, k: K, h: V)
    ensures s0 + g[k := h] == (s0 + g)[k := h]
    ensures k in s0 && k !in g && s0[k] == h ==> s0 + g[k := h] == s0 + g
  {
    var a, b := s0 + g[k := h], (s0 + g)[k := h];
    assert a.Keys == b.Keys;
    forall x | x in a ensures a[x] == b[x] { }
    if k in s0 && k !in g && s0[k] == h {
      assert b.Keys == (s0 + g).Keys;
      forall x | x in b ensures b[x] == (s0 + g)[x] { }
    }
  }

  lemma MovedUpdate(s0: map<SKey, nat>, g: map<SKey, nat>, k: SKey, h: nat)
    requires k !in g
    ensures MovedKeys(s0, g[k := h]) == MovedKeys(s0, g) + if k in s0 && s0[k] != h then {k} else {}
    ensures k !in MovedKeys(s0, g)
  {
    var g' := g[k := h];
    forall x: SKey ensures x in MovedKeys(s0, g') <==> x in s0 && x in g' && s0[x] != g'[x] { }
    forall x: SKey ensures x in MovedKeys(s0, g) <==> x in s0 && x in g && s0[x] != g[x] { }
    hide MovedKeys;
    forall x: SKey ensures x in MovedKeys(s0, g') <==> x in MovedKeys(s0, g) || (x == k && k in s0 && s0[k] != h) {
      if x != k { assert x in g' <==> x in g; }
    }
  }

  lemma CountAdded(s0: map<SKey, nat>, g: map<SKey, nat>, k: SKey, h: nat)
    requires k !in g
    ensures |g[k := h].Keys - s0.Keys| == |g.Keys - s0.Keys| + if k !in s0 then 1 else 0
  {
    if k in s0 {
      assert g[k := h].Keys - s0.Keys == g.Keys - s0.Keys;
    } else {
      assert g[k := h].Keys - s0.Keys == (g.Keys - s0.Keys) + {k};
    }
  }

  lemma CountMoved(s0: map<SKey, nat>, g: map<SKey, nat>, k: SKey, h: nat)
    requires k !in g
    ensures |MovedKeys(s0, g[k := h])| == |MovedKeys(s0, g)| + if k in s0 && s0[k] != h then 1 else 0
  {
    MovedUpdate(s0, g, k, h);
    hide MovedKeys;
    if k in s0 && s0[k] != h {
      assert MovedKeys(s0, g[k := h]) == MovedKeys(s0, g) + {k};
    } else {
      assert MovedKeys(s0, g[k := h]) == MovedKeys(s0, g);
    }
  }

  /** The table grows by exactly the number of sessions added. */
  lemma UpsertedSize(s0: map<SKey, nat>, ws: seq<SessionWant>, s: map<SKey, nat>, added: int, moved: int)
    requires Upserted(s0, ws, s, added, moved)
    ensures |s| == |s0| + added
  {
    var g := WantMap(ws);
    assert s.Keys == s0.Keys + (g.Keys - s0.Keys);
    assert |s.Keys| == |s| && |s0.Keys| == |s0|;
  }

  /** Sweeping a mask's orphans and installing its wants puts the goal on that mask and nowhere else. */
  lemma MaskReplaced(s0: map<SKey, nat>, g: map<SKey, nat>, mask: MaskKind, orphans: set<SKey>)
    requires orphans == set k | k in s0 && k.0 == mask && k !in OnMask(g, mask)
    ensures (s0 - orphans) + OnMask(g, mask) == Mix(s0, g, {mask})
    ensures orphans == Within(s0.Keys - g.Keys, {mask})
    ensures OnMask(g, mask).Keys - (s0 - orphans).Keys == Within(g.Keys - s0.Keys, {mask})
    ensures MovedKeys(s0 - orphans, OnMask(g, mask)) == Within(MovedKeys(s0, g), {mask})
  {
  }

  /** The keys of a mask's sessions are keys of its table. */
  lemma SliceKeys(sessions: map<SKey, nat>, tables: map<MaskKind, nat>, mask: MaskKind)
    requires GoodSessions(sessions, tables)
    ensures forall k | k in Slice(sessions, mask) :: TableKey(mask, k)
  {
    hide TableKey, Slice;
    forall k | k in Slice(sessions, mask) ensures TableKey(mask, k) {
      SliceAt(sessions, mask, k);
      assert (mask, k) in sessions;
    }
  }

  lemma SliceAt(s: map<SKey, nat>, mask: MaskKind, k: Key)
    ensures k in Slice(s, mask) <==> (mask, k) in s
    ensures k in Slice(s, mask) ==> Slice(s, mask)[k] == s[(mask, k)]
  {
    if (mask, k) in s { assert (mask, k).0 == mask && (mask, k).1 == k; }
  }

  lemma {:induction false} NamespacedCard(mask: MaskKind, keys: set<Key>)
    ensures |Namespaced(mask, keys)| == |keys|
  {
    if keys != {} {
      var k :| k in keys;
      NamespacedCard(mask, keys - {k});
      assert Namespaced(mask, keys) == Namespaced(mask, keys - {k}) + {(mask, k)};
    }
  }

  datatype SessionCounts = SessionCounts(added: int, deleted: int, moved: int)

  /** The changes needed to take `s` to `g` on the masks in `done`, counted. */
  predicate CountsOn(s: map<SKey, nat>, g: map<SKey, nat>, done: set<MaskKind>, c: SessionCounts) {
    && c.added == |Within(g.Keys - s.Keys, done)|
    && c.deleted == |Within(s.Keys - g.Keys, done)|
    && c.moved == |Within(MovedKeys(s, g), done)|
  }

  /** Part-way through the masks: the goal is in place on `done`, the rest is as before. */
  predicate Swept(s0: map<SKey, nat>, g: map<SKey, nat>, done: set<MaskKind>, s: map<SKey, nat>, c: SessionCounts) {
    s == Mix(s0, g, done) && CountsOn(s0, g, done, c)
  }

  lemma SweptStart(s0: map<SKey, nat>, g: map<SKey, nat>)
    ensures Swept(s0, g, {}, s0, SessionCounts(0, 0, 0))
  {
    assert Within(g.Keys - s0.Keys, {}) == {} && Within(s0.Keys - g.Keys, {}) == {} &&
           Within(MovedKeys(s0, g), {}) == {};
    assert Mix(s0, g, {}).Keys == s0.Keys;
  }

  lemma MixAgrees(s0: map<SKey, nat>, g: map<SKey, nat>, done: set<MaskKind>, mask: MaskKind)
    requires mask !in done
    ensures Within(g.Keys - Mix(s0, g, done).Keys, {mask}) == Within(g.Keys - s0.Keys, {mask})
    ensures Within(Mix(s0, g, done).Keys - g.Keys, {mask}) == Within(s0.Keys - g.Keys, {mask})
  {
  }

  lemma MixMoves(s0: map<SKey, nat>, g: map<SKey, nat>, done: set<MaskKind>, mask: MaskKind)
    requires mask !in done
    ensures Within(MovedKeys(Mix(s0, g, done), g), {mask}) == Within(MovedKeys(s0, g), {mask})
  {
  }

  lemma SweptStep(s0: map<SKey, nat>, g: map<SKey, nat>, done: set<MaskKind>, s1: map<SKey, nat>, c: SessionCounts,
                  mask: MaskKind, s: map<SKey, nat>, d: SessionCounts)
    requires Swept(s0, g, done, s1, c) && mask !in done
    requires s == Mix(s1, g, {mask}) && CountsOn(s1, g, {mask}, d)
    ensures Swept(s0, g, done + {mask}, s, SessionCounts(c.added + d.added, c.deleted + d.deleted, c.moved + d.moved))
  {
    MixStep(s0, g, done, mask);
    MixAgrees(s0, g, done, mask);
    MixMoves(s0, g, done, mask);
    WithinAdd(g.Keys - s0.Keys, done, mask);
    WithinAdd(s0.Keys - g.Keys, done, mask);
    WithinAdd(MovedKeys(s0, g), done, mask);
    hide *;
  }

  /** Once every mask either side uses is swept, the table is the goal and the counts are total. */
  lemma SweptEnd(s0: map<SKey, nat>, g: map<SKey, nat>, done: set<MaskKind>, s: map<SKey, nat>, c: SessionCounts)
    requires Swept(s0, g, done, s, c) && forall k | k in s0.Keys + g.Keys :: k.0 in done
    ensures s == g
    ensures c == SessionCounts(|g.Keys - s0.Keys|, |s0.Keys - g.Keys|, |MovedKeys(s0, g)|)
  {
    WithinAll(g.Keys - s0.Keys, done);
    WithinAll(s0.Keys - g.Keys, done);
    WithinAll(MovedKeys(s0, g), done);
    MixAll(s0, g, done);
  }

  lemma WithinAll(a: set<SKey>, done: set<MaskKind>)
    requires forall k | k in a :: k.0 in done
    ensures Within(a, done) == a
  {
  }

  lemma MixAll(s0: map<SKey, nat>, g: map<SKey, nat>, done: set<MaskKind>)
    requires forall k | k in s0.Keys + g.Keys :: k.0 in done
    ensures Mix(s0, g, done) == g
  {
    assert Mix(s0, g, done).Keys == g.Keys;
  }

  // ----- relearning indexes after an agent restart -------------------------------------------

  /** `relearnPolicerIndexes`: an unknown policer takes the hit of the first installed session naming it. */
  function Relearn(ss: seq<Session>, idx: map<string, nat>, sessions: map<SKey, nat>): (r: map<string, nat>)
    ensures idx.Keys <= r.Keys && forall n | n in idx :: r[n] == idx[n]
  {
    if ss == [] then idx
    else
      var known, last := Relearn(ss[..|ss| - 1], idx, sessions), ss[|ss| - 1];
      if last.policerName in known || !Keyed(last) || SK(last) !in sessions then known
      else known[last.policerName := sessions[SK(last)]]
  }

  lemma RelearnSnoc(ss: seq<Session>, s: Session, idx: map<string, nat>, sessions: map<SKey, nat>)
    ensures var known := Relearn(ss, idx, sessions);
            Relearn(ss + [s], idx, sessions) ==
            if s.policerName in known || !Keyed(s) || SK(s) !in sessions then known
            else known[s.policerName := sessions[SK(s)]]
  {
    assert (ss + [s])[..|ss|] == ss;
  }

  predicate Installed(s: Session, sessions: map<SKey, nat>) { Keyed(s) && SK(s) in sessions }

  /** The position of the first installed session naming `name`, or |ss|. */
  function FirstInstalled(ss: seq<Session>, name: string, sessions: map<SKey, nat>): (i: nat)
    ensures i <= |ss|
    ensures i < |ss| ==> ss[i].policerName == name && Installed(ss[i], sessions)
    ensures forall j | 0 <= j < i :: !(ss[j].policerName == name && Installed(ss[j], sessions))
  {
    if ss == [] then 0
    else
      var rest := ss[..|ss| - 1];
      var i := FirstInstalled(rest, name, sessions);
      assert forall j | 0 <= j < |rest| :: rest[j] == ss[j];
      if i < |rest| || (ss[|rest|].policerName == name && Installed(ss[|rest|], sessions)) then i else |ss|
  }

  lemma {:induction false} RelearnTakesFirst(ss: seq<Session>, idx: map<string, nat>, sessions: map<SKey, nat>,
                                             name: string)
    requires name !in idx
    ensures var i := FirstInstalled(ss, name, sessions);
            var r := Relearn(ss, idx, sessions);
            (name in r <==> i < |ss|) && (i < |ss| ==> r[name] == sessions[SK(ss[i])])
  {
    hide Keyed, SK;
    if ss == [] {
    } else {
      RelearnTakesFirst(ss[..|ss| - 1], idx, sessions, name);
    }
  }

  /** Relearning is right exactly when, for every policer it has to learn, the first installed session
      desired gives to it already hits that policer. */
  lemma RelearnSoundIff(ss: seq<Session>, idx: map<string, nat>, sessions: map<SKey, nat>, ps: map<string, LivePolicer>)
    requires Sound(idx, ps)
    ensures Sound(Relearn(ss, idx, sessions), ps) <==>
            forall i | 0 <= i < |ss| && ss[i].policerName !in idx &&
                       FirstInstalled(ss, ss[i].policerName, sessions) == i ::
              ss[i].policerName in ps && ps[ss[i].policerName].index == sessions[SK(ss[i])]
  {
    var r := Relearn(ss, idx, sessions);
    forall i | 0 <= i < |ss| && ss[i].policerName !in idx && FirstInstalled(ss, ss[i].policerName, sessions) == i
      ensures ss[i].policerName in r && r[ss[i].policerName] == sessions[SK(ss[i])]
    {
      RelearnTakesFirst(ss, idx, sessions, ss[i].policerName);
    }
    forall n | n in r && n !in idx
      ensures var i := FirstInstalled(ss, n, sessions);
                i < |ss| && ss[i].policerName == n && r[n] == sessions[SK(ss[i])]
    {
      RelearnTakesFirst(ss, idx, sessions, n);
    }
  }

  /** What the relearn step makes of the index map: nothing once every desired policer is known. */
  function RelearnStep(ds: State, idx: map<string, nat>, sessions: map<SKey, nat>): (r: map<string, nat>) {
    if forall p | p in ds.policers :: p.name in idx then idx else Relearn(ds.sessions, idx, sessions)
  }

  // ----- desired state against VPP -----------------------------------------------------------------

  /** What the controller sends: policer names parse to their pool, no two sessions share a mask and key,
      and sessions name policers of their own pool in the same state. */
  predicate WellFormed(d: State, parse: Parse) {
    && (forall p | p in d.policers :: parse(p.name) == Some(p.poolID))
    && DistinctKeys(d.sessions)
    && (forall s | s in d.sessions :: s.policerName in ByName(d.policers) && parse(s.policerName) == Some(s.poolID))
  }

  /** Some installed session of `ss` names the policer. */
  predicate Named(ss: seq<Session>, name: string, sessions: map<SKey, nat>) {
    FirstInstalled(ss, name, sessions) < |ss|
  }

  /** The index the first of them hits. */
  function FirstHit(ss: seq<Session>, name: string, sessions: map<SKey, nat>): (h: nat)
    requires Named(ss, name, sessions)
  {
    sessions[SK(ss[FirstInstalled(ss, name, sessions)])]
  }

  /** The relearn step adds exactly the desired policers that were unknown and that an installed session
      names, each at the index the first such session hits. */
  lemma RelearnedIs(d: State, idx: map<string, nat>, sessions: map<SKey, nat>, parse: Parse, n: string)
    requires WellFormed(d, parse)
    ensures var r := RelearnStep(d, idx, sessions);
            if n in idx then n in r && r[n] == idx[n]
            else (n in r <==> n in ByName(d.policers) && Named(d.sessions, n, sessions)) &&
                 (n in r ==> r[n] == FirstHit(d.sessions, n, sessions))
  {
    hide SK, Keyed, DistinctKeys, Relearn;
    var i := FirstInstalled(d.sessions, n, sessions);
    if i < |d.sessions| { assert d.sessions[i] in d.sessions && n in ByName(d.policers); }
    if n !in idx { RelearnTakesFirst(d.sessions, idx, sessions, n); }
  }

  lemma RelearnListed(d: State, idx: map<string, nat>, sessions: map<SKey, nat>, tables: map<MaskKind, nat>,
                      parse: Parse)
    requires WellFormed(d, parse) && Listed(idx, parse) && GoodSessions(sessions, tables)
    ensures Listed(RelearnStep(d, idx, sessions), parse)
  {
    var r := RelearnStep(d, idx, sessions);
    hide RelearnStep, DistinctKeys, TableKey, SK, Keyed;
    forall n | n in r ensures parse(n).Some? && r[n] < NO_TABLE {
      RelearnedIs(d, idx, sessions, parse, n);
    }
  }

  lemma RelearnedSound(d: State, idx: map<string, nat>, sessions: map<SKey, nat>, ps: map<string, LivePolicer>,
                       parse: Parse)
    requires WellFormed(d, parse) && Sound(RelearnStep(d, idx, sessions), ps)
    ensures Sound(idx, ps)
  {
    var r := RelearnStep(d, idx, sessions);
    hide RelearnStep, WellFormed;
    forall n | n in idx ensures n in ps && ps[n].index == idx[n] { RelearnedIs(d, idx, sessions, parse, n); }
  }

  /** Each desired policer that has to be learned is in VPP, at the index the first installed session naming
      it hits. */
  predicate FirstHitsLive(d: State, idx: map<string, nat>, sessions: map<SKey, nat>, ps: map<string, LivePolicer>) {
    forall n | n in ByName(d.policers) && n !in idx && Named(d.sessions, n, sessions) ::
      n in ps && ps[n].index == FirstHit(d.sessions, n, sessions)
  }

  /** The same of the ones VPP already has. */
  predicate FirstHitsRight(d: State, idx: map<string, nat>, sessions: map<SKey, nat>, ps: map<string, LivePolicer>) {
    forall n | n in ByName(d.policers) && n !in idx && n in ps && Named(d.sessions, n, sessions) ::
      ps[n].index == FirstHit(d.sessions, n, sessions)
  }

  /** After the relearn step every learned index is right exactly when each desired policer that had to be
      learned is in VPP, at the index the first installed session naming it hits. */
  lemma SoundAfterRelearnIff(d: State, idx: map<string, nat>, sessions: map<SKey, nat>, ps: map<string, LivePolicer>,
                             parse: Parse)
    requires WellFormed(d, parse) && Sound(idx, ps)
    ensures Sound(RelearnStep(d, idx, sessions), ps) <==> FirstHitsLive(d, idx, sessions, ps)
  {
    var r := RelearnStep(d, idx, sessions);
    hide RelearnStep, WellFormed, Named, FirstHit, ByName;
    forall n ensures if n in idx then n in r && r[n] == idx[n]
                     else (n in r <==> n in ByName(d.policers) && Named(d.sessions, n, sessions)) &&
                          (n in r ==> r[n] == FirstHit(d.sessions, n, sessions))
    {
      RelearnedIs(d, idx, sessions, parse, n);
    }
  }

  /** A pass can use what it learned exactly when that holds of the desired policers VPP already has. */
  lemma UsableAfterRelearnIff(d: State, idx: map<string, nat>, sessions: map<SKey, nat>, ps: map<string, LivePolicer>,
                              parse: Parse)
    requires WellFormed(d, parse) && Sound(idx, ps)
    ensures Usable(RelearnStep(d, idx, sessions), ps, ByName(d.policers).Keys) <==> FirstHitsRight(d, idx, sessions, ps)
  {
    var r := RelearnStep(d, idx, sessions);
    hide RelearnStep, WellFormed, Named, FirstHit, ByName;
    forall n ensures if n in idx then n in r && r[n] == idx[n]
                     else (n in r <==> n in ByName(d.policers) && Named(d.sessions, n, sessions)) &&
                          (n in r ==> r[n] == FirstHit(d.sessions, n, sessions))
    {
      RelearnedIs(d, idx, sessions, parse, n);
    }
  }

  /** VPP already is what desired asks for, as far as a full pass can see. */
  predicate InPlace(d: State, ps: map<string, LivePolicer>, sessions: map<SKey, nat>, idx: map<string, nat>,
                    parse: Parse) {
    PolicersInPlace(ByName(d.policers), ps, idx, parse) && sessions == Goal(d.sessions, idx)
  }

  predicate PolicersInPlace(want: map<string, PolicerSpec>, ps: map<string, LivePolicer>, idx: map<string, nat>,
                            parse: Parse) {
    && Managed(ps, parse) == want.Keys
    && want.Keys <= idx.Keys
    && forall n | n in want :: n in ps && OnRate(want[n], ps[n])
  }

  /** The exact changes a completed full pass reports, given what it found and what it left. */
  predicate Reports(d: State, parse: Parse, ps0: map<string, LivePolicer>, idx0: map<string, nat>,
                    sessions0: map<SKey, nat>,
                    sessions: map<SKey, nat>, pAdded: int, pUpdated: int, pDeleted: int, c: SessionCounts)
  {
    && pAdded == |ByName(d.policers).Keys - ps0.Keys|
    && pUpdated == |OffRate(ByName(d.policers), ps0, idx0)|
    && pDeleted == |Managed(ps0, parse) - ByName(d.policers).Keys|
    && c == SessionCounts(|sessions.Keys - sessions0.Keys|, |sessions0.Keys - sessions.Keys|,
                          |MovedKeys(sessions0, sessions)|)
  }

  /** What a completed full pass leaves. */
  ghost predicate Converged(d: State, parse: Parse, ps0: map<string, LivePolicer>, idx0: map<string, nat>,
                            ps: map<string, LivePolicer>, idx: map<string, nat>, sessions: map<SKey, nat>)
  {
    && Tracks(idx, ps, parse)
    && Managed(ps, parse) == ByName(d.policers).Keys
    && (forall n | n in ByName(d.policers) :: Settled(n, ByName(d.policers)[n], ps0, idx0, ps, idx))
    && (forall n | parse(n).None? :: (n in ps <==> n in ps0) && (n in ps ==> ps[n] == ps0[n]))
    && sessions == Goal(d.sessions, idx)
  }

  lemma NoPolicerChangeIff(want: map<string, PolicerSpec>, ps0: map<string, LivePolicer>, idx0: map<string, nat>,
                           parse: Parse)
    requires forall n | n in want :: parse(n).Some?
    ensures |want.Keys - ps0.Keys| == 0 && |OffRate(want, ps0, idx0)| == 0 &&
            |Managed(ps0, parse) - want.Keys| == 0 <==>
            PolicersInPlace(want, ps0, idx0, parse)
  {
    InPlaceIffNothingToDo(want, ps0, idx0, parse);
    Empty(want.Keys - ps0.Keys);
    Empty(OffRate(want, ps0, idx0));
    Empty(Managed(ps0, parse) - want.Keys);
    hide *;
  }

  lemma Empty(a: set<string>)
    ensures |a| == 0 <==> a == {}
  {
  }

  lemma InPlaceIffNothingToDo(want: map<string, PolicerSpec>, ps0: map<string, LivePolicer>, idx0: map<string, nat>,
                              parse: Parse)
    requires forall n | n in want :: parse(n).Some?
    ensures want.Keys - ps0.Keys == {} && OffRate(want, ps0, idx0) == {} && Managed(ps0, parse) - want.Keys == {} <==>
            PolicersInPlace(want, ps0, idx0, parse)
  {
    hide OnRate;
    if want.Keys - ps0.Keys == {} && OffRate(want, ps0, idx0) == {} && Managed(ps0, parse) - want.Keys == {} {
      forall n | n in want ensures n in ps0 && n in idx0 && OnRate(want[n], ps0[n]) {
        assert n !in want.Keys - ps0.Keys;
        assert n !in OffRate(want, ps0, idx0);
      }
      forall n | n in Managed(ps0, parse) ensures n in want { assert n !in Managed(ps0, parse) - want.Keys; }
    }
  }

  lemma NoSessionChangeIff(s0: map<SKey, nat>, s: map<SKey, nat>)
    ensures |s.Keys - s0.Keys| == 0 && |s0.Keys - s.Keys| == 0 && |MovedKeys(s0, s)| == 0 <==> s == s0
  {
    if |s.Keys - s0.Keys| == 0 && |s0.Keys - s.Keys| == 0 && |MovedKeys(s0, s)| == 0 {
      assert s.Keys - s0.Keys == {} && s0.Keys - s.Keys == {} && MovedKeys(s0, s) == {};
      assert s.Keys == s0.Keys;
      forall k | k in s ensures s[k] == s0[k] { assert k !in MovedKeys(s0, s); }
    }
    if s == s0 {
      assert s.Keys - s0.Keys == {} && s0.Keys - s.Keys == {} && MovedKeys(s0, s) == {};
    }
  }

  /** Settled but unchanged policers keep their indexes. */
  lemma UnchangedIndexes(d: State, parse: Parse, ps0: map<string, LivePolicer>, idx0: map<string, nat>,
                         ps: map<string, LivePolicer>, idx: map<string, nat>, sessions: map<SKey, nat>)
    requires Usable(idx0, ps0, ByName(d.policers).Keys) && WellFormed(d, parse)
    requires Converged(d, parse, ps0, idx0, ps, idx, sessions)
    requires PolicersInPlace(ByName(d.policers), ps0, idx0, parse)
    ensures sessions == Goal(d.sessions, idx0)
  {
    hide Drifted, InfoOf, OnRate, DistinctKeys, Goal;
    forall s | s in d.sessions ensures IndexOf(idx, s) == IndexOf(idx0, s) {
      var n := s.policerName;
      OnRateIff(ByName(d.policers)[n], ps0[n]);
      assert Settled(n, ByName(d.policers)[n], ps0, idx0, ps, idx);
    }
    GoalDependsOnNamed(d.sessions, idx, idx0);
  }

  /** The drift signal is exact: a completed pass reports no change exactly when VPP already matched. */
  lemma NoChangeIffInPlace(d: State, parse: Parse, ps0: map<string, LivePolicer>, idx0: map<string, nat>,
                           sessions0: map<SKey, nat>,
                           ps: map<string, LivePolicer>, idx: map<string, nat>, sessions: map<SKey, nat>,
                           pAdded: int, pUpdated: int, pDeleted: int, c: SessionCounts)
    requires Usable(idx0, ps0, ByName(d.policers).Keys) && WellFormed(d, parse)
    requires Converged(d, parse, ps0, idx0, ps, idx, sessions)
    requires Reports(d, parse, ps0, idx0, sessions0, sessions, pAdded, pUpdated, pDeleted, c)
    ensures pAdded == 0 && pUpdated == 0 && pDeleted == 0 && c == SessionCounts(0, 0, 0) <==>
            InPlace(d, ps0, sessions0, idx0, parse)
  {
    var want := ByName(d.policers);
    NoPolicerChangeIff(want, ps0, idx0, parse);
    NoSessionChangeIff(sessions0, sessions);
    hide PolicersInPlace, OffRate, Managed, MovedKeys, Usable, WellFormed, Converged, Goal, ByName;
    if PolicersInPlace(want, ps0, idx0, parse) {
      UnchangedIndexes(d, parse, ps0, idx0, ps, idx, sessions);
    }
  }

  /** After a completed pass VPP is in place exactly when every policer the pass (re)wrote reads back as
      sent: always for kbps policers, and for a pps policer only by coincidence of its two bursts. */
  lemma InPlaceAfterPassIff(d: State, parse: Parse, ps0: map<string, LivePolicer>, idx0: map<string, nat>,
                            ps: map<string, LivePolicer>, idx: map<string, nat>, sessions: map<SKey, nat>)
    requires WellFormed(d, parse) && Converged(d, parse, ps0, idx0, ps, idx, sessions)
    ensures InPlace(d, ps, sessions, idx, parse) <==>
            forall n | n in ByName(d.policers) && (n !in ps0 || n in OffRate(ByName(d.policers), ps0, idx0)) ::
              Steady(ByName(d.policers)[n])
  {
    var want := ByName(d.policers);
    hide Tracks, DistinctKeys, Goal, Managed, CbMsForPps;
    forall n | n in want
      ensures n in ps && n in idx
      ensures OnRate(want[n], ps[n]) <==> (n !in ps0 || n in OffRate(want, ps0, idx0) ==> Steady(want[n]))
    {
      assert Settled(n, want[n], ps0, idx0, ps, idx);
    }
  }

  /** The policers a pass leaves alone because they read back as not drifted run as they would be sent. */
  predicate KeptAsSent(want: map<string, PolicerSpec>, ps0: map<string, LivePolicer>, idx0: map<string, nat>) {
    forall n | n in want && n in ps0 && n !in OffRate(want, ps0, idx0) :: ps0[n].conf == ConfOf(want[n])
  }

  /** After a completed pass every desired policer runs as it would be sent exactly when those the pass left
      alone already did: the pass compares rate and burst only. */
  lemma AsSentAfterPassIff(d: State, parse: Parse, ps0: map<string, LivePolicer>, idx0: map<string, nat>,
                           ps: map<string, LivePolicer>, idx: map<string, nat>, sessions: map<SKey, nat>)
    requires Converged(d, parse, ps0, idx0, ps, idx, sessions)
    ensures AsSent(ByName(d.policers), ps) <==> KeptAsSent(ByName(d.policers), ps0, idx0)
  {
    var want := ByName(d.policers);
    hide Tracks, Goal, Managed, ByName, ConfOf;
    forall n | n in want
      ensures n in ps && (ps[n].conf == ConfOf(want[n]) <==>
                          (n in ps0 && n !in OffRate(want, ps0, idx0) ==> ps0[n].conf == ConfOf(want[n])))
    {
      assert Settled(n, want[n], ps0, idx0, ps, idx);
    }
  }

  // ----- the same in the fields of the specs ------------------------------------------------------------

  /** Every wanted policer is live and carries out its spec. */
  predicate RunsOn(want: map<string, PolicerSpec>, ps: map<string, LivePolicer>) {
    forall n | n in want :: n in ps && RunsAs(ps[n].conf, want[n])
  }

  lemma AsSentRunsOn(want: map<string, PolicerSpec>, ps: map<string, LivePolicer>)
    requires AsSent(want, ps)
    ensures RunsOn(want, ps)
  {
    hide ConfOf, RunsAs;
    forall n | n in want ensures RunsAs(ps[n].conf, want[n]) { SentRunsAsIff(ps[n].conf, want[n]); }
  }

  /** The wanted policers that VPP had and a pass has to rewrite: index unknown, or another rate or burst. */
  function OffRate(want: map<string, PolicerSpec>, ps0: map<string, LivePolicer>,
                   idx0: map<string, nat>): (r: set<string>) {
    set n | n in want && n in ps0 && (n !in idx0 || !OnRate(want[n], ps0[n]))
  }

  /** A pass makes the policers VPP lacked and those off their rate carry out their specs, in place, and leaves
      every other one as it was. */
  predicate RatesSet(want: map<string, PolicerSpec>, ps0: map<string, LivePolicer>, idx0: map<string, nat>,
                     ps: map<string, LivePolicer>) {
    forall n | n in want ::
      && n in ps
      && (n !in ps0 || n in OffRate(want, ps0, idx0) ==> RunsAs(ps[n].conf, want[n]))
      && (n in ps0 && n in idx0 ==> ps[n].index == ps0[n].index)
      && (n in ps0 && n !in OffRate(want, ps0, idx0) ==> ps[n] == ps0[n])
  }

  /** Every wanted policer that is not in packets a second runs at its rate and burst. */
  predicate AtRate(want: map<string, PolicerSpec>, ps: map<string, LivePolicer>) {
    forall n | n in want && want[n].rateType != Pps :: n in ps && OnRate(want[n], ps[n])
  }

  /** Rates and bursts after a converged pass, whatever they were. */
  lemma PassSetsRates(d: State, parse: Parse, ps0: map<string, LivePolicer>, idx0: map<string, nat>,
                      ps: map<string, LivePolicer>, idx: map<string, nat>, sessions: map<SKey, nat>)
    requires Converged(d, parse, ps0, idx0, ps, idx, sessions)
    ensures RatesSet(ByName(d.policers), ps0, idx0, ps) && AtRate(ByName(d.policers), ps)
  {
    hide Tracks, Goal, Managed, ByName, Settled, RatesSet, AtRate;
    SettledSetsRates(ByName(d.policers), ps0, idx0, ps, idx);
    RatesSetAtRate(ByName(d.policers), ps0, idx0, ps);
  }

  lemma SettledSetsRates(want: map<string, PolicerSpec>, ps0: map<string, LivePolicer>, idx0: map<string, nat>,
                         ps: map<string, LivePolicer>, idx: map<string, nat>)
    requires forall n | n in want :: Settled(n, want[n], ps0, idx0, ps, idx)
    ensures RatesSet(want, ps0, idx0, ps)
  {
    hide RunsAs;
    forall n | n in want
      ensures n in ps && (n !in ps0 || n in OffRate(want, ps0, idx0) ==> RunsAs(ps[n].conf, want[n]))
      ensures n in ps0 && n in idx0 ==> ps[n].index == ps0[n].index
      ensures n in ps0 && n !in OffRate(want, ps0, idx0) ==> ps[n] == ps0[n]
    {
      assert Settled(n, want[n], ps0, idx0, ps, idx);
      SentRunsAsIff(ps[n].conf, want[n]);
    }
  }

  lemma ToUpdateIs(want: map<string, PolicerSpec>, ps0: map<string, LivePolicer>, idx0: map<string, nat>)
    ensures ToUpdate(want, ps0, idx0) == OffRate(want, ps0, idx0)
  {
  }

  lemma RatesSetAtRate(want: map<string, PolicerSpec>, ps0: map<string, LivePolicer>, idx0: map<string, nat>,
                       ps: map<string, LivePolicer>)
    requires RatesSet(want, ps0, idx0, ps)
    ensures AtRate(want, ps)
  {
    hide Nearest, MsInRange;
  }

  /** Position `i` is the last with its name. */
  predicate LastNamed(specs: seq<PolicerSpec>, i: nat) {
    i < |specs| && forall j | i < j < |specs| :: specs[j].name != specs[i].name
  }

  /** By name, the last entry counts, and every name has one. */
  lemma {:induction false} ByNameIsLast(specs: seq<PolicerSpec>, i: nat)
    requires LastNamed(specs, i)
    ensures specs[i].name in ByName(specs) && ByName(specs)[specs[i].name] == specs[i]
  {
    var rest := specs[..|specs| - 1];
    if i < |rest| {
      assert LastNamed(rest, i);
      ByNameIsLast(rest, i);
    }
  }

  // ----- installed pools and programmed counts -------------------------------------------------------

  /** The pools with at least one learned policer: what the pool-set hash is taken over. */
  function PoolSet(idx: map<string, nat>, parse: Parse): (r: set<PoolID>) {
    set n | n in idx && parse(n).Some? :: parse(n).value
  }

  /** After a completed pass the hashed pool set is the set of pools desired has policers for. */
  lemma HashedPoolsAreDesired(d: State, parse: Parse, ps0: map<string, LivePolicer>, idx0: map<string, nat>,
                              ps: map<string, LivePolicer>, idx: map<string, nat>, sessions: map<SKey, nat>)
    requires WellFormed(d, parse) && Converged(d, parse, ps0, idx0, ps, idx, sessions)
    ensures idx.Keys == ByName(d.policers).Keys
    ensures PoolSet(idx, parse) == set p | p in d.policers :: p.poolID
  {
    hide DistinctKeys, Goal, Drifted, ConfOf;
    forall n | n in idx ensures n in ByName(d.policers) { assert n in Managed(ps, parse); }
    forall n | n in ByName(d.policers) ensures n in idx {
      assert Settled(n, ByName(d.policers)[n], ps0, idx0, ps, idx);
    }
    forall p | p in d.policers ensures p.poolID in PoolSet(idx, parse) {
      assert p.name in idx && parse(p.name) == Some(p.poolID);
    }
  }

  lemma SliceCard(s: map<SKey, nat>, mask: MaskKind)
    ensures |Slice(s, mask)| == |Within(s.Keys, {mask})|
  {
    NamespacedCard(mask, Slice(s, mask).Keys);
    forall k: SKey ensures k in Namespaced(mask, Slice(s, mask).Keys) <==> k in Within(s.Keys, {mask}) {
      SliceAt(s, mask, k.1);
      assert k == (k.0, k.1);
    }
    assert Namespaced(mask, Slice(s, mask).Keys) == Within(s.Keys, {mask});
  }
}
