/** The controller's messages and the pure part of folding a delta into a held state
    (internal/agent/desiredstore.go). */
module Desired {
  import opened Model
  import C = Classify

  datatype RawSession = ClassifySession(poolID: PoolID, mask: MaskKind, prefix: Prefix, policerName: string)

  /** The controller sends member prefixes without host bits for the width of their mask. */
  predicate CanonicalSession(s: RawSession) {
    C.SessionKey(s.mask, s.prefix).Some? ==>
      C.Canonical(C.SessionAddr(C.SpecOf(s.mask).value, s.prefix).value, C.SpecOf(s.mask).value.maskBits)
  }

  type Session = s: RawSession | CanonicalSession(s)
    witness ClassifySession("", UnknownMask(0), Prefix(NoAddr, 0), "")

  datatype Community = Community(asn: Word16, value: Word16)
  datatype LargeCommunity = LargeCommunity(global: Word32, data1: Word32, data2: Word32)
  datatype Anchor = Anchor(prefix: Prefix, communities: seq<Community>, large: seq<LargeCommunity>)
  datatype FlowRedirect = FlowRedirect(srcPrefix: Prefix)

  datatype State = State(
    generation: nat, desiredVersion: nat, generatedAt: int,
    policers: seq<PolicerSpec>, sessions: seq<Session>,
    anchors: seq<Anchor>, flows: seq<FlowRedirect>,
    nextHop: Addr, nextHop6: Addr)

  datatype PoolDelta = PoolDelta(
    poolID: PoolID, policers: seq<PolicerSpec>, sessions: seq<Session>,
    anchors: seq<Anchor>, flows: seq<FlowRedirect>, nextHop: Addr, nextHop6: Addr)

  datatype Delta = Delta(
    baseGeneration: nat, generation: nat, desiredVersion: nat, generatedAt: int,
    upserts: seq<PoolDelta>, removed: seq<PoolID>)

  // ----- selectors --------------------------------------------------------------

  function PolicerPool(p: PolicerSpec): PoolID { p.poolID }
  function SessionPool(s: Session): PoolID { s.poolID }
  function AnchorPrefix(a: Anchor): Prefix { a.prefix }
  function FlowPrefix(f: FlowRedirect): Prefix { f.srcPrefix }
  function UpPolicers(u: PoolDelta): seq<PolicerSpec> { u.policers }
  function UpSessions(u: PoolDelta): seq<Session> { u.sessions }
  function UpAnchors(u: PoolDelta): seq<Anchor> { u.anchors }
  function UpFlows(u: PoolDelta): seq<FlowRedirect> { u.flows }

  // ----- sequences keyed by a selector --------------------------------------------

  /** `xs` without the elements whose key is in `drop`, order kept. */
  function FilterOut<T, K>(xs: seq<T>, drop: set<K>, keyOf: T -> K): (r: seq<T>)
    ensures forall x | x in r :: x in xs && keyOf(x) !in drop
    ensures forall x | x in xs && keyOf(x) !in drop :: x in r
  {
    if xs == [] then []
    else
      var last := xs[|xs| - 1];
      FilterOut(xs[..|xs| - 1], drop, keyOf) + if keyOf(last) in drop then [] else [last]
  }

  /** The subsequence of `xs` with key `k`. */
  function Keep<T, K(==)>(xs: seq<T>, k: K, keyOf: T -> K): (r: seq<T>)
    ensures forall x | x in r :: x in xs && keyOf(x) == k
    ensures forall x | x in xs && keyOf(x) == k :: x in r
  {
    if xs == [] then []
    else
      var last := xs[|xs| - 1];
      Keep(xs[..|xs| - 1], k, keyOf) + if keyOf(last) == k then [last] else []
  }

  /** Concatenation of one field over the upserts. */
  function Flatten<T>(ups: seq<PoolDelta>, field: PoolDelta -> seq<T>): (r: seq<T>)
  {
    if ups == [] then []
    else Flatten(ups[..|ups| - 1], field) + field(ups[|ups| - 1])
  }

  lemma {:induction false} FlattenMembers<T>(ups: seq<PoolDelta>, field: PoolDelta -> seq<T>)
    ensures forall x | x in Flatten(ups, field) :: exists u :: u in ups && x in field(u)
    ensures forall u, x | u in ups && x in field(u) :: x in Flatten(ups, field)
  {
    if ups == [] {
    } else {
      var rest, last := ups[..|ups| - 1], ups[|ups| - 1];
      FlattenMembers(rest, field);
      forall x | x in Flatten(ups, field) ensures exists u :: u in ups && x in field(u) {
        if x in Flatten(rest, field) {
          var u :| u in rest && x in field(u);
          assert u in ups;
        } else {
          assert last in ups;
        }
      }
      forall u, x | u in ups && x in field(u) ensures x in Flatten(ups, field) {
        if u != last { assert u in rest; }
      }
    }
  }

  predicate NoDup<T, K(==)>(xs: seq<T>, keyOf: T -> K) {
    forall i, j | 0 <= i < j < |xs| :: keyOf(xs[i]) != keyOf(xs[j])
  }

  lemma {:induction false} KeepConcat<T, K>(a: seq<T>, b: seq<T>, k: K, keyOf: T -> K)
    ensures Keep(a + b, k, keyOf) == Keep(a, k, keyOf) + Keep(b, k, keyOf)
  {
    if b == [] {
      assert a + b == a;
    } else {
      KeepConcat(a, b[..|b| - 1], k, keyOf);
      assert (a + b)[..|a + b| - 1] == a + b[..|b| - 1] && (a + b)[|a + b| - 1] == b[|b| - 1];
      KeepLast(a + b, k, keyOf);
      KeepLast(b, k, keyOf);
      hide Keep;
    }
  }

  lemma {:induction false} KeepAfterFilter<T, K>(xs: seq<T>, drop: set<K>, k: K, keyOf: T -> K)
    ensures Keep(FilterOut(xs, drop, keyOf), k, keyOf) == if k in drop then [] else Keep(xs, k, keyOf)
  {
    if xs == [] {
    } else {
      var rest, last := xs[..|xs| - 1], xs[|xs| - 1];
      KeepAfterFilter(rest, drop, k, keyOf);
      KeepConcat(FilterOut(rest, drop, keyOf), if keyOf(last) in drop then [] else [last], k, keyOf);
      assert Keep([last], k, keyOf) == if keyOf(last) == k then [last] else [];
    }
  }

  lemma {:induction false} FilterNoDup<T, K>(xs: seq<T>, drop: set<K>, keyOf: T -> K)
    requires NoDup(xs, keyOf)
    ensures NoDup(FilterOut(xs, drop, keyOf), keyOf)
  {
    if xs == [] {
    } else {
      FilterNoDup(xs[..|xs| - 1], drop, keyOf);
    }
  }

  lemma KeepLast<T, K>(xs: seq<T>, k: K, keyOf: T -> K)
    requires xs != []
    ensures var last := xs[|xs| - 1];
            Keep(xs, k, keyOf) == Keep(xs[..|xs| - 1], k, keyOf) + if keyOf(last) == k then [last] else []
  {
  }

  lemma {:induction false} KeepAll<T, K>(xs: seq<T>, k: K, keyOf: T -> K)
    requires forall x | x in xs :: keyOf(x) == k
    ensures Keep(xs, k, keyOf) == xs
  {
    if xs == [] {
    } else {
      var rest, last := xs[..|xs| - 1], xs[|xs| - 1];
      KeepLast(xs, k, keyOf);
      hide Keep;
      assert xs == rest + [last];
      assert last in xs;
      KeepAll(rest, k, keyOf);
    }
  }

  lemma {:induction false} KeepNone<T, K>(xs: seq<T>, k: K, keyOf: T -> K)
    requires forall x | x in xs :: keyOf(x) != k
    ensures Keep(xs, k, keyOf) == []
  {
    if xs == [] {
    } else {
      KeepNone(xs[..|xs| - 1], k, keyOf);
    }
  }

  /** Dropping touched keys and appending replacements, seen through one key. */
  lemma KeepOfReplaced<T, K>(xs: seq<T>, drop: set<K>, ys: seq<T>, k: K, keyOf: T -> K)
    ensures Keep(FilterOut(xs, drop, keyOf) + ys, k, keyOf) ==
            (if k in drop then [] else Keep(xs, k, keyOf)) + Keep(ys, k, keyOf)
  {
    KeepConcat(FilterOut(xs, drop, keyOf), ys, k, keyOf);
    KeepAfterFilter(xs, drop, k, keyOf);
  }

  // ----- merging a delta ----------------------------------------------------------

  function Touched(d: Delta): (r: set<PoolID>) {
    (set u | u in d.upserts :: u.poolID) + (set id | id in d.removed)
  }

  /** Prefixes that identify the anchors and flow redirects the delta replaces: the members of the
      touched pools in the held state, and whatever the upserts themselves announce. */
  function TouchedPrefixes(st: State, d: Delta): (r: set<Prefix>) {
    (set s | s in st.sessions && s.poolID in Touched(d) :: s.prefix) +
    (set a | a in Flatten(d.upserts, UpAnchors) :: a.prefix) +
    (set f | f in Flatten(d.upserts, UpFlows) :: f.srcPrefix)
  }

  /** The last valid next hop among the upserts, else the held one. */
  function LastHop(hop: Addr, ups: seq<PoolDelta>, hopOf: PoolDelta -> Addr): (r: Addr) {
    if ups == [] then hop
    else if hopOf(ups[|ups| - 1]).IsValid() then hopOf(ups[|ups| - 1])
    else LastHop(hop, ups[..|ups| - 1], hopOf)
  }

  function UpHop(u: PoolDelta): Addr { u.nextHop }
  function UpHop6(u: PoolDelta): Addr { u.nextHop6 }

  function MergeState(st: State, d: Delta): (r: State) {
    State(d.generation,
          if d.desiredVersion != 0 then d.desiredVersion else st.desiredVersion,
          st.generatedAt,
          FilterOut(st.policers, Touched(d), PolicerPool) + Flatten(d.upserts, UpPolicers),
          FilterOut(st.sessions, Touched(d), SessionPool) + Flatten(d.upserts, UpSessions),
          FilterOut(st.anchors, TouchedPrefixes(st, d), AnchorPrefix) + Flatten(d.upserts, UpAnchors),
          FilterOut(st.flows, TouchedPrefixes(st, d), FlowPrefix) + Flatten(d.upserts, UpFlows),
          LastHop(st.nextHop, d.upserts, UpHop), LastHop(st.nextHop6, d.upserts, UpHop6))
  }

  /** One upsert's contribution appended to a state. */
  function AddUpsert(st: State, u: PoolDelta): (r: State) {
    st.(policers := st.policers + u.policers, sessions := st.sessions + u.sessions,
        anchors := st.anchors + u.anchors, flows := st.flows + u.flows,
        nextHop := if u.nextHop.IsValid() then u.nextHop else st.nextHop,
        nextHop6 := if u.nextHop6.IsValid() then u.nextHop6 else st.nextHop6)
  }

  function AddUpserts(st: State, ups: seq<PoolDelta>): (r: State) {
    if ups == [] then st else AddUpsert(AddUpserts(st, ups[..|ups| - 1]), ups[|ups| - 1])
  }

  lemma {:induction false} AddUpsertsClosedForm(st: State, ups: seq<PoolDelta>)
    ensures var r := AddUpserts(st, ups);
            r.policers == st.policers + Flatten(ups, UpPolicers) &&
            r.sessions == st.sessions + Flatten(ups, UpSessions) &&
            r.anchors == st.anchors + Flatten(ups, UpAnchors) &&
            r.flows == st.flows + Flatten(ups, UpFlows) &&
            r.nextHop == LastHop(st.nextHop, ups, UpHop) &&
            r.nextHop6 == LastHop(st.nextHop6, ups, UpHop6) &&
            r.generation == st.generation && r.desiredVersion == st.desiredVersion && r.generatedAt == st.generatedAt
  {
    FlattenStep(st.policers, ups, UpPolicers);
    FlattenStep(st.sessions, ups, UpSessions);
    FlattenStep(st.anchors, ups, UpAnchors);
    FlattenStep(st.flows, ups, UpFlows);
    hide Flatten;
    if ups == [] {
    } else {
      AddUpsertsClosedForm(st, ups[..|ups| - 1]);
    }
  }

  /** Appending the concatenation appends the parts one after the other. */
  lemma FlattenStep<T>(xs: seq<T>, ups: seq<PoolDelta>, field: PoolDelta -> seq<T>)
    ensures ups == [] ==> xs + Flatten(ups, field) == xs
    ensures ups != [] ==> xs + Flatten(ups, field) == (xs + Flatten(ups[..|ups| - 1], field)) + field(ups[|ups| - 1])
  {
  }

  /** The held state without the touched pools' contributions. */
  function DropTouched(st: State, d: Delta): (r: State) {
    st.(policers := FilterOut(st.policers, Touched(d), PolicerPool),
        sessions := FilterOut(st.sessions, Touched(d), SessionPool),
        anchors := FilterOut(st.anchors, TouchedPrefixes(st, d), AnchorPrefix),
        flows := FilterOut(st.flows, TouchedPrefixes(st, d), FlowPrefix))
  }

  /** Dropping, then re-adding upsert by upsert, is the closed form. */
  lemma MergeInSteps(st: State, d: Delta)
    ensures var added := AddUpserts(DropTouched(st, d), d.upserts).(generation := d.generation);
            MergeState(st, d) ==
            if d.desiredVersion != 0 then added.(desiredVersion := d.desiredVersion) else added
  {
    AddUpsertsClosedForm(DropTouched(st, d), d.upserts);
  }

  /** Every resource of an upsert carries that upsert's pool id, and no pool is upserted twice. */
  predicate OwnIds(d: Delta) {
    && (forall u, p | u in d.upserts && p in u.policers :: p.poolID == u.poolID)
    && (forall u, s | u in d.upserts && s in u.sessions :: s.poolID == u.poolID)
    && (forall i, j | 0 <= i < j < |d.upserts| :: d.upserts[i].poolID != d.upserts[j].poolID)
  }

  /** One pool's part of a concatenation over upserts with distinct ids. */
  lemma {:induction false} KeepOfFlatten<T>(ups: seq<PoolDelta>, field: PoolDelta -> seq<T>, keyOf: T -> PoolID,
                                            pool: PoolID)
    requires forall u, x | u in ups && x in field(u) :: keyOf(x) == u.poolID
    requires forall i, j | 0 <= i < j < |ups| :: ups[i].poolID != ups[j].poolID
    ensures (forall u | u in ups :: u.poolID != pool) ==> Keep(Flatten(ups, field), pool, keyOf) == []
    ensures forall u | u in ups && u.poolID == pool :: Keep(Flatten(ups, field), pool, keyOf) == field(u)
  {
    if ups == [] {
      assert Flatten(ups, field) == [] && Keep([], pool, keyOf) == [];
    } else {
      var rest, last := ups[..|ups| - 1], ups[|ups| - 1];
      assert last in ups && forall u | u in rest :: u in ups;
      KeepOfFlatten(rest, field, keyOf, pool);
      KeepConcat(Flatten(rest, field), field(last), pool, keyOf);
      KeepOwn(field(last), last.poolID, pool, keyOf);
      hide Keep;
      assert Flatten(ups, field) == Flatten(rest, field) + field(last);
      hide Flatten;
      PoolPartStep(ups, field, pool, Keep(Flatten(rest, field), pool, keyOf));
    }
  }

  lemma KeepOwn<T>(xs: seq<T>, own: PoolID, pool: PoolID, keyOf: T -> PoolID)
    requires forall x | x in xs :: keyOf(x) == own
    ensures Keep(xs, pool, keyOf) == if own == pool then xs else []
  {
    if own == pool { KeepAll(xs, pool, keyOf); } else { KeepNone(xs, pool, keyOf); }
  }

  lemma PoolPartStep<T>(ups: seq<PoolDelta>, field: PoolDelta -> seq<T>, pool: PoolID, part: seq<T>)
    requires ups != [] && forall i, j | 0 <= i < j < |ups| :: ups[i].poolID != ups[j].poolID
    requires (forall u | u in ups[..|ups| - 1] :: u.poolID != pool) ==> part == []
    requires forall u | u in ups[..|ups| - 1] && u.poolID == pool :: part == field(u)
    ensures var last := ups[|ups| - 1]; var all := part + if last.poolID == pool then field(last) else [];
            ((forall u | u in ups :: u.poolID != pool) ==> all == []) &&
            forall u | u in ups && u.poolID == pool :: all == field(u)
  {
    var rest, last := ups[..|ups| - 1], ups[|ups| - 1];
    LastOwnsPool(ups);
    assert forall u | u in ups :: u in rest || u == last;
    assert last in ups && forall u | u in rest :: u in ups;
  }

  lemma LastOwnsPool(ups: seq<PoolDelta>)
    requires ups != [] && forall i, j | 0 <= i < j < |ups| :: ups[i].poolID != ups[j].poolID
    ensures forall u | u in ups && u.poolID == ups[|ups| - 1].poolID :: u == ups[|ups| - 1]
    ensures forall u | u in ups[..|ups| - 1] :: u.poolID != ups[|ups| - 1].poolID
  {
  }

  /** Merge is a per-pool override of policers and sessions: untouched pools keep theirs, an upserted
      pool has exactly what its upsert lists, a pool that is only removed has nothing. */
  lemma MergeOverridesPools(st: State, d: Delta, pool: PoolID)
    requires OwnIds(d)
    ensures pool !in d.removed && (forall u | u in d.upserts :: u.poolID != pool) ==>
              Keep(MergeState(st, d).policers, pool, PolicerPool) == Keep(st.policers, pool, PolicerPool) &&
              Keep(MergeState(st, d).sessions, pool, SessionPool) == Keep(st.sessions, pool, SessionPool)
    ensures forall u | u in d.upserts && u.poolID == pool ::
              Keep(MergeState(st, d).policers, pool, PolicerPool) == u.policers &&
              Keep(MergeState(st, d).sessions, pool, SessionPool) == u.sessions
    ensures pool in d.removed && (forall u | u in d.upserts :: u.poolID != pool) ==>
              Keep(MergeState(st, d).policers, pool, PolicerPool) == [] &&
              Keep(MergeState(st, d).sessions, pool, SessionPool) == []
  {
    KeepOfReplaced(st.policers, Touched(d), Flatten(d.upserts, UpPolicers), pool, PolicerPool);
    KeepOfReplaced(st.sessions, Touched(d), Flatten(d.upserts, UpSessions), pool, SessionPool);
    KeepOfFlatten(d.upserts, UpPolicers, PolicerPool, pool);
    KeepOfFlatten(d.upserts, UpSessions, SessionPool, pool);
  }

  /** The announcements of one delta name each prefix once. */
  predicate CleanAnnouncements(d: Delta) {
    NoDup(Flatten(d.upserts, UpAnchors), AnchorPrefix) && NoDup(Flatten(d.upserts, UpFlows), FlowPrefix)
  }

  predicate NoDuplicatePrefixes(st: State) {
    NoDup(st.anchors, AnchorPrefix) && NoDup(st.flows, FlowPrefix)
  }

  /** No duplicate anchor or flow source, whatever sessions the held state has or lacks. */
  lemma MergeKeepsPrefixesUnique(st: State, d: Delta)
    requires NoDuplicatePrefixes(st) && CleanAnnouncements(d)
    ensures NoDuplicatePrefixes(MergeState(st, d))
  {
    var drop := TouchedPrefixes(st, d);
    FilterNoDup(st.anchors, drop, AnchorPrefix);
    FilterNoDup(st.flows, drop, FlowPrefix);
    forall x, y | x in FilterOut(st.anchors, drop, AnchorPrefix) && y in Flatten(d.upserts, UpAnchors)
      ensures x.prefix != y.prefix
    {
      assert y.prefix in drop;
    }
    forall x, y | x in FilterOut(st.flows, drop, FlowPrefix) && y in Flatten(d.upserts, UpFlows)
      ensures x.srcPrefix != y.srcPrefix
    {
      assert y.srcPrefix in drop;
    }
    AppendNoDup(FilterOut(st.anchors, drop, AnchorPrefix), Flatten(d.upserts, UpAnchors), AnchorPrefix);
    AppendNoDup(FilterOut(st.flows, drop, FlowPrefix), Flatten(d.upserts, UpFlows), FlowPrefix);
  }

  lemma AppendNoDup<T, K>(a: seq<T>, b: seq<T>, keyOf: T -> K)
    requires NoDup(a, keyOf) && NoDup(b, keyOf)
    requires forall x, y | x in a && y in b :: keyOf(x) != keyOf(y)
    ensures NoDup(a + b, keyOf)
  {
    forall i, j | 0 <= i < j < |a + b| ensures keyOf((a + b)[i]) != keyOf((a + b)[j]) {
      if i < |a| <= j {
        assert a[i] in a && b[j - |a|] in b;
      }
    }
  }

  /** Announcements of prefix `p` are replaced: a pool the delta upserts or removes has a held member on it, or an
      upsert announces it, as an anchor or as a flow source. */
  ghost predicate Superseded(st: State, d: Delta, p: Prefix) {
    || (exists x :: x in st.sessions && x.prefix == p && x.poolID in d.removed)
    || (exists x, u :: x in st.sessions && x.prefix == p && u in d.upserts && u.poolID == x.poolID)
    || (exists u, a :: u in d.upserts && a in u.anchors && a.prefix == p)
    || (exists u, f :: u in d.upserts && f in u.flows && f.srcPrefix == p)
  }

  lemma TouchedIffSuperseded(st: State, d: Delta, p: Prefix)
    ensures p in TouchedPrefixes(st, d) <==> Superseded(st, d, p)
  {
    FlattenMembers(d.upserts, UpAnchors);
    FlattenMembers(d.upserts, UpFlows);
    hide Flatten;
    if p in TouchedPrefixes(st, d) {
      if s :| s in st.sessions && s.poolID in Touched(d) && s.prefix == p {
        if s.poolID !in d.removed { var u :| u in d.upserts && u.poolID == s.poolID; }
      } else if a :| a in Flatten(d.upserts, UpAnchors) && a.prefix == p {
        var u :| u in d.upserts && a in UpAnchors(u);
      } else {
        var f :| f in Flatten(d.upserts, UpFlows) && f.srcPrefix == p;
        var u :| u in d.upserts && f in UpFlows(u);
      }
    }
    if Superseded(st, d, p) {
      if u, a :| u in d.upserts && a in u.anchors && a.prefix == p {
        assert a in UpAnchors(u) && a in Flatten(d.upserts, UpAnchors);
      } else if u, f :| u in d.upserts && f in u.flows && f.srcPrefix == p {
        assert f in UpFlows(u) && f in Flatten(d.upserts, UpFlows);
      }
    }
  }

  /** What is announced of one prefix after a merge: as held unless it is superseded, and then exactly what the
      upserts announce. */
  lemma AnchorsByPrefix(st: State, d: Delta, p: Prefix)
    ensures !Superseded(st, d, p) ==>
              Keep(MergeState(st, d).anchors, p, AnchorPrefix) == Keep(st.anchors, p, AnchorPrefix) &&
              Keep(MergeState(st, d).flows, p, FlowPrefix) == Keep(st.flows, p, FlowPrefix)
    ensures Superseded(st, d, p) ==>
              Keep(MergeState(st, d).anchors, p, AnchorPrefix) ==
                Keep(Flatten(d.upserts, UpAnchors), p, AnchorPrefix) &&
              Keep(MergeState(st, d).flows, p, FlowPrefix) == Keep(Flatten(d.upserts, UpFlows), p, FlowPrefix)
  {
    TouchedIffSuperseded(st, d, p);
    hide Superseded;
    var drop := TouchedPrefixes(st, d);
    KeepOfReplaced(st.anchors, drop, Flatten(d.upserts, UpAnchors), p, AnchorPrefix);
    KeepOfReplaced(st.flows, drop, Flatten(d.upserts, UpFlows), p, FlowPrefix);
    if p !in drop {
      forall a | a in Flatten(d.upserts, UpAnchors) ensures AnchorPrefix(a) != p { }
      KeepNone(Flatten(d.upserts, UpAnchors), p, AnchorPrefix);
      forall f | f in Flatten(d.upserts, UpFlows) ensures FlowPrefix(f) != p { }
      KeepNone(Flatten(d.upserts, UpFlows), p, FlowPrefix);
    }
  }

  /** A held anchor or flow survives any delta exactly when its prefix is not superseded or an upsert lists it
      again. A member the held state lacks supersedes nothing, so its pool's removal leaves its anchor behind. */
  lemma SurvivesIff(st: State, d: Delta, a: Anchor, f: FlowRedirect)
    ensures a in st.anchors ==>
              (a in MergeState(st, d).anchors <==>
               !Superseded(st, d, a.prefix) || exists u :: u in d.upserts && a in u.anchors)
    ensures f in st.flows ==>
              (f in MergeState(st, d).flows <==>
               !Superseded(st, d, f.srcPrefix) || exists u :: u in d.upserts && f in u.flows)
  {
    TouchedIffSuperseded(st, d, a.prefix);
    TouchedIffSuperseded(st, d, f.srcPrefix);
    hide Superseded, TouchedPrefixes;
    ListedIff(d.upserts, UpAnchors, a);
    ListedIff(d.upserts, UpFlows, f);
    KeptIff(st.anchors, TouchedPrefixes(st, d), AnchorPrefix, a);
    KeptIff(st.flows, TouchedPrefixes(st, d), FlowPrefix, f);
    hide Flatten, FilterOut;
    assert forall u | u in d.upserts :: (a in u.anchors <==> a in UpAnchors(u)) && (f in u.flows <==> f in UpFlows(u));
  }

  lemma ListedIff<T>(ups: seq<PoolDelta>, field: PoolDelta -> seq<T>, x: T)
    ensures x in Flatten(ups, field) <==> exists u :: u in ups && x in field(u)
  {
    FlattenMembers(ups, field);
  }

  lemma KeptIff<T, K>(xs: seq<T>, drop: set<K>, keyOf: T -> K, x: T)
    ensures x in FilterOut(xs, drop, keyOf) <==> x in xs && keyOf(x) !in drop
  {
  }

  lemma {:induction false} NoHop(hop: Addr, ups: seq<PoolDelta>, hopOf: PoolDelta -> Addr)
    requires forall i | 0 <= i < |ups| :: hopOf(ups[i]) == NoAddr
    ensures LastHop(hop, ups, hopOf) == hop
  {
    if ups != [] { NoHop(hop, ups[..|ups| - 1], hopOf); }
  }

  lemma {:induction false} HopAt(hop: Addr, ups: seq<PoolDelta>, hopOf: PoolDelta -> Addr, i: nat)
    requires i < |ups| && hopOf(ups[i]) != NoAddr && forall j | i < j < |ups| :: hopOf(ups[j]) == NoAddr
    ensures LastHop(hop, ups, hopOf) == hopOf(ups[i])
  {
    if i < |ups| - 1 {
      assert hopOf(ups[|ups| - 1]) == NoAddr;
      HopAt(hop, ups[..|ups| - 1], hopOf, i);
    }
  }

  /** The `i`-th upsert is the last to bring an IPv4 next hop, or an IPv6 one. */
  predicate LastHop4At(ups: seq<PoolDelta>, i: nat) {
    i < |ups| && ups[i].nextHop != NoAddr && forall j | i < j < |ups| :: ups[j].nextHop == NoAddr
  }
  predicate LastHop6At(ups: seq<PoolDelta>, i: nat) {
    i < |ups| && ups[i].nextHop6 != NoAddr && forall j | i < j < |ups| :: ups[j].nextHop6 == NoAddr
  }

  /** The merged state's generation and redirect targets: the delta's generation and version, the held stamp, and
      of each family the last next hop an upsert brings, else the held one. */
  lemma MergedHeader(st: State, d: Delta)
    ensures var m := MergeState(st, d);
            && m.generation == d.generation && m.generatedAt == st.generatedAt
            && m.desiredVersion == (if d.desiredVersion != 0 then d.desiredVersion else st.desiredVersion)
            && ((forall u | u in d.upserts :: u.nextHop == NoAddr) ==> m.nextHop == st.nextHop)
            && ((forall u | u in d.upserts :: u.nextHop6 == NoAddr) ==> m.nextHop6 == st.nextHop6)
            && (forall i: nat | LastHop4At(d.upserts, i) :: m.nextHop == d.upserts[i].nextHop)
            && (forall i: nat | LastHop6At(d.upserts, i) :: m.nextHop6 == d.upserts[i].nextHop6)
  {
    hide Flatten, FilterOut, TouchedPrefixes, LastHop;
    var ups := d.upserts;
    assert forall i | 0 <= i < |ups| :: ups[i] in ups;
    if forall u | u in ups :: u.nextHop == NoAddr { NoHop(st.nextHop, ups, UpHop); }
    if forall u | u in ups :: u.nextHop6 == NoAddr { NoHop(st.nextHop6, ups, UpHop6); }
    forall i: nat | LastHop4At(ups, i) ensures LastHop(st.nextHop, ups, UpHop) == ups[i].nextHop {
      HopAt(st.nextHop, ups, UpHop, i);
    }
    forall i: nat | LastHop6At(ups, i) ensures LastHop(st.nextHop6, ups, UpHop6) == ups[i].nextHop6 {
      HopAt(st.nextHop6, ups, UpHop6, i);
    }
  }
}
