/** The delta fast path: loops that issue VPP calls for the touched pools only (internal/agent/delta.go). */
module DeltaPath {
  import opened Model
  import opened Desired
  import opened VppApi
  import opened Plan
  import opened DeltaPlan
  import opened Reconcile
  import C = Classify

  // ----- what every step keeps --------------------------------------------------------------------

  /** Every installed session hits a learned, hence live, policer index. */
  predicate Live(s: map<SKey, nat>, idx: map<string, nat>) {
    forall k | k in s :: s[k] in idx.Values
  }

  /** Every installed session is a recorded one, on the index of the policer its record names. */
  ghost predicate Linked(s: map<SKey, nat>, idx: map<string, nat>, prev: seq<Session>, parse: Parse) {
    forall k | k in s :: exists x :: Links(x, k, s, idx, prev, parse)
  }

  predicate Links(x: Session, k: SKey, s: map<SKey, nat>, idx: map<string, nat>, prev: seq<Session>, parse: Parse) {
    x in prev && SK(x) == k && k in s && x.policerName in idx && idx[x.policerName] == s[k] &&
    parse(x.policerName) == Some(x.poolID)
  }

  lemma LinkedIsLive(s: map<SKey, nat>, idx: map<string, nat>, prev: seq<Session>, parse: Parse)
    requires Linked(s, idx, prev, parse)
    ensures Live(s, idx)
  {
    hide SK;
    forall k | k in s ensures s[k] in idx.Values {
      var x :| Links(x, k, s, idx, prev, parse);
    }
  }

  lemma LinkedAfterRemoval(s: map<SKey, nat>, gone: set<SKey>, idx: map<string, nat>, prev: seq<Session>, parse: Parse)
    requires Linked(s, idx, prev, parse)
    ensures Linked(s - gone, idx, prev, parse)
  {
    hide SK;
    forall k | k in s - gone ensures exists x :: Links(x, k, s - gone, idx, prev, parse) {
      var x :| Links(x, k, s, idx, prev, parse);
      assert Links(x, k, s - gone, idx, prev, parse);
    }
  }

  /** Once a pool's recorded sessions are gone, its policers can go without leaving a session dangling. */
  lemma LinkedAfterPoolDrop(s: map<SKey, nat>, idx: map<string, nat>, prev: seq<Session>, parse: Parse, pool: PoolID,
                            gone: set<string>)
    requires Linked(s, idx, prev, parse) && forall x | x in prev && x.poolID == pool :: SK(x) !in s
    requires forall n | n in gone :: parse(n) == Some(pool)
    ensures Linked(s, idx - gone, prev, parse)
  {
    hide SK;
    forall k | k in s ensures exists x :: Links(x, k, s, idx - gone, prev, parse) {
      var x :| Links(x, k, s, idx, prev, parse);
      assert x.poolID != pool && x.policerName !in gone;
      assert Links(x, k, s, idx - gone, prev, parse);
    }
  }

  /** A VPP in sync with the held state is linked to the held record. */
  lemma SyncedIsLinked(st: State, ps: map<string, LivePolicer>, s: map<SKey, nat>, idx: map<string, nat>, parse: Parse)
    requires Synced(st, ps, s, idx, parse) && WellFormed(st, parse)
    ensures Linked(s, idx, st.sessions, parse)
  {
    hide SK, DistinctKeys, ByName, Tracks, Managed, AsSent;
    forall k | k in s ensures exists x :: Links(x, k, s, idx, st.sessions, parse) {
      assert k in Keys(st.sessions);
      var x :| x in st.sessions && SK(x) == k;
      GoalAt(st.sessions, idx, x);
      assert Links(x, k, s, idx, st.sessions, parse);
    }
  }

  /** What every step of the fast path leaves as it is: how far each count is from VPP's (not at all once
      anchored), and which managed policers of VPP are unknown (none after a full pass). */
  datatype Tally = Tally(policerDrift: int, sessionDrift: int, unknown: set<string>)

  ghost function Standing(r: Reconciler): (t: Tally)
    reads r`actPol, r`actSess, r`polIdx, r.vpp`policers, r.vpp`sessions
  {
    Tally(r.actPol - |Managed(r.vpp.policers, r.parse)|, r.actSess - |r.vpp.sessions|,
          Managed(r.vpp.policers, r.parse) - r.polIdx.Keys)
  }

  /** VPP refuses only what it cannot do, has room, and has no managed policer that is unknown. */
  ghost predicate Willing(r: Reconciler, more: nat)
    reads r`actPol, r`actSess, r`polIdx, r.vpp`policers, r.vpp`sessions
  {
    r.vpp.obliging && Standing(r).unknown == {} && |r.vpp.policers| + more <= NO_TABLE
  }

  lemma UnknownStays(ps: map<string, LivePolicer>, idx: map<string, nat>, parse: Parse, name: string, p: LivePolicer)
    requires parse(name).Some? && (name in idx <==> name in ps)
    ensures Managed(ps[name := p], parse) - idx[name := p.index].Keys == Managed(ps, parse) - idx.Keys
    ensures name in idx ==> Managed(ps[name := p], parse) - idx.Keys == Managed(ps, parse) - idx.Keys
    ensures Managed(ps - {name}, parse) - (idx - {name}).Keys == Managed(ps, parse) - idx.Keys
  {
  }

  lemma ManagedGrows(ps: map<string, LivePolicer>, parse: Parse, name: string, p: LivePolicer)
    requires parse(name).Some?
    ensures |Managed(ps[name := p], parse)| == |Managed(ps, parse)| + if name in ps then 0 else 1
  {
    if name in ps {
      assert Managed(ps[name := p], parse) == Managed(ps, parse);
    } else {
      assert Managed(ps[name := p], parse) == Managed(ps, parse) + {name};
    }
  }

  lemma ManagedShrinks(ps: map<string, LivePolicer>, parse: Parse, name: string)
    requires parse(name).Some? && name in ps
    ensures |Managed(ps - {name}, parse)| == |Managed(ps, parse)| - 1
  {
    assert Managed(ps, parse) == Managed(ps - {name}, parse) + {name};
  }

  lemma DropOne(s: map<SKey, nat>, k: SKey)
    ensures k in s ==> |s - {k}| == |s| - 1
    ensures k !in s ==> s - {k} == s
  {
    if k in s {
      assert (s - {k}).Keys + {k} == s.Keys;
      assert |(s - {k}).Keys| == |s - {k}| && |s.Keys| == |s|;
    }
  }

  /** `m` is `m0` without `gone`. */
  ghost predicate Without<K, V>(m: map<K, V>, m0: map<K, V>, gone: set<K>) { m == m0 - gone }

  lemma WithoutNone<K, V>(m: map<K, V>)
    ensures Without(m, m, {})
  {
  }

  lemma WithoutOneMore<K, V>(m1: map<K, V>, m0: map<K, V>, gone: set<K>, k: K)
    requires Without(m1, m0, gone)
    ensures Without(m1 - {k}, m0, gone + {k})
  {
    MinusMore(m0, gone, k);
  }

  lemma WithoutStill<K, V>(m: map<K, V>, m0: map<K, V>, gone: set<K>, k: K)
    requires Without(m, m0, gone) && k in m0 && k !in gone
    ensures k in m
  {
  }

  // ----- policers -----------------------------------------------------------------------------------

  /** One policer was written as sent: added and learned, or rewritten in place. */
  ghost predicate OneUpserted(ps1: map<string, LivePolicer>, idx1: map<string, nat>, spec: PolicerSpec,
                              ps: map<string, LivePolicer>, idx: map<string, nat>)
  {
    && spec.name in ps && ps == ps1[spec.name := ps[spec.name]] && ps[spec.name].conf == ConfOf(spec)
    && spec.name in idx && (idx == idx1 || (spec.name !in idx1 && idx == idx1[spec.name := idx[spec.name]]))
  }

  lemma TrackedIsReady(idx: map<string, nat>, ps: map<string, LivePolicer>, parse: Parse, name: string)
    requires Tracks(idx, ps, parse)
    ensures GoodPolicers(ps) && Listed(idx, parse)
    ensures name in idx ==> name in ps && ps[name].index == idx[name]
  {
    TracksListed(idx, ps, parse);
  }

  /** With no managed policer unknown, an unknown name is not in VPP. */
  lemma UnknownIsAbsent(ps: map<string, LivePolicer>, idx: map<string, nat>, parse: Parse, name: string)
    requires Managed(ps, parse) - idx.Keys == {} && parse(name).Some? && name !in idx
    ensures name !in ps
  {
    assert name in ps ==> name in Managed(ps, parse) - idx.Keys;
  }

  /** An unknown policer is added, learned and counted. */
  method AddPoolPolicer(r: Reconciler, spec: PolicerSpec) returns (ok: bool)
    requires r.Tracked() && r.parse(spec.name).Some? && spec.name !in r.polIdx
    modifies r`polIdx, r`actPol, r.vpp`policers
    ensures r.Tracked() && Standing(r) == old(Standing(r))
    ensures !ok ==> r.vpp.policers == old(r.vpp.policers) && r.polIdx == old(r.polIdx)
    ensures ok ==> OneUpserted(old(r.vpp.policers), old(r.polIdx), spec, r.vpp.policers, r.polIdx)
    ensures r.vpp.obliging && old(Standing(r)).unknown == {} && |old(r.vpp.policers)| < NO_TABLE ==>
              (ok <==> r.vpp.accepts(spec))
  {
    hide Tracks, Managed, ConfOf, GoodPolicers, Listed;
    ghost var ps1, idx1 := r.vpp.policers, r.polIdx;
    TrackedIsReady(idx1, ps1, r.parse, spec.name);
    if Standing(r).unknown == {} { UnknownIsAbsent(ps1, idx1, r.parse, spec.name); }
    ok := r.CreatePolicer(spec);
    if ok {
      r.actPol := r.actPol + 1;
      ManagedGrows(ps1, r.parse, spec.name, r.vpp.policers[spec.name]);
      UnknownStays(ps1, idx1, r.parse, spec.name, r.vpp.policers[spec.name]);
    }
  }

  /** A known policer is rewritten in place. */
  method RewritePoolPolicer(r: Reconciler, spec: PolicerSpec) returns (ok: bool)
    requires r.Tracked() && r.parse(spec.name).Some? && spec.name in r.polIdx
    modifies r.vpp`policers
    ensures r.Tracked() && Standing(r) == old(Standing(r))
    ensures !ok ==> r.vpp.policers == old(r.vpp.policers)
    ensures ok ==> OneUpserted(old(r.vpp.policers), r.polIdx, spec, r.vpp.policers, r.polIdx)
    ensures r.vpp.obliging ==> (ok <==> r.vpp.accepts(spec))
  {
    hide Tracks, Managed, ConfOf, GoodPolicers, Listed, Slots;
    ghost var ps1 := r.vpp.policers;
    TrackedIsReady(r.polIdx, ps1, r.parse, spec.name);
    ok := r.RefreshPolicer(spec);
    if ok {
      ManagedGrows(ps1, r.parse, spec.name, r.vpp.policers[spec.name]);
      UnknownStays(ps1, r.polIdx, r.parse, spec.name, r.vpp.policers[spec.name]);
    }
  }

  /** One policer: an unknown one is added and counted, a known one rewritten. An obliging VPP with room refuses
      only a policer it does not accept. */
  method UpsertPoolPolicer(r: Reconciler, spec: PolicerSpec) returns (ok: bool)
    requires r.Tracked() && r.parse(spec.name).Some?
    modifies r`polIdx, r`actPol, r.vpp`policers
    ensures r.Tracked() && Standing(r) == old(Standing(r))
    ensures !ok ==> r.vpp.policers == old(r.vpp.policers) && r.polIdx == old(r.polIdx)
    ensures ok ==> OneUpserted(old(r.vpp.policers), old(r.polIdx), spec, r.vpp.policers, r.polIdx)
    ensures r.vpp.obliging && old(Standing(r)).unknown == {} && |old(r.vpp.policers)| < NO_TABLE ==>
              (ok <==> r.vpp.accepts(spec))
  {
    hide Tracks, Standing, OneUpserted;
    if spec.name !in r.polIdx {
      ok := AddPoolPolicer(r, spec);
    } else {
      ok := RewritePoolPolicer(r, spec);
    }
  }

  lemma UpsertedSnoc(ps0: map<string, LivePolicer>, idx0: map<string, nat>, specs: seq<PolicerSpec>,
                     ps1: map<string, LivePolicer>, idx1: map<string, nat>, spec: PolicerSpec,
                     ps: map<string, LivePolicer>, idx: map<string, nat>)
    requires PolicersUpserted(ps0, idx0, specs, ps1, idx1) && OneUpserted(ps1, idx1, spec, ps, idx)
    ensures PolicersUpserted(ps0, idx0, specs + [spec], ps, idx)
  {
    hide ByName, ConfOf, OneUpserted, UpsertedTo;
    ByNameSnoc(specs, spec);
    UpsertOneMore(ps0, idx0, ByName(specs), ps1, idx1, spec, ps, idx);
  }

  lemma UpsertOneMore(ps0: map<string, LivePolicer>, idx0: map<string, nat>, w: map<string, PolicerSpec>,
                      ps1: map<string, LivePolicer>, idx1: map<string, nat>, spec: PolicerSpec,
                      ps: map<string, LivePolicer>, idx: map<string, nat>)
    requires UpsertedTo(ps0, idx0, w, ps1, idx1) && OneUpserted(ps1, idx1, spec, ps, idx)
    ensures UpsertedTo(ps0, idx0, w[spec.name := spec], ps, idx)
  {
    PolicerWritten(ps0, w, ps1, spec, ps);
    IndexLearned(idx0, w, idx1, spec, idx);
    hide ConfOf;
  }

  lemma PolicerWritten(ps0: map<string, LivePolicer>, w: map<string, PolicerSpec>, ps1: map<string, LivePolicer>,
                       spec: PolicerSpec, ps: map<string, LivePolicer>)
    requires ps1.Keys == ps0.Keys + w.Keys && spec.name in ps && ps == ps1[spec.name := ps[spec.name]] &&
             ps[spec.name].conf == ConfOf(spec)
    requires (forall n | n in w :: ps1[n].conf == ConfOf(w[n])) && (forall n | n in ps0 && n !in w :: ps1[n] == ps0[n])
    ensures ps.Keys == ps0.Keys + w[spec.name := spec].Keys
    ensures forall n | n in w[spec.name := spec] :: ps[n].conf == ConfOf(w[spec.name := spec][n])
    ensures forall n | n in ps0 && n !in w[spec.name := spec] :: ps[n] == ps0[n]
  {
    hide ConfOf;
    assert ps.Keys == ps1.Keys + {spec.name};
  }

  lemma IndexLearned(idx0: map<string, nat>, w: map<string, PolicerSpec>, idx1: map<string, nat>, spec: PolicerSpec,
                     idx: map<string, nat>)
    requires idx1.Keys == idx0.Keys + w.Keys && forall n | n in idx0 :: idx1[n] == idx0[n]
    requires spec.name in idx && (idx == idx1 || (spec.name !in idx1 && idx == idx1[spec.name := idx[spec.name]]))
    ensures idx.Keys == idx0.Keys + w[spec.name := spec].Keys && forall n | n in idx0 :: idx[n] == idx0[n]
  {
    assert idx.Keys == idx1.Keys + {spec.name};
    forall n | n in idx0 ensures idx[n] == idx0[n] { assert n in idx1; }
  }

  lemma UpsertedNone(ps: map<string, LivePolicer>, idx: map<string, nat>)
    ensures PolicersUpserted(ps, idx, [], ps, idx)
  {
  }

  predicate Acceptable(specs: seq<PolicerSpec>, accepts: PolicerSpec -> bool) { forall p | p in specs :: accepts(p) }

  lemma AcceptableNext(specs: seq<PolicerSpec>, i: nat, accepts: PolicerSpec -> bool)
    requires i < |specs|
    ensures Acceptable(specs[..i + 1], accepts) <==> Acceptable(specs[..i], accepts) && accepts(specs[i])
    ensures Acceptable(specs, accepts) ==> accepts(specs[i])
  {
    assert specs[..i + 1] == specs[..i] + [specs[i]];
  }

  /** One policer more is one more known name and VPP policer, or none when it was known. */
  lemma OneUpsertedSize(ps1: map<string, LivePolicer>, idx1: map<string, nat>, spec: PolicerSpec,
                        ps: map<string, LivePolicer>, idx: map<string, nat>)
    requires OneUpserted(ps1, idx1, spec, ps, idx)
    ensures |idx| == |idx1| + (if spec.name in idx1 then 0 else 1) && |ps1| <= |ps| <= |ps1| + 1
  {
    hide ConfOf;
    assert idx.Keys == idx1.Keys + {spec.name} && ps.Keys == ps1.Keys + {spec.name};
    assert |idx.Keys| == |idx| && |idx1.Keys| == |idx1| && |ps.Keys| == |ps| && |ps1.Keys| == |ps1|;
  }

  /** The first `i` specs are dealt with and counted. */
  ghost predicate SpecsDone(specs: seq<PolicerSpec>, i: nat, ps0: map<string, LivePolicer>, idx0: map<string, nat>,
                            ps: map<string, LivePolicer>, idx: map<string, nat>, added: int, updated: int)
  {
    && i <= |specs| && PolicersUpserted(ps0, idx0, specs[..i], ps, idx)
    && added == |idx| - |idx0| && updated == i - added && |ps| <= |ps0| + i
  }

  lemma SpecsStart(specs: seq<PolicerSpec>, ps: map<string, LivePolicer>, idx: map<string, nat>,
                   accepts: PolicerSpec -> bool)
    ensures SpecsDone(specs, 0, ps, idx, ps, idx, 0, 0) && Acceptable(specs[..0], accepts)
  {
    assert specs[..0] == [];
    UpsertedNone(ps, idx);
  }

  lemma SpecsStep(specs: seq<PolicerSpec>, i: nat, ps0: map<string, LivePolicer>, idx0: map<string, nat>,
                  ps1: map<string, LivePolicer>, idx1: map<string, nat>, added: int, updated: int,
                  ps: map<string, LivePolicer>, idx: map<string, nat>)
    requires i < |specs| && SpecsDone(specs, i, ps0, idx0, ps1, idx1, added, updated) &&
             OneUpserted(ps1, idx1, specs[i], ps, idx)
    ensures specs[i].name in idx1 ==> SpecsDone(specs, i + 1, ps0, idx0, ps, idx, added, updated + 1)
    ensures specs[i].name !in idx1 ==> SpecsDone(specs, i + 1, ps0, idx0, ps, idx, added + 1, updated)
  {
    hide PolicersUpserted, OneUpserted;
    assert specs[..i + 1] == specs[..i] + [specs[i]];
    UpsertedSnoc(ps0, idx0, specs[..i], ps1, idx1, specs[i], ps, idx);
    OneUpsertedSize(ps1, idx1, specs[i], ps, idx);
  }

  /** Adds missing and updates known policers of one pool; `n` specs were dealt with when it stopped. An obliging
      VPP with room takes exactly acceptable ones. */
  method UpsertPoolPolicers(r: Reconciler, specs: seq<PolicerSpec>)
    returns (added: int, updated: int, ok: bool, ghost n: nat)
    requires r.Tracked() && forall p | p in specs :: r.parse(p.name).Some?
    modifies r`polIdx, r`actPol, r.vpp`policers
    ensures r.Tracked() && Standing(r) == old(Standing(r))
    ensures SpecsDone(specs, n, old(r.vpp.policers), old(r.polIdx), r.vpp.policers, r.polIdx, added, updated)
    ensures ok ==> n == |specs|
    ensures old(Willing(r, |specs|)) ==> (ok <==> Acceptable(specs, r.vpp.accepts))
  {
    hide Tracks, OneUpserted, Standing, Acceptable, PolicersUpserted;
    ghost var ps0, idx0, st0, willing := r.vpp.policers, r.polIdx, Standing(r), Willing(r, |specs|);
    added, updated, n := 0, 0, 0;
    SpecsStart(specs, ps0, idx0, r.vpp.accepts);
    for i := 0 to |specs|
      invariant r.Tracked() && n == i && Standing(r) == st0
      invariant SpecsDone(specs, i, ps0, idx0, r.vpp.policers, r.polIdx, added, updated)
      invariant willing ==> Acceptable(specs[..i], r.vpp.accepts)
    {
      ghost var ps1, idx1 := r.vpp.policers, r.polIdx;
      assert specs[i] in specs;
      AcceptableNext(specs, i, r.vpp.accepts);
      var known := specs[i].name in r.polIdx;
      var done := UpsertPoolPolicer(r, specs[i]);
      if !done { return added, updated, false, i; }
      SpecsStep(specs, i, ps0, idx0, ps1, idx1, added, updated, r.vpp.policers, r.polIdx);
      if known { updated := updated + 1; } else { added := added + 1; }
      n := n + 1;
    }
    assert specs[..|specs|] == specs;
    ok := true;
  }

  function PoolNames(idx: map<string, nat>, pool: PoolID, parse: Parse): (r: set<string>) {
    set name | name in idx && parse(name) == Some(pool)
  }

  /** One learned policer, from VPP, the index map and the count. */
  method DeletePoolPolicer(r: Reconciler, name: string) returns (ok: bool)
    requires r.Tracked() && r.parse(name).Some? && name in r.polIdx
    modifies r`polIdx, r`actPol, r.vpp`policers
    ensures r.Tracked()
    ensures r.vpp.policers == if ok then old(r.vpp.policers) - {name} else old(r.vpp.policers)
    ensures r.polIdx == if ok then old(r.polIdx) - {name} else old(r.polIdx)
    ensures Standing(r) == old(Standing(r))
    ensures r.vpp.obliging ==> ok
  {
    hide Tracks, Managed, GoodPolicers;
    ghost var ps1 := r.vpp.policers;
    TrackedIsReady(r.polIdx, ps1, r.parse, name);
    TracksAfterDelete(r.polIdx, ps1, r.parse, name);
    UnknownStays(ps1, r.polIdx, r.parse, name, ps1[name]);
    ok := r.vpp.DeletePolicerByName(name);
    if !ok { return; }
    r.polIdx := r.polIdx - {name};
    ManagedShrinks(ps1, r.parse, name);
    r.actPol := r.actPol - 1;
  }

  /** All but `todo` of the names are gone and counted. */
  ghost predicate Deleting(names: set<string>, todo: set<string>, gone: set<string>, deleted: int) {
    todo <= names && gone == names - todo && deleted == |gone|
  }

  lemma DeletedNone(names: set<string>)
    ensures Deleting(names, names, {}, 0)
  {
  }

  lemma StillToDelete(names: set<string>, todo: set<string>, gone: set<string>, deleted: int, name: string)
    requires Deleting(names, todo, gone, deleted) && name in todo
    ensures name in names && name !in gone && gone <= names
  {
  }

  lemma DeletedOne(names: set<string>, todo: set<string>, gone: set<string>, deleted: int, name: string)
    requires Deleting(names, todo, gone, deleted) && name in todo
    ensures Deleting(names, todo - {name}, gone + {name}, deleted + 1)
  {
    OneLessToDo(names, todo, name);
  }

  lemma DeletedIs(names: set<string>, todo: set<string>, gone: set<string>, deleted: int)
    requires Deleting(names, todo, gone, deleted)
    ensures gone <= names && deleted == |gone| && (todo == {} ==> gone == names)
  {
  }

  /** Deletes the learned policers of one pool; `gone` went before it stopped. An obliging VPP lets all go. */
  method DeletePoolPolicers(r: Reconciler, pool: PoolID) returns (deleted: int, ok: bool, ghost gone: set<string>)
    requires r.Tracked()
    modifies r`polIdx, r`actPol, r.vpp`policers
    ensures r.Tracked()
    ensures gone <= PoolNames(old(r.polIdx), pool, r.parse) && deleted == |gone|
    ensures Without(r.vpp.policers, old(r.vpp.policers), gone) && Without(r.polIdx, old(r.polIdx), gone)
    ensures Standing(r) == old(Standing(r))
    ensures ok ==> gone == PoolNames(old(r.polIdx), pool, r.parse)
    ensures r.vpp.obliging ==> ok
  {
    var names := PoolNames(r.polIdx, pool, r.parse);
    assert forall name | name in names :: name in r.polIdx && r.parse(name).Some?;
    hide Tracks, Managed, PoolNames, Without, GoodPolicers, Standing, Deleting;
    DeletedNone(names);
    ghost var ps0, idx0, st0 := r.vpp.policers, r.polIdx, Standing(r);
    gone, deleted := {}, 0;
    var todo := names;
    WithoutNone(r.vpp.policers);
    WithoutNone(r.polIdx);
    while todo != {}
      invariant r.Tracked() && Standing(r) == st0 && Deleting(names, todo, gone, deleted)
      invariant Without(r.vpp.policers, ps0, gone) && Without(r.polIdx, idx0, gone)
    {
      var name :| name in todo;
      StillToDelete(names, todo, gone, deleted, name);
      WithoutOneMore(r.vpp.policers, ps0, gone, name);
      WithoutOneMore(r.polIdx, idx0, gone, name);
      WithoutStill(r.polIdx, idx0, gone, name);
      var done := DeletePoolPolicer(r, name);
      if !done {
        DeletedIs(names, todo, gone, deleted);
        return deleted, false, gone;
      }
      DeletedOne(names, todo, gone, deleted, name);
      deleted := deleted + 1;
      gone := gone + {name};
      todo := todo - {name};
    }
    DeletedIs(names, todo, gone, deleted);
    ok := true;
  }

  lemma OneLessToDo<T>(names: set<T>, todo: set<T>, name: T)
    requires todo <= names && name in todo
    ensures names - (todo - {name}) == (names - todo) + {name} && |(names - todo) + {name}| == |names - todo| + 1
  {
  }

  // ----- sessions -------------------------------------------------------------------------------------

  /** Removes one recorded session unless its table is already gone. */
  method DropSession(r: Reconciler, tables: map<MaskKind, nat>, s: Session) returns (dropped: int, ok: bool)
    requires r.vpp.Valid() && tables == r.vpp.tables
    modifies r`actSess, r.vpp`sessions
    ensures r.vpp.Valid()
    ensures r.vpp.sessions == if ok then old(r.vpp.sessions) - {SK(s)} else old(r.vpp.sessions)
    ensures Standing(r) == old(Standing(r)) && dropped == |old(r.vpp.sessions)| - |r.vpp.sessions|
    ensures r.vpp.obliging ==> (ok <==> Droppable(s, old(r.vpp.sessions), tables.Keys))
  {
    hide TableKey, GoodTables, GoodLinks, GoodPolicers, C.SpecOf, Managed;
    DropOne(r.vpp.sessions, SK(s));
    if s.mask !in tables { return 0, true; }
    var key := C.SessionKey(s.mask, s.prefix);
    if key.None? { return 0, false; }
    CanonicalIsTableKey(s.mask, s.prefix);
    hide C.SessionKey;
    ok := r.vpp.DelSessionByKey(tables[s.mask], s.mask, key.value);
    dropped := 0;
    if ok {
      r.actSess := r.actSess - 1;
      dropped := 1;
    }
  }

  /** A recorded session can be deleted: its table is gone already, or it is installed. */
  predicate Droppable(x: Session, s: map<SKey, nat>, tables: set<MaskKind>) {
    x.mask in tables ==> Keyed(x) && SK(x) in s
  }

  /** All of them can be, one after the other. */
  predicate AllDroppable(members: seq<Session>, s: map<SKey, nat>, tables: set<MaskKind>) {
    forall x | x in members :: Droppable(x, s, tables)
  }

  /** Deleting some of several distinct keys leaves the others. */
  lemma StillDroppable(members: seq<Session>, i: nat, s0: map<SKey, nat>, s: map<SKey, nat>, gone: set<SKey>,
                       tables: set<MaskKind>)
    requires i < |members| && DistinctKeys(members) && Without(s, s0, gone) && gone <= Keys(members[..i])
    ensures Droppable(members[i], s, tables) <==> Droppable(members[i], s0, tables)
  {
    hide SK, Keyed;
    forall x | x in members[..i] ensures SK(x) != SK(members[i]) {
      var k :| 0 <= k < i && members[k] == x;
    }
  }

  lemma DroppableNext(members: seq<Session>, i: nat, s: map<SKey, nat>, tables: set<MaskKind>)
    requires i < |members|
    ensures AllDroppable(members[..i + 1], s, tables) <==>
            AllDroppable(members[..i], s, tables) && Droppable(members[i], s, tables)
    ensures AllDroppable(members, s, tables) ==> Droppable(members[i], s, tables)
  {
    hide Droppable;
    assert members[..i + 1] == members[..i] + [members[i]] && members[i] in members;
  }

  lemma DroppableNone(s: map<SKey, nat>, tables: set<MaskKind>)
    ensures AllDroppable([], s, tables)
  {
  }

  lemma KeysSnoc(ss: seq<Session>, s: Session)
    ensures Keys(ss + [s]) == Keys(ss) + {SK(s)}
  {
    hide SK;
  }

  /** Removes the recorded members; `n` of them were dealt with when it stopped. An obliging VPP lets them go
      exactly when all can be deleted. */
  method DeletePoolSessions(r: Reconciler, members: seq<Session>) returns (deleted: int, ok: bool, ghost n: nat)
    requires r.vpp.Valid()
    modifies r`actSess, r.vpp`sessions
    ensures r.vpp.Valid()
    ensures n <= |members| && Without(r.vpp.sessions, old(r.vpp.sessions), Keys(members[..n]))
    ensures Standing(r) == old(Standing(r)) && deleted == |old(r.vpp.sessions)| - |r.vpp.sessions|
    ensures ok ==> n == |members|
    ensures r.vpp.obliging && DistinctKeys(members) ==>
              (ok <==> AllDroppable(members, old(r.vpp.sessions), r.vpp.tables.Keys))
  {
    hide GoodSessions, GoodTables, GoodLinks, GoodPolicers, SK, Keys, Without, Standing, DistinctKeys, Droppable,
         AllDroppable;
    ghost var s0, st0, all := r.vpp.sessions, Standing(r), r.vpp.tables.Keys;
    deleted, n := 0, 0;
    assert members[..0] == [];
    KeysNone();
    WithoutNone(r.vpp.sessions);
    DroppableNone(s0, all);
    if |members| == 0 { return 0, true, 0; }
    var tables := r.vpp.FindTablesByMask();
    if tables.Err? { return 0, false, 0; }
    for i := 0 to |members|
      invariant r.vpp.Valid() && n == i && Standing(r) == st0
      invariant Without(r.vpp.sessions, s0, Keys(members[..i])) && deleted == |s0| - |r.vpp.sessions|
      invariant r.vpp.obliging && DistinctKeys(members) ==> AllDroppable(members[..i], s0, all)
    {
      assert members[..i + 1] == members[..i] + [members[i]];
      DroppableNext(members, i, s0, all);
      KeysSnoc(members[..i], members[i]);
      WithoutOneMore(r.vpp.sessions, s0, Keys(members[..i]), SK(members[i]));
      if DistinctKeys(members) { StillDroppable(members, i, s0, r.vpp.sessions, Keys(members[..i]), all); }
      var dropped, done := DropSession(r, tables.value, members[i]);
      deleted := deleted + dropped;
      if !done { return deleted, false, i; }
      n := n + 1;
    }
    assert members[..|members|] == members;
    ok := true;
  }

  lemma UnlistedStep(a: set<SKey>, k: SKey, want: set<SKey>)
    ensures k in want ==> (a + {k}) - want == a - want
    ensures k !in want ==> (a + {k}) - want == (a - want) + {k}
  {
  }

  lemma NoneMinus(a: set<SKey>)
    ensures Keys([]) - a == {}
  {
  }

  lemma KeysNone()
    ensures Keys([]) == {}
  {
  }

  /** The members an upsert no longer lists can be deleted, and all of them have a key. */
  predicate UnlistedDroppable(prev: seq<Session>, want: set<SKey>, s: map<SKey, nat>, tables: set<MaskKind>) {
    forall x | x in prev :: Keyed(x) && (SK(x) !in want ==> Droppable(x, s, tables))
  }

  lemma UnlistedNext(prev: seq<Session>, i: nat, want: set<SKey>, s: map<SKey, nat>, tables: set<MaskKind>)
    requires i < |prev|
    ensures UnlistedDroppable(prev[..i + 1], want, s, tables) <==>
            UnlistedDroppable(prev[..i], want, s, tables) && Keyed(prev[i]) &&
            (SK(prev[i]) !in want ==> Droppable(prev[i], s, tables))
    ensures UnlistedDroppable(prev, want, s, tables) ==>
              Keyed(prev[i]) && (SK(prev[i]) !in want ==> Droppable(prev[i], s, tables))
  {
    hide SK, Keyed, Droppable;
    assert prev[..i + 1] == prev[..i] + [prev[i]] && prev[i] in prev;
  }

  lemma UnlistedNone(want: set<SKey>, s: map<SKey, nat>, tables: set<MaskKind>)
    ensures UnlistedDroppable([], want, s, tables)
  {
  }

  /** Removes the recorded members an upsert no longer lists. */
  method DropUnlisted(r: Reconciler, prev: seq<Session>, wantKeys: set<SKey>, tables: map<MaskKind, nat>)
    returns (deleted: int, ok: bool, ghost n: nat)
    requires r.vpp.Valid() && tables == r.vpp.tables
    modifies r`actSess, r.vpp`sessions
    ensures r.vpp.Valid()
    ensures n <= |prev| && Without(r.vpp.sessions, old(r.vpp.sessions), Keys(prev[..n]) - wantKeys)
    ensures Standing(r) == old(Standing(r)) && deleted == |old(r.vpp.sessions)| - |r.vpp.sessions|
    ensures ok ==> n == |prev|
    ensures r.vpp.obliging && DistinctKeys(prev) ==>
              (ok <==> UnlistedDroppable(prev, wantKeys, old(r.vpp.sessions), tables.Keys))
  {
    hide GoodSessions, GoodTables, GoodLinks, GoodPolicers, SK, Keys, Without, Standing, DistinctKeys, Droppable, Keyed,
         UnlistedDroppable;
    NoneMinus(wantKeys);
    UnlistedNone(wantKeys, r.vpp.sessions, tables.Keys);
    ghost var s0, st0 := r.vpp.sessions, Standing(r);
    deleted, n := 0, 0;
    assert prev[..0] == [];
    KeysNone();
    WithoutNone(r.vpp.sessions);
    for i := 0 to |prev|
      invariant r.vpp.Valid() && n == i && Standing(r) == st0
      invariant Without(r.vpp.sessions, s0, Keys(prev[..i]) - wantKeys) && deleted == |s0| - |r.vpp.sessions|
      invariant r.vpp.obliging && DistinctKeys(prev) ==> UnlistedDroppable(prev[..i], wantKeys, s0, tables.Keys)
    {
      assert prev[..i + 1] == prev[..i] + [prev[i]];
      KeysSnoc(prev[..i], prev[i]);
      UnlistedStep(Keys(prev[..i]), SK(prev[i]), wantKeys);
      UnlistedNext(prev, i, wantKeys, s0, tables.Keys);
      if !Keyed(prev[i]) { return deleted, false, i; }
      if SK(prev[i]) !in wantKeys {
        WithoutOneMore(r.vpp.sessions, s0, Keys(prev[..i]) - wantKeys, SK(prev[i]));
        if DistinctKeys(prev) { StillDroppable(prev, i, s0, r.vpp.sessions, Keys(prev[..i]) - wantKeys, tables.Keys); }
        var dropped, done := DropSession(r, tables, prev[i]);
        deleted := deleted + dropped;
        if !done { return deleted, false, i; }
      }
      n := n + 1;
    }
    assert prev[..|prev|] == prev;
    ok := true;
  }

  /** Reads back the hits of the wanted sessions only, by point lookups. */
  method LookupWants(r: Reconciler, table: nat, mask: MaskKind, wants: seq<SessionWant>)
    returns (res: Result<map<SKey, nat>>)
    requires r.vpp.Valid() && mask in r.vpp.tables && r.vpp.tables[mask] == table
    requires forall w | w in wants :: GoodWant(w, mask)
    ensures res.Ok? ==> forall w | w in wants ::
              (w.key in res.value <==> w.key in r.vpp.sessions) &&
              (w.key in res.value ==> res.value[w.key] == r.vpp.sessions[w.key])
    ensures r.vpp.obliging ==> res.Ok?
  {
    hide TableKey, GoodTables, GoodLinks, GoodPolicers, C.SessionKey, StoredKey, CanonicalFor;
    var prefixes := seq(|wants|, (i: nat) requires i < |wants| => wants[i].prefix);
    forall p | p in prefixes ensures StoredKey(mask, p).Some? {
      var i :| 0 <= i < |prefixes| && prefixes[i] == p;
      assert wants[i] in wants;
      CanonicalStoredKey(mask, p);
    }
    var hits := r.vpp.LookupHits(table, mask, prefixes);
    if hits.Err? { return Err; }
    var actualHit: map<SKey, nat> := map[];
    for i := 0 to |wants|
      invariant forall k | k in actualHit :: k in r.vpp.sessions && actualHit[k] == r.vpp.sessions[k]
      invariant forall j | 0 <= j < i :: wants[j].key in r.vpp.sessions ==> wants[j].key in actualHit
    {
      assert wants[i] in wants && prefixes[i] == wants[i].prefix;
      CanonicalStoredKey(mask, wants[i].prefix);
      if hits.value[i] != NO_TABLE {
        actualHit := actualHit[wants[i].key := hits.value[i]];
      }
    }
    res := Ok(actualHit);
  }

  lemma LiveAfterUpserts(s0: map<SKey, nat>, ws: seq<SessionWant>, s: map<SKey, nat>, added: int, moved: int,
                         idx: map<string, nat>)
    requires Live(s0, idx) && Upserted(s0, ws, s, added, moved) && forall w | w in ws :: w.hit in idx.Values
    ensures Live(s, idx)
  {
    hide WantMap, MovedKeys;
    var g := WantMap(ws);
    assert s == s0 + g;
    forall k | k in s ensures s[k] in idx.Values {
      if k in g {
        var w := WantBehind(ws, k);
      } else {
        assert k in s0 && s[k] == s0[k];
      }
    }
  }

  lemma {:induction false} WantBehind(ws: seq<SessionWant>, k: SKey) returns (w: SessionWant)
    requires k in WantMap(ws)
    ensures w in ws && WantMap(ws)[k] == w.hit
  {
    w := ws[|ws| - 1];
    if k != w.key { w := WantBehind(ws[..|ws| - 1], k); }
  }

  lemma PartialUpsert(wants: seq<SessionWant>, n: nat)
    requires n <= |wants|
    ensures n == |wants| ==> wants[..n] == wants
    ensures forall w | w in wants[..n] :: w in wants
  {
  }

  lemma WantsHaveSpec(wants: seq<SessionWant>, mask: MaskKind)
    requires wants != [] && forall w | w in wants :: GoodWant(w, mask)
    ensures C.SpecOf(mask).Some?
  {
    assert wants[0] in wants;
    C.KeyParts(mask, wants[0].prefix);
  }

  /** One mask of an upserted pool: make sure of the table, look the members up, add or move them. */
  method InstallMask(r: Reconciler, tables: map<MaskKind, nat>, mask: MaskKind, wants: seq<SessionWant>)
    returns (tables': map<MaskKind, nat>, added: int, moved: int, ok: bool)
    requires r.vpp.Valid() && tables == r.vpp.tables && wants != []
    requires DistinctWants(wants) && forall w | w in wants :: GoodWant(w, mask) && w.hit in r.polIdx.Values
    modifies r`actSess, r.vpp`tables, r.vpp`next, r.vpp`sessions
    ensures r.vpp.Valid() && old(r.vpp.tables.Keys) <= r.vpp.tables.Keys
    ensures Standing(r) == old(Standing(r))
    ensures old(Live(r.vpp.sessions, r.polIdx)) ==> Live(r.vpp.sessions, r.polIdx)
    ensures ok ==> tables' == r.vpp.tables && Upserted(old(r.vpp.sessions), wants, r.vpp.sessions, added, moved)
    ensures r.vpp.obliging ==> ok
  {
    hide GoodTables, GoodLinks, GoodPolicers, GoodSessions, GoodWant, DistinctWants, Upserted, WantMap, Live, Managed,
         C.SpecOf;
    WantsHaveSpec(wants, mask);
    added, moved := 0, 0;
    var t, table, got := r.EnsureTable(tables, mask);
    tables' := t;
    if !got { return tables', 0, 0, false; }
    var looked := LookupWants(r, table, mask, wants);
    if looked.Err? { return tables', 0, 0, false; }
    ghost var s0 := r.vpp.sessions;
    ghost var n;
    added, moved, ok, n := r.ApplySessionUpserts(table, mask, wants, looked.value);
    r.actSess := r.actSess + added;
    UpsertedSize(s0, wants[..n], r.vpp.sessions, added, moved);
    PartialUpsert(wants, n);
    if Live(s0, r.polIdx) { LiveAfterUpserts(s0, wants[..n], r.vpp.sessions, added, moved, r.polIdx); }
  }

  /** `g` on the masks in `done`. */
  function Part(g: map<SKey, nat>, done: set<MaskKind>): (r: map<SKey, nat>) { map k | k in g && k.0 in done :: g[k] }

  /** Masks are apart: installing one more adds up. */
  lemma PartStep(s0: map<SKey, nat>, g: map<SKey, nat>, done: set<MaskKind>, s1: map<SKey, nat>, a1: int, m1: int,
                 mask: MaskKind, s: map<SKey, nat>, a: int, m: int)
    requires mask !in done && UpsertedMap(s0, Part(g, done), s1, a1, m1) && UpsertedMap(s1, OnMask(g, mask), s, a, m)
    ensures UpsertedMap(s0, Part(g, done + {mask}), s, a1 + a, m1 + m)
  {
    var p, q, all := Part(g, done), OnMask(g, mask), Part(g, done + {mask});
    PartPlus(s0, g, done, mask);
    PartAdds(s0, g, done, mask);
    PartMoves(s0, g, done, mask);
    hide Part, OnMask, MovedKeys;
    assert s == (s0 + p) + q;
  }

  lemma PartPlus(s: map<SKey, nat>, g: map<SKey, nat>, done: set<MaskKind>, mask: MaskKind)
    ensures (s + Part(g, done)) + OnMask(g, mask) == s + Part(g, done + {mask})
  {
    var p, q, all := Part(g, done), OnMask(g, mask), Part(g, done + {mask});
    assert all.Keys == p.Keys + q.Keys;
    assert forall k | k in q :: all[k] == q[k];
    assert forall k | k in p :: all[k] == p[k];
    hide Part, OnMask;
  }

  lemma PartKeys(g: map<SKey, nat>, done: set<MaskKind>, mask: MaskKind)
    requires mask !in done
    ensures Part(g, done).Keys !! OnMask(g, mask).Keys
    ensures Part(g, done + {mask}).Keys == Part(g, done).Keys + OnMask(g, mask).Keys
  {
  }

  lemma SplitCard(all: set<SKey>, p: set<SKey>, q: set<SKey>, s: set<SKey>)
    requires all == p + q && p !! q
    ensures |all - s| == |p - s| + |q - (s + p)|
  {
    assert all - s == (p - s) + (q - (s + p)) && (p - s) !! (q - (s + p));
  }

  lemma PartAdds(s0: map<SKey, nat>, g: map<SKey, nat>, done: set<MaskKind>, mask: MaskKind)
    requires mask !in done
    ensures |Part(g, done + {mask}).Keys - s0.Keys| ==
            |Part(g, done).Keys - s0.Keys| + |OnMask(g, mask).Keys - (s0 + Part(g, done)).Keys|
  {
    var p, q, all := Part(g, done).Keys, OnMask(g, mask).Keys, Part(g, done + {mask}).Keys;
    PartKeys(g, done, mask);
    assert (s0 + Part(g, done)).Keys == s0.Keys + p;
    hide Part, OnMask;
    SplitCard(all, p, q, s0.Keys);
  }

  /** A key is moved by the masks done or by the next one, as it would be by both together. */
  lemma PartMovedAt(s0: map<SKey, nat>, g: map<SKey, nat>, done: set<MaskKind>, mask: MaskKind, k: SKey)
    requires mask !in done
    ensures k in MovedKeys(s0, Part(g, done + {mask})) <==>
            k in MovedKeys(s0, Part(g, done)) || k in MovedKeys(s0 + Part(g, done), OnMask(g, mask))
    ensures k !in MovedKeys(s0, Part(g, done)) || k !in MovedKeys(s0 + Part(g, done), OnMask(g, mask))
  {
    if k.0 == mask {
      assert k !in Part(g, done);
    } else {
      assert k !in OnMask(g, mask);
    }
  }

  lemma PartMoves(s0: map<SKey, nat>, g: map<SKey, nat>, done: set<MaskKind>, mask: MaskKind)
    requires mask !in done
    ensures |MovedKeys(s0, Part(g, done + {mask}))| ==
            |MovedKeys(s0, Part(g, done))| + |MovedKeys(s0 + Part(g, done), OnMask(g, mask))|
  {
    hide MovedKeys, Part, OnMask;
    var a, b := MovedKeys(s0, Part(g, done)), MovedKeys(s0 + Part(g, done), OnMask(g, mask));
    forall k ensures (k in MovedKeys(s0, Part(g, done + {mask})) <==> k in a || k in b) && (k !in a || k !in b) {
      PartMovedAt(s0, g, done, mask, k);
    }
    assert MovedKeys(s0, Part(g, done + {mask})) == a + b;
    assert a !! b;
  }

  lemma PartStart(s: map<SKey, nat>, g: map<SKey, nat>)
    ensures UpsertedMap(s, Part(g, {}), s, 0, 0)
  {
    assert Part(g, {}) == map[] && MovedKeys(s, Part(g, {})) == {} && Part(g, {}).Keys - s.Keys == {};
  }

  lemma PartAll(g: map<SKey, nat>, all: set<MaskKind>)
    requires forall k | k in g :: k.0 in all
    ensures Part(g, all) == g
  {
  }

  /** The wants of one mask can be installed and amount to its part of `g`. */
  predicate MaskReady(wants: seq<SessionWant>, mask: MaskKind, g: map<SKey, nat>, idx: map<string, nat>) {
    && wants != [] && DistinctWants(wants) && WantMap(wants) == OnMask(g, mask)
    && forall w | w in wants :: GoodWant(w, mask) && w.hit in idx.Values
  }

  /** Mask by mask, the wants amount to `g`. */
  predicate MasksReady(byMask: map<MaskKind, seq<SessionWant>>, g: map<SKey, nat>, idx: map<string, nat>) {
    (forall m | m in byMask :: MaskReady(byMask[m], m, g, idx)) && forall k | k in g :: k.0 in byMask
  }

  lemma MaskIsReady(wants: seq<SessionWant>, mask: MaskKind, g: map<SKey, nat>, idx: map<string, nat>)
    requires MaskReady(wants, mask, g, idx)
    ensures wants != [] && DistinctWants(wants) && WantMap(wants) == OnMask(g, mask)
    ensures forall w | w in wants :: GoodWant(w, mask) && w.hit in idx.Values
  {
  }

  /** All masks of `g` but those still to do are installed and counted. */
  ghost predicate MasksIn(s0: map<SKey, nat>, g: map<SKey, nat>, all: set<MaskKind>, todo: set<MaskKind>,
                          s: map<SKey, nat>,
                          added: int, moved: int)
  {
    todo <= all && UpsertedMap(s0, Part(g, all - todo), s, added, moved)
  }

  lemma NoMaskYet(s: map<SKey, nat>, g: map<SKey, nat>, all: set<MaskKind>)
    ensures MasksIn(s, g, all, all, s, 0, 0)
  {
    hide UpsertedMap, Part;
    PartStart(s, g);
    assert all - all == {};
  }

  lemma EveryMaskIn(s0: map<SKey, nat>, g: map<SKey, nat>, all: set<MaskKind>, s: map<SKey, nat>, added: int,
                    moved: int)
    requires MasksIn(s0, g, all, {}, s, added, moved) && forall k | k in g :: k.0 in all
    ensures UpsertedMap(s0, g, s, added, moved)
  {
    hide UpsertedMap, Part;
    PartAll(g, all);
    assert all - {} == all;
  }

  lemma MaskInstalled(s0: map<SKey, nat>, g: map<SKey, nat>, all: set<MaskKind>, todo: set<MaskKind>,
                      s1: map<SKey, nat>,
                      a1: int, m1: int, mask: MaskKind, wants: seq<SessionWant>, idx: map<string, nat>,
                      s: map<SKey, nat>, a: int, m: int)
    requires mask in todo && MaskReady(wants, mask, g, idx)
    requires MasksIn(s0, g, all, todo, s1, a1, m1) && Upserted(s1, wants, s, a, m)
    ensures MasksIn(s0, g, all, todo - {mask}, s, a1 + a, m1 + m)
  {
    hide UpsertedMap, Part, OnMask, WantMap, MaskReady, GoodWant, DistinctWants;
    MaskIsReady(wants, mask, g, idx);
    OneLessToDo(all, todo, mask);
    PartStep(s0, g, all - todo, s1, a1, m1, mask, s, a, m);
  }

  /** All masks of an upserted pool. */
  method InstallAll(r: Reconciler, tables: map<MaskKind, nat>, byMask: map<MaskKind, seq<SessionWant>>,
                    ghost g: map<SKey, nat>)
    returns (added: int, moved: int, ok: bool)
    requires r.vpp.Valid() && tables == r.vpp.tables
    requires MasksReady(byMask, g, r.polIdx)
    modifies r`actSess, r.vpp`tables, r.vpp`next, r.vpp`sessions
    ensures r.vpp.Valid() && old(r.vpp.tables.Keys) <= r.vpp.tables.Keys
    ensures Standing(r) == old(Standing(r))
    ensures old(Live(r.vpp.sessions, r.polIdx)) ==> Live(r.vpp.sessions, r.polIdx)
    ensures ok ==> UpsertedMap(old(r.vpp.sessions), g, r.vpp.sessions, added, moved)
    ensures r.vpp.obliging ==> ok
  {
    hide GoodTables, GoodLinks, GoodPolicers, GoodSessions, GoodWant, DistinctWants, WantMap, OnMask, Live, Standing,
         UpsertedMap, Upserted, MaskReady, MasksIn;
    ghost var s0, st0, was, all := r.vpp.sessions, Standing(r), tables.Keys, byMask.Keys;
    added, moved := 0, 0;
    NoMaskYet(s0, g, all);
    var current := tables;
    var todo := byMask.Keys;
    while todo != {}
      invariant r.vpp.Valid() && current == r.vpp.tables && was <= current.Keys && Standing(r) == st0
      invariant todo <= all && (Live(s0, r.polIdx) ==> Live(r.vpp.sessions, r.polIdx))
      invariant MasksIn(s0, g, all, todo, r.vpp.sessions, added, moved)
    {
      var mask :| mask in todo;
      ghost var s1 := r.vpp.sessions;
      MaskIsReady(byMask[mask], mask, g, r.polIdx);
      var next, a, m, installed := InstallMask(r, current, mask, byMask[mask]);
      if !installed { return added, moved, false; }
      MaskInstalled(s0, g, all, todo, s1, added, moved, mask, byMask[mask], r.polIdx, r.vpp.sessions, a, m);
      added, moved, current := added + a, moved + m, next;
      todo := todo - {mask};
    }
    EveryMaskIn(s0, g, all, r.vpp.sessions, added, moved);
    ok := true;
  }

  lemma WantsAreReady(byMask: map<MaskKind, seq<SessionWant>>, ss: seq<Session>, idx: map<string, nat>, parse: Parse)
    requires Grouped(byMask, ss, idx) && DistinctKeys(ss) && Resolvable(ss, idx) && Listed(idx, parse)
    ensures MasksReady(byMask, Goal(ss, idx), idx)
  {
    GoalMasks(byMask, ss, idx);
    hide DistinctKeys, Resolvable, GoodWant, DistinctWants, WantMap, OnMask, Goal, Grouped, Listed;
    WantsReady(byMask, ss, idx, parse);
    WantsLive(byMask, ss, idx);
    GroupsNonempty(byMask, ss, idx);
  }

  lemma GroupsNonempty(byMask: map<MaskKind, seq<SessionWant>>, ss: seq<Session>, idx: map<string, nat>)
    requires Grouped(byMask, ss, idx)
    ensures forall m | m in byMask :: byMask[m] != []
  {
    hide KeyOr, SK, WantsFor;
    forall m | m in byMask ensures byMask[m] != [] {
      var s :| s in ss && s.mask == m;
      WantsNonempty(ss, m, idx, s);
    }
  }

  lemma {:induction false} WantsNonempty(ss: seq<Session>, mask: MaskKind, idx: map<string, nat>, s: Session)
    requires s in ss && s.mask == mask
    ensures WantsFor(ss, mask, idx) != []
  {
    if ss[|ss| - 1] == s {
    } else {
      WantsNonempty(ss[..|ss| - 1], mask, idx, s);
    }
  }

  /** One pool's sessions: drop the unlisted recorded members, then add or move the listed ones. An obliging VPP
      takes them exactly when every listed one has a known policer and a key, and the unlisted can be deleted. */
  method UpsertPoolSessions(r: Reconciler, prev: seq<Session>, next: seq<Session>)
    returns (added: int, deleted: int, moved: int, ok: bool)
    requires r.Valid() && DistinctKeys(next)
    modifies r`actSess, r.vpp`tables, r.vpp`next, r.vpp`sessions
    ensures r.Valid() && old(r.vpp.tables.Keys) <= r.vpp.tables.Keys
    ensures Standing(r) == old(Standing(r))
    ensures old(Live(r.vpp.sessions, r.polIdx)) ==> Live(r.vpp.sessions, r.polIdx)
    ensures ok ==> Resolvable(next, r.polIdx)
    ensures ok ==> PoolUpserted(old(r.vpp.sessions), Keys(prev), next, r.polIdx, r.vpp.sessions,
                                SessionCounts(added, deleted, moved))
    ensures r.vpp.obliging && DistinctKeys(prev) ==>
              (ok <==> Resolvable(next, r.polIdx) &&
                       UnlistedDroppable(prev, Keys(next), old(r.vpp.sessions), old(r.vpp.tables.Keys)))
  {
    hide GoodTables, GoodLinks, GoodSessions, Tracks, Listed, DistinctKeys, Resolvable, Grouped, Goal, Live, Keys,
         Without, Standing, UnlistedDroppable, UpsertedMap, MasksReady, PoolUpserted;
    added, deleted, moved := 0, 0, 0;
    var tables := r.vpp.FindTablesByMask();
    if tables.Err? { return 0, 0, 0, false; }
    var built := r.BuildSessionWants(next);
    if built.Err? { return 0, 0, 0, false; }
    ghost var s0 := r.vpp.sessions;
    ghost var n;
    var dropped;
    deleted, dropped, n := DropUnlisted(r, prev, Keys(next), tables.value);
    DroppedSoFar(s0, prev, n, Keys(next), r.vpp.sessions, r.polIdx);
    if !dropped { return 0, deleted, 0, false; }
    TracksListed(r.polIdx, r.vpp.policers, r.parse);
    WantsAreReady(built.value, next, r.polIdx, r.parse);
    ghost var s1 := r.vpp.sessions;
    added, moved, ok := InstallAll(r, tables.value, built.value, Goal(next, r.polIdx));
    if ok { PoolUpsertedIs(s0, Keys(prev), next, r.polIdx, s1, r.vpp.sessions, SessionCounts(added, deleted, moved)); }
  }

  /** A pool's sessions after an upsert of `next` over the recorded keys `was`, with what was counted. */
  ghost predicate PoolUpserted(s0: map<SKey, nat>, was: set<SKey>, next: seq<Session>, idx: map<string, nat>,
                               s: map<SKey, nat>, c: SessionCounts) {
    var s1 := s0 - (was - Keys(next));
    c.deleted == |s0| - |s1| && UpsertedMap(s1, Goal(next, idx), s, c.added, c.moved)
  }

  lemma PoolUpsertedIs(s0: map<SKey, nat>, was: set<SKey>, next: seq<Session>, idx: map<string, nat>,
                       s1: map<SKey, nat>,
                       s: map<SKey, nat>, c: SessionCounts)
    requires s1 == s0 - (was - Keys(next)) && c.deleted == |s0| - |s1|
    requires UpsertedMap(s1, Goal(next, idx), s, c.added, c.moved)
    ensures PoolUpserted(s0, was, next, idx, s, c)
  {
  }

  lemma DroppedSoFar(s0: map<SKey, nat>, prev: seq<Session>, n: nat, want: set<SKey>, s: map<SKey, nat>,
                     idx: map<string, nat>)
    requires n <= |prev| && Without(s, s0, Keys(prev[..n]) - want)
    ensures n == |prev| ==> s == s0 - (Keys(prev) - want)
    ensures Live(s0, idx) ==> Live(s, idx)
  {
    hide SK;
    if n == |prev| { assert prev[..n] == prev; }
  }

  lemma {:induction false} WantsForLive(ss: seq<Session>, mask: MaskKind, idx: map<string, nat>)
    requires Resolvable(ss, idx)
    ensures forall w | w in WantsFor(ss, mask, idx) :: w.hit in idx.Values
  {
    hide SK;
    if ss == [] {
    } else {
      WantsForLive(ss[..|ss| - 1], mask, idx);
      assert ss[|ss| - 1] in ss;
    }
  }

  lemma WantsLive(byMask: map<MaskKind, seq<SessionWant>>, ss: seq<Session>, idx: map<string, nat>)
    requires Grouped(byMask, ss, idx) && Resolvable(ss, idx)
    ensures forall m | m in byMask :: forall w | w in byMask[m] :: w.hit in idx.Values
  {
    hide Resolvable, WantsFor;
    forall m | m in byMask ensures forall w | w in byMask[m] :: w.hit in idx.Values { WantsForLive(ss, m, idx); }
  }

  // ----- removed pools ----------------------------------------------------------------------------------

  /** The recorded sessions grouped by pool. */
  function GroupOf(m: map<PoolID, seq<Session>>, pool: PoolID): (r: seq<Session>) { if pool in m then m[pool] else [] }

  method GroupByPool(prev: seq<Session>) returns (m: map<PoolID, seq<Session>>)
    ensures forall p: PoolID :: GroupOf(m, p) == Keep(prev, p, SessionPool)
  {
    m := map[];
    for i := 0 to |prev|
      invariant forall p: PoolID :: GroupOf(m, p) == Keep(prev[..i], p, SessionPool)
    {
      var s := prev[i];
      assert prev[..i + 1][..i] == prev[..i];
      m := m[s.poolID := GroupOf(m, s.poolID) + [s]];
    }
    assert prev[..|prev|] == prev;
  }

  function NamesIn(idx: map<string, nat>, pools: set<PoolID>, parse: Parse): (r: set<string>) {
    set n | n in idx && parse(n).Some? && parse(n).value in pools
  }

  lemma NamesInStep(idx0: map<string, nat>, pools: set<PoolID>, pool: PoolID, parse: Parse, idx: map<string, nat>)
    requires Without(idx, idx0, NamesIn(idx0, pools, parse))
    ensures NamesIn(idx0, pools + {pool}, parse) == NamesIn(idx0, pools, parse) + PoolNames(idx, pool, parse)
  {
  }

  lemma KeysOfStep(prev: seq<Session>, pools: set<PoolID>, pool: PoolID)
    ensures KeysOf(prev, pools + {pool}) == KeysOf(prev, pools) + Keys(Keep(prev, pool, SessionPool))
  {
    hide SK;
    var kept := Keep(prev, pool, SessionPool);
    forall x | x in prev && x.poolID == pool ensures x in kept { assert SessionPool(x) == pool; }
    forall x | x in kept ensures x in prev && x.poolID == pool { assert SessionPool(x) == pool; }
    hide Keep;
  }

  lemma WithoutMore<K, V>(m: map<K, V>, m1: map<K, V>, m0: map<K, V>, gone: set<K>, more: set<K>)
    requires Without(m1, m0, gone) && Without(m, m1, more)
    ensures Without(m, m0, gone + more)
  {
    assert m.Keys == (m0 - (gone + more)).Keys;
  }

  function PoolSetOf(ids: seq<PoolID>): (r: set<PoolID>) { set id | id in ids }

  /** The state after the first removals: their recorded sessions and their policers are gone. */
  ghost predicate RemovedSoFar(prev: seq<Session>, parse: Parse, pools: set<PoolID>,
                               s0: map<SKey, nat>, ps0: map<string, LivePolicer>, idx0: map<string, nat>,
                               s: map<SKey, nat>, ps: map<string, LivePolicer>, idx: map<string, nat>)
  {
    && Without(s, s0, KeysOf(prev, pools))
    && Without(ps, ps0, NamesIn(idx0, pools, parse))
    && Without(idx, idx0, NamesIn(idx0, pools, parse))
  }

  lemma RemovedNoneYet(prev: seq<Session>, parse: Parse, s: map<SKey, nat>, ps: map<string, LivePolicer>,
                       idx: map<string, nat>)
    ensures RemovedSoFar(prev, parse, {}, s, ps, idx, s, ps, idx)
  {
    assert KeysOf(prev, {}) == {} && NamesIn(idx, {}, parse) == {};
  }

  lemma RemovedOneMore(prev: seq<Session>, parse: Parse, pools: set<PoolID>, pool: PoolID,
                       s0: map<SKey, nat>, ps0: map<string, LivePolicer>, idx0: map<string, nat>,
                       s1: map<SKey, nat>, ps1: map<string, LivePolicer>, idx1: map<string, nat>,
                       s: map<SKey, nat>, ps: map<string, LivePolicer>, idx: map<string, nat>, gone: set<string>)
    requires RemovedSoFar(prev, parse, pools, s0, ps0, idx0, s1, ps1, idx1)
    requires Without(s, s1, Keys(Keep(prev, pool, SessionPool)))
    requires gone == PoolNames(idx1, pool, parse) && Without(ps, ps1, gone) && Without(idx, idx1, gone)
    ensures RemovedSoFar(prev, parse, pools + {pool}, s0, ps0, idx0, s, ps, idx)
  {
    NamesInStep(idx0, pools, pool, parse, idx1);
    KeysOfStep(prev, pools, pool);
    hide Without, KeysOf, NamesIn, PoolNames, Keys;
    WithoutMore(s, s1, s0, KeysOf(prev, pools), Keys(Keep(prev, pool, SessionPool)));
    WithoutMore(ps, ps1, ps0, NamesIn(idx0, pools, parse), gone);
    WithoutMore(idx, idx1, idx0, NamesIn(idx0, pools, parse), gone);
  }

  lemma LinkedWithout(s0: map<SKey, nat>, gone: set<SKey>, s: map<SKey, nat>, idx: map<string, nat>, prev: seq<Session>,
                      parse: Parse)
    requires Without(s, s0, gone)
    ensures Linked(s0, idx, prev, parse) ==> Linked(s, idx, prev, parse)
  {
    hide Linked;
    if Linked(s0, idx, prev, parse) { LinkedAfterRemoval(s0, gone, idx, prev, parse); }
  }

  lemma LinkedWithoutPool(s1: map<SKey, nat>, s: map<SKey, nat>, idx1: map<string, nat>, idx: map<string, nat>,
                          prev: seq<Session>, parse: Parse, pool: PoolID, gone: set<string>)
    requires Without(s, s1, Keys(Keep(prev, pool, SessionPool)))
    requires gone <= PoolNames(idx1, pool, parse) && Without(idx, idx1, gone)
    ensures Linked(s, idx1, prev, parse) ==> Linked(s, idx, prev, parse)
  {
    hide SK, Linked;
    var kept := Keep(prev, pool, SessionPool);
    forall x | x in prev && x.poolID == pool ensures SK(x) !in s {
      assert SessionPool(x) == pool && x in kept;
    }
    if Linked(s, idx1, prev, parse) { LinkedAfterPoolDrop(s, idx1, prev, parse, pool, gone); }
  }

  lemma WithoutSize<K, V>(m: map<K, V>, m0: map<K, V>, gone: set<K>)
    requires Without(m, m0, gone) && gone <= m0.Keys
    ensures |m| == |m0| - |gone|
  {
    assert m0.Keys == m.Keys + gone && |m.Keys| == |m| && |m0.Keys| == |m0|;
  }

  /** The recorded sessions of a removed pool. */
  method EmptyPool(r: Reconciler, members: seq<Session>, ghost prev: seq<Session>) returns (deleted: int, ok: bool)
    requires r.vpp.Valid()
    modifies r`actSess, r.vpp`sessions
    ensures r.vpp.Valid() && Standing(r) == old(Standing(r)) && deleted == |old(r.vpp.sessions)| - |r.vpp.sessions|
    ensures old(Linked(r.vpp.sessions, r.polIdx, prev, r.parse)) ==> Linked(r.vpp.sessions, r.polIdx, prev, r.parse)
    ensures ok ==> Without(r.vpp.sessions, old(r.vpp.sessions), Keys(members))
    ensures r.vpp.obliging && DistinctKeys(members) ==>
              (ok <==> AllDroppable(members, old(r.vpp.sessions), r.vpp.tables.Keys))
  {
    hide GoodTables, GoodLinks, GoodSessions, GoodPolicers, Linked, Without, Keys, Standing, DistinctKeys, AllDroppable;
    ghost var s0 := r.vpp.sessions;
    ghost var n;
    deleted, ok, n := DeletePoolSessions(r, members);
    LinkedWithout(s0, Keys(members[..n]), r.vpp.sessions, r.polIdx, prev, r.parse);
    if ok { assert members[..n] == members; }
  }

  /** The policers of a removed pool, once none of its recorded sessions is installed. */
  method DropPool(r: Reconciler, pool: PoolID, ghost prev: seq<Session>, ghost s0: map<SKey, nat>)
    returns (deleted: int, ok: bool, ghost gone: set<string>)
    requires r.Valid() && Without(r.vpp.sessions, s0, Keys(Keep(prev, pool, SessionPool)))
    modifies r`polIdx, r`actPol, r.vpp`policers
    ensures r.Valid() && Standing(r) == old(Standing(r))
    ensures old(Linked(r.vpp.sessions, r.polIdx, prev, r.parse)) ==> Linked(r.vpp.sessions, r.polIdx, prev, r.parse)
    ensures ok ==> gone == PoolNames(old(r.polIdx), pool, r.parse) && deleted == |gone|
    ensures ok ==> Without(r.vpp.policers, old(r.vpp.policers), gone) && Without(r.polIdx, old(r.polIdx), gone)
    ensures r.vpp.obliging ==> ok
  {
    hide GoodTables, GoodLinks, GoodSessions, GoodPolicers, Tracks, Managed, Linked, Without, Keys, PoolNames, Keep,
         Standing;
    ghost var idx0 := r.polIdx;
    deleted, ok, gone := DeletePoolPolicers(r, pool);
    TracksGood(r.polIdx, r.vpp.policers, r.parse);
    LinkedWithoutPool(s0, r.vpp.sessions, idx0, r.polIdx, prev, r.parse, pool, gone);
  }

  /** One removed pool: its recorded sessions, then its policers. */
  method RemovePool(r: Reconciler, members: seq<Session>, pool: PoolID, ghost prev: seq<Session>)
    returns (sessions: int, policers: int, ok: bool, ghost gone: set<string>)
    requires r.Valid() && members == Keep(prev, pool, SessionPool)
    modifies r`polIdx, r`actPol, r`actSess, r.vpp`policers, r.vpp`sessions
    ensures r.Valid() && Standing(r) == old(Standing(r))
    ensures old(Linked(r.vpp.sessions, r.polIdx, prev, r.parse)) ==> Linked(r.vpp.sessions, r.polIdx, prev, r.parse)
    ensures ok ==> gone == PoolNames(old(r.polIdx), pool, r.parse) && policers == |gone|
    ensures ok ==> Without(r.vpp.sessions, old(r.vpp.sessions), Keys(members)) &&
                   sessions == |old(r.vpp.sessions)| - |r.vpp.sessions|
    ensures ok ==> Without(r.vpp.policers, old(r.vpp.policers), gone) && Without(r.polIdx, old(r.polIdx), gone)
    ensures r.vpp.obliging && DistinctKeys(members) ==>
              (ok <==> AllDroppable(members, old(r.vpp.sessions), r.vpp.tables.Keys))
  {
    hide GoodTables, GoodLinks, GoodSessions, GoodPolicers, Tracks, Managed, Linked, Without, Keys, PoolNames, Keep,
         Standing, DistinctKeys, AllDroppable;
    ghost var s0 := r.vpp.sessions;
    policers, gone := 0, {};
    sessions, ok := EmptyPool(r, members, prev);
    if ok { policers, ok, gone := DropPool(r, pool, prev, s0); }
  }

  lemma {:induction false} KeepDistinct(prev: seq<Session>, pool: PoolID)
    requires DistinctKeys(prev)
    ensures DistinctKeys(Keep(prev, pool, SessionPool))
  {
    hide SK;
    if prev == [] {
    } else {
      var rest, last := prev[..|prev| - 1], prev[|prev| - 1];
      KeepDistinct(rest, pool);
      var kept := Keep(rest, pool, SessionPool);
      forall x | x in kept ensures SK(x) != SK(last) {
        var i :| 0 <= i < |rest| && rest[i] == x;
      }
      hide Keep;
      KeepLast(prev, pool, SessionPool);
    }
  }

  /** The `i`-th removal can delete its recorded sessions after the earlier ones. */
  ghost predicate RemovalFits(prev: seq<Session>, ids: seq<PoolID>, i: nat, s0: map<SKey, nat>, tables: set<MaskKind>)
    requires i < |ids|
  {
    AllDroppable(Keep(prev, ids[i], SessionPool), s0 - KeysOf(prev, PoolSetOf(ids[..i])), tables)
  }

  lemma RemovalFitsNow(prev: seq<Session>, parse: Parse, ids: seq<PoolID>, i: nat, tables: set<MaskKind>,
                       s0: map<SKey, nat>, ps0: map<string, LivePolicer>, idx0: map<string, nat>,
                       s: map<SKey, nat>, ps: map<string, LivePolicer>, idx: map<string, nat>)
    requires i < |ids| && RemovedSoFar(prev, parse, PoolSetOf(ids[..i]), s0, ps0, idx0, s, ps, idx)
    ensures RemovalFits(prev, ids, i, s0, tables) <==> AllDroppable(Keep(prev, ids[i], SessionPool), s, tables)
  {
    hide AllDroppable, KeysOf, Keep, NamesIn;
  }

  /** The first `n` removals fit. */
  ghost predicate RemovalsFit(prev: seq<Session>, ids: seq<PoolID>, n: nat, s0: map<SKey, nat>, tables: set<MaskKind>)
    requires n <= |ids|
  {
    forall i: nat | i < n :: RemovalFits(prev, ids, i, s0, tables)
  }

  lemma RemovalsFitNone(prev: seq<Session>, ids: seq<PoolID>, s0: map<SKey, nat>, tables: set<MaskKind>)
    ensures RemovalsFit(prev, ids, 0, s0, tables)
  {
  }

  lemma RemovalsFitNext(prev: seq<Session>, ids: seq<PoolID>, n: nat, s0: map<SKey, nat>, tables: set<MaskKind>)
    requires n < |ids|
    ensures RemovalsFit(prev, ids, n + 1, s0, tables) <==>
              RemovalsFit(prev, ids, n, s0, tables) && RemovalFits(prev, ids, n, s0, tables)
    ensures RemovalsFit(prev, ids, |ids|, s0, tables) ==> RemovalFits(prev, ids, n, s0, tables)
  {
    hide RemovalFits;
    if RemovalsFit(prev, ids, n, s0, tables) && RemovalFits(prev, ids, n, s0, tables) {
      forall i: nat | i < n + 1 ensures RemovalFits(prev, ids, i, s0, tables) { }
    }
  }

  lemma NamesKnown(idx: map<string, nat>, pool: PoolID, parse: Parse)
    ensures PoolNames(idx, pool, parse) <= idx.Keys
  {
  }

  /** The removed pools in order. An obliging VPP lets them go exactly when each of them fits. */
  method RemovePools(r: Reconciler, ids: seq<PoolID>, byPool: map<PoolID, seq<Session>>, ghost prev: seq<Session>)
    returns (sessions: int, policers: int, ok: bool)
    requires r.Valid() && forall p: PoolID :: GroupOf(byPool, p) == Keep(prev, p, SessionPool)
    modifies r`polIdx, r`actPol, r`actSess, r.vpp`policers, r.vpp`sessions
    ensures r.Valid() && Standing(r) == old(Standing(r))
    ensures old(Linked(r.vpp.sessions, r.polIdx, prev, r.parse)) ==> Linked(r.vpp.sessions, r.polIdx, prev, r.parse)
    ensures ok ==> RemovedSoFar(prev, r.parse, PoolSetOf(ids), old(r.vpp.sessions), old(r.vpp.policers), old(r.polIdx),
                                r.vpp.sessions, r.vpp.policers, r.polIdx)
    ensures ok ==> sessions == |old(r.vpp.sessions)| - |r.vpp.sessions| && policers == |old(r.polIdx)| - |r.polIdx|
    ensures r.vpp.obliging && DistinctKeys(prev) ==>
              (ok <==> RemovalsFit(prev, ids, |ids|, old(r.vpp.sessions), r.vpp.tables.Keys))
  {
    hide GoodTables, GoodLinks, GoodSessions, GoodPolicers, Tracks, Managed, Linked, Without, Keys, PoolNames,
         RemovedSoFar, Keep, GroupOf, Standing, DistinctKeys, AllDroppable, RemovalFits, RemovalsFit;
    ghost var s0, ps0, idx0, st0, all := r.vpp.sessions, r.vpp.policers, r.polIdx, Standing(r), r.vpp.tables.Keys;
    sessions, policers := 0, 0;
    RemovedNoneYet(prev, r.parse, s0, ps0, idx0);
    RemovalsFitNone(prev, ids, s0, all);
    assert PoolSetOf(ids[..0]) == {};
    for i := 0 to |ids|
      invariant r.Valid() && Standing(r) == st0
      invariant Linked(s0, idx0, prev, r.parse) ==> Linked(r.vpp.sessions, r.polIdx, prev, r.parse)
      invariant RemovedSoFar(prev, r.parse, PoolSetOf(ids[..i]), s0, ps0, idx0, r.vpp.sessions, r.vpp.policers,
                             r.polIdx)
      invariant sessions == |s0| - |r.vpp.sessions| && policers == |idx0| - |r.polIdx|
      invariant r.vpp.obliging && DistinctKeys(prev) ==> RemovalsFit(prev, ids, i, s0, all)
    {
      assert PoolSetOf(ids[..i + 1]) == PoolSetOf(ids[..i]) + {ids[i]};
      ghost var s1, ps1, idx1 := r.vpp.sessions, r.vpp.policers, r.polIdx;
      if DistinctKeys(prev) { KeepDistinct(prev, ids[i]); }
      RemovalsFitNext(prev, ids, i, s0, all);
      RemovalFitsNow(prev, r.parse, ids, i, all, s0, ps0, idx0, s1, ps1, idx1);
      var ds, dp, done, gone := RemovePool(r, GroupOf(byPool, ids[i]), ids[i], prev);
      if !done { return sessions, policers, false; }
      NamesKnown(idx1, ids[i], r.parse);
      WithoutSize(r.polIdx, idx1, gone);
      sessions, policers := sessions + ds, policers + dp;
      RemovedOneMore(prev, r.parse, PoolSetOf(ids[..i]), ids[i], s0, ps0, idx0, s1, ps1, idx1,
                     r.vpp.sessions, r.vpp.policers, r.polIdx, gone);
    }
    assert ids[..|ids|] == ids;
    ok := true;
  }

  // ----- upserted pools ---------------------------------------------------------------------------------

  lemma UpsertedConcat(ps0: map<string, LivePolicer>, idx0: map<string, nat>, a: seq<PolicerSpec>,
                       ps1: map<string, LivePolicer>, idx1: map<string, nat>, b: seq<PolicerSpec>,
                       ps: map<string, LivePolicer>, idx: map<string, nat>)
    requires PolicersUpserted(ps0, idx0, a, ps1, idx1) && PolicersUpserted(ps1, idx1, b, ps, idx)
    ensures PolicersUpserted(ps0, idx0, a + b, ps, idx)
  {
    ByNameConcat(a, b);
    hide ByName, ConfOf;
    UpsertedToConcat(ps0, idx0, ByName(a), ps1, idx1, ByName(b), ps, idx);
  }

  lemma UpsertedToConcat(ps0: map<string, LivePolicer>, idx0: map<string, nat>, a: map<string, PolicerSpec>,
                         ps1: map<string, LivePolicer>, idx1: map<string, nat>, b: map<string, PolicerSpec>,
                         ps: map<string, LivePolicer>, idx: map<string, nat>)
    requires UpsertedTo(ps0, idx0, a, ps1, idx1) && UpsertedTo(ps1, idx1, b, ps, idx)
    ensures UpsertedTo(ps0, idx0, a + b, ps, idx)
  {
    hide ConfOf;
    assert (a + b).Keys == a.Keys + b.Keys;
    forall n | n in a + b ensures ps[n].conf == ConfOf((a + b)[n]) { if n !in b { assert n in ps1; } }
    forall n | n in ps0 && n !in a + b ensures ps[n] == ps0[n] { assert n in ps1; }
    forall n | n in idx0 ensures idx[n] == idx0[n] { assert n in idx1; }
  }

  predicate Extends(idx: map<string, nat>, idx0: map<string, nat>) {
    forall n | n in idx0 :: n in idx && idx[n] == idx0[n]
  }

  lemma UpsertedExtends(ps0: map<string, LivePolicer>, idx0: map<string, nat>, specs: seq<PolicerSpec>,
                        ps: map<string, LivePolicer>, idx: map<string, nat>)
    requires PolicersUpserted(ps0, idx0, specs, ps, idx)
    ensures Extends(idx, idx0)
  {
    hide ByName, ConfOf;
  }

  lemma LiveExtends(s: map<SKey, nat>, idx0: map<string, nat>, idx: map<string, nat>)
    requires Live(s, idx0) && Extends(idx, idx0)
    ensures Live(s, idx)
  {
    forall k | k in s ensures s[k] in idx.Values {
      var n :| n in idx0 && idx0[n] == s[k];
      assert n in idx && idx[n] == s[k];
    }
  }

  /** Later upserts only learn more indexes, so earlier effects stand. */
  lemma {:induction false} EffectsStand(s: map<SKey, nat>, prev: seq<Session>, ups: seq<PoolDelta>,
                                        idx0: map<string, nat>, idx: map<string, nat>)
    requires Extends(idx, idx0) && forall u | u in ups :: Resolvable(u.sessions, idx0)
    ensures AfterUpserts(s, prev, ups, idx) == AfterUpserts(s, prev, ups, idx0)
    ensures UpsertsCounts(s, prev, ups, idx) == UpsertsCounts(s, prev, ups, idx0)
  {
    hide SK, Keyed, UpsertEffect, OneCounts;
    if ups == [] {
    } else {
      var u := ups[|ups| - 1];
      assert u in ups;
      EffectsStand(s, prev, ups[..|ups| - 1], idx0, idx);
      EffectStands(AfterUpserts(s, prev, ups[..|ups| - 1], idx), prev, u, idx0, idx);
    }
  }

  lemma EffectStands(s: map<SKey, nat>, prev: seq<Session>, u: PoolDelta, idx0: map<string, nat>, idx: map<string, nat>)
    requires Extends(idx, idx0) && Resolvable(u.sessions, idx0)
    ensures UpsertEffect(s, prev, u, idx) == UpsertEffect(s, prev, u, idx0) &&
            OneCounts(s, prev, u, idx) == OneCounts(s, prev, u, idx0)
  {
    hide SK, Keyed, Goal, MovedKeys;
    GoalDependsOnNamed(u.sessions, idx, idx0);
  }

  /** Every upsert lists each key once and only managed policer names. */
  predicate Applicable(d: Delta, parse: Parse) {
    forall u | u in d.upserts :: DistinctKeys(u.sessions) && forall p | p in u.policers :: parse(p.name).Some?
  }

  /** The state after the first upserts. */
  ghost predicate UpsertedSoFar(prev: seq<Session>, ups: seq<PoolDelta>,
                                s0: map<SKey, nat>, ps0: map<string, LivePolicer>, idx0: map<string, nat>,
                                s: map<SKey, nat>, ps: map<string, LivePolicer>, idx: map<string, nat>)
  {
    && PolicersUpserted(ps0, idx0, Flatten(ups, UpPolicers), ps, idx)
    && s == AfterUpserts(s0, prev, ups, idx)
    && forall u | u in ups :: Resolvable(u.sessions, idx)
  }

  lemma UpsertedNoneYet(prev: seq<Session>, s: map<SKey, nat>, ps: map<string, LivePolicer>, idx: map<string, nat>)
    ensures UpsertedSoFar(prev, [], s, ps, idx, s, ps, idx)
  {
  }

  lemma ResolvableExtends(ss: seq<Session>, idx0: map<string, nat>, idx: map<string, nat>)
    requires Resolvable(ss, idx0) && Extends(idx, idx0)
    ensures Resolvable(ss, idx)
  {
    hide Keyed;
  }

  lemma UpsertedOneMore(prev: seq<Session>, ups: seq<PoolDelta>, u: PoolDelta,
                        s0: map<SKey, nat>, ps0: map<string, LivePolicer>, idx0: map<string, nat>,
                        s1: map<SKey, nat>, ps1: map<string, LivePolicer>, idx1: map<string, nat>,
                        s: map<SKey, nat>, ps: map<string, LivePolicer>, idx: map<string, nat>, c: SessionCounts)
    requires UpsertedSoFar(prev, ups, s0, ps0, idx0, s1, ps1, idx1)
    requires PolicersUpserted(ps1, idx1, u.policers, ps, idx) && Resolvable(u.sessions, idx)
    requires PoolUpserted(s1, Keys(Keep(prev, u.poolID, SessionPool)), u.sessions, idx, s, c)
    ensures UpsertedSoFar(prev, ups + [u], s0, ps0, idx0, s, ps, idx)
    ensures UpsertsCounts(s0, prev, ups + [u], idx) == Plus(UpsertsCounts(s0, prev, ups, idx1), c)
  {
    hide Keys, Keep, KeysOf, Goal, PolicersUpserted, Resolvable, AfterUpserts, UpsertsCounts, UpsertEffect, OneCounts,
         Flatten, PoolUpserted;
    var all := ups + [u];
    UpsertsSnoc(s0, prev, ups, u, idx);
    PoolKeys(prev, u.poolID);
    UpsertedExtends(ps1, idx1, u.policers, ps, idx);
    UpsertedConcat(ps0, idx0, Flatten(ups, UpPolicers), ps1, idx1, u.policers, ps, idx);
    EffectsStand(s0, prev, ups, idx1, idx);
    forall v | v in all ensures Resolvable(v.sessions, idx) {
      if v in ups { ResolvableExtends(v.sessions, idx1, idx); }
    }
    OneUpsertIs(s1, prev, u, idx, s, c);
    SoFarIs(prev, all, s0, ps0, idx0, s, ps, idx);
  }

  lemma UpsertsSnoc(s0: map<SKey, nat>, prev: seq<Session>, ups: seq<PoolDelta>, u: PoolDelta, idx: map<string, nat>)
    ensures Flatten(ups + [u], UpPolicers) == Flatten(ups, UpPolicers) + u.policers
    ensures AfterUpserts(s0, prev, ups + [u], idx) == UpsertEffect(AfterUpserts(s0, prev, ups, idx), prev, u, idx)
    ensures UpsertsCounts(s0, prev, ups + [u], idx) ==
            Plus(UpsertsCounts(s0, prev, ups, idx), OneCounts(AfterUpserts(s0, prev, ups, idx), prev, u, idx))
  {
    hide UpsertEffect, OneCounts;
    var all := ups + [u];
    assert all[..|ups|] == ups && all[|ups|] == u;
  }

  lemma PoolKeys(prev: seq<Session>, pool: PoolID)
    ensures KeysOf(prev, {pool}) == Keys(Keep(prev, pool, SessionPool))
  {
    KeysOfStep(prev, {}, pool);
    assert KeysOf(prev, {}) == {} && {} + {pool} == {pool};
    assert {} + Keys(Keep(prev, pool, SessionPool)) == Keys(Keep(prev, pool, SessionPool));
  }

  /** What one pool's upsert did and counted is its planned effect and count. */
  lemma OneUpsertIs(s1: map<SKey, nat>, prev: seq<Session>, u: PoolDelta, idx: map<string, nat>, s: map<SKey, nat>,
                    c: SessionCounts)
    requires KeysOf(prev, {u.poolID}) == Keys(Keep(prev, u.poolID, SessionPool))
    requires PoolUpserted(s1, Keys(Keep(prev, u.poolID, SessionPool)), u.sessions, idx, s, c)
    ensures s == UpsertEffect(s1, prev, u, idx) && c == OneCounts(s1, prev, u, idx)
  {
    hide Goal, Keys, KeysOf, Keep, MovedKeys;
  }

  lemma SoFarIs(prev: seq<Session>, ups: seq<PoolDelta>, s0: map<SKey, nat>, ps0: map<string, LivePolicer>,
                idx0: map<string, nat>,
                s: map<SKey, nat>, ps: map<string, LivePolicer>, idx: map<string, nat>)
    requires PolicersUpserted(ps0, idx0, Flatten(ups, UpPolicers), ps, idx) && s == AfterUpserts(s0, prev, ups, idx)
    requires forall u | u in ups :: Resolvable(u.sessions, idx)
    ensures UpsertedSoFar(prev, ups, s0, ps0, idx0, s, ps, idx)
  {
  }

  /** Every session of the list has a key and names one of `names`. */
  predicate ResolvableBy(ss: seq<Session>, names: set<string>) {
    forall s | s in ss :: s.policerName in names && Keyed(s)
  }

  lemma ResolvableByKnown(ss: seq<Session>, idx: map<string, nat>)
    ensures Resolvable(ss, idx) <==> ResolvableBy(ss, idx.Keys)
  {
    hide Keyed;
  }

  /** Recorded sessions have keys, on tables VPP has. */
  predicate Housed(prev: seq<Session>, tables: set<MaskKind>) { forall x | x in prev :: Keyed(x) && x.mask in tables }

  /** The members an upsert no longer lists are installed. */
  predicate UnlistedInstalled(members: seq<Session>, want: set<SKey>, keys: set<SKey>) {
    forall x | x in members && SK(x) !in want :: SK(x) in keys
  }

  lemma HousedDroppable(members: seq<Session>, want: set<SKey>, s: map<SKey, nat>, tables: set<MaskKind>)
    requires Housed(members, tables)
    ensures UnlistedDroppable(members, want, s, tables) <==> UnlistedInstalled(members, want, s.Keys)
    ensures AllDroppable(members, s, tables) <==> forall x | x in members :: SK(x) in s
  {
    hide SK, Keyed;
  }

  /** What one upserted pool asks of VPP. */
  predicate PoolFits(u: PoolDelta, members: seq<Session>, keys: set<SKey>, names: set<string>,
                     accepts: PolicerSpec -> bool) {
    && Acceptable(u.policers, accepts) && ResolvableBy(u.sessions, names + ByName(u.policers).Keys)
    && UnlistedInstalled(members, Keys(u.sessions), keys)
  }

  lemma KnownAfter(ps0: map<string, LivePolicer>, idx0: map<string, nat>, specs: seq<PolicerSpec>,
                   ps: map<string, LivePolicer>, idx: map<string, nat>)
    requires PolicersUpserted(ps0, idx0, specs, ps, idx)
    ensures idx.Keys == idx0.Keys + ByName(specs).Keys
  {
  }

  /** One upserted pool: its policers, then its sessions. */
  method UpsertPool(r: Reconciler, u: PoolDelta, members: seq<Session>)
    returns (added: int, updated: int, c: SessionCounts, ok: bool)
    requires r.Valid() && DistinctKeys(u.sessions) && forall p | p in u.policers :: r.parse(p.name).Some?
    modifies r`polIdx, r`actPol, r`actSess, r.vpp`policers, r.vpp`tables, r.vpp`next, r.vpp`sessions
    ensures r.Valid() && old(r.vpp.tables.Keys) <= r.vpp.tables.Keys && Standing(r) == old(Standing(r))
    ensures old(Live(r.vpp.sessions, r.polIdx)) ==> Live(r.vpp.sessions, r.polIdx)
    ensures |r.vpp.policers| <= |old(r.vpp.policers)| + |u.policers|
    ensures ok ==> PolicersUpserted(old(r.vpp.policers), old(r.polIdx), u.policers, r.vpp.policers, r.polIdx)
    ensures ok ==> added == |r.polIdx| - |old(r.polIdx)| && added + updated == |u.policers|
    ensures ok ==> Resolvable(u.sessions, r.polIdx)
    ensures ok ==> PoolUpserted(old(r.vpp.sessions), Keys(members), u.sessions, r.polIdx, r.vpp.sessions, c)
    ensures old(Willing(r, |u.policers|)) && DistinctKeys(members) && Housed(members, old(r.vpp.tables.Keys)) ==>
              (ok <==> PoolFits(u, members, old(r.vpp.sessions.Keys), old(r.polIdx.Keys), r.vpp.accepts))
  {
    hide GoodTables, GoodLinks, GoodSessions, GoodPolicers, Tracks, Managed, Live, PolicersUpserted, Keys, Goal,
         Resolvable, DistinctKeys, Standing, Acceptable, ResolvableBy, Housed, UnlistedInstalled, UnlistedDroppable,
         PoolUpserted, ByName;
    ghost var s0, ps0, idx0 := r.vpp.sessions, r.vpp.policers, r.polIdx;
    c := SessionCounts(0, 0, 0);
    var done;
    ghost var n;
    added, updated, done, n := UpsertPoolPolicers(r, u.policers);
    assert PolicersUpserted(ps0, idx0, u.policers[..n], r.vpp.policers, r.polIdx);
    TracksGood(r.polIdx, r.vpp.policers, r.parse);
    UpsertedExtends(ps0, idx0, u.policers[..n], r.vpp.policers, r.polIdx);
    if Live(s0, idx0) { LiveExtends(s0, idx0, r.polIdx); }
    if !done { return added, updated, c, false; }
    assert u.policers[..n] == u.policers;
    KnownAfter(ps0, idx0, u.policers, r.vpp.policers, r.polIdx);
    ResolvableByKnown(u.sessions, r.polIdx);
    if Housed(members, r.vpp.tables.Keys) { HousedDroppable(members, Keys(u.sessions), s0, r.vpp.tables.Keys); }
    var a, d, m;
    a, d, m, ok := UpsertPoolSessions(r, members, u.sessions);
    c := SessionCounts(a, d, m);
  }

  /** The `j`-th upsert, after the earlier ones, asks nothing VPP cannot do. */
  ghost predicate UpsertFits(prev: seq<Session>, ups: seq<PoolDelta>, j: nat, keys0: set<SKey>, names0: set<string>,
                             accepts: PolicerSpec -> bool)
    requires j < |ups|
  {
    PoolFits(ups[j], Keep(prev, ups[j].poolID, SessionPool), KeysAfter(keys0, prev, ups[..j]),
             names0 + ByName(Flatten(ups[..j], UpPolicers)).Keys, accepts)
  }

  lemma UpsertFitsNow(prev: seq<Session>, ups: seq<PoolDelta>, j: nat, accepts: PolicerSpec -> bool,
                      s0: map<SKey, nat>, ps0: map<string, LivePolicer>, idx0: map<string, nat>,
                      s: map<SKey, nat>, ps: map<string, LivePolicer>, idx: map<string, nat>)
    requires j < |ups| && UpsertedSoFar(prev, ups[..j], s0, ps0, idx0, s, ps, idx)
    ensures UpsertFits(prev, ups, j, s0.Keys, idx0.Keys, accepts) <==>
            PoolFits(ups[j], Keep(prev, ups[j].poolID, SessionPool), s.Keys, idx.Keys, accepts)
  {
    KnownAfter(ps0, idx0, Flatten(ups[..j], UpPolicers), ps, idx);
    hide PoolFits, PolicersUpserted, KeysAfter, ByName, Flatten, Keep;
    KeysAfterIs(s0, prev, ups[..j], idx);
  }

  lemma HousedKeep(prev: seq<Session>, pool: PoolID, tables: set<MaskKind>, more: set<MaskKind>)
    requires Housed(prev, tables) && tables <= more
    ensures Housed(Keep(prev, pool, SessionPool), more)
  {
    hide Keyed;
  }

  lemma FlattenSize(ups: seq<PoolDelta>, u: PoolDelta)
    ensures |Flatten(ups + [u], UpPolicers)| == |Flatten(ups, UpPolicers)| + |u.policers|
  {
    assert (ups + [u])[..|ups|] == ups;
  }

  lemma {:induction false} FlattenPrefix(ups: seq<PoolDelta>, i: nat)
    requires i <= |ups|
    ensures |Flatten(ups[..i], UpPolicers)| <= |Flatten(ups, UpPolicers)|
    decreases |ups| - i
  {
    if i == |ups| {
      assert ups[..i] == ups;
    } else {
      FlattenPrefix(ups, i + 1);
      assert ups[..i + 1] == ups[..i] + [ups[i]];
      FlattenSize(ups[..i], ups[i]);
    }
  }

  /** The first `n` upserts fit. */
  ghost predicate UpsertsFit(prev: seq<Session>, ups: seq<PoolDelta>, n: nat, keys0: set<SKey>, names0: set<string>,
                             accepts: PolicerSpec -> bool)
    requires n <= |ups|
  {
    forall j: nat | j < n :: UpsertFits(prev, ups, j, keys0, names0, accepts)
  }

  lemma UpsertsFitNext(prev: seq<Session>, ups: seq<PoolDelta>, n: nat, keys0: set<SKey>, names0: set<string>,
                       accepts: PolicerSpec -> bool)
    requires n < |ups|
    ensures UpsertsFit(prev, ups, n + 1, keys0, names0, accepts) <==>
            UpsertsFit(prev, ups, n, keys0, names0, accepts) && UpsertFits(prev, ups, n, keys0, names0, accepts)
    ensures UpsertsFit(prev, ups, |ups|, keys0, names0, accepts) ==> UpsertFits(prev, ups, n, keys0, names0, accepts)
  {
    hide UpsertFits;
    if UpsertsFit(prev, ups, n, keys0, names0, accepts) && UpsertFits(prev, ups, n, keys0, names0, accepts) {
      forall j: nat | j < n + 1 ensures UpsertFits(prev, ups, j, keys0, names0, accepts) { }
    }
  }

  /** The upserts `ups` are applied and counted. */
  ghost predicate UpsertsDone(prev: seq<Session>, ups: seq<PoolDelta>,
                              s0: map<SKey, nat>, ps0: map<string, LivePolicer>, idx0: map<string, nat>,
                              s: map<SKey, nat>, ps: map<string, LivePolicer>, idx: map<string, nat>,
                              added: int, updated: int, c: SessionCounts)
  {
    && UpsertedSoFar(prev, ups, s0, ps0, idx0, s, ps, idx)
    && added == |idx| - |idx0| && added + updated == |Flatten(ups, UpPolicers)|
    && |ps| <= |ps0| + |Flatten(ups, UpPolicers)|
    && c == UpsertsCounts(s0, prev, ups, idx)
  }

  lemma UpsertsStart(prev: seq<Session>, ups: seq<PoolDelta>, s: map<SKey, nat>, ps: map<string, LivePolicer>,
                     idx: map<string, nat>,
                     accepts: PolicerSpec -> bool)
    ensures UpsertsDone(prev, ups[..0], s, ps, idx, s, ps, idx, 0, 0, SessionCounts(0, 0, 0))
    ensures UpsertsFit(prev, ups, 0, s.Keys, idx.Keys, accepts)
  {
    assert ups[..0] == [];
    UpsertedNoneYet(prev, s, ps, idx);
    CountsNoneYet(s, prev, idx);
  }

  lemma UpsertsNext(prev: seq<Session>, ups: seq<PoolDelta>, i: nat,
                    s0: map<SKey, nat>, ps0: map<string, LivePolicer>, idx0: map<string, nat>,
                    s1: map<SKey, nat>, ps1: map<string, LivePolicer>, idx1: map<string, nat>, added: int, updated: int,
                    c: SessionCounts,
                    s: map<SKey, nat>, ps: map<string, LivePolicer>, idx: map<string, nat>, a: int, u: int,
                    sc: SessionCounts)
    requires i < |ups| && UpsertsDone(prev, ups[..i], s0, ps0, idx0, s1, ps1, idx1, added, updated, c)
    requires PolicersUpserted(ps1, idx1, ups[i].policers, ps, idx) && Resolvable(ups[i].sessions, idx)
    requires PoolUpserted(s1, Keys(Keep(prev, ups[i].poolID, SessionPool)), ups[i].sessions, idx, s, sc)
    requires a == |idx| - |idx1| && a + u == |ups[i].policers| && |ps| <= |ps1| + |ups[i].policers|
    ensures UpsertsDone(prev, ups[..i + 1], s0, ps0, idx0, s, ps, idx, added + a, updated + u, Plus(c, sc))
  {
    hide PolicersUpserted, Resolvable, PoolUpserted, Keys, Keep, UpsertedSoFar, Flatten, UpsertsCounts;
    assert ups[..i + 1] == ups[..i] + [ups[i]];
    FlattenSize(ups[..i], ups[i]);
    UpsertedOneMore(prev, ups[..i], ups[i], s0, ps0, idx0, s1, ps1, idx1, s, ps, idx, sc);
  }

  lemma RoomForNext(ups: seq<PoolDelta>, i: nat)
    requires i < |ups|
    ensures |Flatten(ups[..i], UpPolicers)| + |ups[i].policers| <= |Flatten(ups, UpPolicers)|
  {
    assert ups[..i + 1] == ups[..i] + [ups[i]];
    FlattenSize(ups[..i], ups[i]);
    FlattenPrefix(ups, i + 1);
  }

  /** The upserted pools in order. A willing VPP takes them exactly when each of them fits. */
  method UpsertPools(r: Reconciler, d: Delta, byPool: map<PoolID, seq<Session>>, ghost prev: seq<Session>)
    returns (added: int, updated: int, c: SessionCounts, ok: bool)
    requires r.Valid() && Applicable(d, r.parse) && forall p: PoolID :: GroupOf(byPool, p) == Keep(prev, p, SessionPool)
    modifies r`polIdx, r`actPol, r`actSess, r.vpp`policers, r.vpp`tables, r.vpp`next, r.vpp`sessions
    ensures r.Valid() && Standing(r) == old(Standing(r))
    ensures old(Live(r.vpp.sessions, r.polIdx)) ==> Live(r.vpp.sessions, r.polIdx)
    ensures ok ==> UpsertsDone(prev, d.upserts, old(r.vpp.sessions), old(r.vpp.policers), old(r.polIdx),
                               r.vpp.sessions, r.vpp.policers, r.polIdx, added, updated, c)
    ensures old(Willing(r, |Flatten(d.upserts, UpPolicers)|)) && DistinctKeys(prev) &&
            Housed(prev, old(r.vpp.tables.Keys)) ==>
              (ok <==> UpsertsFit(prev, d.upserts, |d.upserts|, old(r.vpp.sessions.Keys), old(r.polIdx.Keys),
                                  r.vpp.accepts))
  {
    hide GoodTables, GoodLinks, GoodSessions, GoodPolicers, Tracks, Managed, Live, PolicersUpserted, Keys, Goal,
         Resolvable, DistinctKeys, UpsertedSoFar, Keep, GroupOf, Standing, PoolUpserted, PoolFits, UpsertFits,
         UpsertsFit, Housed, Flatten, UpsertsCounts, ByName;
    ghost var ups, s0, ps0, idx0, st0 := d.upserts, r.vpp.sessions, r.vpp.policers, r.polIdx, Standing(r);
    ghost var tables0 := r.vpp.tables.Keys;
    ghost var willing := Willing(r, |Flatten(ups, UpPolicers)|) && DistinctKeys(prev) && Housed(prev, tables0);
    added, updated, c := 0, 0, SessionCounts(0, 0, 0);
    UpsertsStart(prev, ups, s0, ps0, idx0, r.vpp.accepts);
    for i := 0 to |d.upserts|
      invariant r.Valid() && Standing(r) == st0 && tables0 <= r.vpp.tables.Keys
      invariant Live(s0, idx0) ==> Live(r.vpp.sessions, r.polIdx)
      invariant UpsertsDone(prev, ups[..i], s0, ps0, idx0, r.vpp.sessions, r.vpp.policers, r.polIdx, added, updated, c)
      invariant willing ==> UpsertsFit(prev, ups, i, s0.Keys, idx0.Keys, r.vpp.accepts)
    {
      var u := d.upserts[i];
      assert u in d.upserts;
      ghost var s1, ps1, idx1 := r.vpp.sessions, r.vpp.policers, r.polIdx;
      RoomForNext(ups, i);
      if willing {
        KeepDistinct(prev, u.poolID);
        HousedKeep(prev, u.poolID, tables0, r.vpp.tables.Keys);
      }
      UpsertsFitNext(prev, ups, i, s0.Keys, idx0.Keys, r.vpp.accepts);
      UpsertFitsNow(prev, ups, i, r.vpp.accepts, s0, ps0, idx0, s1, ps1, idx1);
      var a, up, sc, done := UpsertPool(r, u, GroupOf(byPool, u.poolID));
      if !done { return added, updated, c, false; }
      UpsertsNext(prev, ups, i, s0, ps0, idx0, s1, ps1, idx1, added, updated, c,
                  r.vpp.sessions, r.vpp.policers, r.polIdx, a, up, sc);
      added, updated, c := added + a, updated + up, Plus(c, sc);
    }
    assert ups[..|ups|] == ups;
    ok := true;
  }

  lemma CountsNoneYet(s: map<SKey, nat>, prev: seq<Session>, idx: map<string, nat>)
    ensures UpsertsCounts(s, prev, [], idx) == SessionCounts(0, 0, 0) && |Flatten([], UpPolicers)| == 0
  {
  }

  // ----- the delta ----------------------------------------------------------------------------------------

  /** Advances the applied chain and republishes what was learned. */
  method AdoptDeltaBaseline(r: Reconciler, gen: nat)
    modifies r`polSnap, r`lastGen, r`poolIds
    ensures r.polSnap == r.polIdx && r.lastGen == gen && (set p | p in r.poolIds) == PoolSet(r.polIdx, r.parse)
  {
    r.polSnap := r.polIdx;
    r.lastGen := gen;
    r.RecomputePoolHash();
  }

  /** What `ApplyDelta` reports. */
  datatype DeltaResult = DeltaResult(policersAdded: int, policersUpdated: int, policersDeleted: int,
                                     sessions: SessionCounts)

  const NOTHING: DeltaResult := DeltaResult(0, 0, 0, SessionCounts(0, 0, 0))

  /** The report of a delta applied in full: names no longer and newly known, specs written, and sessions
      added, deleted and moved by the removals and each upsert in turn. */
  ghost predicate ReportsDelta(prev: seq<Session>, d: Delta, parse: Parse, idx0: map<string, nat>, s0: map<SKey, nat>,
                               idx: map<string, nat>, res: DeltaResult)
  {
    && res.policersDeleted == |RemovedNames(idx0, d, parse)|
    && res.policersAdded == |idx| - (|idx0| - res.policersDeleted)
    && res.policersAdded + res.policersUpdated == |Flatten(d.upserts, UpPolicers)|
    && res.sessions == DeltaCounts(s0, prev, d, idx)
  }

  /** Everything the delta asks of VPP, in order, can be done. */
  ghost predicate Fits(prev: seq<Session>, d: Delta, parse: Parse, idx0: map<string, nat>, s0: map<SKey, nat>,
                       tables: set<MaskKind>, accepts: PolicerSpec -> bool)
  {
    && RemovalsFit(prev, d.removed, |d.removed|, s0, tables)
    && UpsertsFit(prev, d.upserts, |d.upserts|, (s0 - KeysOf(prev, Removed(d))).Keys,
                  (idx0 - RemovedNames(idx0, d, parse)).Keys, accepts)
  }

  lemma RemovedLeaves(prev: seq<Session>, d: Delta, parse: Parse,
                        s0: map<SKey, nat>, ps0: map<string, LivePolicer>, idx0: map<string, nat>,
                        s1: map<SKey, nat>, ps1: map<string, LivePolicer>, idx1: map<string, nat>)
    requires RemovedSoFar(prev, parse, PoolSetOf(d.removed), s0, ps0, idx0, s1, ps1, idx1)
    ensures s1 == s0 - KeysOf(prev, Removed(d)) && idx1 == idx0 - RemovedNames(idx0, d, parse)
    ensures |idx1| == |idx0| - |RemovedNames(idx0, d, parse)| && |ps1| <= |ps0|
  {
    RemovedAre(d, idx0, parse);
    hide KeysOf, NamesIn, RemovedNames, PoolSetOf, Removed;
    WithoutSize(idx1, idx0, RemovedNames(idx0, d, parse));
    Shrinks(ps1, ps0, NamesIn(idx0, Removed(d), parse));
  }

  lemma AppliedFromParts(prev: seq<Session>, d: Delta, parse: Parse,
                         s0: map<SKey, nat>, ps0: map<string, LivePolicer>, idx0: map<string, nat>,
                         s1: map<SKey, nat>, ps1: map<string, LivePolicer>, idx1: map<string, nat>,
                         s: map<SKey, nat>, ps: map<string, LivePolicer>, idx: map<string, nat>)
    requires RemovedSoFar(prev, parse, PoolSetOf(d.removed), s0, ps0, idx0, s1, ps1, idx1)
    requires UpsertedSoFar(prev, d.upserts, s1, ps1, idx1, s, ps, idx)
    ensures Applied(prev, d, parse, ps0, idx0, s0, ps, idx, s)
  {
    RemovedAre(d, idx0, parse);
    hide AfterUpserts, PolicersUpserted, KeysOf, Flatten, NamesIn, RemovedNames, PoolSetOf, Removed;
  }

  lemma ReportFromParts(prev: seq<Session>, d: Delta, parse: Parse,
                        s0: map<SKey, nat>, ps0: map<string, LivePolicer>, idx0: map<string, nat>,
                        s1: map<SKey, nat>, ps1: map<string, LivePolicer>, idx1: map<string, nat>,
                        s: map<SKey, nat>, ps: map<string, LivePolicer>, idx: map<string, nat>,
                        res: DeltaResult, sc: SessionCounts)
    requires RemovedSoFar(prev, parse, PoolSetOf(d.removed), s0, ps0, idx0, s1, ps1, idx1)
    requires UpsertsDone(prev, d.upserts, s1, ps1, idx1, s, ps, idx, res.policersAdded, res.policersUpdated, sc)
    requires res.policersDeleted == |idx0| - |idx1| && res.sessions == Plus(SessionCounts(0, |s0| - |s1|, 0), sc)
    ensures Applied(prev, d, parse, ps0, idx0, s0, ps, idx, s)
    ensures ReportsDelta(prev, d, parse, idx0, s0, idx, res)
  {
    hide RemovedSoFar, UpsertedSoFar, Applied, KeysOf, RemovedNames, PoolSetOf, Removed, Flatten, UpsertsCounts;
    RemovedLeaves(prev, d, parse, s0, ps0, idx0, s1, ps1, idx1);
    AppliedFromParts(prev, d, parse, s0, ps0, idx0, s1, ps1, idx1, s, ps, idx);
  }

  lemma RemovedAre(d: Delta, idx0: map<string, nat>, parse: Parse)
    ensures PoolSetOf(d.removed) == Removed(d)
    ensures NamesIn(idx0, Removed(d), parse) == RemovedNames(idx0, d, parse) <= idx0.Keys
  {
  }

  lemma Shrinks(ps: map<string, LivePolicer>, ps0: map<string, LivePolicer>, gone: set<string>)
    requires Without(ps, ps0, gone)
    ensures |ps| <= |ps0|
  {
    assert ps0.Keys == ps.Keys + (ps0.Keys - ps.Keys) && |ps0.Keys| == |ps0| && |ps.Keys| == |ps|;
  }

  /** The removed pools, then the upserted ones. */
  method ApplyPools(r: Reconciler, d: Delta, prev: seq<Session>) returns (res: DeltaResult, ok: bool)
    requires r.Valid() && Applicable(d, r.parse)
    modifies r`polIdx, r`actPol, r`actSess, r.vpp`policers, r.vpp`tables, r.vpp`next, r.vpp`sessions
    ensures r.Valid() && Standing(r) == old(Standing(r))
    ensures old(Linked(r.vpp.sessions, r.polIdx, prev, r.parse)) ==> Live(r.vpp.sessions, r.polIdx)
    ensures ok ==> Applied(prev, d, r.parse, old(r.vpp.policers), old(r.polIdx), old(r.vpp.sessions),
                           r.vpp.policers, r.polIdx, r.vpp.sessions)
    ensures ok ==> ReportsDelta(prev, d, r.parse, old(r.polIdx), old(r.vpp.sessions), r.polIdx, res)
    ensures old(Willing(r, |Flatten(d.upserts, UpPolicers)|)) && DistinctKeys(prev) &&
            Housed(prev, old(r.vpp.tables.Keys)) ==>
              (ok <==> Fits(prev, d, r.parse, old(r.polIdx), old(r.vpp.sessions), old(r.vpp.tables.Keys),
                            r.vpp.accepts))
  {
    hide GoodTables, GoodLinks, GoodSessions, GoodPolicers, Tracks, Managed, Linked, Live, RemovedSoFar, UpsertedSoFar,
         Applied, Applicable, Keep, GroupOf, Standing, Housed, DistinctKeys, RemovalsFit, UpsertsFit, Flatten, KeysOf,
         RemovedNames, UpsertsCounts, Removed, UpsertsDone, ReportsDelta;
    res := NOTHING;
    ghost var s0, ps0, idx0 := r.vpp.sessions, r.vpp.policers, r.polIdx;
    LinkedSoLive(s0, idx0, prev, r.parse);
    var byPool := GroupByPool(prev);
    var ds, dp, removed := RemovePools(r, d.removed, byPool, prev);
    ghost var s1, ps1, idx1 := r.vpp.sessions, r.vpp.policers, r.polIdx;
    LinkedSoLive(s1, idx1, prev, r.parse);
    res := res.(policersDeleted := dp, sessions := SessionCounts(0, ds, 0));
    if !removed { return res, false; }
    RemovedLeaves(prev, d, r.parse, s0, ps0, idx0, s1, ps1, idx1);
    var pa, pu, sc, upserted := UpsertPools(r, d, byPool, prev);
    res := res.(policersAdded := pa, policersUpdated := pu, sessions := Plus(res.sessions, sc));
    if !upserted { return res, false; }
    ReportFromParts(prev, d, r.parse, s0, ps0, idx0, s1, ps1, idx1, r.vpp.sessions, r.vpp.policers, r.polIdx, res, sc);
    ok := true;
  }

  lemma LinkedSoLive(s: map<SKey, nat>, idx: map<string, nat>, prev: seq<Session>, parse: Parse)
    ensures Linked(s, idx, prev, parse) ==> Live(s, idx)
  {
    hide Linked, Live;
    if Linked(s, idx, prev, parse) { LinkedIsLive(s, idx, prev, parse); }
  }

  /** The counts are VPP's own exactly when they are anchored and do not drift. */
  lemma AnchoredIff(r: Reconciler)
    ensures r.Anchored() <==> r.actAnchored && Standing(r).policerDrift == 0 && Standing(r).sessionDrift == 0
  {
  }

  /** Applies one delta to VPP, touching only its pools. However far it gets, indexes stay sound, the
      programmed counts stay exact, and from a linked state no installed session is left without a policer.
      A willing VPP takes it in full exactly when it fits. */
  method ApplyDelta(r: Reconciler, d: Delta, prev: seq<Session>) returns (res: DeltaResult, ok: bool)
    requires r.Valid() && Applicable(d, r.parse)
    modifies r`polIdx, r`polSnap, r`actPol, r`actSess, r`lastGen, r`poolIds,
             r.vpp`policers, r.vpp`tables, r.vpp`next, r.vpp`sessions
    ensures r.Valid() && Standing(r) == old(Standing(r)) && (old(r.Anchored()) ==> r.Anchored())
    ensures old(Linked(r.vpp.sessions, r.polIdx, prev, r.parse)) ==> Live(r.vpp.sessions, r.polIdx)
    ensures ok ==> Applied(prev, d, r.parse, old(r.vpp.policers), old(r.polIdx), old(r.vpp.sessions),
                           r.vpp.policers, r.polIdx, r.vpp.sessions)
    ensures ok ==> RunsOn(ByName(Flatten(d.upserts, UpPolicers)), r.vpp.policers)
    ensures ok ==> ReportsDelta(prev, d, r.parse, old(r.polIdx), old(r.vpp.sessions), r.polIdx, res)
    ensures ok ==> r.lastGen == d.generation && r.polSnap == r.polIdx
    ensures !ok ==> r.lastGen == old(r.lastGen) && r.polSnap == old(r.polSnap)
    ensures old(Willing(r, |Flatten(d.upserts, UpPolicers)|)) && DistinctKeys(prev) &&
            Housed(prev, old(r.vpp.tables.Keys)) ==>
              (ok <==> Fits(prev, d, r.parse, old(r.polIdx), old(r.vpp.sessions), old(r.vpp.tables.Keys),
                            r.vpp.accepts))
  {
    hide GoodTables, GoodLinks, GoodSessions, GoodPolicers, Tracks, Managed, Linked, Live, Applied, Applicable, PoolSet,
         Standing, Housed, DistinctKeys, Flatten, Fits, ReportsDelta, RunsOn,
         ByName;
    res := NOTHING;
    AnchoredIff(r);
    LinkedSoLive(r.vpp.sessions, r.polIdx, prev, r.parse);
    var noChannel: bool := *;
    if noChannel && !r.vpp.obliging { return res, false; }
    ghost var s0, ps0, idx0 := r.vpp.sessions, r.vpp.policers, r.polIdx;
    res, ok := ApplyPools(r, d, prev);
    AnchoredIff(r);
    if ok {
      AppliedRunsOn(prev, d, r.parse, ps0, idx0, s0, r.vpp.policers, r.polIdx, r.vpp.sessions);
      AdoptDeltaBaseline(r, d.generation);
    }
  }
}
