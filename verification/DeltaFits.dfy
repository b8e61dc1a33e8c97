/** When a delta can be applied at all: what the fast path asks of a VPP in sync that refuses only what it
    cannot do (internal/agent/delta.go). */
module DeltaFits {
  import opened Model
  import opened Desired
  import opened VppApi
  import opened Plan
  import opened DeltaPlan
  import opened DeltaPath
  import C = Classify

  /** A pool with recorded members is removed at most once. */
  predicate RemovedOnce(held: seq<Session>, ids: seq<PoolID>) {
    forall i, x | 0 <= i < |ids| && x in held && x.poolID == ids[i] :: ids[i] !in ids[..i]
  }

  predicate ListedBefore(k: SKey, ups: seq<PoolDelta>, j: nat)
    requires j <= |ups|
  {
    exists i :: 0 <= i < j && k in Keys(ups[i].sessions)
  }

  /** Where a removed pool is upserted as well, every recorded member it no longer lists was listed by an
      earlier upsert, so that there is a session for the upsert to delete. */
  predicate DroppedTwiceOnlyIfTaken(held: seq<Session>, d: Delta) {
    forall j, x | 0 <= j < |d.upserts| && x in held && x.poolID == d.upserts[j].poolID && x.poolID in d.removed ::
      SK(x) in Keys(d.upserts[j].sessions) || ListedBefore(SK(x), d.upserts, j)
  }

  /** VPP can take every policer, and every session has a key. */
  predicate Presentable(ups: seq<PoolDelta>, accepts: PolicerSpec -> bool) {
    forall j | 0 <= j < |ups| :: OnePresentable(ups[j], accepts)
  }

  predicate OnePresentable(u: PoolDelta, accepts: PolicerSpec -> bool) {
    Acceptable(u.policers, accepts) && forall s | s in u.sessions :: Keyed(s)
  }

  /** The delta asks for nothing impossible. */
  predicate Doable(held: seq<Session>, d: Delta, accepts: PolicerSpec -> bool) {
    RemovedOnce(held, d.removed) && DroppedTwiceOnlyIfTaken(held, d) && Presentable(d.upserts, accepts)
  }

  // ----- removals -----------------------------------------------------------------------------------------

  lemma HeldKeyOf(held: seq<Session>, pools: set<PoolID>, x: Session)
    requires DistinctKeys(held) && x in held
    ensures SK(x) in KeysOf(held, pools) <==> x.poolID in pools
  {
    hide SK, DistinctKeys;
    if SK(x) in KeysOf(held, pools) {
      var y :| y in held && y.poolID in pools && SK(y) == SK(x);
      if y != x { DistinctAt(held, x, y); }
    }
  }

  lemma RemovalFitsIff(held: seq<Session>, ids: seq<PoolID>, i: nat, s: map<SKey, nat>, tables: set<MaskKind>)
    requires i < |ids| && DistinctKeys(held) && Housed(held, tables) && s.Keys == Keys(held)
    ensures RemovalFits(held, ids, i, s, tables) <==> forall x | x in held && x.poolID == ids[i] :: ids[i] !in ids[..i]
  {
    hide SK, Keyed, DistinctKeys, KeysOf;
    var members, gone := Keep(held, ids[i], SessionPool), PoolSetOf(ids[..i]);
    HousedKeep(held, ids[i], tables, tables);
    HousedDroppable(members, {}, s - KeysOf(held, gone), tables);
    forall x | x in held && x.poolID == ids[i] ensures x in members { assert SessionPool(x) == ids[i]; }
    forall x | x in members ensures x in held && x.poolID == ids[i] { assert SessionPool(x) == ids[i]; }
    hide Keep, Housed, AllDroppable;
    forall x | x in members ensures SK(x) in s - KeysOf(held, gone) <==> ids[i] !in ids[..i] {
      HeldKeyOf(held, gone, x);
    }
  }

  lemma RemovalsFitIff(held: seq<Session>, ids: seq<PoolID>, s: map<SKey, nat>, tables: set<MaskKind>)
    requires DistinctKeys(held) && Housed(held, tables) && s.Keys == Keys(held)
    ensures RemovalsFit(held, ids, |ids|, s, tables) <==> RemovedOnce(held, ids)
  {
    hide SK, DistinctKeys, Housed, RemovalFits, Keys;
    forall i: nat | i < |ids|
      ensures RemovalFits(held, ids, i, s, tables) <==>
                forall x | x in held && x.poolID == ids[i] :: ids[i] !in ids[..i]
    {
      RemovalFitsIff(held, ids, i, s, tables);
    }
  }

  // ----- upserts ------------------------------------------------------------------------------------------

  /** A recorded key survives the upserts of other pools, and is there as well once one of them lists it. */
  lemma {:induction false} KeyAfterOthers(keys: set<SKey>, held: seq<Session>, ups: seq<PoolDelta>, j: nat, x: Session)
    requires j <= |ups| && DistinctKeys(held) && x in held && forall i | 0 <= i < j :: ups[i].poolID != x.poolID
    ensures SK(x) in KeysAfter(keys, held, ups[..j]) <==> SK(x) in keys || ListedBefore(SK(x), ups, j)
  {
    hide SK, DistinctKeys, KeysOf, Keys;
    if j == 0 {
      assert ups[..0] == [];
    } else {
      assert ups[..j][..j - 1] == ups[..j - 1] && ups[..j][j - 1] == ups[j - 1];
      KeyAfterOthers(keys, held, ups, j - 1, x);
      HeldKeyOf(held, {ups[j - 1].poolID}, x);
    }
  }

  /** The policer a session of an upsert names is one of that upsert's own. */
  lemma OwnPolicer(st: State, d: Delta, parse: Parse, j: nat, s: Session)
    requires OwnIds(d) && WellFormed(MergeState(st, d), parse) && j < |d.upserts| && s in d.upserts[j].sessions
    ensures s.policerName in ByName(d.upserts[j].policers)
  {
    FlattenMembers(d.upserts, UpSessions);
    FlattenMembers(d.upserts, UpPolicers);
    var m, u := MergeState(st, d), d.upserts[j];
    assert u in d.upserts && s in UpSessions(u) && s in m.sessions;
    hide DistinctKeys, ByName, Flatten, FilterOut;
    var p := ByName(m.policers)[s.policerName];
    assert p in m.policers && p.name == s.policerName && p.poolID == u.poolID;
    assert PolicerPool(p) in Touched(d);
    var v :| v in d.upserts && p in UpPolicers(v);
    var i :| 0 <= i < |d.upserts| && d.upserts[i] == v;
    assert i == j;
    NameListed(u.policers, p);
  }

  lemma {:induction false} NameListed(specs: seq<PolicerSpec>, p: PolicerSpec)
    requires p in specs
    ensures p.name in ByName(specs)
  {
    if specs[|specs| - 1] != p { NameListed(specs[..|specs| - 1], p); }
  }

  lemma UpsertResolves(st: State, d: Delta, parse: Parse, j: nat, names: set<string>)
    requires OwnIds(d) && WellFormed(MergeState(st, d), parse) && j < |d.upserts|
    ensures var u := d.upserts[j];
            ResolvableBy(u.sessions, names + ByName(u.policers).Keys) <==> forall s | s in u.sessions :: Keyed(s)
  {
    hide OwnIds, WellFormed, MergeState, ByName, Keyed;
    forall s | s in d.upserts[j].sessions ensures s.policerName in ByName(d.upserts[j].policers) {
      OwnPolicer(st, d, parse, j, s);
    }
  }

  /** What upsert `j` no longer lists is installed, or was removed and listed by an earlier upsert. */
  lemma UnlistedIff(held: seq<Session>, d: Delta, j: nat, s: map<SKey, nat>)
    requires j < |d.upserts| && OwnIds(d) && DistinctKeys(held) && s.Keys == Keys(held)
    ensures var u := d.upserts[j];
            UnlistedInstalled(Keep(held, u.poolID, SessionPool), Keys(u.sessions),
                              KeysAfter((s - KeysOf(held, Removed(d))).Keys, held, d.upserts[..j])) <==>
            forall x | x in held && x.poolID == u.poolID && x.poolID in d.removed ::
              SK(x) in Keys(u.sessions) || ListedBefore(SK(x), d.upserts, j)
  {
    var u := d.upserts[j];
    var members := Keep(held, u.poolID, SessionPool);
    var keys := (s - KeysOf(held, Removed(d))).Keys;
    forall x | x in held && x.poolID == u.poolID ensures x in members { assert SessionPool(x) == u.poolID; }
    forall x | x in members ensures x in held && x.poolID == u.poolID { assert SessionPool(x) == u.poolID; }
    forall x | x in members ensures SK(x) in s { assert x in held; }
    hide SK, DistinctKeys, Keep, KeysOf, Keys, KeysAfter, ListedBefore;
    forall x | x in members
      ensures SK(x) in KeysAfter(keys, held, d.upserts[..j]) <==>
                x.poolID !in d.removed || ListedBefore(SK(x), d.upserts, j)
    {
      HeldKeyOf(held, Removed(d), x);
      KeyAfterOthers(keys, held, d.upserts, j, x);
    }
  }

  /** Which part of a delta's demands concerns upsert `j`. */
  predicate UpsertAsks(held: seq<Session>, d: Delta, j: nat, accepts: PolicerSpec -> bool)
    requires j < |d.upserts|
  {
    OnePresentable(d.upserts[j], accepts) &&
    forall x | x in held && x.poolID == d.upserts[j].poolID && x.poolID in d.removed ::
      SK(x) in Keys(d.upserts[j].sessions) || ListedBefore(SK(x), d.upserts, j)
  }

  lemma UpsertFitsIff(st: State, d: Delta, parse: Parse, j: nat, s: map<SKey, nat>, names: set<string>,
                      accepts: PolicerSpec -> bool)
    requires OwnIds(d) && WellFormed(MergeState(st, d), parse) && j < |d.upserts|
    requires DistinctKeys(st.sessions) && s.Keys == Keys(st.sessions)
    ensures UpsertFits(st.sessions, d.upserts, j, (s - KeysOf(st.sessions, Removed(d))).Keys, names, accepts) <==>
            UpsertAsks(st.sessions, d, j, accepts)
  {
    hide OwnIds, WellFormed, MergeState, DistinctKeys, KeysOf, Keys, SK, Keyed, Keep, KeysAfter, ByName, Flatten,
         ResolvableBy, UnlistedInstalled, ListedBefore, Acceptable;
    UpsertResolves(st, d, parse, j, names + ByName(Flatten(d.upserts[..j], UpPolicers)).Keys);
    UnlistedIff(st.sessions, d, j, s);
  }

  lemma UpsertsFitIff(st: State, d: Delta, parse: Parse, s: map<SKey, nat>, names: set<string>,
                      accepts: PolicerSpec -> bool)
    requires OwnIds(d) && WellFormed(MergeState(st, d), parse)
    requires DistinctKeys(st.sessions) && s.Keys == Keys(st.sessions)
    ensures UpsertsFit(st.sessions, d.upserts, |d.upserts|, (s - KeysOf(st.sessions, Removed(d))).Keys, names,
                       accepts) <==>
            DroppedTwiceOnlyIfTaken(st.sessions, d) && Presentable(d.upserts, accepts)
  {
    hide OwnIds, WellFormed, MergeState, DistinctKeys, KeysOf, Keys, SK, UpsertFits, ListedBefore, OnePresentable;
    var keys := (s - KeysOf(st.sessions, Removed(d))).Keys;
    forall j: nat | j < |d.upserts|
      ensures UpsertFits(st.sessions, d.upserts, j, keys, names, accepts) <==> UpsertAsks(st.sessions, d, j, accepts)
    {
      UpsertFitsIff(st, d, parse, j, s, names, accepts);
    }
    AsksOfAll(st.sessions, d, accepts);
  }

  lemma AsksOfAll(held: seq<Session>, d: Delta, accepts: PolicerSpec -> bool)
    ensures (forall j: nat | j < |d.upserts| :: UpsertAsks(held, d, j, accepts)) <==>
            DroppedTwiceOnlyIfTaken(held, d) && Presentable(d.upserts, accepts)
  {
    hide SK, Keys, ListedBefore, OnePresentable;
    var ups := d.upserts;
    if forall j: nat | j < |ups| :: UpsertAsks(held, d, j, accepts) {
      forall j | 0 <= j < |ups| ensures OnePresentable(ups[j], accepts) { assert UpsertAsks(held, d, j, accepts); }
      forall j, x | 0 <= j < |ups| && x in held && x.poolID == ups[j].poolID && x.poolID in d.removed
        ensures SK(x) in Keys(ups[j].sessions) || ListedBefore(SK(x), ups, j)
      {
        assert UpsertAsks(held, d, j, accepts);
      }
    }
  }

  // ----- the delta ----------------------------------------------------------------------------------------

  /** In a VPP in sync every recorded session has a key, on a table VPP has. */
  lemma SyncedIsHoused(st: State, ps: map<string, LivePolicer>, s: map<SKey, nat>, idx: map<string, nat>,
                       tables: map<MaskKind, nat>, parse: Parse)
    requires Synced(st, ps, s, idx, parse) && GoodSessions(s, tables)
    ensures Housed(st.sessions, tables.Keys) && s.Keys == Keys(st.sessions)
  {
    hide Goal, Tracks, PolicersSynced, C.SpecOf, C.SessionKey;
    forall x | x in st.sessions ensures Keyed(x) && x.mask in tables {
      assert SK(x) in s;
      assert TableKey(x.mask, KeyOr(x));
    }
  }

  /** No managed policer is unknown in a VPP in sync. */
  lemma SyncedKnows(st: State, ps: map<string, LivePolicer>, s: map<SKey, nat>, idx: map<string, nat>, parse: Parse)
    requires Synced(st, ps, s, idx, parse)
    ensures Managed(ps, parse) - idx.Keys == {}
  {
    hide Goal, Tracks, ByName, AsSent, Managed;
  }

  /** From a VPP in sync, everything a delta asks for can be done exactly when no pool with members is removed
      twice, no pool both removed and upserted drops a member unless an earlier upsert took it over, and the
      upserts list only policers VPP takes and sessions with a key. */
  lemma FitsIff(st: State, d: Delta, parse: Parse, ps: map<string, LivePolicer>, s: map<SKey, nat>,
                idx: map<string, nat>,
                tables: map<MaskKind, nat>, accepts: PolicerSpec -> bool)
    requires WellFormed(st, parse) && OwnIds(d) && WellFormed(MergeState(st, d), parse)
    requires Synced(st, ps, s, idx, parse) && GoodSessions(s, tables)
    ensures Fits(st.sessions, d, parse, idx, s, tables.Keys, accepts) <==> Doable(st.sessions, d, accepts)
  {
    assert DistinctKeys(st.sessions);
    hide OwnIds, WellFormed, MergeState, DistinctKeys, KeysOf, Keys, Synced, GoodSessions, RemovalsFit, UpsertsFit,
         RemovedOnce, DroppedTwiceOnlyIfTaken, Presentable, Housed, RemovedNames, Removed;
    SyncedIsHoused(st, ps, s, idx, tables, parse);
    RemovalsFitIff(st.sessions, d.removed, s, tables.Keys);
    UpsertsFitIff(st, d, parse, s, (idx - RemovedNames(idx, d, parse)).Keys, accepts);
  }
}
