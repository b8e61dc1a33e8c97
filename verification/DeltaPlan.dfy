/** The pure effect of applying a delta, and when it equals what a full pass would aim for
    (internal/agent/delta.go against internal/agent/reconcile.go). */
module DeltaPlan {
  import opened Model
  import opened Desired
  import opened VppApi
  import opened Plan

  // ----- effects --------------------------------------------------------------------------------

  /** Keys of the recorded sessions of some pools. */
  function KeysOf(ss: seq<Session>, pools: set<PoolID>): (r: set<SKey>) {
    set s | s in ss && s.poolID in pools :: SK(s)
  }

  function Removed(d: Delta): (r: set<PoolID>) { set id | id in d.removed }

  /** One upsert: the pool's recorded members it no longer lists go, the listed ones are (re)pointed. */
  function UpsertEffect(s: map<SKey, nat>, prev: seq<Session>, u: PoolDelta,
                        idx: map<string, nat>): (r: map<SKey, nat>) {
    (s - (KeysOf(prev, {u.poolID}) - Keys(u.sessions))) + Goal(u.sessions, idx)
  }

  function AfterUpserts(s: map<SKey, nat>, prev: seq<Session>, ups: seq<PoolDelta>,
                        idx: map<string, nat>): (r: map<SKey, nat>) {
    if ups == [] then s
    else UpsertEffect(AfterUpserts(s, prev, ups[..|ups| - 1], idx), prev, ups[|ups| - 1], idx)
  }

  function Plus(a: SessionCounts, b: SessionCounts): (r: SessionCounts) {
    SessionCounts(a.added + b.added, a.deleted + b.deleted, a.moved + b.moved)
  }

  /** What one upsert adds, deletes and moves. */
  function OneCounts(s: map<SKey, nat>, prev: seq<Session>, u: PoolDelta, idx: map<string, nat>): (c: SessionCounts) {
    var s1 := s - (KeysOf(prev, {u.poolID}) - Keys(u.sessions));
    var g := Goal(u.sessions, idx);
    SessionCounts(|g.Keys - s1.Keys|, |s| - |s1|, |MovedKeys(s1, g)|)
  }

  /** What the upserts do one after the other. */
  function UpsertsCounts(s: map<SKey, nat>, prev: seq<Session>, ups: seq<PoolDelta>,
                         idx: map<string, nat>): (c: SessionCounts) {
    if ups == [] then SessionCounts(0, 0, 0)
    else
      var rest := ups[..|ups| - 1];
      Plus(UpsertsCounts(s, prev, rest, idx), OneCounts(AfterUpserts(s, prev, rest, idx), prev, ups[|ups| - 1], idx))
  }

  /** Removals first, then upserts. */
  function DeltaCounts(s: map<SKey, nat>, prev: seq<Session>, d: Delta, idx: map<string, nat>): (c: SessionCounts) {
    var s1 := s - KeysOf(prev, Removed(d));
    Plus(SessionCounts(0, |s| - |s1|, 0), UpsertsCounts(s1, prev, d.upserts, idx))
  }

  /** The installed keys after the upserts, which no index has a say in. */
  function KeysAfter(keys: set<SKey>, prev: seq<Session>, ups: seq<PoolDelta>): (r: set<SKey>) {
    if ups == [] then keys
    else
      var u := ups[|ups| - 1];
      (KeysAfter(keys, prev, ups[..|ups| - 1]) - (KeysOf(prev, {u.poolID}) - Keys(u.sessions))) + Keys(u.sessions)
  }

  lemma {:induction false} KeysAfterIs(s: map<SKey, nat>, prev: seq<Session>, ups: seq<PoolDelta>,
                                       idx: map<string, nat>)
    ensures AfterUpserts(s, prev, ups, idx).Keys == KeysAfter(s.Keys, prev, ups)
  {
    hide SK, Keys, KeysOf, Goal;
    if ups == [] {
    } else {
      KeysAfterIs(s, prev, ups[..|ups| - 1], idx);
    }
  }

  lemma Overlay(s: map<SKey, nat>, g: map<SKey, nat>)
    ensures |s + g| == |s| + |g.Keys - s.Keys|
  {
    assert (s + g).Keys == s.Keys + (g.Keys - s.Keys);
    assert |(s + g).Keys| == |s + g| && |s.Keys| == |s|;
  }

  /** The session counters account for every session: added less deleted is the growth of the table. */
  lemma {:induction false} UpsertsConserve(s: map<SKey, nat>, prev: seq<Session>, ups: seq<PoolDelta>,
                                           idx: map<string, nat>)
    ensures var c := UpsertsCounts(s, prev, ups, idx);
            c.added - c.deleted == |AfterUpserts(s, prev, ups, idx)| - |s|
  {
    hide SK, Keys, KeysOf, Goal, MovedKeys;
    if ups == [] {
    } else {
      var rest, u := ups[..|ups| - 1], ups[|ups| - 1];
      UpsertsConserve(s, prev, rest, idx);
      var s1 := AfterUpserts(s, prev, rest, idx);
      Overlay(s1 - (KeysOf(prev, {u.poolID}) - Keys(u.sessions)), Goal(u.sessions, idx));
    }
  }

  lemma DeltaConserves(s: map<SKey, nat>, prev: seq<Session>, d: Delta, idx: map<string, nat>)
    ensures var c := DeltaCounts(s, prev, d, idx);
            c.added - c.deleted ==
            |AfterUpserts(s - KeysOf(prev, Removed(d)), prev, d.upserts, idx)| - |s|
  {
    hide AfterUpserts, UpsertsCounts, KeysOf;
    UpsertsConserve(s - KeysOf(prev, Removed(d)), prev, d.upserts, idx);
  }

  /** The learned policers of the removed pools. */
  function RemovedNames(idx: map<string, nat>, d: Delta, parse: Parse): (r: set<string>) {
    set n | n in idx && parse(n).Some? && parse(n).value in Removed(d)
  }

  /** Policers after upserting `specs`: listed names configured as listed (the last entry counts) and
      learned, known ones on their old index, all others untouched. */
  ghost predicate PolicersUpserted(ps0: map<string, LivePolicer>, idx0: map<string, nat>, specs: seq<PolicerSpec>,
                                   ps: map<string, LivePolicer>, idx: map<string, nat>)
  {
    UpsertedTo(ps0, idx0, ByName(specs), ps, idx)
  }

  ghost predicate UpsertedTo(ps0: map<string, LivePolicer>, idx0: map<string, nat>, want: map<string, PolicerSpec>,
                             ps: map<string, LivePolicer>, idx: map<string, nat>)
  {
    && ps.Keys == ps0.Keys + want.Keys
    && idx.Keys == idx0.Keys + want.Keys
    && (forall n | n in want :: ps[n].conf == ConfOf(want[n]))
    && (forall n | n in ps0 && n !in want :: ps[n] == ps0[n])
    && (forall n | n in idx0 :: idx[n] == idx0[n])
  }

  /** What a successful `ApplyDelta` does to VPP and the index map. */
  ghost predicate Applied(prev: seq<Session>, d: Delta, parse: Parse,
                          ps0: map<string, LivePolicer>, idx0: map<string, nat>, s0: map<SKey, nat>,
                          ps: map<string, LivePolicer>, idx: map<string, nat>, s: map<SKey, nat>)
  {
    var gone := RemovedNames(idx0, d, parse);
    && PolicersUpserted(ps0 - gone, idx0 - gone, Flatten(d.upserts, UpPolicers), ps, idx)
    && s == AfterUpserts(s0 - KeysOf(prev, Removed(d)), prev, d.upserts, idx)
  }

  // ----- being in sync ----------------------------------------------------------------------------

  /** VPP's managed policers with their whole configurations, its sessions, and the learned indexes, are
      exactly those of `st`. */
  predicate Synced(st: State, ps: map<string, LivePolicer>, s: map<SKey, nat>, idx: map<string, nat>, parse: Parse) {
    && Tracks(idx, ps, parse)
    && PolicersSynced(ByName(st.policers), ps, idx, parse)
    && s == Goal(st.sessions, idx)
  }

  predicate PolicersSynced(want: map<string, PolicerSpec>, ps: map<string, LivePolicer>, idx: map<string, nat>,
                           parse: Parse) {
    && Managed(ps, parse) == want.Keys
    && idx.Keys == want.Keys
    && AsSent(want, ps)
  }

  /** Within one delta no upsert claims a recorded member of a pool upserted after it. */
  predicate NoEarlyClaim(held: seq<Session>, ups: seq<PoolDelta>) {
    forall i, j, x, y | 0 <= i < j < |ups| && x in ups[i].sessions && y in held && y.poolID == ups[j].poolID ::
      SK(x) != SK(y)
  }

  /** No upserted pool that is not also removed drops one of its policers. */
  predicate NoDroppedPolicer(st: State, d: Delta) {
    forall n | n in ByName(st.policers) && n !in ByName(Flatten(d.upserts, UpPolicers)) ::
      ByName(st.policers)[n].poolID in Touched(d) ==> ByName(st.policers)[n].poolID in Removed(d)
  }

  /** Policer names of a state or delta parse to the pool they are listed under. */
  predicate NamesParse(specs: seq<PolicerSpec>, parse: Parse) {
    forall p | p in specs :: parse(p.name) == Some(p.poolID)
  }

  lemma {:induction false} ByNameConcat(a: seq<PolicerSpec>, b: seq<PolicerSpec>)
    ensures ByName(a + b) == ByName(a) + ByName(b)
  {
    if b == [] {
      assert a + b == a;
    } else {
      var rest, last := b[..|b| - 1], b[|b| - 1];
      ByNameConcat(a, rest);
      assert (a + b)[..|a + b| - 1] == a + rest && (a + b)[|a + b| - 1] == last;
      PlusUpdate(ByName(a), ByName(rest), last.name, last);
    }
  }

  /** The entries of pools outside `drop`. */
  function KeptPools(m: map<string, PolicerSpec>, drop: set<PoolID>): (r: map<string, PolicerSpec>) {
    map n | n in m && m[n].poolID !in drop :: m[n]
  }

  lemma KeptUpdate(m: map<string, PolicerSpec>, p: PolicerSpec, drop: set<PoolID>)
    requires p.name in m ==> m[p.name].poolID == p.poolID
    ensures KeptPools(m[p.name := p], drop) ==
            if p.poolID in drop then KeptPools(m, drop)
            else KeptPools(m, drop)[p.name := p]
  {
  }

  /** Dropping whole pools from the list drops exactly their names. */
  lemma {:induction false} ByNameOfFilter(specs: seq<PolicerSpec>, drop: set<PoolID>, parse: Parse)
    requires NamesParse(specs, parse)
    ensures ByName(FilterOut(specs, drop, PolicerPool)) == KeptPools(ByName(specs), drop)
  {
    hide *;
    if specs == [] {
      NothingKept(drop);
    } else {
      var rest, last := specs[..|specs| - 1], specs[|specs| - 1];
      ParsedRest(specs, parse);
      ByNameOfFilter(rest, drop, parse);
      KeptUpdate(ByName(rest), last, drop);
      FilterLast(specs, drop);
      ByNameSnoc(FilterOut(rest, drop, PolicerPool), last);
      assert specs == rest + [last];
      ByNameSnoc(rest, last);
    }
  }

  lemma NothingKept(drop: set<PoolID>)
    ensures ByName(FilterOut([], drop, PolicerPool)) == KeptPools(ByName([]), drop)
  {
  }

  lemma ParsedRest(specs: seq<PolicerSpec>, parse: Parse)
    requires specs != [] && NamesParse(specs, parse)
    ensures var rest, last := specs[..|specs| - 1], specs[|specs| - 1];
            NamesParse(rest, parse) && (last.name in ByName(rest) ==> ByName(rest)[last.name].poolID == last.poolID)
  {
    hide ByName;
    var rest, last := specs[..|specs| - 1], specs[|specs| - 1];
    assert last in specs && forall p | p in rest :: p in specs;
    if last.name in ByName(rest) {
      var q := ByName(rest)[last.name];
      assert q in specs && q.name == last.name;
    }
  }

  lemma FilterLast(specs: seq<PolicerSpec>, drop: set<PoolID>)
    requires specs != []
    ensures var rest, last := specs[..|specs| - 1], specs[|specs| - 1];
            FilterOut(specs, drop, PolicerPool) ==
            if last.poolID in drop then FilterOut(rest, drop, PolicerPool)
            else FilterOut(rest, drop, PolicerPool) + [last]
  {
  }

  lemma ByNameSnoc(specs: seq<PolicerSpec>, p: PolicerSpec)
    ensures ByName(specs + [p]) == ByName(specs)[p.name := p]
  {
    assert (specs + [p])[..|specs|] == specs;
  }

  /** The desired policers of the merged state: untouched pools' as held, the upserts' as listed. */
  lemma ByNameOfMerge(st: State, d: Delta, parse: Parse)
    requires NamesParse(st.policers, parse)
    ensures ByName(MergeState(st, d).policers) ==
            KeptPools(ByName(st.policers), Touched(d)) + ByName(Flatten(d.upserts, UpPolicers))
  {
    ByNameConcat(FilterOut(st.policers, Touched(d), PolicerPool), Flatten(d.upserts, UpPolicers));
    ByNameOfFilter(st.policers, Touched(d), parse);
  }

  // ----- policers: fast path against target -----------------------------------------------------------

  /** The names learned after a delta are the merged state's names exactly when no pool drops a policer. */
  lemma NamesRefineIff(w0: map<string, PolicerSpec>, wu: map<string, PolicerSpec>, touched: set<PoolID>,
                       removed: set<PoolID>, gone: set<string>)
    requires removed <= touched
    requires gone == set n | n in w0 && w0[n].poolID in removed
    ensures (w0.Keys - gone) + wu.Keys == (KeptPools(w0, touched) + wu).Keys <==>
            forall n | n in w0 && n !in wu :: w0[n].poolID in touched ==> w0[n].poolID in removed
  {
    var a, b := (w0.Keys - gone) + wu.Keys, (KeptPools(w0, touched) + wu).Keys;
    assert forall n :: n in a <==> (n in w0 && w0[n].poolID !in removed) || n in wu;
    assert forall n :: n in b <==> (n in w0 && w0[n].poolID !in touched) || n in wu;
    hide KeptPools;
    if a == b {
      forall n | n in w0 && n !in wu && w0[n].poolID in touched ensures w0[n].poolID in removed {
        assert n !in b;
        assert n !in a;
      }
    }
  }

  lemma ManagedAfterDelta(ps0: map<string, LivePolicer>, gone: set<string>, wu: map<string, PolicerSpec>,
                          ps: map<string, LivePolicer>, parse: Parse)
    requires ps.Keys == (ps0 - gone).Keys + wu.Keys && forall n | n in wu :: parse(n).Some?
    ensures Managed(ps, parse) == (Managed(ps0, parse) - gone) + wu.Keys
  {
  }

  lemma StepsAfterDelta(w0: map<string, PolicerSpec>, wu: map<string, PolicerSpec>, touched: set<PoolID>,
                        removed: set<PoolID>, gone: set<string>,
                        ps0: map<string, LivePolicer>, ps: map<string, LivePolicer>)
    requires removed <= touched
    requires gone == set n | n in w0 && w0[n].poolID in removed
    requires AsSent(w0, ps0)
    requires ps.Keys == (ps0 - gone).Keys + wu.Keys
    requires forall n | n in wu :: ps[n].conf == ConfOf(wu[n])
    requires forall n | n in ps0 - gone && n !in wu :: ps[n] == (ps0 - gone)[n]
    ensures AsSent(KeptPools(w0, touched) + wu, ps)
  {
    hide ConfOf;
    var m := KeptPools(w0, touched) + wu;
    forall n | n in m ensures n in ps && ps[n].conf == ConfOf(m[n]) {
      if n !in wu {
        assert n in w0 && n !in gone;
        assert n in ps0 - gone;
      }
    }
  }

  /** The upserts' policers carry touched pool ids their names parse to. */
  predicate UpsertNamesParse(d: Delta, parse: Parse) {
    NamesParse(Flatten(d.upserts, UpPolicers), parse)
  }

  lemma GoneNames(st: State, d: Delta, parse: Parse, idx0: map<string, nat>)
    requires NamesParse(st.policers, parse) && idx0.Keys == ByName(st.policers).Keys
    ensures RemovedNames(idx0, d, parse) ==
            set n | n in ByName(st.policers) && ByName(st.policers)[n].poolID in Removed(d)
  {
    hide ByName;
    forall n | n in ByName(st.policers) ensures parse(n) == Some(ByName(st.policers)[n].poolID) {
      var p := ByName(st.policers)[n];
      assert p in st.policers && p.name == n;
    }
  }

  /** Policers after a delta are the merged state's exactly when no upserted pool dropped one. */
  lemma PolicersRefineIff(st: State, d: Delta, parse: Parse, ps0: map<string, LivePolicer>, idx0: map<string, nat>,
                          ps: map<string, LivePolicer>, idx: map<string, nat>)
    requires NamesParse(st.policers, parse) && UpsertNamesParse(d, parse)
    requires PolicersSynced(ByName(st.policers), ps0, idx0, parse)
    requires var gone := RemovedNames(idx0, d, parse);
             PolicersUpserted(ps0 - gone, idx0 - gone, Flatten(d.upserts, UpPolicers), ps, idx)
    ensures PolicersSynced(ByName(MergeState(st, d).policers), ps, idx, parse) <==> NoDroppedPolicer(st, d)
  {
    hide ByName, AsSent, Managed, KeptPools, RemovedNames, Flatten, MergeState, Touched, Removed;
    var w0, wu := ByName(st.policers), ByName(Flatten(d.upserts, UpPolicers));
    var gone := RemovedNames(idx0, d, parse);
    RemovedAreTouched(d);
    GoneNames(st, d, parse, idx0);
    ByNameOfMerge(st, d, parse);
    NamesRefineIff(w0, wu, Touched(d), Removed(d), gone);
    forall n | n in wu ensures parse(n).Some? { assert wu[n] in Flatten(d.upserts, UpPolicers) && wu[n].name == n; }
    ManagedAfterDelta(ps0, gone, wu, ps, parse);
    StepsAfterDelta(w0, wu, Touched(d), Removed(d), gone, ps0, ps);
    assert (idx0 - gone).Keys == w0.Keys - gone;
  }

  lemma RemovedAreTouched(d: Delta)
    ensures Removed(d) <= Touched(d)
  {
  }

  // ----- sessions: fast path against target ------------------------------------------------------------

  ghost function Members(ss: seq<Session>): (r: set<Session>) { set x | x in ss }

  /** `s` holds exactly the sessions of `ss`, each on the index of the policer it names. */
  ghost predicate Realizes(s: map<SKey, nat>, ss: set<Session>, idx: map<string, nat>) {
    && (forall k | k in s :: exists x :: x in ss && SK(x) == k)
    && (forall x | x in ss :: SK(x) in s && s[SK(x)] == IndexOf(idx, x))
  }

  lemma RealizesGoal(s: map<SKey, nat>, ss: seq<Session>, idx: map<string, nat>)
    requires DistinctKeys(ss) && Realizes(s, Members(ss), idx)
    ensures s == Goal(ss, idx)
  {
    hide DistinctKeys, SK, IndexOf;
    var g := Goal(ss, idx);
    forall x | x in ss ensures SK(x) in g && g[SK(x)] == IndexOf(idx, x) { GoalAt(ss, idx, x); }
    hide Goal;
    forall k | k in s ensures k in g && s[k] == g[k] {
      var x :| x in Members(ss) && SK(x) == k;
    }
    forall k | k in g ensures k in s {
      assert k in Keys(ss);
      var x :| x in ss && SK(x) == k;
      assert x in Members(ss);
    }
    assert s.Keys == g.Keys;
  }

  /** The sessions expected after the first upserts: theirs, and the others' as they were. */
  ghost function Stage(ss: set<Session>, ups: seq<PoolDelta>): (r: set<Session>) {
    if ups == [] then ss
    else
      var u := ups[|ups| - 1];
      (set x | x in Stage(ss, ups[..|ups| - 1]) && x.poolID != u.poolID) + Members(u.sessions)
  }

  lemma {:induction false} StageMembers(ss: set<Session>, ups: seq<PoolDelta>)
    requires forall u, x | u in ups && x in u.sessions :: x.poolID == u.poolID
    requires forall i, j | 0 <= i < j < |ups| :: ups[i].poolID != ups[j].poolID
    ensures forall x | x in Stage(ss, ups) ::
              (x in ss && forall u | u in ups :: u.poolID != x.poolID) || exists u :: u in ups && x in u.sessions
    ensures forall x | x in ss && (forall u | u in ups :: u.poolID != x.poolID) :: x in Stage(ss, ups)
    ensures forall u, x | u in ups && x in u.sessions :: x in Stage(ss, ups)
  {
    if ups == [] {
    } else {
      var rest, last := ups[..|ups| - 1], ups[|ups| - 1];
      assert ups == rest + [last];
      StageMembers(ss, rest);
      var s0 := Stage(ss, rest);
      forall x | x in Stage(ss, ups)
        ensures (x in ss && forall u | u in ups :: u.poolID != x.poolID) || exists u :: u in ups && x in u.sessions
      {
        if x in last.sessions {
          assert last in ups;
        } else if !(x in ss && forall u | u in rest :: u.poolID != x.poolID) {
          var u :| u in rest && x in u.sessions;
          assert u in ups;
        }
      }
      forall u, x | u in ups && x in u.sessions ensures x in Stage(ss, ups) {
        if u != last {
          assert u in rest && x in s0;
          var i :| 0 <= i < |rest| && ups[i] == u;
          assert x.poolID == u.poolID != last.poolID;
        }
      }
    }
  }

  /** One upsert, when its keys and its pool's old keys clash with nobody else's. */
  lemma UpsertRealizes(s: map<SKey, nat>, ss: set<Session>, prev: seq<Session>, u: PoolDelta, idx: map<string, nat>)
    requires Realizes(s, ss, idx) && DistinctKeys(u.sessions)
    requires forall x | x in ss && x.poolID == u.poolID :: x in prev
    requires forall x, y | x in ss && x.poolID != u.poolID && y in prev && y.poolID == u.poolID :: SK(x) != SK(y)
    requires forall x, z | x in ss && x.poolID != u.poolID && z in u.sessions :: SK(x) != SK(z)
    ensures Realizes(UpsertEffect(s, prev, u, idx), (set x | x in ss && x.poolID != u.poolID) + Members(u.sessions),
                     idx)
  {
    hide SK, IndexOf, DistinctKeys;
    var old', new' := KeysOf(prev, {u.poolID}), Keys(u.sessions);
    var g := Goal(u.sessions, idx);
    assert g.Keys == new';
    forall z | z in u.sessions ensures SK(z) in g && g[SK(z)] == IndexOf(idx, z) { GoalAt(u.sessions, idx, z); }
    var s' := UpsertEffect(s, prev, u, idx);
    var ss' := (set x | x in ss && x.poolID != u.poolID) + Members(u.sessions);
    assert s' == (s - (old' - new')) + g;
    forall x | x in ss && x.poolID == u.poolID ensures SK(x) in old' { assert x in prev; }
    hide Goal, UpsertEffect;
    forall k | k in s' ensures exists x :: x in ss' && SK(x) == k {
      if k in g {
        var z :| z in u.sessions && SK(z) == k;
        assert z in ss';
      } else {
        var x :| x in ss && SK(x) == k;
        assert x in ss';
      }
    }
    forall x | x in ss' ensures SK(x) in s' && s'[SK(x)] == IndexOf(idx, x) {
      if x !in u.sessions {
        assert x in ss && SK(x) !in old' && SK(x) !in new';
      }
    }
  }

  /** No two sessions that may be live together during the delta share a key. */
  predicate KeysApart(held: seq<Session>, d: Delta) {
    && NoEarlyClaim(held, d.upserts)
    && DistinctKeys(held)
    && (forall x, z | x in held && x.poolID !in Touched(d) && z in Flatten(d.upserts, UpSessions) :: SK(x) != SK(z))
    && DistinctKeys(Flatten(d.upserts, UpSessions))
  }

  lemma DistinctAt(ss: seq<Session>, x: Session, y: Session)
    requires DistinctKeys(ss) && x in ss && y in ss && x != y
    ensures SK(x) != SK(y)
  {
    hide SK;
    var i :| 0 <= i < |ss| && ss[i] == x;
    var j :| 0 <= j < |ss| && ss[j] == y;
    if i < j { assert SK(ss[i]) != SK(ss[j]); } else { assert SK(ss[j]) != SK(ss[i]); }
  }

  /** The first `j` upserts, one after the other. */
  lemma {:induction false} PrefixRealizes(s1: map<SKey, nat>, ss: set<Session>, held: seq<Session>, d: Delta,
                                          idx: map<string, nat>, j: nat)
    requires j <= |d.upserts| && OwnIds(d) && KeysApart(held, d)
    requires Realizes(s1, ss, idx) && forall x | x in ss :: x in held && x.poolID !in Removed(d)
    ensures Realizes(AfterUpserts(s1, held, d.upserts[..j], idx), Stage(ss, d.upserts[..j]), idx)
  {
    hide SK, Realizes, KeysApart, UpsertEffect, DistinctKeys;
    if j > 0 {
      var ups, u := d.upserts[..j], d.upserts[j - 1];
      assert ups[..j - 1] == d.upserts[..j - 1];
      PrefixRealizes(s1, ss, held, d, idx, j - 1);
      StepApart(ss, held, d, j - 1);
      UpsertRealizes(AfterUpserts(s1, held, ups[..j - 1], idx), Stage(ss, ups[..j - 1]), held, u, idx);
    } else {
      assert d.upserts[..0] == [];
    }
  }

  /** The side conditions of one upsert, from the delta-wide ones. */
  lemma StepApart(ss: set<Session>, held: seq<Session>, d: Delta, j: nat)
    requires j < |d.upserts| && OwnIds(d) && KeysApart(held, d) &&
             forall x | x in ss :: x in held && x.poolID !in Removed(d)
    ensures var u, st := d.upserts[j], Stage(ss, d.upserts[..j]);
            DistinctKeys(u.sessions) &&
            (forall x | x in st && x.poolID == u.poolID :: x in held) &&
            (forall x, y | x in st && x.poolID != u.poolID && y in held && y.poolID == u.poolID :: SK(x) != SK(y)) &&
            (forall x, z | x in st && x.poolID != u.poolID && z in u.sessions :: SK(x) != SK(z))
  {
    hide SK;
    var ups, u := d.upserts[..j], d.upserts[j];
    var st := Stage(ss, ups);
    PrefixOwnIds(d, j);
    StageMembers(ss, ups);
    FlattenMembers(d.upserts, UpSessions);
    FlattenPartDistinct(d.upserts, j);
    hide Stage, Flatten, DistinctKeys;
    assert u in d.upserts;
    forall x | x in st && x !in held ensures exists i :: 0 <= i < j && x in d.upserts[i].sessions {
      var v :| v in ups && x in v.sessions;
      var i :| 0 <= i < |ups| && ups[i] == v;
    }
    forall i, x | 0 <= i < j && x in d.upserts[i].sessions ensures x.poolID != u.poolID {
      assert d.upserts[i] in d.upserts;
    }
    forall x, y | x in st && x.poolID != u.poolID && y in held && y.poolID == u.poolID ensures SK(x) != SK(y) {
      if x in held {
        DistinctAt(held, x, y);
      } else {
        var i :| 0 <= i < j && x in d.upserts[i].sessions;
      }
    }
    forall x, z | x in st && x.poolID != u.poolID && z in u.sessions ensures SK(x) != SK(z) {
      StepApartNew(ss, held, d, j, x, z);
    }
  }

  lemma PrefixOwnIds(d: Delta, j: nat)
    requires j <= |d.upserts| && OwnIds(d)
    ensures forall v, x | v in d.upserts[..j] && x in v.sessions :: x.poolID == v.poolID
    ensures forall a, b | 0 <= a < b < j :: d.upserts[..j][a].poolID != d.upserts[..j][b].poolID
  {
    forall v | v in d.upserts[..j] ensures v in d.upserts { }
  }

  lemma {:induction false} FlattenPartDistinct(ups: seq<PoolDelta>, j: nat)
    requires j < |ups| && DistinctKeys(Flatten(ups, UpSessions))
    ensures DistinctKeys(ups[j].sessions)
  {
    var rest, last := ups[..|ups| - 1], ups[|ups| - 1];
    var all, a, b := Flatten(ups, UpSessions), Flatten(rest, UpSessions), last.sessions;
    assert all == a + b;
    hide SK, Flatten;
    if j == |rest| {
      forall i, k | 0 <= i < k < |b| ensures SK(b[i]) != SK(b[k]) { assert SK(all[|a| + i]) != SK(all[|a| + k]); }
    } else {
      forall i, k | 0 <= i < k < |a| ensures SK(a[i]) != SK(a[k]) { assert SK(all[i]) != SK(all[k]); }
      FlattenPartDistinct(rest, j);
    }
  }

  /** A session expected before upsert `j` and owned by another pool does not use a key upsert `j` lists. */
  lemma StepApartNew(ss: set<Session>, held: seq<Session>, d: Delta, j: nat, x: Session, z: Session)
    requires j < |d.upserts| && OwnIds(d) && KeysApart(held, d) &&
             forall y | y in ss :: y in held && y.poolID !in Removed(d)
    requires x in Stage(ss, d.upserts[..j]) && x.poolID != d.upserts[j].poolID && z in d.upserts[j].sessions
    ensures SK(x) != SK(z)
  {
    hide SK, DistinctKeys;
    var u := d.upserts[j];
    PrefixOwnIds(d, j);
    StageMembers(ss, d.upserts[..j]);
    FlattenMembers(d.upserts, UpSessions);
    hide Stage, Flatten;
    assert u in d.upserts && z.poolID == u.poolID && z in UpSessions(u);
    if v :| v in d.upserts[..j] && x in v.sessions {
      assert v in d.upserts && x in UpSessions(v);
      DistinctAt(Flatten(d.upserts, UpSessions), x, z);
    } else {
      assert x in held && forall v | v in d.upserts[..j] :: v.poolID != x.poolID;
      if x.poolID in Touched(d) {
        assert exists v :: v in d.upserts && v.poolID == x.poolID;
        HeldLater(held, d, j, x, z);
      }
    }
  }

  lemma HeldLater(held: seq<Session>, d: Delta, j: nat, x: Session, z: Session)
    requires j < |d.upserts| && NoEarlyClaim(held, d.upserts) && x in held && z in d.upserts[j].sessions
    requires x.poolID != d.upserts[j].poolID && forall v | v in d.upserts[..j] :: v.poolID != x.poolID
    requires exists v :: v in d.upserts && v.poolID == x.poolID
    ensures SK(x) != SK(z)
  {
    hide SK;
    var v :| v in d.upserts && v.poolID == x.poolID;
    var k :| 0 <= k < |d.upserts| && d.upserts[k] == v;
    forall i | 0 <= i < j ensures d.upserts[i].poolID != x.poolID { assert d.upserts[..j][i] == d.upserts[i]; }
    assert k > j;
    assert SK(z) != SK(x);
  }

  ghost function HeldOutside(held: seq<Session>, pools: set<PoolID>): (r: set<Session>) {
    set x | x in held && x.poolID !in pools
  }

  /** After the removals the other pools' sessions are left, on unchanged indexes. */
  lemma RemovalsRealize(held: seq<Session>, d: Delta, idx0: map<string, nat>, idx: map<string, nat>)
    requires DistinctKeys(held)
    requires forall x | x in held && x.poolID !in Removed(d) :: IndexOf(idx, x) == IndexOf(idx0, x)
    ensures Realizes(Goal(held, idx0) - KeysOf(held, Removed(d)), HeldOutside(held, Removed(d)), idx)
  {
    hide SK, IndexOf, DistinctKeys;
    var g, gone := Goal(held, idx0), KeysOf(held, Removed(d));
    forall x | x in held ensures SK(x) in g && g[SK(x)] == IndexOf(idx0, x) { GoalAt(held, idx0, x); }
    hide Goal;
    forall k | k in g - gone ensures exists x :: x in HeldOutside(held, Removed(d)) && SK(x) == k {
      var x :| x in held && SK(x) == k;
      assert x in HeldOutside(held, Removed(d));
    }
    forall x | x in HeldOutside(held, Removed(d)) ensures SK(x) in g - gone {
      forall y | y in held && y.poolID in Removed(d) ensures SK(y) != SK(x) { DistinctAt(held, x, y); }
    }
  }

  /** The indexes of the surviving pools' policers do not change during the delta. */
  lemma SurvivorsKeepIndex(st: State, d: Delta, parse: Parse, ps0: map<string, LivePolicer>, idx0: map<string, nat>,
                           ps: map<string, LivePolicer>, idx: map<string, nat>)
    requires WellFormed(st, parse) && idx0.Keys == ByName(st.policers).Keys
    requires var gone := RemovedNames(idx0, d, parse);
             PolicersUpserted(ps0 - gone, idx0 - gone, Flatten(d.upserts, UpPolicers), ps, idx)
    ensures forall x | x in st.sessions && x.poolID !in Removed(d) :: IndexOf(idx, x) == IndexOf(idx0, x)
  {
    hide DistinctKeys, ByName, ConfOf, Flatten, Removed;
    var gone := RemovedNames(idx0, d, parse);
    forall x | x in st.sessions && x.poolID !in Removed(d) ensures IndexOf(idx, x) == IndexOf(idx0, x) {
      var n := x.policerName;
      assert n in idx0 && parse(n) == Some(x.poolID);
      assert n !in gone && n in idx0 - gone;
    }
  }

  lemma MergedMembers(st: State, d: Delta)
    requires OwnIds(d)
    ensures Stage(HeldOutside(st.sessions, Removed(d)), d.upserts) == Members(MergeState(st, d).sessions)
  {
    var ss := HeldOutside(st.sessions, Removed(d));
    StageMembers(ss, d.upserts);
    FlattenMembers(d.upserts, UpSessions);
    var kept, new' := FilterOut(st.sessions, Touched(d), SessionPool), Flatten(d.upserts, UpSessions);
    assert MergeState(st, d).sessions == kept + new';
    hide Stage, Flatten, FilterOut, MergeState;
    forall x | x in Stage(ss, d.upserts) ensures x in kept + new' {
      if !(exists u :: u in d.upserts && x in u.sessions) {
        assert x in ss && forall u | u in d.upserts :: u.poolID != x.poolID;
        assert x.poolID !in Touched(d);
        assert SessionPool(x) !in Touched(d);
      } else {
        var u :| u in d.upserts && x in u.sessions;
        assert x in UpSessions(u);
      }
    }
    forall x | x in kept + new' ensures x in Stage(ss, d.upserts) {
      if x in new' {
        var u :| u in d.upserts && x in UpSessions(u);
      } else {
        assert SessionPool(x) !in Touched(d) && x in ss;
        forall u | u in d.upserts ensures u.poolID != x.poolID { assert u.poolID in Touched(d); }
      }
    }
  }

  lemma MergedApart(st: State, d: Delta)
    requires DistinctKeys(st.sessions) && DistinctKeys(MergeState(st, d).sessions) &&
             NoEarlyClaim(st.sessions, d.upserts)
    ensures KeysApart(st.sessions, d)
  {
    hide SK, DistinctKeys, NoEarlyClaim, Flatten;
    var kept, new' := FilterOut(st.sessions, Touched(d), SessionPool), Flatten(d.upserts, UpSessions);
    ConcatDistinct(kept, new');
    forall x, z | x in st.sessions && x.poolID !in Touched(d) && z in new' ensures SK(x) != SK(z) {
      assert SessionPool(x) !in Touched(d) && x in kept;
    }
  }

  lemma ConcatDistinct(a: seq<Session>, b: seq<Session>)
    requires DistinctKeys(a + b)
    ensures DistinctKeys(b) && forall x, z | x in a && z in b :: SK(x) != SK(z)
  {
    hide SK;
    var all := a + b;
    forall i, k | 0 <= i < k < |b| ensures SK(b[i]) != SK(b[k]) { assert SK(all[|a| + i]) != SK(all[|a| + k]); }
    forall x, z | x in a && z in b ensures SK(x) != SK(z) {
      var i :| 0 <= i < |a| && a[i] == x;
      var k :| 0 <= k < |b| && b[k] == z;
      assert SK(all[i]) != SK(all[|a| + k]);
    }
  }

  // ----- a claim made too early loses the member ----------------------------------------------------------

  lemma {:induction false} StaysOut(s: map<SKey, nat>, held: seq<Session>, ups: seq<PoolDelta>, idx: map<string, nat>,
                                    k: SKey, j: nat)
    requires j <= |ups| && k !in AfterUpserts(s, held, ups[..j], idx)
    requires forall i | j <= i < |ups| :: k !in Keys(ups[i].sessions)
    ensures k !in AfterUpserts(s, held, ups, idx)
    decreases |ups|
  {
    hide SK, Keys;
    if j == |ups| {
      assert ups[..j] == ups;
    } else {
      var rest := ups[..|ups| - 1];
      assert rest[..j] == ups[..j];
      StaysOut(s, held, rest, idx, k, j);
    }
  }

  lemma LostAt(s: map<SKey, nat>, held: seq<Session>, ups: seq<PoolDelta>, idx: map<string, nat>, y: Session)
    requires ups != [] && y in held && y.poolID == ups[|ups| - 1].poolID && SK(y) !in Keys(ups[|ups| - 1].sessions)
    ensures SK(y) !in AfterUpserts(s, held, ups, idx)
  {
    hide SK;
    assert SK(y) in KeysOf(held, {ups[|ups| - 1].poolID});
  }

  lemma ClaimLosesMember(s: map<SKey, nat>, held: seq<Session>, ups: seq<PoolDelta>, idx: map<string, nat>, i: nat,
                         j: nat, x: Session, y: Session)
    requires i < j < |ups| && x in ups[i].sessions && y in held && y.poolID == ups[j].poolID && SK(x) == SK(y)
    requires DistinctKeys(Flatten(ups, UpSessions)) && forall u, z | u in ups && z in u.sessions :: z.poolID == u.poolID
    requires forall a, b | 0 <= a < b < |ups| :: ups[a].poolID != ups[b].poolID
    ensures SK(x) !in AfterUpserts(s, held, ups, idx)
  {
    hide SK, AfterUpserts, DistinctKeys;
    FlattenMembers(ups, UpSessions);
    hide Flatten;
    forall q | 0 <= q < |ups| && q != i ensures SK(x) !in Keys(ups[q].sessions) {
      forall z | z in ups[q].sessions ensures SK(z) != SK(x) {
        assert ups[q] in ups && ups[i] in ups && z in UpSessions(ups[q]) && x in UpSessions(ups[i]);
        assert z.poolID == ups[q].poolID && x.poolID == ups[i].poolID;
        assert ups[q].poolID != ups[i].poolID;
        DistinctAt(Flatten(ups, UpSessions), z, x);
      }
    }
    assert ups[..j + 1][|ups[..j + 1]| - 1] == ups[j];
    LostAt(s, held, ups[..j + 1], idx, y);
    StaysOut(s, held, ups, idx, SK(x), j + 1);
  }

  // ----- the refinement ---------------------------------------------------------------------------------

  /** Sessions after a delta are the merged state's exactly when no upsert claims a member too early. */
  lemma SessionsRefineIff(st: State, d: Delta, parse: Parse, ps0: map<string, LivePolicer>, idx0: map<string, nat>,
                          ps: map<string, LivePolicer>, idx: map<string, nat>)
    requires WellFormed(st, parse) && OwnIds(d) && DistinctKeys(MergeState(st, d).sessions)
    requires idx0.Keys == ByName(st.policers).Keys
    requires var gone := RemovedNames(idx0, d, parse);
             PolicersUpserted(ps0 - gone, idx0 - gone, Flatten(d.upserts, UpPolicers), ps, idx)
    ensures AfterUpserts(Goal(st.sessions, idx0) - KeysOf(st.sessions, Removed(d)), st.sessions, d.upserts, idx)
            == Goal(MergeState(st, d).sessions, idx)
            <==> NoEarlyClaim(st.sessions, d.upserts)
  {
    var s1 := Goal(st.sessions, idx0) - KeysOf(st.sessions, Removed(d));
    if NoEarlyClaim(st.sessions, d.upserts) {
      SessionsRefine(st, d, parse, ps0, idx0, ps, idx);
    } else {
      var i, j, x, y :| 0 <= i < j < |d.upserts| && x in d.upserts[i].sessions && y in st.sessions &&
                        y.poolID == d.upserts[j].poolID && SK(x) == SK(y);
      ClaimBreaksMerge(st, d, s1, idx, i, j, x, y);
    }
  }

  lemma SessionsRefine(st: State, d: Delta, parse: Parse, ps0: map<string, LivePolicer>, idx0: map<string, nat>,
                       ps: map<string, LivePolicer>, idx: map<string, nat>)
    requires WellFormed(st, parse) && OwnIds(d) && DistinctKeys(MergeState(st, d).sessions)
    requires idx0.Keys == ByName(st.policers).Keys && NoEarlyClaim(st.sessions, d.upserts)
    requires var gone := RemovedNames(idx0, d, parse);
             PolicersUpserted(ps0 - gone, idx0 - gone, Flatten(d.upserts, UpPolicers), ps, idx)
    ensures AfterUpserts(Goal(st.sessions, idx0) - KeysOf(st.sessions, Removed(d)), st.sessions, d.upserts, idx)
            == Goal(MergeState(st, d).sessions, idx)
  {
    assert DistinctKeys(st.sessions);
    hide *;
    var held := st.sessions;
    var s1 := Goal(held, idx0) - KeysOf(held, Removed(d));
    SurvivorsKeepIndex(st, d, parse, ps0, idx0, ps, idx);
    RemovalsRealize(held, d, idx0, idx);
    MergedApart(st, d);
    OutsideHeld(held, Removed(d));
    PrefixRealizes(s1, HeldOutside(held, Removed(d)), held, d, idx, |d.upserts|);
    assert d.upserts[..|d.upserts|] == d.upserts;
    MergedMembers(st, d);
    RealizesGoal(AfterUpserts(s1, held, d.upserts, idx), MergeState(st, d).sessions, idx);
  }

  lemma OutsideHeld(held: seq<Session>, pools: set<PoolID>)
    ensures forall x | x in HeldOutside(held, pools) :: x in held && x.poolID !in pools
  {
  }

  lemma ClaimBreaksMerge(st: State, d: Delta, s1: map<SKey, nat>, idx: map<string, nat>, i: nat, j: nat, x: Session,
                         y: Session)
    requires OwnIds(d) && DistinctKeys(MergeState(st, d).sessions)
    requires i < j < |d.upserts| && x in d.upserts[i].sessions && y in st.sessions &&
             y.poolID == d.upserts[j].poolID && SK(x) == SK(y)
    ensures AfterUpserts(s1, st.sessions, d.upserts, idx) != Goal(MergeState(st, d).sessions, idx)
  {
    var kept, new' := FilterOut(st.sessions, Touched(d), SessionPool), Flatten(d.upserts, UpSessions);
    assert MergeState(st, d).sessions == kept + new';
    FlattenMembers(d.upserts, UpSessions);
    assert d.upserts[i] in d.upserts && x in UpSessions(d.upserts[i]);
    hide SK, Goal, FilterOut, Flatten, DistinctKeys, MergeState, AfterUpserts;
    ConcatDistinct(kept, new');
    ClaimLosesMember(s1, st.sessions, d.upserts, idx, i, j, x, y);
    assert x in kept + new' && SK(x) in Keys(kept + new');
  }

  /** The fast path refines the slow path. From a VPP in sync with the held state, a successful delta
      leaves VPP in sync with the merged state exactly when no upserted pool drops a policer and no upsert
      claims a recorded member of a pool upserted after it. */
  lemma FastPathRefinesIff(st: State, d: Delta, parse: Parse,
                           ps0: map<string, LivePolicer>, idx0: map<string, nat>, s0: map<SKey, nat>,
                           ps: map<string, LivePolicer>, idx: map<string, nat>, s: map<SKey, nat>)
    requires WellFormed(st, parse) && OwnIds(d) && WellFormed(MergeState(st, d), parse)
    requires Synced(st, ps0, s0, idx0, parse) && Tracks(idx, ps, parse)
    requires Applied(st.sessions, d, parse, ps0, idx0, s0, ps, idx, s)
    ensures Synced(MergeState(st, d), ps, s, idx, parse) <==>
            NoDroppedPolicer(st, d) && NoEarlyClaim(st.sessions, d.upserts)
  {
    UpsertedNamesParse(st, d, parse);
    SyncedKeys(st, ps0, s0, idx0, parse);
    assert DistinctKeys(MergeState(st, d).sessions);
    hide Tracks, PolicersSynced, PolicersUpserted, WellFormed, Goal, AfterUpserts, NoDroppedPolicer, NoEarlyClaim,
         MergeState, DistinctKeys, OwnIds, NamesParse;
    PolicersRefineIff(st, d, parse, ps0, idx0, ps, idx);
    SessionsRefineIff(st, d, parse, ps0, idx0, ps, idx);
  }

  lemma SyncedKeys(st: State, ps0: map<string, LivePolicer>, s0: map<SKey, nat>, idx0: map<string, nat>, parse: Parse)
    requires Synced(st, ps0, s0, idx0, parse) && WellFormed(st, parse)
    ensures idx0.Keys == ByName(st.policers).Keys && NamesParse(st.policers, parse) && s0 == Goal(st.sessions, idx0)
  {
  }

  lemma UpsertedNamesParse(st: State, d: Delta, parse: Parse)
    requires WellFormed(MergeState(st, d), parse)
    ensures UpsertNamesParse(d, parse)
  {
    hide DistinctKeys, ByName, FilterOut, Flatten;
    forall p | p in Flatten(d.upserts, UpPolicers) ensures parse(p.name) == Some(p.poolID) {
      assert p in MergeState(st, d).policers;
    }
  }

  /** In a VPP in sync every desired policer carries out its spec, field by field. */
  lemma SyncedRunsOn(st: State, ps: map<string, LivePolicer>, s: map<SKey, nat>, idx: map<string, nat>, parse: Parse)
    requires Synced(st, ps, s, idx, parse)
    ensures RunsOn(ByName(st.policers), ps)
  {
    hide Goal, Tracks, Managed, ByName, AsSent, RunsOn;
    AsSentRunsOn(ByName(st.policers), ps);
  }

  /** After a delta VPP took in full every listed policer carries out its spec, the last entry of its name. */
  lemma AppliedRunsOn(prev: seq<Session>, d: Delta, parse: Parse,
                      ps0: map<string, LivePolicer>, idx0: map<string, nat>, s0: map<SKey, nat>,
                      ps: map<string, LivePolicer>, idx: map<string, nat>, s: map<SKey, nat>)
    requires Applied(prev, d, parse, ps0, idx0, s0, ps, idx, s)
    ensures RunsOn(ByName(Flatten(d.upserts, UpPolicers)), ps)
  {
    hide ByName, ConfOf, AfterUpserts, RemovedNames, Flatten, RunsOn;
    AsSentRunsOn(ByName(Flatten(d.upserts, UpPolicers)), ps);
  }

  /** A full pass finds nothing to do in a VPP in sync exactly when every policer reads back as sent. */
  lemma SyncedInPlaceIff(st: State, ps: map<string, LivePolicer>, s: map<SKey, nat>, idx: map<string, nat>,
                         parse: Parse)
    requires Synced(st, ps, s, idx, parse)
    ensures InPlace(st, ps, s, idx, parse) <==> AllSteady(st)
  {
    var want := ByName(st.policers);
    hide Goal, Managed, ByName, Tracks, CbMsForPps;
    forall n | n in want ensures Drifted(want[n], InfoOf(ps[n])) <==> !Steady(want[n]) {
      assert ps[n].conf == ConfOf(want[n]);
    }
  }
}
