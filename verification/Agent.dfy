/** The edge agent's loop over the parts: one delta in lockstep through store and reconciler
    (cmd/edge-agent/main.go), the sequencer that feeds it (internal/agent/deltaseq.go), and what full
    passes find afterwards. */
module Agent {
  import opened Model
  import opened Desired
  import opened VppApi
  import opened Plan
  import opened DeltaPlan
  import opened Reconcile
  import opened DeltaPath
  import opened Store
  import opened DeltaFits
  import Q = Sequencer

  // ----- full passes after full passes and after deltas ---------------------------------------------------

  lemma {:induction false} KbpsIsAllSteady(d: State)
    requires forall p | p in d.policers :: p.rateType != Pps
    ensures AllSteady(d)
  {
    hide ByName, CbMsForPps;
    forall n | n in ByName(d.policers) ensures Steady(ByName(d.policers)[n]) {
      ByNameOrigin(d.policers, n);
      KbpsIsSteady(ByName(d.policers)[n]);
    }
  }

  lemma {:induction false} ByNameOrigin(specs: seq<PolicerSpec>, n: string)
    requires n in ByName(specs)
    ensures ByName(specs)[n] in specs
  {
    if specs[|specs| - 1].name != n { ByNameOrigin(specs[..|specs| - 1], n); }
  }

  /** A second pass on the same desired state changes nothing exactly when every policer the first pass
      had to write reads back as it was sent. */
  lemma SecondPassQuietIff(d: State, parse: Parse,
                           ps0: map<string, LivePolicer>, idx0: map<string, nat>,
                           ps1: map<string, LivePolicer>, idx1: map<string, nat>, s1: map<SKey, nat>,
                           ps2: map<string, LivePolicer>, idx2: map<string, nat>, s2: map<SKey, nat>,
                           added: int, updated: int, deleted: int, c: SessionCounts)
    requires WellFormed(d, parse) && Converged(d, parse, ps0, idx0, ps1, idx1, s1)
    requires Converged(d, parse, ps1, RelearnStep(d, idx1, s1), ps2, idx2, s2)
    requires Reports(d, parse, ps1, RelearnStep(d, idx1, s1), s1, s2, added, updated, deleted, c)
    ensures added == 0 && updated == 0 && deleted == 0 && c == SessionCounts(0, 0, 0) <==>
            forall n | n in ByName(d.policers) && (n !in ps0 || n in OffRate(ByName(d.policers), ps0, idx0)) ::
              Steady(ByName(d.policers)[n])
  {
    hide Reports, WellFormed, ByName, OffRate, Steady, InPlace, Converged;
    NothingToRelearn(d, parse, ps0, idx0, ps1, idx1, s1);
    TracksUsable(idx1, ps1, parse, ByName(d.policers).Keys);
    NoChangeIffInPlace(d, parse, ps1, idx1, s1, ps2, idx2, s2, added, updated, deleted, c);
    InPlaceAfterPassIff(d, parse, ps0, idx0, ps1, idx1, s1);
  }

  lemma TracksUsable(idx: map<string, nat>, ps: map<string, LivePolicer>, parse: Parse, want: set<string>)
    requires Tracks(idx, ps, parse)
    ensures Usable(idx, ps, want)
  {
    SoundIsUsable(idx, ps, want);
  }

  lemma NothingToRelearn(d: State, parse: Parse, ps0: map<string, LivePolicer>, idx0: map<string, nat>,
                         ps1: map<string, LivePolicer>, idx1: map<string, nat>, s1: map<SKey, nat>)
    requires WellFormed(d, parse) && Converged(d, parse, ps0, idx0, ps1, idx1, s1)
    ensures RelearnStep(d, idx1, s1) == idx1 && Tracks(idx1, ps1, parse)
  {
    HashedPoolsAreDesired(d, parse, ps0, idx0, ps1, idx1, s1);
    hide Goal, Settled, Tracks, Relearn, DistinctKeys;
    forall p | p in d.policers ensures p.name in idx1 { ByNameHas(d.policers, p); }
  }

  lemma {:induction false} ByNameHas(specs: seq<PolicerSpec>, p: PolicerSpec)
    requires p in specs
    ensures p.name in ByName(specs)
  {
    if specs[|specs| - 1] != p { ByNameHas(specs[..|specs| - 1], p); }
  }

  /** A completed pass leaves VPP in sync exactly when every policer it left alone, because it read back as not
      drifted, already ran on the whole desired configuration. */
  lemma PassSyncsIff(d: State, parse: Parse, ps0: map<string, LivePolicer>, idx0: map<string, nat>,
                     ps1: map<string, LivePolicer>, idx1: map<string, nat>, s1: map<SKey, nat>)
    requires WellFormed(d, parse) && Converged(d, parse, ps0, idx0, ps1, idx1, s1)
    ensures Synced(d, ps1, s1, idx1, parse) <==> KeptAsSent(ByName(d.policers), ps0, idx0)
  {
    HashedPoolsAreDesired(d, parse, ps0, idx0, ps1, idx1, s1);
    AsSentAfterPassIff(d, parse, ps0, idx0, ps1, idx1, s1);
    hide Goal, Tracks, ByName, Managed, AsSent, KeptAsSent;
  }

  /** The fast path is invisible to the slow path: a full pass after a delta that VPP took in full, from a
      VPP in sync, adds, updates, moves and deletes nothing exactly when every policer reads back as sent. */
  lemma PassAfterDeltaQuietIff(st: State, d: Delta, parse: Parse,
                               ps0: map<string, LivePolicer>, idx0: map<string, nat>, s0: map<SKey, nat>,
                               ps1: map<string, LivePolicer>, idx1: map<string, nat>, s1: map<SKey, nat>,
                               ps2: map<string, LivePolicer>, idx2: map<string, nat>, s2: map<SKey, nat>,
                               added: int, updated: int, deleted: int, c: SessionCounts)
    requires WellFormed(st, parse) && OwnIds(d) && WellFormed(MergeState(st, d), parse)
    requires Synced(st, ps0, s0, idx0, parse) && Tracks(idx1, ps1, parse)
    requires Applied(st.sessions, d, parse, ps0, idx0, s0, ps1, idx1, s1)
    requires NoDroppedPolicer(st, d) && NoEarlyClaim(st.sessions, d.upserts)
    requires var m := MergeState(st, d); Converged(m, parse, ps1, RelearnStep(m, idx1, s1), ps2, idx2, s2)
    requires var m := MergeState(st, d);
             Reports(m, parse, ps1, RelearnStep(m, idx1, s1), s1, s2, added, updated, deleted, c)
    ensures added == 0 && updated == 0 && deleted == 0 && c == SessionCounts(0, 0, 0) <==> AllSteady(MergeState(st, d))
  {
    hide Reports, WellFormed, AllSteady, InPlace, Converged, Synced, Applied, MergeState, NoDroppedPolicer,
         NoEarlyClaim, OwnIds, Tracks;
    var m := MergeState(st, d);
    FastPathRefinesIff(st, d, parse, ps0, idx0, s0, ps1, idx1, s1);
    SyncedInPlaceIff(m, ps1, s1, idx1, parse);
    SyncedKnowsAll(m, ps1, s1, idx1, parse);
    TracksUsable(idx1, ps1, parse, ByName(m.policers).Keys);
    NoChangeIffInPlace(m, parse, ps1, idx1, s1, ps2, idx2, s2, added, updated, deleted, c);
  }

  lemma SyncedKnowsAll(st: State, ps: map<string, LivePolicer>, s: map<SKey, nat>, idx: map<string, nat>, parse: Parse)
    requires Synced(st, ps, s, idx, parse)
    ensures RelearnStep(st, idx, s) == idx
  {
    hide Goal, Tracks, Relearn, AsSent;
    forall p | p in st.policers ensures p.name in idx { ByNameHas(st.policers, p); }
  }

  // ----- whole runs of deltas -----------------------------------------------------------------------------

  /** VPP's policers and sessions with the learned indexes. */
  datatype Plane = Plane(policers: map<string, LivePolicer>, sessions: map<SKey, nat>, idx: map<string, nat>)

  predicate Carries(p: Plane, st: State, parse: Parse) { Synced(st, p.policers, p.sessions, p.idx, parse) }

  /** A delta the fast path is right for, in state `st`. */
  predicate Clean(st: State, d: Delta, parse: Parse) {
    && WellFormed(st, parse) && OwnIds(d) && WellFormed(MergeState(st, d), parse)
    && NoDroppedPolicer(st, d) && NoEarlyClaim(st.sessions, d.upserts)
  }

  /** VPP took delta `d`, held state `st`, in full. */
  ghost predicate Took(p: Plane, st: State, d: Delta, q: Plane, parse: Parse) {
    Tracks(q.idx, q.policers, parse) &&
    Applied(st.sessions, d, parse, p.policers, p.idx, p.sessions, q.policers, q.idx, q.sessions)
  }

  function MergeAll(st: State, ds: seq<Delta>): (r: State) {
    if ds == [] then st else MergeState(MergeAll(st, ds[..|ds| - 1]), ds[|ds| - 1])
  }

  /** Through any run of clean deltas that VPP takes in full, VPP carries exactly the held state. */
  lemma {:induction false} DeltasKeepSync(st: State, ds: seq<Delta>, planes: seq<Plane>, parse: Parse)
    requires |planes| == |ds| + 1 && Carries(planes[0], st, parse)
    requires forall i | 0 <= i < |ds| :: Clean(MergeAll(st, ds[..i]), ds[i], parse) &&
               Took(planes[i], MergeAll(st, ds[..i]), ds[i], planes[i + 1], parse)
    ensures Carries(planes[|ds|], MergeAll(st, ds), parse)
    decreases |ds|
  {
    hide Clean, Took, Carries, MergeState;
    if ds == [] {
    } else {
      var n := |ds| - 1;
      var rest := ds[..n];
      forall i | 0 <= i < n ensures rest[..i] == ds[..i] && rest[i] == ds[i] { }
      DeltasKeepSync(st, rest, planes[..n + 1], parse);
      CleanDeltaKeepsSync(planes[n], MergeAll(st, rest), ds[n], planes[n + 1], parse);
    }
  }

  lemma CleanDeltaKeepsSync(p: Plane, st: State, d: Delta, q: Plane, parse: Parse)
    requires Carries(p, st, parse) && Clean(st, d, parse) && Took(p, st, d, q, parse)
    ensures Carries(q, MergeState(st, d), parse)
  {
    hide Synced, Applied, WellFormed, OwnIds, NoDroppedPolicer, NoEarlyClaim, MergeState, Tracks;
    FastPathRefinesIff(st, d, parse, p.policers, p.idx, p.sessions, q.policers, q.idx, q.sessions);
  }

  lemma SyncedIsLive(st: State, ps: map<string, LivePolicer>, s: map<SKey, nat>, idx: map<string, nat>, parse: Parse)
    requires Synced(st, ps, s, idx, parse) && WellFormed(st, parse)
    ensures Live(s, idx)
  {
    hide *;
    SyncedIsLinked(st, ps, s, idx, parse);
    LinkedIsLive(s, idx, st.sessions, parse);
  }

  /** With sound indexes, no managed policer unknown is every one known and nothing else. */
  lemma KnownIff(idx: map<string, nat>, ps: map<string, LivePolicer>, parse: Parse)
    ensures Tracks(idx, ps, parse) ==> (Managed(ps, parse) - idx.Keys == {} <==> Managed(ps, parse) == idx.Keys)
  {
    if Tracks(idx, ps, parse) {
      forall n | n in idx ensures n in Managed(ps, parse) { assert n in ps; }
      hide Tracks;
      var a, b := Managed(ps, parse), idx.Keys;
      assert b <= a;
      if a - b == {} { forall n | n in a ensures n in b { assert n !in a - b; } }
    }
  }

  lemma HealsIff(d: State, parse: Parse, ps0: map<string, LivePolicer>, idx0: map<string, nat>,
                 ps: map<string, LivePolicer>, idx: map<string, nat>, s: map<SKey, nat>)
    requires WellFormed(d, parse)
    ensures Converged(d, parse, ps0, idx0, ps, idx, s) ==>
              Tracks(idx, ps, parse) && Managed(ps, parse) == idx.Keys == ByName(d.policers).Keys &&
              s == Goal(d.sessions, idx) && AtRate(ByName(d.policers), ps) &&
              (Synced(d, ps, s, idx, parse) <==> KeptAsSent(ByName(d.policers), ps0, idx0))
  {
    if Converged(d, parse, ps0, idx0, ps, idx, s) {
      assert Tracks(idx, ps, parse) && Managed(ps, parse) == ByName(d.policers).Keys && s == Goal(d.sessions, idx);
      hide *;
      PassSetsRates(d, parse, ps0, idx0, ps, idx, s);
      HashedPoolsAreDesired(d, parse, ps0, idx0, ps, idx, s);
      PassSyncsIff(d, parse, ps0, idx0, ps, idx, s);
    }
  }

  // ----- one delta ----------------------------------------------------------------------------------------

  /** The agent's part of the loop: the held state and the reconciler, moved in lockstep. */
  class Lockstep {
    const store: DesiredStore
    const recon: Reconciler
    /** Announcement passes asked for, and the deltas merged so far. */
    var birdWakes: nat
    ghost var merged: seq<Delta>

    constructor (store: DesiredStore, recon: Reconciler)
      ensures this.store == store && this.recon == recon && birdWakes == 0 && merged == []
    {
      this.store, this.recon, birdWakes, merged := store, recon, 0, [];
    }

    /** VPP carries exactly the held state. */
    ghost predicate InSync()
      reads store, recon, recon.vpp
    {
      store.haveState && Synced(store.state, recon.vpp.policers, recon.vpp.sessions, recon.polIdx, recon.parse)
    }

    /** VPP's share of one delta. A VPP in sync that refuses only the impossible takes it exactly when the
        delta is doable; when VPP refuses part of it the chain moves on all the same. */
    method ProgramDelta(d: Delta, prev: seq<Session>, ghost st: State) returns (applied: bool)
      requires recon.Valid() && Applicable(d, recon.parse) && prev == st.sessions
      modifies recon`polIdx, recon`polSnap, recon`actPol, recon`actSess, recon`lastGen, recon`poolIds,
               recon.vpp`policers, recon.vpp`tables, recon.vpp`next, recon.vpp`sessions
      ensures recon.Valid() && Standing(recon) == old(Standing(recon)) && (old(recon.Anchored()) ==> recon.Anchored())
      ensures recon.lastGen == d.generation && recon.polSnap == recon.polIdx
      ensures applied ==>
                Applied(st.sessions, d, recon.parse, old(recon.vpp.policers), old(recon.polIdx),
                        old(recon.vpp.sessions), recon.vpp.policers, recon.polIdx, recon.vpp.sessions)
      ensures old(Carried(st)) ==> Live(recon.vpp.sessions, recon.polIdx)
      ensures old(Carried(st)) && OwnIds(d) && WellFormed(MergeState(st, d), recon.parse) && old(Obliges(d)) ==>
                (applied <==> Doable(st.sessions, d, recon.vpp.accepts))
    {
      hide OwnIds, MergeState, Applied, Applicable, Tracks, Live, Linked, Synced, WellFormed, GoodTables, GoodLinks,
           GoodSessions, GoodPolicers, PoolSet, Standing, Fits, Doable, Housed, DistinctKeys, Flatten, ReportsDelta;
      if Carried(st) {
        SyncedIsLinked(st, recon.vpp.policers, recon.vpp.sessions, recon.polIdx, recon.parse);
        if OwnIds(d) && WellFormed(MergeState(st, d), recon.parse) { Ready(d, st); }
      }
      var _, done := ApplyDelta(recon, d, prev);
      applied := done;
      if !applied { AdoptDeltaBaseline(recon, d.generation); }
    }

    lemma Ready(d: Delta, st: State)
      requires recon.Valid() && Carried(st) && OwnIds(d) && WellFormed(MergeState(st, d), recon.parse)
      ensures Obliges(d) ==> Willing(recon, |Flatten(d.upserts, UpPolicers)|)
      ensures DistinctKeys(st.sessions) && Housed(st.sessions, recon.vpp.tables.Keys)
      ensures Fits(st.sessions, d, recon.parse, recon.polIdx, recon.vpp.sessions, recon.vpp.tables.Keys,
                   recon.vpp.accepts) <==>
              Doable(st.sessions, d, recon.vpp.accepts)
    {
      assert DistinctKeys(st.sessions);
      hide OwnIds, MergeState, Tracks, Synced, WellFormed, GoodTables, GoodLinks, GoodSessions, GoodPolicers, Fits,
           Doable, Housed, DistinctKeys, Flatten, Managed;
      FitsIff(st, d, recon.parse, recon.vpp.policers, recon.vpp.sessions, recon.polIdx, recon.vpp.tables,
              recon.vpp.accepts);
      SyncedIsHoused(st, recon.vpp.policers, recon.vpp.sessions, recon.polIdx, recon.vpp.tables, recon.parse);
      SyncedKnows(st, recon.vpp.policers, recon.vpp.sessions, recon.polIdx, recon.parse);
    }

    /** VPP carries `st`, which is well formed. */
    ghost predicate Carried(st: State)
      reads recon`polIdx, recon.vpp`policers, recon.vpp`sessions
    {
      WellFormed(st, recon.parse) && Synced(st, recon.vpp.policers, recon.vpp.sessions, recon.polIdx, recon.parse)
    }

    /** VPP refuses only what it cannot do and has room for the delta's policers. */
    ghost predicate Obliges(d: Delta)
      reads recon.vpp`policers
    {
      recon.vpp.obliging && |recon.vpp.policers| + |Flatten(d.upserts, UpPolicers)| <= NO_TABLE
    }

    /** VPP's managed policers, its sessions and the learned indexes are those of the held state, and every
        policer not in packets a second is at its rate and burst; other fields may differ. */
    ghost predicate Healed()
      reads store, recon, recon.vpp
    {
      store.haveState && recon.Tracked() && recon.polIdx.Keys == ByName(store.state.policers).Keys &&
      recon.AllKnown() && recon.vpp.sessions == Goal(store.state.sessions, recon.polIdx) &&
      AtRate(ByName(store.state.policers), recon.vpp.policers)
    }

    /** The policers a pass from `mid` leaves alone already run on what the held state wants. */
    ghost predicate KeptFrom(mid: Found)
      reads store
    {
      KeptAsSent(ByName(store.state.policers), mid.policers, mid.Relearned(store.state))
    }

    /** One periodic pass over the held state, none without one. When every managed policer is known, a completed
        pass that was not held back heals, and restores sync exactly when the policers it left alone were right. */
    method RunOnce() returns (ran: bool, res: PassResult, ok: bool)
      requires recon.Runnable() && (store.haveState ==> WellFormed(store.state, recon.parse))
      modifies recon, recon.vpp
      ensures ran == store.haveState && recon.Runnable()
      ensures !ran ==> unchanged(recon) && unchanged(recon.vpp)
      ensures ran && ok && !old(recon.Defers(store.state)) ==> recon.lastGen == store.state.generation
      ensures ran && ok && !old(recon.Defers(store.state)) && old(recon.Tracked() && Standing(recon).unknown == {}) ==>
                Healed() && (InSync() <==> KeptFrom(old(recon.Now())))
    {
      hide Tracks, GoodTables, GoodLinks, GoodSessions, GoodPolicers, Listed, WellFormed, Converged, Managed, Goal,
           Synced, KeptAsSent, FirstHitsLive, FirstHitsRight, ByName, Completed, Sound, PoolSet, RelearnStep, AtRate;
      res := PassResult(PolicerCounts(0, 0, 0), SessionCounts(0, 0, 0), 0, 0, 0);
      var desired := store.Desired();
      if desired.None? { return false, res, false; }
      KnownIff(recon.polIdx, recon.vpp.policers, recon.parse);
      ghost var f := recon.Now();
      res, ok := recon.Reconcile(desired.value);
      ran := true;
      HealsIff(desired.value, recon.parse, f.policers, f.Relearned(desired.value), recon.vpp.policers, recon.polIdx,
               recon.vpp.sessions);
    }

    /** Merges one delta into the held state and VPP. The chain moves on even when VPP refuses part of it;
        BIRD is only woken for a delta VPP took in full. */
    method ApplyOneDelta(d: Delta) returns (advanced: bool)
      requires recon.Valid() && Applicable(d, recon.parse)
      modifies this, store, recon`polIdx, recon`polSnap, recon`actPol, recon`actSess, recon`lastGen, recon`poolIds,
               recon.vpp`policers, recon.vpp`tables, recon.vpp`next, recon.vpp`sessions
      ensures recon.Valid() && Standing(recon) == old(Standing(recon)) && (old(recon.Anchored()) ==> recon.Anchored())
      ensures advanced == old(store.haveState)
      ensures store.Value() == Step(old(store.Value()), Event.Merge(d))
      ensures advanced ==> recon.lastGen == d.generation && merged == old(merged) + [d]
      ensures advanced ==> recon.polSnap == recon.polIdx
      ensures !advanced ==> recon.lastGen == old(recon.lastGen) && merged == old(merged) && birdWakes == old(birdWakes)
      ensures birdWakes == old(birdWakes) || birdWakes == old(birdWakes) + 1
      ensures birdWakes > old(birdWakes) ==>
                Applied(old(store.state.sessions), d, recon.parse, old(recon.vpp.policers), old(recon.polIdx),
                        old(recon.vpp.sessions), recon.vpp.policers, recon.polIdx, recon.vpp.sessions)
      ensures old(InSync()) && WellFormed(old(store.state), recon.parse) ==> Live(recon.vpp.sessions, recon.polIdx)
      ensures old(InSync()) && WellFormed(old(store.state), recon.parse) && OwnIds(d) &&
              WellFormed(store.state, recon.parse) &&
              old(Obliges(d)) ==>
                (birdWakes > old(birdWakes) <==> Doable(old(store.state.sessions), d, recon.vpp.accepts))
      ensures birdWakes > old(birdWakes) && old(InSync()) && OwnIds(d) &&
              WellFormed(old(store.state), recon.parse) && WellFormed(store.state, recon.parse) ==>
                (InSync() <==> NoDroppedPolicer(old(store.state), d) &&
                               NoEarlyClaim(old(store.state.sessions), d.upserts))
    {
      hide NoDroppedPolicer, NoEarlyClaim, OwnIds, MergeState, Applied, Applicable, Tracks, Live, Synced, WellFormed,
           GoodTables, GoodLinks, GoodSessions, GoodPolicers, Standing, Obliges, Doable;
      ghost var st0, s0, ps0, idx0 := store.state, recon.vpp.sessions, recon.vpp.policers, recon.polIdx;
      ghost var carried := Carried(st0);
      if carried { SyncedIsLive(st0, ps0, s0, idx0, recon.parse); }
      var prev, ok := store.Merge(d);
      if !ok { return false; }
      merged := merged + [d];
      var applied := ProgramDelta(d, prev, st0);
      advanced := true;
      if applied {
        birdWakes := birdWakes + 1;
        if carried && OwnIds(d) && WellFormed(store.state, recon.parse) {
          FastPathRefinesIff(st0, d, recon.parse, ps0, idx0, s0, recon.vpp.policers, recon.polIdx, recon.vpp.sessions);
        }
      }
    }
  }

  const DEFAULT_MAX_PENDING: nat := 512

  class DeltaSequencer {
    var pending: map<nat, Delta>
    const agent: Lockstep
    const max: nat

    constructor (agent: Lockstep)
      ensures this.agent == agent && pending == map[] && max == 512
    {
      this.agent, pending, max := agent, map[], DEFAULT_MAX_PENDING;
    }

    /** Any deltas in any order, whatever VPP refuses of them, and then a full pass over the held state. Where no
        managed policer was unknown before the deltas, as in a VPP in sync, a pass that completes heals whatever
        they left behind, up to what a pass does not compare. */
    method SubmitThenReconcile(chain: seq<Delta>, subs: seq<nat>)
      returns (ran: bool, res: PassResult, ok: bool, ghost mid: Found)
      requires Valid() && (forall d | d in chain :: Applicable(d, agent.recon.parse))
      requires forall k | 0 <= k < |subs| :: subs[k] < |chain|
      requires var held := Q.Deliver(View(), chain, subs, max).held.state;
               held.Some? ==> WellFormed(held.value, agent.recon.parse)
      modifies this, agent, agent.store, agent.recon, agent.recon.vpp
      ensures agent.store.Value() == Q.Deliver(old(View()), chain, subs, max).held
      ensures ran == agent.store.haveState
      ensures ran && ok && !old(agent.recon.Defers(Q.Deliver(View(), chain, subs, max).held.state.value)) &&
              old(Standing(agent.recon)).unknown == {} ==>
                agent.Healed() && (agent.InSync() <==> agent.KeptFrom(mid))
    {
      hide Applicable, Tracks, GoodTables, GoodLinks, GoodSessions, GoodPolicers, Standing, Q.Deliver, WellFormed;
      SubmitAll(chain, subs);
      mid := agent.recon.Now();
      TracksListed(agent.recon.polIdx, agent.recon.vpp.policers, agent.recon.parse);
      ran, res, ok := agent.RunOnce();
    }

    /** Buffered deltas are ones VPP may be asked to apply, each under its base generation. */
    ghost predicate Valid()
      reads this, agent, agent.recon, agent.recon.vpp
    {
      && agent.recon.Valid()
      && forall k | k in pending :: pending[k].baseGeneration == k && Applicable(pending[k], agent.recon.parse)
    }

    /** The protocol's view of the running agent. */
    ghost function View(): (c: Q.Chain)
      reads this, agent, agent.store, agent.recon
    {
      Q.Chain(pending, agent.recon.lastGen, agent.store.Value(), agent.merged)
    }

    method Apply(d: Delta) returns (advanced: bool)
      requires Valid() && Applicable(d, agent.recon.parse)
      modifies agent, agent.store, agent.recon`polIdx, agent.recon`polSnap, agent.recon`actPol, agent.recon`actSess,
               agent.recon`lastGen, agent.recon`poolIds, agent.recon.vpp`policers, agent.recon.vpp`tables,
               agent.recon.vpp`next, agent.recon.vpp`sessions
      ensures Valid() && Standing(agent.recon) == old(Standing(agent.recon))
      ensures advanced == old(agent.store.haveState)
      ensures View() == Q.ApplyOne(old(View()), d)
    {
      hide MergeState, Applied, Applicable, Tracks, Live, Synced, WellFormed, GoodTables, GoodLinks, GoodSessions,
           GoodPolicers, Managed;
      advanced := agent.ApplyOneDelta(d);
    }

    /** Takes from the buffer, for as long as it holds the delta that starts where the chain now stands. */
    method Drain()
      requires Valid()
      modifies this, agent, agent.store, agent.recon`polIdx, agent.recon`polSnap, agent.recon`actPol,
               agent.recon`actSess, agent.recon`lastGen, agent.recon`poolIds, agent.recon.vpp`policers,
               agent.recon.vpp`tables, agent.recon.vpp`next, agent.recon.vpp`sessions
      ensures Valid() && Standing(agent.recon) == old(Standing(agent.recon))
      ensures Q.Keyed(old(View())) && View() == Q.Drain(old(View()))
    {
      hide Applicable, Tracks, GoodTables, GoodLinks, GoodSessions, GoodPolicers, Managed, Step, Q.Drain;
      ghost var v0 := View();
      assert Q.Keyed(v0);
      while agent.recon.lastGen in pending
        invariant Valid() && Standing(agent.recon) == old(Standing(agent.recon))
        invariant Q.Keyed(View()) && Q.Drain(View()) == Q.Drain(v0)
        decreases |pending|
      {
        ghost var v := View();
        var next := pending[agent.recon.lastGen];
        pending := pending - {next.baseGeneration};
        assert pending.Keys == v.pending.Keys - {v.lastGen};
        Q.DrainStep(v);
        var advanced := Apply(next);
        if !advanced { return; }
      }
      Q.DrainDone(View());
    }

    /** Takes one delta: applies it and what it unblocks, buffers it ahead of the chain, or ignores it. */
    method Submit(d: Delta)
      requires Valid() && Applicable(d, agent.recon.parse)
      modifies this, agent, agent.store, agent.recon`polIdx, agent.recon`polSnap, agent.recon`actPol,
               agent.recon`actSess, agent.recon`lastGen, agent.recon`poolIds, agent.recon.vpp`policers,
               agent.recon.vpp`tables, agent.recon.vpp`next, agent.recon.vpp`sessions
      ensures Valid() && Standing(agent.recon) == old(Standing(agent.recon))
      ensures Q.Keyed(old(View())) && View() == Q.Submit(old(View()), d, max)
    {
      hide Applicable, Tracks, GoodTables, GoodLinks, GoodSessions, GoodPolicers, Managed, MergeState;
      var base := agent.recon.lastGen;
      EvictPassed(base);
      if d.baseGeneration == base {
        var advanced := Apply(d);
        if !advanced { return; }
        Drain();
      } else if d.baseGeneration > base {
        if |pending| >= max {
          pending := map[];
          return;
        }
        pending := pending[d.baseGeneration := d];
      }
    }

    /** A linear chain submitted position by position in the order `subs`, whatever VPP answers: what is merged
        and buffered is what the protocol says, and once every position was submitted without finding the buffer
        full, the whole chain is merged in order, nothing is buffered and the last generation is applied. */
    method SubmitAll(chain: seq<Delta>, subs: seq<nat>)
      requires Valid() && (forall d | d in chain :: Applicable(d, agent.recon.parse))
      requires forall k | 0 <= k < |subs| :: subs[k] < |chain|
      modifies this, agent, agent.store, agent.recon`polIdx, agent.recon`polSnap, agent.recon`actPol,
               agent.recon`actSess, agent.recon`lastGen, agent.recon`poolIds, agent.recon.vpp`policers,
               agent.recon.vpp`tables, agent.recon.vpp`next, agent.recon.vpp`sessions
      ensures Valid() && Standing(agent.recon) == old(Standing(agent.recon))
      ensures Q.Keyed(old(View())) && View() == Q.Deliver(old(View()), chain, subs, max)
      ensures Q.Fresh(old(View())) && Q.Linear(chain, old(agent.recon.lastGen)) && Q.Complete(subs, |chain|) &&
              Q.FitsBuffer(subs, |chain|, max) ==>
                && pending == map[] && agent.merged == old(agent.merged) + chain
                && agent.store.Value() == Q.Fold(old(agent.store.Value()), chain)
                && agent.recon.lastGen == Q.GenAt(chain, old(agent.recon.lastGen), |chain|)
    {
      ghost var v0 := View();
      assert Q.Keyed(v0);
      hide Applicable, Tracks, GoodTables, GoodLinks, GoodSessions, GoodPolicers, Managed, Step, Q.Submit, Q.Deliver,
           Q.Fold, Q.GenAt, Q.Linear, Q.FitsBuffer, Q.Complete;
      assert subs[..0] == [];
      Q.DeliverNone(v0, chain, max);
      for i := 0 to |subs|
        invariant Valid() && Standing(agent.recon) == old(Standing(agent.recon))
        invariant View() == Q.Deliver(v0, chain, subs[..i], max)
      {
        assert chain[subs[i]] in chain;
        Q.DeliverNext(v0, chain, subs, max, i);
        Submit(chain[subs[i]]);
      }
      assert subs[..|subs|] == subs;
      if Q.Fresh(v0) && Q.Linear(chain, v0.lastGen) && Q.Complete(subs, |chain|) && Q.FitsBuffer(subs, |chain|, max) {
        Q.AnyOrderIsInOrder(v0, chain, subs, max);
      }
    }

    /** Drops buffered deltas whose base the chain has passed. */
    method EvictPassed(base: nat)
      requires Valid() && base == agent.recon.lastGen
      modifies this
      ensures Valid() && View() == Q.Evict(old(View()))
    {
      var todo := pending.Keys;
      ghost var p0 := pending;
      while todo != {}
        invariant todo <= p0.Keys
        invariant forall k :: k in pending <==> k in p0 && (k in todo || k >= base)
        invariant forall k | k in pending :: pending[k] == p0[k]
      {
        var k :| k in todo;
        if k < base { pending := pending - {k}; }
        todo := todo - {k};
      }
      assert pending == map k | k in p0 && k >= base :: p0[k];
    }
  }
}
