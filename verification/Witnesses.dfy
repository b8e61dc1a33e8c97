/** Inputs at which the agent falls short of what it is meant to do, and where the hypotheses of the main
    results hold together. Each lemma is about one literal desired state, delta and VPP. */
module Witnesses {
  import opened Model
  import opened Desired
  import opened VppApi
  import opened Plan
  import opened DeltaPlan
  import opened DeltaFits
  import opened Agent
  import B = Bindings
  import C = Classify
  import P = DeltaPath
  import Q = Sequencer
  import S = Store

  // ----- two pools, one member ------------------------------------------------------------------------

  // The names are functions so that proofs need not look into the strings.
  function NA(): (n: string) { "a/p" }
  function NB(): (n: string)
    ensures n != NA()
  {
    assert "b/p"[0] != NA()[0];
    "b/p"
  }
  function PA(): (p: PoolID) { "a" }
  function PB(): (p: PoolID)
    ensures p != PA()
  {
    assert "b"[0] != PA()[0];
    "b"
  }

  function PoolOf(name: string): (r: Option<PoolID>) {
    if name == NA() then Some(PA()) else if name == NB() then Some(PB()) else None
  }

  function SpecA(): (s: PolicerSpec)
    ensures s.name == NA() && s.poolID == PA() && s.rateType == Kbps
  {
    PolicerSpec(NA(), PA(), 1000, Kbps, 4000, 0, false, Transmit, Drop)
  }

  function SpecB(): (s: PolicerSpec)
    ensures s.name == NB() && s.poolID == PB() && s.rateType == Kbps
  {
    PolicerSpec(NB(), PB(), 2000, Kbps, 8000, 0, false, Transmit, Drop)
  }

  /** 1000 packets a second with a burst of 500: sent as 500 ms, compared as 750000 bytes. */
  function SpecPps(): (s: PolicerSpec)
    ensures s.name == NA() && s.poolID == PA()
  {
    PolicerSpec(NA(), PA(), 1000, Pps, 750000, 500, false, Transmit, Drop)
  }

  const HOST: Prefix := Prefix(V4([10, 0, 0, 1]), 32)

  /** 10.0.0.1 as a member of a pool. */
  function Member(pool: PoolID, policer: string): (s: Session) {
    var s := ClassifySession(pool, IP4Dst32, HOST, policer);
    assert CanonicalSession(s) by { HostIsCanonical(); }
    s
  }

  lemma HostIsCanonical()
    ensures C.SessionKey(IP4Dst32, HOST).Some?
    ensures C.Canonical(C.SessionAddr(C.SpecOf(IP4Dst32).value, HOST).value, C.SpecOf(IP4Dst32).value.maskBits)
  {
    hide C.AddrBit;
  }

  function HostKey(): (k: SKey) { SK(Member(PA(), NA())) }

  lemma MemberKey(pool: PoolID, policer: string)
    ensures SK(Member(pool, policer)) == HostKey() && Keyed(Member(pool, policer))
  {
    HostIsCanonical();
    hide C.Canonical, C.SessionKey;
  }

  function Desire(policers: seq<PolicerSpec>, sessions: seq<Session>): (st: State) {
    State(1, 1, 0, policers, sessions, [], [], NoAddr, NoAddr)
  }

  function Upsert(pool: PoolID, policers: seq<PolicerSpec>, sessions: seq<Session>): (u: PoolDelta) {
    PoolDelta(pool, policers, sessions, [], [], NoAddr, NoAddr)
  }

  function DeltaOf(ups: seq<PoolDelta>): (d: Delta) { Delta(1, 2, 0, 0, ups, []) }

  function LiveA(): (p: LivePolicer) { LivePolicer(7, ConfOf(SpecA())) }
  function LiveB(): (p: LivePolicer) { LivePolicer(9, ConfOf(SpecB())) }

  lemma ByNames()
    ensures ByName([]) == map[] && ByName([SpecA()]) == map[NA() := SpecA()] &&
            ByName([SpecB()]) == map[NB() := SpecB()]
    ensures ByName([SpecA(), SpecB()]) == map[NA() := SpecA(), NB() := SpecB()]
    ensures ByName([SpecB(), SpecA()]) == map[NA() := SpecA(), NB() := SpecB()]
    ensures ByName([SpecPps()]) == map[NA() := SpecPps()]
  {
    hide NA, NB, PA, PB, SpecA, SpecB, SpecPps, ConfOf;
    assert [SpecA()][..0] == [] && [SpecB()][..0] == [] && [SpecPps()][..0] == [];
    assert [SpecA(), SpecB()][..1] == [SpecA()] && [SpecB(), SpecA()][..1] == [SpecB()];
  }

  lemma OneGoal(s: Session, idx: map<string, nat>)
    requires s.policerName in idx
    ensures Goal([s], idx) == map[SK(s) := idx[s.policerName]]
  {
    hide SK;
    assert [s][..0] == [];
  }

  lemma NoGoal(idx: map<string, nat>)
    ensures Goal([], idx) == map[] && Keys([]) == {}
  {
  }

  // A delta with one upsert.

  lemma OneUpsert(u: PoolDelta, st: State)
    ensures Touched(DeltaOf([u])) == {u.poolID} && Removed(DeltaOf([u])) == {}
    ensures Flatten(DeltaOf([u]).upserts, UpPolicers) == u.policers &&
            Flatten(DeltaOf([u]).upserts, UpSessions) == u.sessions
    ensures MergeState(st, DeltaOf([u])).policers == FilterOut(st.policers, {u.poolID}, PolicerPool) + u.policers
    ensures MergeState(st, DeltaOf([u])).sessions == FilterOut(st.sessions, {u.poolID}, SessionPool) + u.sessions
  {
    hide FilterOut, TouchedPrefixes, LastHop;
    FlattenOne(u, UpPolicers);
    FlattenOne(u, UpSessions);
    hide Flatten;
    assert [u][0] in [u];
    assert Touched(DeltaOf([u])) == {u.poolID};
  }

  lemma FlattenOne<T>(u: PoolDelta, field: PoolDelta -> seq<T>)
    ensures Flatten([u], field) == field(u)
  {
    assert [u][..0] == [];
    assert Flatten([], field) == [];
    assert Flatten([u], field) == Flatten([u][..0], field) + field(u);
  }

  lemma OneApplied(prev: seq<Session>, u: PoolDelta, ps0: map<string, LivePolicer>, idx0: map<string, nat>,
                   s0: map<SKey, nat>,
                   ps: map<string, LivePolicer>, idx: map<string, nat>)
    requires PolicersUpserted(ps0, idx0, u.policers, ps, idx)
    ensures Applied(prev, DeltaOf([u]), PoolOf, ps0, idx0, s0, ps, idx, UpsertEffect(s0, prev, u, idx))
  {
    var d := DeltaOf([u]);
    hide PolicersUpserted, UpsertEffect, PoolOf, Flatten;
    FlattenOne(u, UpPolicers);
    assert Removed(d) == {};
    assert RemovedNames(idx0, d, PoolOf) == {} && ps0 - {} == ps0 && idx0 - {} == idx0;
    assert KeysOf(prev, Removed(d)) == {} && s0 - {} == s0;
    AfterOne(s0, prev, u, idx);
  }

  lemma AfterOne(s0: map<SKey, nat>, prev: seq<Session>, u: PoolDelta, idx: map<string, nat>)
    ensures AfterUpserts(s0, prev, [u], idx) == UpsertEffect(s0, prev, u, idx)
  {
    hide UpsertEffect;
    assert [u][..0] == [];
    assert AfterUpserts(s0, prev, [], idx) == s0;
  }

  lemma FilterNone(drop: set<PoolID>)
    ensures var none: seq<Session> := []; FilterOut(none, drop, SessionPool) == []
  {
  }

  lemma FilterOne(s: PolicerSpec, drop: set<PoolID>)
    ensures FilterOut([s], drop, PolicerPool) == if s.poolID in drop then [] else [s]
  {
    assert [s][..0] == [];
  }

  lemma NoEffect(u: PoolDelta, idx: map<string, nat>)
    requires u.sessions == []
    ensures UpsertEffect(map[], [], u, idx) == map[]
  {
    NoGoal(idx);
  }

  // VPP with pool a's policer only, and with both.

  function LiveOnlyA(): (ps: map<string, LivePolicer>) { map[NA() := LiveA()] }
  function KnownOnlyA(): (idx: map<string, nat>) { map[NA() := 7] }
  function BothLive(): (ps: map<string, LivePolicer>) { map[NA() := LiveA(), NB() := LiveB()] }
  function BothKnown(): (idx: map<string, nat>) { map[NA() := 7, NB() := 9] }

  lemma OnlyATracked()
    ensures Tracks(KnownOnlyA(), LiveOnlyA(), PoolOf) && Managed(LiveOnlyA(), PoolOf) == {NA()}
    ensures WellFormed(Desire([SpecA()], []), PoolOf)
    ensures Synced(Desire([SpecA()], []), LiveOnlyA(), map[], KnownOnlyA(), PoolOf)
  {
    hide NA, NB, PA, PB, SpecA, SpecB, SpecPps, ConfOf;
    ByNames();
    NoGoal(KnownOnlyA());
    hide ByName, Goal;
  }

  lemma BothTracked()
    ensures Tracks(BothKnown(), BothLive(), PoolOf) && Managed(BothLive(), PoolOf) == {NA(), NB()}
  {
    hide NA, NB, PA, PB, SpecA, SpecB, SpecPps, ConfOf;
  }

  // ----- the fast path ------------------------------------------------------------------------------------

  /** An upsert that drops its pool's policer leaves it in VPP: in sync before, not after. */
  lemma DroppedPolicerStays()
    ensures var st, d := Desire([SpecA()], []), DeltaOf([Upsert(PA(), [], [])]);
            && WellFormed(st, PoolOf) && OwnIds(d) && WellFormed(MergeState(st, d), PoolOf)
            && Synced(st, LiveOnlyA(), map[], KnownOnlyA(), PoolOf) && Tracks(KnownOnlyA(), LiveOnlyA(), PoolOf)
            && Applied(st.sessions, d, PoolOf, LiveOnlyA(), KnownOnlyA(), map[], LiveOnlyA(), KnownOnlyA(), map[])
            && !Synced(MergeState(st, d), LiveOnlyA(), map[], KnownOnlyA(), PoolOf)
  {
    hide NA, NB, PA, PB, SpecA, SpecB, SpecPps, ConfOf, Tracks, Managed, Goal, Applied, MergeState, AsSent, LiveOnlyA,
         KnownOnlyA;
    OnlyATracked();
    ByNames();
    hide ByName;
    DroppedMerges();
    DroppedApplied();
  }

  lemma DroppedMerges()
    ensures var m := MergeState(Desire([SpecA()], []), DeltaOf([Upsert(PA(), [], [])]));
              m.policers == [] && m.sessions == []
  {
    hide NA, NB, PA, PB, SpecA, SpecB, SpecPps, ConfOf, MergeState, FilterOut;
    OneUpsert(Upsert(PA(), [], []), Desire([SpecA()], []));
    FilterOne(SpecA(), {PA()});
    FilterNone({PA()});
  }

  lemma DroppedApplied()
    ensures Applied([], DeltaOf([Upsert(PA(), [], [])]), PoolOf, LiveOnlyA(), KnownOnlyA(), map[], LiveOnlyA(),
                    KnownOnlyA(), map[])
  {
    hide NA, PA, LiveOnlyA, KnownOnlyA, Applied, PolicersUpserted;
    var u := Upsert(PA(), [], []);
    P.UpsertedNone(LiveOnlyA(), KnownOnlyA());
    OneApplied([], u, LiveOnlyA(), KnownOnlyA(), map[], LiveOnlyA(), KnownOnlyA());
    NoEffect(u, KnownOnlyA());
  }

  // Pool b claims 10.0.0.1 in the same delta in which pool a gives it up, and is listed first.

  function ClaimState(): (st: State) { Desire([SpecA(), SpecB()], [Member(PA(), NA())]) }
  function ClaimDelta(): (d: Delta) {
    DeltaOf([Upsert(PB(), [SpecB()], [Member(PB(), NB())]), Upsert(PA(), [SpecA()], [])])
  }

  lemma ClaimFlat()
    ensures Touched(ClaimDelta()) == {PA(), PB()} && Removed(ClaimDelta()) == {}
    ensures Flatten(ClaimDelta().upserts, UpPolicers) == [SpecB(), SpecA()]
    ensures Flatten(ClaimDelta().upserts, UpSessions) == [Member(PB(), NB())]
  {
    hide NA, NB, PA, PB, SpecA, SpecB, SpecPps, ConfOf;
    var d, ups := ClaimDelta(), ClaimDelta().upserts;
    assert ups[0] in ups && ups[1] in ups;
    assert ups[..1] == [ups[0]] && ups[..1][..0] == [];
    assert Flatten(ups[..1], UpPolicers) == [SpecB()];
    assert Flatten(ups[..1], UpSessions) == [Member(PB(), NB())];
  }

  lemma ClaimMerges()
    ensures MergeState(ClaimState(), ClaimDelta()).policers == [SpecB(), SpecA()]
    ensures MergeState(ClaimState(), ClaimDelta()).sessions == [Member(PB(), NB())]
  {
    hide NA, NB, PA, PB, SpecA, SpecB, ConfOf, Member, Flatten, Touched, TouchedPrefixes, LastHop, FilterOut;
    ClaimFlat();
    ClaimDrops();
    hide ClaimState, ClaimDelta;
  }

  lemma ClaimDrops()
    ensures FilterOut(ClaimState().policers, {PA(), PB()}, PolicerPool) == []
    ensures FilterOut(ClaimState().sessions, {PA(), PB()}, SessionPool) == []
  {
    hide NA, NB, PA, PB, SpecA, SpecB, ConfOf, Member;
    var drop := {PA(), PB()};
    FilterOne(SpecA(), drop);
    assert [SpecA(), SpecB()][..1] == [SpecA()];
    assert FilterOut([SpecA(), SpecB()], drop, PolicerPool) == [];
    ClaimStateMembers();
    FilterNone(drop);
    assert FilterOut(ClaimState().sessions, drop, SessionPool) == [];
  }

  lemma ClaimStateMembers()
    ensures ClaimState().sessions == [Member(PA(), NA())] && Member(PA(), NA()).poolID == PA() &&
            [Member(PA(), NA())][..0] == []
  {
  }

  lemma BothWellFormed(policers: seq<PolicerSpec>, pool: PoolID, policer: string)
    requires policers == [SpecA(), SpecB()] || policers == [SpecB(), SpecA()]
    requires (pool == PA() && policer == NA()) || (pool == PB() && policer == NB())
    ensures WellFormed(Desire(policers, [Member(pool, policer)]), PoolOf)
  {
    hide NA, NB, PA, PB, SpecA, SpecB, SpecPps, ConfOf;
    hide SK;
    ByNames();
    hide ByName;
  }

  lemma ClaimWellFormed()
    ensures WellFormed(ClaimState(), PoolOf) && OwnIds(ClaimDelta()) &&
            WellFormed(MergeState(ClaimState(), ClaimDelta()), PoolOf)
  {
    hide NA, NB, PA, PB, SpecA, SpecB, SpecPps, ConfOf, MergeState, WellFormed, OwnIds, Member, ClaimDelta;
    ClaimMerges();
    ClaimOwnIds();
    BothWellFormed([SpecA(), SpecB()], PA(), NA());
    BothWellFormed([SpecB(), SpecA()], PB(), NB());
    SameWellFormed(Desire([SpecB(), SpecA()], [Member(PB(), NB())]), MergeState(ClaimState(), ClaimDelta()));
  }

  lemma ClaimOwnIds()
    ensures OwnIds(ClaimDelta())
  {
    hide NA, NB, PA, PB, SpecA, SpecB, ConfOf;
    var d := ClaimDelta();
    assert d.upserts[0].poolID == PB() && d.upserts[1].poolID == PA();
  }

  lemma SameWellFormed(a: State, b: State)
    requires WellFormed(a, PoolOf) && a.policers == b.policers && a.sessions == b.sessions
    ensures WellFormed(b, PoolOf)
  {
  }

  lemma ClaimSynced()
    ensures Synced(ClaimState(), BothLive(), map[HostKey() := 7], BothKnown(), PoolOf)
  {
    hide NA, NB, PA, PB, SpecA, SpecB, SpecPps, ConfOf;
    hide SK, Goal, Tracks, Managed, HostKey;
    ByNames();
    hide ByName;
    BothTracked();
    MemberKey(PA(), NA());
    OneGoal(Member(PA(), NA()), BothKnown());
  }

  lemma ClaimApplied()
    ensures Applied(ClaimState().sessions, ClaimDelta(), PoolOf, BothLive(), BothKnown(), map[HostKey() := 7],
                    BothLive(), BothKnown(), map[])
  {
    hide NA, NB, PA, PB, SpecA, SpecB, SpecPps, ConfOf;
    hide Member, Flatten, Touched, HostKey, PoolOf, KeysOf, AfterUpserts;
    ClaimFlat();
    ClaimEffect();
    ByNames();
    hide ByName, ClaimDelta, ClaimState;
    var d, ps, idx := ClaimDelta(), BothLive(), BothKnown();
    assert RemovedNames(idx, d, PoolOf) == {} && ps - {} == ps && idx - {} == idx;
    assert PolicersUpserted(ps, idx, [SpecB(), SpecA()], ps, idx);
  }

  lemma ClaimEffect()
    ensures AfterUpserts(map[HostKey() := 7] - KeysOf(ClaimState().sessions, Removed(ClaimDelta())),
                         ClaimState().sessions, ClaimDelta().upserts, BothKnown()) == map[]
  {
    hide NA, NB, PA, PB, SpecA, SpecB, SpecPps, ConfOf;
    var st, d, idx := ClaimState(), ClaimDelta(), BothKnown();
    var x, y, k := Member(PA(), NA()), Member(PB(), NB()), HostKey();
    MemberKey(PA(), NA());
    MemberKey(PB(), NB());
    OneGoal(y, idx);
    NoGoal(idx);
    hide SK, HostKey, Goal;
    var s0: map<SKey, nat> := map[k := 7];
    assert Removed(d) == {} && KeysOf(st.sessions, Removed(d)) == {} && s0 - {} == s0;
    var ups := d.upserts;
    assert ups[..1] == [ups[0]] && ups[..1][..0] == [];
    assert x in st.sessions && KeysOf(st.sessions, {PB()}) == {} && KeysOf(st.sessions, {PA()}) == {k};
    var s1 := UpsertEffect(s0, st.sessions, ups[0], idx);
    assert s1 == map[k := 9];
    assert AfterUpserts(s0, st.sessions, ups[..1], idx) == s1;
    assert UpsertEffect(s1, st.sessions, ups[1], idx) == map[];
  }

  /** An upsert that claims a member before its old pool's upsert is applied loses it: desired by the merged
      state, installed nowhere. */
  lemma EarlyClaimLosesMember()
    ensures var st, d := ClaimState(), ClaimDelta();
            && WellFormed(st, PoolOf) && OwnIds(d) && WellFormed(MergeState(st, d), PoolOf)
            && Synced(st, BothLive(), map[HostKey() := 7], BothKnown(), PoolOf)
            && Tracks(BothKnown(), BothLive(), PoolOf)
            && Applied(st.sessions, d, PoolOf, BothLive(), BothKnown(), map[HostKey() := 7], BothLive(), BothKnown(),
                       map[])
            && MergeState(st, d).sessions == [Member(PB(), NB())]
            && !Synced(MergeState(st, d), BothLive(), map[], BothKnown(), PoolOf)
  {
    hide NA, NB, PA, PB, SpecA, SpecB, SpecPps, ConfOf;
    hide WellFormed, OwnIds, MergeState, Applied, Tracks, SK, Goal, PolicersSynced, ClaimState, ClaimDelta;
    ClaimWellFormed();
    ClaimSynced();
    BothTracked();
    ClaimApplied();
    ClaimMerges();
    OneGoal(Member(PB(), NB()), BothKnown());
    assert SK(Member(PB(), NB())) in Goal([Member(PB(), NB())], BothKnown());
  }

  // Pool a is removed twice, or removed and upserted without its member, in one delta.

  function TwiceDelta(): (d: Delta) { Delta(1, 2, 0, 0, [], [PA(), PA()]) }
  function ReplaceDelta(): (d: Delta) { Delta(1, 2, 0, 0, [Upsert(PA(), [SpecA()], [])], [PA()]) }

  lemma FilterBoth()
    ensures FilterOut([SpecA(), SpecB()], {PA()}, PolicerPool) == [SpecB()]
    ensures FilterOut([Member(PA(), NA())], {PA()}, SessionPool) == []
  {
    hide NA, NB, PA, PB, SpecA, SpecB, ConfOf;
    assert [SpecA(), SpecB()][..1] == [SpecA()];
    FilterOne(SpecA(), {PA()});
    assert Member(PA(), NA()).poolID == PA() && [Member(PA(), NA())][..0] == [];
    FilterNone({PA()});
  }

  lemma TwiceMerges()
    ensures var m := MergeState(ClaimState(), TwiceDelta()); m.policers == [SpecB()] && m.sessions == []
  {
    hide NA, NB, PA, PB, SpecA, SpecB, ConfOf, Member, FilterOut, TouchedPrefixes, LastHop;
    FilterBoth();
    assert PA() in TwiceDelta().removed;
    assert Touched(TwiceDelta()) == {PA()};
  }

  lemma ReplaceMerges()
    ensures var m := MergeState(ClaimState(), ReplaceDelta()); m.policers == [SpecB(), SpecA()] && m.sessions == []
  {
    hide NA, NB, PA, PB, SpecA, SpecB, ConfOf, Member, FilterOut, TouchedPrefixes, LastHop;
    FilterBoth();
    var u := Upsert(PA(), [SpecA()], []);
    FlattenOne(u, UpPolicers);
    FlattenOne(u, UpSessions);
    hide Flatten;
    assert PA() in ReplaceDelta().removed;
    assert Touched(ReplaceDelta()) == {PA()};
  }

  lemma NoMembersWellFormed(m: State)
    requires (m.policers == [SpecB()] || m.policers == [SpecB(), SpecA()]) && m.sessions == []
    ensures WellFormed(m, PoolOf)
  {
    hide NA, NB, PA, PB, SpecA, SpecB, ConfOf, ByName;
  }

  /** Two well-formed deltas that even a VPP in sync and refusing nothing possible cannot take, because each
      deletes a session that is already gone. */
  lemma RemovedMemberIsMissed(tables: map<MaskKind, nat>, accepts: PolicerSpec -> bool)
    requires GoodSessions(map[HostKey() := 7], tables)
    ensures forall d | d == TwiceDelta() || d == ReplaceDelta() ::
              && WellFormed(ClaimState(), PoolOf) && OwnIds(d) && WellFormed(MergeState(ClaimState(), d), PoolOf)
              && Synced(ClaimState(), BothLive(), map[HostKey() := 7], BothKnown(), PoolOf)
              && !P.Fits(ClaimState().sessions, d, PoolOf, BothKnown(), map[HostKey() := 7], tables.Keys, accepts)
  {
    hide NA, NB, PA, PB, SpecA, SpecB, ConfOf, MergeState, WellFormed, Synced, GoodSessions, P.Fits, HostKey, ByName;
    TwiceMerges();
    ReplaceMerges();
    ClaimWellFormed();
    ClaimSynced();
    forall d | d == TwiceDelta() || d == ReplaceDelta()
      ensures OwnIds(d) && WellFormed(MergeState(ClaimState(), d), PoolOf)
      ensures !P.Fits(ClaimState().sessions, d, PoolOf, BothKnown(), map[HostKey() := 7], tables.Keys, accepts)
    {
      NoMembersWellFormed(MergeState(ClaimState(), d));
      FitsIff(ClaimState(), d, PoolOf, BothLive(), map[HostKey() := 7], BothKnown(), tables, accepts);
      NotDoable(d, accepts);
    }
  }

  lemma NotDoable(d: Delta, accepts: PolicerSpec -> bool)
    requires d == TwiceDelta() || d == ReplaceDelta()
    ensures !Doable(ClaimState().sessions, d, accepts)
  {
    hide NA, NB, PA, PB, SpecA, SpecB, ConfOf, SK;
    ClaimStateMembers();
    var x := ClaimState().sessions[0];
    assert x in ClaimState().sessions && x.poolID == PA();
    if d == TwiceDelta() {
      assert d.removed[..1] == [PA()] && PA() in d.removed[..1] && x.poolID == d.removed[1];
    } else {
      NoGoal(map[]);
      assert x.poolID == d.upserts[0].poolID && x.poolID == d.removed[0];
      assert SK(x) !in Keys(d.upserts[0].sessions) && !ListedBefore(SK(x), d.upserts, 0);
    }
  }

  // A full pass lands on the generation a buffered delta builds on.

  function StepDelta(from: nat): (d: Delta) { Delta(from, from + 1, 0, 0, [], []) }

  /** The delta from 2 to 3 overtakes the one from 1 to 2 and waits; a full pass then brings the agent to 2. Nothing
      is left to arrive, yet the waiting delta is not merged, nor is any later one. */
  lemma JumpStrandsDelta(held: S.Held, later: seq<nat>)
    requires held.state.Some? && forall k | 0 <= k < |later| :: later[k] > 2
    ensures var c := Q.Submit(Q.Chain(map[], 1, held, []), StepDelta(2), 512);
            var landed := Q.Jump(c, 2, held);
            && c.pending == map[2 := StepDelta(2)] && c.merged == [] && Q.Keyed(landed)
            && Submitted(landed, later).lastGen == 2 && Submitted(landed, later).merged == []
  {
    var c := Q.Submit(Q.Chain(map[], 1, held, []), StepDelta(2), 512);
    assert c.pending == map[2 := StepDelta(2)];
    hide Q.Submit;
    NothingMoves(Q.Jump(c, 2, held), later);
  }

  /** Deltas of one step each, submitted one after the other. */
  function Submitted(c: Q.Chain, from: seq<nat>): (r: Q.Chain)
    requires Q.Keyed(c)
    ensures Q.Keyed(r)
  {
    if from == [] then c else Q.Submit(Submitted(c, from[..|from| - 1]), StepDelta(from[|from| - 1]), 512)
  }

  lemma {:induction false} NothingMoves(c: Q.Chain, from: seq<nat>)
    requires Q.Keyed(c) && forall k | 0 <= k < |from| :: from[k] != c.lastGen
    ensures Submitted(c, from).lastGen == c.lastGen && Submitted(c, from).merged == c.merged
  {
    hide Q.Drain, Q.ApplyOne;
    if from != [] { NothingMoves(c, from[..|from| - 1]); }
  }

  // ----- full passes ---------------------------------------------------------------------------------------

  /** A pps policer is off from the moment it is written. */
  lemma PpsDrifts()
    ensures !Steady(SpecPps()) && Drifted(SpecPps(), InfoOf(LivePolicer(7, ConfOf(SpecPps())))) &&
            !OnRate(SpecPps(), LivePolicer(7, ConfOf(SpecPps()))) && ConfOf(SpecPps()).cb == 500
  {
  }

  function LivePps(): (ps: map<string, LivePolicer>) { map[NA() := LivePolicer(7, ConfOf(SpecPps()))] }

  lemma PpsTracked()
    ensures WellFormed(Desire([SpecPps()], []), PoolOf) && Tracks(KnownOnlyA(), LivePps(), PoolOf) &&
            Managed(LivePps(), PoolOf) == {NA()}
  {
    hide NA, NB, PA, PB, SpecPps, ConfOf;
    ByNames();
  }

  /** So a second pass over it rewrites it again, as will every later one. */
  lemma PpsIsNeverQuiet()
    ensures var d, idx := Desire([SpecPps()], []), KnownOnlyA();
            && WellFormed(d, PoolOf) && RelearnStep(d, idx, map[]) == idx
            && Converged(d, PoolOf, map[], map[], LivePps(), idx, map[])
            && Converged(d, PoolOf, LivePps(), idx, LivePps(), idx, map[])
            && Reports(d, PoolOf, LivePps(), idx, map[], map[], 0, 1, 0, SessionCounts(0, 0, 0))
  {
    PpsDrifts();
    hide NA, NB, PA, PB, SpecPps, ConfOf, Drifted, OnRate, Tracks, Managed, WellFormed;
    PpsTracked();
    ByNames();
    NoGoal(KnownOnlyA());
    hide ByName, Goal;
    assert forall n | PoolOf(n).None? :: n !in LivePps();
    hide PoolOf;
    assert OffRate(ByName([SpecPps()]), LivePps(), KnownOnlyA()) == {NA()};
    assert MovedKeys(map[], map[]) == {};
  }

  /** Pool a's policer as VPP might hold it: right rate and burst, but letting excess traffic through. */
  function LaxA(): (ps: map<string, LivePolicer>) { map[NA() := LivePolicer(7, ConfOf(SpecA()).(exceed := Transmit))] }

  lemma LaxReadsBack()
    ensures !Drifted(SpecA(), InfoOf(LaxA()[NA()])) && OnRate(SpecA(), LaxA()[NA()])
    ensures LaxA()[NA()].conf != ConfOf(SpecA())
  {
  }

  lemma LaxTracked()
    ensures Tracks(KnownOnlyA(), LaxA(), PoolOf) && Managed(LaxA(), PoolOf) == {NA()}
  {
    hide NA, NB, PA, PB, SpecA, ConfOf;
  }

  /** A full pass does not see it: it completes, reports nothing, finds everything in place, and excess traffic
      keeps passing. A delta upserting the pool would rewrite it. */
  lemma LaxPolicerStays()
    ensures var d, idx := Desire([SpecA()], []), KnownOnlyA();
            && WellFormed(d, PoolOf) && RelearnStep(d, idx, map[]) == idx
            && Converged(d, PoolOf, LaxA(), idx, LaxA(), idx, map[])
            && Reports(d, PoolOf, LaxA(), idx, map[], map[], 0, 0, 0, SessionCounts(0, 0, 0))
            && InPlace(d, LaxA(), map[], idx, PoolOf)
            && !AsSent(ByName(d.policers), LaxA()) && !Synced(d, LaxA(), map[], idx, PoolOf)
  {
    LaxReadsBack();
    LaxTracked();
    hide NA, NB, PA, PB, SpecA, ConfOf, Drifted, OnRate, Tracks, Managed;
    OnlyATracked();
    ByNames();
    NoGoal(KnownOnlyA());
    hide ByName, Goal, WellFormed;
    assert forall n | PoolOf(n).None? :: n !in LaxA();
    hide PoolOf;
    assert OffRate(ByName([SpecA()]), LaxA(), KnownOnlyA()) == {};
    assert MovedKeys(map[], map[]) == {};
  }

  function ClaimingState(): (st: State) { Desire([SpecA(), SpecB()], [Member(PB(), NB())]) }

  lemma HostTable()
    ensures var tables: map<MaskKind, nat> := map[IP4Dst32 := 3];
            GoodTables(tables) && GoodLinks(tables, map[3 := NO_TABLE]) && GoodSessions(map[HostKey() := 7], tables)
  {
    HostIsCanonical();
    CanonicalIsTableKey(IP4Dst32, HOST);
    hide TableKey, C.Canonical, C.SessionKey;
    assert HostKey() == (IP4Dst32, C.SessionKey(IP4Dst32, HOST).value);
  }

  /** A new pool claims an installed member. The relearn step takes the old pool's index for the new policer:
      an index map that was right no longer is, and stays so when the dump that follows fails. A pass that
      completes is not harmed: it adds the new policer and overwrites the index. */
  lemma ClaimUnsettlesIndexes()
    ensures var d, s := ClaimingState(), map[HostKey() := 7];
            && WellFormed(d, PoolOf) && Tracks(KnownOnlyA(), LiveOnlyA(), PoolOf) && GoodSessions(s, map[IP4Dst32 := 3])
            && RelearnStep(d, KnownOnlyA(), s) == KnownOnlyA()[NB() := 7]
            && !Sound(RelearnStep(d, KnownOnlyA(), s), LiveOnlyA())
            && Usable(RelearnStep(d, KnownOnlyA(), s), LiveOnlyA(), ByName(d.policers).Keys)
  {
    hide NA, NB, PA, PB, SpecA, SpecB, SpecPps, ConfOf, RelearnStep, WellFormed, GoodSessions, Tracks, HostKey, Managed,
         Synced;
    BothWellFormed([SpecA(), SpecB()], PB(), NB());
    HostTable();
    OnlyATracked();
    ByNames();
    hide ByName;
    LearnsFromHost(KnownOnlyA());
    var r := RelearnStep(ClaimingState(), KnownOnlyA(), map[HostKey() := 7]);
    assert NB() in r && NB() !in LiveOnlyA();
  }

  lemma LearnsFromHost(idx: map<string, nat>)
    requires NB() !in idx
    ensures RelearnStep(ClaimingState(), idx, map[HostKey() := 7]) == idx[NB() := 7]
  {
    hide NA, NB, PA, PB, SpecA, SpecB, SpecPps, ConfOf;
    var d, y, s := ClaimingState(), Member(PB(), NB()), map[HostKey() := 7];
    MemberKey(PB(), NB());
    hide SK, Keyed, HostKey;
    assert SpecB() in d.policers;
    assert d.sessions == [y] && d.sessions[..0] == [];
    assert Relearn([], idx, s) == idx;
    assert Relearn(d.sessions, idx, s) == idx[NB() := 7];
  }

  /** After an agent restart, with the member moved meanwhile to a policer VPP also has, the relearned index
      is the wrong policer's: a completed pass does not converge. */
  lemma MoveDuringRestartMisleads()
    ensures var d, s := ClaimingState(), map[HostKey() := 7];
            && WellFormed(d, PoolOf) && Tracks(map[], BothLive(), PoolOf) && GoodSessions(s, map[IP4Dst32 := 3])
            && RelearnStep(d, map[], s) == map[NB() := 7]
            && !Usable(RelearnStep(d, map[], s), BothLive(), ByName(d.policers).Keys)
  {
    hide NA, NB, PA, PB, SpecA, SpecB, SpecPps, ConfOf, RelearnStep, WellFormed, GoodSessions, HostKey, Managed;
    BothWellFormed([SpecA(), SpecB()], PB(), NB());
    HostTable();
    BothTracked();
    ByNames();
    hide ByName;
    LearnsFromHost(map[]);
    assert NB() in BothLive() && BothLive()[NB()].index == 9;
  }

  /** A family's only table with a leftover link is no chain; the agent takes it for one. */
  lemma LeftoverLinkIsNoChain()
    ensures var tables: map<MaskKind, nat>, next: map<nat, nat>, ts: seq<nat> := map[IP4Dst32 := 5], map[5 := 6], [5];
            GoodTables(tables) && B.Elems(ts) == B.FamilyTables(tables, C.IPv4) && !B.Chain(next, ts) &&
            !GoodLinks(tables, next)
  {
    var tables: map<MaskKind, nat> := map[IP4Dst32 := 5];
    assert IP4Dst32 in tables && Lone(tables, IP4Dst32);
    assert B.FamilyTables(tables, C.IPv4) == {5};
    var ts: seq<nat>, next: map<nat, nat> := [5], map[5 := 6];
    B.ChainOfOne(next, 5);
  }

  // ----- where everything holds ----------------------------------------------------------------------------

  // Pool b joins pool a.

  function JoinDelta(): (d: Delta) { DeltaOf([Upsert(PB(), [SpecB()], [])]) }

  lemma JoinMerges()
    ensures MergeState(Desire([SpecA()], []), JoinDelta()).policers == [SpecA(), SpecB()]
    ensures MergeState(Desire([SpecA()], []), JoinDelta()).sessions == [] && Touched(JoinDelta()) == {PB()}
    ensures Flatten(JoinDelta().upserts, UpPolicers) == [SpecB()]
  {
    hide NA, NB, PA, PB, SpecA, SpecB, SpecPps, ConfOf;
    OneUpsert(Upsert(PB(), [SpecB()], []), Desire([SpecA()], []));
    FilterOne(SpecA(), {PB()});
    hide MergeState, Touched, Flatten;
    FilterNone({PB()});
  }

  lemma JoinApplied()
    ensures Applied([], JoinDelta(), PoolOf, LiveOnlyA(), KnownOnlyA(), map[], BothLive(), BothKnown(), map[])
  {
    hide NA, NB, PA, PB, SpecA, SpecB, SpecPps, ConfOf, UpsertEffect;
    var u := Upsert(PB(), [SpecB()], []);
    ByNames();
    hide ByName;
    assert PolicersUpserted(LiveOnlyA(), KnownOnlyA(), [SpecB()], BothLive(), BothKnown());
    hide PolicersUpserted, Applied;
    OneApplied([], u, LiveOnlyA(), KnownOnlyA(), map[], BothLive(), BothKnown());
    NoEffect(u, BothKnown());
  }

  /** The hypotheses of the delta-then-full-pass theorem, met by a delta that adds a pool. */
  lemma JoinMeetsHypotheses()
    ensures var st, d := Desire([SpecA()], []), JoinDelta();
            var m := MergeState(st, d);
            && WellFormed(st, PoolOf) && OwnIds(d) && WellFormed(m, PoolOf) && AllSteady(m)
            && Synced(st, LiveOnlyA(), map[], KnownOnlyA(), PoolOf) && Tracks(BothKnown(), BothLive(), PoolOf)
            && Applied(st.sessions, d, PoolOf, LiveOnlyA(), KnownOnlyA(), map[], BothLive(), BothKnown(), map[])
            && NoDroppedPolicer(st, d) && NoEarlyClaim(st.sessions, d.upserts)
            && RelearnStep(m, BothKnown(), map[]) == BothKnown()
            && Converged(m, PoolOf, BothLive(), BothKnown(), BothLive(), BothKnown(), map[])
            && Reports(m, PoolOf, BothLive(), BothKnown(), map[], map[], 0, 0, 0, SessionCounts(0, 0, 0))
  {
    hide NA, NB, PA, PB, SpecA, SpecB, SpecPps, ConfOf, MergeState, Applied, Tracks, Managed, Flatten, Synced,
         Converged, Reports, RelearnStep, AllSteady;
    JoinMerges();
    JoinApplied();
    OnlyATracked();
    BothTracked();
    JoinQuiet(MergeState(Desire([SpecA()], []), JoinDelta()));
    JoinWellFormed(MergeState(Desire([SpecA()], []), JoinDelta()));
    JoinClean();
    hide WellFormed, OwnIds, NoDroppedPolicer, NoEarlyClaim;
  }

  lemma JoinWellFormed(m: State)
    requires m.policers == [SpecA(), SpecB()] && m.sessions == []
    ensures WellFormed(m, PoolOf)
  {
    hide NA, NB, PA, PB, SpecA, SpecB, ByName;
  }

  lemma JoinClean()
    ensures OwnIds(JoinDelta()) && NoDroppedPolicer(Desire([SpecA()], []), JoinDelta()) &&
            NoEarlyClaim([], JoinDelta().upserts)
  {
    hide NA, NB, PA, PB, SpecA, SpecB, ConfOf, MergeState, Flatten, Touched;
    JoinMerges();
    ByNames();
    hide ByName;
  }

  lemma JoinQuiet(m: State)
    requires m.policers == [SpecA(), SpecB()] && m.sessions == []
    ensures AllSteady(m) && RelearnStep(m, BothKnown(), map[]) == BothKnown()
    ensures Converged(m, PoolOf, BothLive(), BothKnown(), BothLive(), BothKnown(), map[])
    ensures Reports(m, PoolOf, BothLive(), BothKnown(), map[], map[], 0, 0, 0, SessionCounts(0, 0, 0))
  {
    NothingDrifted();
    hide NA, NB, PA, PB, SpecA, SpecB, Tracks, PoolOf, ConfOf, Drifted, OnRate;
    ByNames();
    hide ByName;
    JoinConverged(m);
    hide Converged;
    BothTracked();
    hide Managed;
    assert OffRate(ByName(m.policers), BothLive(), BothKnown()) == {};
    assert MovedKeys(map[], map[]) == {};
  }

  lemma JoinConverged(m: State)
    requires m.policers == [SpecA(), SpecB()] && m.sessions == []
    ensures Converged(m, PoolOf, BothLive(), BothKnown(), BothLive(), BothKnown(), map[])
  {
    NothingDrifted();
    hide NA, NB, PA, PB, SpecA, SpecB, Tracks, PoolOf, ConfOf, Drifted, OnRate;
    ByNames();
    NoGoal(BothKnown());
    BothTracked();
    hide ByName, Goal, Managed;
  }

  lemma NothingDrifted()
    ensures Steady(SpecA()) && !Drifted(SpecA(), InfoOf(LiveA())) && OnRate(SpecA(), LiveA())
    ensures Steady(SpecB()) && !Drifted(SpecB(), InfoOf(LiveB())) && OnRate(SpecB(), LiveB())
  {
  }
}
