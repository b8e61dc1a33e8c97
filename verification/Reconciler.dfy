/** The reconciler's full passes (internal/agent/reconcile.go) and the session diff that both paths share
    (internal/agent/classifydiff.go). */
module Reconcile {
  import opened Model
  import opened Desired
  import opened VppApi
  import opened Plan
  import C = Classify
  import B = Bindings
  import G = Guard

  datatype PassResult = PassResult(policers: PolicerCounts, sessions: SessionCounts, bindings: int,
                                   policersActual: int, sessionsActual: int)

  /** `Result.Empty`: the pass changed nothing. */
  predicate NoChange(r: PassResult) {
    r.policers == PolicerCounts(0, 0, 0) && r.sessions == SessionCounts(0, 0, 0) && r.bindings == 0
  }

  predicate EmptyDesired(d: State) { |d.policers| == 0 && |d.sessions| == 0 }

  datatype PolicerCounts = PolicerCounts(added: int, updated: int, deleted: int)
  datatype Change = Kept | Added | Updated

  ghost predicate Same<T>(n: string, a: map<string, T>, b: map<string, T>) {
    (n in a <==> n in b) && (n in a && n in b ==> a[n] == b[n])
  }

  /** Part-way through the desired policers: the ones in `todo` and the unwanted ones are untouched,
      the others settled. */
  ghost predicate Progress(want: map<string, PolicerSpec>, todo: set<string>,
                           ps0: map<string, LivePolicer>, idx0: map<string, nat>,
                           ps: map<string, LivePolicer>, idx: map<string, nat>)
  {
    && (forall n | n !in want || n in todo :: Same(n, ps, ps0) && Same(n, idx, idx0))
    && (forall n | n in want && n !in todo :: Settled(n, want[n], ps0, idx0, ps, idx))
  }

  lemma ProgressStep(want: map<string, PolicerSpec>, todo: set<string>, name: string,
                     ps0: map<string, LivePolicer>, idx0: map<string, nat>,
                     ps1: map<string, LivePolicer>, idx1: map<string, nat>,
                     ps: map<string, LivePolicer>, idx: map<string, nat>)
    requires Progress(want, todo, ps0, idx0, ps1, idx1) && todo <= want.Keys && name in todo
    requires ps - {name} == ps1 - {name} && idx - {name} == idx1 - {name}
    requires Settled(name, want[name], ps1, idx1, ps, idx)
    ensures Progress(want, todo - {name}, ps0, idx0, ps, idx)
  {
    assert Same(name, ps1, ps0) && Same(name, idx1, idx0);
    forall n | n != name ensures Same(n, ps, ps1) && Same(n, idx, idx1) {
      SameApart(ps, ps1, name, n);
      SameApart(idx, idx1, name, n);
    }
    forall n | n !in want || n in todo - {name} ensures Same(n, ps, ps0) && Same(n, idx, idx0) {
      assert Same(n, ps, ps1) && Same(n, idx, idx1) && Same(n, ps1, ps0) && Same(n, idx1, idx0);
    }
    forall n | n in want && n !in todo - {name} ensures Settled(n, want[n], ps0, idx0, ps, idx) {
      if n != name {
        assert Same(n, ps, ps1) && Same(n, idx, idx1);
        assert Settled(n, want[n], ps0, idx0, ps1, idx1);
      }
    }
  }

  /** The same on indexes alone, which holds even when a wrong index makes an update hit another policer. */
  ghost predicate SlotProgress(want: set<string>, todo: set<string>, at0: map<string, nat>, idx0: map<string, nat>,
                               at: map<string, nat>, idx: map<string, nat>)
  {
    && (forall n | n !in want || n in todo :: Same(n, at, at0) && Same(n, idx, idx0))
    && (forall n | n in want && n !in todo :: Placed(n, at0, idx0, at, idx))
  }

  lemma SlotStep(want: set<string>, todo: set<string>, name: string, at0: map<string, nat>, idx0: map<string, nat>,
                 at1: map<string, nat>, idx1: map<string, nat>, at: map<string, nat>, idx: map<string, nat>)
    requires SlotProgress(want, todo, at0, idx0, at1, idx1) && todo <= want && name in todo
    requires at - {name} == at1 - {name} && idx - {name} == idx1 - {name} && Placed(name, at1, idx1, at, idx)
    ensures SlotProgress(want, todo - {name}, at0, idx0, at, idx)
  {
    assert Same(name, at1, at0) && Same(name, idx1, idx0);
    forall n | n != name ensures Same(n, at, at1) && Same(n, idx, idx1) {
      SameApart(at, at1, name, n);
      SameApart(idx, idx1, name, n);
    }
    hide Placed;
    forall n | n !in want || n in todo - {name} ensures Same(n, at, at0) && Same(n, idx, idx0) {
      assert Same(n, at, at1) && Same(n, idx, idx1) && Same(n, at1, at0) && Same(n, idx1, idx0);
    }
    forall n | n in want && n !in todo - {name} ensures Placed(n, at0, idx0, at, idx) {
      if n == name {
        PlacedFrom(n, at1, idx1, at0, idx0, at, idx);
      } else {
        assert Same(n, at, at1) && Same(n, idx, idx1);
        PlacedTo(n, at0, idx0, at1, idx1, at, idx);
      }
    }
  }

  lemma SameApart<T>(a: map<string, T>, b: map<string, T>, name: string, n: string)
    requires a - {name} == b - {name} && n != name
    ensures Same(n, a, b)
  {
    assert n in a - {name} <==> n in b - {name};
    assert n in a ==> (a - {name})[n] == a[n];
  }

  lemma PlacedFrom(n: string, at1: map<string, nat>, idx1: map<string, nat>, at0: map<string, nat>,
                   idx0: map<string, nat>,
                   at: map<string, nat>, idx: map<string, nat>)
    requires Same(n, at1, at0) && Same(n, idx1, idx0) && Placed(n, at1, idx1, at, idx)
    ensures Placed(n, at0, idx0, at, idx)
  {
  }

  lemma PlacedTo(n: string, at0: map<string, nat>, idx0: map<string, nat>, at1: map<string, nat>,
                 idx1: map<string, nat>,
                 at: map<string, nat>, idx: map<string, nat>)
    requires Same(n, at, at1) && Same(n, idx, idx1) && Placed(n, at0, idx0, at1, idx1)
    ensures Placed(n, at0, idx0, at, idx)
  {
  }

  lemma CountStep(a: set<string>, todo: set<string>, name: string)
    requires name in todo
    ensures |a - (todo - {name})| == |a - todo| + if name in a then 1 else 0
  {
    assert a - (todo - {name}) == (a - todo) + if name in a then {name} else {};
  }

  /** Part-way through with the exact counts of what was added and rewritten so far. The policers themselves
      are as `Progress` says when the indexes known at the start are right for the desired ones. */
  ghost predicate InPass(want: map<string, PolicerSpec>, todo: set<string>,
                         ps0: map<string, LivePolicer>, idx0: map<string, nat>,
                         ps: map<string, LivePolicer>, idx: map<string, nat>, added: int, updated: int)
  {
    && todo <= want.Keys && SlotProgress(want.Keys, todo, Slots(ps0), idx0, Slots(ps), idx)
    && (RightFor(idx0, ps0, want.Keys) ==> Progress(want, todo, ps0, idx0, ps, idx))
    && added == |(want.Keys - ps0.Keys) - todo| && updated == |ToUpdate(want, ps0, idx0) - todo|
  }

  lemma InPassStart(want: map<string, PolicerSpec>, ps: map<string, LivePolicer>, idx: map<string, nat>)
    ensures InPass(want, want.Keys, ps, idx, ps, idx, 0, 0)
  {
    assert (want.Keys - ps.Keys) - want.Keys == {} && ToUpdate(want, ps, idx) - want.Keys == {};
  }

  lemma InPassEnd(want: map<string, PolicerSpec>, ps0: map<string, LivePolicer>, idx0: map<string, nat>,
                  ps: map<string, LivePolicer>, idx: map<string, nat>, added: int, updated: int)
    requires InPass(want, {}, ps0, idx0, ps, idx, added, updated)
    ensures SlotProgress(want.Keys, {}, Slots(ps0), idx0, Slots(ps), idx)
    ensures RightFor(idx0, ps0, want.Keys) ==> Progress(want, {}, ps0, idx0, ps, idx)
    ensures added == |want.Keys - ps0.Keys| && updated == |ToUpdate(want, ps0, idx0)|
  {
    hide SlotProgress, Progress, RightFor;
    assert (want.Keys - ps0.Keys) - {} == want.Keys - ps0.Keys;
    assert ToUpdate(want, ps0, idx0) - {} == ToUpdate(want, ps0, idx0);
  }

  lemma InPassAt(want: map<string, PolicerSpec>, todo: set<string>, name: string,
                 ps0: map<string, LivePolicer>, idx0: map<string, nat>,
                 ps: map<string, LivePolicer>, idx: map<string, nat>, added: int, updated: int)
    requires InPass(want, todo, ps0, idx0, ps, idx, added, updated) && name in todo
    ensures name in want && (name in ps <==> name in ps0) && (name in idx <==> name in idx0)
    ensures RightFor(idx0, ps0, want.Keys) ==> RightAt(idx, ps, name) && Same(name, ps, ps0)
  {
    assert Same(name, Slots(ps), Slots(ps0)) && Same(name, idx, idx0);
    hide ToUpdate, Settled;
  }

  /** `idx` is right for `name`, if it knows it and VPP has it. */
  predicate RightAt(idx: map<string, nat>, ps: map<string, LivePolicer>, name: string) {
    name in idx && name in ps ==> idx[name] == ps[name].index
  }

  predicate IsChange(change: Change, spec: PolicerSpec, present: Option<PolicerInfo>, known: bool) {
    change == (if present.None? then Added else if !known || Drifted(spec, present.value) then Updated else Kept)
  }

  lemma InPassStep(want: map<string, PolicerSpec>, todo: set<string>, name: string,
                   ps0: map<string, LivePolicer>, idx0: map<string, nat>,
                   ps1: map<string, LivePolicer>, idx1: map<string, nat>,
                   ps: map<string, LivePolicer>, idx: map<string, nat>, added: int, updated: int, change: Change)
    requires InPass(want, todo, ps0, idx0, ps1, idx1, added, updated) && name in todo && name in want
    requires Slots(ps) - {name} == Slots(ps1) - {name} && idx - {name} == idx1 - {name}
    requires Placed(name, Slots(ps1), idx1, Slots(ps), idx)
    requires RightFor(idx0, ps0, want.Keys) ==>
               ps - {name} == ps1 - {name} && Settled(name, want[name], ps1, idx1, ps, idx)
    requires IsChange(change, want[name], if name in ps0 then Some(InfoOf(ps0[name])) else None, name in idx0)
    ensures InPass(want, todo - {name}, ps0, idx0, ps, idx,
                   if change == Added then added + 1 else added, if change == Updated then updated + 1 else updated)
  {
    CountStep(want.Keys - ps0.Keys, todo, name);
    CountStep(ToUpdate(want, ps0, idx0), todo, name);
    hide SlotProgress, Progress, RightFor, Settled, Drifted, Slots, Placed;
    SlotStep(want.Keys, todo, name, Slots(ps0), idx0, Slots(ps1), idx1, Slots(ps), idx);
    if RightFor(idx0, ps0, want.Keys) { ProgressStep(want, todo, name, ps0, idx0, ps1, idx1, ps, idx); }
  }

  lemma OrphansDoNotMatter(want: map<string, PolicerSpec>, orphans: set<string>,
                           ps0: map<string, LivePolicer>, idx0: map<string, nat>)
    requires want.Keys !! orphans
    ensures want.Keys - (ps0 - orphans).Keys == want.Keys - ps0.Keys
    ensures ToUpdate(want, ps0 - orphans, idx0 - orphans) == ToUpdate(want, ps0, idx0)
  {
  }

  /** Deleting orphans first and then settling the desired policers settles them against the state
      before the pass. */
  lemma PassOnPolicers(want: map<string, PolicerSpec>, orphans: set<string>, parse: Parse,
                       ps0: map<string, LivePolicer>, idx0: map<string, nat>,
                       ps: map<string, LivePolicer>, idx: map<string, nat>)
    requires orphans == Managed(ps0, parse) - want.Keys && forall n | n in want :: parse(n).Some?
    requires Progress(want, {}, ps0 - orphans, idx0 - orphans, ps, idx)
    ensures forall n | parse(n).None? :: Same(n, ps, ps0)
    ensures forall n | n in want :: Settled(n, want[n], ps0, idx0, ps, idx)
  {
    forall n | n in want ensures Settled(n, want[n], ps0, idx0, ps, idx) {
      assert Settled(n, want[n], ps0 - orphans, idx0 - orphans, ps, idx);
    }
    forall n | parse(n).None? ensures Same(n, ps, ps0) {
      assert Same(n, ps, ps0 - orphans);
    }
  }

  /** Whatever the indexes were, exactly the desired managed names remain, and each of them is placed. */
  lemma PassOnSlots(want: set<string>, orphans: set<string>, parse: Parse,
                    ps0: map<string, LivePolicer>, idx0: map<string, nat>,
                    ps: map<string, LivePolicer>, idx: map<string, nat>)
    requires orphans == Managed(ps0, parse) - want && forall n | n in want :: parse(n).Some?
    requires SlotProgress(want, {}, Slots(ps0 - orphans), idx0 - orphans, Slots(ps), idx)
    ensures Managed(ps, parse) == want <= idx.Keys
    ensures forall n | n in want :: Placed(n, Slots(ps0), idx0, Slots(ps), idx)
    ensures forall n | n !in want :: Same(n, idx, idx0 - orphans)
  {
    forall n | n in want ensures n in ps && Placed(n, Slots(ps0), idx0, Slots(ps), idx) {
      assert Placed(n, Slots(ps0 - orphans), idx0 - orphans, Slots(ps), idx);
    }
    forall n | n !in want && parse(n).Some? ensures n !in ps {
      assert Same(n, Slots(ps), Slots(ps0 - orphans));
      assert n in ps0 ==> n in orphans;
    }
  }

  /** After a pass over the policers the known indexes are right exactly when the pass could use the ones
      it started from. */
  lemma TracksAfterPassIff(want: set<string>, orphans: set<string>, parse: Parse,
                           ps0: map<string, LivePolicer>, idx0: map<string, nat>,
                           ps: map<string, LivePolicer>, idx: map<string, nat>)
    requires orphans == Managed(ps0, parse) - want && Listed(idx0, parse) && Listed(idx, parse) && GoodPolicers(ps)
    requires Managed(ps, parse) == want
    requires forall n | n in want :: Placed(n, Slots(ps0), idx0, Slots(ps), idx)
    requires forall n | n !in want :: Same(n, idx, idx0 - orphans)
    ensures Tracks(idx, ps, parse) <==> Usable(idx0, ps0, want)
  {
    hide DistinctIndexes;
    if Usable(idx0, ps0, want) {
      forall n | n !in want ensures n !in idx {
        assert Same(n, idx, idx0 - orphans);
        assert n in idx0 ==> n in orphans;
      }
      forall n | n in idx ensures n in ps && ps[n].index == idx[n] {
        assert Placed(n, Slots(ps0), idx0, Slots(ps), idx);
      }
    }
    if Tracks(idx, ps, parse) {
      forall n | n in want && n in idx0 && n in ps0 ensures idx0[n] == ps0[n].index {
        assert Placed(n, Slots(ps0), idx0, Slots(ps), idx);
      }
      forall n | n in idx0 && n !in want ensures n in ps0 {
        assert Same(n, idx, idx0 - orphans);
        assert n in idx ==> n in Managed(ps, parse);
      }
    }
  }

  lemma PolicersDone(want: map<string, PolicerSpec>, orphans: set<string>, parse: Parse,
                     ps0: map<string, LivePolicer>, idx0: map<string, nat>,
                     ps: map<string, LivePolicer>, idx: map<string, nat>)
    requires orphans == Managed(ps0, parse) - want.Keys && forall n | n in want :: parse(n).Some?
    requires Listed(idx0, parse) && Listed(idx, parse) && GoodPolicers(ps)
    requires SlotProgress(want.Keys, {}, Slots(ps0 - orphans), idx0 - orphans, Slots(ps), idx)
    requires RightFor(idx0 - orphans, ps0 - orphans, want.Keys) ==>
               Progress(want, {}, ps0 - orphans, idx0 - orphans, ps, idx)
    ensures Managed(ps, parse) == want.Keys <= idx.Keys
    ensures Tracks(idx, ps, parse) <==> Usable(idx0, ps0, want.Keys)
    ensures Usable(idx0, ps0, want.Keys) ==> AllSettled(want, parse, ps0, idx0, ps, idx)
  {
    assert Usable(idx0, ps0, want.Keys) ==> RightFor(idx0 - orphans, ps0 - orphans, want.Keys);
    hide Tracks, GoodPolicers, Listed, Progress, SlotProgress, Settled, Placed, Usable, RightFor, Slots, Managed;
    PassOnSlots(want.Keys, orphans, parse, ps0, idx0, ps, idx);
    TracksAfterPassIff(want.Keys, orphans, parse, ps0, idx0, ps, idx);
    if Usable(idx0, ps0, want.Keys) { PassOnPolicers(want, orphans, parse, ps0, idx0, ps, idx); }
  }

  lemma SlotsAt(ps: map<string, LivePolicer>, name: string)
    ensures name in Slots(ps) <==> name in ps
    ensures name in ps ==> Slots(ps)[name] == ps[name].index
  {
  }

  lemma SoundBySlots(idx: map<string, nat>, ps0: map<string, LivePolicer>, ps: map<string, LivePolicer>)
    requires Slots(ps) == Slots(ps0)
    ensures Sound(idx, ps) == Sound(idx, ps0)
  {
    forall n ensures n in ps <==> n in ps0 { SlotsAt(ps, n); SlotsAt(ps0, n); }
    forall n | n in ps ensures ps[n].index == ps0[n].index { SlotsAt(ps, n); SlotsAt(ps0, n); }
  }

  lemma DistinctOf(ps: map<string, LivePolicer>)
    requires GoodPolicers(ps)
    ensures DistinctIndexes(ps)
  {
  }

  lemma OrphansOfMask(s0: map<SKey, nat>, g: map<SKey, nat>, mask: MaskKind, wants: seq<SessionWant>, orphans: set<Key>)
    requires WantMap(wants) == OnMask(g, mask)
    requires orphans == set k | k in Slice(s0, mask) && (mask, k) !in (set w | w in wants :: w.key)
    ensures Namespaced(mask, orphans) == set k | k in s0 && k.0 == mask && k !in OnMask(g, mask)
  {
    hide Slice;
    forall k: Key ensures k in Slice(s0, mask) <==> (mask, k) in s0 { SliceAt(s0, mask, k); }
    assert forall k: SKey :: k in OnMask(g, mask) <==> k in set w | w in wants :: w.key;
    forall k: SKey ensures k in Namespaced(mask, orphans) <==> k in s0 && k.0 == mask && k !in OnMask(g, mask) {
      assert k == (k.0, k.1);
    }
  }

  /** The dumped hits of the wanted sessions are VPP's, before and after the orphans go. */
  lemma HitsKnown(s0: map<SKey, nat>, mask: MaskKind, wants: seq<SessionWant>, orphans: set<Key>, hits: map<SKey, nat>)
    requires forall w | w in wants :: GoodWant(w, mask)
    requires orphans == set k | k in Slice(s0, mask) && (mask, k) !in (set w | w in wants :: w.key)
    requires hits == map k | k in Slice(s0, mask) :: (mask, k) := Slice(s0, mask)[k]
    ensures forall w | w in wants :: w.key !in Namespaced(mask, orphans) && (w.key in hits <==> w.key in s0) &&
                                     (w.key in hits ==> hits[w.key] == s0[w.key])
  {
    hide Slice, TableKey, CanonicalFor, C.SessionKey;
    forall w | w in wants
      ensures w.key !in Namespaced(mask, orphans) && (w.key in hits <==> w.key in s0) &&
              (w.key in hits ==> hits[w.key] == s0[w.key])
    {
      assert w.key == (mask, w.key.1);
      SliceAt(s0, mask, w.key.1);
    }
  }

  lemma CountsOfMask(s0: map<SKey, nat>, g: map<SKey, nat>, mask: MaskKind, orphans: set<SKey>, c: SessionCounts)
    requires orphans == set k | k in s0 && k.0 == mask && k !in OnMask(g, mask)
    requires c.deleted == |orphans|
    requires c.added == |OnMask(g, mask).Keys - (s0 - orphans).Keys|
    requires c.moved == |MovedKeys(s0 - orphans, OnMask(g, mask))|
    ensures CountsOn(s0, g, {mask}, c)
  {
    MaskReplaced(s0, g, mask, orphans);
  }

  /** Orphans gone and wants installed: the mask holds its part of `g`, with the counts to show for it. */
  lemma MaskDone(s0: map<SKey, nat>, g: map<SKey, nat>, mask: MaskKind, wants: seq<SessionWant>, orphans: set<Key>,
                 s: map<SKey, nat>, c: SessionCounts)
    requires WantMap(wants) == OnMask(g, mask)
    requires orphans == set k | k in Slice(s0, mask) && (mask, k) !in (set w | w in wants :: w.key)
    requires c.deleted == |orphans| && Upserted(s0 - Namespaced(mask, orphans), wants, s, c.added, c.moved)
    ensures s == Mix(s0, g, {mask}) && CountsOn(s0, g, {mask}, c)
  {
    OrphansOfMask(s0, g, mask, wants, orphans);
    hide Slice, Mix, CountsOn, MovedKeys, Namespaced, Within, WantMap, OnMask;
    NamespacedCard(mask, orphans);
    MaskReplaced(s0, g, mask, Namespaced(mask, orphans));
    CountsOfMask(s0, g, mask, Namespaced(mask, orphans), c);
  }

  lemma WholeTable(s0: map<SKey, nat>, g: map<SKey, nat>, mask: MaskKind, keys: set<Key>)
    requires OnMask(g, mask) == map[] && keys == Slice(s0, mask).Keys
    ensures Namespaced(mask, keys) == set k | k in s0 && k.0 == mask && k !in OnMask(g, mask)
  {
    hide Slice;
    forall k: Key ensures k in Slice(s0, mask) <==> (mask, k) in s0 { SliceAt(s0, mask, k); }
    forall k: SKey ensures k in Namespaced(mask, keys) <==> k in s0 && k.0 == mask && k !in OnMask(g, mask) {
      assert k == (k.0, k.1);
    }
  }

  lemma PrunedTable(s0: map<SKey, nat>, g: map<SKey, nat>, mask: MaskKind, orphans: set<SKey>)
    requires OnMask(g, mask) == map[] && orphans == set k | k in s0 && k.0 == mask && k !in OnMask(g, mask)
    ensures s0 - orphans == Mix(s0, g, {mask})
    ensures CountsOn(s0, g, {mask}, SessionCounts(0, |orphans|, 0))
  {
    MaskReplaced(s0, g, mask, orphans);
    assert (s0 - orphans) + map[] == s0 - orphans;
    assert OnMask(g, mask).Keys - (s0 - orphans).Keys == {};
    assert MovedKeys(s0 - orphans, OnMask(g, mask)) == {};
  }

  /** The grouped wants are installable and amount to the goal, mask by mask. */
  lemma WantsReady(byMask: map<MaskKind, seq<SessionWant>>, ss: seq<Session>, idx: map<string, nat>,
                   parse: Parse)
    requires Grouped(byMask, ss, idx) && DistinctKeys(ss) && Resolvable(ss, idx) && Listed(idx, parse)
    ensures forall m | m in byMask :: DistinctWants(byMask[m]) && (forall w | w in byMask[m] :: GoodWant(w, m)) &&
                                      WantMap(byMask[m]) == OnMask(Goal(ss, idx), m)
    ensures forall m | m !in byMask :: OnMask(Goal(ss, idx), m) == map[]
  {
    hide DistinctKeys, Resolvable, GoodWant, DistinctWants, WantMap, OnMask, Goal, WantsFor, SK;
    forall m | m in byMask
      ensures DistinctWants(byMask[m]) && (forall w | w in byMask[m] :: GoodWant(w, m)) &&
              WantMap(byMask[m]) == OnMask(Goal(ss, idx), m)
    {
      WantsForDistinct(ss, m, idx);
      WantsForGood(ss, m, idx);
      WantsForIsGoal(ss, m, idx);
    }
    forall m | m !in byMask ensures OnMask(Goal(ss, idx), m) == map[] {
      WantsForIsGoal(ss, m, idx);
      NoWants(ss, m, idx);
      EmptyWantMap();
    }
  }

  lemma EmptyWantMap()
    ensures WantMap([]) == map[]
  {
  }

  lemma GoalMasks(byMask: map<MaskKind, seq<SessionWant>>, ss: seq<Session>, idx: map<string, nat>)
    requires Grouped(byMask, ss, idx)
    ensures forall k | k in Goal(ss, idx) :: k.0 in byMask
  {
    hide WantsFor, KeyOr;
  }

  lemma AllSessionsWithin(sessions: map<SKey, nat>, tables: map<MaskKind, nat>)
    requires GoodSessions(sessions, tables)
    ensures Within(sessions.Keys, tables.Keys) == sessions.Keys && |sessions.Keys| == |sessions|
    ensures Within(sessions.Keys, {}) == {}
  {
    hide TableKey;
  }

  lemma RelearnNone(idx: map<string, nat>, sessions: map<SKey, nat>)
    ensures Relearn([], idx, sessions) == idx
  {
  }

  /** Looking a session up in the dumps of all tables is looking it up in VPP. */
  lemma DumpAnswers(dumps: map<MaskKind, map<Key, nat>>, sessions: map<SKey, nat>, tables: map<MaskKind, nat>,
                    s: Session)
    requires GoodSessions(sessions, tables) && dumps.Keys == tables.Keys
    requires forall m | m in dumps :: dumps[m] == Slice(sessions, m)
    ensures s.mask in dumps && KeyOr(s) in dumps[s.mask] <==> SK(s) in sessions
    ensures SK(s) in sessions ==> dumps[s.mask][KeyOr(s)] == sessions[SK(s)]
  {
    hide TableKey, Slice, KeyOr;
    SliceAt(sessions, s.mask, KeyOr(s));
  }

  /** A completed pass converged exactly when the pass could use the indexes it had. */
  lemma ConvergedIff(d: State, parse: Parse, ps0: map<string, LivePolicer>, idx0: map<string, nat>,
                     ps: map<string, LivePolicer>, idx: map<string, nat>, s: map<SKey, nat>)
    requires Managed(ps, parse) == ByName(d.policers).Keys && s == Goal(d.sessions, idx)
    requires Tracks(idx, ps, parse) <==> Usable(idx0, ps0, ByName(d.policers).Keys)
    requires Usable(idx0, ps0, ByName(d.policers).Keys) ==> AllSettled(ByName(d.policers), parse, ps0, idx0, ps, idx)
    ensures Converged(d, parse, ps0, idx0, ps, idx, s) <==> Usable(idx0, ps0, ByName(d.policers).Keys)
  {
    hide Tracks, Managed, ByName, Goal, Settled, Usable;
    if Usable(idx0, ps0, ByName(d.policers).Keys) {
      forall n | parse(n).None? ensures (n in ps <==> n in ps0) && (n in ps ==> ps[n] == ps0[n]) {
        assert Same(n, ps, ps0);
      }
    }
  }

  /** Every desired policer is settled and no other one touched. */
  ghost predicate AllSettled(want: map<string, PolicerSpec>, parse: Parse, ps0: map<string, LivePolicer>,
                             idx0: map<string, nat>,
                             ps: map<string, LivePolicer>, idx: map<string, nat>)
  {
    && (forall n | n in want :: Settled(n, want[n], ps0, idx0, ps, idx))
    && (forall n | parse(n).None? :: Same(n, ps, ps0))
  }

  lemma SettledRates(want: map<string, PolicerSpec>, parse: Parse, ps0: map<string, LivePolicer>,
                     idx0: map<string, nat>, ps: map<string, LivePolicer>, idx: map<string, nat>)
    ensures AllSettled(want, parse, ps0, idx0, ps, idx) ==> RatesSet(want, ps0, idx0, ps) && AtRate(want, ps)
  {
    hide Settled, RatesSet, AtRate;
    if AllSettled(want, parse, ps0, idx0, ps, idx) {
      SettledSetsRates(want, ps0, idx0, ps, idx);
      RatesSetAtRate(want, ps0, idx0, ps);
    }
  }

  lemma LearnedIff(d: State, idx: map<string, nat>, sessions: map<SKey, nat>, ps: map<string, LivePolicer>,
                   parse: Parse)
    requires WellFormed(d, parse)
    ensures Tracks(idx, ps, parse) ==>
              (Sound(RelearnStep(d, idx, sessions), ps) <==> FirstHitsLive(d, idx, sessions, ps))
    ensures Tracks(idx, ps, parse) ==>
              (Usable(RelearnStep(d, idx, sessions), ps, ByName(d.policers).Keys) <==>
                 FirstHitsRight(d, idx, sessions, ps))
  {
    hide WellFormed, RelearnStep, Usable, FirstHitsLive, FirstHitsRight, GoodPolicers, ManagedNames;
    if Tracks(idx, ps, parse) {
      SoundAfterRelearnIff(d, idx, sessions, ps, parse);
      UsableAfterRelearnIff(d, idx, sessions, ps, parse);
    }
  }

  /** Where every managed policer is known, relearning cannot mislead a pass. */
  lemma KnownIsRight(d: State, idx: map<string, nat>, sessions: map<SKey, nat>, ps: map<string, LivePolicer>,
                     parse: Parse)
    requires WellFormed(d, parse)
    ensures Managed(ps, parse) == idx.Keys ==> FirstHitsRight(d, idx, sessions, ps)
  {
    hide Named, FirstHit, DistinctKeys;
    forall n | n in ByName(d.policers) && n in ps ensures n in Managed(ps, parse) {
      assert ByName(d.policers)[n] in d.policers;
    }
  }

  lemma ReadyAfterRelearn(d: State, idx: map<string, nat>, sessions: map<SKey, nat>, tables: map<MaskKind, nat>,
                          ps: map<string, LivePolicer>, parse: Parse)
    requires WellFormed(d, parse) && Listed(idx, parse) && GoodSessions(sessions, tables) && GoodPolicers(ps)
    ensures Listed(RelearnStep(d, idx, sessions), parse) && DistinctKeys(d.sessions)
    ensures forall p | p in d.policers :: parse(p.name).Some?
    ensures Sound(RelearnStep(d, idx, sessions), ps) ==> Tracks(idx, ps, parse)
    ensures Sound(RelearnStep(d, idx, sessions), ps) <==> Tracks(RelearnStep(d, idx, sessions), ps, parse)
  {
    RelearnListed(d, idx, sessions, tables, parse);
    if Sound(RelearnStep(d, idx, sessions), ps) { RelearnedSound(d, idx, sessions, ps, parse); }
    hide RelearnStep, DistinctKeys, GoodSessions, DistinctIndexes, Sound;
  }

  lemma GroupedStart(idx: map<string, nat>)
    ensures Grouped(map[], [], idx)
  {
  }

  /** What a pass finds: VPP's policers, sessions and bindings, and the indexes known of the policers. */
  datatype Found = Found(policers: map<string, LivePolicer>, sessions: map<SKey, nat>, idx: map<string, nat>,
                         bound4: map<nat, nat>, bound6: map<nat, nat>)
  {
    /** The indexes a pass over `d` works with: the known ones and those it relearns. */
    function Relearned(d: State): (r: map<string, nat>) { RelearnStep(d, idx, sessions) }

    /** The pass can use those indexes. */
    predicate CanUse(d: State) { Usable(Relearned(d), policers, ByName(d.policers).Keys) }
  }

  /** Policers, indexes and sessions after a completed pass over `d` that found `f`. */
  ghost predicate ProgrammedTo(d: State, parse: Parse, f: Found, ps: map<string, LivePolicer>, idx: map<string, nat>,
                               s: map<SKey, nat>) {
    && Managed(ps, parse) == ByName(d.policers).Keys <= idx.Keys && s == Goal(d.sessions, idx)
    && (Tracks(idx, ps, parse) <==> f.CanUse(d))
    && (Converged(d, parse, f.policers, f.Relearned(d), ps, idx, s) <==> f.CanUse(d))
    && (f.CanUse(d) ==> (AsSent(ByName(d.policers), ps) <==>
                           KeptAsSent(ByName(d.policers), f.policers, f.Relearned(d))))
    && (f.CanUse(d) ==> RatesSet(ByName(d.policers), f.policers, f.Relearned(d), ps) && AtRate(ByName(d.policers), ps))
  }

  ghost predicate Programmed(r: Reconciler, d: State, f: Found)
    reads r`polIdx, r.vpp`policers, r.vpp`sessions
  {
    ProgrammedTo(d, r.parse, f, r.vpp.policers, r.polIdx, r.vpp.sessions)
  }

  /** A completed pass over `d` took what `f` says to what `g` says. */
  ghost predicate PassOver(d: State, parse: Parse, f: Found, g: Found) {
    ProgrammedTo(d, parse, f, g.policers, g.idx, g.sessions) && GoodPolicers(g.policers) && Listed(g.idx, parse)
  }

  /** With exactly the desired managed policers in VPP, indexes are usable exactly when they are right. */
  lemma UsableIffTracks(idx: map<string, nat>, ps: map<string, LivePolicer>, parse: Parse)
    requires GoodPolicers(ps) && Listed(idx, parse)
    ensures Usable(idx, ps, Managed(ps, parse)) <==> Tracks(idx, ps, parse)
  {
    if Usable(idx, ps, Managed(ps, parse)) {
      forall n | n in idx ensures n in ps && ps[n].index == idx[n] { assert n in ps ==> n in Managed(ps, parse); }
    }
  }

  lemma NextPassAgrees(d: State, parse: Parse, f: Found, g: Found)
    requires WellFormed(d, parse) && PassOver(d, parse, f, g)
    ensures g.Relearned(d) == g.idx && (g.CanUse(d) <==> f.CanUse(d))
  {
    hide Goal, Tracks, Listed, GoodPolicers, Managed, Usable, WellFormed, ByName, Relearn, Converged, AsSent,
         KeptAsSent;
    assert forall p | p in d.policers :: p.name in g.idx;
    UsableIffTracks(g.idx, g.policers, parse);
  }

  /** Relearned indexes are for good: over any number of completed passes on one desired state, each of them
      converges exactly when the first one could use its indexes. */
  lemma {:induction false} PassesAgree(d: State, parse: Parse, fs: seq<Found>, i: nat)
    requires WellFormed(d, parse) && i < |fs| && forall k | 0 <= k < |fs| - 1 :: PassOver(d, parse, fs[k], fs[k + 1])
    ensures fs[i].CanUse(d) <==> fs[0].CanUse(d)
    ensures i + 1 < |fs| ==>
              (Converged(d, parse, fs[i].policers, fs[i].Relearned(d), fs[i + 1].policers, fs[i + 1].idx,
                         fs[i + 1].sessions) <==>
               fs[0].CanUse(d))
  {
    if i == 0 {
    } else {
      PassesAgree(d, parse, fs, i - 1);
      assert PassOver(d, parse, fs[i - 1], fs[i - 1 + 1]);
      NextPassAgrees(d, parse, fs[i - 1], fs[i]);
    }
    hide WellFormed, Usable, RelearnStep, Converged, Tracks, Managed, ByName;
  }

  /** Every configured interface is on the heads of both families, each of them one chain. */
  ghost predicate Attached(r: Reconciler)
    reads r.vpp
  {
    && B.OnHeads(r.policerIfaces, r.vpp.ifaces, r.vpp.bound4, r.vpp.bound6, r.vpp.tables)
    && (r.policerIfaces != [] ==> B.Chained(r.vpp.next, B.FamilyTables(r.vpp.tables, C.IPv4)) &&
                                  B.Chained(r.vpp.next, B.FamilyTables(r.vpp.tables, C.IPv6)))
  }

  /** A completed pass over `d` that found `f`: what it left and what it reports. It reports nothing exactly
      when, with usable indexes, policers, sessions and bindings already were as desired. */
  ghost predicate Completed(r: Reconciler, d: State, f: Found, res: PassResult)
    reads r`polIdx, r.vpp
  {
    && Programmed(r, d, f) && Attached(r)
    && Reports(d, r.parse, f.policers, f.Relearned(d), f.sessions, r.vpp.sessions,
               res.policers.added, res.policers.updated, res.policers.deleted, res.sessions)
    && B.Counts(res.bindings, r.policerIfaces, r.vpp.ifaces, f.bound4, f.bound6, r.vpp.tables)
    && (f.CanUse(d) ==>
          (NoChange(res) <==> InPlace(d, f.policers, f.sessions, f.Relearned(d), r.parse) &&
                              B.OnHeads(r.policerIfaces, r.vpp.ifaces, f.bound4, f.bound6, r.vpp.tables)))
  }

  lemma NoChangeIff(r: Reconciler, d: State, f: Found, pc: PolicerCounts, sc: SessionCounts)
    requires WellFormed(d, r.parse) && Programmed(r, d, f)
    requires Reports(d, r.parse, f.policers, f.Relearned(d), f.sessions, r.vpp.sessions, pc.added, pc.updated,
                     pc.deleted, sc)
    ensures f.CanUse(d) ==> (pc == PolicerCounts(0, 0, 0) && sc == SessionCounts(0, 0, 0) <==>
                             InPlace(d, f.policers, f.sessions, f.Relearned(d), r.parse))
  {
    hide WellFormed, Reports, Converged, InPlace, Goal, Managed, RelearnStep;
    if f.CanUse(d) {
      NoChangeIffInPlace(d, r.parse, f.policers, f.Relearned(d), f.sessions, r.vpp.policers, r.polIdx, r.vpp.sessions,
                         pc.added, pc.updated, pc.deleted, sc);
    }
  }

  lemma CompletedIff(r: Reconciler, d: State, f: Found, res: PassResult)
    requires Completed(r, d, f, res)
    ensures Converged(d, r.parse, f.policers, f.Relearned(d), r.vpp.policers, r.polIdx, r.vpp.sessions) <==> f.CanUse(d)
  {
  }

  class Reconciler {
    const vpp: Vpp
    const parse: Parse

    /** Policer name to VPP index, learned on add, and the copy published for metering. */
    var polIdx: map<string, nat>
    var polSnap: map<string, nat>
    /** Programmed counts, anchored by full passes and adjusted by deltas. */
    var actPol: int
    var actSess: int
    var actAnchored: bool
    /** Generation of the last applied desired state. */
    var lastGen: nat
    var appliedNonEmpty: bool
    var pendingEmpty: bool
    /** The distinct pool ids handed to the pool-set hash. */
    var poolIds: seq<PoolID>
    const policerIfaces: seq<string>

    /** What holds between any two VPP calls, whichever of them fail: VPP is consistent, every learned
        index is live, and only managed names are learned. */
    ghost predicate Valid()
      reads this, vpp
    {
      vpp.Valid() && Tracked()
    }

    /** The policer half of `Valid`. */
    ghost predicate Tracked()
      reads this`polIdx, vpp`policers
    {
      Tracks(polIdx, vpp.policers, parse)
    }

    /** What holds even after indexes were relearned wrongly: enough to run the policer phase. */
    ghost predicate Ready()
      reads this`polIdx, vpp`policers
    {
      GoodPolicers(vpp.policers) && Listed(polIdx, parse)
    }

    /** Enough to run a whole pass. */
    ghost predicate Runnable()
      reads this`polIdx, vpp
    {
      vpp.Valid() && Listed(polIdx, parse)
    }

    /** Every managed policer of VPP is known, and nothing else: then nothing has to be relearned. */
    ghost predicate AllKnown()
      reads this`polIdx, vpp`policers
    {
      Managed(vpp.policers, parse) == polIdx.Keys
    }

    constructor (vpp: Vpp, parse: Parse, policerIfaces: seq<string>)
      requires vpp.Valid()
      ensures Valid() && polIdx == map[] && this.vpp == vpp && this.parse == parse &&
              this.policerIfaces == policerIfaces
      ensures lastGen == 0 && GuardState() == G.INITIAL && !actAnchored
    {
      this.vpp, this.parse, this.policerIfaces := vpp, parse, policerIfaces;
      polIdx, polSnap, actPol, actSess, actAnchored := map[], map[], 0, 0, false;
      lastGen, appliedNonEmpty, pendingEmpty, poolIds := 0, false, false, [];
    }

    ghost function GuardState(): (g: G.Guard)
      reads this
    {
      G.Guard(appliedNonEmpty, pendingEmpty)
    }

    /** VPP restarted: the cached indexes mean nothing any more. */
    method Reset()
      requires vpp.Valid()
      modifies this`polIdx
      ensures Valid() && polIdx == map[]
    {
      polIdx := map[];
    }

    // ----- policers, full pass ------------------------------------------------------------

    method DesiredByName(desired: seq<PolicerSpec>) returns (m: map<string, PolicerSpec>)
      ensures m == ByName(desired)
    {
      m := map[];
      for i := 0 to |desired|
        invariant m == ByName(desired[..i])
      {
        assert desired[..i + 1][..i] == desired[..i];
        m := m[desired[i].name := desired[i]];
      }
      assert desired[..|desired|] == desired;
    }

    method DeleteOrphans(orphans: set<string>) returns (deleted: int, ok: bool)
      requires Ready()
      modifies this`polIdx, vpp`policers
      ensures Ready() && (old(Tracked()) ==> Tracked())
      ensures ok ==> vpp.policers == old(vpp.policers) - orphans && polIdx == old(polIdx) - orphans
      ensures ok ==> deleted == |orphans|
    {
      hide Tracks, GoodPolicers;
      deleted := 0;
      var todo := orphans;
      ghost var tracked := Tracked();
      while todo != {}
        invariant Ready() && (tracked ==> Tracked()) && todo <= orphans
        invariant vpp.policers == old(vpp.policers) - (orphans - todo)
        invariant polIdx == old(polIdx) - (orphans - todo)
        invariant deleted == |orphans| - |todo|
      {
        var name :| name in todo;
        if tracked { TracksAfterDelete(polIdx, vpp.policers, parse, name); }
        var done := vpp.DeletePolicerByName(name);
        if !done { return deleted, false; }
        polIdx := polIdx - {name};
        deleted := deleted + 1;
        assert orphans - (todo - {name}) == (orphans - todo) + {name};
        todo := todo - {name};
      }
      ok := true;
    }

    /** Adds a policer VPP does not have and learns its index. */
    method CreatePolicer(spec: PolicerSpec) returns (ok: bool)
      requires Ready() && parse(spec.name).Some?
      modifies this`polIdx, vpp`policers
      ensures Ready() && (old(Tracked()) ==> Tracked())
      ensures !ok ==> vpp.policers == old(vpp.policers) && polIdx == old(polIdx)
      ensures ok ==> spec.name !in old(vpp.policers) && spec.name in vpp.policers &&
                     vpp.policers[spec.name].conf == ConfOf(spec)
      ensures ok ==> vpp.policers == old(vpp.policers)[spec.name := vpp.policers[spec.name]]
      ensures ok ==> polIdx == old(polIdx)[spec.name := vpp.policers[spec.name].index]
      ensures vpp.obliging && |old(vpp.policers)| < NO_TABLE ==>
                (ok <==> vpp.accepts(spec) && spec.name !in old(vpp.policers))
    {
      hide Tracks, ConfOf, DistinctIndexes;
      var r := vpp.AddPolicer(spec);
      if r.Err? { return false; }
      if Tracks(polIdx, old(vpp.policers), parse) {
        TracksAfterAdd(polIdx, old(vpp.policers), parse, spec.name, LivePolicer(r.value, ConfOf(spec)));
      }
      assert vpp.policers[spec.name].index < NO_TABLE;
      polIdx := polIdx[spec.name := r.value];
      ok := true;
    }

    /** Re-creates a policer whose index was lost, to relearn it. */
    method RecreatePolicer(spec: PolicerSpec) returns (ok: bool)
      requires Ready() && parse(spec.name).Some? && spec.name !in polIdx
      modifies this`polIdx, vpp`policers
      ensures Ready() && (old(Tracked()) ==> Tracked())
      ensures vpp.policers - {spec.name} == old(vpp.policers) - {spec.name} && polIdx - {spec.name} == old(polIdx)
      ensures ok ==> spec.name in vpp.policers && spec.name in polIdx && vpp.policers[spec.name].conf == ConfOf(spec)
      ensures ok ==> polIdx[spec.name] == vpp.policers[spec.name].index
    {
      hide Tracks, GoodPolicers, ConfOf, Listed;
      if Tracked() { TracksAfterDelete(polIdx, vpp.policers, parse, spec.name); }
      ReplaceAt(polIdx, spec.name, 0);
      var gone := vpp.DeletePolicerByName(spec.name);
      if !gone { return false; }
      ok := CreatePolicer(spec);
      if ok {
        ReplaceAt(old(vpp.policers), spec.name, vpp.policers[spec.name]);
        ReplaceAt(old(polIdx), spec.name, polIdx[spec.name]);
      } else {
        ReplaceAt(vpp.policers, spec.name, LivePolicer(0, ConfOf(spec)));
      }
    }

    /** Rewrites the policer at the known index: in place when that index is right. */
    method RefreshPolicer(spec: PolicerSpec) returns (ok: bool)
      requires Ready() && spec.name in polIdx && spec.name in vpp.policers
      modifies vpp`policers
      ensures Ready() && (old(Tracked()) ==> Tracked())
      ensures Slots(vpp.policers) == old(Slots(vpp.policers)) && (!ok ==> vpp.policers == old(vpp.policers))
      ensures ok && old(RightAt(polIdx, vpp.policers, spec.name)) ==>
                vpp.policers == old(vpp.policers)[spec.name := LivePolicer(old(vpp.policers)[spec.name].index,
                                                                           ConfOf(spec))]
      ensures vpp.obliging && old(RightAt(polIdx, vpp.policers, spec.name)) ==> (ok <==> vpp.accepts(spec))
    {
      assert vpp.policers[spec.name].index in Used(vpp.policers);
      DistinctOf(vpp.policers);
      UpdateIndexAt(vpp.policers, spec.name, ConfOf(spec));
      SlotsUpdated(vpp.policers, polIdx[spec.name], ConfOf(spec));
      hide GoodPolicers, ConfOf, DistinctIndexes, UpdateIndex, Slots, Used;
      ghost var ps0 := vpp.policers;
      ok := vpp.UpdatePolicer(polIdx[spec.name], spec);
      SoundBySlots(polIdx, ps0, vpp.policers);
    }

    /** One desired policer: add it, re-create it to relearn its index, update it if drifted. */
    method UpsertPolicer(spec: PolicerSpec, present: Option<PolicerInfo>) returns (change: Change, ok: bool)
      requires Ready() && parse(spec.name).Some? && (present.Some? <==> spec.name in vpp.policers)
      modifies this`polIdx, vpp`policers
      ensures Ready() && (old(Tracked()) ==> Tracked())
      ensures Slots(vpp.policers) - {spec.name} == old(Slots(vpp.policers)) - {spec.name} &&
              polIdx - {spec.name} == old(polIdx) - {spec.name}
      ensures ok ==> Placed(spec.name, old(Slots(vpp.policers)), old(polIdx), Slots(vpp.policers), polIdx)
      ensures ok ==> IsChange(change, spec, present, spec.name in old(polIdx))
      ensures old(RightAt(polIdx, vpp.policers, spec.name)) ==>
                vpp.policers - {spec.name} == old(vpp.policers) - {spec.name}
      ensures ok && old(RightAt(polIdx, vpp.policers, spec.name)) &&
              (present.Some? ==> present.value == InfoOf(old(vpp.policers)[spec.name])) ==>
                Settled(spec.name, spec, old(vpp.policers), old(polIdx), vpp.policers, polIdx)
    {
      hide Tracks, GoodPolicers, ConfOf, Drifted, Listed, Slots;
      ghost var ps0, idx0 := vpp.policers, polIdx;
      SlotsAt(ps0, spec.name);
      if present.None? {
        change := Added;
        ok := CreatePolicer(spec);
        if ok {
          ReplaceAt(ps0, spec.name, vpp.policers[spec.name]);
          ReplaceAt(idx0, spec.name, polIdx[spec.name]);
        }
        SlotsApart(vpp.policers, ps0, spec.name);
      } else if spec.name !in polIdx {
        change := Updated;
        ok := RecreatePolicer(spec);
        ReplaceAt(idx0, spec.name, 0);
        SlotsApart(vpp.policers, ps0, spec.name);
      } else if Drifted(spec, present.value) {
        change := Updated;
        ok := RefreshPolicer(spec);
        ReplaceAt(ps0, spec.name, LivePolicer(ps0[spec.name].index, ConfOf(spec)));
      } else {
        return Kept, true;
      }
      SlotsAt(vpp.policers, spec.name);
    }

    method UpsertPolicers(want: map<string, PolicerSpec>, actual: map<string, PolicerInfo>)
      returns (added: int, updated: int, ok: bool)
      requires Ready() && forall n | n in want :: want[n].name == n && parse(n).Some?
      requires forall n | n in want :: (n in actual <==> n in vpp.policers) &&
                                       (n in actual ==> actual[n] == InfoOf(vpp.policers[n]))
      modifies this`polIdx, vpp`policers
      ensures Ready() && (old(Tracked()) ==> Tracked())
      ensures ok ==> SlotProgress(want.Keys, {}, Slots(old(vpp.policers)), old(polIdx), Slots(vpp.policers), polIdx)
      ensures ok && RightFor(old(polIdx), old(vpp.policers), want.Keys) ==>
                Progress(want, {}, old(vpp.policers), old(polIdx), vpp.policers, polIdx)
      ensures ok ==> added == |want.Keys - old(vpp.policers).Keys|
      ensures ok ==> updated == |ToUpdate(want, old(vpp.policers), old(polIdx))|
    {
      hide InPass, Progress, SlotProgress, Settled, Placed, Tracks, GoodPolicers, Listed, IsChange, Drifted, ToUpdate,
           RightFor, Slots;
      added, updated := 0, 0;
      var todo := want.Keys;
      ghost var ps0, idx0, tracked := vpp.policers, polIdx, Tracked();
      InPassStart(want, ps0, idx0);
      while todo != {}
        invariant Ready() && (tracked ==> Tracked()) && todo <= want.Keys
        invariant InPass(want, todo, ps0, idx0, vpp.policers, polIdx, added, updated)
      {
        var name :| name in todo;
        ghost var ps1, idx1 := vpp.policers, polIdx;
        InPassAt(want, todo, name, ps0, idx0, ps1, idx1, added, updated);
        var present := if name in actual then Some(actual[name]) else None;
        var change, done := UpsertPolicer(want[name], present);
        if !done { return added, updated, false; }
        InPassStep(want, todo, name, ps0, idx0, ps1, idx1, vpp.policers, polIdx, added, updated, change);
        if change == Added { added := added + 1; }
        if change == Updated { updated := updated + 1; }
        todo := todo - {name};
      }
      InPassEnd(want, ps0, idx0, vpp.policers, polIdx, added, updated);
      ok := true;
    }

    /** The policer phase, from any indexes. Exactly the desired managed policers remain; the known indexes
        are right, every desired policer settled and no other one touched exactly when the indexes it started
        from were usable. Indexes that were right stay right on every exit. */
    method ReconcilePolicers(desired: seq<PolicerSpec>) returns (c: PolicerCounts, ok: bool, ghost dumped: bool)
      requires Ready() && forall p | p in desired :: parse(p.name).Some?
      modifies this`polIdx, vpp`policers
      ensures Ready() && (old(Tracked()) ==> Tracked())
      ensures !dumped ==> !ok && vpp.policers == old(vpp.policers) && polIdx == old(polIdx)
      ensures ok ==> Managed(vpp.policers, parse) == ByName(desired).Keys <= polIdx.Keys
      ensures ok ==> (Tracked() <==> Usable(old(polIdx), old(vpp.policers), ByName(desired).Keys))
      ensures ok && Usable(old(polIdx), old(vpp.policers), ByName(desired).Keys) ==>
                AllSettled(ByName(desired), parse, old(vpp.policers), old(polIdx), vpp.policers, polIdx)
      ensures ok ==> c.added == |ByName(desired).Keys - old(vpp.policers).Keys|
      ensures ok && Usable(old(polIdx), old(vpp.policers), ByName(desired).Keys) ==>
                RatesSet(ByName(desired), old(vpp.policers), old(polIdx), vpp.policers) &&
                AtRate(ByName(desired), vpp.policers)
      ensures ok ==> c.updated == |OffRate(ByName(desired), old(vpp.policers), old(polIdx))|
      ensures ok ==> c.deleted == |Managed(old(vpp.policers), parse) - ByName(desired).Keys|
    {
      hide Tracks, GoodPolicers, Listed, Progress, SlotProgress, Settled, Placed, ToUpdate, OffRate, RatesSet, AtRate,
           AllSettled, Usable, RightFor, Slots;
      c := PolicerCounts(0, 0, 0);
      var want := DesiredByName(desired);
      var dump := vpp.DumpPolicers();
      if dump.Err? { return c, false, false; }
      dumped := true;
      var actual := map n | n in dump.value && parse(n).Some? :: dump.value[n];
      var orphans := actual.Keys - want.Keys;
      ghost var ps0, idx0 := vpp.policers, polIdx;
      assert orphans == Managed(ps0, parse) - want.Keys;
      var deleted, gone := DeleteOrphans(orphans);
      c := c.(deleted := deleted);
      if !gone { return c, false, true; }
      OrphansDoNotMatter(want, orphans, ps0, idx0);
      var added, updated, done := UpsertPolicers(want, actual);
      c := c.(added := added, updated := updated);
      ok := done;
      if ok {
        PolicersDone(want, orphans, parse, ps0, idx0, vpp.policers, polIdx);
        ToUpdateIs(want, ps0, idx0);
        SettledRates(want, parse, ps0, idx0, vpp.policers, polIdx);
      }
    }

    // ----- sessions, shared by both paths ---------------------------------------------------

    method BuildSessionWants(desired: seq<Session>) returns (r: Result<map<MaskKind, seq<SessionWant>>>)
      ensures r.Ok? <==> Resolvable(desired, polIdx)
      ensures r.Ok? ==> Grouped(r.value, desired, polIdx)
    {
      hide Keyed, SK, Grouped;
      var byMask: map<MaskKind, seq<SessionWant>> := map[];
      GroupedStart(polIdx);
      for i := 0 to |desired|
        invariant Resolvable(desired[..i], polIdx)
        invariant Grouped(byMask, desired[..i], polIdx)
      {
        var s := desired[i];
        assert desired[..i + 1] == desired[..i] + [s];
        if s.policerName !in polIdx || !Keyed(s) { return Err; }
        GroupedStep(byMask, desired[..i], s, polIdx);
        var before := if s.mask in byMask then byMask[s.mask] else [];
        byMask := byMask[s.mask := before + [SessionWant(s.mask, s.prefix, polIdx[s.policerName], SK(s))]];
      }
      assert desired[..|desired|] == desired;
      r := Ok(byMask);
    }

    method EnsureTable(tables: map<MaskKind, nat>, mask: MaskKind)
      returns (tables': map<MaskKind, nat>, table: nat, ok: bool)
      requires vpp.Valid() && tables == vpp.tables
      modifies vpp`tables, vpp`next
      ensures vpp.Valid()
      ensures !ok ==> vpp.tables == old(vpp.tables)
      ensures ok ==> tables' == vpp.tables && mask in tables' && tables'[mask] == table
      ensures ok ==> vpp.tables.Keys == old(vpp.tables.Keys) + {mask}
      ensures vpp.obliging && C.SpecOf(mask).Some? ==> ok
    {
      hide TableKey;
      if mask in tables { return tables, tables[mask], true; }
      var r := vpp.AddTable(mask);
      if r.Err? { return tables, 0, false; }
      return tables[mask := r.value], r.value, true;
    }

    /** Adds missing sessions, re-points moved ones. `n` wants were dealt with when it stopped. */
    method ApplySessionUpserts(table: nat, mask: MaskKind, wants: seq<SessionWant>, actualHit: map<SKey, nat>)
      returns (added: int, moved: int, ok: bool, ghost n: nat)
      requires vpp.Valid() && mask in vpp.tables && vpp.tables[mask] == table
      requires DistinctWants(wants) && forall w | w in wants :: GoodWant(w, mask)
      requires forall w | w in wants :: (w.key in actualHit <==> w.key in vpp.sessions) &&
                                        (w.key in actualHit ==> actualHit[w.key] == vpp.sessions[w.key])
      modifies vpp`sessions
      ensures vpp.Valid()
      ensures n <= |wants| && Upserted(old(vpp.sessions), wants[..n], vpp.sessions, added, moved)
      ensures ok ==> n == |wants|
      ensures vpp.obliging ==> ok
    {
      hide TableKey, GoodWant, DistinctWants, Upserted, GoodTables, GoodLinks, GoodSessions, GoodPolicers;
      added, moved, n := 0, 0, 0;
      ghost var s0 := vpp.sessions;
      UpsertedStart(s0);
      assert wants[..0] == [];
      for i := 0 to |wants|
        invariant vpp.Valid() && n == i
        invariant Upserted(s0, wants[..i], vpp.sessions, added, moved)
      {
        var w := wants[i];
        assert w in wants && wants[..i + 1] == wants[..i] + [w];
        DistinctPrefix(wants, i);
        UpsertedStep(s0, wants[..i], vpp.sessions, added, moved, w);
        if w.key !in actualHit {
          var done := InstallSession(table, mask, w);
          if !done { return added, moved, false, i; }
          added := added + 1;
        } else if actualHit[w.key] != w.hit {
          var done := InstallSession(table, mask, w);
          if !done { return added, moved, false, i; }
          moved := moved + 1;
        }
        n := n + 1;
      }
      assert wants[..|wants|] == wants;
      ok := true;
    }

    /** Puts one session in place: VPP's add overwrites. */
    method InstallSession(table: nat, mask: MaskKind, w: SessionWant) returns (ok: bool)
      requires vpp.Valid() && mask in vpp.tables && vpp.tables[mask] == table && GoodWant(w, mask)
      modifies vpp`sessions
      ensures vpp.Valid()
      ensures vpp.sessions == if ok then old(vpp.sessions)[w.key := w.hit] else old(vpp.sessions)
      ensures vpp.obliging ==> ok
    {
      hide TableKey, CanonicalFor, C.SessionKey, StoredKey, GoodTables, GoodLinks, GoodPolicers;
      CanonicalStoredKey(w.mask, w.prefix);
      ok := vpp.AddSession(table, w.mask, w.prefix, w.hit);
    }

    method DeleteKeys(table: nat, mask: MaskKind, keys: set<Key>) returns (deleted: int, ok: bool)
      requires vpp.Valid() && mask in vpp.tables && vpp.tables[mask] == table
      requires forall k | k in keys :: TableKey(mask, k)
      modifies vpp`sessions
      ensures vpp.Valid()
      ensures ok ==> vpp.sessions == old(vpp.sessions) - Namespaced(mask, keys) && deleted == |keys|
    {
      hide TableKey, GoodTables, GoodLinks, GoodPolicers;
      deleted := 0;
      var todo := keys;
      assert Namespaced(mask, keys - todo) == {};
      while todo != {}
        invariant vpp.Valid() && todo <= keys
        invariant vpp.sessions == old(vpp.sessions) - Namespaced(mask, keys - todo)
        invariant deleted == |keys| - |todo|
      {
        var k :| k in todo;
        var done := vpp.DelSessionByKey(table, mask, k);
        if !done { return deleted, false; }
        deleted := deleted + 1;
        assert Namespaced(mask, keys - (todo - {k})) == Namespaced(mask, keys - todo) + {(mask, k)};
        todo := todo - {k};
      }
      assert keys - todo == keys;
      ok := true;
    }

    // ----- sessions, full pass ---------------------------------------------------------------

    /** One mask's table: sweep the orphans, add the missing, move the re-pointed. */
    method ReconcileMask(table: nat, mask: MaskKind, wants: seq<SessionWant>, ghost g: map<SKey, nat>)
      returns (c: SessionCounts, ok: bool)
      requires vpp.Valid() && mask in vpp.tables && vpp.tables[mask] == table
      requires DistinctWants(wants) && forall w | w in wants :: GoodWant(w, mask)
      requires WantMap(wants) == OnMask(g, mask)
      modifies vpp`sessions
      ensures vpp.Valid()
      ensures ok ==> vpp.sessions == Mix(old(vpp.sessions), g, {mask}) && CountsOn(old(vpp.sessions), g, {mask}, c)
    {
      hide GoodTables, GoodLinks, GoodPolicers, GoodSessions, TableKey, GoodWant, DistinctWants, Slice, Mix, CountsOn,
           MovedKeys, Namespaced, Within, WantMap, OnMask, Upserted;
      c := SessionCounts(0, 0, 0);
      var dump := vpp.DumpSessions(table, mask);
      if dump.Err? { return c, false; }
      ghost var s0 := vpp.sessions;
      SliceKeys(s0, vpp.tables, mask);
      var wantKeys := set w | w in wants :: w.key;
      var orphans := set k | k in dump.value && (mask, k) !in wantKeys;
      var actualHit := map k | k in dump.value :: (mask, k) := dump.value[k];
      HitsKnown(s0, mask, wants, orphans, actualHit);
      var deleted, gone := DeleteKeys(table, mask, orphans);
      c := c.(deleted := deleted);
      if !gone { return c, false; }
      var added, moved, done, n := ApplySessionUpserts(table, mask, wants, actualHit);
      if !done { return c, false; }
      assert wants[..n] == wants;
      c := c.(added := added, moved := moved);
      MaskDone(s0, g, mask, wants, orphans, vpp.sessions, c);
      ok := true;
    }

    /** A table no desired session uses: every session on it is an orphan. */
    method PruneTable(table: nat, mask: MaskKind, ghost g: map<SKey, nat>) returns (c: SessionCounts, ok: bool)
      requires vpp.Valid() && mask in vpp.tables && vpp.tables[mask] == table && OnMask(g, mask) == map[]
      modifies vpp`sessions
      ensures vpp.Valid()
      ensures ok ==> vpp.sessions == Mix(old(vpp.sessions), g, {mask}) && CountsOn(old(vpp.sessions), g, {mask}, c)
    {
      hide GoodTables, GoodLinks, GoodPolicers, GoodSessions, TableKey, Slice, Mix, CountsOn, MovedKeys, Namespaced,
           Within;
      c := SessionCounts(0, 0, 0);
      var dump := vpp.DumpSessions(table, mask);
      if dump.Err? { return c, false; }
      ghost var s0 := vpp.sessions;
      SliceKeys(s0, vpp.tables, mask);
      var orphans := dump.value.Keys;
      forall k: Key ensures k in Slice(s0, mask) <==> (mask, k) in s0 { SliceAt(s0, mask, k); }
      WholeTable(s0, g, mask, orphans);
      NamespacedCard(mask, orphans);
      PrunedTable(s0, g, mask, Namespaced(mask, orphans));
      var deleted, gone := DeleteKeys(table, mask, orphans);
      c := c.(deleted := deleted);
      ok := gone;
    }

    /** The masks desired uses, one by one. */
    method SweepDesired(byMask: map<MaskKind, seq<SessionWant>>, ghost g: map<SKey, nat>)
      returns (c: SessionCounts, tables: map<MaskKind, nat>, ok: bool)
      requires vpp.Valid()
      requires forall m | m in byMask :: DistinctWants(byMask[m]) && (forall w | w in byMask[m] :: GoodWant(w, m)) &&
                                         WantMap(byMask[m]) == OnMask(g, m)
      modifies vpp`tables, vpp`next, vpp`sessions
      ensures vpp.Valid()
      ensures ok ==> tables == vpp.tables && vpp.tables.Keys == old(vpp.tables.Keys) + byMask.Keys
      ensures ok ==> Swept(old(vpp.sessions), g, byMask.Keys, vpp.sessions, c)
    {
      hide GoodTables, GoodLinks, GoodPolicers, GoodSessions, Swept, CountsOn, Mix, GoodWant, DistinctWants, WantMap,
           OnMask;
      c := SessionCounts(0, 0, 0);
      tables := map[];
      var found := vpp.FindTablesByMask();
      if found.Err? { return c, tables, false; }
      tables := found.value;
      ghost var s0 := vpp.sessions;
      SweptStart(s0, g);
      var todo := byMask.Keys;
      assert byMask.Keys - todo == {};
      while todo != {}
        invariant vpp.Valid() && todo <= byMask.Keys && tables == vpp.tables
        invariant vpp.tables.Keys == old(vpp.tables.Keys) + (byMask.Keys - todo)
        invariant Swept(s0, g, byMask.Keys - todo, vpp.sessions, c)
      {
        var mask :| mask in todo;
        assert byMask.Keys - (todo - {mask}) == (byMask.Keys - todo) + {mask};
        ghost var s1 := vpp.sessions;
        var t, table, got := EnsureTable(tables, mask);
        if !got { return c, tables, false; }
        tables := t;
        var d, done := ReconcileMask(table, mask, byMask[mask], g);
        if !done { return c, tables, false; }
        SweptStep(s0, g, byMask.Keys - todo, s1, c, mask, vpp.sessions, d);
        c := SessionCounts(c.added + d.added, c.deleted + d.deleted, c.moved + d.moved);
        todo := todo - {mask};
      }
      assert byMask.Keys - todo == byMask.Keys;
      ok := true;
    }

    /** The tables of masks desired no longer uses. */
    method SweepEmptied(tables: map<MaskKind, nat>, used: set<MaskKind>, c0: SessionCounts, ghost s0: map<SKey, nat>,
                        ghost g: map<SKey, nat>)
      returns (c: SessionCounts, ok: bool)
      requires vpp.Valid() && tables == vpp.tables && Swept(s0, g, used, vpp.sessions, c0)
      requires forall m | m !in used :: OnMask(g, m) == map[]
      modifies vpp`sessions
      ensures vpp.Valid()
      ensures ok ==> Swept(s0, g, used + tables.Keys, vpp.sessions, c)
    {
      hide GoodTables, GoodLinks, GoodPolicers, GoodSessions, Swept, CountsOn, Mix, OnMask;
      c := c0;
      var todo := tables.Keys - used;
      assert used + (tables.Keys - todo) == used;
      while todo != {}
        invariant vpp.Valid() && todo <= tables.Keys - used
        invariant Swept(s0, g, used + (tables.Keys - todo), vpp.sessions, c)
      {
        var mask :| mask in todo;
        assert used + (tables.Keys - (todo - {mask})) == (used + (tables.Keys - todo)) + {mask};
        ghost var s1 := vpp.sessions;
        var d, done := PruneTable(tables[mask], mask, g);
        if !done { return c, false; }
        SweptStep(s0, g, used + (tables.Keys - todo), s1, c, mask, vpp.sessions, d);
        c := SessionCounts(c.added + d.added, c.deleted + d.deleted, c.moved + d.moved);
        todo := todo - {mask};
      }
      assert used + (tables.Keys - todo) == used + tables.Keys;
      ok := true;
    }

    /** After a completed pass the tables hold exactly the desired sessions, on every mask. */
    method ReconcileClassify(desired: seq<Session>) returns (c: SessionCounts, ok: bool)
      requires Runnable() && DistinctKeys(desired)
      modifies vpp`tables, vpp`next, vpp`sessions
      ensures Runnable()
      ensures ok ==> vpp.sessions == Goal(desired, polIdx)
      ensures ok ==> c == SessionCounts(|vpp.sessions.Keys - old(vpp.sessions).Keys|,
                                        |old(vpp.sessions).Keys - vpp.sessions.Keys|,
                                        |MovedKeys(old(vpp.sessions), vpp.sessions)|)
    {
      hide GoodTables, GoodLinks, Listed, Swept, MovedKeys, DistinctKeys, Grouped, Goal, Resolvable;
      c := SessionCounts(0, 0, 0);
      var built := BuildSessionWants(desired);
      if built.Err? { return c, false; }
      var byMask := built.value;
      ghost var s0, g := vpp.sessions, Goal(desired, polIdx);
      WantsReady(byMask, desired, polIdx, parse);
      var c1, tables, swept := SweepDesired(byMask, g);
      if !swept { return c1, false; }
      c, ok := SweepEmptied(tables, byMask.Keys, c1, s0, g);
      if ok {
        GoalMasks(byMask, desired, polIdx);
        SweptEnd(s0, g, byMask.Keys + tables.Keys, vpp.sessions, c);
      }
    }

    // ----- relearning, counting, publishing --------------------------------------------------------

    method DumpAllTables() returns (r: Result<map<MaskKind, map<Key, nat>>>)
      requires vpp.Valid()
      ensures r.Ok? ==> r.value.Keys == vpp.tables.Keys &&
                        forall m | m in r.value :: r.value[m] == Slice(vpp.sessions, m)
    {
      hide GoodTables, GoodLinks, GoodSessions, GoodPolicers, Slice;
      var tables := vpp.FindTablesByMask();
      if tables.Err? { return Err; }
      var actual: map<MaskKind, map<Key, nat>> := map[];
      var todo := tables.value.Keys;
      while todo != {}
        invariant todo <= tables.value.Keys && actual.Keys == tables.value.Keys - todo
        invariant forall m | m in actual :: actual[m] == Slice(vpp.sessions, m)
      {
        var mask :| mask in todo;
        var dump := vpp.DumpSessions(tables.value[mask], mask);
        if dump.Err? { return Err; }
        actual := actual[mask := dump.value];
        todo := todo - {mask};
      }
      r := Ok(actual);
    }

    /** Recovers unknown indexes from installed sessions, without touching VPP. */
    method RelearnPolicerIndexes(d: State) returns (ok: bool)
      requires vpp.Valid()
      modifies this`polIdx
      ensures polIdx == if ok then RelearnStep(d, old(polIdx), vpp.sessions) else old(polIdx)
    {
      if forall p | p in d.policers :: p.name in polIdx { return true; }
      var dumps := DumpAllTables();
      if dumps.Err? { return false; }
      hide GoodSessions, GoodTables, GoodLinks, GoodPolicers, Slice, Keyed, KeyOr, SK, Relearn;
      RelearnNone(polIdx, vpp.sessions);
      for i := 0 to |d.sessions|
        invariant polIdx == Relearn(d.sessions[..i], old(polIdx), vpp.sessions)
      {
        var s := d.sessions[i];
        assert d.sessions[..i + 1] == d.sessions[..i] + [s];
        RelearnSnoc(d.sessions[..i], s, old(polIdx), vpp.sessions);
        DumpAnswers(dumps.value, vpp.sessions, vpp.tables, s);
        if s.policerName !in polIdx && Keyed(s) {
          if s.mask in dumps.value && KeyOr(s) in dumps.value[s.mask] {
            polIdx := polIdx[s.policerName := dumps.value[s.mask][KeyOr(s)]];
          }
        }
      }
      assert d.sessions[..|d.sessions|] == d.sessions;
      ok := true;
    }

    /** The authoritative counts: managed policers, and sessions over every mask table. */
    method CountProgrammed() returns (policers: int, sessions: int, ok: bool)
      requires vpp.Valid()
      ensures ok ==> policers == |Managed(vpp.policers, parse)| && sessions == |vpp.sessions|
    {
      policers, sessions := 0, 0;
      var dump := vpp.DumpPolicers();
      if dump.Err? { return policers, sessions, false; }
      ghost var managed := Managed(vpp.policers, parse);
      var todo := dump.value.Keys;
      assert managed - todo == {};
      while todo != {}
        invariant todo <= dump.value.Keys && policers == |managed - todo|
      {
        var name :| name in todo;
        CountStep(managed, todo, name);
        if parse(name).Some? { policers := policers + 1; }
        todo := todo - {name};
      }
      assert managed - todo == managed;
      sessions, ok := CountSessions();
    }

    method CountSessions() returns (sessions: int, ok: bool)
      requires vpp.Valid()
      ensures ok ==> sessions == |vpp.sessions|
    {
      hide GoodTables, GoodLinks, GoodSessions, GoodPolicers, Slice, Within;
      sessions := 0;
      var tables := vpp.FindTablesByMask();
      if tables.Err? { return sessions, false; }
      AllSessionsWithin(vpp.sessions, vpp.tables);
      var todo := tables.value.Keys;
      ghost var done: set<MaskKind> := {};
      while todo != {}
        invariant todo + done == tables.value.Keys && todo !! done
        invariant sessions == |Within(vpp.sessions.Keys, done)|
      {
        var mask :| mask in todo;
        WithinAdd(vpp.sessions.Keys, done, mask);
        SliceCard(vpp.sessions, mask);
        var part := vpp.DumpSessions(tables.value[mask], mask);
        if part.Err? { return sessions, false; }
        sessions := sessions + |part.value|;
        todo, done := todo - {mask}, done + {mask};
      }
      ok := true;
    }

    /** Collects the distinct pools of the learned policers. */
    method RecomputePoolHash()
      modifies this`poolIds
      ensures (forall i, j | 0 <= i < j < |poolIds| :: poolIds[i] != poolIds[j]) &&
              (set p | p in poolIds) == PoolSet(polIdx, parse)
    {
      var ids: seq<PoolID> := [];
      var todo := polIdx.Keys;
      while todo != {}
        invariant todo <= polIdx.Keys
        invariant forall i, j | 0 <= i < j < |ids| :: ids[i] != ids[j]
        invariant forall p :: p in ids <==> exists n :: n in polIdx && n !in todo && parse(n) == Some(p)
      {
        var name :| name in todo;
        var pool := parse(name);
        if pool.Some? && pool.value !in ids { ids := ids + [pool.value]; }
        todo := todo - {name};
      }
      poolIds := ids;
    }

    // ----- the full pass -----------------------------------------------------------------------------

    /** What a pass starting now finds. */
    ghost function Now(): (f: Found)
      reads this`polIdx, vpp
    {
      Found(vpp.policers, vpp.sessions, polIdx, vpp.bound4, vpp.bound6)
    }

    /** Policers, then sessions, from any VPP contents and any indexes. A completed run leaves exactly the
        desired managed policers and the goal under the known indexes; it converged exactly when the indexes
        were usable. Every exit keeps the indexes right if those after relearning are, and only then does the
        exit right after relearning, when the policer dump fails. */
    method Program(d: State) returns (pc: PolicerCounts, sc: SessionCounts, ok: bool, ghost dumpFailed: bool)
      requires Runnable() && WellFormed(d, parse)
      modifies this`polIdx, vpp`policers, vpp`tables, vpp`next, vpp`sessions
      ensures Runnable()
      ensures Sound(old(Now()).Relearned(d), old(vpp.policers)) ==> Tracked()
      ensures dumpFailed ==> !ok && polIdx == old(Now()).Relearned(d) && vpp.policers == old(vpp.policers)
      ensures dumpFailed ==> (Tracked() <==> Sound(old(Now()).Relearned(d), old(vpp.policers)))
      ensures ok ==> Programmed(this, d, old(Now()))
      ensures ok ==> Reports(d, parse, old(vpp.policers), old(Now()).Relearned(d), old(vpp.sessions),
                             vpp.sessions, pc.added, pc.updated, pc.deleted, sc)
    {
      hide GoodTables, GoodLinks, GoodSessions, GoodPolicers, Tracks, Listed, RelearnStep, WellFormed, Goal, OffRate,
           RatesSet, AtRate, Managed, MovedKeys, DistinctKeys, ByName, Converged, AllSettled, Usable, Sound, AsSent,
           KeptAsSent;
      pc, sc := PolicerCounts(0, 0, 0), SessionCounts(0, 0, 0);
      ReadyAfterRelearn(d, polIdx, vpp.sessions, vpp.tables, vpp.policers, parse);
      ghost var f := Now();
      var learned := RelearnPolicerIndexes(d);
      dumpFailed := false;
      if !learned { return pc, sc, false, false; }
      var p, done, dumped := ReconcilePolicers(d.policers);
      if !done { return pc, sc, false, !dumped; }
      pc := p;
      sc, ok := ReconcileClassify(d.sessions);
      if ok {
        ConvergedIff(d, parse, f.policers, f.Relearned(d), vpp.policers, polIdx, vpp.sessions);
        if f.CanUse(d) { AsSentAfterPassIff(d, parse, f.policers, f.Relearned(d), vpp.policers, polIdx, vpp.sessions); }
      }
    }

    ghost predicate Defers(d: State)
      reads this
    {
      G.Defers(GuardState(), EmptyDesired(d))
    }

    /** The reported counts are VPP's. */
    ghost predicate Anchored()
      reads this, vpp
    {
      actAnchored && actPol == |Managed(vpp.policers, parse)| && actSess == |vpp.sessions|
    }

    /** The part of a pass that reaches VPP. */
    method RunPass(d: State) returns (res: PassResult, ok: bool)
      requires Runnable() && WellFormed(d, parse)
      modifies this`polIdx, this`actPol, this`actSess, this`actAnchored, vpp
      ensures Runnable()
      ensures Sound(old(Now()).Relearned(d), old(vpp.policers)) ==> Tracked()
      ensures ok ==> Completed(this, d, old(Now()), res)
      ensures ok ==> Anchored() || (actPol == old(actPol) && actSess == old(actSess) && actAnchored == old(actAnchored))
    {
      hide GoodTables, GoodLinks, GoodSessions, GoodPolicers, Tracks, Listed, Sound, Usable, RelearnStep, WellFormed,
           Reports, Programmed, InPlace, B.OnHeads, B.Counts, B.Chained;
      res := PassResult(PolicerCounts(0, 0, 0), SessionCounts(0, 0, 0), 0, 0, 0);
      var pc, sc, programmed, _ := Program(d);
      if !programmed { return res, false; }
      res := res.(policers := pc, sessions := sc);
      ghost var f := old(Now());
      NoChangeIff(this, d, f, pc, sc);
      var changed, bound := B.ReconcileBindings(vpp, policerIfaces);
      if !bound { return res, false; }
      res := res.(bindings := changed);
      var pa, sa, counted := CountProgrammed();
      if counted {
        res := res.(policersActual := pa, sessionsActual := sa);
        actPol, actSess, actAnchored := pa, sa, true;
      }
      ok := true;
    }

    /** One full pass, from any VPP contents and any known indexes. A desired state that just collapsed to empty
        is held back once. Otherwise a completed pass reports exactly what it changed and leaves VPP as
        `Converged` says exactly when it could use its indexes: from right ones, when each desired policer that
        VPP has and that must be relearned sits at the index its first installed session hits. Right indexes
        stay right on every exit if each policer to be relearned is one VPP has, at that index. */
    method Reconcile(d: State) returns (res: PassResult, ok: bool)
      requires Runnable() && WellFormed(d, parse)
      modifies this, vpp
      ensures Runnable()
      ensures Sound(old(Now()).Relearned(d), old(vpp.policers)) ==> Valid()
      ensures old(Tracked()) && FirstHitsLive(d, old(polIdx), old(vpp.sessions), old(vpp.policers)) ==> Valid()
      ensures GuardState() == G.After(old(GuardState()), G.Pass(EmptyDesired(d), ok))
      ensures old(Defers(d)) <==> d.policers == [] && d.sessions == [] && old(appliedNonEmpty && !pendingEmpty)
      ensures ok && !old(Defers(d)) ==> (appliedNonEmpty <==> d.policers != [] || d.sessions != [])
      ensures old(Defers(d)) ==>
                ok && NoChange(res) && unchanged(vpp) && polIdx == old(polIdx) && lastGen == old(lastGen)
      ensures !ok ==> lastGen == old(lastGen)
      ensures ok && !old(Defers(d)) ==>
                lastGen == d.generation && polSnap == polIdx && (set p | p in poolIds) == PoolSet(polIdx, parse)
      ensures ok && !old(Defers(d)) ==> Completed(this, d, old(Now()), res)
      ensures ok && !old(Defers(d)) && old(Tracked()) ==>
                (Converged(d, parse, old(vpp.policers), old(Now()).Relearned(d), vpp.policers, polIdx,
                           vpp.sessions) <==>
                 FirstHitsRight(d, old(polIdx), old(vpp.sessions), old(vpp.policers)))
      ensures ok && !old(Defers(d)) && old(Tracked() && AllKnown()) ==>
                Converged(d, parse, old(vpp.policers), old(Now()).Relearned(d), vpp.policers, polIdx, vpp.sessions)
      ensures ok && !old(Defers(d)) ==>
                Anchored() || (actPol == old(actPol) && actSess == old(actSess) && actAnchored == old(actAnchored))
    {
      hide GoodTables, GoodLinks, GoodSessions, GoodPolicers, Tracks, Listed, Sound, Usable, RelearnStep, WellFormed,
           Converged, PoolSet, ByName, Managed, DistinctKeys, FirstHitsLive, FirstHitsRight, Completed;
      ReadyAfterRelearn(d, polIdx, vpp.sessions, vpp.tables, vpp.policers, parse);
      LearnedIff(d, polIdx, vpp.sessions, vpp.policers, parse);
      KnownIsRight(d, polIdx, vpp.sessions, vpp.policers, parse);
      res := PassResult(PolicerCounts(0, 0, 0), SessionCounts(0, 0, 0), 0, 0, 0);
      var desiredEmpty := |d.policers| == 0 && |d.sessions| == 0;
      if desiredEmpty && appliedNonEmpty && !pendingEmpty {
        pendingEmpty := true;
        return res, true;
      }
      pendingEmpty := false;
      res, ok := RunPass(d);
      if !ok { return res, false; }
      CompletedIff(this, d, old(Now()), res);
      polSnap := polIdx;
      lastGen := d.generation;
      appliedNonEmpty := !desiredEmpty;
      RecomputePoolHash();
    }
  }
}
