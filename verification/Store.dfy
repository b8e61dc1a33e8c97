/** The held desired state and its fail-static, stale-render discipline (internal/agent/desiredstore.go). */
module Store {
  import opened Model
  import opened Desired

  /** The store as a value. Clocks (`lastTouch`) are not modelled. */
  datatype Held = Held(state: Option<State>, healthy: bool, contentAsOf: int)

  const EMPTY: Held := Held(None, false, 0)

  function Max(a: int, b: int): (m: int) { if b > a then b else a }

  /** A snapshot is refused when it is an older generation, or stamped before content already held. */
  predicate Refused(h: Held, st: State) {
    h.state.Some? &&
    (st.generation < h.state.value.generation || (st.generatedAt > 0 && st.generatedAt < h.contentAsOf))
  }

  datatype Event = Accept(st: State) | Merge(d: Delta) | ControllerDown | ControllerUp

  function Step(h: Held, e: Event): (r: Held) {
    match e
    case Accept(st) => if Refused(h, st) then h else Held(Some(st), true, Max(h.contentAsOf, st.generatedAt))
    case Merge(d) =>
      if h.state.None? then h
      else Held(Some(MergeState(h.state.value, d)), true, Max(h.contentAsOf, d.generatedAt))
    case ControllerDown => h.(healthy := false)
    case ControllerUp => h.(healthy := true)
  }

  function Run(h: Held, es: seq<Event>): (r: Held) {
    if es == [] then h else Step(Run(h, es[..|es| - 1]), es[|es| - 1])
  }

  // ----- runs ------------------------------------------------------------------------

  /** The stamp a run took at event `i`, if event `i` was taken at all. */
  function TakenStamp(h: Held, es: seq<Event>, i: nat): (r: Option<int>)
    requires i < |es|
  {
    var before := Run(h, es[..i]);
    match es[i]
    case Accept(st) => if Refused(before, st) then None else Some(st.generatedAt)
    case Merge(d) => if before.state.None? then None else Some(d.generatedAt)
    case _ => None
  }

  /** The last event moves the watermark up to the stamp it took, if any. */
  lemma LastStamp(h: Held, es: seq<Event>)
    requires es != []
    ensures var n := |es| - 1;
            Run(h, es).contentAsOf ==
            if TakenStamp(h, es, n).Some? then Max(Run(h, es[..n]).contentAsOf, TakenStamp(h, es, n).value)
            else Run(h, es[..n]).contentAsOf
  {
    hide MergeState, Refused;
  }

  lemma StampsOfPrefix(h: Held, es: seq<Event>, n: nat)
    requires n <= |es|
    ensures forall i: nat | i < n :: TakenStamp(h, es[..n], i) == TakenStamp(h, es, i)
  {
    hide Run, Refused;
    forall i: nat | i < n ensures TakenStamp(h, es[..n], i) == TakenStamp(h, es, i) {
      assert es[..n][..i] == es[..i];
    }
  }

  /** The watermark is the largest stamp ever taken (or the initial one). */
  lemma {:induction false} WatermarkIsMaximum(h: Held, es: seq<Event>)
    ensures Run(h, es).contentAsOf >= h.contentAsOf
    ensures forall i: nat | i < |es| && TakenStamp(h, es, i).Some? ::
              TakenStamp(h, es, i).value <= Run(h, es).contentAsOf
    ensures Run(h, es).contentAsOf == h.contentAsOf ||
            exists i: nat :: i < |es| && TakenStamp(h, es, i) == Some(Run(h, es).contentAsOf)
  {
    hide TakenStamp, Step, Refused;
    if es == [] {
    } else {
      hide Run;
      var n := |es| - 1;
      var rest, top := es[..n], Run(h, es).contentAsOf;
      WatermarkIsMaximum(h, rest);
      LastStamp(h, es);
      StampsOfPrefix(h, es, n);
      if top != Run(h, rest).contentAsOf {
        assert TakenStamp(h, es, n) == Some(top);
      } else if top != h.contentAsOf {
        var i: nat :| i < n && TakenStamp(h, rest, i) == Some(top);
        assert TakenStamp(h, es, i) == Some(top);
      }
    }
  }

  /** Events that may change a pool installed by a delta stamped `w`: a delta touching it, or a
      snapshot that carries no stamp or one not older than `w`. */
  predicate MayChange(e: Event, pool: PoolID, w: int) {
    match e
    case Merge(d) => pool in Touched(d)
    case Accept(st) => st.generatedAt <= 0 || st.generatedAt >= w
    case _ => false
  }

  /** No event of a foreign pool's delta re-adds elements under this pool id. */
  predicate ForeignClean(e: Event, pool: PoolID) {
    e.Merge? && pool !in Touched(e.d) ==>
      Keep(Flatten(e.d.upserts, UpPolicers), pool, PolicerPool) == [] &&
      Keep(Flatten(e.d.upserts, UpSessions), pool, SessionPool) == []
  }

  predicate SamePool(a: State, b: State, pool: PoolID) {
    Keep(a.policers, pool, PolicerPool) == Keep(b.policers, pool, PolicerPool) &&
    Keep(a.sessions, pool, SessionPool) == Keep(b.sessions, pool, SessionPool)
  }

  lemma MergeKeepsForeignPool(st: State, d: Delta, pool: PoolID)
    requires pool !in Touched(d) && ForeignClean(Merge(d), pool)
    ensures SamePool(MergeState(st, d), st, pool)
  {
    KeepOfReplaced(st.policers, Touched(d), Flatten(d.upserts, UpPolicers), pool, PolicerPool);
    KeepOfReplaced(st.sessions, Touched(d), Flatten(d.upserts, UpSessions), pool, SessionPool);
  }

  /** Stale-render guard: what a delta stamped `w` brought in for a pool is still held, unchanged, after
      any run without an event that may change it, however many newer generations were offered. */
  lemma {:induction false} PoolOutlivesStaleSnapshots(h: Held, es: seq<Event>, pool: PoolID, w: int)
    requires h.state.Some? && h.contentAsOf >= w
    requires forall e | e in es :: !MayChange(e, pool, w) && ForeignClean(e, pool)
    ensures Run(h, es).state.Some? && Run(h, es).contentAsOf >= w
    ensures SamePool(Run(h, es).state.value, h.state.value, pool)
  {
    if es == [] {
    } else {
      var rest, e := es[..|es| - 1], es[|es| - 1];
      assert e in es;
      PoolOutlivesStaleSnapshots(h, rest, pool, w);
      if e.Merge? {
        MergeKeepsForeignPool(Run(h, rest).state.value, e.d, pool);
      }
    }
  }

  /** From the moment a stamped delta is merged the guard above applies. */
  lemma MergedDeltaIsProtected(h: Held, d: Delta, es: seq<Event>, pool: PoolID)
    requires h.state.Some? && pool in Touched(d) && OwnIds(d)
    requires forall e | e in es :: !MayChange(e, pool, d.generatedAt) && ForeignClean(e, pool)
    ensures Run(Step(h, Merge(d)), es).state.Some?
    ensures forall u | u in d.upserts && u.poolID == pool ::
              Keep(Run(Step(h, Merge(d)), es).state.value.policers, pool, PolicerPool) == u.policers &&
              Keep(Run(Step(h, Merge(d)), es).state.value.sessions, pool, SessionPool) == u.sessions
  {
    PoolOutlivesStaleSnapshots(Step(h, Merge(d)), es, pool, d.generatedAt);
    MergeOverridesPools(h.state.value, d, pool);
  }

  predicate CleanEvent(e: Event) {
    match e
    case Accept(st) => NoDuplicatePrefixes(st)
    case Merge(d) => CleanAnnouncements(d)
    case _ => true
  }

  /** In every run the held anchors and flow sources stay free of duplicate prefixes. */
  lemma {:induction false} RunKeepsPrefixesUnique(h: Held, es: seq<Event>)
    requires h.state.Some? ==> NoDuplicatePrefixes(h.state.value)
    requires forall e | e in es :: CleanEvent(e)
    ensures Run(h, es).state.Some? ==> NoDuplicatePrefixes(Run(h, es).state.value)
  {
    if es == [] {
    } else {
      var rest, e := es[..|es| - 1], es[|es| - 1];
      assert e in es;
      RunKeepsPrefixesUnique(h, rest);
      if e.Merge? && Run(h, rest).state.Some? {
        MergeKeepsPrefixesUnique(Run(h, rest).state.value, e.d);
      }
    }
  }

  /** Fail-static: a cold store serves a state exactly when some snapshot has arrived, and losing or
      regaining the controller never changes what is served. */
  lemma {:induction false} ServesStateIffSnapshotSeen(es: seq<Event>)
    ensures Run(EMPTY, es).state.Some? <==> exists i: nat :: i < |es| && es[i].Accept?
  {
    if es == [] {
    } else {
      var n := |es| - 1;
      ServesStateIffSnapshotSeen(es[..n]);
      if exists i: nat :: i < |es| && es[i].Accept? {
        var i: nat :| i < |es| && es[i].Accept?;
        assert i < n ==> es[..n][i].Accept?;
      }
      if Run(EMPTY, es).state.Some? {
        if es[n].Accept? {
        } else {
          var i: nat :| i < n && es[..n][i].Accept?;
          assert es[i].Accept?;
        }
      }
    }
  }

  /** The held generation never goes back on one event, except when a delta of a lower generation is
      merged: an accepted snapshot overtaking a queued delta does that. */
  lemma GenerationDropsOnlyByMerge(h: Held, e: Event)
    requires h.state.Some?
    ensures Step(h, e).state.Some?
    ensures Step(h, e).state.value.generation < h.state.value.generation <==>
            e.Merge? && e.d.generation < h.state.value.generation
  {
  }

  /** Event `i` is a snapshot the store takes. */
  predicate TakenAt(h: Held, es: seq<Event>, i: nat)
    requires i < |es|
  {
    es[i].Accept? && !Refused(Run(h, es[..i]), es[i].st)
  }

  /** A snapshot is taken exactly when nothing is held yet, or when neither its generation nor, if it is stamped,
      its stamp is behind. Taking it replaces whatever was held. */
  lemma TakenIff(h: Held, es: seq<Event>, i: nat)
    requires i < |es| && es[i].Accept?
    ensures var before, st := Run(h, es[..i]), es[i].st;
            && (TakenAt(h, es, i) <==>
                  before.state.None? ||
                  (st.generation >= before.state.value.generation &&
                   (st.generatedAt <= 0 || st.generatedAt >= before.contentAsOf)))
            && Run(h, es[..i + 1]).state == (if TakenAt(h, es, i) then Some(st) else before.state)
  {
    assert es[..i + 1][..i] == es[..i];
  }

  /** A state with the deltas among some events merged into it, one after the other. */
  function MergedSince(st: State, es: seq<Event>): (r: State) {
    if es == [] then st
    else
      var r, e := MergedSince(st, es[..|es| - 1]), es[|es| - 1];
      if e.Merge? then MergeState(r, e.d) else r
  }

  /** Over every run the held state is the last snapshot taken with the deltas since then merged. */
  lemma {:induction false} HeldIsLastTaken(h: Held, es: seq<Event>, i: nat)
    requires i < |es| && TakenAt(h, es, i) && forall j: nat | i < j < |es| :: !TakenAt(h, es, j)
    ensures Run(h, es).state == Some(MergedSince(es[i].st, es[i + 1..]))
    decreases |es|
  {
    hide MergeState, Refused;
    var n := |es| - 1;
    var rest, since := es[..n], es[i + 1..];
    if i == n {
      assert since == [];
    } else {
      forall j: nat | j < n ensures TakenAt(h, rest, j) == TakenAt(h, es, j) { assert rest[..j] == es[..j]; }
      HeldIsLastTaken(h, rest, i);
      assert since[..|since| - 1] == rest[i + 1..] && since[|since| - 1] == es[n];
      assert !TakenAt(h, es, n);
    }
  }

  predicate GenerationUpTo(e: Event, g: nat) {
    (e.Accept? ==> e.st.generation <= g) && (e.Merge? ==> e.d.generation <= g)
  }

  predicate StampUpTo(e: Event, w: int) {
    (e.Accept? ==> e.st.generatedAt <= w) && (e.Merge? ==> e.d.generatedAt <= w)
  }

  lemma {:induction false} NeverNewer(h: Held, es: seq<Event>, g: nat, w: int)
    ensures (h.state.Some? ==> h.state.value.generation <= g) && (forall e | e in es :: GenerationUpTo(e, g)) ==>
              (Run(h, es).state.Some? ==> Run(h, es).state.value.generation <= g)
    ensures h.contentAsOf <= w && (forall e | e in es :: StampUpTo(e, w)) ==> Run(h, es).contentAsOf <= w
  {
    hide Refused;
    if es == [] {
    } else {
      assert es[|es| - 1] in es;
      NeverNewer(h, es[..|es| - 1], g, w);
    }
  }

  /** The newest snapshot always wins: after any run that saw no higher generation and, if it is stamped, no later
      stamp, it is what the store serves. */
  lemma NewestSnapshotWins(h: Held, es: seq<Event>, st: State)
    requires h.state.Some? ==> h.state.value.generation <= st.generation
    requires forall e | e in es :: GenerationUpTo(e, st.generation)
    requires st.generatedAt > 0 ==>
               h.contentAsOf <= st.generatedAt && forall e | e in es :: StampUpTo(e, st.generatedAt)
    ensures Run(h, es + [Accept(st)]).state == Some(st)
  {
    NeverNewer(h, es, st.generation, st.generatedAt);
    assert (es + [Accept(st)])[..|es|] == es;
  }

  /** Event `i` shows that the controller is there: it reports back, a snapshot is taken or a delta merged. */
  predicate Lively(h: Held, es: seq<Event>, i: nat)
    requires i < |es|
  {
    es[i].ControllerUp? || TakenAt(h, es, i) || (es[i].Merge? && Run(h, es[..i]).state.Some?)
  }

  ghost predicate LastLively(h: Held, es: seq<Event>) {
    exists i: nat :: i < |es| && Lively(h, es, i) && forall j: nat | i < j < |es| :: !es[j].ControllerDown?
  }

  /** The store counts as healthy exactly when the controller was not lost since it last showed. */
  lemma {:induction false} HealthyIff(es: seq<Event>)
    ensures Run(EMPTY, es).healthy <==> LastLively(EMPTY, es)
  {
    if es == [] {
    } else {
      HealthyIff(es[..|es| - 1]);
      LivelyStep(EMPTY, es);
      HealthyStep(EMPTY, es);
      hide *;
    }
  }

  lemma HealthyStep(h: Held, es: seq<Event>)
    requires es != []
    ensures var n := |es| - 1;
            Run(h, es).healthy <==> Lively(h, es, n) || (Run(h, es[..n]).healthy && !es[n].ControllerDown?)
  {
    hide MergeState, Refused;
  }

  lemma LivelyStep(h: Held, es: seq<Event>)
    requires es != []
    ensures var n := |es| - 1;
            LastLively(h, es) <==> Lively(h, es, n) || (LastLively(h, es[..n]) && !es[n].ControllerDown?)
  {
    var n := |es| - 1;
    var rest := es[..n];
    forall j: nat | j < n ensures Lively(h, rest, j) == Lively(h, es, j) { assert rest[..j] == es[..j]; }
    hide Lively;
    if LastLively(h, es) {
      var i: nat :| i < |es| && Lively(h, es, i) && forall j: nat | i < j < |es| :: !es[j].ControllerDown?;
      if i < n { assert Lively(h, rest, i) && forall j: nat | i < j < n :: !rest[j].ControllerDown?; }
    }
    if LastLively(h, rest) && !es[n].ControllerDown? {
      var i: nat :| i < n && Lively(h, rest, i) && forall j: nat | i < j < n :: !rest[j].ControllerDown?;
      assert Lively(h, es, i);
      forall j: nat | i < j < |es| ensures !es[j].ControllerDown? { if j < n { assert rest[j] == es[j]; } }
    }
  }

  // ----- the store -----------------------------------------------------------------------

  /** `filterOutPools` and `filterOutPrefixes`: one accumulating loop, two key selectors. */
  method FilterOutBy<T, K(==)>(xs: seq<T>, drop: set<K>, keyOf: T -> K) returns (out: seq<T>)
    ensures out == FilterOut(xs, drop, keyOf)
  {
    out := [];
    for i := 0 to |xs|
      invariant out == FilterOut(xs[..i], drop, keyOf)
    {
      assert xs[..i + 1][..i] == xs[..i];
      if keyOf(xs[i]) !in drop {
        out := out + [xs[i]];
      }
    }
    assert xs[..|xs|] == xs;
  }

  method TouchedPools(d: Delta) returns (touched: set<PoolID>)
    ensures touched == Touched(d)
  {
    touched := {};
    for i := 0 to |d.upserts|
      invariant touched == set u | u in d.upserts[..i] :: u.poolID
    {
      touched := touched + {d.upserts[i].poolID};
    }
    for i := 0 to |d.removed|
      invariant touched == (set u | u in d.upserts :: u.poolID) + (set id | id in d.removed[..i])
    {
      touched := touched + {d.removed[i]};
    }
  }

  method HeldPrefixes(sessions: seq<Session>, touched: set<PoolID>) returns (ps: set<Prefix>)
    ensures ps == set s | s in sessions && s.poolID in touched :: s.prefix
  {
    ps := {};
    for i := 0 to |sessions|
      invariant ps == set s | s in sessions[..i] && s.poolID in touched :: s.prefix
    {
      if sessions[i].poolID in touched { ps := ps + {sessions[i].prefix}; }
    }
  }

  method AnnouncedPrefixes(ups: seq<PoolDelta>) returns (ps: set<Prefix>)
    ensures ps == (set a | a in Flatten(ups, UpAnchors) :: a.prefix) +
                  (set f | f in Flatten(ups, UpFlows) :: f.srcPrefix)
  {
    ps := {};
    for i := 0 to |ups|
      invariant ps == (set a | a in Flatten(ups[..i], UpAnchors) :: a.prefix) +
                      (set f | f in Flatten(ups[..i], UpFlows) :: f.srcPrefix)
    {
      assert ups[..i + 1][..i] == ups[..i];
      ps := ps + (set a | a in ups[i].anchors :: a.prefix) + (set f | f in ups[i].flows :: f.srcPrefix);
    }
    assert ups[..|ups|] == ups;
  }

  class DesiredStore {
    var state: State
    var haveState: bool
    var healthy: bool
    var contentAsOf: int

    ghost function Value(): (h: Held)
      reads this
    {
      Held(if haveState then Some(state) else None, healthy, contentAsOf)
    }

    constructor ()
      ensures Value() == EMPTY
    {
      state := State(0, 0, 0, [], [], [], [], NoAddr, NoAddr);
      haveState, healthy, contentAsOf := false, false, 0;
    }

    method Accept(st: State) returns (taken: bool)
      modifies this
      ensures Value() == Step(old(Value()), Event.Accept(st))
      ensures taken == !Refused(old(Value()), st)
    {
      if haveState && st.generation < state.generation { return false; }
      if haveState && st.generatedAt > 0 && st.generatedAt < contentAsOf { return false; }
      state := st;
      haveState := true;
      healthy := true;
      if st.generatedAt > contentAsOf { contentAsOf := st.generatedAt; }
      return true;
    }

    /** Re-adds the upserts' contributions after the touched ones were dropped. */
    method ReAdd(ups: seq<PoolDelta>)
      modifies this`state
      ensures state == AddUpserts(old(state), ups)
    {
      for i := 0 to |ups|
        invariant state == AddUpserts(old(state), ups[..i])
      {
        var u := ups[i];
        assert ups[..i + 1][..i] == ups[..i];
        state := state.(policers := state.policers + u.policers);
        state := state.(sessions := state.sessions + u.sessions);
        state := state.(anchors := state.anchors + u.anchors);
        state := state.(flows := state.flows + u.flows);
        if u.nextHop.IsValid() { state := state.(nextHop := u.nextHop); }
        if u.nextHop6.IsValid() { state := state.(nextHop6 := u.nextHop6); }
      }
      assert ups[..|ups|] == ups;
    }

    /** Drops the touched pools' policers and sessions, and the announcements on their prefixes. */
    method DropTouchedPools(d: Delta)
      modifies this`state
      ensures state == DropTouched(old(state), d)
    {
      var touched := TouchedPools(d);
      var held := HeldPrefixes(state.sessions, touched);
      var announced := AnnouncedPrefixes(d.upserts);
      assert held + announced == TouchedPrefixes(state, d);
      var policers := FilterOutBy(state.policers, touched, PolicerPool);
      var sessions := FilterOutBy(state.sessions, touched, SessionPool);
      var anchors := FilterOutBy(state.anchors, held + announced, AnchorPrefix);
      var flows := FilterOutBy(state.flows, held + announced, FlowPrefix);
      state := state.(policers := policers, sessions := sessions, anchors := anchors, flows := flows);
    }

    method Merge(d: Delta) returns (prev: seq<Session>, ok: bool)
      modifies this
      ensures Value() == Step(old(Value()), Event.Merge(d))
      ensures ok == old(haveState)
      ensures prev == if ok then old(state.sessions) else []
    {
      if !haveState { return [], false; }
      prev := state.sessions;
      DropTouchedPools(d);
      ReAdd(d.upserts);
      state := state.(generation := d.generation);
      if d.desiredVersion != 0 { state := state.(desiredVersion := d.desiredVersion); }
      if d.generatedAt > contentAsOf { contentAsOf := d.generatedAt; }
      healthy := true;
      ok := true;
      MergeInSteps(old(state), d);
    }

    method ControllerDown()
      modifies this`healthy
      ensures Value() == Step(old(Value()), Event.ControllerDown)
    {
      healthy := false;
    }

    method ControllerUp()
      modifies this`healthy
      ensures Value() == Step(old(Value()), Event.ControllerUp)
    {
      healthy := true;
    }

    method Desired() returns (r: Option<State>)
      ensures r == Value().state
    {
      r := if haveState then Some(state) else None;
    }
  }
}
