/** Reassembling chunked snapshots from the controller's stream (internal/grpcclient/client.go). */
module Chunks {
  import opened Model
  import opened Desired

  /** One fragment of a full snapshot. */
  datatype Chunk = Chunk(epoch: nat, seqNo: nat, last: bool, part: State)

  /** What reaches the assembler: a fresh subscription, or a fragment on the current one. */
  datatype Event = NewStream | Fragment(c: Chunk)

  datatype Assembler = Assembler(epoch: nat, active: bool, bySeq: map<nat, Chunk>)

  const IDLE: Assembler := Assembler(0, false, map[])

  /** Fragments 0..n-1 in order. */
  function Listing(bySeq: map<nat, Chunk>, n: nat): (r: seq<Chunk>)
    requires forall i: nat | i < n :: i in bySeq
    ensures |r| == n && forall i: nat | i < n :: r[i] == bySeq[i]
  {
    if n == 0 then [] else Listing(bySeq, n - 1) + [bySeq[n - 1]]
  }

  /** Fragments 0..last in order, if none is missing. */
  function Ordered(bySeq: map<nat, Chunk>, last: nat): (r: Option<seq<Chunk>>) {
    if forall i: nat | i <= last :: i in bySeq then Some(Listing(bySeq, last + 1)) else None
  }

  /** The assembler after an event, and the fragments it hands on for assembly. */
  function Step(a: Assembler, e: Event): (r: (Assembler, Option<seq<Chunk>>)) {
    match e
    case NewStream => (IDLE, None)
    case Fragment(c) =>
      if a.active && c.epoch < a.epoch then (a, None)
      else
        var base := if !a.active || c.epoch > a.epoch then map[] else a.bySeq;
        var bySeq := base[c.seqNo := c];
        if c.last then (IDLE, Ordered(bySeq, c.seqNo)) else (Assembler(c.epoch, true, bySeq), None)
  }

  function RunFrom(a: Assembler, evs: seq<Event>): (r: Assembler) {
    if evs == [] then a else Step(RunFrom(a, evs[..|evs| - 1]), evs[|evs| - 1]).0
  }

  /** A whole run of the agent's assembler. */
  function Run(evs: seq<Event>): (a: Assembler) { RunFrom(IDLE, evs) }

  /** What event `i` of a run hands on. */
  function HandedAt(evs: seq<Event>, i: nat): (r: Option<seq<Chunk>>)
    requires i < |evs|
  {
    Step(Run(evs[..i]), evs[i]).1
  }

  // ----- never a partial, never a mix ----------------------------------------------------------------

  /** The fragment came in on the stream that is current after `evs`. */
  ghost predicate OnStream(evs: seq<Event>, c: Chunk) {
    exists k :: 0 <= k < |evs| && evs[k] == Fragment(c) && forall j | k < j < |evs| :: evs[j] != NewStream
  }

  lemma StillOnStream(evs: seq<Event>, e: Event, c: Chunk)
    requires OnStream(evs, c) && e != NewStream
    ensures OnStream(evs + [e], c)
  {
    var k :| 0 <= k < |evs| && evs[k] == Fragment(c) && forall j | k < j < |evs| :: evs[j] != NewStream;
    assert (evs + [e])[k] == Fragment(c);
  }

  lemma JustArrived(evs: seq<Event>, c: Chunk)
    ensures OnStream(evs + [Fragment(c)], c)
  {
    assert (evs + [Fragment(c)])[|evs|] == Fragment(c);
  }

  /** The buffer holds fragments of the epoch being assembled, received on the current stream. */
  ghost predicate Sorted(epoch: nat, bySeq: map<nat, Chunk>, evs: seq<Event>) {
    forall s | s in bySeq :: bySeq[s].seqNo == s && bySeq[s].epoch == epoch && OnStream(evs, bySeq[s])
  }

  /** Buffering one more fragment, on a fresh buffer when the epoch is new. */
  lemma BufferStays(a: Assembler, evs: seq<Event>, c: Chunk)
    requires Sorted(a.epoch, a.bySeq, evs) && !(a.active && c.epoch < a.epoch)
    ensures var base := if !a.active || c.epoch > a.epoch then map[] else a.bySeq;
            Sorted(c.epoch, base[c.seqNo := c], evs + [Fragment(c)])
  {
    hide OnStream;
    var base := if !a.active || c.epoch > a.epoch then map[] else a.bySeq;
    JustArrived(evs, c);
    forall s | s in base ensures OnStream(evs + [Fragment(c)], base[s]) { StillOnStream(evs, Fragment(c), base[s]); }
  }

  lemma {:induction false} BufferIsSorted(evs: seq<Event>)
    ensures Sorted(Run(evs).epoch, Run(evs).bySeq, evs)
  {
    hide OnStream;
    if evs == [] {
    } else {
      var rest, e := evs[..|evs| - 1], evs[|evs| - 1];
      var a := Run(rest);
      BufferIsSorted(rest);
      assert evs == rest + [e];
      if e.Fragment? {
        if a.active && e.c.epoch < a.epoch {
          forall s | s in a.bySeq ensures OnStream(evs, a.bySeq[s]) { StillOnStream(rest, e, a.bySeq[s]); }
        } else {
          BufferStays(a, rest, e.c);
        }
      }
    }
  }

  /** In every run, whatever is handed on is fragments 0..n of a single epoch, all received on the current
      stream, the last of them marked as last and just arrived. */
  lemma HandedIsWhole(evs: seq<Event>, i: nat)
    requires i < |evs| && HandedAt(evs, i).Some?
    ensures evs[i].Fragment? && evs[i].c.last
    ensures var c, parts := evs[i].c, HandedAt(evs, i).value;
            |parts| == c.seqNo + 1 && parts[c.seqNo] == c &&
            forall j | 0 <= j < |parts| ::
              parts[j].seqNo == j && parts[j].epoch == c.epoch && OnStream(evs[..i + 1], parts[j])
  {
    hide OnStream, Run;
    BufferIsSorted(evs[..i]);
    BufferStays(Run(evs[..i]), evs[..i], evs[i].c);
    assert evs[..i + 1] == evs[..i] + [evs[i]];
  }

  // ----- a complete newer snapshot always gets through --------------------------------------------------

  /** The fragments among `evs` that belong to `epoch`. */
  function OfEpoch(evs: seq<Event>, epoch: nat): (r: seq<Chunk>) {
    if evs == [] then []
    else
      var e := evs[|evs| - 1];
      OfEpoch(evs[..|evs| - 1], epoch) + if e.Fragment? && e.c.epoch == epoch then [e.c] else []
  }

  /** Fragments 0, 1, ... of `epoch`, none of them the last. */
  predicate InOrder(cs: seq<Chunk>, epoch: nat) {
    forall j | 0 <= j < |cs| :: cs[j].epoch == epoch && cs[j].seqNo == j && !cs[j].last
  }

  /** Fragments of older epochs only, besides those of `epoch`. */
  predicate NothingNewer(evs: seq<Event>, epoch: nat) { forall e | e in evs :: e.Fragment? && e.c.epoch <= epoch }

  function Indexed(cs: seq<Chunk>): (m: map<nat, Chunk>) { map i: nat | i < |cs| :: cs[i] }

  lemma IndexedSnoc(cs: seq<Chunk>, c: Chunk)
    ensures Indexed(cs)[|cs| := c] == Indexed(cs + [c])
  {
  }

  lemma {:induction false} NewerEpochBuffers(a: Assembler, evs: seq<Event>, epoch: nat)
    requires !a.active || a.epoch < epoch
    requires evs != [] && evs[0].Fragment? && evs[0].c.epoch == epoch && NothingNewer(evs, epoch)
    requires InOrder(OfEpoch(evs, epoch), epoch)
    ensures OfEpoch(evs, epoch) != [] && RunFrom(a, evs) == Assembler(epoch, true, Indexed(OfEpoch(evs, epoch)))
    decreases |evs|
  {
    var rest, e := evs[..|evs| - 1], evs[|evs| - 1];
    assert e in evs;
    var before := OfEpoch(rest, epoch);
    if rest == [] {
      assert OfEpoch(rest, epoch) == [] && OfEpoch(evs, epoch) == [e.c];
      assert OfEpoch(evs, epoch)[0] == e.c && RunFrom(a, rest) == a;
      assert Indexed([e.c]) == map[0 := e.c];
    } else {
      assert rest[0] == evs[0];
      assert forall j | 0 <= j < |before| :: before[j] == OfEpoch(evs, epoch)[j];
      NewerEpochBuffers(a, rest, epoch);
      IndexedSnoc(before, e.c);
      if e.c.epoch == epoch {
        assert OfEpoch(evs, epoch)[|before|] == e.c;
      } else {
        assert OfEpoch(evs, epoch) == before;
      }
    }
  }

  /** An in-order snapshot of a newer epoch supersedes whatever is unfinished and is handed on in full with
      its last fragment, however many stragglers of older epochs come in between. */
  lemma NewerEpochSupersedes(a: Assembler, evs: seq<Event>, epoch: nat, last: Chunk)
    requires !a.active || a.epoch < epoch
    requires evs != [] ==> evs[0].Fragment? && evs[0].c.epoch == epoch
    requires NothingNewer(evs, epoch) && InOrder(OfEpoch(evs, epoch), epoch)
    requires last.epoch == epoch && last.last && last.seqNo == |OfEpoch(evs, epoch)|
    ensures Step(RunFrom(a, evs), Fragment(last)) == (IDLE, Some(OfEpoch(evs, epoch) + [last]))
  {
    var cs := OfEpoch(evs, epoch);
    if evs != [] { NewerEpochBuffers(a, evs, epoch); }
    hide OfEpoch, RunFrom;
    IndexedSnoc(cs, last);
    assert Indexed([]) == map[];
    assert evs == [] ==> RunFrom(a, evs) == a && cs == [] by { NothingRun(a, epoch); }
    var all := cs + [last];
    assert Listing(Indexed(all), |all|) == all;
  }

  lemma NothingRun(a: Assembler, epoch: nat)
    ensures RunFrom(a, []) == a && OfEpoch([], epoch) == []
  {
  }

  /** An unfinished snapshot only protects itself: once a snapshot is complete its epoch is forgotten, so a
      complete older one is handed on again, even on the same stream. */
  lemma OlderEpochAfterNewer(st: State)
    ensures var evs := [Fragment(Chunk(2, 0, true, st)), Fragment(Chunk(1, 0, true, st))];
            HandedAt(evs, 0) == Some([Chunk(2, 0, true, st)]) && HandedAt(evs, 1) == Some([Chunk(1, 0, true, st)])
  {
    var e0, e1 := Fragment(Chunk(2, 0, true, st)), Fragment(Chunk(1, 0, true, st));
    var evs := [e0, e1];
    assert evs[..0] == [] && evs[..1] == [e0] && [e0][..0] == [];
    assert RunFrom(IDLE, []) == IDLE;
    assert RunFrom(IDLE, [e0]) == Step(RunFrom(IDLE, [e0][..0]), e0).0;
    assert Listing(map[0 := e0.c], 1) == [e0.c] && Listing(map[0 := e1.c], 1) == [e1.c];
  }

  // ----- what the assembler ignores, over whole runs -----------------------------------------------------

  /** Some fragment of `p` belongs to a newer epoch. */
  predicate Outdated(p: seq<Chunk>, epoch: nat) { exists i :: 0 <= i < |p| && p[i].epoch > epoch }

  /** The fragments received since the last snapshot ended. A snapshot ends with its stream, and with a last
      fragment unless that one itself comes too late. */
  function Partial(evs: seq<Event>): (p: seq<Chunk>) {
    if evs == [] then []
    else
      var p, e := Partial(evs[..|evs| - 1]), evs[|evs| - 1];
      if e == NewStream || (e.c.last && !Outdated(p, e.c.epoch)) then [] else p + [e.c]
  }

  /** Event `j` ended a snapshot. */
  predicate EndsAt(evs: seq<Event>, j: nat)
    requires j < |evs|
  {
    evs[j] == NewStream || (evs[j].c.last && !Outdated(Partial(evs[..j]), evs[j].c.epoch))
  }

  /** A fragment was received, at position `k`, and nothing from there on ended a snapshot. */
  predicate Unended(evs: seq<Event>, k: nat, c: Chunk) {
    k < |evs| && evs[k] == Fragment(c) && forall j | k <= j < |evs| :: !EndsAt(evs, j)
  }

  lemma UnendedSnoc(evs: seq<Event>, k: nat, c: Chunk)
    requires evs != []
    ensures var n := |evs| - 1;
            Unended(evs, k, c) <==> !EndsAt(evs, n) &&
                                    ((k == n && evs[n] == Fragment(c)) || (k < n && Unended(evs[..n], k, c)))
  {
    var n := |evs| - 1;
    forall j | 0 <= j < n ensures EndsAt(evs, j) == EndsAt(evs[..n], j) { assert evs[..n][..j] == evs[..j]; }
    hide EndsAt;
    if k < n && Unended(evs, k, c) {
      forall j | k <= j < n ensures !EndsAt(evs[..n], j) { assert !EndsAt(evs, j); }
    }
    if k < n && Unended(evs[..n], k, c) && !EndsAt(evs, n) {
      forall j | k <= j < |evs| ensures !EndsAt(evs, j) { if j < n { assert !EndsAt(evs[..n], j); } }
    }
  }

  /** The unfinished snapshot, read off the positions of the run. */
  lemma {:induction false} PartialIs(evs: seq<Event>, c: Chunk)
    ensures c in Partial(evs) <==> exists k :: Unended(evs, k, c)
    ensures Partial(evs) == [] <==> evs == [] || EndsAt(evs, |evs| - 1)
  {
    if evs == [] {
    } else {
      var n := |evs| - 1;
      PartialIs(evs[..n], c);
      forall k: nat
        ensures Unended(evs, k, c) <==>
                  !EndsAt(evs, n) && ((k == n && evs[n] == Fragment(c)) || (k < n && Unended(evs[..n], k, c)))
      {
        UnendedSnoc(evs, k, c);
      }
      forall k: nat | Unended(evs[..n], k, c) ensures k < n { }
      hide Unended, Outdated;
      if c in Partial(evs[..n]) && !EndsAt(evs, n) {
        var k: nat :| Unended(evs[..n], k, c);
        assert Unended(evs, k, c);
      }
      if evs[n] == Fragment(c) && !EndsAt(evs, n) { assert Unended(evs, n, c); }
    }
  }

  /** The last fragment of `p` with this epoch and number. */
  function Latest(p: seq<Chunk>, epoch: nat, s: nat): (r: Option<Chunk>)
    ensures r.Some? ==> r.value in p && r.value.epoch == epoch && r.value.seqNo == s
    ensures r.None? ==> forall c | c in p :: !(c.epoch == epoch && c.seqNo == s)
  {
    if p == [] then None
    else if p[|p| - 1].epoch == epoch && p[|p| - 1].seqNo == s then Some(p[|p| - 1])
    else Latest(p[..|p| - 1], epoch, s)
  }

  lemma LatestSnoc(p: seq<Chunk>, c: Chunk, epoch: nat, s: nat)
    ensures Latest(p + [c], epoch, s) == if c.epoch == epoch && c.seqNo == s then Some(c) else Latest(p, epoch, s)
  {
    assert (p + [c])[..|p|] == p;
  }

  /** The assembler holds the newest epoch of the unfinished snapshot, the latest fragment of each number. */
  ghost predicate Holds(a: Assembler, p: seq<Chunk>) {
    if p == [] then a == IDLE
    else
      && a.active && !Outdated(p, a.epoch) && (exists i :: 0 <= i < |p| && p[i].epoch == a.epoch)
      && forall s: nat :: LooksUp(a.bySeq, s, Latest(p, a.epoch, s))
  }

  predicate LooksUp(m: map<nat, Chunk>, s: nat, r: Option<Chunk>) {
    (s in m <==> r.Some?) && (s in m && r.Some? ==> m[s] == r.value)
  }

  lemma HoldsStale(a: Assembler, p: seq<Chunk>, c: Chunk)
    requires Holds(a, p) && Outdated(p, c.epoch)
    ensures a.active && c.epoch < a.epoch && Holds(a, p + [c])
  {
    var i :| 0 <= i < |p| && p[i].epoch > c.epoch;
    assert p[i].epoch <= a.epoch;
    var k :| 0 <= k < |p| && p[k].epoch == a.epoch;
    assert (p + [c])[k].epoch == a.epoch;
    forall s: nat ensures LooksUp(a.bySeq, s, Latest(p + [c], a.epoch, s)) {
      assert LooksUp(a.bySeq, s, Latest(p, a.epoch, s));
      LatestSnoc(p, c, a.epoch, s);
    }
  }

  lemma HoldsNext(a: Assembler, p: seq<Chunk>, c: Chunk)
    requires Holds(a, p) && !Outdated(p, c.epoch)
    ensures !(a.active && c.epoch < a.epoch)
    ensures Holds(Assembler(c.epoch, true, (if !a.active || c.epoch > a.epoch then map[] else a.bySeq)[c.seqNo := c]),
                  p + [c])
  {
    var base := if !a.active || c.epoch > a.epoch then map[] else a.bySeq;
    var q := p + [c];
    assert q[|p|].epoch == c.epoch;
    assert !Outdated(q, c.epoch);
    forall s: nat ensures LooksUp(base[c.seqNo := c], s, Latest(q, c.epoch, s)) {
      LatestSnoc(p, c, c.epoch, s);
      BaseLooksUp(a, p, c, s);
    }
  }

  lemma BaseLooksUp(a: Assembler, p: seq<Chunk>, c: Chunk, s: nat)
    requires Holds(a, p) && !Outdated(p, c.epoch)
    ensures LooksUp(if !a.active || c.epoch > a.epoch then map[] else a.bySeq, s, Latest(p, c.epoch, s))
  {
    if p != [] {
      assert LooksUp(a.bySeq, s, Latest(p, a.epoch, s));
      var k :| 0 <= k < |p| && p[k].epoch == a.epoch;
      assert p[k].epoch <= c.epoch;
      if c.epoch > a.epoch {
        forall d | d in p ensures d.epoch != c.epoch { var i :| 0 <= i < |p| && p[i] == d; }
      }
    }
  }

  lemma {:induction false} RunHoldsPartial(evs: seq<Event>)
    ensures Holds(Run(evs), Partial(evs))
  {
    if evs == [] {
    } else {
      var rest, e := evs[..|evs| - 1], evs[|evs| - 1];
      RunHoldsPartial(rest);
      hide Holds, Outdated, Ordered;
      IdleHolds();
      if e.Fragment? {
        if Outdated(Partial(rest), e.c.epoch) {
          HoldsStale(Run(rest), Partial(rest), e.c);
        } else {
          HoldsNext(Run(rest), Partial(rest), e.c);
        }
      }
    }
  }

  lemma IdleHolds()
    ensures Holds(IDLE, [])
  {
  }

  /** Some fragment of an epoch newer than `epoch` was received and its snapshot is unfinished. */
  predicate NewerUnfinished(evs: seq<Event>, epoch: nat) {
    exists k :: 0 <= k < |evs| && evs[k].Fragment? && evs[k].c.epoch > epoch && Unended(evs, k, evs[k].c)
  }

  lemma NewerUnfinishedIff(evs: seq<Event>, epoch: nat)
    ensures NewerUnfinished(evs, epoch) <==> Outdated(Partial(evs), epoch)
  {
    forall c ensures c in Partial(evs) <==> exists k :: Unended(evs, k, c) { PartialIs(evs, c); }
    hide Partial;
    if NewerUnfinished(evs, epoch) {
      var k :| 0 <= k < |evs| && evs[k].Fragment? && evs[k].c.epoch > epoch && Unended(evs, k, evs[k].c);
      assert evs[k].c in Partial(evs);
    }
    if Outdated(Partial(evs), epoch) {
      var i :| 0 <= i < |Partial(evs)| && Partial(evs)[i].epoch > epoch;
      var c := Partial(evs)[i];
      assert c in Partial(evs);
      var k: nat :| Unended(evs, k, c);
      assert evs[k].c == c && Unended(evs, k, evs[k].c);
    }
  }

  /** Over every run, a fragment leaves the assembler as it was and hands nothing on in exactly three cases: a
      newer snapshot is unfinished; nothing is unfinished and it is a last fragment that is not also the first;
      or it repeats the latest fragment of its number in the snapshot being assembled. In particular an older
      epoch is dropped while, and only while, the newer one is unfinished. */
  lemma DroppedIff(evs: seq<Event>, c: Chunk)
    ensures Step(Run(evs), Fragment(c)) == (Run(evs), None) <==>
            || NewerUnfinished(evs, c.epoch)
            || ((evs == [] || EndsAt(evs, |evs| - 1)) && c.last && c.seqNo > 0)
            || (!c.last && Latest(Partial(evs), c.epoch, c.seqNo) == Some(c))
  {
    RunHoldsPartial(evs);
    NewerUnfinishedIff(evs, c.epoch);
    PartialIs(evs, c);
    hide NewerUnfinished, Partial, Run, EndsAt, Unended;
    StepIdentityIff(Run(evs), Partial(evs), c);
  }

  lemma StepIdentityIff(a: Assembler, p: seq<Chunk>, c: Chunk)
    requires Holds(a, p)
    ensures Step(a, Fragment(c)) == (a, None) <==>
            Outdated(p, c.epoch) || (p == [] && c.last && c.seqNo > 0) ||
            (!c.last && Latest(p, c.epoch, c.seqNo) == Some(c))
  {
    if Outdated(p, c.epoch) {
      HoldsStale(a, p, c);
    } else {
      HoldsNext(a, p, c);
      BaseLooksUp(a, p, c, c.seqNo);
      hide Outdated, Latest;
      if c.last {
        if p == [] { assert Ordered(map[c.seqNo := c], c.seqNo).None? <==> c.seqNo > 0 by { LoneLast(c); } }
      } else {
        var base := if !a.active || c.epoch > a.epoch then map[] else a.bySeq;
        SameBuffer(base, c.seqNo, c);
        if Step(a, Fragment(c)) == (a, None) { assert a.bySeq == base[c.seqNo := c]; }
      }
    }
  }

  lemma LoneLast(c: Chunk)
    ensures Ordered(map[c.seqNo := c], c.seqNo).None? <==> c.seqNo > 0
  {
    if c.seqNo > 0 { assert 0 !in map[c.seqNo := c]; }
  }

  lemma SameBuffer(m: map<nat, Chunk>, s: nat, c: Chunk)
    ensures m[s := c] == m <==> s in m && m[s] == c
  {
    if s in m && m[s] == c { assert m[s := c].Keys == m.Keys; }
    if m[s := c] == m { assert m[s := c][s] == c; }
  }

  /** Each fragment number below `n` of the epoch is there. */
  predicate AllBefore(p: seq<Chunk>, epoch: nat, n: nat) { forall s | 0 <= s < n :: Latest(p, epoch, s).Some? }

  /** Over every run, a fragment completes a snapshot exactly when it is a last one, no newer snapshot is
      unfinished, and every fragment before it is there; what is handed on are then the latest of each. */
  lemma HandedIff(evs: seq<Event>, c: Chunk)
    ensures var out := Step(Run(evs), Fragment(c)).1;
            (out.Some? <==> c.last && !NewerUnfinished(evs, c.epoch) &&
                            AllBefore(Partial(evs), c.epoch, c.seqNo)) &&
            (out.Some? ==> |out.value| == c.seqNo + 1 && out.value[c.seqNo] == c &&
                           forall s: nat | s < c.seqNo :: Some(out.value[s]) == Latest(Partial(evs), c.epoch, s))
  {
    RunHoldsPartial(evs);
    NewerUnfinishedIff(evs, c.epoch);
    var a, p := Run(evs), Partial(evs);
    hide NewerUnfinished, Partial, Run;
    if Outdated(p, c.epoch) {
      HoldsStale(a, p, c);
    } else {
      HoldsNext(a, p, c);
      var base := if !a.active || c.epoch > a.epoch then map[] else a.bySeq;
      forall s: nat ensures LooksUp(base, s, Latest(p, c.epoch, s)) { BaseLooksUp(a, p, c, s); }
      hide Holds, Outdated, Latest;
      OrderedIff(base, p, c);
    }
  }

  lemma OrderedIff(base: map<nat, Chunk>, p: seq<Chunk>, c: Chunk)
    requires forall s: nat :: LooksUp(base, s, Latest(p, c.epoch, s))
    ensures var out := Ordered(base[c.seqNo := c], c.seqNo);
            (out.Some? <==> AllBefore(p, c.epoch, c.seqNo)) &&
            (out.Some? ==> |out.value| == c.seqNo + 1 && out.value[c.seqNo] == c &&
                           forall s: nat | s < c.seqNo :: Some(out.value[s]) == Latest(p, c.epoch, s))
  {
    var m := base[c.seqNo := c];
    forall s: nat | s < c.seqNo
      ensures (s in m <==> Latest(p, c.epoch, s).Some?) && (s in m ==> Some(m[s]) == Latest(p, c.epoch, s))
    {
      assert LooksUp(base, s, Latest(p, c.epoch, s));
    }
    if AllBefore(p, c.epoch, c.seqNo) {
      forall i: nat | i <= c.seqNo ensures i in m {
        if i < c.seqNo { assert Latest(p, c.epoch, i).Some?; }
      }
      var parts := Listing(m, c.seqNo + 1);
      assert Ordered(m, c.seqNo) == Some(parts) && parts[c.seqNo] == m[c.seqNo];
      forall s: nat | s < c.seqNo ensures Some(parts[s]) == Latest(p, c.epoch, s) { assert s in m && parts[s] == m[s]; }
    } else {
      var s: nat :| s < c.seqNo && Latest(p, c.epoch, s).None?;
      assert s <= c.seqNo && s !in m;
      assert Ordered(m, c.seqNo) == None;
    }
  }

  // ----- the client ----------------------------------------------------------------------------------------

  class ChunkClient {
    var epoch: nat
    var active: bool
    var bySeq: map<nat, Chunk>
    /** `AssembleChunks` with its schema check, and the states handed to the desired-state handler. */
    const assemble: seq<Chunk> -> Option<State>
    var desired: seq<State>

    constructor (assemble: seq<Chunk> -> Option<State>)
      ensures Value() == IDLE && this.assemble == assemble && desired == []
    {
      epoch, active, bySeq, desired := 0, false, map[], [];
      this.assemble := assemble;
    }

    ghost function Value(): (a: Assembler)
      reads this
    {
      Assembler(epoch, active, bySeq)
    }

    method Reset()
      modifies this`epoch, this`active, this`bySeq
      ensures Value() == IDLE
    {
      epoch, active, bySeq := 0, false, map[];
    }

    /** A fresh subscription abandons the partial of the broken one. */
    method Subscribe()
      modifies this`epoch, this`active, this`bySeq
      ensures Value() == Step(old(Value()), NewStream).0
    {
      Reset();
    }

    method Gather(last: nat) returns (r: Option<seq<Chunk>>)
      ensures r == Ordered(bySeq, last)
    {
      var ordered: seq<Chunk> := [];
      var i := 0;
      while i <= last
        invariant 0 <= i <= last + 1 && |ordered| == i
        invariant forall j | 0 <= j < i :: j in bySeq && ordered[j] == bySeq[j]
      {
        if i !in bySeq { return None; }
        ordered := ordered + [bySeq[i]];
        i := i + 1;
      }
      r := Some(ordered);
      assert ordered == Listing(bySeq, last + 1);
    }

    method AcceptChunk(c: Chunk)
      modifies this
      ensures Value() == Step(old(Value()), Fragment(c)).0
      ensures var parts := Step(old(Value()), Fragment(c)).1;
              desired == old(desired) +
                         if parts.Some? && assemble(parts.value).Some? then [assemble(parts.value).value] else []
    {
      hide Ordered;
      if !active || c.epoch > epoch {
        epoch, active, bySeq := c.epoch, true, map[];
      } else if c.epoch < epoch {
        return;
      }
      bySeq := bySeq[c.seqNo := c];
      if !c.last { return; }
      var ordered := Gather(c.seqNo);
      Reset();
      if ordered.None? { return; }
      var st := assemble(ordered.value);
      if st.Some? { desired := desired + [st.value]; }
    }
  }
}
