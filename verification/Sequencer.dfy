/** Reordering deltas back onto the controller's generation chain: the pure protocol
    (internal/agent/deltaseq.go with the merge rule of cmd/edge-agent/main.go). */
module Sequencer {
  import opened Model
  import opened Desired
  import S = Store

  /** The sequencer's view: buffered deltas by base generation, the applied generation, the held state,
      and the deltas merged so far, in order. */
  datatype Chain = Chain(pending: map<nat, Delta>, lastGen: nat, held: S.Held, merged: seq<Delta>)

  /** Buffered deltas sit under their own base generation. */
  predicate Keyed(c: Chain) { forall k | k in c.pending :: c.pending[k].baseGeneration == k }

  /** One delta: merged and counted as applied whenever a state is held, whatever VPP answers. */
  function ApplyOne(c: Chain, d: Delta): (r: Chain) {
    if c.held.state.None? then c
    else c.(lastGen := d.generation, held := S.Step(c.held, S.Merge(d)), merged := c.merged + [d])
  }

  function Drain(c: Chain): (r: Chain)
    requires Keyed(c)
    ensures Keyed(r)
    decreases |c.pending|
  {
    if c.lastGen !in c.pending then c
    else
      var next := c.pending[c.lastGen];
      var rest := c.(pending := c.pending - {c.lastGen});
      assert rest.pending.Keys == c.pending.Keys - {c.lastGen};
      if c.held.state.None? then rest else Drain(ApplyOne(rest, next))
  }

  /** One round of the drain loop, which stops where the chain does. */
  lemma DrainStep(c: Chain)
    requires Keyed(c) && c.lastGen in c.pending
    ensures var rest := c.(pending := c.pending - {c.lastGen});
            var next := ApplyOne(rest, c.pending[c.lastGen]);
            Keyed(next) && Drain(c) == if c.held.state.None? then rest else Drain(next)
  {
  }

  lemma DrainDone(c: Chain)
    requires Keyed(c) && c.lastGen !in c.pending
    ensures Drain(c) == c
  {
  }

  /** Buffered deltas whose base generation `gen` has not passed. */
  function Ahead(pending: map<nat, Delta>, gen: nat): (r: map<nat, Delta>) {
    map k | k in pending && k >= gen :: pending[k]
  }

  function Evict(c: Chain): (r: Chain) {
    c.(pending := Ahead(c.pending, c.lastGen))
  }

  function Submit(c: Chain, d: Delta, max: nat): (r: Chain)
    requires Keyed(c)
    ensures Keyed(r)
  {
    var e := Evict(c);
    if d.baseGeneration == c.lastGen then
      (if c.held.state.None? then e else Drain(ApplyOne(e, d)))
    else if d.baseGeneration > c.lastGen then
      (if |e.pending| >= max then e.(pending := map[]) else e.(pending := e.pending[d.baseGeneration := d]))
    else e
  }

  // ----- linear chains --------------------------------------------------------------------------------

  /** The generation the chain is at before its `i`-th delta. */
  function GenAt(chain: seq<Delta>, g0: nat, i: nat): (g: nat)
    requires i <= |chain|
  {
    if i == 0 then g0 else chain[i - 1].generation
  }

  /** Each delta builds on its predecessor's generation, and generations grow. */
  predicate Linear(chain: seq<Delta>, g0: nat) {
    forall i | 0 <= i < |chain| ::
      chain[i].baseGeneration == GenAt(chain, g0, i) && chain[i].generation > chain[i].baseGeneration
  }

  lemma GrowsByOne(chain: seq<Delta>, g0: nat, j: nat)
    requires Linear(chain, g0) && 0 < j <= |chain|
    ensures GenAt(chain, g0, j - 1) < GenAt(chain, g0, j)
  {
    assert chain[j - 1].baseGeneration == GenAt(chain, g0, j - 1);
  }

  lemma {:induction false} GenerationsGrow(chain: seq<Delta>, g0: nat, i: nat, j: nat)
    requires Linear(chain, g0) && i < j <= |chain|
    ensures GenAt(chain, g0, i) < GenAt(chain, g0, j)
    decreases j
  {
    hide Linear, GenAt;
    GrowsByOne(chain, g0, j);
    if i < j - 1 { GenerationsGrow(chain, g0, i, j - 1); }
  }

  lemma GenerationsDiffer(chain: seq<Delta>, g0: nat, i: nat, j: nat)
    requires Linear(chain, g0) && i <= |chain| && j <= |chain| && GenAt(chain, g0, i) == GenAt(chain, g0, j)
    ensures i == j
  {
    hide Linear, GenAt;
    if i < j { GenerationsGrow(chain, g0, i, j); }
    if j < i { GenerationsGrow(chain, g0, j, i); }
  }

  /** Merging deltas one after the other. */
  function Fold(h: S.Held, ds: seq<Delta>): (r: S.Held) {
    if ds == [] then h else S.Step(Fold(h, ds[..|ds| - 1]), S.Merge(ds[|ds| - 1]))
  }

  lemma FoldSnoc(h: S.Held, ds: seq<Delta>, d: Delta)
    ensures Fold(h, ds + [d]) == S.Step(Fold(h, ds), S.Merge(d))
  {
    hide S.Step;
    assert (ds + [d])[..|ds|] == ds;
  }

  lemma {:induction false} FoldKeepsState(h: S.Held, ds: seq<Delta>)
    requires h.state.Some?
    ensures Fold(h, ds).state.Some?
  {
    hide MergeState;
    if ds == [] {
    } else {
      FoldKeepsState(h, ds[..|ds| - 1]);
    }
  }

  /** The first position from `n` on that has not been received. */
  function Gap(got: set<nat>, n: nat, len: nat): (r: nat)
    requires n <= len
    ensures n <= r <= len
    ensures r == len || r !in got
    ensures forall i | n <= i < r :: i in got
    decreases len - n
  {
    if n < len && n in got then Gap(got, n + 1, len) else n
  }

  /** Received deltas at or beyond position `n`: the ones that wait for it. */
  function From(got: set<nat>, n: nat): (r: set<nat>) { set i | i in got && i >= n }

  // ----- the invariant ----------------------------------------------------------------------------------

  /** `n` deltas of the chain are merged, in order, and the received ones beyond are buffered. */
  predicate Inv(c: Chain, c0: Chain, chain: seq<Delta>, got: set<nat>, n: nat) {
    && n <= |chain| && Keyed(c)
    && c.merged == c0.merged + chain[..n]
    && c.held == Fold(c0.held, chain[..n])
    && c.lastGen == GenAt(chain, c0.lastGen, n)
    && Buffered(c.pending, c0.lastGen, chain, From(got, n))
  }

  /** The buffer holds exactly the chain positions `ws`, under their base generations. */
  predicate Buffered(pending: map<nat, Delta>, g0: nat, chain: seq<Delta>, ws: set<nat>) {
    && (forall i | i in ws :: i < |chain| && GenAt(chain, g0, i) in pending && pending[GenAt(chain, g0, i)] == chain[i])
    && (forall k | k in pending :: exists i :: i in ws && i < |chain| && GenAt(chain, g0, i) == k)
  }

  lemma {:induction false} BufferedSize(pending: map<nat, Delta>, g0: nat, chain: seq<Delta>, ws: set<nat>)
    requires Linear(chain, g0) && Buffered(pending, g0, chain, ws)
    ensures |pending| == |ws|
    decreases ws
  {
    if ws == {} {
      assert pending.Keys == {};
    } else {
      hide Linear;
      var i :| i in ws;
      var k := GenAt(chain, g0, i);
      BufferedMinus(pending, g0, chain, ws, i);
      BufferedSize(pending - {k}, g0, chain, ws - {i});
      assert (pending - {k}).Keys + {k} == pending.Keys;
      assert |pending.Keys| == |pending| && |(pending - {k}).Keys| == |pending - {k}|;
    }
  }

  lemma BufferedMinus(pending: map<nat, Delta>, g0: nat, chain: seq<Delta>, ws: set<nat>, i: nat)
    requires Linear(chain, g0) && Buffered(pending, g0, chain, ws) && i in ws
    ensures Buffered(pending - {GenAt(chain, g0, i)}, g0, chain, ws - {i})
  {
    hide Linear;
    var k := GenAt(chain, g0, i);
    forall j | j in ws - {i} ensures GenAt(chain, g0, j) != k {
      if GenAt(chain, g0, j) == k { GenerationsDiffer(chain, g0, i, j); }
    }
    forall q | q in pending - {k} ensures exists j :: j in ws - {i} && j < |chain| && GenAt(chain, g0, j) == q {
      var j :| j in ws && j < |chain| && GenAt(chain, g0, j) == q;
      assert j in ws - {i};
    }
  }

  lemma BufferedPlus(pending: map<nat, Delta>, g0: nat, chain: seq<Delta>, ws: set<nat>, i: nat)
    requires Linear(chain, g0) && Buffered(pending, g0, chain, ws) && i < |chain|
    ensures Buffered(pending[GenAt(chain, g0, i) := chain[i]], g0, chain, ws + {i})
  {
    hide Linear;
    var k := GenAt(chain, g0, i);
    var p' := pending[k := chain[i]];
    forall j | j in ws + {i} ensures j < |chain| && GenAt(chain, g0, j) in p' && p'[GenAt(chain, g0, j)] == chain[j] {
      if j != i && GenAt(chain, g0, j) == k { GenerationsDiffer(chain, g0, i, j); }
    }
    forall q | q in p' ensures exists j :: j in ws + {i} && j < |chain| && GenAt(chain, g0, j) == q {
      if q == k {
        assert i in ws + {i};
      } else {
        var j :| j in ws && j < |chain| && GenAt(chain, g0, j) == q;
        assert j in ws + {i};
      }
    }
  }

  /** Nothing is evicted while the buffer is ahead of the chain. */
  lemma NothingToEvict(c: Chain, c0: Chain, chain: seq<Delta>, got: set<nat>, n: nat)
    requires Linear(chain, c0.lastGen) && Inv(c, c0, chain, got, n)
    ensures Evict(c) == c
  {
    hide Linear, Fold, Keyed;
    forall k | k in c.pending ensures k >= c.lastGen {
      var i :| i in From(got, n) && i < |chain| && GenAt(chain, c0.lastGen, i) == k;
      if n < i { GenerationsGrow(chain, c0.lastGen, n, i); }
    }
    assert Ahead(c.pending, c.lastGen) == c.pending;
  }

  /** Merging the next position keeps the invariant one further on. */
  lemma ApplyNext(c: Chain, c0: Chain, chain: seq<Delta>, got: set<nat>, n: nat)
    requires c0.held.state.Some? && n < |chain|
    requires c.merged == c0.merged + chain[..n] && c.held == Fold(c0.held, chain[..n]) && Keyed(c)
    requires Buffered(c.pending, c0.lastGen, chain, From(got, n + 1))
    ensures c.held.state.Some? && Inv(ApplyOne(c, chain[n]), c0, chain, got, n + 1)
  {
    hide Buffered, Fold, S.Step, From;
    FoldKeepsState(c0.held, chain[..n]);
    FoldSnoc(c0.held, chain[..n], chain[n]);
    assert chain[..n + 1] == chain[..n] + [chain[n]];
  }

  /** The next delta is in the buffer exactly when it has been received. */
  lemma NextBufferedIffGot(c: Chain, c0: Chain, chain: seq<Delta>, got: set<nat>, n: nat)
    requires Linear(chain, c0.lastGen) && Inv(c, c0, chain, got, n)
    ensures c.lastGen in c.pending <==> n < |chain| && n in got
    ensures n < |chain| && n in got ==> c.pending[c.lastGen] == chain[n] && n in From(got, n)
  {
    hide Linear, Fold, Keyed;
    if c.lastGen in c.pending {
      var i :| i in From(got, n) && i < |chain| && GenAt(chain, c0.lastGen, i) == c.lastGen;
      GenerationsDiffer(chain, c0.lastGen, i, n);
    }
    if n < |chain| && n in got { assert n in From(got, n); }
  }

  lemma FromNext(got: set<nat>, n: nat)
    ensures From(got, n) - {n} == From(got, n + 1)
  {
  }

  lemma {:induction false} DrainReachesGap(c: Chain, c0: Chain, chain: seq<Delta>, got: set<nat>, n: nat)
    requires Linear(chain, c0.lastGen) && c0.held.state.Some? && Inv(c, c0, chain, got, n)
    ensures Inv(Drain(c), c0, chain, got, Gap(got, n, |chain|))
    decreases |chain| - n
  {
    hide Linear, Fold, Buffered, From;
    NextBufferedIffGot(c, c0, chain, got, n);
    if n < |chain| && n in got {
      BufferedMinus(c.pending, c0.lastGen, chain, From(got, n), n);
      FromNext(got, n);
      var rest := c.(pending := c.pending - {c.lastGen});
      ApplyNext(rest, c0, chain, got, n);
      DrainReachesGap(ApplyOne(rest, chain[n]), c0, chain, got, n + 1);
    }
  }

  lemma GapGrows(got: set<nat>, n: nat, len: nat, i: nat)
    requires n == Gap(got, 0, len) && i < len
    ensures i < n ==> got + {i} == got
    ensures i > n ==> Gap(got + {i}, 0, len) == n
    ensures i == n ==> Gap(got + {i}, 0, len) == Gap(got + {i}, n + 1, len)
  {
    GapSkips(got + {i}, 0, n, len);
  }

  lemma {:induction false} GapSkips(got: set<nat>, lo: nat, hi: nat, len: nat)
    requires lo <= hi <= len && forall i: nat | lo <= i < hi :: i in got
    ensures Gap(got, lo, len) == Gap(got, hi, len)
    decreases hi - lo
  {
    if lo < hi { GapSkips(got, lo + 1, hi, len); }
  }

  /** One submission of chain position `i`, with room in the buffer whenever it has to wait. */
  lemma SubmitKeepsInv(c: Chain, c0: Chain, chain: seq<Delta>, got: set<nat>, n: nat, i: nat, max: nat)
    requires Linear(chain, c0.lastGen) && c0.held.state.Some? && i < |chain|
    requires n == Gap(got, 0, |chain|) && Inv(c, c0, chain, got, n)
    requires i > n ==> |From(got, n)| < max
    ensures Keyed(c) && Inv(Submit(c, chain[i], max), c0, chain, got + {i}, Gap(got + {i}, 0, |chain|))
  {
    hide Inv, Gap, From, Submit, Linear;
    GapGrows(got, n, |chain|, i);
    InvKeyed(c, c0, chain, got, n);
    if i < n {
      SubmitBelow(c, c0, chain, got, n, i, max);
    } else if i == n {
      SubmitAt(c, c0, chain, got, n, max);
    } else {
      SubmitAhead(c, c0, chain, got, n, i, max);
    }
  }

  lemma InvKeyed(c: Chain, c0: Chain, chain: seq<Delta>, got: set<nat>, n: nat)
    requires Inv(c, c0, chain, got, n)
    ensures Keyed(c)
  {
  }

  lemma SubmitBelow(c: Chain, c0: Chain, chain: seq<Delta>, got: set<nat>, n: nat, i: nat, max: nat)
    requires Linear(chain, c0.lastGen) && i < n <= |chain| && Inv(c, c0, chain, got, n)
    ensures Keyed(c) && Submit(c, chain[i], max) == c
  {
    NothingToEvict(c, c0, chain, got, n);
    GenerationsGrow(chain, c0.lastGen, i, n);
    assert chain[i].baseGeneration == GenAt(chain, c0.lastGen, i);
    hide Buffered, Linear, Fold, From, GenAt, Evict;
  }

  lemma SubmitAt(c: Chain, c0: Chain, chain: seq<Delta>, got: set<nat>, n: nat, max: nat)
    requires Linear(chain, c0.lastGen) && c0.held.state.Some? && n < |chain| && n !in got && Inv(c, c0, chain, got, n)
    ensures Keyed(c) && Inv(Submit(c, chain[n], max), c0, chain, got + {n}, Gap(got + {n}, n + 1, |chain|))
  {
    NothingToEvict(c, c0, chain, got, n);
    assert chain[n].baseGeneration == GenAt(chain, c0.lastGen, n);
    assert From(got + {n}, n + 1) == From(got, n);
    hide Buffered, Linear, Fold, From, Drain, Evict, Gap, Submit;
    ApplyNext(c, c0, chain, got + {n}, n);
    DrainReachesGap(ApplyOne(c, chain[n]), c0, chain, got + {n}, n + 1);
    SubmitNext(c, chain[n], max);
  }

  lemma SubmitAhead(c: Chain, c0: Chain, chain: seq<Delta>, got: set<nat>, n: nat, i: nat, max: nat)
    requires Linear(chain, c0.lastGen) && n < i < |chain| && Inv(c, c0, chain, got, n) && |From(got, n)| < max
    ensures Keyed(c) && Inv(Submit(c, chain[i], max), c0, chain, got + {i}, n)
  {
    NothingToEvict(c, c0, chain, got, n);
    GenerationsGrow(chain, c0.lastGen, n, i);
    assert chain[i].baseGeneration == GenAt(chain, c0.lastGen, i);
    hide Buffered, Linear, Fold, From, GenAt, Evict, Submit;
    SubmitWaits(c, chain[i], max);
    BufferedAhead(c.pending, c0.lastGen, chain, got, n, i);
  }

  lemma BufferedAhead(pending: map<nat, Delta>, g0: nat, chain: seq<Delta>, got: set<nat>, n: nat, i: nat)
    requires Linear(chain, g0) && n < i < |chain| && Buffered(pending, g0, chain, From(got, n))
    ensures |pending| == |From(got, n)|
    ensures Buffered(pending[GenAt(chain, g0, i) := chain[i]], g0, chain, From(got + {i}, n))
  {
    hide Buffered, Linear, GenAt;
    BufferedSize(pending, g0, chain, From(got, n));
    BufferedPlus(pending, g0, chain, From(got, n), i);
    assert From(got + {i}, n) == From(got, n) + {i};
  }

  lemma SubmitWaits(c: Chain, d: Delta, max: nat)
    requires Keyed(c) && Evict(c) == c && d.baseGeneration > c.lastGen
    ensures Submit(c, d, max) ==
            if |c.pending| >= max then c.(pending := map[]) else c.(pending := c.pending[d.baseGeneration := d])
  {
  }

  lemma SubmitNext(c: Chain, d: Delta, max: nat)
    requires Keyed(c) && Evict(c) == c && d.baseGeneration == c.lastGen && c.held.state.Some?
    ensures Submit(c, d, max) == Drain(ApplyOne(c, d))
  {
  }

  // ----- whole runs -----------------------------------------------------------------------------------------

  /** Submitting the chain positions `subs` in that order. */
  function Deliver(c: Chain, chain: seq<Delta>, subs: seq<nat>, max: nat): (r: Chain)
    requires Keyed(c) && forall k | 0 <= k < |subs| :: subs[k] < |chain|
    ensures Keyed(r)
  {
    if subs == [] then c
    else Submit(Deliver(c, chain, subs[..|subs| - 1], max), chain[subs[|subs| - 1]], max)
  }

  lemma DeliverNone(c: Chain, chain: seq<Delta>, max: nat)
    requires Keyed(c)
    ensures Deliver(c, chain, [], max) == c
  {
  }

  lemma DeliverNext(c: Chain, chain: seq<Delta>, subs: seq<nat>, max: nat, i: nat)
    requires Keyed(c) && i < |subs| && forall k | 0 <= k < |subs| :: subs[k] < |chain|
    ensures Deliver(c, chain, subs[..i + 1], max) == Submit(Deliver(c, chain, subs[..i], max), chain[subs[i]], max)
  {
    hide Submit;
    assert subs[..i + 1][..i] == subs[..i];
  }

  function Got(subs: seq<nat>): (r: set<nat>) { set i | i in subs }

  /** Never more than `max` received deltas wait at the same time. */
  predicate FitsBuffer(subs: seq<nat>, len: nat, max: nat) {
    forall k | 0 <= k < |subs| ::
      var n := Gap(Got(subs[..k]), 0, len);
      subs[k] > n ==> |From(Got(subs[..k]), n)| < max
  }

  /** A fresh sequencer over a held state. */
  predicate Fresh(c: Chain) { c.pending == map[] && c.held.state.Some? }

  /** Loss, reordering and duplication cost nothing but waiting: whatever subset of a linear chain arrives,
      in whatever order, exactly its longest complete prefix is merged, once and in chain order, and
      exactly the rest is buffered. */
  lemma {:induction false} DeliveredPrefixIsMerged(c0: Chain, chain: seq<Delta>, subs: seq<nat>, max: nat)
    requires Fresh(c0) && Linear(chain, c0.lastGen) && FitsBuffer(subs, |chain|, max)
    requires forall k | 0 <= k < |subs| :: subs[k] < |chain|
    ensures Keyed(c0) && Inv(Deliver(c0, chain, subs, max), c0, chain, Got(subs), Gap(Got(subs), 0, |chain|))
  {
    hide Inv, Submit, Linear, Gap, From;
    if subs == [] {
      FreshInv(c0, chain);
    } else {
      var rest, i := subs[..|subs| - 1], subs[|subs| - 1];
      FitsRest(subs, |chain|, max);
      DeliveredPrefixIsMerged(c0, chain, rest, max);
      assert Got(subs) == Got(rest) + {i};
      RoomFor(subs, |chain|, max);
      SubmitKeepsInv(Deliver(c0, chain, rest, max), c0, chain, Got(rest), Gap(Got(rest), 0, |chain|), i, max);
    }
  }

  lemma FreshInv(c0: Chain, chain: seq<Delta>)
    requires Fresh(c0)
    ensures Inv(c0, c0, chain, Got([]), Gap(Got([]), 0, |chain|))
  {
    assert c0.merged + chain[..0] == c0.merged && chain[..0] == [];
    assert Gap(Got([]), 0, |chain|) == 0 && From(Got([]), 0) == {};
  }

  lemma FitsRest(subs: seq<nat>, len: nat, max: nat)
    requires subs != [] && FitsBuffer(subs, len, max)
    ensures FitsBuffer(subs[..|subs| - 1], len, max)
  {
    hide Gap, From, Got;
    var rest := subs[..|subs| - 1];
    forall k | 0 <= k < |rest| ensures rest[..k] == subs[..k] { }
  }

  lemma RoomFor(subs: seq<nat>, len: nat, max: nat)
    requires subs != [] && FitsBuffer(subs, len, max)
    ensures var rest, i := subs[..|subs| - 1], subs[|subs| - 1];
            var n := Gap(Got(rest), 0, len);
            i > n ==> |From(Got(rest), n)| < max
  {
    hide Gap, From;
  }

  /** Every position arrives. */
  predicate Complete(subs: seq<nat>, len: nat) { forall i | 0 <= i < len :: i in subs }

  /** Any complete delivery ends exactly where in-order delivery would: everything merged once in chain
      order, the buffer empty, the held state the in-order fold, the applied generation the last one. */
  lemma AnyOrderIsInOrder(c0: Chain, chain: seq<Delta>, subs: seq<nat>, max: nat)
    requires Fresh(c0) && Linear(chain, c0.lastGen) && FitsBuffer(subs, |chain|, max) && Complete(subs, |chain|)
    requires forall k | 0 <= k < |subs| :: subs[k] < |chain|
    ensures Keyed(c0)
    ensures Deliver(c0, chain, subs, max) ==
            Chain(map[], GenAt(chain, c0.lastGen, |chain|), Fold(c0.held, chain), c0.merged + chain)
  {
    DeliveredPrefixIsMerged(c0, chain, subs, max);
    var len := |chain|;
    var c, n := Deliver(c0, chain, subs, max), Gap(Got(subs), 0, len);
    assert forall i: nat | i < len :: i in Got(subs);
    assert n == len && chain[..len] == chain;
    hide Fold, Deliver, FitsBuffer, Linear;
    assert From(Got(subs), n) == {} by {
      forall i | i in Got(subs) ensures i < len { var k :| 0 <= k < |subs| && subs[k] == i; }
    }
    BufferedNothing(c.pending, c0.lastGen, chain);
  }

  lemma BufferedNothing(pending: map<nat, Delta>, g0: nat, chain: seq<Delta>)
    requires Buffered(pending, g0, chain, {})
    ensures pending == map[]
  {
    assert pending.Keys == {};
  }

  // ----- overflow -------------------------------------------------------------------------------------------

  /** Position `i` is neither merged nor buffered: only positions before it are merged. */
  predicate Stuck(c: Chain, c0: Chain, chain: seq<Delta>, i: nat, m: nat) {
    && m <= i < |chain| && Keyed(c) && c.held.state.Some?
    && c.merged == c0.merged + chain[..m]
    && c.lastGen == GenAt(chain, c0.lastGen, m)
    && Others(c.pending, chain, i)
  }

  /** Everything buffered belongs to the chain and is not position `i`. */
  predicate Others(pending: map<nat, Delta>, chain: seq<Delta>, i: nat) {
    forall k | k in pending :: OtherThan(pending[k], chain, i)
  }

  predicate OtherThan(d: Delta, chain: seq<Delta>, i: nat) {
    exists j :: 0 <= j < |chain| && j != i && chain[j] == d
  }

  /** A delta of the chain that fits at position `m` is position `m`. */
  lemma FitsOnlyThere(chain: seq<Delta>, g0: nat, d: Delta, i: nat, m: nat)
    requires Linear(chain, g0) && m <= i < |chain| && OtherThan(d, chain, i) && d.baseGeneration == GenAt(chain, g0, m)
    ensures m < i && d == chain[m]
  {
    var j :| 0 <= j < |chain| && j != i && chain[j] == d;
    assert d.baseGeneration == GenAt(chain, g0, j);
    hide Linear, GenAt;
    GenerationsDiffer(chain, g0, j, m);
  }

  lemma StuckApply(c: Chain, c0: Chain, chain: seq<Delta>, d: Delta, i: nat, m: nat)
    requires Linear(chain, c0.lastGen) && Stuck(c, c0, chain, i, m)
    requires OtherThan(d, chain, i) && d.baseGeneration == c.lastGen
    ensures Stuck(ApplyOne(c, d), c0, chain, i, m + 1)
  {
    hide Linear, OtherThan, MergeState, Others;
    FitsOnlyThere(chain, c0.lastGen, d, i, m);
    assert chain[..m + 1] == chain[..m] + [chain[m]];
  }

  lemma {:induction false} StuckDrain(c: Chain, c0: Chain, chain: seq<Delta>, i: nat, m: nat) returns (m': nat)
    requires Linear(chain, c0.lastGen) && Stuck(c, c0, chain, i, m)
    ensures Stuck(Drain(c), c0, chain, i, m')
    decreases |c.pending|
  {
    hide Linear, OtherThan, ApplyOne, GenAt;
    m' := m;
    if c.lastGen in c.pending {
      var next := c.pending[c.lastGen];
      var rest := c.(pending := c.pending - {c.lastGen});
      assert rest.pending.Keys == c.pending.Keys - {c.lastGen};
      StuckApply(rest, c0, chain, next, i, m);
      PendingKept(rest, next);
      m' := StuckDrain(ApplyOne(rest, next), c0, chain, i, m + 1);
    }
  }

  lemma PendingKept(c: Chain, d: Delta)
    ensures ApplyOne(c, d).pending == c.pending
  {
  }

  /** Without position `i`, no submission gets the chain past it. */
  lemma StuckSubmit(c: Chain, c0: Chain, chain: seq<Delta>, d: Delta, i: nat, m: nat, max: nat) returns (m': nat)
    requires Linear(chain, c0.lastGen) && Stuck(c, c0, chain, i, m) && OtherThan(d, chain, i)
    ensures Stuck(Submit(c, d, max), c0, chain, i, m')
  {
    hide Linear, OtherThan, ApplyOne, GenAt, Drain;
    m' := m;
    var e := Evict(c);
    assert Stuck(e, c0, chain, i, m);
    if d.baseGeneration == c.lastGen {
      StuckApply(e, c0, chain, d, i, m);
      m' := StuckDrain(ApplyOne(e, d), c0, chain, i, m + 1);
    }
  }

  /** A full buffer drops itself and the delta that found it full. */
  lemma OverflowSticks(c: Chain, c0: Chain, chain: seq<Delta>, got: set<nat>, n: nat, i: nat, max: nat)
    requires Linear(chain, c0.lastGen) && c0.held.state.Some? && n < i < |chain|
    requires Inv(c, c0, chain, got, n) && |From(got, n)| >= max
    ensures Keyed(c) && Stuck(Submit(c, chain[i], max), c0, chain, i, n)
  {
    NothingToEvict(c, c0, chain, got, n);
    GenerationsGrow(chain, c0.lastGen, n, i);
    assert chain[i].baseGeneration == GenAt(chain, c0.lastGen, i);
    hide Buffered, Linear, Fold, From, GenAt, Evict, Submit;
    SubmitWaits(c, chain[i], max);
    BufferedAhead(c.pending, c0.lastGen, chain, got, n, i);
    FoldKeepsState(c0.held, chain[..n]);
  }

  /** Submission `k` finds the buffer full. */
  predicate Overflows(subs: seq<nat>, len: nat, max: nat, k: nat)
    requires k < |subs|
  {
    var n := Gap(Got(subs[..k]), 0, len);
    subs[k] > n && |From(Got(subs[..k]), n)| >= max
  }

  /** Once submission `k` overflowed and its delta is not sent again, it blocks the chain for good. */
  lemma {:induction false} StaysStuck(c0: Chain, chain: seq<Delta>, subs: seq<nat>, max: nat, k: nat) returns (m: nat)
    requires Fresh(c0) && Linear(chain, c0.lastGen) && k < |subs|
    requires forall j | 0 <= j < |subs| :: subs[j] < |chain|
    requires forall j | k < j < |subs| :: subs[j] != subs[k]
    requires FitsBuffer(subs[..k], |chain|, max) && Overflows(subs, |chain|, max, k)
    ensures Keyed(c0) && Stuck(Deliver(c0, chain, subs, max), c0, chain, subs[k], m)
    decreases |subs|
  {
    hide Linear, Submit, Stuck, Inv, FitsBuffer, From, Gap, Got;
    var rest, i := subs[..|subs| - 1], subs[|subs| - 1];
    if k == |subs| - 1 {
      DeliveredPrefixIsMerged(c0, chain, rest, max);
      m := Gap(Got(rest), 0, |chain|);
      OverflowSticks(Deliver(c0, chain, rest, max), c0, chain, Got(rest), m, i, max);
    } else {
      assert rest[..k] == subs[..k];
      var m0 := StaysStuck(c0, chain, rest, max, k);
      assert OtherThan(chain[i], chain, subs[k]);
      m := StuckSubmit(Deliver(c0, chain, rest, max), c0, chain, chain[i], subs[k], m0, max);
    }
  }

  lemma {:induction false} FirstOverflow(subs: seq<nat>, len: nat, max: nat) returns (k: nat)
    requires !FitsBuffer(subs, len, max)
    ensures k < |subs| && FitsBuffer(subs[..k], len, max) && Overflows(subs, len, max, k)
    decreases |subs|
  {
    hide FitsBuffer, Gap, From, Got;
    NoneFit(len, max);
    var rest := subs[..|subs| - 1];
    if FitsBuffer(rest, len, max) {
      k := |subs| - 1;
      LastOverflows(subs, len, max);
    } else {
      k := FirstOverflow(rest, len, max);
      assert rest[..k] == subs[..k];
    }
  }

  lemma NoneFit(len: nat, max: nat)
    ensures FitsBuffer([], len, max)
  {
  }

  lemma LastOverflows(subs: seq<nat>, len: nat, max: nat)
    requires subs != [] && FitsBuffer(subs[..|subs| - 1], len, max) && !FitsBuffer(subs, len, max)
    ensures Overflows(subs, len, max, |subs| - 1)
  {
    hide Gap, From, Got;
    var rest := subs[..|subs| - 1];
    forall k | 0 <= k < |rest| ensures rest[..k] == subs[..k] && rest[k] == subs[k] && !Overflows(subs, len, max, k) {
      assert rest[..k] == subs[..k] && rest[k] == subs[k];
    }
  }

  /** The order of arrival is free exactly up to the buffer bound: when each delta of a linear chain arrives
      exactly once, the chain is merged in full if and only if no submission ever finds the buffer full. */
  lemma MergedInFullIffFits(c0: Chain, chain: seq<Delta>, subs: seq<nat>, max: nat)
    requires Fresh(c0) && Linear(chain, c0.lastGen) && Complete(subs, |chain|)
    requires forall j | 0 <= j < |subs| :: subs[j] < |chain|
    requires forall j, k | 0 <= j < k < |subs| :: subs[j] != subs[k]
    ensures Keyed(c0)
    ensures Deliver(c0, chain, subs, max).merged == c0.merged + chain <==> FitsBuffer(subs, |chain|, max)
  {
    hide Linear, Deliver, FitsBuffer, Fold, GenAt, Others, Overflows;
    if FitsBuffer(subs, |chain|, max) {
      AnyOrderIsInOrder(c0, chain, subs, max);
    } else {
      var k := FirstOverflow(subs, |chain|, max);
      var m := StaysStuck(c0, chain, subs, max, k);
      assert |chain[..m]| < |chain|;
      assert |c0.merged + chain[..m]| != |c0.merged + chain|;
    }
  }

  /** A delta that finds the buffer full is lost together with everything buffered. */
  lemma FullBufferIsLost(c: Chain, d: Delta, max: nat)
    requires Keyed(c) && d.baseGeneration > c.lastGen && |Evict(c).pending| >= max
    ensures Submit(c, d, max) == Chain(map[], c.lastGen, c.held, c.merged)
  {
  }

  lemma {:induction false} DrainShrinks(c: Chain)
    requires Keyed(c)
    ensures |Drain(c).pending| <= |c.pending|
    decreases |c.pending|
  {
    hide ApplyOne;
    if c.lastGen in c.pending {
      var rest := c.(pending := c.pending - {c.lastGen});
      assert rest.pending.Keys == c.pending.Keys - {c.lastGen};
      assert |rest.pending.Keys| == |rest.pending| && |c.pending.Keys| == |c.pending|;
      PendingKept(rest, c.pending[c.lastGen]);
      if c.held.state.Some? { DrainShrinks(ApplyOne(rest, c.pending[c.lastGen])); }
    }
  }

  /** The buffer never holds more than `max` deltas. */
  lemma BufferIsBounded(c: Chain, d: Delta, max: nat)
    requires Keyed(c) && |c.pending| <= max
    ensures |Submit(c, d, max).pending| <= max
  {
    hide Drain, ApplyOne, Evict;
    var e := Evict(c);
    EvictShrinks(c);
    PendingKept(e, d);
    if d.baseGeneration == c.lastGen {
      if c.held.state.Some? { DrainShrinks(ApplyOne(e, d)); }
    } else {
      OneMore(e.pending, d);
    }
  }

  lemma OneMore(pending: map<nat, Delta>, d: Delta)
    ensures |pending[d.baseGeneration := d]| <= |pending| + 1
  {
    var p' := pending[d.baseGeneration := d];
    assert p'.Keys == pending.Keys + {d.baseGeneration};
    assert |pending.Keys| == |pending| && |p'.Keys| == |p'|;
  }

  lemma EvictShrinks(c: Chain)
    requires Keyed(c)
    ensures Keyed(Evict(c)) && Evict(c).lastGen == c.lastGen && Evict(c).held == c.held
    ensures |Evict(c).pending| <= |c.pending|
  {
    var p, q := c.pending, Evict(c).pending;
    assert p.Keys == q.Keys + (p.Keys - q.Keys);
    assert |p.Keys| == |p| && |q.Keys| == |q|;
  }

  // ----- a full pass in between ---------------------------------------------------------------------------

  /** A full pass over a snapshot moves the chain on to another generation and replaces the held state. */
  function Jump(c: Chain, gen: nat, held: S.Held): (r: Chain) { c.(lastGen := gen, held := held) }

  /** Positions from `j` on, counted from there. */
  function Shift(got: set<nat>, j: nat): (r: set<nat>) { set i | i in got && i >= j :: i - j }

  /** The chain that is left from position `j` on. */
  lemma ChainLeft(chain: seq<Delta>, g0: nat, j: nat)
    requires Linear(chain, g0) && j <= |chain|
    ensures Linear(chain[j..], GenAt(chain, g0, j))
    ensures forall i: nat | i <= |chain| - j :: GenAt(chain[j..], GenAt(chain, g0, j), i) == GenAt(chain, g0, j + i)
  {
    var left := chain[j..];
    forall i: nat | i <= |left| ensures GenAt(left, GenAt(chain, g0, j), i) == GenAt(chain, g0, j + i) {
      if i > 0 { assert left[i - 1] == chain[j + i - 1]; }
    }
    forall i | 0 <= i < |left| ensures left[i].baseGeneration == GenAt(chain, g0, j + i) < left[i].generation {
      assert left[i] == chain[j + i];
    }
  }

  /** Of the buffer exactly the positions from `j` on survive the next submission. */
  lemma JumpBuffers(pending: map<nat, Delta>, g0: nat, chain: seq<Delta>, ws: set<nat>, j: nat)
    requires Linear(chain, g0) && j <= |chain| && Buffered(pending, g0, chain, ws)
    ensures Buffered(Ahead(pending, GenAt(chain, g0, j)), GenAt(chain, g0, j), chain[j..], Shift(ws, j))
  {
    var left, g := chain[j..], GenAt(chain, g0, j);
    var p' := Ahead(pending, g);
    ChainLeft(chain, g0, j);
    hide Linear, GenAt, Shift;
    forall i | i in Shift(ws, j) ensures i < |left| && GenAt(left, g, i) in p' && p'[GenAt(left, g, i)] == left[i] {
      ShiftAt(ws, j, i);
      StillBuffered(pending, g0, chain, ws, j, i);
    }
    forall k | k in p' ensures exists i :: i in Shift(ws, j) && i < |left| && GenAt(left, g, i) == k {
      var i := PositionOf(pending, g0, chain, ws, j, k);
      ShiftAt(ws, j, i);
    }
  }

  lemma StillBuffered(pending: map<nat, Delta>, g0: nat, chain: seq<Delta>, ws: set<nat>, j: nat, i: nat)
    requires Linear(chain, g0) && j <= |chain| && Buffered(pending, g0, chain, ws) && j + i in ws
    ensures j + i < |chain| && GenAt(chain, g0, j + i) in pending && pending[GenAt(chain, g0, j + i)] == chain[j + i]
    ensures GenAt(chain, g0, j + i) >= GenAt(chain, g0, j)
  {
    hide Linear, GenAt;
    if i > 0 { GenerationsGrow(chain, g0, j, j + i); }
  }

  lemma PositionOf(pending: map<nat, Delta>, g0: nat, chain: seq<Delta>, ws: set<nat>, j: nat, k: nat) returns (i: nat)
    requires Linear(chain, g0) && j <= |chain| && Buffered(pending, g0, chain, ws)
    requires k in pending && k >= GenAt(chain, g0, j)
    ensures j + i in ws && j + i < |chain| && GenAt(chain, g0, j + i) == k
  {
    hide Linear, GenAt;
    var at :| at in ws && at < |chain| && GenAt(chain, g0, at) == k;
    if at < j { GenerationsGrow(chain, g0, at, j); }
    i := at - j;
  }

  lemma ShiftAt(got: set<nat>, j: nat, i: nat)
    ensures i in Shift(got, j) <==> j + i in got
  {
    if j + i in got { assert j + i - j == i; }
  }

  /** The sequencer a jump to position `j` starts over from. */
  function Base(c: Chain, chain: seq<Delta>, g0: nat, j: nat, held: S.Held): (r: Chain)
    requires j <= |chain|
  {
    Chain(map[], GenAt(chain, g0, j), held, c.merged)
  }

  lemma ShiftFrom(got: set<nat>, n: nat, j: nat)
    requires n <= j
    ensures Shift(From(got, n), j) == Shift(got, j) && From(Shift(got, j), 0) == Shift(got, j)
  {
    forall i: nat ensures i in Shift(From(got, n), j) <==> i in Shift(got, j) {
      ShiftAt(From(got, n), j, i);
      ShiftAt(got, j, i);
    }
  }

  lemma JumpInv(c: Chain, c0: Chain, chain: seq<Delta>, got: set<nat>, n: nat, j: nat, held: S.Held)
    requires Linear(chain, c0.lastGen) && Inv(c, c0, chain, got, n) && n <= j <= |chain|
    ensures Inv(Evict(Jump(c, GenAt(chain, c0.lastGen, j), held)), Base(c, chain, c0.lastGen, j, held), chain[j..],
                Shift(got, j), 0)
  {
    var g := GenAt(chain, c0.lastGen, j);
    JumpBuffers(c.pending, c0.lastGen, chain, From(got, n), j);
    ShiftFrom(got, n, j);
    hide Linear, Buffered, Shift, From;
    var e := Evict(Jump(c, g, held));
    assert chain[j..][..0] == [] && e.merged + [] == e.merged;
  }

  /** Room for every submission that has to wait, when `got` is there to begin with. */
  predicate FitsFrom(got: set<nat>, subs: seq<nat>, len: nat, max: nat) {
    forall k | 0 <= k < |subs| ::
      var n := Gap(got + Got(subs[..k]), 0, len);
      subs[k] > n ==> |From(got + Got(subs[..k]), n)| < max
  }

  lemma GotLast(got: set<nat>, subs: seq<nat>)
    requires subs != []
    ensures got + Got(subs) == got + Got(subs[..|subs| - 1]) + {subs[|subs| - 1]}
  {
    assert subs == subs[..|subs| - 1] + [subs[|subs| - 1]];
  }

  lemma FitsFromLast(got: set<nat>, subs: seq<nat>, len: nat, max: nat)
    requires subs != [] && FitsFrom(got, subs, len, max)
    ensures var rest, i := subs[..|subs| - 1], subs[|subs| - 1];
            var n := Gap(got + Got(rest), 0, len);
            FitsFrom(got, rest, len, max) && (i > n ==> |From(got + Got(rest), n)| < max)
  {
    hide Gap, From, Got;
    var rest := subs[..|subs| - 1];
    forall k | 0 <= k < |rest| ensures rest[..k] == subs[..k] && rest[k] == subs[k] { }
  }

  lemma {:induction false} DeliveredFrom(c: Chain, c0: Chain, chain: seq<Delta>, got: set<nat>, subs: seq<nat>,
                                         max: nat)
    requires Linear(chain, c0.lastGen) && c0.held.state.Some? && Inv(c, c0, chain, got, Gap(got, 0, |chain|))
    requires (forall k | 0 <= k < |subs| :: subs[k] < |chain|) && FitsFrom(got, subs, |chain|, max)
    ensures Keyed(c)
    ensures var all := got + Got(subs); Inv(Deliver(c, chain, subs, max), c0, chain, all, Gap(all, 0, |chain|))
    decreases |subs|
  {
    InvKeyed(c, c0, chain, got, Gap(got, 0, |chain|));
    hide Inv, Submit, Linear, Gap, From, FitsFrom, Keyed;
    if subs == [] {
      assert got + Got(subs) == got;
    } else {
      var rest, i := subs[..|subs| - 1], subs[|subs| - 1];
      FitsFromLast(got, subs, |chain|, max);
      DeliveredFrom(c, c0, chain, got, rest, max);
      var sofar := got + Got(rest);
      GotLast(got, subs);
      hide Got;
      SubmitKeepsInv(Deliver(c, chain, rest, max), c0, chain, sofar, Gap(sofar, 0, |chain|), i, max);
    }
  }

  lemma {:induction false} EvictedFirst(c: Chain, chain: seq<Delta>, subs: seq<nat>, max: nat)
    requires Keyed(c) && subs != [] && forall k | 0 <= k < |subs| :: subs[k] < |chain|
    ensures Keyed(Evict(c)) && Deliver(c, chain, subs, max) == Deliver(Evict(c), chain, subs, max)
    decreases |subs|
  {
    EvictShrinks(c);
    var rest, d := subs[..|subs| - 1], chain[subs[|subs| - 1]];
    if rest == [] {
      assert Evict(Evict(c)) == Evict(c);
      hide Evict, Drain, ApplyOne;
    } else {
      hide Evict, Submit;
      EvictedFirst(c, chain, rest, max);
    }
  }

  /** The chain moves only when a delta based where it stands is submitted; one that waits in the buffer does not
      move it. */
  lemma {:induction false} MovesOnlyOnBase(c: Chain, chain: seq<Delta>, subs: seq<nat>, max: nat)
    requires Keyed(c) && forall k | 0 <= k < |subs| :: subs[k] < |chain| && chain[subs[k]].baseGeneration != c.lastGen
    ensures var r := Deliver(c, chain, subs, max); r.lastGen == c.lastGen && r.merged == c.merged && r.held == c.held
    decreases |subs|
  {
    hide Drain, ApplyOne;
    if subs != [] { MovesOnlyOnBase(c, chain, subs[..|subs| - 1], max); }
  }

  /** A full pass lands on position `j` while deltas beyond it wait, and then every delta not received yet arrives.
      The rest of the chain is merged exactly when the delta at `j` itself was not one of those waiting: a delta
      buffered at the very generation the pass lands on is stranded, and all that follow wait behind it. */
  lemma MergedAfterJumpIff(c: Chain, c0: Chain, chain: seq<Delta>, got: set<nat>, n: nat, j: nat, held: S.Held,
                           subs: seq<nat>, max: nat)
    requires Linear(chain, c0.lastGen) && Inv(c, c0, chain, got, n) && n <= j < |chain| && held.state.Some?
    requires forall k | 0 <= k < |subs| :: subs[k] < |chain| - j
    requires forall i: nat | i < |chain| - j :: i in subs <==> i !in Shift(got, j)
    requires FitsFrom(Shift(got, j), subs, |chain| - j, max)
    ensures var c' := Jump(c, GenAt(chain, c0.lastGen, j), held);
            Keyed(c') && (Deliver(c', chain[j..], subs, max).merged == c.merged + chain[j..] <==> j !in got)
  {
    hide Linear, GenAt, FitsFrom, Deliver, Shift, Evict, Fold, Buffered, From;
    var left, g := chain[j..], GenAt(chain, c0.lastGen, j);
    var c' := Jump(c, g, held);
    ChainLeft(chain, c0.lastGen, j);
    InvKeyed(c, c0, chain, got, n);
    ShiftAt(got, j, 0);
    if j in got {
      StrandedAt(c', left, subs, max);
      assert |c.merged + left| > |c.merged|;
    } else {
      JumpInv(c, c0, chain, got, n, j, held);
      DeliverAll(Evict(c'), Base(c, chain, c0.lastGen, j, held), left, Shift(got, j), subs, max);
      EvictedFirst(c', left, subs, max);
    }
  }

  lemma StrandedAt(c: Chain, left: seq<Delta>, subs: seq<nat>, max: nat)
    requires Keyed(c) && Linear(left, c.lastGen) && forall k | 0 <= k < |subs| :: 0 < subs[k] < |left|
    ensures Deliver(c, left, subs, max).merged == c.merged
  {
    hide Linear, Deliver;
    forall k | 0 <= k < |subs| ensures left[subs[k]].baseGeneration != c.lastGen { NotFirst(left, c.lastGen, subs[k]); }
    MovesOnlyOnBase(c, left, subs, max);
  }

  lemma NotFirst(left: seq<Delta>, g: nat, i: nat)
    requires Linear(left, g) && 0 < i < |left|
    ensures left[i].baseGeneration != g
  {
    assert left[i].baseGeneration == GenAt(left, g, i);
    GenerationsGrow(left, g, 0, i);
  }

  /** Once everything is there, all of it is merged. */
  lemma DeliverAll(c: Chain, c0: Chain, chain: seq<Delta>, got: set<nat>, subs: seq<nat>, max: nat)
    requires Linear(chain, c0.lastGen) && c0.held.state.Some? && Inv(c, c0, chain, got, 0) && 0 !in got
    requires (forall k | 0 <= k < |subs| :: subs[k] < |chain|) && FitsFrom(got, subs, |chain|, max)
    requires forall i: nat | i < |chain| :: i in subs <==> i !in got
    ensures Keyed(c) && Deliver(c, chain, subs, max).merged == c0.merged + chain
  {
    hide Linear, Deliver, FitsFrom, Fold, Buffered, From;
    assert Gap(got, 0, |chain|) == 0;
    DeliveredFrom(c, c0, chain, got, subs, max);
    var all := got + Got(subs);
    assert forall i: nat | i < |chain| :: i in all;
    assert Gap(all, 0, |chain|) == |chain| && chain[..|chain|] == chain;
  }
}
