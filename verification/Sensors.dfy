/** The fault sensors, specified against their histories: the forwarding probe (internal/agent/probe.go) and
    the heartbeat monitor (internal/agent/vpp_liveness.go). */
module Sensors {
  import opened Model

  // ----- the forwarding probe --------------------------------------------------------------------------

  /** One probe round: VPP's connection generation, the echoes received (`None`: the probe could not run),
      and whether the edge is still materializing. An unbound generation is a constant one, an unbound
      busy signal is never busy. */
  datatype Round = Round(gen: nat, recv: Option<int>, busy: bool)

  datatype Probe = Probe(fails: nat, everHealthy: bool, broken: bool, lastGen: nat)

  function ProbeStep(p: Probe, r: Round, k: nat): (q: Probe) {
    var p := if r.gen != p.lastGen then Probe(0, false, false, r.gen) else p;
    if r.recv.None? then p
    else if r.recv.value > 0 then p.(fails := 0, everHealthy := true, broken := false)
    else if !p.everHealthy || r.busy then p
    else p.(fails := p.fails + 1, broken := p.broken || p.fails + 1 >= k)
  }

  function ProbeRun(rs: seq<Round>, g0: nat, k: nat): (p: Probe) {
    if rs == [] then Probe(0, false, false, g0) else ProbeStep(ProbeRun(rs[..|rs| - 1], g0, k), rs[|rs| - 1], k)
  }

  predicate Reached(r: Round) { r.recv.Some? && r.recv.value > 0 }
  predicate Counted(r: Round) { r.recv.Some? && r.recv.value <= 0 && !r.busy }

  /** VPP restarted right before round `j`. */
  predicate Restarted(rs: seq<Round>, g0: nat, j: nat)
    requires j < |rs|
  {
    rs[j].gen != if j == 0 then g0 else rs[j - 1].gen
  }

  /** Round `i` is the last reachable one, with no restart since. */
  predicate ArmedAt(rs: seq<Round>, g0: nat, i: nat) {
    i < |rs| && Reached(rs[i]) && forall j | i < j < |rs| :: !Reached(rs[j]) && !Restarted(rs, g0, j)
  }

  /** How many rounds after `i` count as failures. */
  function Failures(rs: seq<Round>, i: nat): (n: nat)
    requires i < |rs|
    decreases |rs|
  {
    if i == |rs| - 1 then 0
    else Failures(rs[..|rs| - 1], i) + if Counted(rs[|rs| - 1]) then 1 else 0
  }

  lemma ArmedSnoc(rs: seq<Round>, g0: nat, i: nat)
    requires rs != []
    ensures var n := |rs| - 1;
            ArmedAt(rs, g0, i) <==>
            (i == n && Reached(rs[n])) || (i < n && ArmedAt(rs[..n], g0, i) && !Reached(rs[n]) && !Restarted(rs, g0, n))
  {
    var n := |rs| - 1;
    forall j | 0 <= j < n ensures Restarted(rs, g0, j) == Restarted(rs[..n], g0, j) && rs[..n][j] == rs[j] { }
    hide Reached;
    if i < n && ArmedAt(rs, g0, i) {
      forall j | i < j < n ensures !Reached(rs[..n][j]) && !Restarted(rs[..n], g0, j) {
        assert !Reached(rs[j]) && !Restarted(rs, g0, j);
      }
    }
    if i < n && ArmedAt(rs[..n], g0, i) && !Reached(rs[n]) && !Restarted(rs, g0, n) {
      forall j | i < j < |rs| ensures !Reached(rs[j]) && !Restarted(rs, g0, j) {
        if j < n { assert !Reached(rs[..n][j]); }
      }
    }
  }

  /** The probe's fields, read off the history. */
  ghost predicate ProbeTells(p: Probe, rs: seq<Round>, g0: nat, k: nat) {
    && p.lastGen == (if rs == [] then g0 else rs[|rs| - 1].gen)
    && (p.everHealthy <==> exists i :: ArmedAt(rs, g0, i))
    && (forall i | ArmedAt(rs, g0, i) :: p.fails == Failures(rs, i))
    && (p.broken <==> p.everHealthy && p.fails >= k)
    && (!p.everHealthy ==> p.fails == 0)
  }

  lemma {:induction false} ProbeIsHistory(rs: seq<Round>, g0: nat, k: nat)
    requires k >= 1
    ensures ProbeTells(ProbeRun(rs, g0, k), rs, g0, k)
  {
    if rs == [] {
    } else {
      var rest := rs[..|rs| - 1];
      ProbeIsHistory(rest, g0, k);
      hide ProbeRun, ArmedAt, Failures;
      ProbeRunUnfold(rs, g0, k);
      ProbeOneMore(ProbeRun(rest, g0, k), rs, g0, k);
    }
  }

  lemma ProbeRunUnfold(rs: seq<Round>, g0: nat, k: nat)
    requires rs != []
    ensures ProbeRun(rs, g0, k) == ProbeStep(ProbeRun(rs[..|rs| - 1], g0, k), rs[|rs| - 1], k)
  {
  }

  lemma ProbeOneMore(p: Probe, rs: seq<Round>, g0: nat, k: nat)
    requires k >= 1 && rs != [] && ProbeTells(p, rs[..|rs| - 1], g0, k)
    ensures ProbeTells(ProbeStep(p, rs[|rs| - 1], k), rs, g0, k)
  {
    var n := |rs| - 1;
    var rest, r, q := rs[..n], rs[n], ProbeStep(p, rs[n], k);
    forall i: nat
      ensures ArmedAt(rs, g0, i) <==>
              (i == n && Reached(r)) || (i < n && ArmedAt(rest, g0, i) && !Reached(r) && !Restarted(rs, g0, n))
    {
      ArmedSnoc(rs, g0, i);
    }
    hide ArmedAt;
    assert Restarted(rs, g0, n) <==> r.gen != p.lastGen;
    forall i: nat | ArmedAt(rs, g0, i) ensures i < |rs| && q.fails == Failures(rs, i) { ArmedInRange(rs, g0, i); }
    ArmedExists(rs, g0, n);
  }

  lemma ArmedInRange(rs: seq<Round>, g0: nat, i: nat)
    requires ArmedAt(rs, g0, i)
    ensures i < |rs|
  {
  }

  lemma ArmedExists(rs: seq<Round>, g0: nat, n: nat)
    requires rs != [] && n == |rs| - 1
    requires forall i: nat :: ArmedAt(rs, g0, i) <==>
               (i == n && Reached(rs[n])) ||
               (i < n && ArmedAt(rs[..n], g0, i) && !Reached(rs[n]) && !Restarted(rs, g0, n))
    ensures (exists i :: ArmedAt(rs, g0, i)) <==>
            Reached(rs[n]) || (!Restarted(rs, g0, n) && exists i :: ArmedAt(rs[..n], g0, i))
  {
    forall i: nat | ArmedAt(rs[..n], g0, i) ensures i < n { }
    hide ArmedAt, Reached, Restarted;
    if Reached(rs[n]) { assert ArmedAt(rs, g0, n); }
    if !Reached(rs[n]) && !Restarted(rs, g0, n) && exists i :: ArmedAt(rs[..n], g0, i) {
      var i: nat :| ArmedAt(rs[..n], g0, i);
      assert ArmedAt(rs, g0, i);
    }
    if i: nat :| ArmedAt(rs, g0, i) && !Reached(rs[n]) { assert ArmedAt(rs[..n], g0, i); }
  }

  /** The verdict over every run: broken exactly when a reachable round was followed by at least `k` conclusive
      zero-reach rounds, with neither a reachable round nor a VPP restart since. */
  lemma BrokenIff(rs: seq<Round>, g0: nat, k: nat)
    requires k >= 1
    ensures ProbeRun(rs, g0, k).broken <==> exists i :: ArmedAt(rs, g0, i) && Failures(rs, i) >= k
  {
    hide ProbeRun, Failures;
    ProbeIsHistory(rs, g0, k);
  }

  class ForwardingProbe {
    const k: nat
    var fails: nat
    var everHealthy: bool
    var broken: bool
    var lastGen: nat

    constructor (k: int, gen: nat)
      ensures this.k >= 1 && (k >= 1 ==> this.k == k) && Value() == ProbeRun([], gen, this.k)
    {
      this.k := if k < 1 then 1 else k;
      fails, everHealthy, broken, lastGen := 0, false, false, gen;
    }

    ghost function Value(): (p: Probe)
      reads this
    {
      Probe(fails, everHealthy, broken, lastGen)
    }

    method DoRound(gen: nat, recv: Option<int>, busy: bool)
      modifies this
      ensures Value() == ProbeStep(old(Value()), Round(gen, recv, busy), k)
    {
      if gen != lastGen {
        lastGen := gen;
        fails := 0;
        everHealthy := false;
        broken := false;
      }
      if recv.None? {
        return;
      } else if recv.value > 0 {
        fails := 0;
        everHealthy := true;
        broken := false;
      } else if !everHealthy {
        return;
      } else {
        if busy { return; }
        fails := fails + 1;
        if fails >= k && !broken { broken := true; }
      }
    }
  }

  // ----- the heartbeat monitor ---------------------------------------------------------------------------

  /** Reading the heartbeat: a value, the stats socket gone, or some other failure. */
  datatype Reading = Beat(b: nat) | Gone | Unreadable
  datatype Check = Check(reading: Reading, now: int, busy: bool)

  /** The monitor, with the transitions it announced and the times it rebuilt its reader. */
  datatype Monitor = Monitor(haveBeat: bool, lastBeat: nat, lastAdvance: int, dead: bool,
                             announced: seq<bool>, rebuilt: seq<int>)

  const FRESH: Monitor := Monitor(false, 0, 0, false, [], [])

  /** `wedgeGrace`, and how often the reader may be rebuilt (`None`: never). */
  datatype Limits = Limits(grace: int, every: Option<int>)

  function SetDead(m: Monitor, dead: bool): (r: Monitor) {
    if m.dead == dead then m else m.(dead := dead, announced := m.announced + [dead])
  }

  function Rebuild(m: Monitor, now: int, every: Option<int>): (r: Monitor) {
    if every.Some? && (m.rebuilt == [] || now - m.rebuilt[|m.rebuilt| - 1] >= every.value)
    then m.(rebuilt := m.rebuilt + [now])
    else m
  }

  function MonitorStep(m: Monitor, c: Check, l: Limits): (r: Monitor) {
    if c.reading.Gone? then SetDead(m, true)
    else if c.reading.Beat? && (!m.haveBeat || c.reading.b != m.lastBeat) then
      SetDead(m.(haveBeat := true, lastBeat := c.reading.b, lastAdvance := c.now), false)
    else if c.busy || !m.haveBeat || c.now - m.lastAdvance < l.grace then m
    else Rebuild(SetDead(m, true), c.now, l.every)
  }

  function MonitorRun(cs: seq<Check>, l: Limits): (m: Monitor) {
    if cs == [] then FRESH else MonitorStep(MonitorRun(cs[..|cs| - 1], l), cs[|cs| - 1], l)
  }

  /** The latest heartbeat value read before check `i`. */
  function LatestBeat(cs: seq<Check>, i: nat): (r: Option<nat>)
    requires i <= |cs|
  {
    if i == 0 then None else if cs[i - 1].reading.Beat? then Some(cs[i - 1].reading.b) else LatestBeat(cs, i - 1)
  }

  /** Check `i` saw the first or a changed heartbeat. */
  predicate Advanced(cs: seq<Check>, i: nat)
    requires i < |cs|
  {
    cs[i].reading.Beat? && LatestBeat(cs, i) != Some(cs[i].reading.b)
  }

  /** The last check before `i` that saw an advance. */
  function LastAdvanced(cs: seq<Check>, i: nat): (r: Option<nat>)
    requires i <= |cs|
    ensures r.Some? ==> r.value < i && Advanced(cs, r.value)
    ensures forall j | (if r.Some? then r.value else -1) < j < i :: !Advanced(cs, j)
  {
    if i == 0 then None else if Advanced(cs, i - 1) then Some(i - 1) else LastAdvanced(cs, i - 1)
  }

  /** Check `i` is evidence of death: the socket is gone, or an idle edge saw no advance for the grace. */
  predicate Deadly(cs: seq<Check>, i: nat, grace: int)
    requires i < |cs|
  {
    cs[i].reading.Gone? ||
    (!Advanced(cs, i) && !cs[i].busy && LastAdvanced(cs, i).Some? &&
     cs[i].now - cs[LastAdvanced(cs, i).value].now >= grace)
  }

  lemma {:induction false} BeatPrefix(cs: seq<Check>, i: nat)
    requires cs != [] && i < |cs|
    ensures LatestBeat(cs[..|cs| - 1], i) == LatestBeat(cs, i)
    ensures LastAdvanced(cs[..|cs| - 1], i) == LastAdvanced(cs, i)
    ensures i < |cs| - 1 ==> Advanced(cs[..|cs| - 1], i) == Advanced(cs, i)
  {
    if i == 0 {
    } else {
      BeatPrefix(cs, i - 1);
    }
  }

  lemma DeadlyPrefix(cs: seq<Check>, i: nat, grace: int)
    requires cs != [] && i < |cs| - 1
    ensures Deadly(cs[..|cs| - 1], i, grace) == Deadly(cs, i, grace)
  {
    hide Advanced, LastAdvanced;
    BeatPrefix(cs, i);
  }

  /** The monitor's fields, read off the history. */
  predicate MonitorTells(m: Monitor, cs: seq<Check>) {
    && (m.haveBeat <==> LatestBeat(cs, |cs|).Some?)
    && (m.haveBeat ==> LatestBeat(cs, |cs|) == Some(m.lastBeat))
    && (m.haveBeat <==> LastAdvanced(cs, |cs|).Some?)
    && (m.haveBeat ==> m.lastAdvance == cs[LastAdvanced(cs, |cs|).value].now)
  }

  lemma {:induction false} MonitorIsHistory(cs: seq<Check>, l: Limits)
    ensures MonitorTells(MonitorRun(cs, l), cs)
  {
    if cs == [] {
    } else {
      MonitorIsHistory(cs[..|cs| - 1], l);
      BeatPrefix(cs, |cs| - 1);
      hide MonitorRun;
      MonitorRunUnfold(cs, l);
    }
  }

  lemma MonitorRunUnfold(cs: seq<Check>, l: Limits)
    requires cs != []
    ensures MonitorRun(cs, l) == MonitorStep(MonitorRun(cs[..|cs| - 1], l), cs[|cs| - 1], l)
  {
  }

  /** One check kills, revives, or leaves the verdict. */
  lemma VerdictStep(cs: seq<Check>, l: Limits)
    requires cs != []
    ensures var n := |cs| - 1;
            MonitorRun(cs, l).dead ==
            if Advanced(cs, n) then false
            else MonitorRun(cs[..n], l).dead || Deadly(cs, n, l.grace)
  {
    var n := |cs| - 1;
    MonitorIsHistory(cs[..n], l);
    BeatPrefix(cs, n);
    hide MonitorRun;
    MonitorRunUnfold(cs, l);
  }

  /** The verdict over every run: dead exactly when some check was evidence of death and no later check saw
      the heartbeat advance. */
  lemma {:induction false} DeadIff(cs: seq<Check>, l: Limits)
    ensures MonitorRun(cs, l).dead <==>
            exists i :: 0 <= i < |cs| && Deadly(cs, i, l.grace) && !Advanced(cs, i) &&
              forall j | i < j < |cs| :: !Advanced(cs, j)
  {
    if cs == [] {
    } else {
      DeadIff(cs[..|cs| - 1], l);
      VerdictStep(cs, l);
      hide MonitorRun;
      DeadStep(cs, l.grace);
    }
  }

  ghost predicate Condemned(cs: seq<Check>, grace: int) {
    exists i :: 0 <= i < |cs| && Deadly(cs, i, grace) && !Advanced(cs, i) && forall j | i < j < |cs| :: !Advanced(cs, j)
  }

  lemma DeadStep(cs: seq<Check>, grace: int)
    requires cs != []
    ensures var n := |cs| - 1;
            Condemned(cs, grace) <==> !Advanced(cs, n) && (Condemned(cs[..n], grace) || Deadly(cs, n, grace))
  {
    var n := |cs| - 1;
    forall i | 0 <= i < n ensures Deadly(cs[..n], i, grace) == Deadly(cs, i, grace)
                          ensures Advanced(cs[..n], i) == Advanced(cs, i) {
      DeadlyPrefix(cs, i, grace);
      BeatPrefix(cs, i);
    }
    hide Deadly, Advanced;
    if Condemned(cs, grace) {
      var i :| 0 <= i < |cs| && Deadly(cs, i, grace) && !Advanced(cs, i) && forall j | i < j < |cs| :: !Advanced(cs, j);
      assert !Advanced(cs, n);
      if i < n { assert Deadly(cs[..n], i, grace); }
    }
    if !Advanced(cs, n) && Condemned(cs[..n], grace) {
      var i :| 0 <= i < n && Deadly(cs[..n], i, grace) && !Advanced(cs[..n], i) &&
        forall j | i < j < n :: !Advanced(cs[..n], j);
      assert Deadly(cs, i, grace) && !Advanced(cs, i);
      forall j | i < j < |cs| ensures !Advanced(cs, j) { if j < n { assert !Advanced(cs[..n], j); } }
    }
  }

  /** Recovery needs the first or a changed heartbeat. */
  lemma DeadClearsOnlyOnAdvance(cs: seq<Check>, l: Limits)
    requires cs != [] && MonitorRun(cs[..|cs| - 1], l).dead && !MonitorRun(cs, l).dead
    ensures Advanced(cs, |cs| - 1)
  {
    VerdictStep(cs, l);
  }

  /** A stall is never lost: after the last advance at `a`, any idle check past the grace declares it, however
      long the edge was busy before. */
  lemma StallIsDeclared(cs: seq<Check>, l: Limits, a: nat)
    requires a < |cs| - 1 && Advanced(cs, a) && forall j | a < j < |cs| :: !Advanced(cs, j)
    requires !cs[|cs| - 1].busy && cs[|cs| - 1].now - cs[a].now >= l.grace
    ensures MonitorRun(cs, l).dead
  {
    var n := |cs| - 1;
    VerdictStep(cs, l);
    hide MonitorRun;
    assert LastAdvanced(cs, n) == Some(a) by {
      var r := LastAdvanced(cs, n);
      assert r.Some? && r.value >= a;
      assert r.value <= a;
    }
  }

  /** Announced transitions alternate, starting with a death, and the last one is the verdict. */
  lemma {:induction false} AnnouncementsAlternate(cs: seq<Check>, l: Limits)
    ensures var m := MonitorRun(cs, l);
            (forall i | 0 <= i < |m.announced| :: m.announced[i] == (i % 2 == 0)) && m.dead == (|m.announced| % 2 == 1)
  {
    if cs == [] {
    } else {
      AnnouncementsAlternate(cs[..|cs| - 1], l);
    }
  }

  predicate Apart(ts: seq<int>, i: nat, every: int)
    requires 0 < i < |ts|
  {
    ts[i] - ts[i - 1] >= every
  }

  /** Reader rebuilds keep their distance. */
  lemma {:induction false} RebuildsAreSpaced(cs: seq<Check>, l: Limits)
    ensures var m := MonitorRun(cs, l);
            l.every.None? ==> m.rebuilt == []
    ensures var m := MonitorRun(cs, l);
            l.every.Some? ==> forall i | 0 < i < |m.rebuilt| :: Apart(m.rebuilt, i, l.every.value)
  {
    if cs == [] {
    } else {
      var before, m := MonitorRun(cs[..|cs| - 1], l), MonitorRun(cs, l);
      RebuildsAreSpaced(cs[..|cs| - 1], l);
      hide MonitorRun;
      MonitorRunUnfold(cs, l);
      forall i | 0 < i < |m.rebuilt| && l.every.Some? ensures Apart(m.rebuilt, i, l.every.value) {
        if i < |before.rebuilt| { assert Apart(before.rebuilt, i, l.every.value); }
      }
    }
  }

  /** Check `i` is an idle one past the grace: the heartbeat stands still though its socket is there. */
  predicate Stalled(cs: seq<Check>, i: nat, grace: int)
    requires i < |cs|
  {
    Deadly(cs, i, grace) && !cs[i].reading.Gone?
  }

  /** The reader is rebuilt at exactly the stalled checks at which rebuilding is on and the last rebuild, if any,
      lies the configured interval back. */
  lemma RebuildIff(cs: seq<Check>, l: Limits)
    requires cs != []
    ensures var n := |cs| - 1;
            var before, after := MonitorRun(cs[..n], l).rebuilt, MonitorRun(cs, l).rebuilt;
            if Stalled(cs, n, l.grace) && l.every.Some? &&
               (before == [] || cs[n].now - before[|before| - 1] >= l.every.value)
            then after == before + [cs[n].now] else after == before
  {
    var n := |cs| - 1;
    MonitorIsHistory(cs[..n], l);
    BeatPrefix(cs, n);
    hide MonitorRun;
    MonitorRunUnfold(cs, l);
  }

  /** While the heartbeat stands still the reader is never older than the interval. */
  lemma RebuildsInTime(cs: seq<Check>, l: Limits)
    requires cs != [] && l.every.Some? && l.every.value > 0 && Stalled(cs, |cs| - 1, l.grace)
    ensures var rebuilt := MonitorRun(cs, l).rebuilt;
            rebuilt != [] && cs[|cs| - 1].now - rebuilt[|rebuilt| - 1] < l.every.value
  {
    hide MonitorRun, Stalled;
    RebuildIff(cs, l);
  }

  /** And it is rebuilt at no other time. */
  lemma {:induction false} RebuiltWhileStalled(cs: seq<Check>, l: Limits, k: nat)
    requires k < |MonitorRun(cs, l).rebuilt|
    ensures exists i: nat :: i < |cs| && Stalled(cs, i, l.grace) && cs[i].now == MonitorRun(cs, l).rebuilt[k]
  {
    if cs == [] {
      assert false;
    } else {
      var n := |cs| - 1;
      hide MonitorRun;
      RebuildIff(cs, l);
      var before := MonitorRun(cs[..n], l).rebuilt;
      if k < |before| {
        RebuiltWhileStalled(cs[..n], l, k);
        var i: nat :| i < n && Stalled(cs[..n], i, l.grace) && cs[..n][i].now == before[k];
        DeadlyPrefix(cs, i, l.grace);
        assert Stalled(cs, i, l.grace);
      } else {
        assert Stalled(cs, n, l.grace);
      }
    }
  }

  class VppLiveness {
    const limits: Limits
    var haveBeat: bool
    var lastBeat: nat
    var lastAdvance: int
    var dead: bool
    var lastReconnect: Option<int>
    /** The announced transitions and the rebuild times. */
    ghost var announced: seq<bool>
    ghost var rebuilt: seq<int>

    constructor (limits: Limits)
      ensures this.limits == limits && Valid() && Value() == FRESH
    {
      this.limits := limits;
      haveBeat, lastBeat, lastAdvance, dead, lastReconnect := false, 0, 0, false, None;
      announced, rebuilt := [], [];
    }

    ghost predicate Valid()
      reads this
    {
      lastReconnect == if rebuilt == [] then None else Some(rebuilt[|rebuilt| - 1])
    }

    ghost function Value(): (m: Monitor)
      reads this
    {
      Monitor(haveBeat, lastBeat, lastAdvance, dead, announced, rebuilt)
    }

    method Set(d: bool)
      modifies this`dead, this`announced
      ensures Value() == SetDead(old(Value()), d)
    {
      var was := dead;
      dead := d;
      if was == d { return; }
      announced := announced + [d];
    }

    method DoCheck(c: Check)
      requires Valid()
      modifies this
      ensures Valid() && Value() == MonitorStep(old(Value()), c, limits)
    {
      if c.reading.Gone? {
        Set(true);
        return;
      } else if c.reading.Beat? && (!haveBeat || c.reading.b > lastBeat) {
        haveBeat := true;
        lastBeat := c.reading.b;
        lastAdvance := c.now;
        Set(false);
        return;
      } else if c.reading.Beat? && c.reading.b < lastBeat {
        lastBeat := c.reading.b;
        lastAdvance := c.now;
        Set(false);
        return;
      }
      if c.busy { return; }
      if haveBeat && c.now - lastAdvance >= limits.grace {
        Set(true);
        if limits.every.Some? && (lastReconnect.None? || c.now - lastReconnect.value >= limits.every.value) {
          lastReconnect := Some(c.now);
          rebuilt := rebuilt + [c.now];
        }
      }
    }
  }
}
