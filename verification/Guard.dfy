/** The reconcile-to-empty guard (internal/agent/reconcile.go), over whole runs of full passes. */
module Guard {
  datatype Guard = Guard(appliedNonEmpty: bool, pendingEmpty: bool)

  const INITIAL: Guard := Guard(false, false)

  /** A full pass: whether desired is empty, and whether it would complete if it reaches VPP. */
  datatype Pass = Pass(empty: bool, completes: bool)

  predicate Defers(g: Guard, empty: bool) { empty && g.appliedNonEmpty && !g.pendingEmpty }

  function After(g: Guard, p: Pass): (r: Guard) {
    if Defers(g, p.empty) then g.(pendingEmpty := true)
    else Guard(if p.completes then !p.empty else g.appliedNonEmpty, false)
  }

  function RunGuard(ps: seq<Pass>): (r: Guard) {
    if ps == [] then INITIAL else After(RunGuard(ps[..|ps| - 1]), ps[|ps| - 1])
  }

  predicate DeferredAt(ps: seq<Pass>, i: nat)
    requires i < |ps|
  {
    Defers(RunGuard(ps[..i]), ps[i].empty)
  }

  /** Pass `i` reached VPP and completed. */
  predicate CompletedAt(ps: seq<Pass>, i: nat)
    requires i < |ps|
  {
    ps[i].completes && !DeferredAt(ps, i)
  }

  /** The last pass of the run that reached VPP and completed had a non-empty desired state. */
  ghost predicate LastCompletedNonEmpty(ps: seq<Pass>) {
    exists j: nat :: j < |ps| && CompletedAt(ps, j) && !ps[j].empty &&
      forall k: nat | j < k < |ps| :: !CompletedAt(ps, k)
  }

  lemma PrefixAgrees(ps: seq<Pass>, i: nat)
    requires ps != [] && i < |ps| - 1
    ensures DeferredAt(ps, i) == DeferredAt(ps[..|ps| - 1], i) && CompletedAt(ps, i) == CompletedAt(ps[..|ps| - 1], i)
  {
    assert ps[..|ps| - 1][..i] == ps[..i];
  }

  /** The two flags, read off the history. */
  lemma {:induction false} FlagsAreHistory(ps: seq<Pass>)
    ensures RunGuard(ps).appliedNonEmpty <==> LastCompletedNonEmpty(ps)
    ensures RunGuard(ps).pendingEmpty <==> ps != [] && DeferredAt(ps, |ps| - 1)
  {
    if ps == [] {
    } else {
      var n := |ps| - 1;
      var rest := ps[..n];
      FlagsAreHistory(rest);
      hide RunGuard;
      UnfoldRun(ps);
      forall i: nat | i < n ensures CompletedAt(ps, i) == CompletedAt(rest, i) { PrefixAgrees(ps, i); }
      assert DeferredAt(ps, n) == Defers(RunGuard(rest), ps[n].empty);
      hide DeferredAt, CompletedAt;
      LastCompletedStep(ps);
    }
  }

  lemma UnfoldRun(ps: seq<Pass>)
    requires ps != []
    ensures RunGuard(ps) == After(RunGuard(ps[..|ps| - 1]), ps[|ps| - 1])
  {
  }

  lemma LastCompletedStep(ps: seq<Pass>)
    requires ps != []
    ensures var n := |ps| - 1;
            LastCompletedNonEmpty(ps) <==>
            if CompletedAt(ps, n) then !ps[n].empty else LastCompletedNonEmpty(ps[..n])
  {
    var n := |ps| - 1;
    forall i: nat | i < n ensures CompletedAt(ps, i) == CompletedAt(ps[..n], i) { PrefixAgrees(ps, i); }
    hide CompletedAt;
    if LastCompletedNonEmpty(ps) && !CompletedAt(ps, n) {
      var j: nat :| j < |ps| && CompletedAt(ps, j) && !ps[j].empty &&
        forall k: nat | j < k < |ps| :: !CompletedAt(ps, k);
      assert j < n && CompletedAt(ps[..n], j) && !ps[..n][j].empty;
    }
    if !CompletedAt(ps, n) && LastCompletedNonEmpty(ps[..n]) {
      var j: nat :| j < n && CompletedAt(ps[..n], j) && !ps[..n][j].empty &&
        forall k: nat | j < k < n :: !CompletedAt(ps[..n], k);
      assert CompletedAt(ps, j) && !ps[j].empty;
      forall k: nat | j < k < |ps| ensures !CompletedAt(ps, k) { }
    }
  }

  /** In every run, an empty pass that gets to tear VPP down although the last completed pass was
      non-empty comes right after another empty pass, and that one was deferred. */
  lemma EmptyTeardownNeedsTwo(ps: seq<Pass>, i: nat)
    requires i < |ps| && ps[i].empty && !DeferredAt(ps, i) && LastCompletedNonEmpty(ps[..i])
    ensures i > 0 && ps[i - 1].empty && DeferredAt(ps, i - 1)
  {
    FlagsAreHistory(ps[..i]);
    assert i > 0 ==> ps[..i][..i - 1] == ps[..i - 1];
  }

  /** And the guard never holds a teardown back twice in a row. */
  lemma NeverDefersTwice(ps: seq<Pass>, i: nat)
    requires 0 < i < |ps| && DeferredAt(ps, i - 1)
    ensures !DeferredAt(ps, i)
  {
    FlagsAreHistory(ps[..i]);
    assert ps[..i][..i - 1] == ps[..i - 1];
  }

  /** A pass is held back exactly when it would tear down what the last completed pass left and the pass before it
      was not held back. */
  lemma DeferredIff(ps: seq<Pass>, i: nat)
    requires i < |ps|
    ensures DeferredAt(ps, i) <==>
            ps[i].empty && LastCompletedNonEmpty(ps[..i]) && !(i > 0 && DeferredAt(ps, i - 1))
  {
    FlagsAreHistory(ps[..i]);
    hide RunGuard, LastCompletedNonEmpty;
    if i > 0 { assert ps[..i][..i - 1] == ps[..i - 1]; }
  }
}
