/** Chaining a family's mask tables and attaching the chain heads to interfaces
    (`reconcileBindings`, `familyHead`, internal/agent/reconcile.go). */
module Bindings {
  import opened Model
  import opened VppApi
  import C = Classify

  function FamilyTables(tables: map<MaskKind, nat>, fam: C.Family): (r: set<nat>) {
    set m | m in tables && MaskFamily(m) == fam :: tables[m]
  }

  function Elems(ts: seq<nat>): (r: set<nat>) { set t | t in ts }

  /** `t` is met within the first `len` hops from `head`. */
  ghost predicate Visited(next: map<nat, nat>, head: nat, len: nat, t: nat) {
    exists n: nat :: n < len && Follow(next, head, n) == t
  }

  predicate Ascending(ts: seq<nat>) {
    forall i, j | 0 <= i < j < |ts| :: ts[i] < ts[j]
  }

  /** The table after position `i`, or none. */
  function NextOf(ts: seq<nat>, i: nat): (t: nat)
    requires i < |ts|
  {
    if i + 1 < |ts| then ts[i + 1] else NO_TABLE
  }

  /** Each table links to the following one, the last to none. */
  predicate Chain(next: map<nat, nat>, ts: seq<nat>) {
    forall i | 0 <= i < |ts| :: ts[i] in next && next[ts[i]] == NextOf(ts, i)
  }

  lemma ChainOfOne(next: map<nat, nat>, t: nat)
    ensures Chain(next, [t]) <==> t in next && next[t] == NO_TABLE
  {
    assert [t][0] == t;
  }

  function HeadOf(ts: seq<nat>): (t: nat) { if ts == [] then NO_TABLE else ts[0] }

  /** The table reached from `t` after `n` next-table hops. */
  function Follow(next: map<nat, nat>, t: nat, n: nat): (r: nat) {
    if n == 0 then t
    else
      var p := Follow(next, t, n - 1);
      if p in next then next[p] else NO_TABLE
  }

  /** The lowest table of a family, or none: what its chain starts at. */
  predicate IsHead(h: nat, family: set<nat>) {
    if family == {} then h == NO_TABLE else h in family && forall t | t in family :: h <= t
  }

  lemma HeadOfIsHead(ts: seq<nat>, h: nat)
    requires Ascending(ts)
    ensures IsHead(h, Elems(ts)) <==> h == HeadOf(ts)
  {
    if ts == [] {
    } else {
      assert ts[0] in Elems(ts);
      forall t | t in Elems(ts) ensures ts[0] <= t { var i :| 0 <= i < |ts| && ts[i] == t; }
    }
  }

  /** The family's tables, in ascending order, are one chain. */
  ghost predicate Chained(next: map<nat, nat>, family: set<nat>) {
    exists ts :: Ascending(ts) && Elems(ts) == family && Chain(next, ts)
  }

  /** Walking a chain from its head visits position after position and then ends. */
  lemma {:induction false} WalkFollowsChain(next: map<nat, nat>, ts: seq<nat>, n: nat)
    requires Chain(next, ts) && n <= |ts|
    ensures Follow(next, HeadOf(ts), n) == if n < |ts| then ts[n] else NO_TABLE
  {
    if n == 0 {
    } else {
      WalkFollowsChain(next, ts, n - 1);
      assert ts[n - 1] in next;
    }
  }

  /** Every table of the family is met exactly once on the walk, no other table is, and it ends. */
  lemma WalkVisitsFamilyOnce(next: map<nat, nat>, tables: map<MaskKind, nat>, fam: C.Family, ts: seq<nat>)
    requires Chain(next, ts) && Ascending(ts) && Elems(ts) == FamilyTables(tables, fam)
    ensures Follow(next, HeadOf(ts), |ts|) == NO_TABLE
    ensures forall n: nat | n < |ts| :: Follow(next, HeadOf(ts), n) in FamilyTables(tables, fam)
    ensures forall t | t in FamilyTables(tables, fam) :: Visited(next, HeadOf(ts), |ts|, t)
    ensures forall a: nat, b: nat | a < b < |ts| :: Follow(next, HeadOf(ts), a) != Follow(next, HeadOf(ts), b)
  {
    forall n: nat | n <= |ts| ensures Follow(next, HeadOf(ts), n) == if n < |ts| then ts[n] else NO_TABLE {
      WalkFollowsChain(next, ts, n);
    }
    hide Follow;
    forall n: nat | n < |ts| ensures Follow(next, HeadOf(ts), n) in FamilyTables(tables, fam) {
      assert ts[n] in ts;
    }
    forall t | t in FamilyTables(tables, fam) ensures Visited(next, HeadOf(ts), |ts|, t) {
      assert t in ts;
      var n :| 0 <= n < |ts| && ts[n] == t;
      assert Follow(next, HeadOf(ts), n) == t;
    }
    forall a: nat, b: nat | a < b < |ts| ensures Follow(next, HeadOf(ts), a) != Follow(next, HeadOf(ts), b) {
      assert ts[a] < ts[b];
    }
  }

  /** `t` put in its place in an ascending sequence. */
  method InsertSorted(ts: seq<nat>, t: nat) returns (r: seq<nat>)
    requires Ascending(ts) && t !in ts
    ensures Ascending(r) && Elems(r) == Elems(ts) + {t}
  {
    var i := 0;
    while i < |ts| && ts[i] < t
      invariant 0 <= i <= |ts|
      invariant forall j | 0 <= j < i :: ts[j] < t
    {
      i := i + 1;
    }
    r := ts[..i] + [t] + ts[i..];
    SplicedAscending(ts, i, t);
  }

  lemma SplicedAscending(ts: seq<nat>, i: nat, t: nat)
    requires Ascending(ts) && i <= |ts|
    requires (forall j | 0 <= j < i :: ts[j] < t) && (i < |ts| ==> t < ts[i])
    ensures Ascending(ts[..i] + [t] + ts[i..])
    ensures Elems(ts[..i] + [t] + ts[i..]) == Elems(ts) + {t}
  {
    var r := ts[..i] + [t] + ts[i..];
    forall a, b | 0 <= a < b < |r| ensures r[a] < r[b] {
      assert r[a] == (if a < i then ts[a] else if a == i then t else ts[a - 1]);
      assert r[b] == (if b < i then ts[b] else if b == i then t else ts[b - 1]);
    }
    assert ts == ts[..i] + ts[i..];
  }

  function Collected(tables: map<MaskKind, nat>, done: set<MaskKind>, fam: C.Family): (r: set<nat>) {
    set m | m in done && m in tables && MaskFamily(m) == fam :: tables[m]
  }

  lemma CollectedStep(tables: map<MaskKind, nat>, done: set<MaskKind>, fam: C.Family, m: MaskKind)
    requires GoodTables(tables) && m in tables && m !in done
    ensures Collected(tables, done + {m}, fam) ==
            Collected(tables, done, fam) + if MaskFamily(m) == fam then {tables[m]} else {}
    ensures tables[m] !in Collected(tables, done, fam)
  {
  }

  method SortedFamily(tables: map<MaskKind, nat>, fam: C.Family) returns (ts: seq<nat>)
    requires GoodTables(tables)
    ensures Ascending(ts) && Elems(ts) == FamilyTables(tables, fam)
  {
    ts := [];
    var todo := tables.Keys;
    while todo != {}
      invariant todo <= tables.Keys && Ascending(ts)
      invariant Elems(ts) == Collected(tables, tables.Keys - todo, fam)
    {
      var m :| m in todo;
      CollectedStep(tables, tables.Keys - todo, fam, m);
      assert tables.Keys - (todo - {m}) == (tables.Keys - todo) + {m};
      if MaskFamily(m) == fam {
        assert tables[m] !in Elems(ts);
        ts := InsertSorted(ts, tables[m]);
      }
      todo := todo - {m};
    }
    assert tables.Keys - todo == tables.Keys;
  }

  /** Links the tables of `ts` into one chain. */
  method LinkAll(vpp: Vpp, ts: seq<nat>) returns (ok: bool)
    requires ts != [] && Ascending(ts)
    modifies vpp`next
    ensures forall t | t !in ts ::
              (t in vpp.next <==> t in old(vpp.next)) && (t in vpp.next ==> vpp.next[t] == old(vpp.next)[t])
    ensures ok ==> Chain(vpp.next, ts)
  {
    for i := 0 to |ts| - 1
      invariant forall t | t !in ts ::
                  (t in vpp.next <==> t in old(vpp.next)) && (t in vpp.next ==> vpp.next[t] == old(vpp.next)[t])
      invariant forall j | 0 <= j < i :: ts[j] in vpp.next && vpp.next[ts[j]] == ts[j + 1]
    {
      assert ts[i] in ts && forall j | 0 <= j < i :: ts[j] != ts[i];
      var done := vpp.LinkTable(ts[i], ts[i + 1]);
      if !done { return false; }
    }
    assert ts[|ts| - 1] in ts;
    assert forall j | 0 <= j < |ts| - 1 :: ts[j] != ts[|ts| - 1];
    ok := vpp.LinkTable(ts[|ts| - 1], NO_TABLE);
  }

  /** The head of a family's chain. A lone table is not linked: it is trusted to end its chain already, so
      the result is a chain exactly when there is not exactly one table or that one was. In a VPP whose tables
      are only ever created and linked by the agent a lone table does end its chain. */
  method FamilyHead(vpp: Vpp, tables: map<MaskKind, nat>, fam: C.Family)
    returns (head: nat, ok: bool, ghost ts: seq<nat>)
    requires GoodTables(tables)
    modifies vpp`next
    ensures Ascending(ts) && Elems(ts) == FamilyTables(tables, fam)
    ensures forall t | t !in ts ::
              (t in vpp.next <==> t in old(vpp.next)) && (t in vpp.next ==> vpp.next[t] == old(vpp.next)[t])
    ensures ok ==> head == HeadOf(ts)
    ensures ok ==> (Chain(vpp.next, ts) <==> |ts| != 1 || Chain(old(vpp.next), ts))
    ensures GoodLinks(tables, old(vpp.next)) ==> GoodLinks(tables, vpp.next) && (ok ==> Chain(vpp.next, ts))
  {
    hide FamilyTables, GoodTables, GoodLinks;
    ghost var n0 := vpp.next;
    var sorted := SortedFamily(tables, fam);
    ts := sorted;
    if |sorted| == 0 { return NO_TABLE, true, ts; }
    if |sorted| == 1 {
      if GoodLinks(tables, n0) { LoneIsChain(tables, n0, fam, sorted); }
      return sorted[0], true, ts;
    }
    ok := LinkAll(vpp, sorted);
    head := if ok then sorted[0] else NO_TABLE;
    if GoodLinks(tables, n0) { LinksKept(tables, fam, ts, n0, vpp.next); }
  }

  /** Linking a family of several tables leaves lone tables ending their chains. */
  lemma LinksKept(tables: map<MaskKind, nat>, fam: C.Family, ts: seq<nat>, before: map<nat, nat>, after: map<nat, nat>)
    requires GoodTables(tables) && GoodLinks(tables, before) && Ascending(ts) && Elems(ts) == FamilyTables(tables, fam)
    requires |ts| <= 1 ==> after == before
    requires forall t | t !in ts :: (t in after <==> t in before) && (t in after ==> after[t] == before[t])
    ensures GoodLinks(tables, after)
  {
    if |ts| > 1 {
      forall m | Lone(tables, m) ensures tables[m] !in ts { LoneApart(tables, fam, ts, m); }
    }
  }

  lemma LoneApart(tables: map<MaskKind, nat>, fam: C.Family, ts: seq<nat>, m: MaskKind)
    requires GoodTables(tables) && Ascending(ts) && Elems(ts) == FamilyTables(tables, fam) && |ts| > 1 &&
             Lone(tables, m)
    ensures MaskFamily(m) != fam && tables[m] !in ts
  {
    assert ts[0] in Elems(ts) && ts[1] in Elems(ts) && ts[0] < ts[1];
    var a :| a in tables && MaskFamily(a) == fam && tables[a] == ts[0];
    var b :| b in tables && MaskFamily(b) == fam && tables[b] == ts[1];
    assert forall t :: t in ts <==> t in FamilyTables(tables, fam);
  }

  lemma TheLoneOne(tables: map<MaskKind, nat>, fam: C.Family, ts: seq<nat>) returns (m: MaskKind)
    requires GoodTables(tables) && Elems(ts) == FamilyTables(tables, fam) && |ts| == 1
    ensures m in tables && Lone(tables, m) && tables[m] == ts[0]
  {
    assert ts[0] in Elems(ts);
    var a :| a in tables && MaskFamily(a) == fam && tables[a] == ts[0];
    forall o | o in tables && MaskFamily(o) == fam ensures o == a {
      assert tables[o] in FamilyTables(tables, fam);
      assert tables[o] in ts;
    }
    m := a;
  }

  /** A lone table of a well-linked VPP is a chain. */
  lemma LoneIsChain(tables: map<MaskKind, nat>, next: map<nat, nat>, fam: C.Family, ts: seq<nat>)
    requires GoodTables(tables) && GoodLinks(tables, next) && Elems(ts) == FamilyTables(tables, fam) && |ts| == 1
    ensures Chain(next, ts)
  {
    hide GoodTables, FamilyTables, Elems, Lone, Chain;
    var m := TheLoneOne(tables, fam, ts);
    assert ts == [ts[0]];
    ChainOfOne(next, ts[0]);
  }

  function TableOr(m: map<nat, nat>, sw: nat): (t: nat) { if sw in m then m[sw] else NO_TABLE }

  /** Interfaces whose bindings differ from the heads, counted over the configured list. */
  function Mismatches(names: seq<string>, idx: map<string, nat>, b4: map<nat, nat>, b6: map<nat, nat>, h4: nat,
                      h6: nat): (n: int) {
    if names == [] then 0
    else
      var last := names[|names| - 1];
      Mismatches(names[..|names| - 1], idx, b4, b6, h4, h6) +
      if last in idx && TableOr(b4, idx[last]) == h4 && TableOr(b6, idx[last]) == h6 then 0 else 1
  }

  predicate Bound(m: map<nat, nat>, sw: nat, head: nat) { TableOr(m, sw) == head }

  /** Points one family's binding of an interface at `head`: attach it, or detach the current table. */
  method BindFamily(vpp: Vpp, fam: C.Family, sw: nat, cur: nat, head: nat) returns (ok: bool)
    requires cur != head
    modifies vpp`bound4, vpp`bound6
    ensures fam == C.IPv4 ==> vpp.bound6 == old(vpp.bound6) && vpp.bound4 - {sw} == old(vpp.bound4) - {sw}
    ensures fam == C.IPv6 ==> vpp.bound4 == old(vpp.bound4) && vpp.bound6 - {sw} == old(vpp.bound6) - {sw}
    ensures ok ==> Bound(if fam == C.IPv4 then vpp.bound4 else vpp.bound6, sw, head)
  {
    var table, add := head, true;
    if head == NO_TABLE { table, add := cur, false; }
    if fam == C.IPv4 {
      ok := vpp.SetPolicerInterface(sw, table, NO_TABLE, add);
    } else {
      ok := vpp.SetPolicerInterface(sw, NO_TABLE, table, add);
    }
  }

  /** Points both families of one interface at the heads, each in its own call. */
  method BindInterface(vpp: Vpp, sw: nat, c4: nat, c6: nat, h4: nat, h6: nat) returns (ok: bool)
    requires c4 == h4 ==> Bound(vpp.bound4, sw, h4)
    requires c6 == h6 ==> Bound(vpp.bound6, sw, h6)
    modifies vpp`bound4, vpp`bound6
    ensures vpp.bound4 - {sw} == old(vpp.bound4) - {sw} && vpp.bound6 - {sw} == old(vpp.bound6) - {sw}
    ensures ok ==> Bound(vpp.bound4, sw, h4) && Bound(vpp.bound6, sw, h6)
  {
    if c4 != h4 {
      var done := BindFamily(vpp, C.IPv4, sw, c4, h4);
      if !done { return false; }
    }
    if c6 != h6 {
      var done := BindFamily(vpp, C.IPv6, sw, c6, h6);
      if !done { return false; }
    }
    ok := true;
  }

  lemma StillBound(before: map<nat, nat>, after: map<nat, nat>, sw: nat, x: nat, head: nat)
    requires after - {sw} == before - {sw} && Bound(before, x, head) && (x == sw ==> Bound(after, x, head))
    ensures Bound(after, x, head)
  {
    if x != sw {
      assert x in after - {sw} <==> x in before - {sw};
      assert x in after ==> (after - {sw})[x] == after[x];
    }
  }

  /** One pass over the configured interfaces, against bindings read once before it. */
  method BindAll(vpp: Vpp, names: seq<string>, idx: map<string, nat>, b4: map<nat, nat>, b6: map<nat, nat>, h4: nat,
                 h6: nat)
    returns (changed: int, ok: bool)
    requires (forall n | n in names :: n in idx) && b4 == vpp.bound4 && b6 == vpp.bound6
    modifies vpp`bound4, vpp`bound6
    ensures ok ==> forall n | n in names :: Bound(vpp.bound4, idx[n], h4) && Bound(vpp.bound6, idx[n], h6)
    ensures ok ==> changed == Mismatches(names, idx, b4, b6, h4, h6)
  {
    hide Mismatches;
    changed := 0;
    MismatchesAt(names[..0], idx, b4, b6, h4, h6);
    for i := 0 to |names|
      invariant forall x | Bound(b4, x, h4) :: Bound(vpp.bound4, x, h4)
      invariant forall x | Bound(b6, x, h6) :: Bound(vpp.bound6, x, h6)
      invariant forall j | 0 <= j < i :: Bound(vpp.bound4, idx[names[j]], h4) && Bound(vpp.bound6, idx[names[j]], h6)
      invariant changed == Mismatches(names[..i], idx, b4, b6, h4, h6)
    {
      MismatchesAt(names[..i + 1], idx, b4, b6, h4, h6);
      assert names[..i + 1][..i] == names[..i];
      var sw := idx[names[i]];
      var c4, c6 := TableOr(b4, sw), TableOr(b6, sw);
      if !(c4 == h4 && c6 == h6) {
        ghost var v4, v6 := vpp.bound4, vpp.bound6;
        var done := BindInterface(vpp, sw, c4, c6, h4, h6);
        if !done { return changed, false; }
        forall x | Bound(v4, x, h4) ensures Bound(vpp.bound4, x, h4) { StillBound(v4, vpp.bound4, sw, x, h4); }
        forall x | Bound(v6, x, h6) ensures Bound(vpp.bound6, x, h6) { StillBound(v6, vpp.bound6, sw, x, h6); }
        changed := changed + 1;
      }
    }
    assert names[..|names|] == names;
    ok := true;
  }

  lemma MismatchesAt(names: seq<string>, idx: map<string, nat>, b4: map<nat, nat>, b6: map<nat, nat>, h4: nat, h6: nat)
    ensures names == [] ==> Mismatches(names, idx, b4, b6, h4, h6) == 0
    ensures names != [] ==>
              var last := names[|names| - 1];
              Mismatches(names, idx, b4, b6, h4, h6) ==
              Mismatches(names[..|names| - 1], idx, b4, b6, h4, h6) +
              if last in idx && TableOr(b4, idx[last]) == h4 && TableOr(b6, idx[last]) == h6 then 0 else 1
  {
  }

  /** The count is the number of configured positions whose interface is off one of the heads. */
  lemma {:induction false} MismatchesCount(names: seq<string>, idx: map<string, nat>, b4: map<nat, nat>,
                                           b6: map<nat, nat>, h4: nat, h6: nat)
    ensures Mismatches(names, idx, b4, b6, h4, h6) == |OffHeads(names, idx, b4, b6, h4, h6)|
  {
    if names == [] {
      assert OffHeads(names, idx, b4, b6, h4, h6) == {};
    } else {
      var n := |names| - 1;
      var rest := names[..n];
      MismatchesCount(rest, idx, b4, b6, h4, h6);
      MismatchesAt(names, idx, b4, b6, h4, h6);
      OffHeadsStep(names, idx, b4, b6, h4, h6);
      hide Mismatches, OffHeads;
    }
  }

  predicate OffHead(name: string, idx: map<string, nat>, b4: map<nat, nat>, b6: map<nat, nat>, h4: nat, h6: nat) {
    !(name in idx && Bound(b4, idx[name], h4) && Bound(b6, idx[name], h6))
  }

  lemma OffHeadsStep(names: seq<string>, idx: map<string, nat>, b4: map<nat, nat>, b6: map<nat, nat>, h4: nat, h6: nat)
    requires names != []
    ensures var n := |names| - 1;
            |OffHeads(names, idx, b4, b6, h4, h6)| ==
            |OffHeads(names[..n], idx, b4, b6, h4, h6)| + if OffHead(names[n], idx, b4, b6, h4, h6) then 1 else 0
  {
    hide OffHead;
    var n := |names| - 1;
    var rest := names[..n];
    var was, now := OffHeads(rest, idx, b4, b6, h4, h6), OffHeads(names, idx, b4, b6, h4, h6);
    forall i | 0 <= i < n ensures i in now <==> i in was { assert rest[i] == names[i]; }
    assert now - {n} == was;
    assert n in now <==> OffHead(names[n], idx, b4, b6, h4, h6);
  }

  function OffHeads(names: seq<string>, idx: map<string, nat>, b4: map<nat, nat>, b6: map<nat, nat>, h4: nat,
                    h6: nat): (r: set<int>) {
    set i | 0 <= i < |names| && OffHead(names[i], idx, b4, b6, h4, h6)
  }

  /** No interface needs a change exactly when all are bound to both heads. */
  lemma {:induction false} NoMismatchIff(names: seq<string>, idx: map<string, nat>, b4: map<nat, nat>,
                                         b6: map<nat, nat>, h4: nat, h6: nat)
    ensures Mismatches(names, idx, b4, b6, h4, h6) >= 0
    ensures Mismatches(names, idx, b4, b6, h4, h6) == 0 <==>
            forall n | n in names :: n in idx && Bound(b4, idx[n], h4) && Bound(b6, idx[n], h6)
  {
    if names == [] {
    } else {
      NoMismatchIff(names[..|names| - 1], idx, b4, b6, h4, h6);
      assert names == names[..|names| - 1] + [names[|names| - 1]];
    }
  }

  /** The tables of different families are different, so one family's links leave the other's chain alone. */
  lemma FamiliesApart(tables: map<MaskKind, nat>)
    requires GoodTables(tables)
    ensures FamilyTables(tables, C.IPv4) !! FamilyTables(tables, C.IPv6)
  {
  }

  lemma ChainUntouched(before: map<nat, nat>, after: map<nat, nat>, ts: seq<nat>, others: seq<nat>)
    requires forall t | t !in others :: (t in after <==> t in before) && (t in after ==> after[t] == before[t])
    requires forall t | t in ts :: t !in others
    ensures Chain(after, ts) <==> Chain(before, ts)
  {
    forall i | 0 <= i < |ts| ensures ts[i] !in others { assert ts[i] in ts; }
  }

  /** Every interface is on the heads of both families. */
  predicate OnHeads(names: seq<string>, ifaces: map<string, nat>, b4: map<nat, nat>, b6: map<nat, nat>,
                    tables: map<MaskKind, nat>) {
    forall n | n in names :: n in ifaces && IsHead(TableOr(b4, ifaces[n]), FamilyTables(tables, C.IPv4)) &&
                             IsHead(TableOr(b6, ifaces[n]), FamilyTables(tables, C.IPv6))
  }

  lemma OnHeadsIff(names: seq<string>, ifaces: map<string, nat>, b4: map<nat, nat>, b6: map<nat, nat>,
                   tables: map<MaskKind, nat>,
                   ts4: seq<nat>, ts6: seq<nat>)
    requires Ascending(ts4) && Elems(ts4) == FamilyTables(tables, C.IPv4)
    requires Ascending(ts6) && Elems(ts6) == FamilyTables(tables, C.IPv6)
    ensures OnHeads(names, ifaces, b4, b6, tables) <==>
            forall n | n in names ::
              n in ifaces && Bound(b4, ifaces[n], HeadOf(ts4)) && Bound(b6, ifaces[n], HeadOf(ts6))
  {
    hide IsHead, Ascending, FamilyTables, HeadOf, Elems;
    forall n | n in names && n in ifaces
      ensures IsHead(TableOr(b4, ifaces[n]), FamilyTables(tables, C.IPv4)) <==> Bound(b4, ifaces[n], HeadOf(ts4))
      ensures IsHead(TableOr(b6, ifaces[n]), FamilyTables(tables, C.IPv6)) <==> Bound(b6, ifaces[n], HeadOf(ts6))
    {
      HeadOfIsHead(ts4, TableOr(b4, ifaces[n]));
      HeadOfIsHead(ts6, TableOr(b6, ifaces[n]));
    }
  }

  /** How many interfaces a pass has to change: those not on the heads. */
  ghost predicate Counts(changed: int, names: seq<string>, ifaces: map<string, nat>, b4: map<nat, nat>,
                         b6: map<nat, nat>, tables: map<MaskKind, nat>) {
    forall h4, h6 | IsHead(h4, FamilyTables(tables, C.IPv4)) && IsHead(h6, FamilyTables(tables, C.IPv6)) ::
      changed == Mismatches(names, ifaces, b4, b6, h4, h6)
  }

  lemma CountsFrom(changed: int, names: seq<string>, ifaces: map<string, nat>, b4: map<nat, nat>, b6: map<nat, nat>,
                   tables: map<MaskKind, nat>,
                   ts4: seq<nat>, ts6: seq<nat>)
    requires Ascending(ts4) && Elems(ts4) == FamilyTables(tables, C.IPv4)
    requires Ascending(ts6) && Elems(ts6) == FamilyTables(tables, C.IPv6)
    requires changed == Mismatches(names, ifaces, b4, b6, HeadOf(ts4), HeadOf(ts6))
    ensures Counts(changed, names, ifaces, b4, b6, tables)
    ensures changed == 0 <==> OnHeads(names, ifaces, b4, b6, tables)
  {
    hide IsHead, Ascending, FamilyTables, HeadOf, Elems, Mismatches, OnHeads, Bound;
    forall h4, h6 | IsHead(h4, FamilyTables(tables, C.IPv4)) && IsHead(h6, FamilyTables(tables, C.IPv6))
      ensures h4 == HeadOf(ts4) && h6 == HeadOf(ts6)
    {
      HeadOfIsHead(ts4, h4);
      HeadOfIsHead(ts6, h6);
    }
    NoMismatchIff(names, ifaces, b4, b6, HeadOf(ts4), HeadOf(ts6));
    OnHeadsIff(names, ifaces, b4, b6, tables, ts4, ts6);
  }

  /** Both chains of a well-linked VPP, with their heads. */
  method BothHeads(vpp: Vpp) returns (h4: nat, h6: nat, ok: bool, ghost ts4: seq<nat>, ghost ts6: seq<nat>)
    requires GoodTables(vpp.tables) && GoodLinks(vpp.tables, vpp.next)
    modifies vpp`next
    ensures GoodLinks(vpp.tables, vpp.next)
    ensures ok ==> Ascending(ts4) && Elems(ts4) == FamilyTables(vpp.tables, C.IPv4) && Chain(vpp.next, ts4) &&
                   h4 == HeadOf(ts4)
    ensures ok ==> Ascending(ts6) && Elems(ts6) == FamilyTables(vpp.tables, C.IPv6) && Chain(vpp.next, ts6) &&
                   h6 == HeadOf(ts6)
  {
    hide Chain, Ascending, FamilyTables, GoodTables, GoodLinks;
    h6, ts6 := NO_TABLE, [];
    var tables := vpp.FindTablesByMask();
    if tables.Err? { return NO_TABLE, NO_TABLE, false, [], []; }
    h4, ok, ts4 := FamilyHead(vpp, tables.value, C.IPv4);
    if !ok { return; }
    ghost var n1 := vpp.next;
    h6, ok, ts6 := FamilyHead(vpp, tables.value, C.IPv6);
    if !ok { return; }
    FamiliesApart(tables.value);
    forall t | t in ts4 ensures t !in ts6 {
      assert t in Elems(ts4) && (t in ts6 ==> t in Elems(ts6));
    }
    ChainUntouched(n1, vpp.next, ts4, ts6);
  }

  /** A completed binding pass: both families chained, every configured interface on both heads, and the
      count of interfaces that needed a change, none exactly when all were on the heads already. */
  method ReconcileBindings(vpp: Vpp, names: seq<string>) returns (changed: int, ok: bool)
    requires GoodTables(vpp.tables) && GoodLinks(vpp.tables, vpp.next)
    modifies vpp`next, vpp`bound4, vpp`bound6
    ensures GoodLinks(vpp.tables, vpp.next)
    ensures ok && names != [] ==>
              Chained(vpp.next, FamilyTables(vpp.tables, C.IPv4)) && Chained(vpp.next, FamilyTables(vpp.tables, C.IPv6))
    ensures ok ==> OnHeads(names, vpp.ifaces, vpp.bound4, vpp.bound6, vpp.tables)
    ensures ok ==> Counts(changed, names, vpp.ifaces, old(vpp.bound4), old(vpp.bound6), vpp.tables)
    ensures ok ==> (changed == 0 <==> OnHeads(names, vpp.ifaces, old(vpp.bound4), old(vpp.bound6), vpp.tables))
  {
    hide Chain, Ascending, FamilyTables, Bound, GoodTables, GoodLinks, IsHead, HeadOf, Elems;
    changed := 0;
    if |names| == 0 { return 0, true; }
    hide Mismatches, OnHeads, Counts;
    var h4, h6, linked, ts4, ts6 := BothHeads(vpp);
    if !linked { return 0, false; }
    var b4 := vpp.DumpPolicerClassify(C.IPv4);
    if b4.Err? { return 0, false; }
    var b6 := vpp.DumpPolicerClassify(C.IPv6);
    if b6.Err? { return 0, false; }
    var idx := vpp.IndexMap(names);
    if idx.Err? { return 0, false; }
    changed, ok := BindAll(vpp, names, idx.value, b4.value, b6.value, h4, h6);
    if ok {
      MismatchesSameIndex(names, idx.value, vpp.ifaces, old(vpp.bound4), old(vpp.bound6), h4, h6);
      CountsFrom(changed, names, vpp.ifaces, old(vpp.bound4), old(vpp.bound6), vpp.tables, ts4, ts6);
      OnHeadsIff(names, vpp.ifaces, vpp.bound4, vpp.bound6, vpp.tables, ts4, ts6);
      assert Chained(vpp.next, FamilyTables(vpp.tables, C.IPv4)) && Chained(vpp.next, FamilyTables(vpp.tables, C.IPv6));
    }
  }

  lemma {:induction false} MismatchesSameIndex(names: seq<string>, a: map<string, nat>, b: map<string, nat>,
                                               b4: map<nat, nat>, b6: map<nat, nat>, h4: nat, h6: nat)
    requires forall n | n in names :: n in a && n in b && a[n] == b[n]
    ensures Mismatches(names, a, b4, b6, h4, h6) == Mismatches(names, b, b4, b6, h4, h6)
  {
    if names == [] {
    } else {
      MismatchesSameIndex(names[..|names| - 1], a, b, b4, b6, h4, h6);
      assert names[|names| - 1] in names;
    }
  }
}
