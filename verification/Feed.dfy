/** Streaming announcements to BIRD: the receiver's table, the socket client (internal/birdfeed/client.go)
    and the feed that keeps the table equal to desired (internal/birdfeed/feed.go). Frames are operations
    here; `Codec` shows that a byte stream cut anywhere delivers a prefix of them. */
module Feed {
  import opened Model
  import opened Desired
  import opened Codec

  // ----- BIRD's side ---------------------------------------------------------------------------------

  type Routes = map<Net, seq<Byte>>

  /** BIRD's table for this feed, with the routes a running refresh has not confirmed yet. */
  datatype Bird = Bird(routes: Routes, stale: set<Net>)

  /** HELLO marks everything stale, ADD upserts and confirms, DEL removes, EOR prunes. */
  function Receive(t: Bird, op: Op): (r: Bird) {
    match op
    case Hello => Bird(t.routes, t.routes.Keys)
    case Eor => Bird(t.routes - t.stale, {})
    case Add(n, attrs) => Bird(t.routes[n := attrs], t.stale - {n})
    case Del(n) => Bird(t.routes - {n}, t.stale - {n})
  }

  function ReceiveAll(t: Bird, ops: seq<Op>): (r: Bird) {
    if ops == [] then t else Receive(ReceiveAll(t, ops[..|ops| - 1]), ops[|ops| - 1])
  }

  lemma {:induction false} ReceiveConcat(t: Bird, a: seq<Op>, b: seq<Op>)
    ensures ReceiveAll(t, a + b) == ReceiveAll(ReceiveAll(t, a), b)
    decreases |b|
  {
    hide Receive;
    if b == [] {
      assert a + b == a;
    } else {
      assert (a + b)[..|a + b| - 1] == a + b[..|b| - 1];
      ReceiveConcat(t, a, b[..|b| - 1]);
    }
  }

  lemma ReceiveSnoc(t: Bird, ops: seq<Op>, op: Op)
    ensures ReceiveAll(t, ops + [op]) == Receive(ReceiveAll(t, ops), op)
  {
    hide Receive;
    assert (ops + [op])[..|ops|] == ops;
  }

  // ----- scripts of updates --------------------------------------------------------------------------

  predicate Agree(n: Net, a: Routes, b: Routes) { (n in a <==> n in b) && (n in a && n in b ==> a[n] == b[n]) }

  /** The update moves its net to where `target` has it. */
  predicate Steers(op: Op, target: Routes) {
    match op
    case Add(n, attrs) => n in target && target[n] == attrs
    case Del(n) => n !in target
    case _ => false
  }

  function Nets(ops: set<Op>): (r: set<Net>) {
    (set op | op in ops && op.Add? :: op.net) + (set op | op in ops && op.Del? :: op.net)
  }

  function Ops(script: seq<Op>): (r: set<Op>) { set op | op in script }

  lemma OpsSnoc(script: seq<Op>, op: Op)
    ensures Ops(script + [op]) == Ops(script) + {op}
  {
  }

  lemma OpsOne(op: Op)
    ensures Ops([op]) == {op}
  {
  }

  lemma OpsConcat(a: seq<Op>, b: seq<Op>)
    ensures Ops(a + b) == Ops(a) + Ops(b)
  {
  }

  lemma NetsSnoc(ops: set<Op>, op: Op)
    requires op.Add? || op.Del?
    ensures Nets(ops + {op}) == Nets(ops) + {op.net}
  {
  }

  /** Updates in any order, with any repetition, settle the nets they name and leave the others alone. */
  lemma {:induction false} ScriptSettles(t: Bird, script: seq<Op>, target: Routes)
    requires forall op | op in script :: Steers(op, target)
    ensures var r := ReceiveAll(t, script); var named := Nets(Ops(script));
            (forall n :: if n in named then Agree(n, r.routes, target) else Agree(n, r.routes, t.routes)) &&
            r.stale == t.stale - named
  {
    if script == [] {
      assert Nets(Ops(script)) == {};
    } else {
      var rest, op := script[..|script| - 1], script[|script| - 1];
      ScriptSettles(t, rest, target);
      assert rest + [op] == script && op in script && Steers(op, target);
      OpsSnoc(rest, op);
      NetsSnoc(Ops(rest), op);
    }
  }

  /** Any announcement of all of `target`, in any order. */
  ghost predicate FullScript(script: seq<Op>, target: Routes) {
    && |script| >= 2 && script[0] == Hello && script[|script| - 1] == Eor
    && (forall op | op in script[1..|script| - 1] :: Steers(op, target))
    && Nets(Ops(script[1..|script| - 1])) == target.Keys
  }

  /** Any sequence of updates toward `target` that covers every difference from `have`. */
  ghost predicate DiffScript(script: seq<Op>, have: Routes, target: Routes) {
    && (forall op | op in script :: Steers(op, target))
    && (forall n | !Agree(n, have, target) :: n in Nets(Ops(script)))
  }

  /** A full resync gives BIRD exactly `target`, whatever it held before. */
  lemma FullScriptYields(t: Bird, script: seq<Op>, target: Routes)
    requires FullScript(script, target)
    ensures ReceiveAll(t, script) == Bird(target, {})
  {
    var adds := script[1..|script| - 1];
    var t1 := Receive(t, Hello);
    assert script == ([Hello] + adds) + [Eor];
    assert ReceiveAll(t, [Hello]) == t1;
    hide Receive, ReceiveAll, Steers, Nets, Ops;
    ReceiveSnoc(t, [Hello] + adds, Eor);
    ReceiveConcat(t, [Hello], adds);
    ScriptSettles(t1, adds, target);
    PruneLeaves(t, ReceiveAll(t1, adds), target);
  }

  lemma PruneLeaves(t: Bird, t2: Bird, target: Routes)
    requires forall n :: if n in target.Keys then Agree(n, t2.routes, target) else Agree(n, t2.routes, t.routes)
    requires t2.stale == Receive(t, Hello).stale - target.Keys
    ensures Receive(t2, Eor) == Bird(target, {})
  {
    var r := t2.routes - t2.stale;
    forall n ensures n in r <==> n in target {
      if n in target { assert Agree(n, t2.routes, target); } else { assert Agree(n, t2.routes, t.routes); }
    }
    forall n | n in target ensures r[n] == target[n] { assert Agree(n, t2.routes, target); }
    assert r == target;
  }

  /** The incremental diff gives BIRD exactly `target` from a table that was exactly `have`. */
  lemma DiffScriptYields(script: seq<Op>, have: Routes, target: Routes)
    requires DiffScript(script, have, target)
    ensures ReceiveAll(Bird(have, {}), script) == Bird(target, {})
  {
    var r := ReceiveAll(Bird(have, {}), script);
    hide Receive, ReceiveAll, Steers, Nets, Ops;
    ScriptSettles(Bird(have, {}), script, target);
    forall n ensures Agree(n, r.routes, target) {
      if n !in Nets(Ops(script)) { assert Agree(n, have, target) && Agree(n, r.routes, have); }
    }
    forall n ensures n in r.routes <==> n in target { assert Agree(n, r.routes, target); }
    forall n | n in target ensures r.routes[n] == target[n] { assert Agree(n, r.routes, target); }
    assert r.routes == target;
  }

  /** So a diff leaves what a full resync would have left, down to attributes, from whatever table. */
  lemma DiffIsResync(diff: seq<Op>, full: seq<Op>, have: Routes, target: Routes, t: Bird)
    requires DiffScript(diff, have, target) && FullScript(full, target)
    ensures ReceiveAll(Bird(have, {}), diff) == ReceiveAll(t, full)
  {
    hide DiffScript, FullScript, ReceiveAll;
    DiffScriptYields(diff, have, target);
    FullScriptYields(t, full, target);
  }

  /** A diff that misses a difference never gets there, so the diff must be exactly this wide. */
  lemma DiffMustCover(script: seq<Op>, have: Routes, target: Routes, n: Net)
    requires (forall op | op in script :: Steers(op, target)) && !Agree(n, have, target) && n !in Nets(Ops(script))
    ensures ReceiveAll(Bird(have, {}), script).routes != target
  {
    hide Receive, ReceiveAll, Steers, Nets, Ops;
    ScriptSettles(Bird(have, {}), script, target);
    assert Agree(n, ReceiveAll(Bird(have, {}), script).routes, have);
  }

  // ----- what desired asks of BIRD ---------------------------------------------------------------------

  /** The feed's snapshot: anchors with their attribute bytes, flow sources, and both redirect targets. */
  datatype Want = Want(anchors: map<Prefix, seq<Byte>>, flows: set<Prefix>, nextHop: Addr, nextHop6: Addr)

  function AnchorMap(xs: seq<Anchor>): (m: map<Prefix, seq<Byte>>) {
    if xs == [] then map[] else AnchorMap(xs[..|xs| - 1])[xs[|xs| - 1].prefix := AttrBytes(xs[|xs| - 1])]
  }

  function FlowSet(xs: seq<FlowRedirect>): (s: set<Prefix>) { set x | x in xs :: x.srcPrefix }

  function WantOf(st: State): (w: Want) { Want(AnchorMap(st.anchors), FlowSet(st.flows), st.nextHop, st.nextHop6) }

  /** The redirect community is chosen by the family of the source prefix. */
  function EcFor(w: Want, p: Prefix): (ec: seq<Byte>) { Redirect(if p.addr.V6? then w.nextHop6 else w.nextHop) }

  /** Each family with flows has a redirect target of that family. */
  predicate Redirectable(w: Want) {
    forall p | p in w.flows :: if p.addr.V6? then w.nextHop6.V6? else w.nextHop.V4?
  }

  predicate Wanted(n: Net, w: Want) { if n.kind == Unicast then n.prefix in w.anchors else n.prefix in w.flows }

  function AttrsFor(n: Net, w: Want): (a: seq<Byte>)
    requires Wanted(n, w)
  {
    if n.kind == Unicast then w.anchors[n.prefix] else EcFor(w, n.prefix)
  }

  function Image(w: Want): (r: Routes) {
    map n | n in (set p | p in w.anchors :: Net(Unicast, p)) + (set p | p in w.flows :: Net(Flow, p)) :: AttrsFor(n, w)
  }

  lemma ImageAt(w: Want, n: Net)
    ensures n in Image(w) <==> Wanted(n, w)
    ensures Wanted(n, w) ==> Image(w)[n] == AttrsFor(n, w)
  {
    assert n == Net(n.kind, n.prefix);
  }

  // ----- what a table announces ---------------------------------------------------------------------------

  /** Anchor `i` is the last of its prefix. */
  predicate LastAnchor(xs: seq<Anchor>, i: nat) {
    i < |xs| && forall j | i < j < |xs| :: xs[j].prefix != xs[i].prefix
  }

  /** The attributes of an anchor as BIRD reads them: the blackhole marker, then up to 63 communities and up to 21
      large communities, each list only if there are any. */
  function AnchorMeans(a: Anchor): (r: seq<Attr>) {
    [Blackhole] +
    (if a.communities == [] then []
     else [Communities(if |a.communities| <= 63 then a.communities else a.communities[..63])]) +
    (if a.large == [] then [] else [LargeCommunities(if |a.large| <= 21 then a.large else a.large[..21])])
  }

  /** BIRD's routes say what desired asks for: a unicast route for exactly the anchors, read back as the last one
      of its prefix; a flow route for exactly the flow sources, redirecting to the target of the source's family. */
  ghost predicate Announces(routes: Routes, st: State) {
    && (forall p :: Net(Unicast, p) in routes <==> exists a :: a in st.anchors && a.prefix == p)
    && (forall i: nat | LastAnchor(st.anchors, i) ::
          ReadsAs(routes, Net(Unicast, st.anchors[i].prefix), AnchorMeans(st.anchors[i])))
    && (forall p :: Net(Flow, p) in routes <==> exists f :: f in st.flows && f.srcPrefix == p)
    && (forall f | f in st.flows ::
          if f.srcPrefix.addr.V6? then
            st.nextHop6.V6? && ReadsAs(routes, Net(Flow, f.srcPrefix), [RedirectTo(st.nextHop6)])
          else
            st.nextHop.V4? && ReadsAs(routes, Net(Flow, f.srcPrefix), [RedirectTo(st.nextHop)]))
  }

  /** The route is there and BIRD decodes its attributes to `attrs`. */
  predicate ReadsAs(routes: Routes, n: Net, attrs: seq<Attr>) {
    n in routes && DecodeAttrs(TlvBytes(n.kind, routes[n])) == Some(attrs)
  }

  lemma {:induction false} AnchorMapKeys(xs: seq<Anchor>, p: Prefix)
    ensures p in AnchorMap(xs) <==> exists a :: a in xs && a.prefix == p
  {
    hide AttrBytes;
    if xs == [] {
    } else {
      var rest, last := xs[..|xs| - 1], xs[|xs| - 1];
      AnchorMapKeys(rest, p);
      assert xs == rest + [last];
      if p in AnchorMap(xs) {
        if p == last.prefix {
          assert last in xs;
        } else {
          var a :| a in rest && a.prefix == p;
          assert a in xs;
        }
      }
    }
  }

  lemma {:induction false} AnchorMapLast(xs: seq<Anchor>, i: nat)
    requires LastAnchor(xs, i)
    ensures xs[i].prefix in AnchorMap(xs) && AnchorMap(xs)[xs[i].prefix] == AttrBytes(xs[i])
  {
    hide AttrBytes;
    if i < |xs| - 1 { AnchorMapLast(xs[..|xs| - 1], i); }
  }

  lemma AnchorMeansIs(a: Anchor)
    ensures AnchorAttrs(a) == AnchorMeans(a)
  {
  }

  /** Every flow has a redirect target of its source's family. */
  lemma RedirectableIff(st: State)
    ensures Redirectable(WantOf(st)) <==>
            forall f | f in st.flows :: if f.srcPrefix.addr.V6? then st.nextHop6.V6? else st.nextHop.V4?
  {
    var w := WantOf(st);
    if Redirectable(w) {
      forall f | f in st.flows ensures if f.srcPrefix.addr.V6? then st.nextHop6.V6? else st.nextHop.V4? {
        assert f.srcPrefix in w.flows;
      }
    }
  }

  lemma AnchorReads(st: State, i: nat)
    requires LastAnchor(st.anchors, i)
    ensures ReadsAs(Image(WantOf(st)), Net(Unicast, st.anchors[i].prefix), AnchorMeans(st.anchors[i]))
  {
    var a := st.anchors[i];
    AnchorMapLast(st.anchors, i);
    ImageAt(WantOf(st), Net(Unicast, a.prefix));
    AnchorRoundTrip(a);
    AnchorMeansIs(a);
    hide AnchorAttrs, AnchorMeans, DecodeAttrs, TlvBytes, AttrBytes, AnchorMap, Image;
  }

  lemma FlowReads(st: State, f: FlowRedirect)
    requires f in st.flows && (if f.srcPrefix.addr.V6? then st.nextHop6.V6? else st.nextHop.V4?)
    ensures ReadsAs(Image(WantOf(st)), Net(Flow, f.srcPrefix),
                    [RedirectTo(if f.srcPrefix.addr.V6? then st.nextHop6 else st.nextHop)])
  {
    var hop := if f.srcPrefix.addr.V6? then st.nextHop6 else st.nextHop;
    ImageAt(WantOf(st), Net(Flow, f.srcPrefix));
    RedirectRoundTrip(hop);
    hide DecodeAttrs, TlvBytes, Redirect, AnchorMap, Image;
  }

  /** The desired image, when every flow has a target of its family, is what desired asks for. */
  lemma ImageAnnounces(st: State)
    requires Redirectable(WantOf(st))
    ensures Announces(Image(WantOf(st)), st)
  {
    hide AnchorMap, ReadsAs, AnchorMeans, Image, EcFor;
    var r := Image(WantOf(st));
    forall p ensures Net(Unicast, p) in r <==> exists a :: a in st.anchors && a.prefix == p {
      ImageAt(WantOf(st), Net(Unicast, p));
      AnchorMapKeys(st.anchors, p);
    }
    forall p ensures Net(Flow, p) in r <==> exists f :: f in st.flows && f.srcPrefix == p {
      ImageAt(WantOf(st), Net(Flow, p));
    }
    forall i: nat | LastAnchor(st.anchors, i)
      ensures ReadsAs(r, Net(Unicast, st.anchors[i].prefix), AnchorMeans(st.anchors[i]))
    {
      AnchorReads(st, i);
    }
    forall f | f in st.flows
      ensures f.srcPrefix.addr.V6? ==>
                st.nextHop6.V6? && ReadsAs(r, Net(Flow, f.srcPrefix), [RedirectTo(st.nextHop6)])
      ensures !f.srcPrefix.addr.V6? ==>
                st.nextHop.V4? && ReadsAs(r, Net(Flow, f.srcPrefix), [RedirectTo(st.nextHop)])
    {
      assert f.srcPrefix in WantOf(st).flows;
      FlowReads(st, f);
    }
  }

  // ----- the operations the feed emits -------------------------------------------------------------------

  function AnchorAdds(w: Want, have: map<Prefix, seq<Byte>>): (r: set<Op>) {
    set p | p in w.anchors && (p !in have || have[p] != w.anchors[p]) :: Add(Net(Unicast, p), w.anchors[p])
  }
  function AnchorDels(w: Want, have: map<Prefix, seq<Byte>>): (r: set<Op>) {
    set p | p in have && p !in w.anchors :: Del(Net(Unicast, p))
  }
  function FlowAdds(w: Want, have: set<Prefix>): (r: set<Op>) {
    set p | p in w.flows && p !in have :: Add(Net(Flow, p), EcFor(w, p))
  }
  function FlowDels(w: Want, have: set<Prefix>): (r: set<Op>) {
    set p | p in have && p !in w.flows :: Del(Net(Flow, p))
  }

  // ----- what goes over the wire -------------------------------------------------------------------------

  /** Prefixes BIRD's protocol can carry, with attributes that fit a frame. */
  predicate SendableWant(w: Want) {
    (forall p | p in w.anchors :: ValidPrefix(p) && |w.anchors[p]| <= 508) && forall p | p in w.flows :: ValidPrefix(p)
  }

  predicate ValidPrefixes(st: State) {
    (forall a | a in st.anchors :: ValidPrefix(a.prefix)) && forall f | f in st.flows :: ValidPrefix(f.srcPrefix)
  }

  /** The frames a pass from snapshot `have` to `w` may write. */
  function Repertoire(w: Want, have: Want): (r: set<Op>) {
    {Hello, Eor} + AnchorAdds(w, map[]) + FlowAdds(w, {}) + AnchorDels(w, have.anchors) + FlowDels(w, have.flows)
  }

  lemma RepertoireHolds(w: Want, have: Want)
    ensures AnchorAdds(w, have.anchors) <= AnchorAdds(w, map[]) && FlowAdds(w, have.flows) <= FlowAdds(w, {})
    ensures AnchorAdds(w, have.anchors) + AnchorDels(w, have.anchors) + FlowAdds(w, have.flows) +
              FlowDels(w, have.flows) <=
            Repertoire(w, have)
  {
    hide EcFor;
  }

  lemma RepertoireIsSendable(w: Want, have: Want, before: seq<Op>, script: seq<Op>)
    requires SendableWant(w) && SendableWant(have) && Ops(script) <= Repertoire(w, have)
    ensures AllSendable(before) ==> AllSendable(before + script)
  {
    forall op | op in script ensures Sendable(op) { assert op in Ops(script); }
  }

  lemma {:induction false} AnchorMapSendable(xs: seq<Anchor>)
    requires forall a | a in xs :: ValidPrefix(a.prefix)
    ensures forall p | p in AnchorMap(xs) :: ValidPrefix(p) && |AnchorMap(xs)[p]| <= 508
  {
    hide AttrBytes, ValidPrefix;
    if xs != [] {
      AnchorMapSendable(xs[..|xs| - 1]);
      assert xs[|xs| - 1] in xs;
    }
  }

  /** A desired state with valid prefixes asks for nothing that cannot be framed. */
  lemma ValidIsSendable(st: State)
    requires ValidPrefixes(st)
    ensures SendableWant(WantOf(st))
  {
    hide ValidPrefix, AnchorMap;
    AnchorMapSendable(st.anchors);
  }

  lemma OpsSteer(w: Want, a: map<Prefix, seq<Byte>>, f: set<Prefix>, op: Op)
    requires op in AnchorAdds(w, a) + AnchorDels(w, a) + FlowAdds(w, f) + FlowDels(w, f)
    ensures Steers(op, Image(w))
  {
    hide Image, EcFor;
    assert op.Add? || op.Del?;
    ImageAt(w, op.net);
  }

  /** Re-announcing everything is a full script. */
  lemma ResyncIsFull(w: Want, script: seq<Op>)
    requires |script| >= 2 && script[0] == Hello && script[|script| - 1] == Eor
    requires Ops(script[1..|script| - 1]) == AnchorAdds(w, map[]) + FlowAdds(w, {})
    ensures FullScript(script, Image(w))
  {
    hide Image, Steers, EcFor;
    var mid := script[1..|script| - 1];
    forall op | op in mid ensures Steers(op, Image(w)) {
      assert op in Ops(mid);
      OpsSteer(w, map[], {}, op);
    }
    AllNets(w);
  }

  lemma ResyncFromParts(w: Want, a: seq<Op>, b: seq<Op>)
    requires Ops(a) == AnchorAdds(w, map[]) && Ops(b) == FlowAdds(w, {})
    ensures FullScript([Hello] + a + b + [Eor], Image(w))
  {
    hide Ops, AnchorAdds, FlowAdds, Image, FullScript;
    var script := [Hello] + a + b + [Eor];
    assert script[1..|script| - 1] == a + b;
    OpsConcat(a, b);
    ResyncIsFull(w, script);
  }

  lemma AllNets(w: Want)
    ensures Nets(AnchorAdds(w, map[]) + FlowAdds(w, {})) == Image(w).Keys
  {
    var ops := AnchorAdds(w, map[]) + FlowAdds(w, {});
    forall n ensures n in Nets(ops) <==> n in Image(w) {
      ImageAt(w, n);
      if Wanted(n, w) {
        var op := Add(n, AttrsFor(n, w));
        assert n == Net(n.kind, n.prefix);
        assert op in ops && op.net == n;
      }
    }
  }

  /** The four diff loops make a diff script, as long as the redirect targets stand. */
  lemma IncrementalIsDiff(have: Want, w: Want, script: seq<Op>)
    requires have.nextHop == w.nextHop && have.nextHop6 == w.nextHop6
    requires Ops(script) == AnchorAdds(w, have.anchors) + AnchorDels(w, have.anchors) + FlowAdds(w, have.flows) +
               FlowDels(w, have.flows)
    ensures DiffScript(script, Image(have), Image(w))
  {
    hide Image, Steers, EcFor, Agree;
    forall op | op in script ensures Steers(op, Image(w)) {
      assert op in Ops(script);
      OpsSteer(w, have.anchors, have.flows, op);
    }
    forall n | !Agree(n, Image(have), Image(w)) ensures n in Nets(Ops(script)) {
      DifferenceIsNamed(have, w, n);
    }
  }

  lemma DifferenceIsNamed(have: Want, w: Want, n: Net)
    requires have.nextHop == w.nextHop && have.nextHop6 == w.nextHop6 && !Agree(n, Image(have), Image(w))
    ensures n in Nets(AnchorAdds(w, have.anchors) + AnchorDels(w, have.anchors) + FlowAdds(w, have.flows) +
                      FlowDels(w, have.flows))
  {
    hide Image;
    ImageAt(have, n);
    ImageAt(w, n);
    var ops := AnchorAdds(w, have.anchors) + AnchorDels(w, have.anchors) + FlowAdds(w, have.flows) +
      FlowDels(w, have.flows);
    assert n == Net(n.kind, n.prefix);
    if Wanted(n, w) {
      assert Add(n, AttrsFor(n, w)) in ops && Add(n, AttrsFor(n, w)).net == n;
    } else {
      assert Del(n) in ops && Del(n).net == n;
    }
  }

  /** A changed redirect target is invisible to the diff: it needs the resync it triggers exactly when a
      flow of that family stays. */
  lemma NextHopNeedsResyncIff(have: Want, w: Want, script: seq<Op>)
    requires Ops(script) == AnchorAdds(w, have.anchors) + AnchorDels(w, have.anchors) + FlowAdds(w, have.flows) +
               FlowDels(w, have.flows)
    ensures DiffScript(script, Image(have), Image(w)) <==>
            forall p | p in have.flows && p in w.flows :: EcFor(have, p) == EcFor(w, p)
  {
    hide Steers, EcFor, Agree, Image;
    forall op | op in script ensures Steers(op, Image(w)) {
      assert op in Ops(script);
      OpsSteer(w, have.anchors, have.flows, op);
    }
    forall n ensures n !in Nets(Ops(script)) && !Agree(n, Image(have), Image(w)) <==>
                     n.kind == Flow && n.prefix in have.flows && n.prefix in w.flows &&
                     EcFor(have, n.prefix) != EcFor(w, n.prefix)
    {
      MissedIff(have, w, n);
    }
    if DiffScript(script, Image(have), Image(w)) {
      forall p | p in have.flows && p in w.flows ensures EcFor(have, p) == EcFor(w, p) {
        var n := Net(Flow, p);
        assert !(n !in Nets(Ops(script)) && !Agree(n, Image(have), Image(w)));
      }
    }
  }

  lemma MissedIff(have: Want, w: Want, n: Net)
    ensures n !in Nets(AnchorAdds(w, have.anchors) + AnchorDels(w, have.anchors) + FlowAdds(w, have.flows) +
                       FlowDels(w, have.flows)) &&
            !Agree(n, Image(have), Image(w)) <==>
            n.kind == Flow && n.prefix in have.flows && n.prefix in w.flows &&
            EcFor(have, n.prefix) != EcFor(w, n.prefix)
  {
    hide Image, EcFor, Agree, Nets;
    NamedIff(have, w, n);
    AgreeIff(have, w, n);
  }

  lemma AgreeIff(have: Want, w: Want, n: Net)
    ensures Agree(n, Image(have), Image(w)) <==>
            (Wanted(n, have) <==> Wanted(n, w)) &&
            (Wanted(n, have) && Wanted(n, w) ==> AttrsFor(n, have) == AttrsFor(n, w))
  {
    hide Image, EcFor;
    ImageAt(have, n);
    ImageAt(w, n);
  }

  lemma NamedIff(have: Want, w: Want, n: Net)
    ensures n in Nets(AnchorAdds(w, have.anchors) + AnchorDels(w, have.anchors) + FlowAdds(w, have.flows) +
                      FlowDels(w, have.flows)) <==>
            if n.kind == Unicast then !(n.prefix in w.anchors <==> n.prefix in have.anchors) ||
                                      (n.prefix in w.anchors && have.anchors[n.prefix] != w.anchors[n.prefix])
            else !(n.prefix in w.flows <==> n.prefix in have.flows)
  {
    hide EcFor;
    var ops := AnchorAdds(w, have.anchors) + AnchorDels(w, have.anchors) + FlowAdds(w, have.flows) +
      FlowDels(w, have.flows);
    assert n == Net(n.kind, n.prefix);
    if Wanted(n, w) {
      var op := Add(n, AttrsFor(n, w));
      assert op.net == n && (n in Nets(ops) <==> op in ops);
    } else {
      assert Del(n).net == n && (n in Nets(ops) <==> Del(n) in ops);
    }
  }

  // ----- the connection ------------------------------------------------------------------------------------

  /** The api socket, both ends. `open` is what the agent believes, `alive` whether BIRD still holds its end;
      `buf` has not reached the kernel, `wire` has but BIRD has not read it. BIRD, the kernel and the watcher
      move between any two calls. */
  class Client {
    var open: bool
    var alive: bool
    var buf: seq<Op>
    var wire: seq<Op>
    var bird: Bird
    /** Every frame written, how many since the last flush, and the most there ever were. */
    ghost var frames: seq<Op>
    ghost var burst: int
    ghost var peak: int

    constructor ()
      ensures Written() && !open && frames == [] && burst == 0 && peak == 0
    {
      open, alive, buf, wire, bird := false, false, [], [], Bird(map[], {});
      frames, burst, peak := [], 0, 0;
    }

    ghost predicate Live()
      reads this
    {
      open && alive
    }

    /** Frames in flight are frames that were written. */
    ghost predicate Written()
      reads this
    {
      (forall op | op in wire :: op in frames) && forall op | op in buf :: op in frames
    }

    /** What BIRD will hold once it has read everything handed over so far. */
    ghost function Table(): (t: Bird)
      reads this
    {
      ReceiveAll(bird, wire + buf)
    }

    /** BIRD reads some frames, perhaps dies, and the watcher perhaps notices. */
    method Environment()
      requires Written()
      modifies this`open, this`alive, this`buf, this`wire, this`bird
      ensures Written()
      ensures !old(open) ==> !open
      ensures open ==> buf == old(buf)
      ensures Live() ==> old(Live()) && Table() == old(Table())
    {
      var j: int := *;
      if alive && 0 <= j <= |wire| {
        assert wire + buf == wire[..j] + (wire[j..] + buf);
        ReceiveConcat(bird, wire[..j], wire[j..] + buf);
        bird, wire := ReceiveAll(bird, wire[..j]), wire[j..];
      }
      if * {
        var t: Bird := *;
        alive, wire, bird := false, [], t;
      }
      var noticed: bool := *;
      if !alive && noticed { open, buf := false, []; }
    }

    /** A new connection finds BIRD with any table at all. */
    method Connect() returns (ok: bool)
      requires Written()
      modifies this
      ensures Written()
      ensures frames == old(frames) && peak == old(peak)
      ensures ok ==> open && buf == [] && burst == 0
      ensures !ok ==> open == old(open) && buf == old(buf) && burst == old(burst)
      ensures !ok && Live() ==> old(Live()) && Table() == old(Table())
    {
      if * { return false; }
      var t: Bird := *;
      open, alive, buf, wire, bird, burst := true, true, [], [], t, 0;
      ok := true;
    }

    /** Hands any number of the buffer's bytes to the kernel: the frames whole among them are on the wire, and
        that is what BIRD can read of those bytes. */
    method Spill() returns (ghost k: nat)
      requires Written()
      modifies this`buf, this`wire
      ensures Written() && (Live() ==> Table() == old(Table()))
      ensures k <= |Stream(old(buf))| && buf == old(buf)[Whole(old(buf), k)..]
      ensures alive ==> wire == old(wire) + old(buf)[..Whole(old(buf), k)]
      ensures AllSendable(frames) ==> Decode(Stream(old(buf))[..k]) == Meanings(old(buf)[..Whole(old(buf), k)])
    {
      hide Whole, Decode, Stream, Meanings, Receive, ReceiveAll, Sendable;
      var cut: nat := *;
      if cut > |Stream(buf)| { cut := |Stream(buf)|; }
      k := cut;
      var j := Whole(buf, cut);
      assert wire + buf == (wire + buf[..j]) + buf[j..];
      if AllSendable(frames) { CutStreamIsPrefix(buf, cut); }
      if alive { wire := wire + buf[..j]; }
      buf := buf[j..];
    }

    method Write(op: Op)
      requires Written()
      modifies this
      ensures Written()
      ensures frames == old(frames) + [op] && burst == old(burst) + 1 &&
              peak == if burst > old(peak) then burst else old(peak)
      ensures Live() ==> old(Live()) && Table() == Receive(old(Table()), op)
      ensures !old(open) ==> !open
    {
      hide Receive, ReceiveAll, Whole, Stream, Decode, Meanings, AllSendable;
      frames, burst := frames + [op], burst + 1;
      if burst > peak { peak := burst; }
      Environment();
      if !open { return; }
      assert wire + (buf + [op]) == (wire + buf) + [op];
      ReceiveSnoc(bird, wire + buf, op);
      buf := buf + [op];
      var _ := Spill();
      if * { CloseLocked(); }
    }

    method Flush() returns (ok: bool)
      requires Written()
      modifies this
      ensures Written()
      ensures frames == old(frames) && burst == 0 && peak == old(peak)
      ensures ok ==> open && buf == []
      ensures !ok ==> !open
      ensures Live() ==> old(Live()) && Table() == old(Table())
    {
      burst := 0;
      Environment();
      if !open { return false; }
      if * {
        var _ := Spill();
        CloseLocked();
        return false;
      }
      if alive {
        assert wire + buf == (wire + buf) + [];
        wire := wire + buf;
      }
      buf := [];
      ok := true;
    }

    method CloseLocked()
      requires Written()
      modifies this`open, this`buf
      ensures Written() && !open
    {
      open, buf := false, [];
    }
  }

  // ----- the feed ----------------------------------------------------------------------------------------

  method WantAnchors(xs: seq<Anchor>) returns (m: map<Prefix, seq<Byte>>)
    ensures m == AnchorMap(xs)
  {
    hide AttrBytes;
    m := map[];
    for i := 0 to |xs|
      invariant m == AnchorMap(xs[..i])
    {
      assert xs[..i + 1][..i] == xs[..i];
      var attrs := AnchorAttrBytes(xs[i]);
      m := m[xs[i].prefix := attrs];
    }
    assert xs[..|xs|] == xs;
  }

  method WantFlows(xs: seq<FlowRedirect>) returns (s: set<Prefix>, haveV4: bool, haveV6: bool)
    ensures s == FlowSet(xs)
    ensures haveV4 <==> exists p :: p in s && !p.addr.V6?
    ensures haveV6 <==> exists p :: p in s && p.addr.V6?
  {
    s, haveV4, haveV6 := {}, false, false;
    for i := 0 to |xs|
      invariant s == FlowSet(xs[..i])
      invariant haveV4 <==> exists p :: p in s && !p.addr.V6?
      invariant haveV6 <==> exists p :: p in s && p.addr.V6?
    {
      var p := xs[i].srcPrefix;
      ghost var s0 := s;
      s := s + {p};
      assert p in s && forall q | q in s :: q in s0 || q == p;
      if p.addr.V6? { haveV6 := true; } else { haveV4 := true; }
    }
  }

  class Feed {
    const client: Client
    const maxOps: int
    var anchors: map<Prefix, seq<Byte>>
    var flows: set<Prefix>
    var nextHop: Addr
    var nextHop6: Addr
    var resync: bool
    /** Consecutive failed passes. */
    var fails: nat

    constructor (client: Client, maxOps: int)
      requires !client.open && client.burst == 0 && client.Written()
      ensures Valid() && (AllSendable(client.frames) ==> Proper()) && this.client == client && this.maxOps == maxOps &&
              fails == 0 && resync
    {
      this.client, this.maxOps := client, maxOps;
      anchors, flows, nextHop, nextHop6, resync, fails := map[], {}, NoAddr, NoAddr, true, 0;
    }

    /** The last fed snapshot. */
    ghost function Fed(): (w: Want)
      reads this
    {
      Want(anchors, flows, nextHop, nextHop6)
    }

    /** Between passes: a live connection with no resync pending means BIRD has, or is about to have read,
        exactly the committed snapshot, and nothing is left in the agent's buffer. */
    ghost predicate Valid()
      reads this, client
    {
      && client.Written() && client.burst == 0 && (client.open ==> client.buf == [])
      && (client.Live() && !resync ==> client.Table() == Bird(Image(Fed()), {}))
    }

    /** Everything written so far, and the snapshot, can be framed: a cut anywhere delivers whole frames. */
    ghost predicate Proper()
      reads this, client
    {
      SendableWant(Fed()) && AllSendable(client.frames)
    }

    /** The pacing counter counts the frames since the last flush and has room for one more. */
    ghost predicate Pace(n: int)
      reads this, client
    {
      client.Written() && (maxOps > 0 ==> n == client.burst && 0 <= n < maxOps)
    }

    /** No longer burst than before, or none longer than the pace allows. */
    ghost predicate Calm(peak: int)
      reads this, client
    {
      client.Written() && (maxOps > 0 ==> client.peak <= peak || client.peak <= maxOps)
    }

    /** `script` went out on a connection that was live with table `t`. */
    ghost predicate Carried(live: bool, t: Bird, script: seq<Op>)
      reads client
    {
      client.Live() ==> live && client.Table() == ReceiveAll(t, script)
    }

    lemma CarriedOn(live0: bool, t0: Bird, a: seq<Op>, live1: bool, t1: Bird, b: seq<Op>)
      requires (live1 ==> live0 && t1 == ReceiveAll(t0, a)) && Carried(live1, t1, b)
      ensures Carried(live0, t0, a + b)
    {
      hide ReceiveAll;
      ReceiveConcat(t0, a, b);
    }

    /** One frame; every `maxOps` frames a flush. */
    method PacedWrite(op: Op, n0: int) returns (n: int, ok: bool)
      requires Pace(n0)
      modifies client
      ensures client.frames == old(client.frames) + [op] && Calm(old(client.peak))
      ensures ok ==> Pace(n)
      ensures ok ==> Carried(old(client.Live()), old(client.Table()), [op])
      ensures !ok ==> !client.open && client.burst == 0
    {
      hide Receive;
      ReceiveSnoc(client.Table(), [], op);
      assert [] + [op] == [op];
      n := n0;
      client.Write(op);
      if maxOps <= 0 { return n, true; }
      n := n + 1;
      if n >= maxOps {
        var flushed := client.Flush();
        if !flushed { return n, false; }
        n := 0;
      }
      ok := true;
    }

    /** Announces new and changed anchors. */
    method AddAnchors(des: map<Prefix, seq<Byte>>, have: map<Prefix, seq<Byte>>, n0: int, ghost w: Want)
      returns (n: int, ok: bool, ghost script: seq<Op>)
      requires Pace(n0) && w.anchors == des
      modifies client
      ensures client.frames == old(client.frames) + script && Calm(old(client.peak))
      ensures ok ==> Pace(n) && Carried(old(client.Live()), old(client.Table()), script)
      ensures Ops(script) <= AnchorAdds(w, have) && (ok ==> Ops(script) == AnchorAdds(w, have))
      ensures !ok ==> !client.open && client.burst == 0
    {
      hide Receive, ReceiveAll;
      n, script := n0, [];
      ghost var live0, t0 := client.Live(), client.Table();
      NothingCarried(t0);
      var todo := des.Keys;
      while todo != {}
        invariant todo <= des.Keys
        invariant client.frames == old(client.frames) + script && Calm(old(client.peak))
        invariant Pace(n) && Carried(live0, t0, script)
        invariant Ops(script) ==
                  set p | p in des && p !in todo && (p !in have || have[p] != des[p]) :: Add(Net(Unicast, p), des[p])
      {
        var p :| p in todo;
        if p !in have || have[p] != des[p] {
          n, ok, script := Emit(Add(Net(Unicast, p), des[p]), n, live0, t0, script);
          if !ok { return; }
        }
        todo := todo - {p};
      }
      ok := true;
    }

    /** Withdraws anchors no longer wanted. */
    method DelAnchors(des: map<Prefix, seq<Byte>>, have: map<Prefix, seq<Byte>>, n0: int, ghost w: Want)
      returns (n: int, ok: bool, ghost script: seq<Op>)
      requires Pace(n0) && w.anchors == des
      modifies client
      ensures client.frames == old(client.frames) + script && Calm(old(client.peak))
      ensures ok ==> Pace(n) && Carried(old(client.Live()), old(client.Table()), script)
      ensures Ops(script) <= AnchorDels(w, have) && (ok ==> Ops(script) == AnchorDels(w, have))
      ensures !ok ==> !client.open && client.burst == 0
    {
      hide Receive, ReceiveAll;
      n, script := n0, [];
      ghost var live0, t0 := client.Live(), client.Table();
      NothingCarried(t0);
      var todo := have.Keys;
      while todo != {}
        invariant todo <= have.Keys
        invariant client.frames == old(client.frames) + script && Calm(old(client.peak))
        invariant Pace(n) && Carried(live0, t0, script)
        invariant Ops(script) == set p | p in have && p !in todo && p !in des :: Del(Net(Unicast, p))
      {
        var p :| p in todo;
        if p !in des {
          n, ok, script := Emit(Del(Net(Unicast, p)), n, live0, t0, script);
          if !ok { return; }
        }
        todo := todo - {p};
      }
      ok := true;
    }

    /** Announces new flows. */
    method AddFlows(des: set<Prefix>, have: set<Prefix>, n0: int, w: Want)
      returns (n: int, ok: bool, ghost script: seq<Op>)
      requires Pace(n0) && w.flows == des
      modifies client
      ensures client.frames == old(client.frames) + script && Calm(old(client.peak))
      ensures ok ==> Pace(n) && Carried(old(client.Live()), old(client.Table()), script)
      ensures Ops(script) <= FlowAdds(w, have) && (ok ==> Ops(script) == FlowAdds(w, have))
      ensures !ok ==> !client.open && client.burst == 0
    {
      hide Receive, ReceiveAll, EcFor;
      n, script := n0, [];
      ghost var live0, t0 := client.Live(), client.Table();
      NothingCarried(t0);
      var todo := des;
      while todo != {}
        invariant todo <= des
        invariant client.frames == old(client.frames) + script && Calm(old(client.peak))
        invariant Pace(n) && Carried(live0, t0, script)
        invariant Ops(script) == set p | p in des && p !in todo && p !in have :: Add(Net(Flow, p), EcFor(w, p))
      {
        var p :| p in todo;
        if p !in have {
          n, ok, script := Emit(Add(Net(Flow, p), EcFor(w, p)), n, live0, t0, script);
          if !ok { return; }
        }
        todo := todo - {p};
      }
      ok := true;
    }

    /** Withdraws flows no longer wanted. */
    method DelFlows(des: set<Prefix>, have: set<Prefix>, n0: int, ghost w: Want)
      returns (n: int, ok: bool, ghost script: seq<Op>)
      requires Pace(n0) && w.flows == des
      modifies client
      ensures client.frames == old(client.frames) + script && Calm(old(client.peak))
      ensures ok ==> Pace(n) && Carried(old(client.Live()), old(client.Table()), script)
      ensures Ops(script) <= FlowDels(w, have) && (ok ==> Ops(script) == FlowDels(w, have))
      ensures !ok ==> !client.open && client.burst == 0
    {
      hide Receive, ReceiveAll;
      n, script := n0, [];
      ghost var live0, t0 := client.Live(), client.Table();
      NothingCarried(t0);
      var todo := have;
      while todo != {}
        invariant todo <= have
        invariant client.frames == old(client.frames) + script && Calm(old(client.peak))
        invariant Pace(n) && Carried(live0, t0, script)
        invariant Ops(script) == set p | p in have && p !in todo && p !in des :: Del(Net(Flow, p))
      {
        var p :| p in todo;
        if p !in des {
          n, ok, script := Emit(Del(Net(Flow, p)), n, live0, t0, script);
          if !ok { return; }
        }
        todo := todo - {p};
      }
      ok := true;
    }

    lemma NothingCarried(t: Bird)
      ensures ReceiveAll(t, []) == t
    {
    }

    /** One more frame of a running script. */
    method Emit(op: Op, n0: int, ghost live0: bool, ghost t0: Bird, ghost script0: seq<Op>)
      returns (n: int, ok: bool, ghost script: seq<Op>)
      requires Pace(n0) && Carried(live0, t0, script0)
      modifies client
      ensures script == script0 + [op] && Ops(script) == Ops(script0) + {op}
      ensures client.frames == old(client.frames) + [op] && Calm(old(client.peak))
      ensures ok ==> Pace(n) && Carried(live0, t0, script)
      ensures !ok ==> !client.open && client.burst == 0
    {
      hide Receive, ReceiveAll, Ops;
      ghost var live1, t1 := client.Live(), client.Table();
      script := script0 + [op];
      OpsSnoc(script0, op);
      n, ok := PacedWrite(op, n0);
      if ok { CarriedOn(live0, t0, script0, live1, t1, [op]); }
    }

    /** HELLO, everything, EOR. */
    method FullResync(w: Want, n0: int) returns (ok: bool, ghost script: seq<Op>)
      requires Pace(n0)
      modifies client, this`resync
      ensures client.frames == old(client.frames) + script && Calm(old(client.peak))
      ensures Ops(script) <= {Hello, Eor} + AnchorAdds(w, map[]) + FlowAdds(w, {})
      ensures ok ==> FullScript(script, Image(w)) && Carried(old(client.Live()), old(client.Table()), script)
      ensures resync == if ok then false else old(resync)
      ensures !ok ==> !client.open && client.burst == 0
    {
      hide Receive, ReceiveAll, Ops, FullScript, AnchorAdds, FlowAdds, Image;
      ghost var live0, t0 := client.Live(), client.Table();
      var n;
      n, ok := PacedWrite(Hello, n0);
      script := [Hello];
      OpsOne(Hello);
      if !ok { return; }
      ghost var live1, t1 := client.Live(), client.Table();
      ghost var part;
      n, ok, part := AddAnchors(w.anchors, map[], n, w);
      script := script + part;
      OpsConcat([Hello], part);
      if !ok { return; }
      CarriedOn(live0, t0, [Hello], live1, t1, part);
      live1, t1 := client.Live(), client.Table();
      ghost var part2;
      n, ok, part2 := AddFlows(w.flows, {}, n, w);
      script := script + part2;
      OpsConcat([Hello] + part, part2);
      if !ok { return; }
      CarriedOn(live0, t0, [Hello] + part, live1, t1, part2);
      n, ok, script := Emit(Eor, n, live0, t0, script);
      if !ok { return; }
      resync := false;
      ResyncFromParts(w, part, part2);
    }

    /** Only what changed since the snapshot. */
    method Incremental(w: Want, n0: int) returns (ok: bool, ghost script: seq<Op>)
      requires Pace(n0) && w.nextHop == nextHop && w.nextHop6 == nextHop6
      modifies client
      ensures client.frames == old(client.frames) + script && Calm(old(client.peak))
      ensures Ops(script) <= AnchorAdds(w, anchors) + AnchorDels(w, anchors) + FlowAdds(w, flows) + FlowDels(w, flows)
      ensures ok ==> DiffScript(script, Image(Fed()), Image(w)) &&
                     Carried(old(client.Live()), old(client.Table()), script)
      ensures !ok ==> !client.open && client.burst == 0
    {
      hide Receive, ReceiveAll, Ops, DiffScript, AnchorAdds, AnchorDels, FlowAdds, FlowDels, Image;
      ghost var live0, t0 := client.Live(), client.Table();
      ghost var a, b, c, d;
      var n;
      n, ok, a := AddAnchors(w.anchors, anchors, n0, w);
      script := a;
      if !ok { return; }
      ghost var live1, t1 := client.Live(), client.Table();
      n, ok, b := DelAnchors(w.anchors, anchors, n, w);
      script := a + b;
      OpsConcat(a, b);
      if !ok { return; }
      CarriedOn(live0, t0, a, live1, t1, b);
      live1, t1 := client.Live(), client.Table();
      n, ok, c := AddFlows(w.flows, flows, n, w);
      script := script + c;
      OpsConcat(a + b, c);
      if !ok { return; }
      CarriedOn(live0, t0, a + b, live1, t1, c);
      live1, t1 := client.Live(), client.Table();
      n, ok, d := DelFlows(w.flows, flows, n, w);
      script := script + d;
      OpsConcat(a + b + c, d);
      if !ok { return; }
      CarriedOn(live0, t0, a + b + c, live1, t1, d);
      IncrementalIsDiff(Fed(), w, script);
    }

    /** Streams `w`: everything after a fault or a redirect change, else the difference. */
    method Stream(w: Want) returns (ok: bool, ghost script: seq<Op>)
      requires Valid()
      modifies this`resync, client
      ensures client.frames == old(client.frames) + script && Calm(old(client.peak)) && client.burst == 0
      ensures Ops(script) <= Repertoire(w, old(Fed()))
      ensures ok ==> FullScript(script, Image(w)) || DiffScript(script, Image(old(Fed())), Image(w))
      ensures ok ==> client.open && client.buf == [] && !resync
      ensures ok && client.Live() ==> client.Table() == Bird(Image(w), {})
      ensures !ok ==> !client.open && resync
    {
      hide Receive, ReceiveAll, DiffScript, FullScript, Image, Ops, AnchorAdds, AnchorDels, FlowAdds, FlowDels;
      ghost var live0, t0 := client.Live(), client.Table();
      RepertoireHolds(w, Fed());
      if resync || w.nextHop != nextHop || w.nextHop6 != nextHop6 {
        ok, script := FullResync(w, 0);
        if ok { FullScriptYields(t0, script, Image(w)); }
      } else {
        ok, script := Incremental(w, 0);
        if ok { DiffScriptYields(script, Image(Fed()), Image(w)); }
      }
      if !ok {
        client.CloseLocked();
        resync := true;
        return;
      }
      ok := client.Flush();
      if !ok {
        client.CloseLocked();
        resync := true;
      }
    }

    /** Makes sure of a connection; a new one is owed a full resync. */
    method Connected() returns (ok: bool)
      requires Valid()
      modifies this`resync, client
      ensures Valid() && Calm(old(client.peak)) && client.frames == old(client.frames)
      ensures ok == client.open
    {
      hide Receive, ReceiveAll, Image;
      client.Environment();
      if !client.open {
        ok := client.Connect();
        if !ok { return; }
        resync := true;
      }
      ok := true;
    }

    /** One pass. A pass that succeeds commits the desired snapshot; a pass that fails anywhere keeps the old
        one and makes sure that the next connection starts with a full resync. */
    method Apply(st: State) returns (ok: bool, ghost script: seq<Op>)
      requires Valid()
      modifies this`anchors, this`flows, this`nextHop, this`nextHop6, this`resync, client
      ensures Valid() && Calm(old(client.peak))
      ensures ok ==> Fed() == WantOf(st) && !resync && Redirectable(WantOf(st))
      ensures ok && client.Live() ==> Announces(client.Table().routes, st)
      ensures !ok && Redirectable(WantOf(st)) ==> !client.open
      ensures !ok ==> Fed() == old(Fed())
      ensures client.frames == old(client.frames) + script
      ensures ok ==> FullScript(script, Image(WantOf(st))) || DiffScript(script, Image(old(Fed())), Image(WantOf(st)))
      ensures !Redirectable(WantOf(st)) ==> script == []
      ensures old(Proper()) && ValidPrefixes(st) ==> Proper()
    {
      hide Receive, ReceiveAll, DiffScript, FullScript, Image, AnchorMap, FlowSet, ValidPrefixes, SendableWant,
           AllSendable, Ops, Repertoire, Announces;
      if ValidPrefixes(st) { ValidIsSendable(st); }
      ghost var fed0, frames0 := Fed(), client.frames;
      script := [];
      var connected := Connected();
      if !connected { return false, []; }
      var desA := WantAnchors(st.anchors);
      var desF, haveV4, haveV6 := WantFlows(st.flows);
      if haveV4 && !st.nextHop.V4? { return false, []; }
      if haveV6 && !st.nextHop6.V6? { return false, []; }
      var w := Want(desA, desF, st.nextHop, st.nextHop6);
      ok, script := Stream(w);
      if SendableWant(w) && SendableWant(fed0) { RepertoireIsSendable(w, fed0, frames0, script); }
      if !ok { return; }
      anchors, flows := desA, desF;
      nextHop, nextHop6 := st.nextHop, st.nextHop6;
      ImageAnnounces(st);
    }

    /** One wake-up: nothing to feed before the first desired state, else a pass. */
    method Pass(provided: Option<State>)
      requires Valid()
      modifies this, client
      ensures Valid() && Calm(old(client.peak))
      ensures provided.None? ==> Fed() == old(Fed()) && fails == old(fails) && resync == old(resync)
      ensures provided.Some? && fails == 0 ==>
                Fed() == WantOf(provided.value) && !resync && Redirectable(WantOf(provided.value))
      ensures provided.Some? && fails != 0 ==> Fed() == old(Fed()) && fails == old(fails) + 1
      ensures old(Proper()) && (provided.Some? ==> ValidPrefixes(provided.value)) ==> Proper()
    {
      hide Image, WantOf, Redirectable, SendableWant, AllSendable, ValidPrefixes, Announces;
      client.Environment();
      if provided.None? { return; }
      var ok, _ := Apply(provided.value);
      if !ok {
        fails := fails + 1;
        return;
      }
      fails := 0;
    }

    /** Any run of wake-ups, with BIRD dying and coming back anywhere in between. Whenever the run ends with
        no failure outstanding on a live connection, BIRD's table, once it has read what it was sent, is
        exactly what the last desired state asks for. */
    method Run(provided: seq<Option<State>>)
      requires Valid()
      modifies this, client
      ensures Valid() && Calm(old(client.peak))
      ensures Latest(provided).Some? && fails == 0 ==> Fed() == WantOf(Latest(provided).value) && !resync
      ensures Latest(provided).Some? && fails == 0 && client.Live() ==>
                client.Table() == Bird(Image(WantOf(Latest(provided).value)), {}) &&
                Announces(client.Table().routes, Latest(provided).value)
      ensures old(Proper()) && (forall st | st in provided && st.Some? :: ValidPrefixes(st.value)) ==> Proper()
    {
      hide Image, WantOf, SendableWant, AllSendable, ValidPrefixes, Redirectable, Announces;
      for i := 0 to |provided|
        invariant Valid() && Calm(old(client.peak))
        invariant Latest(provided[..i]).Some? && fails == 0 ==>
                    Fed() == WantOf(Latest(provided[..i]).value) && !resync && Redirectable(Fed())
        invariant old(Proper()) && (forall st | st in provided && st.Some? :: ValidPrefixes(st.value)) ==> Proper()
      {
        assert provided[..i + 1][..i] == provided[..i];
        Pass(provided[i]);
        client.Environment();
      }
      assert provided[..|provided|] == provided;
      if Latest(provided).Some? && fails == 0 { ImageAnnounces(Latest(provided).value); }
    }
  }

  /** The last desired state the provider gave. */
  function Latest(provided: seq<Option<State>>): (r: Option<State>) {
    if provided == [] then None
    else if provided[|provided| - 1].Some? then provided[|provided| - 1]
    else Latest(provided[..|provided| - 1])
  }
}
