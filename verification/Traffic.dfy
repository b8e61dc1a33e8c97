/** What the programmed data plane does to packets: the agent's tables, sessions and bindings seen from a frame
    arriving on an interface. */
module Traffic {
  import opened Model
  import opened Desired
  import opened VppApi
  import opened Plan
  import opened DeltaPlan
  import B = Bindings
  import C = Classify
  import F = DeltaFits

  /** VPP's lookup in the table of mask `m`: a session there matches the frame and hands it to policer index `h`. */
  ghost predicate HitsOn(s: map<SKey, nat>, m: MaskKind, frame: seq<Byte>, h: nat)
    requires |frame| >= 64
  {
    exists key :: SessionHits(s, m, key, frame, h)
  }

  predicate SessionHits(s: map<SKey, nat>, m: MaskKind, key: Key, frame: seq<Byte>, h: nat)
    requires |frame| >= 64
  {
    (m, key) in s && s[(m, key)] == h && C.SpecOf(m).Some? && C.Matches(C.SpecOf(m).value, frame, key)
  }

  /** Session `x` is meant for frames like this one, and its policer is live at index `h`. */
  predicate MeantFor(x: Session, frame: seq<Byte>, ps: map<string, LivePolicer>, h: nat)
    requires |frame| >= 64
  {
    C.Covers(x.mask, x.prefix, frame) && x.policerName in ps && ps[x.policerName].index == h
  }

  lemma CanonicalHasNoHostBits(x: Session)
    requires Keyed(x)
    ensures !C.HostBits(x.mask, x.prefix)
  {
    if x.mask == IP4Dst24 || x.mask == IP4Src24 {
      C.KeyedIff(x.mask, x.prefix);
      assert C.Canonical(x.prefix.addr.o4, 24);
      hide C.Canonical, C.SessionKey;
      C.CanonicalByOctets(x.prefix.addr.o4, 3);
    }
  }

  /** A desired session's key matches exactly the frames it is meant for. */
  lemma DesiredKeyMatchesIff(x: Session, frame: seq<Byte>)
    requires Keyed(x) && |frame| >= 64
    ensures C.SpecOf(x.mask).Some?
    ensures C.Matches(C.SpecOf(x.mask).value, frame, KeyOr(x)) <==> C.Covers(x.mask, x.prefix, frame)
  {
    hide C.Matches, C.Covers, C.HostBits;
    CanonicalHasNoHostBits(x);
    C.KeyPolicesIff(x.mask, x.prefix, frame);
    C.KeyParts(x.mask, x.prefix);
  }

  /** In a VPP in sync the policer a session names is live, at the index its key hits. */
  lemma DesiredHit(st: State, ps: map<string, LivePolicer>, s: map<SKey, nat>, idx: map<string, nat>, parse: Parse,
                   x: Session)
    requires WellFormed(st, parse) && Synced(st, ps, s, idx, parse) && x in st.sessions
    ensures SK(x) in s && x.policerName in ps && s[SK(x)] == ps[x.policerName].index
  {
    hide SK, DistinctKeys, ByName, Managed, AsSent;
    GoalAt(st.sessions, idx, x);
    hide Goal;
    assert x.policerName in idx;
  }

  /** Packets meet policers as desired says. In a VPP in sync, a frame is handed to a policer on the table of a
      mask exactly when a desired session of that mask covers it, and then to the live policer it names. */
  lemma PolicedIff(st: State, ps: map<string, LivePolicer>, s: map<SKey, nat>, idx: map<string, nat>,
                   tables: map<MaskKind, nat>, parse: Parse, m: MaskKind, frame: seq<Byte>, h: nat)
    requires WellFormed(st, parse) && Synced(st, ps, s, idx, parse) && GoodSessions(s, tables) && |frame| >= 64
    ensures HitsOn(s, m, frame, h) <==> exists x :: x in st.sessions && x.mask == m && MeantFor(x, frame, ps, h)
    ensures RunsOn(ByName(st.policers), ps)
  {
    hide WellFormed, Synced, GoodSessions, RunsOn, ByName, KeyOr, Keyed, SessionHits, MeantFor;
    SyncedRunsOn(st, ps, s, idx, parse);
    HousedKeyed(st, ps, s, idx, tables, parse);
    if HitsOn(s, m, frame, h) {
      var key :| SessionHits(s, m, key, frame, h);
      HitIsInstalled(s, m, key, frame, h);
      var x :| x in st.sessions && SK(x) == (m, key);
      SessionMeant(st, ps, s, idx, parse, x, frame, h);
    }
    if x :| x in st.sessions && x.mask == m && MeantFor(x, frame, ps, h) {
      SessionMeant(st, ps, s, idx, parse, x, frame, h);
    }
  }

  lemma HitIsInstalled(s: map<SKey, nat>, m: MaskKind, key: Key, frame: seq<Byte>, h: nat)
    requires |frame| >= 64 && SessionHits(s, m, key, frame, h)
    ensures (m, key) in s
  {
  }

  lemma HousedKeyed(st: State, ps: map<string, LivePolicer>, s: map<SKey, nat>, idx: map<string, nat>,
                    tables: map<MaskKind, nat>, parse: Parse)
    requires Synced(st, ps, s, idx, parse) && GoodSessions(s, tables)
    ensures (forall x | x in st.sessions :: Keyed(x)) && s.Keys == Keys(st.sessions)
  {
    hide Synced, GoodSessions, Keyed, Keys;
    F.SyncedIsHoused(st, ps, s, idx, tables, parse);
  }

  lemma SessionMeant(st: State, ps: map<string, LivePolicer>, s: map<SKey, nat>, idx: map<string, nat>, parse: Parse,
                     x: Session, frame: seq<Byte>, h: nat)
    requires WellFormed(st, parse) && Synced(st, ps, s, idx, parse) && x in st.sessions && Keyed(x) && |frame| >= 64
    ensures SessionHits(s, x.mask, KeyOr(x), frame, h) <==> MeantFor(x, frame, ps, h)
  {
    hide WellFormed, Synced, C.Matches, C.Covers, KeyOr, Keyed;
    DesiredHit(st, ps, s, idx, parse, x);
    DesiredKeyMatchesIff(x, frame);
  }

  /** The table bound to an interface for packets of one family. */
  function Entry(b4: map<nat, nat>, b6: map<nat, nat>, sw: nat, v6: bool): (t: nat) {
    var bound := if v6 then b6 else b4;
    if sw in bound then bound[sw] else NO_TABLE
  }

  /** The family a table is chained in is the family of the packets its sessions cover. */
  lemma FamilyOfKeyed(x: Session)
    requires Keyed(x)
    ensures MaskFamily(x.mask) == C.IPv6 <==> x.prefix.addr.V6?
  {
    C.KeyedIff(x.mask, x.prefix);
  }

  /** From every configured interface the walk that VPP takes for packets of a session's family comes to that
      session's table. */
  lemma WalkReachesSession(x: Session, tables: map<MaskKind, nat>, next: map<nat, nat>, names: seq<string>,
                           ifaces: map<string, nat>, b4: map<nat, nat>, b6: map<nat, nat>, name: string)
    requires Keyed(x) && x.mask in tables && name in names
    requires B.OnHeads(names, ifaces, b4, b6, tables)
    requires B.Chained(next, B.FamilyTables(tables, C.IPv4)) && B.Chained(next, B.FamilyTables(tables, C.IPv6))
    ensures name in ifaces
    ensures exists n: nat :: B.Follow(next, Entry(b4, b6, ifaces[name], x.prefix.addr.V6?), n) == tables[x.mask]
  {
    hide Keyed, B.Follow, B.FamilyTables, B.IsHead;
    FamilyOfKeyed(x);
    var fam := MaskFamily(x.mask);
    var entry := Entry(b4, b6, ifaces[name], x.prefix.addr.V6?);
    assert B.IsHead(entry, B.FamilyTables(tables, fam));
    assert B.Chained(next, B.FamilyTables(tables, fam));
    var ts :| B.Ascending(ts) && B.Elems(ts) == B.FamilyTables(tables, fam) && B.Chain(next, ts);
    hide B.Ascending, B.Elems, B.Chain, B.Chained, B.OnHeads;
    B.HeadOfIsHead(ts, entry);
    B.WalkVisitsFamilyOnce(next, tables, fam, ts);
    OwnTable(tables, x.mask);
    assert B.Visited(next, entry, |ts|, tables[x.mask]);
  }

  lemma OwnTable(tables: map<MaskKind, nat>, m: MaskKind)
    requires m in tables
    ensures tables[m] in B.FamilyTables(tables, MaskFamily(m))
  {
  }

  /** A frame that a desired session covers, arriving on any configured interface, comes to a table where it is
      handed to the live policer the session names, running on that policer's whole desired configuration. */
  lemma CoveredIsPoliced(st: State, ps: map<string, LivePolicer>, s: map<SKey, nat>, idx: map<string, nat>,
                         parse: Parse, tables: map<MaskKind, nat>, next: map<nat, nat>, names: seq<string>,
                         ifaces: map<string, nat>,
                         b4: map<nat, nat>, b6: map<nat, nat>, name: string, x: Session, frame: seq<Byte>)
    requires WellFormed(st, parse) && Synced(st, ps, s, idx, parse) && GoodSessions(s, tables) && |frame| >= 64
    requires B.OnHeads(names, ifaces, b4, b6, tables) && name in names
    requires B.Chained(next, B.FamilyTables(tables, C.IPv4)) && B.Chained(next, B.FamilyTables(tables, C.IPv6))
    requires x in st.sessions && C.Covers(x.mask, x.prefix, frame)
    ensures name in ifaces && x.mask in tables
    ensures exists n: nat :: B.Follow(next, Entry(b4, b6, ifaces[name], x.prefix.addr.V6?), n) == tables[x.mask]
    ensures x.policerName in ps && HitsOn(s, x.mask, frame, ps[x.policerName].index)
    ensures x.policerName in ByName(st.policers) &&
            RunsAs(ps[x.policerName].conf, ByName(st.policers)[x.policerName])
  {
    assert x.policerName in ByName(st.policers);
    F.SyncedIsHoused(st, ps, s, idx, tables, parse);
    DesiredHit(st, ps, s, idx, parse, x);
    hide WellFormed, Synced, GoodSessions, C.Covers, Keyed, HitsOn, B.OnHeads, B.Chained, B.FamilyTables, B.Follow,
         ByName, RunsAs, SK;
    WalkReachesSession(x, tables, next, names, ifaces, b4, b6, name);
    assert MeantFor(x, frame, ps, ps[x.policerName].index);
    PolicedIff(st, ps, s, idx, tables, parse, x.mask, frame, ps[x.policerName].index);
  }
}
