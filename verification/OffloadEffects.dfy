/** What each MQTT message does to the table: exactly which edges are on, and which capabilities they list and offer. */
module OffloadEffects {
  import opened Common
  import opened EdgeTable
  import opened Offload

  /** The edge with this address. */
  function At(edges: seq<Edge>, addr: nat): (r: Option<Edge>)
    ensures r.Some? ==> r.value in edges && r.value.addr == addr
    ensures r.None? ==> forall e :: e in edges ==> e.addr != addr
  {
    match FindEdge(edges, addr)
    case None => None
    case Some(i) => Some(edges[i])
  }

  predicate On(e: Option<Edge>) { e.Some? && e.value.active }

  function CapsOf(e: Option<Edge>): seq<Cap> { if e.Some? then e.value.caps else [] }

  /** The active flag of a capability, if it is listed. */
  function FlagIn(caps: seq<Cap>, name: string): Option<bool> {
    match FindCap(caps, name)
    case None => None
    case Some(j) => Some(caps[j].active)
  }

  function Flag(e: Option<Edge>, name: string): Option<bool> { FlagIn(CapsOf(e), name) }

  /** Some edge with this address offers the capability. */
  ghost predicate OffersAt(edges: seq<Edge>, addr: nat, name: string) {
    exists k :: 0 <= k < |edges| && edges[k].addr == addr && Offers(edges[k], name)
  }

  lemma AtIs(edges: seq<Edge>, k: nat)
    requires UniqueAddrs(edges) && k < |edges|
    ensures FindEdge(edges, edges[k].addr) == Some(k) && At(edges, edges[k].addr) == Some(edges[k])
  {
    assert FindEdge(edges, edges[k].addr).Some?;
  }

  lemma OffersAtMeans(edges: seq<Edge>, addr: nat, name: string)
    requires UniqueAddrs(edges)
    ensures OffersAt(edges, addr, name) <==> On(At(edges, addr)) && Flag(At(edges, addr), name) == Some(true)
  {
    if k :| 0 <= k < |edges| && edges[k].addr == addr && Offers(edges[k], name) {
      AtIs(edges, k);
    }
    if On(At(edges, addr)) && Flag(At(edges, addr), name) == Some(true) {
      var k := FindEdge(edges, addr).value;
      assert Offers(edges[k], name);
    }
  }

  // ---------------------------------------------------------------------------
  // Table updates.
  // ---------------------------------------------------------------------------

  lemma AtSet(edges: seq<Edge>, i: nat, e: Edge, a: nat)
    requires UniqueAddrs(edges) && i < |edges| && e.addr == edges[i].addr
    ensures At(edges[i := e], a) == if a == e.addr then Some(e) else At(edges, a)
  {
    SameAddresses(edges, edges[i := e], a);
    AtIs(edges, i);
  }

  lemma AtRemove(edges: seq<Edge>, i: nat, a: nat)
    requires UniqueAddrs(edges) && i < |edges|
    ensures At(RemoveAt(edges, i), a) == if a == edges[i].addr then None else At(edges, a)
  {
    var r := RemoveAt(edges, i);
    assert forall k :: 0 <= k < |r| ==> r[k] == edges[if k < i then k else k + 1];
    assert UniqueAddrs(r);
    if FindEdge(edges, a).Some? && a != edges[i].addr {
      var k := FindEdge(edges, a).value;
      assert r[if k < i then k else k - 1] == edges[k];
      AtIs(r, if k < i then k else k - 1);
    }
  }

  lemma AtPush(edges: seq<Edge>, e: Edge, a: nat)
    ensures At([e] + edges, a) == if a == e.addr then Some(e) else At(edges, a)
  {
    assert ([e] + edges)[1..] == edges;
  }

  /** An edge can be added: the pool has a free block, or an inactive edge gives up its own. */
  ghost predicate HasRoom(cfg: Config, edges: seq<Edge>) {
    |edges| < cfg.numEdges || exists i :: 0 <= i < |edges| && !edges[i].active
  }

  lemma FreeIffShort(cfg: Config, t: Table)
    requires PoolsOk(cfg, t)
    ensures FirstFree(t.edgeUsed, 0, cfg.numEdges).Some? <==> |t.edges| < cfg.numEdges
  {
    EdgeBlocksBound(t.edges, t.edgeUsed);
    var all := PoolBlocks(cfg.numEdges);
    if FirstFree(t.edgeUsed, 0, cfg.numEdges).None? {
      SubsetSize(all, t.edgeUsed);
    } else {
      var b := FirstFree(t.edgeUsed, 0, cfg.numEdges).value;
      SubsetSize(t.edgeUsed, all - {b});
    }
  }

  /** What another edge's record may become when an edge is added: an inactive edge may be evicted. */
  ghost predicate Kept(before: Option<Edge>, after: Option<Edge>) {
    after == before || (after.None? && !On(before))
  }

  /** The edge is as it was, or new: off and without capabilities. */
  ghost predicate KnownOrNew(before: Option<Edge>, after: Option<Edge>) {
    if before.Some? then after == before else after.Some? && !after.value.active && after.value.caps == []
  }

  /** Adding an edge succeeds if and only if it is known or there is room; at most one other, inactive edge goes. */
  lemma AddEdgeIff(cfg: Config, t: Table, addr: nat)
    requires TableOk(cfg, t)
    ensures var (t', ok) := AddEdge(cfg, t, addr);
            && (ok <==> At(t.edges, addr).Some? || HasRoom(cfg, t.edges))
            && (ok ==> KnownOrNew(At(t.edges, addr), At(t'.edges, addr))) && (!ok ==> t' == t)
            && (forall a :: a != addr ==> Kept(At(t.edges, a), At(t'.edges, a)))
            && |t'.edges| == |t.edges| + (if At(t.edges, addr).None? && |t.edges| < cfg.numEdges then 1 else 0)
  {
    if FindEdge(t.edges, addr).None? {
      FreeIffShort(cfg, t);
      match FirstFree(t.edgeUsed, 0, cfg.numEdges)
      case Some(b) => PushAt(t, b, addr);
      case None =>
        match FirstInactive(t.edges)
        case None => EdgeListBound(cfg, t);
        case Some(i) => EvictAndPush(cfg, t, i, addr);
    }
  }

  lemma PushAt(t: Table, b: nat, addr: nat)
    requires At(t.edges, addr).None?
    ensures var t' := PushEdge(t, b, addr);
            && At(t'.edges, addr) == Some(Edge(b, addr, false, []))
            && forall a :: a != addr ==> At(t'.edges, a) == At(t.edges, a)
  {
    forall a
      ensures At(PushEdge(t, b, addr).edges, a) == if a == addr then Some(Edge(b, addr, false, [])) else At(t.edges, a)
    {
      AtPush(t.edges, Edge(b, addr, false, []), a);
    }
  }

  lemma EvictAndPush(cfg: Config, t: Table, i: nat, addr: nat)
    requires TableOk(cfg, t) && FirstInactive(t.edges) == Some(i) && At(t.edges, addr).None?
    requires FirstFree(t.edgeUsed, 0, cfg.numEdges).None?
    ensures var (t', ok) := AddEdge(cfg, t, addr);
            && ok && KnownOrNew(None, At(t'.edges, addr)) && |t'.edges| == |t.edges|
            && forall a :: a != addr ==> Kept(At(t.edges, a), At(t'.edges, a))
  {
    var t1 := RemoveEdge(t, i);
    RemoveEdgeKeeps(cfg, t, i);
    FreeIffShort(cfg, t1);
    EdgeListBound(cfg, t);
    var b := FirstFree(t1.edgeUsed, 0, cfg.numEdges).value;
    AtIs(t.edges, i);
    forall a
      ensures At(t1.edges, a) == if a == t.edges[i].addr then None else At(t.edges, a)
    {
      AtRemove(t.edges, i, a);
    }
    PushAt(t1, b, addr);
  }

  // ---------------------------------------------------------------------------
  // Certificates.
  // ---------------------------------------------------------------------------

  /** The message carries a certificate of the edge it is about. */
  predicate Certifies(u: Setup, eui: nat, cert: Option<nat>) { cert == Some(eui) && eui != u.ours }

  lemma ActivateAt(t: Table, eui: nat, a: nat)
    requires UniqueAddrs(t.edges)
    ensures At(Activate(t, eui).edges, a) ==
            if a == eui && At(t.edges, eui).Some? then Some(At(t.edges, eui).value.(active := true)) else At(t.edges, a)
  {
    match FindEdge(t.edges, eui)
    case None =>
    case Some(i) => AtSet(t.edges, i, t.edges[i].(active := true), a);
  }

  /** Adding an edge and switching it on. */
  lemma AddedAndOn(u: Setup, w: World, eui: nat)
    requires TableOk(u.cfg, w.table)
    ensures var (t, ok) := AddEdge(u.cfg, w.table, eui);
            var before, after := w.table.edges, Activate(t, eui).edges;
            && (ok <==> At(before, eui).Some? || HasRoom(u.cfg, before)) && (!ok ==> t == w.table)
            && (ok ==> On(At(after, eui)) && CapsOf(At(after, eui)) == CapsOf(At(before, eui)))
            && (ok ==> forall a :: a != eui ==> Kept(At(before, a), At(after, a)))
  {
    AddEdgeIff(u.cfg, w.table, eui);
    AddEdgeKeeps(u.cfg, w.table, eui);
    var t := AddEdge(u.cfg, w.table, eui).0;
    forall a
      ensures At(Activate(t, eui).edges, a) ==
              if a == eui && At(t.edges, eui).Some? then Some(At(t.edges, eui).value.(active := true)) else At(t.edges, a)
    {
      ActivateAt(t, eui, a);
    }
  }

  /**
   A certificate of the sender switches its edge on, adding it if there is room, with the capabilities it
   already listed; any other certificate changes nothing. No other edge that is on is affected.
   */
  lemma CertificateEffect(u: Setup, w: World, eui: nat, cert: Option<nat>)
    requires WorldOk(u, w)
    ensures var before, after := w.table.edges, MaybeCert(u, w, eui, cert).table.edges;
            && (At(after, eui).Some? <==> At(before, eui).Some? || (Certifies(u, eui, cert) && HasRoom(u.cfg, before)))
            && (On(At(after, eui)) <==> On(At(before, eui)) || (Certifies(u, eui, cert) && At(after, eui).Some?))
            && CapsOf(At(after, eui)) == CapsOf(At(before, eui))
            && forall a :: a != eui ==> Kept(At(before, a), At(after, a))
    ensures !Certifies(u, eui, cert) ==> MaybeCert(u, w, eui, cert) == w
  {
    if Certifies(u, eui, cert) {
      AddedAndOn(u, w, eui);
    }
  }

  // ---------------------------------------------------------------------------
  // Capability lists.
  // ---------------------------------------------------------------------------

  lemma {:induction false} FlagSet(caps: seq<Cap>, j: nat, active: bool, name: string)
    requires j < |caps| && FindCap(caps, caps[j].name) == Some(j)
    ensures FlagIn(caps[j := caps[j].(active := active)], name) == if name == caps[j].name then Some(active) else FlagIn(caps, name)
    decreases |caps|
  {
    var r := caps[j := caps[j].(active := active)];
    if j == 0 {
      assert r[1..] == caps[1..];
    } else {
      assert r[1..] == caps[1..][j - 1 := caps[j].(active := active)];
      FlagSet(caps[1..], j - 1, active, name);
      FlagTail(caps, name);
      FlagTail(r, name);
    }
  }

  lemma FlagTail(caps: seq<Cap>, name: string)
    requires |caps| > 0
    ensures FlagIn(caps, name) == if caps[0].name == name then Some(caps[0].active) else FlagIn(caps[1..], name)
  {
  }

  lemma {:induction false} FlagRemove(caps: seq<Cap>, j: nat, name: string)
    requires UniqueNames(caps) && j < |caps|
    ensures FlagIn(RemoveAt(caps, j), name) == if name == caps[j].name then None else FlagIn(caps, name)
    decreases |caps|
  {
    var r := RemoveAt(caps, j);
    FlagTail(caps, name);
    if j == 0 {
      assert r == caps[1..];
      assert name == caps[0].name ==> FindCap(r, name).None?;
    } else {
      assert r[1..] == RemoveAt(caps[1..], j - 1);
      FlagRemove(caps[1..], j - 1, name);
      FlagTail(r, name);
    }
  }

  lemma FlagPush(caps: seq<Cap>, c: Cap, name: string)
    ensures FlagIn([c] + caps, name) == if name == c.name then Some(c.active) else FlagIn(caps, name)
  {
    FlagTail([c] + caps, name);
    assert ([c] + caps)[1..] == caps;
  }

  lemma FindUniqueCap(caps: seq<Cap>, j: nat)
    requires UniqueNames(caps) && j < |caps|
    ensures FindCap(caps, caps[j].name) == Some(j)
  {
    FindUnique(caps, j);
  }

  /** Only the edge at position i changed, to `e`. */
  ghost predicate OnlyBecame(before: seq<Edge>, after: seq<Edge>, addr: nat, e: Option<Edge>) {
    forall a :: At(after, a) == if a == addr then e else At(before, a)
  }

  /** What a withdrawal leaves of the edge. */
  function Withdrawn(u: Setup, e: Edge, j: nat): Option<Edge>
    requires j < |e.caps|
  {
    if u.noActiveRemoval then Some(e.(caps := e.caps[j := e.caps[j].(active := false)]))
    else if u.aggressive && |e.caps| == 1 then None
    else Some(e.(caps := RemoveAt(e.caps, j)))
  }

  lemma WithdrawAt(u: Setup, w: World, i: nat, j: nat)
    requires TableOk(u.cfg, w.table) && i < |w.table.edges| && j < |w.table.edges[i].caps|
    ensures OnlyBecame(w.table.edges, WithdrawCapability(u, w, i, j).table.edges, w.table.edges[i].addr,
                       Withdrawn(u, w.table.edges[i], j))
  {
    var e, r := w.table.edges[i], WithdrawCapability(u, w, i, j).table.edges;
    var off := e.caps[j := e.caps[j].(active := false)];
    assert RemoveAt(off, j) == RemoveAt(e.caps, j);
    var short := e.(caps := RemoveAt(e.caps, j));
    var e' := if u.noActiveRemoval then e.(caps := off) else short;
    assert r == (if Withdrawn(u, e, j).Some? then w.table.edges[i := e'] else RemoveAt(w.table.edges[i := short], i));
    forall a
      ensures At(r, a) == if a == e.addr then Withdrawn(u, e, j) else At(w.table.edges, a)
    {
      AtSet(w.table.edges, i, e', a);
      if Withdrawn(u, e, j).None? {
        AtRemove(w.table.edges[i := short], i, a);
      }
    }
  }

  /** What the offer of a capability makes of the edge. */
  ghost predicate Offered(u: Setup, e: Edge, name: string, e': Edge) {
    && e'.addr == e.addr && e'.block == e.block && e'.active == e.active
    && (FindCap(e.caps, name).Some? || |e.caps| < u.cfg.numCaps ==>
          forall n :: FlagIn(e'.caps, n) == if n == name then Some(true) else FlagIn(e.caps, n))
    && (FindCap(e.caps, name).None? && |e.caps| >= u.cfg.numCaps ==> e' == e)
  }

  lemma SwitchedOn(u: Setup, e: Edge, name: string, j: nat)
    requires FindCap(e.caps, name) == Some(j)
    ensures Offered(u, e, name, e.(caps := e.caps[j := e.caps[j].(active := true)]))
  {
    var e' := e.(caps := e.caps[j := e.caps[j].(active := true)]);
    forall n
      ensures FlagIn(e'.caps, n) == if n == name then Some(true) else FlagIn(e.caps, n)
    {
      FlagSet(e.caps, j, true, n);
    }
  }

  lemma OfferAt(u: Setup, w: World, i: nat, name: string) returns (e': Edge)
    requires TableOk(u.cfg, w.table) && i < |w.table.edges|
    ensures Offered(u, w.table.edges[i], name, e')
    ensures OnlyBecame(w.table.edges, OfferCapability(u, w, i, name).table.edges, w.table.edges[i].addr, Some(e'))
  {
    var edges, e := w.table.edges, w.table.edges[i];
    var r := OfferCapability(u, w, i, name).table.edges;
    e' := e;
    match FindCap(e.caps, name) {
      case Some(j) =>
        SwitchedOn(u, e, name, j);
        e' := e.(caps := e.caps[j := e.caps[j].(active := true)]);
        if e.caps[j].active {
          assert e' == e && edges[i := e] == edges;
        }
        assert r == edges[i := e'];
      case None =>
        if |e.caps| < u.cfg.numCaps {
          QuotaImpliesSpace(u.cfg, w.table, i);
          var c := Cap(FirstFree(w.table.capUsed, 0, u.cfg.CapCapacity()).value, name, false);
          var e1 := e.(caps := [c] + e.caps);
          assert FindCap(e1.caps, name) == Some(0);
          e' := e1.(caps := e1.caps[0 := c.(active := true)]);
          assert AddCap(u.cfg, w.table, i, name).0.edges == edges[i := e1];
          assert r == edges[i := e1][i := e'] == edges[i := e'];
          NewlyOffered(u, e, name, c, e');
        } else {
          assert r == edges && edges[i := e] == edges;
        }
    }
    forall a
      ensures At(r, a) == if a == e.addr then Some(e') else At(edges, a)
    {
      AtSet(edges, i, e', a);
    }
  }

  lemma NewlyOffered(u: Setup, e: Edge, name: string, c: Cap, e': Edge)
    requires FindCap(e.caps, name).None? && |e.caps| < u.cfg.numCaps && c.name == name
    requires e' == e.(caps := ([c] + e.caps)[0 := c.(active := true)])
    ensures Offered(u, e, name, e')
  {
    assert e'.caps == [c.(active := true)] + e.caps;
    forall n
      ensures FlagIn(e'.caps, n) == if n == name then Some(true) else FlagIn(e.caps, n)
    {
      FlagPush(e.caps, c.(active := true), n);
    }
  }

  /** The same capabilities in the same blocks, those from position j on switched off. */
  ghost predicate OffFrom(caps: seq<Cap>, caps': seq<Cap>, j: nat) {
    |caps'| == |caps| && forall k :: 0 <= k < |caps| ==> caps'[k] == if k < j then caps[k] else caps[k].(active := false)
  }

  lemma {:induction false} SwitchOffAt(w: World, i: nat, j: nat)
    requires i < |w.table.edges|
    ensures var r := SwitchOff(w, i, j).table;
            && OffFrom(w.table.edges[i].caps, r.edges[i].caps, j)
            && r.edges == w.table.edges[i := w.table.edges[i].(caps := r.edges[i].caps)]
    decreases |w.table.edges[i].caps| - j
  {
    if j < |w.table.edges[i].caps| {
      var w1 := Post(w.(table := SetCap(w.table, i, j, false)), w.table.edges[i].caps[j].name);
      SwitchOffAt(w1, i, j + 1);
      assert SwitchOff(w, i, j) == SwitchOff(w1, i, j + 1);
    }
  }

  lemma {:induction false} FlagsOff(caps: seq<Cap>, caps': seq<Cap>, name: string)
    requires OffFrom(caps, caps', 0)
    ensures FlagIn(caps', name) == if FlagIn(caps, name).Some? then Some(false) else None
    decreases |caps|
  {
    if |caps| > 0 {
      FlagsOff(caps[1..], caps'[1..], name);
      FlagTail(caps, name);
      FlagTail(caps', name);
    }
  }

  /** What an unannouncement leaves of the edge. */
  ghost predicate Departed(u: Setup, e: Edge, after: Option<Edge>) {
    if u.noActiveRemoval then
      after.Some? && after.value == e.(active := false, caps := after.value.caps) && OffFrom(e.caps, after.value.caps, 0)
    else after == if u.aggressive then None else Some(e.(active := false, caps := []))
  }

  /**
   After an unannouncement the edge is off and offers nothing: it keeps its list with every flag cleared
   if removal is disabled, is gone in an aggressive build, and otherwise is left without capabilities.
   Every other edge is as it was.
   */
  lemma UnannounceEffect(u: Setup, w: World, eui: nat)
    requires WorldOk(u, w) && At(w.table.edges, eui).Some?
    ensures var after := OnUnannounce(u, w, eui, false).table.edges;
            Departed(u, At(w.table.edges, eui).value, At(after, eui)) && OnlyBecame(w.table.edges, after, eui, At(after, eui))
  {
    var edges, i := w.table.edges, FindEdge(w.table.edges, eui).value;
    var e := edges[i];
    var w1 := w.(table := SetEdge(w.table, i, e.(active := false)));
    SwitchOffAt(w1, i, 0);
    var e2 := SwitchOff(w1, i, 0).table.edges[i];
    var after := OnUnannounce(u, w, eui, false).table.edges;
    assert SwitchOff(w1, i, 0).table.edges == edges[i := e2];
    var e3 := if u.noActiveRemoval then e2 else e2.(caps := []);
    assert after == if u.noActiveRemoval || !u.aggressive then edges[i := e3] else RemoveAt(edges[i := e3], i);
    forall a
      ensures At(after, a) == if a == eui then (if u.noActiveRemoval || !u.aggressive then Some(e3) else None) else At(edges, a)
    {
      AtSet(edges, i, e3, a);
      if !u.noActiveRemoval && u.aggressive {
        AtRemove(edges[i := e3], i, a);
      }
    }
  }

  // ---------------------------------------------------------------------------
  // What is offered after a message.
  // ---------------------------------------------------------------------------

  /** The edge the message is about is on once its certificate has been seen. */
  ghost predicate OnAfterCert(u: Setup, edges: seq<Edge>, eui: nat, cert: Option<nat>) {
    On(At(edges, eui)) || (Certifies(u, eui, cert) && (At(edges, eui).Some? || HasRoom(u.cfg, edges)))
  }

  /**
   What edge `a` offers after a message, in terms of the table before it. Only the sender's own edge can
   change what it offers, whatever is evicted.
   */
  ghost predicate WillOffer(u: Setup, edges: seq<Edge>, ev: Event, a: nat, name: string) {
    var e := At(edges, a);
    if ev.eui == u.ours || a != ev.eui then OffersAt(edges, a, name)
    else
      match ev
      case Announce(_, subject) => OnAfterCert(u, edges, a, Some(subject)) && Flag(e, name) == Some(true)
      case Unannounce(_, ourAddress) => ourAddress && OffersAt(edges, a, name)
      case CapabilityRemove(_, removed, cert) =>
        name != removed && OnAfterCert(u, edges, a, cert) && Flag(e, name) == Some(true)
      case CapabilityAdd(_, added, cert) =>
        if name != added then OnAfterCert(u, edges, a, cert) && Flag(e, name) == Some(true)
        else if e.Some? then OnAfterCert(u, edges, a, cert) && (Flag(e, name).Some? || |e.value.caps| < u.cfg.numCaps)
        else HasRoom(u.cfg, edges) && u.cfg.numCaps > 0
  }

  lemma KeptOffers(before: seq<Edge>, after: seq<Edge>, a: nat, name: string)
    requires UniqueAddrs(before) && UniqueAddrs(after) && Kept(At(before, a), At(after, a))
    ensures OffersAt(after, a, name) <==> OffersAt(before, a, name)
  {
    OffersAtMeans(before, a, name);
    OffersAtMeans(after, a, name);
  }

  lemma AnnounceOffers(u: Setup, w: World, eui: nat, cert: Option<nat>, a: nat, name: string)
    requires WorldOk(u, w) && eui != u.ours
    ensures OffersAt(MaybeCert(u, w, eui, cert).table.edges, a, name) <==>
            if a == eui then OnAfterCert(u, w.table.edges, a, cert) && Flag(At(w.table.edges, a), name) == Some(true)
            else OffersAt(w.table.edges, a, name)
  {
    CertificateEffect(u, w, eui, cert);
    MaybeCertKeeps(u, w, eui, cert);
    var after := MaybeCert(u, w, eui, cert).table.edges;
    OffersAtMeans(after, a, name);
    if a != eui {
      KeptOffers(w.table.edges, after, a, name);
    }
  }

  lemma UnannounceOffers(u: Setup, w: World, eui: nat, ourAddress: bool, a: nat, name: string)
    requires WorldOk(u, w)
    ensures OffersAt(OnUnannounce(u, w, eui, ourAddress).table.edges, a, name) <==>
            (a != eui || ourAddress) && OffersAt(w.table.edges, a, name)
  {
    UnannounceAgrees(u, w, eui, ourAddress);
    var after := OnUnannounce(u, w, eui, ourAddress).table.edges;
    OffersAtMeans(w.table.edges, a, name);
    OffersAtMeans(after, a, name);
    if !ourAddress && At(w.table.edges, eui).Some? {
      UnannounceEffect(u, w, eui);
    }
  }

  /**
   After the removal of a capability the edge no longer offers it, and no longer lists it unless removal
   is disabled; its other capabilities, and all other edges, are as they were after the certificate.
   */
  lemma RemoveEffect(u: Setup, w: World, eui: nat, name: string, cert: Option<nat>)
    requires WorldOk(u, w)
    ensures var mid, after := MaybeCert(u, w, eui, cert).table.edges, OnCapabilityRemove(u, w, eui, name, cert).table.edges;
            && (forall n :: Flag(At(after, eui), n) ==
                  if n != name then Flag(At(mid, eui), n)
                  else if u.noActiveRemoval && Flag(At(mid, eui), n).Some? then Some(false) else None)
            && (On(At(after, eui)) ==> On(At(mid, eui)))
            && (On(At(mid, eui)) && !On(At(after, eui)) ==> LeftWithLast(At(after, eui), At(mid, eui), name))
            && forall a :: a != eui ==> At(after, a) == At(mid, a)
  {
    MaybeCertKeeps(u, w, eui, cert);
    var w1 := MaybeCert(u, w, eui, cert);
    var mid := w1.table.edges;
    match FindEdge(mid, eui)
    case None =>
    case Some(i) =>
      match FindCap(mid[i].caps, name)
      case None =>
      case Some(j) =>
        WithdrawAt(u, w1, i, j);
        WithdrawnFlags(u, mid[i], name, j);
  }

  /** An edge is taken off the table only with its one capability. */
  ghost predicate LeftWithLast(after: Option<Edge>, mid: Option<Edge>, name: string) {
    after.None? && mid.Some? && |mid.value.caps| == 1 && mid.value.caps[0].name == name
  }

  lemma WithdrawnFlags(u: Setup, e: Edge, name: string, j: nat)
    requires UniqueNames(e.caps) && FindCap(e.caps, name) == Some(j)
    ensures forall n :: Flag(Withdrawn(u, e, j), n) ==
              if n != name then FlagIn(e.caps, n) else if u.noActiveRemoval then Some(false) else None
  {
    forall n
      ensures Flag(Withdrawn(u, e, j), n) ==
              if n != name then FlagIn(e.caps, n) else if u.noActiveRemoval then Some(false) else None
    {
      FlagSet(e.caps, j, false, n);
      FlagRemove(e.caps, j, n);
      if |e.caps| == 1 {
        assert RemoveAt(e.caps, j) == [];
      }
    }
  }

  lemma RemoveOffers(u: Setup, w: World, eui: nat, removed: string, cert: Option<nat>, a: nat, name: string)
    requires WorldOk(u, w) && eui != u.ours
    ensures OffersAt(OnCapabilityRemove(u, w, eui, removed, cert).table.edges, a, name) <==>
            (a != eui || name != removed) && OffersAt(MaybeCert(u, w, eui, cert).table.edges, a, name)
  {
    RemoveEffect(u, w, eui, removed, cert);
    MaybeCertKeeps(u, w, eui, cert);
    CapabilityRemoveKeeps(u, w, eui, removed, cert);
    OffersAtMeans(MaybeCert(u, w, eui, cert).table.edges, a, name);
    OffersAtMeans(OnCapabilityRemove(u, w, eui, removed, cert).table.edges, a, name);
    var mid := At(MaybeCert(u, w, eui, cert).table.edges, eui);
    if mid.Some? && |mid.value.caps| == 1 && name != mid.value.caps[0].name {
      FlagTail(mid.value.caps, name);
    }
  }

  /** The edge the add handler works on, and what it did to the others. */
  lemma EnsuredEdge(u: Setup, w: World, eui: nat, cert: Option<nat>) returns (w2: World, ok: bool)
    requires WorldOk(u, w) && eui != u.ours
    ensures WorldOk(u, w2) && (ok <==> At(w2.table.edges, eui).Some?)
    ensures ok <==> At(w.table.edges, eui).Some? || HasRoom(u.cfg, w.table.edges)
    ensures CapsOf(At(w2.table.edges, eui)) == CapsOf(At(w.table.edges, eui))
    ensures On(At(w2.table.edges, eui)) <==>
              if At(w.table.edges, eui).Some? then OnAfterCert(u, w.table.edges, eui, cert) else ok
    ensures forall a :: a != eui ==> Kept(At(w.table.edges, a), At(w2.table.edges, a))
    ensures forall name :: OnCapabilityAdd(u, w, eui, name, cert) ==
              if ok then OfferCapability(u, w2, FindEdge(w2.table.edges, eui).value, name) else w2
  {
    CertificateEffect(u, w, eui, cert);
    MaybeCertKeeps(u, w, eui, cert);
    var w1 := MaybeCert(u, w, eui, cert);
    w2 := w1;
    if FindEdge(w1.table.edges, eui).None? {
      EnsureEdge(u, w1, eui);
      AddedAndOn(u, w1, eui);
      var (t, added) := AddEdge(u.cfg, w1.table, eui);
      w2 := w1.(table := if added then Activate(t, eui) else t);
      assert w1 == w;
    }
    ok := FindEdge(w2.table.edges, eui).Some?;
  }

  lemma OfferedMeans(u: Setup, caps: seq<Cap>, m: Edge, added: string, e': Edge, name: string)
    requires Offered(u, m, added, e') && m.caps == caps
    ensures e'.active && FlagIn(e'.caps, name) == Some(true) <==>
            m.active && (if name == added then FlagIn(caps, name).Some? || |caps| < u.cfg.numCaps
                         else FlagIn(caps, name) == Some(true))
  {
  }

  lemma AddOffersOther(u: Setup, w: World, eui: nat, added: string, cert: Option<nat>, a: nat, name: string)
    requires WorldOk(u, w) && eui != u.ours && a != eui
    ensures OffersAt(OnCapabilityAdd(u, w, eui, added, cert).table.edges, a, name) <==> OffersAt(w.table.edges, a, name)
  {
    var w2, ok := EnsuredEdge(u, w, eui, cert);
    CapabilityAddKeeps(u, w, eui, added, cert);
    if ok {
      var e' := OfferAt(u, w2, FindEdge(w2.table.edges, eui).value, added);
    }
    KeptOffers(w.table.edges, OnCapabilityAdd(u, w, eui, added, cert).table.edges, a, name);
  }

  lemma AddOffersOwn(u: Setup, w: World, eui: nat, added: string, cert: Option<nat>, name: string)
    requires WorldOk(u, w) && eui != u.ours
    ensures OffersAt(OnCapabilityAdd(u, w, eui, added, cert).table.edges, eui, name) <==>
            WillOffer(u, w.table.edges, CapabilityAdd(eui, added, cert), eui, name)
  {
    var w2, ok := EnsuredEdge(u, w, eui, cert);
    CapabilityAddKeeps(u, w, eui, added, cert);
    OffersAtMeans(OnCapabilityAdd(u, w, eui, added, cert).table.edges, eui, name);
    if ok {
      var m := At(w2.table.edges, eui).value;
      var e' := OfferAt(u, w2, FindEdge(w2.table.edges, eui).value, added);
      OfferedMeans(u, CapsOf(At(w.table.edges, eui)), m, added, e', name);
    }
  }

  lemma AddOffers(u: Setup, w: World, eui: nat, added: string, cert: Option<nat>, a: nat, name: string)
    requires WorldOk(u, w) && eui != u.ours
    ensures OffersAt(OnCapabilityAdd(u, w, eui, added, cert).table.edges, a, name) <==>
            WillOffer(u, w.table.edges, CapabilityAdd(eui, added, cert), a, name)
  {
    if a == eui {
      AddOffersOwn(u, w, eui, added, cert, name);
    } else {
      AddOffersOther(u, w, eui, added, cert, a, name);
    }
  }

  /**
   After every message, from every state with the invariant, an edge offers a capability exactly as
   WillOffer says.
   */
  lemma StepOffers(u: Setup, w: World, ev: Event, a: nat, name: string)
    requires WorldOk(u, w)
    ensures OffersAt(Step(u, w, ev).table.edges, a, name) <==> WillOffer(u, w.table.edges, ev, a, name)
  {
    if ev.eui != u.ours {
      match ev
      case Announce(eui, subject) => AnnounceOffers(u, w, eui, Some(subject), a, name);
      case Unannounce(eui, ourAddress) => UnannounceOffers(u, w, eui, ourAddress, a, name);
      case CapabilityAdd(eui, added, cert) => AddOffers(u, w, eui, added, cert, a, name);
      case CapabilityRemove(eui, removed, cert) =>
        RemoveOffers(u, w, eui, removed, cert, a, name);
        AnnounceOffers(u, w, eui, cert, a, name);
    }
  }

  /** A removed capability is offered no longer and, unless removal is disabled, listed no longer. */
  lemma RemovedIsGone(u: Setup, w: World, eui: nat, name: string, cert: Option<nat>)
    requires WorldOk(u, w) && eui != u.ours
    ensures var after := Step(u, w, CapabilityRemove(eui, name, cert)).table.edges;
            && !OffersAt(after, eui, name)
            && (!u.noActiveRemoval ==> Flag(At(after, eui), name).None?)
  {
    StepOffers(u, w, CapabilityRemove(eui, name, cert), eui, name);
    RemoveEffect(u, w, eui, name, cert);
  }

  /** An active edge offers a capability it adds if and only if it listed it or its quota allows. */
  lemma AddedIsOfferedIff(u: Setup, w: World, eui: nat, name: string, cert: Option<nat>)
    requires WorldOk(u, w) && eui != u.ours && On(At(w.table.edges, eui))
    ensures OffersAt(Step(u, w, CapabilityAdd(eui, name, cert)).table.edges, eui, name) <==>
            Flag(At(w.table.edges, eui), name).Some? || |At(w.table.edges, eui).value.caps| < u.cfg.numCaps
  {
    StepOffers(u, w, CapabilityAdd(eui, name, cert), eui, name);
  }

  /** The messages that take a capability off offer. */
  predicate Withdraws(u: Setup, ev: Event, a: nat, name: string) {
    ev.eui == a != u.ours && ((ev.Unannounce? && !ev.ourAddress) || (ev.CapabilityRemove? && ev.name == name))
  }

  /** What is on offer stays so through a message if and only if that is its own withdrawal. */
  lemma OfferStaysIff(u: Setup, w: World, ev: Event, a: nat, name: string)
    requires WorldOk(u, w) && OffersAt(w.table.edges, a, name)
    ensures OffersAt(Step(u, w, ev).table.edges, a, name) <==> !Withdraws(u, ev, a, name)
  {
    StepOffers(u, w, ev, a, name);
    OffersAtMeans(w.table.edges, a, name);
  }

  /** Along a run, what is on offer stays on offer until it is withdrawn. */
  lemma {:induction false} OfferedUntilWithdrawn(u: Setup, apps: set<string>, events: seq<Event>, k: nat, a: nat, name: string)
    requires k <= |events| && OffersAt(Run(u, apps, events[..k]).table.edges, a, name)
    requires forall i :: k <= i < |events| ==> !Withdraws(u, events[i], a, name)
    ensures OffersAt(Run(u, apps, events).table.edges, a, name)
    decreases |events|
  {
    var n := |events|;
    if k == n {
      assert events[..k] == events;
    } else {
      assert events[..n - 1][..k] == events[..k];
      OfferedUntilWithdrawn(u, apps, events[..n - 1], k, a, name);
      RunOk(u, apps, events[..n - 1]);
      OfferStaysIff(u, Run(u, apps, events[..n - 1]), events[n - 1], a, name);
    }
  }
}
