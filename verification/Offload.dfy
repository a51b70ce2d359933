/**
 The MQTT handlers that maintain the edge table (wsn/common/trust/trust-common.c) and the applications'
 running flags that summarise it (wsn/applications/application-common.c).
 */
module Offload {
  import opened Common
  import opened EdgeTable

  /** The table, and for each application process its `running` flag. */
  datatype World = World(table: Table, running: map<string, bool>)

  /** Build options, and this node's own identity. */
  datatype Setup = Setup(cfg: Config, ours: nat, noActiveRemoval: bool, aggressive: bool)

  // An edge's address is derived from its identity, so both are one number here.

  datatype Event =
    | Announce(eui: nat, subject: nat)
    | Unannounce(eui: nat, ourAddress: bool)
    | CapabilityAdd(eui: nat, name: string, cert: Option<nat>)
    | CapabilityRemove(eui: nat, name: string, cert: Option<nat>)

  /** post_to_capability_process: the application, if there is one, recomputes its flag at once. */
  function Post(w: World, name: string): World {
    if name in w.running then w.(running := w.running[name := HasActive(w.table.edges, name)]) else w
  }

  /** process_certificate, as far as the table is concerned. */
  function ProcessCert(u: Setup, w: World, eui: nat, subject: nat): World {
    if eui != subject || subject == u.ours then w
    else
      var (t, ok) := AddEdge(u.cfg, w.table, eui);
      if ok then w.(table := Activate(t, eui)) else w.(table := t)
  }

  function Activate(t: Table, eui: nat): Table {
    match FindEdge(t.edges, eui)
    case None => t
    case Some(i) => SetEdge(t, i, t.edges[i].(active := true))
  }

  function MaybeCert(u: Setup, w: World, eui: nat, cert: Option<nat>): World {
    match cert
    case None => w
    case Some(subject) => ProcessCert(u, w, eui, subject)
  }

  function SetCap(t: Table, i: nat, j: nat, active: bool): Table
    requires i < |t.edges| && j < |t.edges[i].caps|
  {
    var e := t.edges[i];
    SetEdge(t, i, e.(caps := e.caps[j := e.caps[j].(active := active)]))
  }

  /** The loop of the unannounce handler: each capability is switched off and its application told. */
  function SwitchOff(w: World, i: nat, j: nat): (r: World)
    requires i < |w.table.edges|
    ensures |r.table.edges| == |w.table.edges|
    decreases |w.table.edges[i].caps| - j
  {
    if j >= |w.table.edges[i].caps| then w
    else
      var w' := w.(table := SetCap(w.table, i, j, false));
      SwitchOff(Post(w', w.table.edges[i].caps[j].name), i, j + 1)
  }

  /** edge_info_capability_clear. */
  function ClearCaps(t: Table, i: nat): Table
    requires i < |t.edges|
  {
    SetEdge(t, i, t.edges[i].(caps := [])).(capUsed := t.capUsed - BlockSet(t.edges[i].caps))
  }

  function OnUnannounce(u: Setup, w: World, eui: nat, ourAddress: bool): World {
    if ourAddress then w
    else
      match FindEdge(w.table.edges, eui)
      case None => w
      case Some(i) =>
        var w1 := w.(table := SetEdge(w.table, i, w.table.edges[i].(active := false)));
        var w2 := SwitchOff(w1, i, 0);
        if u.noActiveRemoval then w2
        else
          var t := ClearCaps(w2.table, i);
          if u.aggressive then w2.(table := RemoveEdge(t, i)) else w2.(table := t)
  }

  function OnCapabilityAdd(u: Setup, w: World, eui: nat, name: string, cert: Option<nat>): World {
    var w1 := MaybeCert(u, w, eui, cert);
    var (t, ok) :=
      if FindEdge(w1.table.edges, eui).Some? then (w1.table, true)
      else var (t', ok') := AddEdge(u.cfg, w1.table, eui); (if ok' then Activate(t', eui) else t', ok');
    var w2 := w1.(table := t);
    match FindEdge(t.edges, eui)
    case None => w2
    case Some(i) => if !ok then w2 else OfferCapability(u, w2, i, name)
  }

  /** The rest of the handler, for an edge that is in the table. */
  function OfferCapability(u: Setup, w: World, i: nat, name: string): World
    requires i < |w.table.edges|
  {
    var e := w.table.edges[i];
    match FindCap(e.caps, name)
    case Some(j) => if e.caps[j].active then w else Post(w.(table := SetCap(w.table, i, j, true)), name)
    case None =>
      var (t, ok) := AddCap(u.cfg, w.table, i, name);
      if !ok || i >= |t.edges| || FindCap(t.edges[i].caps, name).None? then w.(table := t)
      else Post(w.(table := SetCap(t, i, FindCap(t.edges[i].caps, name).value, true)), name)
  }

  function OnCapabilityRemove(u: Setup, w: World, eui: nat, name: string, cert: Option<nat>): World {
    var w1 := MaybeCert(u, w, eui, cert);
    match FindEdge(w1.table.edges, eui)
    case None => w1
    case Some(i) =>
      match FindCap(w1.table.edges[i].caps, name)
      case None => w1
      case Some(j) => WithdrawCapability(u, w1, i, j)
  }

  function WithdrawCapability(u: Setup, w: World, i: nat, j: nat): World
    requires i < |w.table.edges| && j < |w.table.edges[i].caps|
  {
    var w' := Post(w.(table := SetCap(w.table, i, j, false)), w.table.edges[i].caps[j].name);
    if u.noActiveRemoval then w'
    else
      var t := RemoveCap(w'.table, i, j);
      if u.aggressive && |t.edges[i].caps| == 0 then w'.(table := RemoveEdge(t, i)) else w'.(table := t)
  }

  /** mqtt_publish_handler: messages about ourselves are ignored. */
  function Step(u: Setup, w: World, ev: Event): World {
    if ev.eui == u.ours then w
    else
      match ev
      case Announce(eui, subject) => ProcessCert(u, w, eui, subject)
      case Unannounce(eui, ourAddress) => OnUnannounce(u, w, eui, ourAddress)
      case CapabilityAdd(eui, name, cert) => OnCapabilityAdd(u, w, eui, name, cert)
      case CapabilityRemove(eui, name, cert) => OnCapabilityRemove(u, w, eui, name, cert)
  }

  /** app_state_init for every application, and an empty table. */
  function Start(apps: set<string>): World {
    World(Table([], {}, {}), map a | a in apps :: false)
  }

  function Run(u: Setup, apps: set<string>, events: seq<Event>): World {
    if |events| == 0 then Start(apps)
    else Step(u, Run(u, apps, events[..|events| - 1]), events[|events| - 1])
  }

  // ---------------------------------------------------------------------------
  // How table updates affect what is on offer.
  // ---------------------------------------------------------------------------

  ghost predicate OthersOffer(edges: seq<Edge>, i: nat, name: string) {
    exists k :: 0 <= k < |edges| && k != i && Offers(edges[k], name)
  }

  lemma OfferSplit(edges: seq<Edge>, i: nat, name: string)
    requires i < |edges|
    ensures HasActive(edges, name) <==> Offers(edges[i], name) || OthersOffer(edges, i, name)
  {
  }

  lemma OfferAfterSet(edges: seq<Edge>, i: nat, e: Edge, name: string)
    requires i < |edges|
    ensures HasActive(edges[i := e], name) <==> Offers(e, name) || OthersOffer(edges, i, name)
  {
    var r := edges[i := e];
    OfferSplit(r, i, name);
    if OthersOffer(edges, i, name) {
      var k :| 0 <= k < |edges| && k != i && Offers(edges[k], name);
      assert Offers(r[k], name);
    }
    if OthersOffer(r, i, name) {
      var k :| 0 <= k < |r| && k != i && Offers(r[k], name);
      assert Offers(edges[k], name);
    }
  }

  lemma OfferAfterRemove(edges: seq<Edge>, i: nat, name: string)
    requires i < |edges|
    ensures HasActive(RemoveAt(edges, i), name) <==> OthersOffer(edges, i, name)
  {
    var r := RemoveAt(edges, i);
    if OthersOffer(edges, i, name) {
      var k :| 0 <= k < |edges| && k != i && Offers(edges[k], name);
      assert r[if k < i then k else k - 1] == edges[k];
    }
    if HasActive(r, name) {
      var k :| 0 <= k < |r| && Offers(r[k], name);
      assert edges[if k < i then k else k + 1] == r[k];
    }
  }

  /** Adding an edge, evicting an inactive one if need be, changes nothing on offer. */
  lemma OfferAfterAddEdge(cfg: Config, t: Table, addr: nat, name: string)
    ensures HasActive(AddEdge(cfg, t, addr).0.edges, name) <==> HasActive(t.edges, name)
  {
    if FindEdge(t.edges, addr).None? {
      match FirstFree(t.edgeUsed, 0, cfg.numEdges)
      case Some(b) => OfferAfterPush(t, b, addr, name);
      case None =>
        var t' := FreeUpEdge(t);
        match FirstInactive(t.edges)
        case None =>
        case Some(i) =>
          OfferAfterRemove(t.edges, i, name);
          OfferSplit(t.edges, i, name);
        match FirstFree(t'.edgeUsed, 0, cfg.numEdges)
        case Some(b) => OfferAfterPush(t', b, addr, name);
        case None =>
    }
  }

  lemma OfferAfterPush(t: Table, b: nat, addr: nat, name: string)
    ensures HasActive(PushEdge(t, b, addr).edges, name) <==> HasActive(t.edges, name)
  {
    var r := PushEdge(t, b, addr).edges;
    OfferAfterRemove(r, 0, name);
    OfferSplit(r, 0, name);
    assert RemoveAt(r, 0) == t.edges;
  }

  lemma OfferAfterActivate(t: Table, eui: nat, name: string)
    ensures HasActive(t.edges, name) ==> HasActive(Activate(t, eui).edges, name)
  {
    match FindEdge(t.edges, eui)
    case None =>
    case Some(i) =>
      OfferSplit(t.edges, i, name);
      OfferAfterSet(t.edges, i, t.edges[i].(active := true), name);
  }

  lemma {:induction false} FindUnique(caps: seq<Cap>, j: nat)
    requires UniqueNames(caps) && j < |caps|
    ensures FindCap(caps, caps[j].name) == Some(j)
  {
    assert FindCap(caps, caps[j].name).Some?;
  }

  /** With unique names, an edge offers a capability exactly when it is active and lists it as active. */
  lemma OffersMeans(e: Edge, name: string)
    requires UniqueNames(e.caps)
    ensures Offers(e, name) <==> e.active && exists j :: 0 <= j < |e.caps| && e.caps[j].name == name && e.caps[j].active
  {
    if j :| 0 <= j < |e.caps| && e.caps[j].name == name && e.caps[j].active {
      FindUnique(e.caps, j);
    }
  }

  /** Switching capability `j` on or off only matters for its own name. */
  lemma OfferAfterSetCap(cfg: Config, t: Table, i: nat, j: nat, active: bool, name: string)
    requires TableOk(cfg, t) && i < |t.edges| && j < |t.edges[i].caps|
    ensures TableOk(cfg, SetCap(t, i, j, active))
    ensures name != t.edges[i].caps[j].name ==> (HasActive(SetCap(t, i, j, active).edges, name) <==> HasActive(t.edges, name))
    ensures !t.edges[i].active ==> (HasActive(SetCap(t, i, j, active).edges, name) <==> HasActive(t.edges, name))
  {
    var e := t.edges[i];
    var e' := e.(caps := e.caps[j := e.caps[j].(active := active)]);
    SetEdgeKeeps(cfg, t, i, e');
    OfferSplit(t.edges, i, name);
    OfferAfterSet(t.edges, i, e', name);
    assert UniqueNames(e.caps);
    OffersMeans(e, name);
    OffersMeans(e', name);
    if name != e.caps[j].name {
      assert forall k :: 0 <= k < |e.caps| && e.caps[k].name == name ==> e'.caps[k] == e.caps[k];
    }
  }

  /** Taking an inactive capability off a list changes nothing on offer. */
  lemma OfferAfterRemoveCap(cfg: Config, t: Table, i: nat, j: nat, name: string)
    requires TableOk(cfg, t) && i < |t.edges| && j < |t.edges[i].caps| && !t.edges[i].caps[j].active
    ensures HasActive(RemoveCap(t, i, j).edges, name) <==> HasActive(t.edges, name)
  {
    RemoveCapKeeps(cfg, t, i, j);
    var e := t.edges[i];
    var e' := e.(caps := RemoveAt(e.caps, j));
    OfferSplit(t.edges, i, name);
    OfferAfterSet(t.edges, i, e', name);
    assert RemoveCap(t, i, j).edges[i] == e';
    assert UniqueNames(e.caps) && UniqueNames(e'.caps);
    OffersMeans(e, name);
    OffersMeans(e', name);
    if k :| 0 <= k < |e.caps| && e.caps[k].name == name && e.caps[k].active {
      assert e'.caps[if k < j then k else k - 1] == e.caps[k];
    }
    if k :| 0 <= k < |e'.caps| && e'.caps[k].name == name && e'.caps[k].active {
      assert e.caps[if k < j then k else k + 1] == e'.caps[k];
    }
  }

  lemma OfferAfterAddCap(cfg: Config, t: Table, i: nat, name: string, other: string)
    requires TableOk(cfg, t) && i < |t.edges| && FindCap(t.edges[i].caps, name).None?
    ensures HasActive(AddCap(cfg, t, i, name).0.edges, other) <==> HasActive(t.edges, other)
  {
    if |t.edges[i].caps| < cfg.numCaps {
      QuotaImpliesSpace(cfg, t, i);
      AddCapKeeps(cfg, t, i, name);
      var b := FirstFree(t.capUsed, 0, cfg.CapCapacity()).value;
      var t' := PushCap(t, i, b, name);
      assert RemoveCap(t', i, 0).edges == t.edges by {
        assert RemoveAt(t'.edges[i].caps, 0) == t.edges[i].caps;
      }
      OfferAfterRemoveCap(cfg, t', i, 0, other);
    }
  }

  // ---------------------------------------------------------------------------
  // The invariant of every run.
  // ---------------------------------------------------------------------------

  /** An application that runs has an active edge that offers its active capability. */
  ghost predicate RunningOk(w: World) {
    forall a :: a in w.running && w.running[a] ==> HasActive(w.table.edges, a)
  }

  ghost predicate WorldOk(u: Setup, w: World) {
    TableOk(u.cfg, w.table) && RunningOk(w)
  }

  /** The flag equals what the table says. */
  ghost predicate Agrees(w: World, a: string) {
    a in w.running ==> (w.running[a] <==> HasActive(w.table.edges, a))
  }

  /** The flag was recomputed, or neither it nor what it summarises has changed. */
  ghost predicate Told(w: World, r: World, a: string)
    requires a in w.running && a in r.running
  {
    Agrees(r, a)
    || (r.running[a] == w.running[a] && (HasActive(r.table.edges, a) <==> HasActive(w.table.edges, a)))
  }

  lemma ActivateKeeps(cfg: Config, t: Table, eui: nat)
    requires TableOk(cfg, t)
    ensures TableOk(cfg, Activate(t, eui))
  {
    match FindEdge(t.edges, eui)
    case None =>
    case Some(i) => SetEdgeKeeps(cfg, t, i, t.edges[i].(active := true));
  }

  lemma ProcessCertKeeps(u: Setup, w: World, eui: nat, subject: nat)
    requires WorldOk(u, w)
    ensures WorldOk(u, ProcessCert(u, w, eui, subject))
  {
    AddEdgeKeeps(u.cfg, w.table, eui);
    var t := AddEdge(u.cfg, w.table, eui).0;
    ActivateKeeps(u.cfg, t, eui);
    forall a | a in w.running && w.running[a]
      ensures HasActive(ProcessCert(u, w, eui, subject).table.edges, a)
    {
      OfferAfterAddEdge(u.cfg, w.table, eui, a);
      OfferAfterActivate(t, eui, a);
    }
  }

  lemma MaybeCertKeeps(u: Setup, w: World, eui: nat, cert: Option<nat>)
    requires WorldOk(u, w)
    ensures WorldOk(u, MaybeCert(u, w, eui, cert))
  {
    if cert.Some? {
      ProcessCertKeeps(u, w, eui, cert.value);
    }
  }

  /**
   During the unannounce loop the edge is already inactive, so its capability flags do not matter:
   each application named from position j on ends up agreeing with the table, and the table offers
   the same throughout.
   */
  lemma {:induction false} SwitchOffAgrees(u: Setup, w: World, i: nat, j: nat)
    requires TableOk(u.cfg, w.table) && i < |w.table.edges| && !w.table.edges[i].active
    ensures var r := SwitchOff(w, i, j);
            && TableOk(u.cfg, r.table) && |r.table.edges[i].caps| == |w.table.edges[i].caps|
            && !r.table.edges[i].active && r.running.Keys == w.running.Keys
            && (forall a :: HasActive(r.table.edges, a) <==> HasActive(w.table.edges, a))
            && (forall a :: a in w.running ==> r.running[a] == w.running[a] || Agrees(r, a))
            && (forall k :: j <= k < |w.table.edges[i].caps| ==> Agrees(r, w.table.edges[i].caps[k].name))
    decreases |w.table.edges[i].caps| - j
  {
    if j < |w.table.edges[i].caps| {
      var name := w.table.edges[i].caps[j].name;
      var t := SetCap(w.table, i, j, false);
      forall a
        ensures HasActive(t.edges, a) <==> HasActive(w.table.edges, a)
      {
        OfferAfterSetCap(u.cfg, w.table, i, j, false, a);
      }
      OfferAfterSetCap(u.cfg, w.table, i, j, false, name);
      var w' := Post(w.(table := t), name);
      assert forall k :: 0 <= k < |t.edges[i].caps| ==> t.edges[i].caps[k].name == w.table.edges[i].caps[k].name;
      SwitchOffAgrees(u, w', i, j + 1);
      var r := SwitchOff(w, i, j);
      assert r == SwitchOff(w', i, j + 1);
      assert Agrees(w', name);
      assert Agrees(r, name);
    }
  }

  lemma ClearCapsKeeps(cfg: Config, t: Table, i: nat, name: string)
    requires TableOk(cfg, t) && i < |t.edges| && !t.edges[i].active
    ensures TableOk(cfg, ClearCaps(t, i))
    ensures HasActive(ClearCaps(t, i).edges, name) <==> HasActive(t.edges, name)
  {
    var e := t.edges[i].(caps := []);
    forall b: nat
      ensures (if b in t.capUsed - BlockSet(t.edges[i].caps) then 1 else 0) + Uses(t.edges[i].caps, b)
           == (if b in t.capUsed then 1 else 0) + Uses(e.caps, b)
    {
      OwnBlocks(t.edges, i, b);
      UsesMembers(t.edges[i].caps, b);
    }
    ReplaceEdge(cfg, t, i, e, t.capUsed - BlockSet(t.edges[i].caps));
    OfferSplit(t.edges, i, name);
    OfferAfterSet(t.edges, i, e, name);
  }

  /** After an unannounce the table no longer counts the edge, and every affected flag was recomputed. */
  lemma UnannounceAgrees(u: Setup, w: World, eui: nat, ourAddress: bool)
    requires TableOk(u.cfg, w.table)
    ensures var r := OnUnannounce(u, w, eui, ourAddress);
            TableOk(u.cfg, r.table) && r.running.Keys == w.running.Keys
            && forall a :: a in w.running ==> Told(w, r, a)
  {
    if !ourAddress && FindEdge(w.table.edges, eui).Some? {
      var i := FindEdge(w.table.edges, eui).value;
      var e := w.table.edges[i];
      var t1 := SetEdge(w.table, i, e.(active := false));
      SetEdgeKeeps(u.cfg, w.table, i, e.(active := false));
      var w1 := w.(table := t1);
      SwitchOffAgrees(u, w1, i, 0);
      var w2 := SwitchOff(w1, i, 0);
      var r := OnUnannounce(u, w, eui, ourAddress);
      UnannounceCleanup(u, w2, i, "");
      forall a
        ensures HasActive(r.table.edges, a) <==> HasActive(w2.table.edges, a)
      {
        UnannounceCleanup(u, w2, i, a);
      }
      forall a | a in w.running
        ensures Told(w, r, a)
      {
        OfferSplit(w.table.edges, i, a);
        OfferAfterSet(w.table.edges, i, e.(active := false), a);
        if Offers(e, a) {
          var j := FindCap(e.caps, a).value;
          assert t1.edges[i].caps[j].name == a;
          assert Agrees(w2, a);
        }
      }
    }
  }

  lemma UnannounceCleanup(u: Setup, w: World, i: nat, name: string)
    requires TableOk(u.cfg, w.table) && i < |w.table.edges| && !w.table.edges[i].active
    ensures var t := ClearCaps(w.table, i);
            && TableOk(u.cfg, t) && TableOk(u.cfg, RemoveEdge(t, i))
            && (HasActive(t.edges, name) <==> HasActive(w.table.edges, name))
            && (HasActive(RemoveEdge(t, i).edges, name) <==> HasActive(w.table.edges, name))
  {
    var t := ClearCaps(w.table, i);
    ClearCapsKeeps(u.cfg, w.table, i, name);
    RemoveEdgeKeeps(u.cfg, t, i);
    OfferAfterRemove(t.edges, i, name);
    OfferSplit(t.edges, i, name);
  }

  /** Switching one capability and telling its application leaves every other flag as right as it was. */
  lemma SetAndPost(u: Setup, w: World, i: nat, j: nat, active: bool)
    requires TableOk(u.cfg, w.table) && i < |w.table.edges| && j < |w.table.edges[i].caps|
    ensures var r := Post(w.(table := SetCap(w.table, i, j, active)), w.table.edges[i].caps[j].name);
            TableOk(u.cfg, r.table) && r.running.Keys == w.running.Keys
            && forall a :: a in w.running ==> Told(w, r, a)
  {
    var name := w.table.edges[i].caps[j].name;
    var r := Post(w.(table := SetCap(w.table, i, j, active)), name);
    OfferAfterSetCap(u.cfg, w.table, i, j, active, name);
    forall a | a != name
      ensures HasActive(r.table.edges, a) <==> HasActive(w.table.edges, a)
    {
      OfferAfterSetCap(u.cfg, w.table, i, j, active, a);
    }
    assert Agrees(r, name);
  }

  lemma OfferCapabilityAgrees(u: Setup, w: World, i: nat, name: string)
    requires TableOk(u.cfg, w.table) && i < |w.table.edges|
    ensures var r := OfferCapability(u, w, i, name);
            TableOk(u.cfg, r.table) && r.running.Keys == w.running.Keys
            && forall a :: a in w.running ==> Told(w, r, a)
  {
    match FindCap(w.table.edges[i].caps, name)
    case Some(j) =>
      if !w.table.edges[i].caps[j].active {
        SetAndPost(u, w, i, j, true);
      }
    case None =>
      var t := AddCap(u.cfg, w.table, i, name).0;
      AddCapKeeps(u.cfg, w.table, i, name);
      forall a
        ensures HasActive(t.edges, a) <==> HasActive(w.table.edges, a)
      {
        OfferAfterAddCap(u.cfg, w.table, i, name, a);
      }
      if i < |t.edges| && FindCap(t.edges[i].caps, name).Some? {
        SetAndPost(u, w.(table := t), i, FindCap(t.edges[i].caps, name).value, true);
      }
  }

  lemma WithdrawCapabilityAgrees(u: Setup, w: World, i: nat, j: nat)
    requires TableOk(u.cfg, w.table) && i < |w.table.edges| && j < |w.table.edges[i].caps|
    ensures var r := WithdrawCapability(u, w, i, j);
            TableOk(u.cfg, r.table) && r.running.Keys == w.running.Keys
            && forall a :: a in w.running ==> Told(w, r, a)
  {
    SetAndPost(u, w, i, j, false);
    var w' := Post(w.(table := SetCap(w.table, i, j, false)), w.table.edges[i].caps[j].name);
    var r := WithdrawCapability(u, w, i, j);
    WithdrawCleanup(u, w', i, j, "");
    forall a
      ensures HasActive(r.table.edges, a) <==> HasActive(w'.table.edges, a)
    {
      WithdrawCleanup(u, w', i, j, a);
    }
  }

  lemma WithdrawCleanup(u: Setup, w: World, i: nat, j: nat, name: string)
    requires TableOk(u.cfg, w.table) && i < |w.table.edges| && j < |w.table.edges[i].caps|
    requires !w.table.edges[i].caps[j].active
    ensures var t := RemoveCap(w.table, i, j);
            && TableOk(u.cfg, t) && (HasActive(t.edges, name) <==> HasActive(w.table.edges, name))
            && (|t.edges[i].caps| == 0 ==>
                  TableOk(u.cfg, RemoveEdge(t, i))
                  && (HasActive(RemoveEdge(t, i).edges, name) <==> HasActive(w.table.edges, name)))
  {
    var t := RemoveCap(w.table, i, j);
    RemoveCapKeeps(u.cfg, w.table, i, j);
    OfferAfterRemoveCap(u.cfg, w.table, i, j, name);
    if |t.edges[i].caps| == 0 {
      RemoveEdgeKeeps(u.cfg, t, i);
      OfferAfterRemove(t.edges, i, name);
      OfferSplit(t.edges, i, name);
    }
  }

  lemma ToldKeeps(w: World, r: World)
    requires RunningOk(w) && r.running.Keys == w.running.Keys && forall a :: a in w.running ==> Told(w, r, a)
    ensures RunningOk(r)
  {
    forall a | a in r.running && r.running[a]
      ensures HasActive(r.table.edges, a)
    {
      assert Told(w, r, a);
    }
  }

  /** The edge the add handler works on: found, or created and switched on. */
  lemma EnsureEdge(u: Setup, w: World, eui: nat)
    requires WorldOk(u, w) && FindEdge(w.table.edges, eui).None?
    ensures var (t, ok) := AddEdge(u.cfg, w.table, eui);
            && WorldOk(u, w.(table := t)) && WorldOk(u, w.(table := Activate(t, eui)))
            && (ok ==> forall a :: HasActive(Activate(t, eui).edges, a) <==> HasActive(w.table.edges, a))
            && forall a :: HasActive(t.edges, a) <==> HasActive(w.table.edges, a)
  {
    var (t, ok) := AddEdge(u.cfg, w.table, eui);
    AddEdgeKeeps(u.cfg, w.table, eui);
    ActivateKeeps(u.cfg, t, eui);
    forall a
      ensures HasActive(t.edges, a) <==> HasActive(w.table.edges, a)
      ensures HasActive(t.edges, a) ==> HasActive(Activate(t, eui).edges, a)
      ensures ok ==> (HasActive(Activate(t, eui).edges, a) <==> HasActive(w.table.edges, a))
    {
      OfferAfterAddEdge(u.cfg, w.table, eui, a);
      OfferAfterActivate(t, eui, a);
      if ok {
        assert FindEdge(t.edges, eui) == Some(0) && t.edges[0].caps == [];
        OfferSplit(t.edges, 0, a);
        OfferAfterSet(t.edges, 0, t.edges[0].(active := true), a);
      }
    }
  }

  lemma CapabilityAddKeeps(u: Setup, w: World, eui: nat, name: string, cert: Option<nat>)
    requires WorldOk(u, w)
    ensures WorldOk(u, OnCapabilityAdd(u, w, eui, name, cert))
  {
    MaybeCertKeeps(u, w, eui, cert);
    var w1 := MaybeCert(u, w, eui, cert);
    var w2 := w1;
    if FindEdge(w1.table.edges, eui).None? {
      EnsureEdge(u, w1, eui);
      var (t, ok) := AddEdge(u.cfg, w1.table, eui);
      w2 := w1.(table := if ok then Activate(t, eui) else t);
    }
    if FindEdge(w2.table.edges, eui).Some? {
      var i := FindEdge(w2.table.edges, eui).value;
      OfferCapabilityAgrees(u, w2, i, name);
      ToldKeeps(w2, OfferCapability(u, w2, i, name));
    }
  }

  lemma CapabilityRemoveKeeps(u: Setup, w: World, eui: nat, name: string, cert: Option<nat>)
    requires WorldOk(u, w)
    ensures WorldOk(u, OnCapabilityRemove(u, w, eui, name, cert))
  {
    MaybeCertKeeps(u, w, eui, cert);
    var w1 := MaybeCert(u, w, eui, cert);
    if FindEdge(w1.table.edges, eui).Some? {
      var i := FindEdge(w1.table.edges, eui).value;
      if FindCap(w1.table.edges[i].caps, name).Some? {
        var j := FindCap(w1.table.edges[i].caps, name).value;
        WithdrawCapabilityAgrees(u, w1, i, j);
        ToldKeeps(w1, WithdrawCapability(u, w1, i, j));
      }
    }
  }

  lemma StepKeeps(u: Setup, w: World, ev: Event)
    requires WorldOk(u, w)
    ensures WorldOk(u, Step(u, w, ev))
  {
    match ev
    case Announce(eui, subject) => ProcessCertKeeps(u, w, eui, subject);
    case Unannounce(eui, ourAddress) =>
      UnannounceAgrees(u, w, eui, ourAddress);
      ToldKeeps(w, OnUnannounce(u, w, eui, ourAddress));
    case CapabilityAdd(eui, name, cert) => CapabilityAddKeeps(u, w, eui, name, cert);
    case CapabilityRemove(eui, name, cert) => CapabilityRemoveKeeps(u, w, eui, name, cert);
  }

  /**
   After every run of the handlers, pools and lists agree, keys are unique, quotas hold, and every
   running application has an active edge that offers its capability.
   */
  lemma {:induction false} RunOk(u: Setup, apps: set<string>, events: seq<Event>)
    ensures WorldOk(u, Run(u, apps, events))
  {
    if |events| > 0 {
      RunOk(u, apps, events[..|events| - 1]);
      StepKeeps(u, Run(u, apps, events[..|events| - 1]), events[|events| - 1]);
    }
  }

  // ---------------------------------------------------------------------------
  // The converse: when does an active offer imply that the application runs?
  // ---------------------------------------------------------------------------

  ghost predicate AllAgree(w: World) {
    forall a :: a in w.running ==> Agrees(w, a)
  }

  /** A stopped application whose capability the edge would offer if it were active, and no active edge does. */
  ghost predicate MissedApp(w: World, i: nat, a: string)
    requires i < |w.table.edges|
  {
    a in w.running && !HasActive(w.table.edges, a) && Offers(w.table.edges[i].(active := true), a)
  }

  /** The certificate switches on a known edge and nothing tells an application that it could start. */
  ghost predicate MissedStart(u: Setup, w: World, eui: nat, subject: nat) {
    && eui == subject && subject != u.ours && FindEdge(w.table.edges, eui).Some?
    && exists a :: MissedApp(w, FindEdge(w.table.edges, eui).value, a)
  }

  /** Flags that agree with the table still do after a certificate, except exactly in that case. */
  lemma CertificateAgreesIff(u: Setup, w: World, eui: nat, subject: nat)
    requires WorldOk(u, w) && AllAgree(w)
    ensures AllAgree(ProcessCert(u, w, eui, subject)) <==> !MissedStart(u, w, eui, subject)
  {
    var r := ProcessCert(u, w, eui, subject);
    if eui == subject && subject != u.ours {
      match FindEdge(w.table.edges, eui)
      case None =>
        EnsureEdge(u, w, eui);
        forall a | a in r.running
          ensures Agrees(r, a)
        {
          assert Agrees(w, a);
        }
      case Some(i) =>
        forall a | a in w.running
          ensures Agrees(r, a) <==> !MissedApp(w, i, a)
        {
          ActivateAgreesIff(u, w, eui, i, a);
        }
    }
  }

  /** After an edge is switched on, exactly the missed applications disagree. */
  lemma ActivateAgreesIff(u: Setup, w: World, eui: nat, i: nat, a: string)
    requires WorldOk(u, w) && AllAgree(w) && eui != u.ours && FindEdge(w.table.edges, eui) == Some(i) && a in w.running
    ensures Agrees(ProcessCert(u, w, eui, eui), a) <==> !MissedApp(w, i, a)
  {
    var e := w.table.edges[i];
    assert Agrees(w, a);
    OfferSplit(w.table.edges, i, a);
    OfferAfterSet(w.table.edges, i, e.(active := true), a);
  }

  /** All other messages, those without a certificate, keep the flags in agreement. */
  lemma OtherMessagesAgree(u: Setup, w: World, ev: Event)
    requires WorldOk(u, w) && AllAgree(w)
    requires ev.Unannounce? || (ev.CapabilityAdd? && ev.cert.None?) || (ev.CapabilityRemove? && ev.cert.None?)
    ensures AllAgree(Step(u, w, ev))
  {
    if ev.eui != u.ours {
      match ev
      case Announce(_, _) =>
      case Unannounce(eui, ourAddress) =>
        UnannounceAgrees(u, w, eui, ourAddress);
        ToldAgrees(w, OnUnannounce(u, w, eui, ourAddress));
      case CapabilityAdd(eui, name, _) => AddAgrees(u, w, eui, name);
      case CapabilityRemove(eui, name, _) =>
        if FindEdge(w.table.edges, eui).Some? {
          var i := FindEdge(w.table.edges, eui).value;
          if FindCap(w.table.edges[i].caps, name).Some? {
            var j := FindCap(w.table.edges[i].caps, name).value;
            WithdrawCapabilityAgrees(u, w, i, j);
            ToldAgrees(w, WithdrawCapability(u, w, i, j));
          }
        }
    }
  }

  lemma ToldAgrees(w: World, r: World)
    requires AllAgree(w) && r.running.Keys == w.running.Keys && forall a :: a in w.running ==> Told(w, r, a)
    ensures AllAgree(r)
  {
    forall a | a in r.running
      ensures Agrees(r, a)
    {
      assert Told(w, r, a) && Agrees(w, a);
    }
  }

  lemma AddAgrees(u: Setup, w: World, eui: nat, name: string)
    requires WorldOk(u, w) && AllAgree(w)
    ensures AllAgree(OnCapabilityAdd(u, w, eui, name, None))
  {
    var w2 := w;
    if FindEdge(w.table.edges, eui).None? {
      EnsureEdge(u, w, eui);
      var (t, ok) := AddEdge(u.cfg, w.table, eui);
      w2 := w.(table := if ok then Activate(t, eui) else t);
      forall a | a in w2.running
        ensures Agrees(w2, a)
      {
        assert Agrees(w, a);
      }
    }
    if FindEdge(w2.table.edges, eui).Some? {
      var i := FindEdge(w2.table.edges, eui).value;
      OfferCapabilityAgrees(u, w2, i, name);
      ToldAgrees(w2, OfferCapability(u, w2, i, name));
    }
  }

  function CertOf(ev: Event): Option<nat> {
    match ev
    case Announce(_, subject) => Some(subject)
    case Unannounce(_, _) => None
    case CapabilityAdd(_, _, cert) => cert
    case CapabilityRemove(_, _, cert) => cert
  }

  /** The message brings a certificate that switches an edge on without telling an application it could start. */
  ghost predicate Misses(u: Setup, w: World, ev: Event) {
    ev.eui != u.ours && CertOf(ev).Some? && MissedStart(u, w, ev.eui, CertOf(ev).value)
  }

  /** A message with a certificate acts as the certificate alone and then the same message without it. */
  lemma CertificateFirst(u: Setup, w: World, ev: Event)
    requires ev.eui != u.ours && (ev.CapabilityAdd? || ev.CapabilityRemove?) && ev.cert.Some?
    ensures Step(u, w, ev) == Step(u, ProcessCert(u, w, ev.eui, ev.cert.value), ev.(cert := None))
  {
  }

  lemma StepAgrees(u: Setup, w: World, ev: Event)
    requires WorldOk(u, w) && AllAgree(w) && !Misses(u, w, ev)
    ensures AllAgree(Step(u, w, ev))
  {
    if ev.eui != u.ours {
      match CertOf(ev)
      case None => OtherMessagesAgree(u, w, ev);
      case Some(subject) =>
        CertificateAgreesIff(u, w, ev.eui, subject);
        ProcessCertKeeps(u, w, ev.eui, subject);
        if !ev.Announce? {
          CertificateFirst(u, w, ev);
          OtherMessagesAgree(u, ProcessCert(u, w, ev.eui, subject), ev.(cert := None));
        }
    }
  }

  /** Nothing has changed for the application: neither its flag nor what the flag summarises. */
  ghost predicate Untouched(w: World, r: World, a: string)
    requires a in w.running && a in r.running
  {
    r.running[a] == w.running[a] && (HasActive(r.table.edges, a) <==> HasActive(w.table.edges, a))
  }

  /** Offering a capability touches no other application. */
  lemma OfferLeavesOthers(u: Setup, w: World, i: nat, name: string, a: string)
    requires TableOk(u.cfg, w.table) && i < |w.table.edges| && a != name && a in w.running
    ensures a in OfferCapability(u, w, i, name).running && Untouched(w, OfferCapability(u, w, i, name), a)
  {
    match FindCap(w.table.edges[i].caps, name)
    case Some(j) => OfferAfterSetCap(u.cfg, w.table, i, j, true, a);
    case None =>
      var t := AddCap(u.cfg, w.table, i, name).0;
      AddCapKeeps(u.cfg, w.table, i, name);
      OfferAfterAddCap(u.cfg, w.table, i, name, a);
      if i < |t.edges| && FindCap(t.edges[i].caps, name).Some? {
        OfferAfterSetCap(u.cfg, t, i, FindCap(t.edges[i].caps, name).value, true, a);
      }
  }

  /** Withdrawing a capability corrects its own application's flag and touches no other. */
  lemma WithdrawTellsOne(u: Setup, w: World, i: nat, j: nat, a: string)
    requires TableOk(u.cfg, w.table) && i < |w.table.edges| && j < |w.table.edges[i].caps| && a in w.running
    ensures var r := WithdrawCapability(u, w, i, j);
            a in r.running && (if a == w.table.edges[i].caps[j].name then Agrees(r, a) else Untouched(w, r, a))
  {
    var name := w.table.edges[i].caps[j].name;
    var w' := Post(w.(table := SetCap(w.table, i, j, false)), name);
    OfferAfterSetCap(u.cfg, w.table, i, j, false, a);
    WithdrawCleanup(u, w', i, j, a);
  }

  /** A missed application stays missed when the same message then adds a capability. */
  lemma AddStillMisses(u: Setup, w: World, i: nat, name: string, a: string)
    requires TableOk(u.cfg, w.table) && i < |w.table.edges| && a in w.running
    requires !Agrees(w, a) && Offers(w.table.edges[i], a)
    ensures a in OfferCapability(u, w, i, name).running && !Agrees(OfferCapability(u, w, i, name), a)
  {
    if a != name {
      OfferLeavesOthers(u, w, i, name, a);
    }
  }

  /** A removal that corrects the flags: the capability removed is the only one that was missed. */
  ghost predicate RemovalRepairs(w: World, ev: Event)
    requires FindEdge(w.table.edges, ev.eui).Some?
  {
    ev.CapabilityRemove? && forall a :: MissedApp(w, FindEdge(w.table.edges, ev.eui).value, a) ==> a == ev.name
  }

  /** The message leaves some flag in disagreement with the table. */
  ghost predicate Loses(u: Setup, w: World, ev: Event) {
    Misses(u, w, ev) && !RemovalRepairs(w, ev)
  }

  lemma RemoveAgreesIff(u: Setup, w: World, ev: Event, i: nat)
    requires WorldOk(u, w) && AllAgree(w) && ev.CapabilityRemove? && Misses(u, w, ev)
    requires FindEdge(w.table.edges, ev.eui) == Some(i)
    ensures AllAgree(Step(u, w, ev)) <==> RemovalRepairs(w, ev)
  {
    var w1 := ProcessCert(u, w, ev.eui, ev.eui);
    var r := Step(u, w, ev);
    ProcessCertKeeps(u, w, ev.eui, ev.eui);
    CertificateFirst(u, w, ev);
    ActivateKeepsPlace(w.table, ev.eui, i);
    var caps := w.table.edges[i].caps;
    forall a | a in w.running
      ensures a in r.running
      ensures Agrees(r, a) <==> !MissedApp(w, i, a) || (a == ev.name && FindCap(caps, a).Some?)
    {
      ActivateAgreesIff(u, w, ev.eui, i, a);
      if FindCap(caps, ev.name).Some? {
        WithdrawTellsOne(u, w1, i, FindCap(caps, ev.name).value, a);
      }
    }
    assert forall a :: a in r.running ==> a in w.running;
  }

  /** Switching an edge on moves nothing in the list. */
  lemma ActivateKeepsPlace(t: Table, eui: nat, i: nat)
    requires FindEdge(t.edges, eui) == Some(i)
    ensures Activate(t, eui).edges == t.edges[i := t.edges[i].(active := true)]
    ensures FindEdge(Activate(t, eui).edges, eui) == Some(i)
  {
    SameAddresses(t.edges, Activate(t, eui).edges, eui);
  }

  lemma {:induction false} SameAddresses(a: seq<Edge>, b: seq<Edge>, addr: nat)
    requires |a| == |b| && forall k :: 0 <= k < |a| ==> a[k].addr == b[k].addr
    ensures FindEdge(a, addr) == FindEdge(b, addr)
  {
    if |a| > 0 {
      SameAddresses(a[1..], b[1..], addr);
    }
  }

  /**
   Flags that agree with the table still do after a message, if and only if it brings no certificate
   that lets an application miss its start, or is a removal of the one capability that was missed.
   */
  lemma StepAgreesIff(u: Setup, w: World, ev: Event)
    requires WorldOk(u, w) && AllAgree(w)
    ensures AllAgree(Step(u, w, ev)) <==> !Loses(u, w, ev)
  {
    if !Misses(u, w, ev) {
      StepAgrees(u, w, ev);
    } else {
      var i := FindEdge(w.table.edges, ev.eui).value;
      match ev
      case Announce(eui, subject) => CertificateAgreesIff(u, w, eui, subject);
      case CapabilityRemove(_, _, _) => RemoveAgreesIff(u, w, ev, i);
      case CapabilityAdd(_, name, _) => AddLoses(u, w, ev, i);
    }
  }

  lemma AddLoses(u: Setup, w: World, ev: Event, i: nat)
    requires WorldOk(u, w) && AllAgree(w) && ev.CapabilityAdd? && Misses(u, w, ev)
    requires FindEdge(w.table.edges, ev.eui) == Some(i)
    ensures !AllAgree(Step(u, w, ev))
  {
    var a :| MissedApp(w, i, a);
    var w1 := ProcessCert(u, w, ev.eui, ev.eui);
    ProcessCertKeeps(u, w, ev.eui, ev.eui);
    CertificateFirst(u, w, ev);
    ActivateKeepsPlace(w.table, ev.eui, i);
    ActivateAgreesIff(u, w, ev.eui, i, a);
    AddStillMisses(u, w1, i, ev.name, a);
  }

  /** Along a run the flags agree with the table at every point if and only if no message loses agreement. */
  lemma RunAgreesIff(u: Setup, apps: set<string>, events: seq<Event>)
    ensures (forall k :: 0 <= k <= |events| ==> AllAgree(Run(u, apps, events[..k]))) <==>
            (forall k :: 0 <= k < |events| ==> !Loses(u, Run(u, apps, events[..k]), events[k]))
  {
    if forall k :: 0 <= k <= |events| ==> AllAgree(Run(u, apps, events[..k])) {
      forall k | 0 <= k < |events|
        ensures !Loses(u, Run(u, apps, events[..k]), events[k])
      {
        PrefixStep(u, apps, events, k);
        StepAgreesIff(u, Run(u, apps, events[..k]), events[k]);
      }
    }
    if forall k :: 0 <= k < |events| ==> !Loses(u, Run(u, apps, events[..k]), events[k]) {
      forall k | 0 <= k <= |events|
        ensures AllAgree(Run(u, apps, events[..k]))
      {
        AgreesUpTo(u, apps, events, k);
      }
    }
  }

  lemma PrefixStep(u: Setup, apps: set<string>, events: seq<Event>, k: nat)
    requires k < |events|
    ensures Run(u, apps, events[..k + 1]) == Step(u, Run(u, apps, events[..k]), events[k])
    ensures WorldOk(u, Run(u, apps, events[..k])) && AllAgree(Run(u, apps, []))
  {
    assert events[..k + 1][..k] == events[..k];
    RunOk(u, apps, events[..k]);
  }

  lemma {:induction false} AgreesUpTo(u: Setup, apps: set<string>, events: seq<Event>, k: nat)
    requires k <= |events|
    requires forall i :: 0 <= i < |events| ==> !Loses(u, Run(u, apps, events[..i]), events[i])
    ensures AllAgree(Run(u, apps, events[..k]))
    decreases k
  {
    if k > 0 {
      AgreesUpTo(u, apps, events, k - 1);
      PrefixStep(u, apps, events, k - 1);
      StepAgreesIff(u, Run(u, apps, events[..k - 1]), events[k - 1]);
    }
  }

  /**
   A run that loses the converse: an edge is announced and unannounced, adds a capability while it is
   inactive, and is announced again. It then offers the capability, and the application does not run.
   */
  lemma ConverseFailsInARun(u: Setup)
    requires u == Setup(Config(4, 3), 0, false, false)
    ensures var w1 := Step(u, Start({"app"}), Announce(1, 1));
            var w2 := Step(u, w1, Unannounce(1, false));
            var w3 := Step(u, w2, CapabilityAdd(1, "app", None));
            var w4 := Step(u, w3, Announce(1, 1));
            HasActive(w4.table.edges, "app") && "app" in w4.running && !w4.running["app"]
  {
    var e := Edge(0, 1, true, []);
    var w0 := Start({"app"});
    var w1 := Step(u, w0, Announce(1, 1));
    assert FirstFree({}, 0, 4) == Some(0);
    assert w1.table == Table([e], {0}, {});
    var off := e.(active := false);
    var w2 := Step(u, w1, Unannounce(1, false));
    assert FindEdge([e], 1) == Some(0);
    assert [e][0 := off] == [off];
    assert BlockSet([]) == {};
    assert w2.table == Table([off], {0}, {}) && w2.running == w0.running;
    var listed := off.(caps := [Cap(0, "app", true)]);
    var w3 := Step(u, w2, CapabilityAdd(1, "app", None));
    assert FindEdge([off], 1) == Some(0) && FindCap([], "app") == None;
    assert FirstFree({}, 0, u.cfg.CapCapacity()) == Some(0);
    var added := off.(caps := [Cap(0, "app", false)]);
    assert [Cap(0, "app", false)] + [] == [Cap(0, "app", false)] && [off][0 := added] == [added];
    assert AddCap(u.cfg, w2.table, 0, "app") == (Table([added], {0}, {0}), true);
    assert FindCap(added.caps, "app") == Some(0);
    assert added.caps[0 := Cap(0, "app", true)] == listed.caps && [added][0 := listed] == [listed];
    assert SetCap(Table([added], {0}, {0}), 0, 0, true) == Table([listed], {0}, {0});
    assert w3.table == Table([listed], {0}, {0}) && !w3.running["app"];
    var w4 := Step(u, w3, Announce(1, 1));
    assert FindEdge([listed], 1) == Some(0);
    assert w4.table.edges == [listed.(active := true)];
    assert FindCap(listed.caps, "app") == Some(0);
    assert Offers(w4.table.edges[0], "app");
  }

  // ---------------------------------------------------------------------------
  // No active edge is ever evicted.
  // ---------------------------------------------------------------------------

  ghost predicate Present(edges: seq<Edge>, block: nat, addr: nat) {
    exists k :: 0 <= k < |edges| && edges[k].addr == addr && edges[k].block == block && edges[k].active
  }

  lemma PresentAfterSet(edges: seq<Edge>, i: nat, e: Edge, block: nat, addr: nat)
    requires i < |edges| && Present(edges, block, addr)
    requires edges[i].addr == addr ==> e.addr == addr && e.block == edges[i].block && (edges[i].active ==> e.active)
    ensures Present(edges[i := e], block, addr)
  {
    var k :| 0 <= k < |edges| && edges[k].addr == addr && edges[k].block == block && edges[k].active;
    var r := edges[i := e];
    assert k == i ==> r[k] == e;
    assert k != i ==> r[k] == edges[k];
  }

  lemma PresentAfterRemove(edges: seq<Edge>, i: nat, block: nat, addr: nat)
    requires i < |edges| && Present(edges, block, addr) && (edges[i].addr != addr || !edges[i].active)
    ensures Present(RemoveAt(edges, i), block, addr)
  {
    var k :| 0 <= k < |edges| && edges[k].addr == addr && edges[k].block == block && edges[k].active;
    assert RemoveAt(edges, i)[if k < i then k else k - 1] == edges[k];
  }

  lemma PresentAfterAdd(cfg: Config, t: Table, eui: nat, block: nat, addr: nat)
    requires Present(t.edges, block, addr)
    ensures Present(AddEdge(cfg, t, eui).0.edges, block, addr)
  {
    if FindEdge(t.edges, eui).None? {
      var t' := t;
      if FirstFree(t.edgeUsed, 0, cfg.numEdges).None? && FirstInactive(t.edges).Some? {
        PresentAfterRemove(t.edges, FirstInactive(t.edges).value, block, addr);
        t' := FreeUpEdge(t);
      }
      var k :| 0 <= k < |t'.edges| && t'.edges[k].addr == addr && t'.edges[k].block == block && t'.edges[k].active;
      var r := AddEdge(cfg, t, eui).0.edges;
      assert r == t'.edges || r[k + 1] == t'.edges[k];
    }
  }

  lemma PresentAfterActivate(t: Table, eui: nat, block: nat, addr: nat)
    requires Present(t.edges, block, addr)
    ensures Present(Activate(t, eui).edges, block, addr)
  {
    if FindEdge(t.edges, eui).Some? {
      var i := FindEdge(t.edges, eui).value;
      PresentAfterSet(t.edges, i, t.edges[i].(active := true), block, addr);
    }
  }

  lemma PresentAfterCert(u: Setup, w: World, eui: nat, cert: Option<nat>, block: nat, addr: nat)
    requires Present(w.table.edges, block, addr)
    ensures Present(MaybeCert(u, w, eui, cert).table.edges, block, addr)
  {
    if cert.Some? {
      PresentAfterAdd(u.cfg, w.table, eui, block, addr);
      PresentAfterActivate(AddEdge(u.cfg, w.table, eui).0, eui, block, addr);
    }
  }

  lemma PresentAfterOffer(u: Setup, w: World, i: nat, name: string, block: nat, addr: nat)
    requires TableOk(u.cfg, w.table) && i < |w.table.edges| && Present(w.table.edges, block, addr)
    ensures Present(OfferCapability(u, w, i, name).table.edges, block, addr)
  {
    var e := w.table.edges[i];
    match FindCap(e.caps, name)
    case Some(j) =>
      PresentAfterSet(w.table.edges, i, e.(caps := e.caps[j := e.caps[j].(active := true)]), block, addr);
    case None =>
      if |e.caps| < u.cfg.numCaps {
        QuotaImpliesSpace(u.cfg, w.table, i);
        var b := FirstFree(w.table.capUsed, 0, u.cfg.CapCapacity()).value;
        var e1 := e.(caps := [Cap(b, name, false)] + e.caps);
        PresentAfterSet(w.table.edges, i, e1, block, addr);
        var t := PushCap(w.table, i, b, name);
        assert t.edges[i] == e1;
        if FindCap(e1.caps, name).Some? {
          var j := FindCap(e1.caps, name).value;
          PresentAfterSet(t.edges, i, e1.(caps := e1.caps[j := e1.caps[j].(active := true)]), block, addr);
        }
      }
  }

  lemma {:induction false} PresentAfterSwitchOff(w: World, i: nat, j: nat, block: nat, addr: nat)
    requires i < |w.table.edges| && w.table.edges[i].addr != addr && Present(w.table.edges, block, addr)
    ensures Present(SwitchOff(w, i, j).table.edges, block, addr)
    ensures SwitchOff(w, i, j).table.edges[i].addr == w.table.edges[i].addr
    decreases |w.table.edges[i].caps| - j
  {
    if j < |w.table.edges[i].caps| {
      var e := w.table.edges[i];
      PresentAfterSet(w.table.edges, i, e.(caps := e.caps[j := e.caps[j].(active := false)]), block, addr);
      PresentAfterSwitchOff(Post(w.(table := SetCap(w.table, i, j, false)), e.caps[j].name), i, j + 1, block, addr);
    }
  }

  lemma PresentAfterUnannounce(u: Setup, w: World, eui: nat, ourAddress: bool, block: nat, addr: nat)
    requires Present(w.table.edges, block, addr) && eui != addr
    ensures Present(OnUnannounce(u, w, eui, ourAddress).table.edges, block, addr)
  {
    if !ourAddress && FindEdge(w.table.edges, eui).Some? {
      var i := FindEdge(w.table.edges, eui).value;
      PresentAfterSet(w.table.edges, i, w.table.edges[i].(active := false), block, addr);
      var w1 := w.(table := SetEdge(w.table, i, w.table.edges[i].(active := false)));
      PresentAfterSwitchOff(w1, i, 0, block, addr);
      var t := SwitchOff(w1, i, 0).table;
      PresentAfterSet(t.edges, i, t.edges[i].(caps := []), block, addr);
      PresentAfterRemove(ClearCaps(t, i).edges, i, block, addr);
    }
  }

  lemma PresentAfterWithdraw(u: Setup, w: World, i: nat, j: nat, block: nat, addr: nat)
    requires i < |w.table.edges| && j < |w.table.edges[i].caps|
    requires Present(w.table.edges, block, addr) && w.table.edges[i].addr != addr
    ensures Present(WithdrawCapability(u, w, i, j).table.edges, block, addr)
  {
    var e := w.table.edges[i];
    PresentAfterSet(w.table.edges, i, e.(caps := e.caps[j := e.caps[j].(active := false)]), block, addr);
    var t := SetCap(w.table, i, j, false);
    PresentAfterSet(t.edges, i, t.edges[i].(caps := RemoveAt(t.edges[i].caps, j)), block, addr);
    PresentAfterRemove(RemoveCap(t, i, j).edges, i, block, addr);
  }

  lemma PresentAfterCapabilityAdd(u: Setup, w: World, eui: nat, name: string, cert: Option<nat>, block: nat, addr: nat)
    requires WorldOk(u, w) && Present(w.table.edges, block, addr)
    ensures Present(OnCapabilityAdd(u, w, eui, name, cert).table.edges, block, addr)
  {
    PresentAfterCert(u, w, eui, cert, block, addr);
    MaybeCertKeeps(u, w, eui, cert);
    var w1 := MaybeCert(u, w, eui, cert);
    var w2 := w1;
    if FindEdge(w1.table.edges, eui).None? {
      EnsureEdge(u, w1, eui);
      var (t, ok) := AddEdge(u.cfg, w1.table, eui);
      PresentAfterAdd(u.cfg, w1.table, eui, block, addr);
      PresentAfterActivate(t, eui, block, addr);
      w2 := w1.(table := if ok then Activate(t, eui) else t);
    }
    if FindEdge(w2.table.edges, eui).Some? {
      PresentAfterOffer(u, w2, FindEdge(w2.table.edges, eui).value, name, block, addr);
    }
  }

  lemma NotPresent(edges: seq<Edge>, i: nat, block: nat, addr: nat)
    requires UniqueAddrs(edges) && i < |edges| && edges[i].addr == addr
    ensures !edges[i].active ==> !Present(edges, block, addr)
    ensures !Present(RemoveAt(edges, i), block, addr)
  {
    var r := RemoveAt(edges, i);
    forall k | 0 <= k < |r|
      ensures r[k].addr != addr
    {
      assert r[k] == edges[if k < i then k else k + 1];
    }
  }

  lemma {:induction false} SwitchOffKeepsAddr(w: World, i: nat, j: nat)
    requires i < |w.table.edges|
    ensures SwitchOff(w, i, j).table.edges[i].addr == w.table.edges[i].addr
    decreases |w.table.edges[i].caps| - j
  {
    if j < |w.table.edges[i].caps| {
      var name := w.table.edges[i].caps[j].name;
      SwitchOffKeepsAddr(Post(w.(table := SetCap(w.table, i, j, false)), name), i, j + 1);
    }
  }

  /** An unannounced edge is switched off or gone, whatever the build options. */
  lemma AbsentAfterUnannounce(u: Setup, w: World, i: nat, block: nat, addr: nat)
    requires WorldOk(u, w) && FindEdge(w.table.edges, addr) == Some(i)
    ensures !Present(OnUnannounce(u, w, addr, false).table.edges, block, addr)
  {
    var off := w.table.edges[i].(active := false);
    SetEdgeKeeps(u.cfg, w.table, i, off);
    var w1 := w.(table := SetEdge(w.table, i, off));
    SwitchOffAgrees(u, w1, i, 0);
    SwitchOffKeepsAddr(w1, i, 0);
    var w2 := SwitchOff(w1, i, 0);
    NotPresent(w2.table.edges, i, block, addr);
    UnannounceCleanup(u, w2, i, "");
    NotPresent(ClearCaps(w2.table, i).edges, i, block, addr);
  }

  /** A withdrawal removes the edge only in an aggressive build, and only with its last capability. */
  lemma WithdrawOwn(u: Setup, w: World, i: nat, j: nat, block: nat, addr: nat)
    requires TableOk(u.cfg, w.table) && i < |w.table.edges| && j < |w.table.edges[i].caps|
    requires Present(w.table.edges, block, addr) && w.table.edges[i].addr == addr
    ensures Present(WithdrawCapability(u, w, i, j).table.edges, block, addr) <==>
            !(!u.noActiveRemoval && u.aggressive && |w.table.edges[i].caps| == 1)
  {
    var e := w.table.edges[i];
    var t := SetCap(w.table, i, j, false);
    OfferAfterSetCap(u.cfg, w.table, i, j, false, "");
    PresentAfterSet(w.table.edges, i, e.(caps := e.caps[j := e.caps[j].(active := false)]), block, addr);
    PresentAfterSet(t.edges, i, t.edges[i].(caps := RemoveAt(t.edges[i].caps, j)), block, addr);
    RemoveCapKeeps(u.cfg, t, i, j);
    NotPresent(RemoveCap(t, i, j).edges, i, block, addr);
  }

  /** The messages that take an active edge off the table or switch it off. */
  ghost predicate Departs(u: Setup, w: World, ev: Event, addr: nat) {
    && ev.eui == addr && addr != u.ours
    && (|| (ev.Unannounce? && !ev.ourAddress)
        || (&& ev.CapabilityRemove? && !u.noActiveRemoval && u.aggressive && FindEdge(w.table.edges, addr).Some?
            && var caps := w.table.edges[FindEdge(w.table.edges, addr).value].caps;
               |caps| == 1 && caps[0].name == ev.name))
  }

  lemma PresentIsFound(edges: seq<Edge>, block: nat, addr: nat) returns (i: nat)
    requires Present(edges, block, addr)
    ensures FindEdge(edges, addr) == Some(i)
  {
    i := FindEdge(edges, addr).value;
  }

  lemma RemoveOwn(u: Setup, w: World, ev: Event, i: nat, block: nat, addr: nat)
    requires WorldOk(u, w) && Present(w.table.edges, block, addr) && FindEdge(w.table.edges, addr) == Some(i)
    requires ev.CapabilityRemove? && ev.eui == addr != u.ours
    ensures Present(Step(u, w, ev).table.edges, block, addr) <==> !Departs(u, w, ev, addr)
  {
    var w1 := MaybeCert(u, w, addr, ev.cert);
    PresentAfterCert(u, w, addr, ev.cert, block, addr);
    MaybeCertKeeps(u, w, addr, ev.cert);
    ActivateKeepsPlace(w.table, addr, i);
    assert FindEdge(w1.table.edges, addr) == Some(i) && w1.table.edges[i].caps == w.table.edges[i].caps;
    var caps := w.table.edges[i].caps;
    if FindCap(caps, ev.name).Some? {
      WithdrawOwn(u, w1, i, FindCap(caps, ev.name).value, block, addr);
    }
  }

  /**
   An active edge keeps its block and stays active through a message if and only if that is not its
   own unannouncement, nor, in an aggressive build, the removal of its last capability: eviction only
   ever takes inactive edges.
   */
  lemma ActiveEdgesStay(u: Setup, w: World, ev: Event, block: nat, addr: nat)
    requires WorldOk(u, w) && Present(w.table.edges, block, addr)
    ensures Present(Step(u, w, ev).table.edges, block, addr) <==> !Departs(u, w, ev, addr)
  {
    var i := PresentIsFound(w.table.edges, block, addr);
    if ev.eui != u.ours {
      match ev
      case Announce(eui, subject) => PresentAfterCert(u, w, eui, Some(subject), block, addr);
      case CapabilityAdd(eui, name, cert) => PresentAfterCapabilityAdd(u, w, eui, name, cert, block, addr);
      case Unannounce(eui, ourAddress) =>
        if eui != addr {
          PresentAfterUnannounce(u, w, eui, ourAddress, block, addr);
        } else if !ourAddress {
          AbsentAfterUnannounce(u, w, i, block, addr);
        }
      case CapabilityRemove(eui, _, _) =>
        if eui == addr {
          RemoveOwn(u, w, ev, i, block, addr);
        } else {
          PresentAfterRemoval(u, w, ev, block, addr);
        }
    }
  }

  lemma PresentAfterRemoval(u: Setup, w: World, ev: Event, block: nat, addr: nat)
    requires WorldOk(u, w) && Present(w.table.edges, block, addr) && ev.CapabilityRemove? && ev.eui != addr
    ensures Present(Step(u, w, ev).table.edges, block, addr)
  {
    PresentAfterCert(u, w, ev.eui, ev.cert, block, addr);
    var w1 := MaybeCert(u, w, ev.eui, ev.cert);
    if FindEdge(w1.table.edges, ev.eui).Some? {
      var i := FindEdge(w1.table.edges, ev.eui).value;
      if FindCap(w1.table.edges[i].caps, ev.name).Some? {
        PresentAfterWithdraw(u, w1, i, FindCap(w1.table.edges[i].caps, ev.name).value, block, addr);
      }
    }
  }
}
