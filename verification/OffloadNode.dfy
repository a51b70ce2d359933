/** The edge table and the MQTT handlers as the firmware runs them: lists, pools and flags changed in place. */
module OffloadNode {
  import opened Common
  import opened EdgeTable
  import opened Offload

  class Node {
    const setup: Setup
    var edges: seq<Edge>
    var edgeUsed: set<nat>
    var capUsed: set<nat>
    var running: map<string, bool>

    ghost function View(): World
      reads this
    {
      World(Table(edges, edgeUsed, capUsed), running)
    }

    ghost predicate Valid()
      reads this
    {
      WorldOk(setup, View())
    }

    /** edge_info_init, and app_state_init for each application. */
    constructor (setup: Setup, apps: set<string>)
      ensures this.setup == setup && Valid() && View() == Start(apps)
    {
      this.setup := setup;
      edges, edgeUsed, capUsed := [], {}, {};
      running := map a | a in apps :: false;
      new;
      RunOk(setup, apps, []);
    }

    /** edge_info_find_addr. */
    method FindAddr(addr: nat) returns (r: Option<nat>)
      ensures r == FindEdge(edges, addr)
    {
      var i := 0;
      while i < |edges|
        invariant i <= |edges|
        invariant forall k :: 0 <= k < i ==> edges[k].addr != addr
      {
        if edges[i].addr == addr {
          FindEdgeFirst(edges, addr, i);
          return Some(i);
        }
        i := i + 1;
      }
      return None;
    }

    /** edge_info_capability_find. */
    static method FindCapability(caps: seq<Cap>, name: string) returns (r: Option<nat>)
      ensures r == FindCap(caps, name)
    {
      var i := 0;
      while i < |caps|
        invariant i <= |caps|
        invariant forall k :: 0 <= k < i ==> caps[k].name != name
      {
        if caps[i].name == name {
          FindCapFirst(caps, name, i);
          return Some(i);
        }
        i := i + 1;
      }
      return None;
    }

    /** edge_info_has_active_capability. */
    method HasActiveCapability(name: string) returns (found: bool)
      ensures found <==> HasActive(edges, name)
    {
      for i := 0 to |edges|
        invariant forall k :: 0 <= k < i ==> !Offers(edges[k], name)
      {
        if edges[i].active {
          var j := FindCapability(edges[i].caps, name);
          if j.Some? && edges[i].caps[j.value].active {
            assert Offers(edges[i], name);
            return true;
          }
        }
      }
      return false;
    }

    /** The application's event handler: it recomputes `running`. Returns whether the flag changed. */
    method Tell(name: string) returns (changed: bool)
      modifies this`running
      ensures View() == Post(old(View()), name)
      ensures changed <==> running != old(running)
    {
      changed := false;
      if name in running {
        var was := running[name];
        var now := HasActiveCapability(name);
        running := running[name := now];
        changed := was != now;
        assert running[name] == now;
        if !changed {
          assert running == old(running);
        }
      }
    }

    method RemoveEdgeAt(i: nat)
      requires i < |edges|
      modifies this`edges, this`edgeUsed, this`capUsed
      ensures View() == old(View()).(table := RemoveEdge(old(View()).table, i))
    {
      var e := edges[i];
      edges := edges[..i] + edges[i + 1..];
      capUsed := capUsed - BlockSet(e.caps);
      edgeUsed := edgeUsed - {e.block};
    }

    /** edge_info_add, with free_up_edge_resource. */
    method AddAddr(addr: nat) returns (ok: bool)
      modifies this`edges, this`edgeUsed, this`capUsed
      ensures var (t, r) := AddEdge(setup.cfg, old(View()).table, addr);
              View() == old(View()).(table := t) && ok == r
    {
      var found := FindAddr(addr);
      if found.Some? {
        return true;
      }
      var block := Alloc(edgeUsed, setup.cfg.numEdges);
      if block.None? {
        var victim := FindInactive();
        if victim.Some? {
          RemoveEdgeAt(victim.value);
        }
        block := Alloc(edgeUsed, setup.cfg.numEdges);
        if block.None? {
          return false;
        }
      }
      edges := [Edge(block.value, addr, false, [])] + edges;
      edgeUsed := edgeUsed + {block.value};
      return true;
    }

    method FindInactive() returns (r: Option<nat>)
      ensures r == FirstInactive(edges)
    {
      var i := 0;
      while i < |edges|
        invariant i <= |edges|
        invariant forall k :: 0 <= k < i ==> edges[k].active
      {
        if !edges[i].active {
          FirstInactiveIs(edges, i);
          return Some(i);
        }
        i := i + 1;
      }
      return None;
    }

    method ActivateAddr(eui: nat)
      modifies this`edges
      ensures View() == old(View()).(table := Activate(old(View()).table, eui))
    {
      var i := FindAddr(eui);
      if i.Some? {
        edges := edges[i.value := edges[i.value].(active := true)];
      }
    }

    method OnCertificate(eui: nat, subject: nat)
      modifies this
      ensures View() == ProcessCert(setup, old(View()), eui, subject)
    {
      if eui != subject || subject == setup.ours {
        return;
      }
      var ok := AddAddr(eui);
      if ok {
        ActivateAddr(eui);
      }
    }

    method OnMaybeCertificate(eui: nat, cert: Option<nat>)
      modifies this
      ensures View() == MaybeCert(setup, old(View()), eui, cert)
    {
      if cert.Some? {
        OnCertificate(eui, cert.value);
      }
    }

    /** mqtt_publish_unannounce_handler. */
    method OnUnannounced(eui: nat, ourAddress: bool)
      modifies this
      ensures View() == OnUnannounce(setup, old(View()), eui, ourAddress)
    {
      if ourAddress {
        return;
      }
      var found := FindAddr(eui);
      if found.None? {
        return;
      }
      var i := found.value;
      edges := edges[i := edges[i].(active := false)];
      SwitchOffCaps(i);
      if !setup.noActiveRemoval {
        capUsed := capUsed - BlockSet(edges[i].caps);
        edges := edges[i := edges[i].(caps := [])];
        if setup.aggressive {
          RemoveEdgeAt(i);
        }
      }
    }

    method SwitchOffCaps(i: nat)
      requires i < |edges|
      modifies this`edges, this`running
      ensures View() == SwitchOff(old(View()), i, 0)
    {
      ghost var goal := SwitchOff(View(), i, 0);
      var j := 0;
      while j < |edges[i].caps|
        invariant i < |edges| && SwitchOff(View(), i, j) == goal
        decreases |edges[i].caps| - j
      {
        var e := edges[i];
        edges := edges[i := e.(caps := e.caps[j := e.caps[j].(active := false)])];
        var _ := Tell(e.caps[j].name);
        j := j + 1;
      }
    }

    /** edge_info_capability_add, with its quota check. */
    method AddCapability(i: nat, name: string) returns (ok: bool)
      requires Valid() && i < |edges|
      modifies this`edges, this`capUsed
      ensures var (t, r) := AddCap(setup.cfg, old(View()).table, i, name);
              View() == old(View()).(table := t) && ok == r
    {
      var found := FindCapability(edges[i].caps, name);
      if found.Some? {
        return true;
      }
      if |edges[i].caps| >= setup.cfg.numCaps {
        return false;
      }
      QuotaImpliesSpace(setup.cfg, View().table, i);
      var block := Alloc(capUsed, setup.cfg.CapCapacity());
      assert block.Some?;
      edges := edges[i := edges[i].(caps := [Cap(block.value, name, false)] + edges[i].caps)];
      capUsed := capUsed + {block.value};
      return true;
    }

    /** mqtt_publish_capability_add_handler. */
    method OnAdd(eui: nat, name: string, cert: Option<nat>)
      requires Valid()
      modifies this
      ensures View() == OnCapabilityAdd(setup, old(View()), eui, name, cert)
    {
      MaybeCertKeeps(setup, View(), eui, cert);
      OnMaybeCertificate(eui, cert);
      var found := FindAddr(eui);
      if found.None? {
        EnsureEdge(setup, View(), eui);
        var ok := AddAddr(eui);
        if !ok {
          return;
        }
        ActivateAddr(eui);
        found := FindAddr(eui);
        if found.None? {
          return;
        }
      }
      Offer(found.value, name);
    }

    method Offer(i: nat, name: string)
      requires Valid() && i < |edges|
      modifies this
      ensures View() == OfferCapability(setup, old(View()), i, name)
    {
      var found := FindCapability(edges[i].caps, name);
      if found.Some? {
        if edges[i].caps[found.value].active {
          return;
        }
      } else {
        AddCapKeeps(setup.cfg, View().table, i, name);
        var ok := AddCapability(i, name);
        if !ok {
          return;
        }
        found := FindCapability(edges[i].caps, name);
        if found.None? {
          return;
        }
      }
      var e := edges[i];
      edges := edges[i := e.(caps := e.caps[found.value := e.caps[found.value].(active := true)])];
      var _ := Tell(name);
    }

    /** mqtt_publish_capability_remove_handler. */
    method OnRemove(eui: nat, name: string, cert: Option<nat>)
      modifies this
      ensures View() == OnCapabilityRemove(setup, old(View()), eui, name, cert)
    {
      OnMaybeCertificate(eui, cert);
      var found := FindAddr(eui);
      if found.None? {
        return;
      }
      var i := found.value;
      var cap := FindCapability(edges[i].caps, name);
      if cap.None? {
        return;
      }
      Withdraw(i, cap.value);
    }

    method Withdraw(i: nat, j: nat)
      requires i < |edges| && j < |edges[i].caps|
      modifies this
      ensures View() == WithdrawCapability(setup, old(View()), i, j)
    {
      var e := edges[i];
      edges := edges[i := e.(caps := e.caps[j := e.caps[j].(active := false)])];
      var _ := Tell(e.caps[j].name);
      if !setup.noActiveRemoval {
        e := edges[i];
        capUsed := capUsed - {e.caps[j].block};
        edges := edges[i := e.(caps := e.caps[..j] + e.caps[j + 1..])];
        if setup.aggressive && |edges[i].caps| == 0 {
          RemoveEdgeAt(i);
        }
      }
    }

    /** Any message, in any reachable state: the handler computes the specified state, which is valid. */
    method Handle(ev: Event)
      requires Valid()
      modifies this
      ensures Valid() && View() == Step(setup, old(View()), ev)
    {
      StepKeeps(setup, View(), ev);
      if ev.eui == setup.ours {
        return;
      }
      match ev
      case Announce(eui, subject) => OnCertificate(eui, subject);
      case Unannounce(eui, ourAddress) => OnUnannounced(eui, ourAddress);
      case CapabilityAdd(eui, name, cert) => OnAdd(eui, name, cert);
      case CapabilityRemove(eui, name, cert) => OnRemove(eui, name, cert);
    }
  }

  lemma {:induction false} FindEdgeFirst(edges: seq<Edge>, addr: nat, i: nat)
    requires i < |edges| && edges[i].addr == addr && forall k :: 0 <= k < i ==> edges[k].addr != addr
    ensures FindEdge(edges, addr) == Some(i)
  {
    if i > 0 {
      FindEdgeFirst(edges[1..], addr, i - 1);
    }
  }

  lemma {:induction false} FindCapFirst(caps: seq<Cap>, name: string, i: nat)
    requires i < |caps| && caps[i].name == name && forall k :: 0 <= k < i ==> caps[k].name != name
    ensures FindCap(caps, name) == Some(i)
  {
    if i > 0 {
      FindCapFirst(caps[1..], name, i - 1);
    }
  }

  lemma {:induction false} FirstInactiveIs(edges: seq<Edge>, i: nat)
    requires i < |edges| && !edges[i].active && forall k :: 0 <= k < i ==> edges[k].active
    ensures FirstInactive(edges) == Some(i)
  {
    if i > 0 {
      FirstInactiveIs(edges[1..], i - 1);
    }
  }
}
