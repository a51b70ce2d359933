/** The edge and capability table (wsn/common/trust/edge-info.c): two pools, nested lists, quotas, eviction. */
module EdgeTable {
  import opened Common

  /** A capability block on an edge's list. */
  datatype Cap = Cap(block: nat, name: string, active: bool)

  /** An edge block on the edge list. */
  datatype Edge = Edge(block: nat, addr: nat, active: bool, caps: seq<Cap>)

  /** The lists, and the blocks each pool has handed out. */
  datatype Table = Table(edges: seq<Edge>, edgeUsed: set<nat>, capUsed: set<nat>)

  datatype Config = Config(numEdges: nat, numCaps: nat) {
    function CapCapacity(): nat { numEdges * numCaps }
  }

  // ---------------------------------------------------------------------------
  // Looking things up.
  // ---------------------------------------------------------------------------

  /** edge_info_find_addr: the position of the first edge with this address. */
  function FindEdge(edges: seq<Edge>, addr: nat): (r: Option<nat>)
    ensures r.Some? ==> r.value < |edges| && edges[r.value].addr == addr
    ensures r.None? ==> forall i :: 0 <= i < |edges| ==> edges[i].addr != addr
  {
    if |edges| == 0 then None
    else if edges[0].addr == addr then Some(0)
    else
      match FindEdge(edges[1..], addr)
      case None => None
      case Some(i) => Some(i + 1)
  }

  /** edge_info_capability_find. */
  function FindCap(caps: seq<Cap>, name: string): (r: Option<nat>)
    ensures r.Some? ==> r.value < |caps| && caps[r.value].name == name
    ensures r.None? ==> forall i :: 0 <= i < |caps| ==> caps[i].name != name
  {
    if |caps| == 0 then None
    else if caps[0].name == name then Some(0)
    else
      match FindCap(caps[1..], name)
      case None => None
      case Some(i) => Some(i + 1)
  }

  /** The edge has the capability, and both are active: the test every choice policy makes. */
  predicate Offers(e: Edge, name: string) {
    e.active && FindCap(e.caps, name).Some? && e.caps[FindCap(e.caps, name).value].active
  }

  /** edge_info_has_active_capability. */
  predicate HasActive(edges: seq<Edge>, name: string) {
    exists i :: 0 <= i < |edges| && Offers(edges[i], name)
  }

  // ---------------------------------------------------------------------------
  // Updates.
  // ---------------------------------------------------------------------------

  function RemoveAt<T>(s: seq<T>, i: nat): seq<T>
    requires i < |s|
  {
    s[..i] + s[i + 1..]
  }

  function BlockSet(caps: seq<Cap>): set<nat> {
    set c | c in caps :: c.block
  }

  /** edge_info_remove: unlinks the edge and frees it and its capabilities. */
  function RemoveEdge(t: Table, i: nat): Table
    requires i < |t.edges|
  {
    Table(RemoveAt(t.edges, i), t.edgeUsed - {t.edges[i].block}, t.capUsed - BlockSet(t.edges[i].caps))
  }

  function FirstInactive(edges: seq<Edge>): (r: Option<nat>)
    ensures r.Some? ==> r.value < |edges| && !edges[r.value].active
    ensures r.None? ==> forall i :: 0 <= i < |edges| ==> edges[i].active
  {
    if |edges| == 0 then None
    else if !edges[0].active then Some(0)
    else
      match FirstInactive(edges[1..])
      case None => None
      case Some(i) => Some(i + 1)
  }

  /** free_up_edge_resource: evicts the first inactive edge. */
  function FreeUpEdge(t: Table): Table {
    match FirstInactive(t.edges)
    case None => t
    case Some(i) => RemoveEdge(t, i)
  }

  /** edge_info_add: the table, and whether the edge is in it. A new edge goes to the front, inactive. */
  function AddEdge(cfg: Config, t: Table, addr: nat): (Table, bool) {
    if FindEdge(t.edges, addr).Some? then (t, true)
    else
      match FirstFree(t.edgeUsed, 0, cfg.numEdges)
      case Some(b) => (PushEdge(t, b, addr), true)
      case None =>
        var t' := FreeUpEdge(t);
        match FirstFree(t'.edgeUsed, 0, cfg.numEdges)
        case Some(b) => (PushEdge(t', b, addr), true)
        case None => (t', false)
  }

  function PushEdge(t: Table, b: nat, addr: nat): Table {
    t.(edges := [Edge(b, addr, false, [])] + t.edges, edgeUsed := t.edgeUsed + {b})
  }

  function SetEdge(t: Table, i: nat, e: Edge): Table
    requires i < |t.edges|
  {
    t.(edges := t.edges[i := e])
  }

  /** free_up_edge_capabilities: frees the first inactive capability of any edge. */
  function FreeUpCap(t: Table, i: nat): Table
    decreases |t.edges| - i
  {
    if i >= |t.edges| then t
    else
      match FirstInactiveCap(t.edges[i].caps)
      case None => FreeUpCap(t, i + 1)
      case Some(j) => RemoveCap(t, i, j)
  }

  function FirstInactiveCap(caps: seq<Cap>): (r: Option<nat>)
    ensures r.Some? ==> r.value < |caps| && !caps[r.value].active
  {
    if |caps| == 0 then None
    else if !caps[0].active then Some(0)
    else
      match FirstInactiveCap(caps[1..])
      case None => None
      case Some(i) => Some(i + 1)
  }

  function RemoveCap(t: Table, i: nat, j: nat): Table
    requires i < |t.edges| && j < |t.edges[i].caps|
  {
    var e := t.edges[i];
    SetEdge(t, i, e.(caps := RemoveAt(e.caps, j))).(capUsed := t.capUsed - {e.caps[j].block})
  }

  /** edge_info_capability_add for an edge at position i: the table, and whether the capability is in it. */
  function AddCap(cfg: Config, t: Table, i: nat, name: string): (Table, bool)
    requires i < |t.edges|
  {
    if FindCap(t.edges[i].caps, name).Some? then (t, true)
    else if |t.edges[i].caps| >= cfg.numCaps then (t, false)
    else
      match FirstFree(t.capUsed, 0, cfg.CapCapacity())
      case Some(b) => (PushCap(t, i, b, name), true)
      case None =>
        var t' := FreeUpCap(t, 0);
        match FirstFree(t'.capUsed, 0, cfg.CapCapacity())
        case Some(b) => if i < |t'.edges| then (PushCap(t', i, b, name), true) else (t', false)
        case None => (t', false)
  }

  function PushCap(t: Table, i: nat, b: nat, name: string): Table
    requires i < |t.edges|
  {
    var e := t.edges[i];
    SetEdge(t, i, e.(caps := [Cap(b, name, false)] + e.caps)).(capUsed := t.capUsed + {b})
  }

  // ---------------------------------------------------------------------------
  // The invariant: pools and lists agree, keys are unique, quotas hold.
  // ---------------------------------------------------------------------------

  /** How often block `b` occurs on a capability list, on all of them, and on the edge list. */
  ghost function Uses(caps: seq<Cap>, b: nat): nat {
    if |caps| == 0 then 0 else (if caps[0].block == b then 1 else 0) + Uses(caps[1..], b)
  }

  ghost function CapUses(edges: seq<Edge>, b: nat): nat {
    if |edges| == 0 then 0 else Uses(edges[0].caps, b) + CapUses(edges[1..], b)
  }

  ghost function EdgeUses(edges: seq<Edge>, b: nat): nat {
    if |edges| == 0 then 0 else (if edges[0].block == b then 1 else 0) + EdgeUses(edges[1..], b)
  }

  ghost predicate UniqueNames(caps: seq<Cap>) {
    forall i, j :: 0 <= i < j < |caps| ==> caps[i].name != caps[j].name
  }

  ghost predicate UniqueAddrs(edges: seq<Edge>) {
    forall i, j :: 0 <= i < j < |edges| ==> edges[i].addr != edges[j].addr
  }

  ghost predicate EdgesOk(cfg: Config, edges: seq<Edge>) {
    && UniqueAddrs(edges)
    && forall i :: 0 <= i < |edges| ==> UniqueNames(edges[i].caps) && |edges[i].caps| <= cfg.numCaps
  }

  /** Blocks in use are exactly those on lists, and each is on one list once. */
  ghost predicate PoolsOk(cfg: Config, t: Table) {
    && (forall b :: EdgeUses(t.edges, b) == if b in t.edgeUsed then 1 else 0)
    && (forall b :: CapUses(t.edges, b) == if b in t.capUsed then 1 else 0)
    && (forall b :: b in t.edgeUsed ==> b < cfg.numEdges)
    && (forall b :: b in t.capUsed ==> b < cfg.CapCapacity())
  }

  ghost predicate TableOk(cfg: Config, t: Table) {
    EdgesOk(cfg, t.edges) && PoolsOk(cfg, t)
  }

  lemma {:induction false} UpdateUses(edges: seq<Edge>, i: nat, e: Edge, b: nat)
    requires i < |edges| && e.block == edges[i].block
    ensures CapUses(edges[i := e], b) + Uses(edges[i].caps, b) == CapUses(edges, b) + Uses(e.caps, b)
    ensures EdgeUses(edges[i := e], b) == EdgeUses(edges, b)
  {
    if i == 0 {
      assert edges[i := e][1..] == edges[1..];
    } else {
      UpdateUses(edges[1..], i - 1, e, b);
      assert edges[i := e][1..] == edges[1..][i - 1 := e];
    }
  }

  lemma {:induction false} RemoveUses(edges: seq<Edge>, i: nat, b: nat)
    requires i < |edges|
    ensures CapUses(RemoveAt(edges, i), b) + Uses(edges[i].caps, b) == CapUses(edges, b)
    ensures EdgeUses(RemoveAt(edges, i), b) + (if edges[i].block == b then 1 else 0) == EdgeUses(edges, b)
  {
    if i == 0 {
      assert RemoveAt(edges, i) == edges[1..];
    } else {
      RemoveUses(edges[1..], i - 1, b);
      assert RemoveAt(edges, i)[1..] == RemoveAt(edges[1..], i - 1);
      assert RemoveAt(edges, i)[0] == edges[0];
    }
  }

  lemma {:induction false} RemoveCapUses(caps: seq<Cap>, j: nat, b: nat)
    requires j < |caps|
    ensures Uses(RemoveAt(caps, j), b) + (if caps[j].block == b then 1 else 0) == Uses(caps, b)
  {
    if j == 0 {
      assert RemoveAt(caps, j) == caps[1..];
    } else {
      RemoveCapUses(caps[1..], j - 1, b);
      assert RemoveAt(caps, j)[1..] == RemoveAt(caps[1..], j - 1);
      assert RemoveAt(caps, j)[0] == caps[0];
    }
  }

  lemma {:induction false} UsesMembers(caps: seq<Cap>, b: nat)
    ensures Uses(caps, b) > 0 <==> b in BlockSet(caps)
  {
    if |caps| > 0 {
      UsesMembers(caps[1..], b);
      assert caps == [caps[0]] + caps[1..];
    }
  }

  lemma AddressesAfterRemove(cfg: Config, edges: seq<Edge>, i: nat)
    requires EdgesOk(cfg, edges) && i < |edges|
    ensures EdgesOk(cfg, RemoveAt(edges, i))
  {
    var r := RemoveAt(edges, i);
    assert forall k :: 0 <= k < |r| ==> r[k] == edges[if k < i then k else k + 1];
  }

  lemma RemoveEdgeKeeps(cfg: Config, t: Table, i: nat)
    requires TableOk(cfg, t) && i < |t.edges|
    ensures TableOk(cfg, RemoveEdge(t, i))
  {
    var t' := RemoveEdge(t, i);
    AddressesAfterRemove(cfg, t.edges, i);
    forall b: nat
      ensures EdgeUses(t'.edges, b) == if b in t'.edgeUsed then 1 else 0
      ensures CapUses(t'.edges, b) == if b in t'.capUsed then 1 else 0
    {
      RemoveUses(t.edges, i, b);
      UsesMembers(t.edges[i].caps, b);
    }
  }

  lemma PushEdgeKeeps(cfg: Config, t: Table, b: nat, addr: nat)
    requires TableOk(cfg, t) && b !in t.edgeUsed && b < cfg.numEdges
    requires forall i :: 0 <= i < |t.edges| ==> t.edges[i].addr != addr
    ensures TableOk(cfg, PushEdge(t, b, addr))
  {
    var t' := PushEdge(t, b, addr);
    assert t'.edges[1..] == t.edges;
  }

  lemma AddEdgeKeeps(cfg: Config, t: Table, addr: nat)
    requires TableOk(cfg, t)
    ensures TableOk(cfg, AddEdge(cfg, t, addr).0)
    ensures AddEdge(cfg, t, addr).1 ==> FindEdge(AddEdge(cfg, t, addr).0.edges, addr).Some?
  {
    if FindEdge(t.edges, addr).None? {
      match FirstFree(t.edgeUsed, 0, cfg.numEdges)
      case Some(b) => PushEdgeKeeps(cfg, t, b, addr);
      case None =>
        match FirstInactive(t.edges)
        case None =>
        case Some(i) =>
          RemoveEdgeKeeps(cfg, t, i);
          var t' := RemoveEdge(t, i);
          assert forall k :: 0 <= k < |t'.edges| ==> t'.edges[k] == t.edges[if k < i then k else k + 1];
          match FirstFree(t'.edgeUsed, 0, cfg.numEdges)
          case Some(b) => PushEdgeKeeps(cfg, t', b, addr);
          case None =>
    }
  }

  /** The first edge that is not active, and no other, has been taken off the list. */
  ghost predicate FirstInactiveLeft(edges: seq<Edge>, edges': seq<Edge>) {
    exists i :: 0 <= i < |edges| && !edges[i].active && (forall k :: 0 <= k < i ==> edges[k].active)
                && edges' == edges[..i] + edges[i + 1..]
  }

  /** A new edge goes to the front of the list; the others stay in order, but for the first inactive one if the pool was full. */
  lemma AddEdgeOrder(cfg: Config, t: Table, addr: nat)
    requires FindEdge(t.edges, addr).None? && AddEdge(cfg, t, addr).1
    ensures var edges := AddEdge(cfg, t, addr).0.edges;
            && |edges| > 0 && edges[0].addr == addr && !edges[0].active && edges[0].caps == []
            && (if exists b: nat :: b < cfg.numEdges && b !in t.edgeUsed then edges[1..] == t.edges
                else FirstInactiveLeft(t.edges, edges[1..]))
  {
    match FirstFree(t.edgeUsed, 0, cfg.numEdges)
    case Some(b) =>
      assert PushEdge(t, b, addr).edges[1..] == t.edges;
    case None =>
      var t' := FreeUpEdge(t);
      var b := FirstFree(t'.edgeUsed, 0, cfg.numEdges).value;
      assert PushEdge(t', b, addr).edges[1..] == t'.edges;
      FirstInactiveIsFirst(t.edges);
  }

  lemma {:induction false} FirstInactiveIsFirst(edges: seq<Edge>)
    ensures FirstInactive(edges).Some? ==> forall k :: 0 <= k < FirstInactive(edges).value ==> edges[k].active
  {
    if |edges| > 0 && edges[0].active {
      FirstInactiveIsFirst(edges[1..]);
    }
  }

  /** Replacing an edge by one whose capabilities use `used'` in place of the old blocks. */
  lemma ReplaceEdge(cfg: Config, t: Table, i: nat, e: Edge, capUsed': set<nat>)
    requires TableOk(cfg, t) && i < |t.edges|
    requires e.block == t.edges[i].block && e.addr == t.edges[i].addr
    requires UniqueNames(e.caps) && |e.caps| <= cfg.numCaps
    requires forall b :: b in capUsed' ==> b < cfg.CapCapacity()
    requires forall b :: (if b in capUsed' then 1 else 0) + Uses(t.edges[i].caps, b)
                      == (if b in t.capUsed then 1 else 0) + Uses(e.caps, b)
    ensures TableOk(cfg, SetEdge(t, i, e).(capUsed := capUsed'))
  {
    forall b: nat
      ensures EdgeUses(t.edges[i := e], b) == if b in t.edgeUsed then 1 else 0
      ensures CapUses(t.edges[i := e], b) == if b in capUsed' then 1 else 0
    {
      UpdateUses(t.edges, i, e, b);
    }
  }

  /** Changing an edge's flags or capability flags leaves the pools alone. */
  lemma SetEdgeKeeps(cfg: Config, t: Table, i: nat, e: Edge)
    requires TableOk(cfg, t) && i < |t.edges|
    requires e.block == t.edges[i].block && e.addr == t.edges[i].addr
    requires |e.caps| == |t.edges[i].caps|
    requires forall j :: 0 <= j < |e.caps| ==>
               e.caps[j].block == t.edges[i].caps[j].block && e.caps[j].name == t.edges[i].caps[j].name
    ensures TableOk(cfg, SetEdge(t, i, e))
  {
    forall b: nat
      ensures Uses(t.edges[i].caps, b) == Uses(e.caps, b)
    {
      SameUses(t.edges[i].caps, e.caps, b);
    }
    assert UniqueNames(t.edges[i].caps);
    ReplaceEdge(cfg, t, i, e, t.capUsed);
  }

  lemma {:induction false} SameUses(a: seq<Cap>, c: seq<Cap>, b: nat)
    requires |a| == |c| && forall j :: 0 <= j < |a| ==> a[j].block == c[j].block
    ensures Uses(a, b) == Uses(c, b)
  {
    if |a| > 0 {
      SameUses(a[1..], c[1..], b);
    }
  }

  lemma {:induction false} OwnBlocks(edges: seq<Edge>, i: nat, b: nat)
    requires i < |edges|
    ensures Uses(edges[i].caps, b) <= CapUses(edges, b)
  {
    if i > 0 {
      OwnBlocks(edges[1..], i - 1, b);
    }
  }

  lemma RemoveCapKeeps(cfg: Config, t: Table, i: nat, j: nat)
    requires TableOk(cfg, t) && i < |t.edges| && j < |t.edges[i].caps|
    ensures TableOk(cfg, RemoveCap(t, i, j))
  {
    var caps := t.edges[i].caps;
    var caps' := RemoveAt(caps, j);
    assert UniqueNames(caps);
    assert forall k :: 0 <= k < |caps'| ==> caps'[k] == caps[if k < j then k else k + 1];
    var used' := t.capUsed - {caps[j].block};
    forall b: nat
      ensures (if b in used' then 1 else 0) + Uses(caps, b) == (if b in t.capUsed then 1 else 0) + Uses(caps', b)
    {
      RemoveCapUses(caps, j, b);
      OwnBlocks(t.edges, i, b);
    }
    ReplaceEdge(cfg, t, i, t.edges[i].(caps := caps'), used');
  }

  lemma PushCapKeeps(cfg: Config, t: Table, i: nat, b: nat, name: string)
    requires TableOk(cfg, t) && i < |t.edges| && b !in t.capUsed && b < cfg.CapCapacity()
    requires FindCap(t.edges[i].caps, name).None? && |t.edges[i].caps| < cfg.numCaps
    ensures TableOk(cfg, PushCap(t, i, b, name))
  {
    var caps := t.edges[i].caps;
    var caps' := [Cap(b, name, false)] + caps;
    assert caps'[1..] == caps && UniqueNames(caps);
    ReplaceEdge(cfg, t, i, t.edges[i].(caps := caps'), t.capUsed + {b});
  }

  // ---------------------------------------------------------------------------
  // Counting: the quota makes the capability pool sufficient.
  // ---------------------------------------------------------------------------

  ghost function TotalCaps(edges: seq<Edge>): nat {
    if |edges| == 0 then 0 else |edges[0].caps| + TotalCaps(edges[1..])
  }

  lemma {:induction false} CapCount(cfg: Config, edges: seq<Edge>)
    requires forall i :: 0 <= i < |edges| ==> |edges[i].caps| <= cfg.numCaps
    ensures TotalCaps(edges) <= |edges| * cfg.numCaps
  {
    if |edges| > 0 {
      CapCount(cfg, edges[1..]);
      Distribute(|edges[1..]|, cfg.numCaps);
    }
  }

  lemma Distribute(n: nat, k: nat)
    ensures (n + 1) * k == n * k + k
  {
  }

  lemma {:induction false} CapCountBelow(cfg: Config, edges: seq<Edge>, i: nat)
    requires forall k :: 0 <= k < |edges| ==> |edges[k].caps| <= cfg.numCaps
    requires i < |edges| && |edges[i].caps| < cfg.numCaps
    ensures TotalCaps(edges) < |edges| * cfg.numCaps
  {
    Distribute(|edges[1..]|, cfg.numCaps);
    if i == 0 {
      CapCount(cfg, edges[1..]);
    } else {
      CapCountBelow(cfg, edges[1..], i - 1);
    }
  }

  /** Blocks on a list, as a set; there are no more of them than list entries. */
  ghost function BlocksIn(edges: seq<Edge>): set<nat> {
    if |edges| == 0 then {} else BlockSet(edges[0].caps) + BlocksIn(edges[1..])
  }

  lemma {:induction false} BlockSetSize(caps: seq<Cap>)
    ensures |BlockSet(caps)| <= |caps|
  {
    if |caps| > 0 {
      BlockSetSize(caps[1..]);
      assert caps == [caps[0]] + caps[1..];
      assert BlockSet(caps) == {caps[0].block} + BlockSet(caps[1..]);
    }
  }

  lemma {:induction false} BlocksInSize(edges: seq<Edge>)
    ensures |BlocksIn(edges)| <= TotalCaps(edges)
  {
    if |edges| > 0 {
      BlockSetSize(edges[0].caps);
      BlocksInSize(edges[1..]);
    }
  }

  lemma {:induction false} UsedBlocksIn(edges: seq<Edge>, b: nat)
    ensures CapUses(edges, b) > 0 ==> b in BlocksIn(edges)
  {
    if |edges| > 0 {
      UsesMembers(edges[0].caps, b);
      UsedBlocksIn(edges[1..], b);
    }
  }

  lemma {:induction false} EdgeBlocksBound(edges: seq<Edge>, used: set<nat>)
    requires forall b :: EdgeUses(edges, b) == if b in used then 1 else 0
    ensures |edges| == |used|
  {
    if |edges| == 0 {
      assert forall b :: EdgeUses(edges, b) == 0;
      assert used == {};
    } else {
      var b0 := edges[0].block;
      assert EdgeUses(edges, b0) > 0;
      EdgeBlocksBound(edges[1..], used - {b0});
    }
  }

  /** The edge list is never longer than the pool, so an array of that many candidates cannot overflow. */
  lemma EdgeListBound(cfg: Config, t: Table)
    requires PoolsOk(cfg, t)
    ensures |t.edges| <= cfg.numEdges
  {
    EdgeBlocksBound(t.edges, t.edgeUsed);
    SubsetSize(t.edgeUsed, PoolBlocks(cfg.numEdges));
  }

  lemma MoreTimes(a: nat, b: nat, c: nat)
    requires a <= b
    ensures a * c <= b * c
  {
  }

  /**
   Once the per-edge quota check has passed, the capability pool cannot be exhausted: allocation
   succeeds and free_up_edge_capabilities is never reached.
   */
  lemma QuotaImpliesSpace(cfg: Config, t: Table, i: nat)
    requires TableOk(cfg, t) && i < |t.edges| && |t.edges[i].caps| < cfg.numCaps
    ensures FirstFree(t.capUsed, 0, cfg.CapCapacity()).Some?
  {
    CapCountBelow(cfg, t.edges, i);
    EdgeListBound(cfg, t);
    MoreTimes(|t.edges|, cfg.numEdges, cfg.numCaps);
    UsedIsSmall(cfg, t);
    if FirstFree(t.capUsed, 0, cfg.CapCapacity()).None? {
      SubsetSize(PoolBlocks(cfg.CapCapacity()), t.capUsed);
      assert false;
    }
  }

  lemma UsedIsSmall(cfg: Config, t: Table)
    requires PoolsOk(cfg, t)
    ensures |t.capUsed| <= TotalCaps(t.edges)
  {
    forall b | b in t.capUsed
      ensures b in BlocksIn(t.edges)
    {
      assert CapUses(t.edges, b) == 1;
      UsedBlocksIn(t.edges, b);
    }
    SubsetSize(t.capUsed, BlocksIn(t.edges));
    BlocksInSize(t.edges);
  }

  lemma AddCapKeeps(cfg: Config, t: Table, i: nat, name: string)
    requires TableOk(cfg, t) && i < |t.edges|
    ensures TableOk(cfg, AddCap(cfg, t, i, name).0)
    ensures AddCap(cfg, t, i, name).1 <==>
              FindCap(t.edges[i].caps, name).Some? || |t.edges[i].caps| < cfg.numCaps
  {
    if FindCap(t.edges[i].caps, name).None? && |t.edges[i].caps| < cfg.numCaps {
      QuotaImpliesSpace(cfg, t, i);
      PushCapKeeps(cfg, t, i, FirstFree(t.capUsed, 0, cfg.CapCapacity()).value, name);
    }
  }
}
