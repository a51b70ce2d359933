/** Which edge the periodic ping goes to next (wsn/common/trust/edge-ping.c). */
module EdgePing {
  import opened Common
  import opened EdgeTable

  /** The position after the remembered edge, or the front if there is none. */
  function NextPosition(edges: seq<Edge>, started: bool, current: nat): (i: nat)
    requires |edges| > 0
    ensures i < |edges|
  {
    if !started then 0
    else
      match FindEdge(edges, current)
      case None => 0
      case Some(k) => if k + 1 < |edges| then k + 1 else 0
  }

  /** The static state of the ping process. */
  class Pinger {
    var hasStarted: bool
    var current: nat

    /** find_next_edge_from_scratch. */
    method FromScratch(edges: seq<Edge>) returns (edge: Option<nat>)
      modifies this
      ensures edge == if |edges| > 0 then Some(0) else None
      ensures hasStarted == edge.Some?
      ensures edge.Some? ==> current == edges[0].addr
      ensures edge.None? ==> current == old(current)
    {
      if |edges| > 0 {
        current, hasStarted := edges[0].addr, true;
        return Some(0);
      }
      hasStarted := false;
      return None;
    }

    /** find_next_edge. */
    method FindNextEdge(edges: seq<Edge>) returns (edge: Option<nat>)
      modifies this
      ensures edge.None? <==> |edges| == 0
      ensures hasStarted == edge.Some?
      ensures edge.Some? ==>
                edge.value == NextPosition(edges, old(hasStarted), old(current)) && current == edges[edge.value].addr
    {
      if !hasStarted {
        edge := FromScratch(edges);
      } else {
        var found := FindEdge(edges, current);
        if found.Some? && found.value + 1 < |edges| {
          current := edges[found.value + 1].addr;
          return Some(found.value + 1);
        }
        edge := FromScratch(edges);
      }
    }

    /** From any state, as many calls as there are edges visit every edge exactly once. */
    method PingRound(edges: seq<Edge>) returns (visited: seq<nat>)
      requires |edges| > 0 && UniqueAddrs(edges)
      modifies this
      ensures |visited| == |edges| && forall i :: 0 <= i < |edges| ==> VisitedOnce(visited, i)
    {
      visited := [];
      var first := NextPosition(edges, hasStarted, current);
      for k := 0 to |edges|
        invariant |visited| == k
        invariant forall j :: 0 <= j < k ==> visited[j] == Wrap(first + j, |edges|)
        invariant NextPosition(edges, hasStarted, current) == Wrap(first + k, |edges|)
      {
        var edge := FindNextEdge(edges);
        visited := visited + [edge.value];
        NextIsAfter(edges, edge.value);
      }
      forall i | 0 <= i < |edges|
        ensures VisitedOnce(visited, i)
      {
        RotationVisits(visited, first, |edges|, i);
      }
    }
  }

  ghost predicate VisitedOnce(visited: seq<nat>, i: nat) {
    exists k :: 0 <= k < |visited| && visited[k] == i && forall j :: 0 <= j < |visited| && visited[j] == i ==> j == k
  }

  lemma NextIsAfter(edges: seq<Edge>, i: nat)
    requires i < |edges| && UniqueAddrs(edges)
    ensures NextPosition(edges, true, edges[i].addr) == if i + 1 < |edges| then i + 1 else 0
  {
    var found := FindEdge(edges, edges[i].addr);
    assert found.Some?;
    assert found.value == i;
  }

  lemma RotationVisits(visited: seq<nat>, first: nat, n: nat, i: nat)
    requires |visited| == n && first < n && i < n
    requires forall j :: 0 <= j < n ==> visited[j] == Wrap(first + j, n)
    ensures VisitedOnce(visited, i)
  {
    var k := if first <= i then i - first else i - first + n;
    forall j | 0 <= j < n && visited[j] == i
      ensures j == k
    {
      assert Wrap(first + j, n) == i;
    }
    assert Wrap(first + k, n) == i;
    assert visited[k] == i;
  }
}
