/** Memories in conflict: edges are written in both directions and the conflicting memories of a recall
    are put into named groups. */
module Conflict {
  import Lexicographic

  datatype Relation = Supports | Conflicts | Duplicates
  datatype Edge = Edge(origin: string, target: string, relation: Relation)
  datatype Outcome = Done | SelfReference | MissingEndpoint | DatabaseFailed

  /** Every relation but support holds both ways. */
  ghost predicate Mutual(edges: set<Edge>)
  {
    forall e :: e in edges && e.relation != Supports ==> Edge(e.target, e.origin, e.relation) in edges
  }

  function EdgesOf(a: string, b: string, relation: Relation): seq<Edge>
  {
    [Edge(a, b, relation)] + if relation == Supports then [] else [Edge(b, a, relation)]
  }

  class Store {
    var memories: set<string>
    var edges: set<Edge>

    constructor ()
      ensures memories == {} && edges == {} && Mutual(edges)
    {
      memories, edges := {}, {};
    }

    /** Each direction is its own insert, and the database may fail before any of them: `landed` is the
        number of inserts it carries out. Only a failure between the two leaves half a conflict. */
    method AddEdge(a: string, b: string, relation: Relation, landed: nat) returns (r: Outcome)
      modifies this`edges
      ensures r == SelfReference <==> a == b
      ensures r == MissingEndpoint <==> a != b && !(a in memories && b in memories)
      ensures r == Done ==> edges == old(edges) + set e | e in EdgesOf(a, b, relation)
      ensures r == SelfReference || r == MissingEndpoint || (r == DatabaseFailed && landed == 0) ==>
                edges == old(edges)
      ensures r == DatabaseFailed && landed == 1 ==> edges == old(edges) + {Edge(a, b, relation)}
      ensures r == DatabaseFailed ==> landed < |EdgesOf(a, b, relation)|
      ensures old(Mutual(edges)) ==>
                (Mutual(edges) <==> r != DatabaseFailed || landed == 0 || Edge(a, b, relation) in old(edges))
    {
      if a == b { return SelfReference; }
      if a !in memories || b !in memories { return MissingEndpoint; }
      var pairs := [Edge(a, b, relation)];
      if relation != Supports { pairs := pairs + [Edge(b, a, relation)]; }
      var i := 0;
      while i < |pairs|
        invariant i <= |pairs| && i <= landed
        invariant edges == old(edges) + set e | e in pairs[..i]
      {
        if i == landed {
          assert pairs[..0] == [] && pairs[..1] == [pairs[0]];
          if i == 1 { HalfAConflict(old(edges), a, b, relation); }
          return DatabaseFailed;
        }
        edges := edges + {pairs[i]};
        assert pairs[..i + 1] == pairs[..i] + [pairs[i]];
        i := i + 1;
      }
      assert pairs[..i] == pairs == EdgesOf(a, b, relation);
      r := Done;
    }
  }

  lemma {:induction false} HalfAConflict(edges: set<Edge>, a: string, b: string, relation: Relation)
    requires a != b && relation != Supports
    ensures Mutual(edges) ==> (Mutual(edges + {Edge(a, b, relation)}) <==> Edge(a, b, relation) in edges)
  {
    var e, back := Edge(a, b, relation), Edge(b, a, relation);
    if Mutual(edges) && e !in edges {
      assert back in edges ==> Edge(back.target, back.origin, back.relation) in edges;
      assert e in edges + {e} && back !in edges + {e};
    }
    if Mutual(edges) && e in edges { assert edges + {e} == edges; }
  }

  // ---- Reachability ----

  type Graph = set<(string, string)>

  ghost predicate Walk(g: Graph, p: seq<string>)
  {
    p != [] && forall i :: 0 <= i < |p| - 1 ==> (p[i], p[i + 1]) in g
  }

  ghost predicate Reaches(g: Graph, a: string, b: string)
  {
    exists p :: Walk(g, p) && p[0] == a && p[|p| - 1] == b
  }

  ghost predicate HasOut(g: Graph, a: string) { exists b :: (a, b) in g }

  ghost predicate Symmetric(g: Graph) { forall a, b :: (a, b) in g ==> (b, a) in g }

  /** No edge leaves the set. */
  ghost predicate Closed(g: Graph, s: set<string>) { forall a, b :: (a, b) in g && a in s ==> b in s }

  lemma {:induction false} ReachesItself(g: Graph, a: string)
    ensures Reaches(g, a, a)
  {
    assert Walk(g, [a]);
  }

  lemma {:induction false} ReachesFurther(g: Graph, a: string, b: string, c: string)
    requires Reaches(g, a, b) && (b, c) in g
    ensures Reaches(g, a, c)
  {
    var p :| Walk(g, p) && p[0] == a && p[|p| - 1] == b;
    assert Walk(g, p + [c]);
  }

  lemma {:induction false} WalkStays(g: Graph, s: set<string>, p: seq<string>)
    requires Closed(g, s) && Walk(g, p) && p[0] in s
    ensures p[|p| - 1] in s
    decreases |p|
  {
    if |p| > 1 {
      assert (p[0], p[1]) in g;
      WalkStays(g, s, p[1..]);
    }
  }

  lemma {:induction false} ClosedIsReached(g: Graph, s: set<string>, a: string, b: string)
    requires Closed(g, s) && a in s && Reaches(g, a, b)
    ensures b in s
  {
    var p :| Walk(g, p) && p[0] == a && p[|p| - 1] == b;
    WalkStays(g, s, p);
  }

  lemma {:induction false} ReachesThrough(g: Graph, a: string, b: string, c: string)
    requires Reaches(g, a, b) && Reaches(g, b, c)
    ensures Reaches(g, a, c)
  {
    var p :| Walk(g, p) && p[0] == a && p[|p| - 1] == b;
    var q :| Walk(g, q) && q[0] == b && q[|q| - 1] == c;
    var r := p + q[1..];
    forall i | 0 <= i < |r| - 1
      ensures (r[i], r[i + 1]) in g
    {
      if i >= |p| - 1 { assert (q[i - |p| + 1], q[i - |p| + 2]) in g; }
    }
    assert Walk(g, r);
  }

  lemma {:induction false} ReachesBack(g: Graph, a: string, b: string)
    requires Symmetric(g) && Reaches(g, a, b)
    ensures Reaches(g, b, a)
  {
    var p :| Walk(g, p) && p[0] == a && p[|p| - 1] == b;
    var r := seq(|p|, i requires 0 <= i < |p| => p[|p| - 1 - i]);
    forall i | 0 <= i < |r| - 1
      ensures (r[i], r[i + 1]) in g
    {
      assert (p[|p| - 2 - i], p[|p| - 2 - i + 1]) in g;
    }
    assert Walk(g, r);
  }

  // ---- Groups ----

  /** The conflicts between requested memories. */
  ghost function Wanted(edges: set<Edge>, ids: seq<string>): Graph
  {
    set e | e in edges && e.relation == Conflicts && e.origin in ids && e.target in ids :: (e.origin, e.target)
  }

  /** The request at `k` starts the group of `x`: the first one with a conflict that leads to `x`. */
  ghost predicate Starts(g: Graph, ids: seq<string>, k: int, x: string)
  {
    0 <= k < |ids| && Leads(g, ids[k], x) && forall j :: 0 <= j < k ==> !Leads(g, ids[j], x)
  }

  ghost predicate Leads(g: Graph, a: string, x: string) { HasOut(g, a) && Reaches(g, a, x) }

  function Join(ids: seq<string>): string
  {
    if |ids| == 0 then "" else if |ids| == 1 then ids[0] else ids[0] + ":" + Join(ids[1..])
  }

  /** The name of a group: its members in order, joined. */
  ghost predicate Names(name: string, members: set<string>)
  {
    exists ids :: Lexicographic.Increasing(ids) && Holds(ids, members) && name == "conflict:" + Join(ids)
  }

  ghost predicate Holds(ids: seq<string>, members: set<string>) { forall x :: x in ids <==> x in members }

  ghost function Group(g: Graph, ids: seq<string>, k: nat): set<string>
  {
    set x | x in ids && Starts(g, ids, k, x)
  }

  /** The adjacency lists hold exactly the edges. */
  ghost predicate Lists(graph: map<string, seq<string>>, g: Graph)
  {
    (forall a :: a in graph <==> HasOut(g, a)) && forall a, b :: a in graph ==> (b in graph[a] <==> (a, b) in g)
  }

  method BuildGraph(edges: set<Edge>, ids: seq<string>) returns (graph: map<string, seq<string>>)
    ensures Lists(graph, Wanted(edges, ids))
  {
    graph := map[];
    var wanted := set id | id in ids;
    var rows := set e | e in edges && e.relation == Conflicts && e.origin in ids;
    ghost var read: Graph := {};
    while rows != {}
      invariant rows <= edges && Lists(graph, read)
      invariant forall e :: e in rows ==> e.relation == Conflicts
      invariant forall a, b :: (a, b) in Wanted(edges, ids) <==>
                               (a, b) in read || (Edge(a, b, Conflicts) in rows && a in ids && b in ids)
    {
      var row :| row in rows;
      rows := rows - {row};
      if row.origin in wanted && row.target in wanted {
        var list := if row.origin in graph then graph[row.origin] else [];
        graph := graph[row.origin := list + [row.target]];
        read := read + {(row.origin, row.target)};
        assert (row.origin, row.target) in read;
      }
    }
    forall p: (string, string)
      ensures p in read <==> p in Wanted(edges, ids)
    {
      assert p == (p.0, p.1);
    }
    assert read == Wanted(edges, ids);
  }

  /** The walk from one request: everything it reaches that no earlier walk has visited. */
  method Collect(graph: map<string, seq<string>>, ghost g: Graph, id: string, before: set<string>,
                 ghost all: set<string>)
    returns (visited: set<string>, members: set<string>)
    requires Lists(graph, g) && Closed(g, before) && id !in before
    requires id in all && forall a, b :: (a, b) in g ==> b in all
    ensures visited == before + members && before !! members && Closed(g, visited)
    ensures forall x :: x in members <==> Reaches(g, id, x) && x !in before
  {
    visited, members := before, {};
    var stack := [id];
    ReachesItself(g, id);
    while stack != []
      invariant visited == before + members && before !! members
      invariant forall x :: x in members || x in stack ==> Reaches(g, id, x) && x in all
      invariant id in members || id in stack
      invariant forall a, b :: (a, b) in g && a in members ==> b in visited || b in stack
      decreases all - members, |stack|
    {
      var node := stack[|stack| - 1];
      assert stack == stack[..|stack| - 1] + [node];
      stack := stack[..|stack| - 1];
      if node !in visited {
        visited := visited + {node};
        members := members + {node};
        forall b | (node, b) in g
          ensures Reaches(g, id, b)
        {
          ReachesFurther(g, id, node, b);
        }
        assert node in all;
        if node in graph { stack := stack + graph[node]; }
      }
    }
    forall x | Reaches(g, id, x)
      ensures x in visited
    {
      ClosedIsReached(g, visited, id, x);
    }
  }

  /** What the walks from the first `n` requests have visited. */
  ghost predicate VisitedBy(g: Graph, ids: seq<string>, n: int, visited: set<string>)
  {
    forall x :: x in visited <==> exists k :: 0 <= k < n && Starts(g, ids, k, x)
  }

  ghost predicate GroupedBy(g: Graph, ids: seq<string>, n: int, groups: map<string, string>)
  {
    (forall x :: x in groups <==> exists k :: 0 <= k < n && Starts(g, ids, k, x)) &&
    (forall k, x :: 0 <= k < n && Starts(g, ids, k, x) ==> Names(groups[x], Group(g, ids, k))) &&
    (forall k, x, y :: 0 <= k < n && Starts(g, ids, k, x) && Starts(g, ids, k, y) ==> groups[x] == groups[y])
  }

  /** A request already visited, or without a conflict, starts no group. */
  lemma {:induction false} StartsNone(g: Graph, ids: seq<string>, n: nat, visited: set<string>)
    requires n < |ids| && VisitedBy(g, ids, n, visited) && (ids[n] in visited || !HasOut(g, ids[n]))
    ensures VisitedBy(g, ids, n + 1, visited)
    ensures forall groups :: GroupedBy(g, ids, n, groups) ==> GroupedBy(g, ids, n + 1, groups)
  {
    forall x
      ensures !Starts(g, ids, n, x)
    {
      if Starts(g, ids, n, x) {
        var k :| 0 <= k < n && Starts(g, ids, k, ids[n]);
        ReachesThrough(g, ids[k], ids[n], x);
      }
    }
  }

  /** A walk from the next request visits the group it starts and nothing else. */
  lemma {:induction false} StartsRest(g: Graph, ids: seq<string>, n: nat, visited: set<string>, x: string)
    requires n < |ids| && VisitedBy(g, ids, n, visited) && HasOut(g, ids[n])
    ensures Starts(g, ids, n, x) <==> Reaches(g, ids[n], x) && x !in visited
  {
    if Reaches(g, ids[n], x) && !Starts(g, ids, n, x) {
      assert Leads(g, ids[n], x);
      var j :| 0 <= j < n && Leads(g, ids[j], x);
      FirstStarts(g, ids, j, x);
    }
  }

  lemma {:induction false} FirstStarts(g: Graph, ids: seq<string>, j: nat, x: string)
    requires j < |ids| && Leads(g, ids[j], x)
    ensures exists k :: 0 <= k <= j && Starts(g, ids, k, x)
    decreases j
  {
    if i :| 0 <= i < j && Leads(g, ids[i], x) {
      FirstStarts(g, ids, i, x);
    } else {
      assert Starts(g, ids, j, x);
    }
  }

  lemma {:induction false} VisitedGrows(g: Graph, ids: seq<string>, n: nat, before: set<string>, members: set<string>)
    requires n < |ids| && VisitedBy(g, ids, n, before) && HasOut(g, ids[n])
    requires forall x :: x in members <==> Reaches(g, ids[n], x) && x !in before
    ensures forall x :: x in members <==> Starts(g, ids, n, x)
    ensures VisitedBy(g, ids, n + 1, before + members)
  {
    forall x
      ensures x in members <==> Starts(g, ids, n, x)
    {
      StartsRest(g, ids, n, before, x);
    }
  }

  lemma {:induction false} GroupsGrow(g: Graph, ids: seq<string>, n: nat, groups: map<string, string>,
                                      members: set<string>, name: string)
    requires n < |ids| && GroupedBy(g, ids, n, groups) && Names(name, members)
    requires forall x :: x in members <==> Starts(g, ids, n, x)
    requires forall x :: x in members ==> x in ids
    ensures GroupedBy(g, ids, n + 1, groups + map m | m in members :: name)
  {
    var r := groups + map m | m in members :: name;
    assert members == Group(g, ids, n);
    forall k, x | 0 <= k < n + 1 && Starts(g, ids, k, x)
      ensures x in r && r[x] == (if k == n then name else groups[x])
    {
      assert k < n ==> x !in members;
    }
  }

  method NameOf(members: set<string>) returns (name: string)
    ensures Names(name, members)
  {
    var sorted := Lexicographic.Sorted(members);
    assert Holds(sorted, members);
    name := "conflict:" + Join(sorted);
  }

  ghost predicate Grouping(g: Graph, ids: seq<string>, n: int, visited: set<string>, groups: map<string, string>)
  {
    Closed(g, visited) && VisitedBy(g, ids, n, visited) && GroupedBy(g, ids, n, groups)
  }

  lemma {:induction false} GroupingSkips(g: Graph, ids: seq<string>, n: nat, visited: set<string>, groups: map<string,
                                         string>)
    requires n < |ids| && Grouping(g, ids, n, visited, groups) && (ids[n] in visited || !HasOut(g, ids[n]))
    ensures Grouping(g, ids, n + 1, visited, groups)
  {
    StartsNone(g, ids, n, visited);
  }

  lemma {:induction false} GroupingGrows(edges: set<Edge>, ids: seq<string>, n: nat, before: set<string>,
                                         groups: map<string, string>,
                      members: set<string>, name: string)
    requires n < |ids| && Grouping(Wanted(edges, ids), ids, n, before, groups) && HasOut(Wanted(edges, ids), ids[n])
    requires Closed(Wanted(edges, ids), before + members) && Names(name, members)
    requires forall x :: x in members <==> Reaches(Wanted(edges, ids), ids[n], x) && x !in before
    ensures Grouping(Wanted(edges, ids), ids, n + 1, before + members, groups + map m | m in members :: name)
  {
    VisitedGrows(Wanted(edges, ids), ids, n, before, members);
    GroupIsRequested(edges, ids, n);
    GroupsGrow(Wanted(edges, ids), ids, n, groups, members, name);
  }

  /** The group the next request starts, with everything it holds. */
  method GroupFrom(ghost edges: set<Edge>, graph: map<string, seq<string>>, ids: seq<string>, n: nat,
                   before: set<string>, named: map<string, string>)
    returns (visited: set<string>, groups: map<string, string>)
    requires n < |ids| && ids[n] in graph && ids[n] !in before && Lists(graph, Wanted(edges, ids))
    requires Grouping(Wanted(edges, ids), ids, n, before, named)
    ensures Grouping(Wanted(edges, ids), ids, n + 1, visited, groups)
  {
    ghost var all := set id | id in ids;
    var members: set<string>;
    visited, members := Collect(graph, Wanted(edges, ids), ids[n], before, all);
    var name := NameOf(members);
    GroupingGrows(edges, ids, n, before, named, members, name);
    groups := named + map m | m in members :: name;
  }

  /** One request of the loop. */
  method GroupNext(ghost edges: set<Edge>, graph: map<string, seq<string>>, ids: seq<string>, n: nat,
                   before: set<string>, named: map<string, string>)
    returns (visited: set<string>, groups: map<string, string>)
    requires n < |ids| && Lists(graph, Wanted(edges, ids)) && Grouping(Wanted(edges, ids), ids, n, before, named)
    ensures Grouping(Wanted(edges, ids), ids, n + 1, visited, groups)
  {
    if ids[n] in before || ids[n] !in graph {
      GroupingSkips(Wanted(edges, ids), ids, n, before, named);
      visited, groups := before, named;
    } else {
      visited, groups := GroupFrom(edges, graph, ids, n, before, named);
    }
  }

  method ConflictGroups(edges: set<Edge>, ids: seq<string>) returns (groups: map<string, string>)
    ensures GroupedBy(Wanted(edges, ids), ids, |ids|, groups)
  {
    var graph := BuildGraph(edges, ids);
    groups := map[];
    var visited := {};
    for i := 0 to |ids|
      invariant Grouping(Wanted(edges, ids), ids, i, visited, groups)
    {
      visited, groups := GroupNext(edges, graph, ids, i, visited, groups);
    }
  }

  lemma {:induction false} GroupIsRequested(edges: set<Edge>, ids: seq<string>, k: nat)
    requires k < |ids|
    ensures forall x :: Starts(Wanted(edges, ids), ids, k, x) ==> x in ids
  {
    var g := Wanted(edges, ids);
    var all := set id | id in ids;
    forall x | Starts(g, ids, k, x)
      ensures x in ids
    {
      ClosedIsReached(g, all, ids[k], x);
    }
  }

  // ---- Groups are the components ----

  lemma {:induction false} HasOutStarts(g: Graph, ids: seq<string>, x: string) returns (k: nat)
    requires x in ids && HasOut(g, x)
    ensures Starts(g, ids, k, x)
  {
    var j :| 0 <= j < |ids| && ids[j] == x;
    ReachesItself(g, x);
    FirstStarts(g, ids, j, x);
    k :| k <= j && Starts(g, ids, k, x);
  }

  lemma {:induction false} ReachedHasOut(g: Graph, a: string, x: string)
    requires Symmetric(g) && HasOut(g, a) && Reaches(g, a, x)
    ensures HasOut(g, x)
  {
    var p :| Walk(g, p) && p[0] == a && p[|p| - 1] == x;
    if |p| > 1 {
      assert (p[|p| - 2], p[|p| - 2 + 1]) in g;
      assert (x, p[|p| - 2]) in g;
    }
  }

  lemma {:induction false} WantedIsSymmetric(edges: set<Edge>, ids: seq<string>)
    requires Mutual(edges)
    ensures Symmetric(Wanted(edges, ids))
  {
    forall a, b | (a, b) in Wanted(edges, ids)
      ensures (b, a) in Wanted(edges, ids)
    {
      assert Edge(a, b, Conflicts) in edges;
      assert Edge(b, a, Conflicts) in edges;
    }
  }

  lemma {:induction false} SameStart(g: Graph, ids: seq<string>, k: int, x: string, y: string)
    requires Symmetric(g) && Starts(g, ids, k, x) && Reaches(g, x, y)
    ensures Starts(g, ids, k, y)
  {
    ReachesThrough(g, ids[k], x, y);
    ReachesBack(g, x, y);
    forall j | 0 <= j < k
      ensures !Leads(g, ids[j], y)
    {
      if Leads(g, ids[j], y) { ReachesThrough(g, ids[j], y, x); }
    }
  }

  lemma {:induction false} GroupedIffInConflict(edges: set<Edge>, ids: seq<string>, groups: map<string, string>,
                                                x: string)
    requires Mutual(edges) && GroupedBy(Wanted(edges, ids), ids, |ids|, groups)
    ensures x in groups <==> x in ids && HasOut(Wanted(edges, ids), x)
  {
    var g := Wanted(edges, ids);
    WantedIsSymmetric(edges, ids);
    if x in groups {
      var k :| 0 <= k < |ids| && Starts(g, ids, k, x);
      GroupIsRequested(edges, ids, k);
      ReachedHasOut(g, ids[k], x);
    } else if x in ids && HasOut(g, x) {
      var k := HasOutStarts(g, ids, x);
    }
  }

  lemma {:induction false} ConnectedIsSameGroup(edges: set<Edge>, ids: seq<string>, groups: map<string, string>,
                                                x: string, y: string)
    requires Mutual(edges) && GroupedBy(Wanted(edges, ids), ids, |ids|, groups)
    requires x in groups && y in groups && Reaches(Wanted(edges, ids), x, y)
    ensures groups[x] == groups[y]
  {
    var g := Wanted(edges, ids);
    WantedIsSymmetric(edges, ids);
    var k :| 0 <= k < |ids| && Starts(g, ids, k, x);
    SameStart(g, ids, k, x, y);
  }

  /** When edges hold both ways and no id holds a colon, exactly the requested memories with a conflict
      inside the request are grouped, and two of them are in one group when and only when conflicts inside
      the request connect them. */
  lemma {:induction false} GroupsAreComponents(edges: set<Edge>, ids: seq<string>, groups: map<string, string>)
    requires Mutual(edges) && NoColon(ids) && GroupedBy(Wanted(edges, ids), ids, |ids|, groups)
    ensures forall x :: x in groups <==> x in ids && HasOut(Wanted(edges, ids), x)
    ensures forall x, y :: x in groups && y in groups ==>
              (groups[x] == groups[y] <==> Reaches(Wanted(edges, ids), x, y))
  {
    forall x
      ensures x in groups <==> x in ids && HasOut(Wanted(edges, ids), x)
    {
      GroupedIffInConflict(edges, ids, groups, x);
    }
    forall x, y | x in groups && y in groups
      ensures groups[x] == groups[y] <==> Reaches(Wanted(edges, ids), x, y)
    {
      OneGroupIffConnected(edges, ids, groups, x, y);
    }
  }

  lemma {:induction false} OneGroupIffConnected(edges: set<Edge>, ids: seq<string>, groups: map<string, string>,
                                                 x: string, y: string)
    requires Mutual(edges) && NoColon(ids) && GroupedBy(Wanted(edges, ids), ids, |ids|, groups)
    requires x in groups && y in groups
    ensures groups[x] == groups[y] <==> Reaches(Wanted(edges, ids), x, y)
  {
    if Reaches(Wanted(edges, ids), x, y) {
      ConnectedIsSameGroup(edges, ids, groups, x, y);
    } else if groups[x] == groups[y] {
      SameNameIsConnected(edges, ids, groups, x, y);
    }
  }

  predicate NoColon(ids: seq<string>) { forall i :: 0 <= i < |ids| ==> ':' !in ids[i] }

  lemma {:induction false} SameNameIsConnected(edges: set<Edge>, ids: seq<string>, groups: map<string, string>,
                                               x: string, y: string)
    requires Mutual(edges) && NoColon(ids) && GroupedBy(Wanted(edges, ids), ids, |ids|, groups)
    requires x in groups && y in groups && groups[x] == groups[y]
    ensures Reaches(Wanted(edges, ids), x, y)
  {
    var g := Wanted(edges, ids);
    WantedIsSymmetric(edges, ids);
    var k :| 0 <= k < |ids| && Starts(g, ids, k, x);
    var l :| 0 <= l < |ids| && Starts(g, ids, l, y);
    GroupIsRequested(edges, ids, k);
    GroupIsRequested(edges, ids, l);
    assert x in Group(g, ids, k) && y in Group(g, ids, l);
    NameTellsMembers(groups[x], Group(g, ids, k), Group(g, ids, l), ids);
    assert Starts(g, ids, k, y);
    ReachesBack(g, ids[k], x);
    ReachesThrough(g, x, ids[k], y);
  }

  // ---- Names ----

  lemma {:induction false} NameTellsMembers(name: string, a: set<string>, b: set<string>, ids: seq<string>)
    requires a != {} && b != {} && NoColon(ids) && (forall x :: x in a || x in b ==> x in ids)
    requires Names(name, a) && Names(name, b)
    ensures a == b
  {
    var p :| Lexicographic.Increasing(p) && Holds(p, a) && name == "conflict:" + Join(p);
    var q :| Lexicographic.Increasing(q) && Holds(q, b) && name == "conflict:" + Join(q);
    assert name[9..] == Join(p) == Join(q);
    forall i | 0 <= i < |p|
      ensures ':' !in p[i]
    {
      assert p[i] in a;
    }
    forall i | 0 <= i < |q|
      ensures ':' !in q[i]
    {
      assert q[i] in b;
    }
    assert p != [] by { var x :| x in a; assert x in p; }
    assert q != [] by { var x :| x in b; assert x in q; }
    JoinInjective(p, q);
    forall x
      ensures x in a <==> x in b
    {
      assert x in a <==> x in p;
    }
  }

  lemma {:induction false} JoinInjective(a: seq<string>, b: seq<string>)
    requires a != [] && b != [] && NoColon(a) && NoColon(b) && Join(a) == Join(b)
    ensures a == b
    decreases |a|
  {
    if |a| > 1 && |b| > 1 {
      SplitAtColon(a[0], Join(a[1..]), b[0], Join(b[1..]));
      JoinInjective(a[1..], b[1..]);
      assert a == [a[0]] + a[1..] && b == [b[0]] + b[1..];
    }
  }

  lemma {:induction false} SplitAtColon(a: string, x: string, b: string, y: string)
    requires ':' !in a && ':' !in b && a + ":" + x == b + ":" + y
    ensures a == b && x == y
  {
    var s := a + ":" + x;
    assert s[|a|] == ':' && s[|b|] == ':';
    assert forall i :: 0 <= i < |a| ==> s[i] == a[i];
    assert forall i :: 0 <= i < |b| ==> s[i] == b[i];
    assert |a| == |b|;
    assert a == s[..|a|] == s[..|b|] == b;
    assert x == s[|a| + 1..] == s[|b| + 1..] == y;
  }

  // ---- Where the groups are not the components ----

  lemma {:induction false} SortedPair(p: seq<string>, a: string, b: string)
    requires Lexicographic.Increasing(p) && Holds(p, {a, b}) && Lexicographic.Less(a, b)
    ensures p == [a, b]
  {
    assert a in p && b in p;
    assert forall i :: 0 <= i < |p| ==> p[i] in p;
    assert |p| >= 2 ==> Lexicographic.Less(p[0], p[1]);
    assert |p| >= 3 ==> Lexicographic.Less(p[1], p[2]) && Lexicographic.Less(p[0], p[2]);
    if |p| >= 2 && p[0] == b { Lexicographic.Antisymmetric(a, b); }
  }

  ghost function Others(ids: seq<string>, a: string, b: string): set<string>
  {
    set id | id in ids && id != a && id != b
  }

  /** A pair of memories in conflict with each other and with no other. */
  ghost predicate Apart(g: Graph, ids: seq<string>, a: string, b: string)
  {
    (a, b) in g && Closed(g, {a, b}) && Closed(g, Others(ids, a, b))
  }

  lemma {:induction false} PairReaches(g: Graph, ids: seq<string>, a: string, b: string, s: string, x: string)
    requires Apart(g, ids, a, b) && s in ids
    ensures Reaches(g, s, x) ==> (s in {a, b} <==> x in {a, b})
  {
    if Reaches(g, s, x) {
      ClosedIsReached(g, if s in {a, b} then {a, b} else Others(ids, a, b), s, x);
    }
  }

  lemma {:induction false} PairStarts(g: Graph, ids: seq<string>, k: nat, a: string, b: string, x: string)
    requires Apart(g, ids, a, b) && k < |ids| && ids[k] == a && forall j :: 0 <= j < k ==> ids[j] != a && ids[j] != b
    ensures Starts(g, ids, k, x) <==> x in {a, b}
  {
    ReachesItself(g, a);
    ReachesFurther(g, a, a, b);
    PairReaches(g, ids, a, b, a, x);
    forall j | 0 <= j < k && x in {a, b}
      ensures !Leads(g, ids[j], x)
    {
      PairReaches(g, ids, a, b, ids[j], x);
    }
  }

  lemma {:induction false} PairName(name: string, a: string, b: string)
    requires Names(name, {a, b}) && Lexicographic.Less(a, b)
    ensures name == "conflict:" + (a + ":" + b)
  {
    var p :| Lexicographic.Increasing(p) && Holds(p, {a, b}) && name == "conflict:" + Join(p);
    SortedPair(p, a, b);
    assert Join([a, b]) == a + ":" + Join([b]);
  }

  lemma {:induction false} PairIsGroup(g: Graph, ids: seq<string>, groups: map<string, string>,
                                       k: nat, a: string, b: string)
    requires Apart(g, ids, a, b) && k < |ids| && ids[k] == a && forall j :: 0 <= j < k ==> ids[j] != a && ids[j] != b
    requires b in ids && Lexicographic.Less(a, b) && GroupedBy(g, ids, |ids|, groups)
    ensures a in groups && groups[a] == "conflict:" + (a + ":" + b)
  {
    forall x
      ensures Starts(g, ids, k, x) <==> x in {a, b}
    {
      PairStarts(g, ids, k, a, b, x);
    }
    assert Group(g, ids, k) == {a, b};
    assert Starts(g, ids, k, a);
    PairName(groups[a], a, b);
  }

  /** Two conflicts with nothing between them: `a` with `b`, and `c` with `d`. */
  ghost function TwoConflicts(a: string, b: string, c: string, d: string): set<Edge>
  {
    {Edge(a, b, Conflicts), Edge(b, a, Conflicts), Edge(c, d, Conflicts), Edge(d, c, Conflicts)}
  }

  lemma {:induction false} TwoConflictsHoldBothWays(a: string, b: string, c: string, d: string)
    ensures Mutual(TwoConflicts(a, b, c, d))
  {
  }

  predicate Distinct(a: string, b: string, c: string, d: string)
  {
    a != b && a != c && a != d && b != c && b != d && c != d
  }

  lemma {:induction false} FirstApart(a: string, b: string, c: string, d: string, ids: seq<string>)
    requires Distinct(a, b, c, d) && ids in {[a, b, c, d], [c, d, a, b]}
    ensures Apart(Wanted(TwoConflicts(a, b, c, d), ids), ids, a, b)
  {
    assert a in ids && b in ids by { assert ids[0] in ids && ids[1] in ids && ids[2] in ids && ids[3] in ids; }
    assert Edge(a, b, Conflicts) in TwoConflicts(a, b, c, d);
  }

  /** Two unconnected conflicts get one name when their members join to one text. */
  lemma {:induction false} JoinsCollide(a: string, b: string, c: string, d: string, groups: map<string, string>)
    requires Distinct(a, b, c, d) && Lexicographic.Less(a, b) && Lexicographic.Less(c, d)
    requires a + ":" + b == c + ":" + d
    requires GroupedBy(Wanted(TwoConflicts(a, b, c, d), [a, b, c, d]), [a, b, c, d], 4, groups)
    ensures a in groups && c in groups && groups[a] == groups[c]
    ensures Mutual(TwoConflicts(a, b, c, d)) && !Reaches(Wanted(TwoConflicts(a, b, c, d), [a, b, c, d]), a, c)
  {
    TwoConflictsHoldBothWays(a, b, c, d);
    var ids, g := [a, b, c, d], Wanted(TwoConflicts(a, b, c, d), [a, b, c, d]);
    FirstApart(a, b, c, d, ids);
    FirstApart(c, d, a, b, ids);
    assert TwoConflicts(c, d, a, b) == TwoConflicts(a, b, c, d);
    assert ids[0] == a && ids[1] == b && ids[2] == c && ids[3] == d;
    PairIsGroup(g, ids, groups, 0, a, b);
    PairIsGroup(g, ids, groups, 2, c, d);
    PairReaches(g, ids, a, b, a, c);
  }

  /** Ids that hold colons do so: `a:b` with `c`, and `a` with `b:c`. */
  lemma {:induction false} ColonsCollide()
    ensures exists a, b, c, d :: Distinct(a, b, c, d) && Lexicographic.Less(a, b) && Lexicographic.Less(c, d) &&
                                 a + ":" + b == c + ":" + d
  {
    var a, b, c, d := "a:b", "c", "a", "b:c";
    assert a[0] == 'a' && b[0] == 'c' && c[0] == 'a' && d[0] == 'b' && |a| == 3 && |c| == 1;
    assert a + ":" + b == c + ":" + d;
    assert Distinct(a, b, c, d) && Lexicographic.Less(a, b) && Lexicographic.Less(c, d);
  }

  /** `a` and `b` are in conflict with `c`, and neither conflict was written the other way. */
  ghost function HalfConflicts(a: string, b: string, c: string): set<Edge>
  {
    {Edge(a, c, Conflicts), Edge(b, c, Conflicts)}
  }

  lemma {:induction false} HalfConflictStarts(a: string, b: string, c: string)
    requires a != b && a != c && b != c
    ensures var g := Wanted(HalfConflicts(a, b, c), [a, b, c]);
            Starts(g, [a, b, c], 0, c) && Starts(g, [a, b, c], 1, b)
  {
    var ids, g := [a, b, c], Wanted(HalfConflicts(a, b, c), [a, b, c]);
    assert ids[0] == a && ids[1] == b && ids[2] == c;
    assert Edge(a, c, Conflicts) in HalfConflicts(a, b, c) && Edge(b, c, Conflicts) in HalfConflicts(a, b, c);
    assert (a, c) in g && (b, c) in g;
    ReachesItself(g, a);
    ReachesItself(g, b);
    ReachesFurther(g, a, a, c);
    if Reaches(g, a, b) {
      assert Closed(g, {a, c});
      ClosedIsReached(g, {a, c}, a, b);
    }
  }

  /** Where only one direction of a conflict was written its two ends can get different groups: `c` goes
      with `a`, and `b`, which is in conflict with `c`, is left to itself. */
  lemma {:induction false} HalfConflictSplits(a: string, b: string, c: string, groups: map<string, string>)
    requires a != b && a != c && b != c && NoColon([a, b, c])
    requires GroupedBy(Wanted(HalfConflicts(a, b, c), [a, b, c]), [a, b, c], 3, groups)
    ensures Edge(b, c, Conflicts) in HalfConflicts(a, b, c) && b in groups && c in groups && groups[b] != groups[c]
  {
    var ids, g := [a, b, c], Wanted(HalfConflicts(a, b, c), [a, b, c]);
    HalfConflictStarts(a, b, c);
    GroupIsRequested(HalfConflicts(a, b, c), ids, 0);
    GroupIsRequested(HalfConflicts(a, b, c), ids, 1);
    assert c in Group(g, ids, 0) && b in Group(g, ids, 1) && c !in Group(g, ids, 1);
    if groups[b] == groups[c] { NameTellsMembers(groups[b], Group(g, ids, 0), Group(g, ids, 1), ids); }
  }
}
