/** What a breadth-first execution of a flow leaves behind, as a sequence of
    visits, and what follows from it: which nodes run, in which order, and on
    which input. */
module Traversal {
  import opened Values
  import opened Sequences
  import opened Graph
  import opened Rollback
  import opened Nodes

  /** One executed node: the visit it was discovered from, its input and output,
      and its distance from the trigger. */
  datatype Visit = Visit(id: string, from: nat, input: Value, output: Value, depth: nat)

  function VisitIds(t: seq<Visit>): (ids: seq<string>)
    ensures |ids| == |t| && forall i :: 0 <= i < |t| ==> ids[i] == t[i].id
  {
    seq(|t|, i requires 0 <= i < |t| => t[i].id)
  }

  /** An edge out of an executed node is live if its handle is one the node's
      output emits. */
  ghost predicate Live(g: Graph, v: Visit, id: string)
  {
    && v.id in g.nodes
    && exists e ::
         && e in Adjacent(g.adj, v.id) && e.target == id
         && e.sourceHandle in EmittedHandles(g.nodes[v.id], v.output)
  }

  ghost predicate RootVisit(g: Graph, v: Visit)
  {
    && v.from == 0 && v.depth == 0 && v.input == Nil
    && UniqueTrigger(g, v.id)
  }

  /** The edges that are live when `v` has run, in declaration order. */
  function LiveList(g: Graph, v: Visit): seq<Edge>
  {
    if v.id in g.nodes then WithHandle(Adjacent(g.adj, v.id), EmittedHandles(g.nodes[v.id], v.output)[0]) else []
  }

  lemma LiveIsListed(g: Graph, v: Visit, id: string)
    ensures Live(g, v, id) <==> exists e :: e in LiveList(g, v) && e.target == id
  {
    if v.id in g.nodes {
      var hs := EmittedHandles(g.nodes[v.id], v.output);
      assert forall h :: h in hs <==> h == hs[0];
      assert forall e :: e in LiveList(g, v) <==> e in Adjacent(g.adj, v.id) && e.sourceHandle == hs[0];
    }
  }

  // ---- what a breadth-first search visits next ---------------------------

  /** A node not yet visited and the visit a live edge leads to it from. */
  datatype Discovery = Discovery(from: nat, id: string)

  /** The target of the first edge to a node not seen yet. */
  function FirstNew(es: seq<Edge>, seen: seq<string>): (r: Option<string>)
    ensures r.None? <==> forall e :: e in es ==> e.target in seen
    ensures r.Some? ==> r.value !in seen && exists e :: e in es && e.target == r.value
  {
    if es == [] then None
    else if es[0].target !in seen then Some(es[0].target)
    else
      assert forall e :: e in es <==> e == es[0] || e in es[1..];
      FirstNew(es[1..], seen)
  }

  function NextFrom(g: Graph, t: seq<Visit>, h: nat): Option<Discovery>
    requires h <= |t|
    decreases |t| - h
  {
    if h == |t| then None
    else match FirstNew(LiveList(g, t[h]), VisitIds(t))
      case Some(id) => Some(Discovery(h, id))
      case None => NextFrom(g, t, h + 1)
  }

  /** The first unvisited target along the live edges of the visits in order:
      the node a breadth-first search visits next, if it is not done. */
  function NextDiscovery(g: Graph, t: seq<Visit>): Option<Discovery>
  {
    NextFrom(g, t, 0)
  }

  /** `v` is the next visit of a breadth-first search: the next discovery, one
      step further out than the visit that discovered it and with that visit's
      output as its input. */
  ghost predicate FollowsOn(g: Graph, before: seq<Visit>, v: Visit)
  {
    && NextDiscovery(g, before) == Some(Discovery(v.from, v.id))
    && v.from < |before| && v.id in g.nodes
    && v.input == before[v.from].output && v.depth == before[v.from].depth + 1
  }

  /** A breadth-first search, complete or not: the trigger, then every visit the
      next one. */
  ghost predicate BreadthFirst(g: Graph, t: seq<Visit>)
  {
    && |t| > 0 && RootVisit(g, t[0])
    && forall j :: 1 <= j < |t| ==> FollowsOn(g, t[..j], t[j])
  }

  /** A finished traversal. */
  ghost predicate Explored(g: Graph, t: seq<Visit>)
  {
    BreadthFirst(g, t) && NextDiscovery(g, t).None?
  }

  /** Every live edge of visit `i` leads to a visited node. */
  ghost predicate Covered(g: Graph, t: seq<Visit>, i: nat)
    requires i < |t|
  {
    forall e :: e in LiveList(g, t[i]) ==> e.target in VisitIds(t)
  }

  lemma {:induction false} NextFromIs(g: Graph, t: seq<Visit>, h: nat)
    requires h <= |t|
    ensures match NextFrom(g, t, h)
            case None => forall i :: h <= i < |t| ==> Covered(g, t, i)
            case Some(d) =>
              && h <= d.from < |t| && d.id !in VisitIds(t)
              && (exists e :: e in LiveList(g, t[d.from]) && e.target == d.id)
              && !Covered(g, t, d.from)
              && forall i :: h <= i < d.from ==> Covered(g, t, i)
    decreases |t| - h
  {
    hide LiveList, VisitIds;
    if h < |t| && FirstNew(LiveList(g, t[h]), VisitIds(t)).None? {
      assert Covered(g, t, h);
      NextFromIs(g, t, h + 1);
    }
  }

  lemma {:induction false} FirstNewAt(es: seq<Edge>, seen: seq<string>, k: nat)
    requires k < |es| && es[k].target !in seen
    requires forall e :: e in es[..k] ==> e.target in seen
    ensures FirstNew(es, seen) == Some(es[k].target)
  {
    if k > 0 {
      assert es[0] in es[..k];
      assert forall e :: e in es[1..][..k - 1] ==> e in es[..k];
      FirstNewAt(es[1..], seen, k - 1);
    }
  }

  /** The search is at visit `h`: the visits before it are covered, and so are
      its first `k` live edges; then the next edge to an unvisited node is the
      next discovery. */
  lemma {:induction false} NextIsEdge(g: Graph, t: seq<Visit>, i: nat, h: nat, k: nat)
    requires i <= h < |t| && k < |LiveList(g, t[h])|
    requires forall j :: i <= j < h ==> Covered(g, t, j)
    requires forall e :: e in LiveList(g, t[h])[..k] ==> e.target in VisitIds(t)
    requires LiveList(g, t[h])[k].target !in VisitIds(t)
    ensures NextFrom(g, t, i) == Some(Discovery(h, LiveList(g, t[h])[k].target))
    decreases h - i
  {
    hide LiveList, VisitIds, FirstNew;
    if i == h {
      FirstNewAt(LiveList(g, t[h]), VisitIds(t), k);
    } else {
      assert Covered(g, t, i);
      NextIsEdge(g, t, i + 1, h, k);
    }
  }

  /** A search whose visits are all covered is done. */
  lemma CoveredIsExplored(g: Graph, t: seq<Visit>)
    requires BreadthFirst(g, t) && forall i :: 0 <= i < |t| ==> Covered(g, t, i)
    ensures Explored(g, t)
  {
    hide LiveList, VisitIds, NextFrom;
    NextFromIs(g, t, 0);
  }

  // ---- what the visits of a search have in common ------------------------

  /** Visit `j` was discovered by the earliest visit with a live edge to it, one
      step further out, and took that visit's output as its input. */
  ghost predicate DiscoveredBy(g: Graph, t: seq<Visit>, j: nat)
    requires j < |t|
  {
    var i := t[j].from;
    && i < j
    && Live(g, t[i], t[j].id)
    && t[j].input == t[i].output && t[j].depth == t[i].depth + 1
    && (forall k :: 0 <= k < i ==> !Live(g, t[k], t[j].id))
  }

  lemma BreadthFirstExtends(g: Graph, t: seq<Visit>, v: Visit)
    requires BreadthFirst(g, t) && FollowsOn(g, t, v)
    ensures BreadthFirst(g, t + [v])
  {
    hide FollowsOn, RootVisit;
    var t' := t + [v];
    forall j | 1 <= j < |t'|
      ensures FollowsOn(g, t'[..j], t'[j])
    {
      if j < |t| {
        assert t'[..j] == t[..j];
      } else {
        assert t'[..j] == t;
      }
    }
  }

  lemma VisitIdsPrefix(t: seq<Visit>, n: nat)
    requires n <= |t|
    ensures VisitIds(t[..n]) == VisitIds(t)[..n]
  {
  }

  lemma VisitIsNew(g: Graph, t: seq<Visit>, j: nat)
    requires BreadthFirst(g, t) && 1 <= j < |t|
    ensures t[j].id in g.nodes && t[j].id !in VisitIds(t)[..j]
  {
    hide LiveList, NextFrom;
    assert FollowsOn(g, t[..j], t[j]);
    NextFromIs(g, t[..j], 0);
    VisitIdsPrefix(t, j);
  }

  lemma VisitsAreDistinct(g: Graph, t: seq<Visit>)
    requires BreadthFirst(g, t)
    ensures NoDup(VisitIds(t)) && forall i :: 0 <= i < |t| ==> t[i].id in g.nodes
  {
    hide FollowsOn;
    forall i, j | 0 <= i < j < |t|
      ensures VisitIds(t)[i] != VisitIds(t)[j]
    {
      VisitIsNew(g, t, j);
      assert VisitIds(t)[..j][i] == VisitIds(t)[i];
    }
    forall j | 1 <= j < |t|
      ensures t[j].id in g.nodes
    {
      VisitIsNew(g, t, j);
    }
  }

  lemma VisitIsDiscovered(g: Graph, t: seq<Visit>, j: nat)
    requires BreadthFirst(g, t) && 1 <= j < |t|
    ensures DiscoveredBy(g, t, j)
  {
    hide LiveList, NextFrom, Live;
    var before := t[..j];
    assert FollowsOn(g, before, t[j]);
    NextFromIs(g, before, 0);
    var i := t[j].from;
    assert before[i] == t[i];
    LiveIsListed(g, t[i], t[j].id);
    forall k | 0 <= k < i
      ensures !Live(g, t[k], t[j].id)
    {
      assert before[k] == t[k] && Covered(g, before, k);
      LiveIsListed(g, t[k], t[j].id);
    }
  }

  lemma LiveBeforeDiscoverer(g: Graph, t: seq<Visit>, i: nat, k: nat, id: string)
    requires BreadthFirst(g, t) && 1 <= i < |t| && k < t[i].from < i && Live(g, t[k], id)
    ensures id in VisitIds(t)[..i]
  {
    hide LiveList, NextFrom, Live;
    assert FollowsOn(g, t[..i], t[i]);
    NextFromIs(g, t[..i], 0);
    assert t[..i][k] == t[k] && Covered(g, t[..i], k);
    LiveIsListed(g, t[k], id);
    VisitIdsPrefix(t, i);
  }

  /** Later visits are discovered from later visits. */
  lemma DiscoverersAscend(g: Graph, t: seq<Visit>, i: nat, j: nat)
    requires BreadthFirst(g, t) && 1 <= i <= j < |t|
    ensures t[i].from <= t[j].from
  {
    hide FollowsOn, Live;
    VisitIsDiscovered(g, t, i);
    VisitIsDiscovered(g, t, j);
    VisitIsNew(g, t, j);
    assert VisitIds(t)[..i] == VisitIds(t)[..j][..i];
    if t[j].from < t[i].from {
      LiveBeforeDiscoverer(g, t, i, t[j].from, t[j].id);
    }
  }

  // ---- replaying the nodes ----------------------------------------------

  /** The tool calls made by the visits of `t`. */
  function CallsAfter(env: Env, perms: Permissions, g: Graph, t: seq<Visit>): nat
    decreases |t|, 0
  {
    if t == [] then 0 else ReplyOf(env, perms, g, t[..|t| - 1], t[|t| - 1]).calls
  }

  /** What the node of visit `v` replies after the visits `before`. */
  function ReplyOf(env: Env, perms: Permissions, g: Graph, before: seq<Visit>, v: Visit): Reply
    decreases |before|, 1
  {
    var calls := CallsAfter(env, perms, g, before);
    if v.id in g.nodes then NodeReply(env, perms, g.nodes[v.id], v.input, calls)
    else Reply(Crashed, [], calls, [])
  }

  /** Every visit's output is what its node replied. */
  ghost predicate Replays(env: Env, perms: Permissions, g: Graph, t: seq<Visit>)
  {
    forall i :: 0 <= i < |t| ==> ReplyOf(env, perms, g, t[..i], t[i]).out == Output(t[i].output)
  }

  function EffectsOf(env: Env, perms: Permissions, g: Graph, t: seq<Visit>): seq<Effect>
  {
    if t == [] then []
    else
      var init := t[..|t| - 1];
      EffectsOf(env, perms, g, init) + ReplyOf(env, perms, g, init, t[|t| - 1]).effects
  }

  function LogsOf(env: Env, perms: Permissions, g: Graph, t: seq<Visit>): seq<LogEvent>
  {
    if t == [] then []
    else
      var init, last := t[..|t| - 1], t[|t| - 1];
      LogsOf(env, perms, g, init) + ReplyOf(env, perms, g, init, last).logs + [NodeExecuted(last.id)]
  }

  function OutputsOf(t: seq<Visit>): map<string, Value>
  {
    if t == [] then map[] else OutputsOf(t[..|t| - 1])[t[|t| - 1].id := t[|t| - 1].output]
  }

  lemma {:induction false} OutputsOfVisits(t: seq<Visit>)
    ensures OutputsOf(t).Keys == ToSet(VisitIds(t))
    ensures NoDup(VisitIds(t)) ==>
              forall i :: 0 <= i < |t| ==> t[i].id in OutputsOf(t) && OutputsOf(t)[t[i].id] == t[i].output
  {
    if t != [] {
      var init, last := t[..|t| - 1], t[|t| - 1];
      OutputsOfVisits(init);
      assert VisitIds(t) == VisitIds(init) + [last.id];
      NoDupConcat(VisitIds(init), [last.id]);
      forall i | 0 <= i < |init| && NoDup(VisitIds(t))
        ensures t[i].id in OutputsOf(t) && OutputsOf(t)[t[i].id] == t[i].output
      {
        assert init[i] == t[i] && VisitIds(init)[i] == t[i].id && last.id !in VisitIds(init);
      }
    }
  }

  // ---- what a finished traversal means -----------------------------------

  /** A set of nodes containing the trigger and closed under the live edges of
      the executed nodes in it. */
  ghost predicate LiveClosed(g: Graph, t: seq<Visit>, s: set<string>)
    requires |t| > 0
  {
    && t[0].id in s
    && forall i, id :: 0 <= i < |t| && t[i].id in s && Live(g, t[i], id) ==> id in s
  }

  lemma LiveIsVisited(g: Graph, t: seq<Visit>, i: nat, id: string)
    requires Explored(g, t) && i < |t| && Live(g, t[i], id)
    ensures id in VisitIds(t)
  {
    hide LiveList, Live;
    NextFromIs(g, t, 0);
    assert Covered(g, t, i);
    LiveIsListed(g, t[i], id);
  }

  lemma {:induction false} VisitInClosedSet(g: Graph, t: seq<Visit>, s: set<string>, j: nat)
    requires BreadthFirst(g, t) && LiveClosed(g, t, s) && j < |t|
    ensures t[j].id in s
  {
    hide Live;
    if j > 0 {
      VisitIsDiscovered(g, t, j);
      VisitInClosedSet(g, t, s, t[j].from);
    }
  }

  /** The executed nodes are the least such set, and each of them ran once. */
  lemma ExecutedIsLeastFixedPoint(g: Graph, t: seq<Visit>, s: set<string>)
    requires Explored(g, t)
    ensures LiveClosed(g, t, ToSet(VisitIds(t)))
    ensures LiveClosed(g, t, s) ==> ToSet(VisitIds(t)) <= s
    ensures NoDup(VisitIds(t)) && |t| <= |g.nodes|
  {
    hide Live;
    VisitsAreDistinct(g, t);
    assert VisitIds(t)[0] == t[0].id;
    forall i, id | 0 <= i < |t| && Live(g, t[i], id)
      ensures id in VisitIds(t)
    {
      LiveIsVisited(g, t, i, id);
    }
    if LiveClosed(g, t, s) {
      forall j | 0 <= j < |t|
        ensures t[j].id in s
      {
        VisitInClosedSet(g, t, s, j);
      }
    }
    Pigeonhole(VisitIds(t), g.nodes.Keys);
  }

  /** Along the execution order the distance from the trigger never decreases. */
  lemma {:induction false} DepthsAscend(g: Graph, t: seq<Visit>, i: nat, j: nat)
    requires BreadthFirst(g, t) && i <= j < |t|
    ensures t[i].depth <= t[j].depth
    decreases j
  {
    hide Live, FollowsOn;
    if j > 0 {
      VisitIsDiscovered(g, t, j);
      if i > 0 {
        VisitIsDiscovered(g, t, i);
        DiscoverersAscend(g, t, i, j);
        DepthsAscend(g, t, t[i].from, t[j].from);
      }
    }
  }

  /** A live edge never leads more than one step further out. */
  lemma LiveStepBound(g: Graph, t: seq<Visit>, i: nat, j: nat)
    requires BreadthFirst(g, t) && i < |t| && j < |t| && Live(g, t[i], t[j].id)
    ensures t[j].depth <= t[i].depth + 1
  {
    hide Live, FollowsOn;
    if j > 0 {
      VisitIsDiscovered(g, t, j);
      assert t[j].from <= i;
      DepthsAscend(g, t, t[j].from, i);
    }
  }

  /** A path of live edges, by positions in the execution order. */
  ghost predicate LivePath(g: Graph, t: seq<Visit>, p: seq<nat>)
  {
    && |p| > 0 && p[0] == 0
    && (forall k :: 0 <= k < |p| ==> p[k] < |t|)
    && (forall k :: 0 <= k < |p| - 1 ==> Live(g, t[p[k]], t[p[k + 1]].id))
  }

  lemma {:induction false} PathsAreNoShorter(g: Graph, t: seq<Visit>, p: seq<nat>)
    requires BreadthFirst(g, t) && LivePath(g, t, p)
    ensures t[p[|p| - 1]].depth <= |p| - 1
    decreases |p|
  {
    if |p| > 1 {
      var q := p[..|p| - 1];
      PathsAreNoShorter(g, t, q);
      LiveStepBound(g, t, q[|q| - 1], p[|p| - 1]);
    }
  }

  lemma {:induction false} DiscoveryPath(g: Graph, t: seq<Visit>, j: nat) returns (p: seq<nat>)
    requires BreadthFirst(g, t) && j < |t|
    ensures LivePath(g, t, p) && p[|p| - 1] == j && |p| == t[j].depth + 1
    decreases j
  {
    hide Live, FollowsOn;
    if j == 0 {
      p := [0];
    } else {
      VisitIsDiscovered(g, t, j);
      var q := DiscoveryPath(g, t, t[j].from);
      p := q + [j];
      forall k | 0 <= k < |p| - 1
        ensures Live(g, t[p[k]], t[p[k + 1]].id)
      {
        if k < |q| - 1 {
          assert p[k] == q[k] && p[k + 1] == q[k + 1];
        }
      }
    }
  }

  /** The recorded depth of a node is its distance from the trigger along live
      edges: some live path has that length and none is shorter; and its input
      is the output of a live predecessor executed earlier, one step nearer. */
  lemma DepthIsDistance(g: Graph, t: seq<Visit>, j: nat)
    requires BreadthFirst(g, t) && j < |t|
    ensures exists p :: LivePath(g, t, p) && p[|p| - 1] == j && |p| - 1 == t[j].depth
    ensures forall p :: LivePath(g, t, p) && p[|p| - 1] == j ==> |p| - 1 >= t[j].depth
    ensures j > 0 ==> exists i ::
              && 0 <= i < j && Live(g, t[i], t[j].id)
              && t[j].input == t[i].output && t[i].depth + 1 == t[j].depth
  {
    hide Live, FollowsOn;
    var p := DiscoveryPath(g, t, j);
    assert |p| - 1 == t[j].depth;
    forall q | LivePath(g, t, q) && q[|q| - 1] == j
      ensures |q| - 1 >= t[j].depth
    {
      PathsAreNoShorter(g, t, q);
    }
    if j > 0 {
      VisitIsDiscovered(g, t, j);
    }
  }

  // ---- the search is determined ------------------------------------------

  /** Two graphs that differ at most in how they were built: the same nodes and
      the same edges out of each. */
  ghost predicate SameFlow(g: Graph, g': Graph)
  {
    g.nodes == g'.nodes && forall u :: Adjacent(g.adj, u) == Adjacent(g'.adj, u)
  }

  lemma {:induction false} SameNext(g: Graph, g': Graph, t: seq<Visit>, h: nat)
    requires SameFlow(g, g') && h <= |t|
    ensures NextFrom(g, t, h) == NextFrom(g', t, h)
    decreases |t| - h
  {
    if h < |t| {
      assert LiveList(g, t[h]) == LiveList(g', t[h]);
      SameNext(g, g', t, h + 1);
    }
  }

  lemma {:induction false} SameReply(env: Env, perms: Permissions, g: Graph, g': Graph, before: seq<Visit>, v: Visit)
    requires SameFlow(g, g')
    ensures CallsAfter(env, perms, g, before) == CallsAfter(env, perms, g', before)
    ensures ReplyOf(env, perms, g, before, v) == ReplyOf(env, perms, g', before, v)
    decreases |before|
  {
    hide NodeReply;
    if before != [] {
      SameReply(env, perms, g, g', before[..|before| - 1], before[|before| - 1]);
    }
  }

  lemma {:induction false} SameRecords(env: Env, perms: Permissions, g: Graph, g': Graph, t: seq<Visit>)
    requires SameFlow(g, g')
    ensures LogsOf(env, perms, g, t) == LogsOf(env, perms, g', t)
    ensures EffectsOf(env, perms, g, t) == EffectsOf(env, perms, g', t)
  {
    hide ReplyOf;
    if t != [] {
      SameRecords(env, perms, g, g', t[..|t| - 1]);
      SameReply(env, perms, g, g', t[..|t| - 1], t[|t| - 1]);
    }
  }

  /** What the node of the next discovery replies. */
  function NextReply(env: Env, perms: Permissions, g: Graph, t: seq<Visit>): Reply
    requires NextDiscovery(g, t).Some? && NextDiscovery(g, t).value.from < |t|
  {
    var d := NextDiscovery(g, t).value;
    ReplyOf(env, perms, g, t, Visit(d.id, d.from, t[d.from].output, Nil, 0))
  }

  /** The reply of a visit depends on its node and input only. */
  lemma ReplyIgnoresTheRest(env: Env, perms: Permissions, g: Graph, t: seq<Visit>, v: Visit, w: Visit)
    requires v.id == w.id && v.input == w.input
    ensures ReplyOf(env, perms, g, t, v) == ReplyOf(env, perms, g, t, w)
  {
  }

  lemma SameVisit(env: Env, perms: Permissions, g: Graph, t: seq<Visit>, g': Graph, u: seq<Visit>, k: nat)
    requires SameFlow(g, g') && BreadthFirst(g, t) && BreadthFirst(g', u)
    requires Replays(env, perms, g, t) && Replays(env, perms, g', u)
    requires k < |t| && k < |u| && t[..k] == u[..k]
    ensures t[k] == u[k]
  {
    hide NextFrom, ReplyOf;
    if k > 0 {
      assert FollowsOn(g, t[..k], t[k]) && FollowsOn(g', u[..k], u[k]);
      SameNext(g, g', t[..k], 0);
    }
    assert t[k].id == u[k].id && t[k].input == u[k].input;
    ReplyIgnoresTheRest(env, perms, g, t[..k], t[k], u[k]);
    SameReply(env, perms, g, g', t[..k], u[k]);
    assert ReplyOf(env, perms, g, t[..k], t[k]).out == Output(t[k].output);
    assert ReplyOf(env, perms, g', u[..k], u[k]).out == Output(u[k].output);
  }

  /** Any two searches with the same replies agree as far as both go. */
  lemma {:induction false} SearchesAgree(env: Env, perms: Permissions, g: Graph, t: seq<Visit>,
                                         g': Graph, u: seq<Visit>, n: nat)
    requires SameFlow(g, g') && BreadthFirst(g, t) && BreadthFirst(g', u)
    requires Replays(env, perms, g, t) && Replays(env, perms, g', u)
    requires n <= |t| && n <= |u|
    ensures t[..n] == u[..n]
  {
    hide Replays, BreadthFirst, SameFlow;
    if n > 0 {
      SearchesAgree(env, perms, g, t, g', u, n - 1);
      SameVisit(env, perms, g, t, g', u, n - 1);
      assert t[..n] == t[..n - 1] + [t[n - 1]] && u[..n] == u[..n - 1] + [u[n - 1]];
    }
  }

  /** A search can stop where the next node gives no output, and only there. */
  ghost predicate Ends(env: Env, perms: Permissions, g: Graph, t: seq<Visit>)
  {
    && BreadthFirst(g, t) && Replays(env, perms, g, t)
    && match NextDiscovery(g, t)
       case None => true
       case Some(d) => d.from < |t| && d.id in g.nodes && !NextReply(env, perms, g, t).out.Output?
  }

  /** Once a search ends, no search with the same replies goes further. */
  lemma NoFurther(env: Env, perms: Permissions, g: Graph, t: seq<Visit>, g': Graph, u: seq<Visit>)
    requires SameFlow(g, g') && Ends(env, perms, g, t)
    requires BreadthFirst(g', u) && Replays(env, perms, g', u) && |t| <= |u|
    ensures t == u
  {
    SearchesAgree(env, perms, g, t, g', u, |t|);
    assert t[..|t|] == t;
    if |t| < |u| {
      hide NextFrom, ReplyOf;
      var v := u[|t|];
      assert ReplyOf(env, perms, g', u[..|t|], v).out == Output(v.output);
      assert FollowsOn(g', t, v);
      SameNext(g, g', t, 0);
      var d := Discovery(v.from, v.id);
      ReplyIgnoresTheRest(env, perms, g, t, v, Visit(d.id, d.from, t[d.from].output, Nil, 0));
      SameReply(env, perms, g, g', t, v);
    } else {
      assert u[..|t|] == u;
    }
  }

  lemma SameFlowBack(g: Graph, g': Graph)
    requires SameFlow(g, g')
    ensures SameFlow(g', g)
  {
  }

  /** Execution is deterministic: the flow, the permissions and the answers of
      the outside world determine every visit of a run that ended, successful or
      not, its order, inputs and outputs. */
  lemma SearchIsDetermined(env: Env, perms: Permissions, g: Graph, t: seq<Visit>, g': Graph, u: seq<Visit>)
    requires SameFlow(g, g') && Ends(env, perms, g, t) && Ends(env, perms, g', u)
    ensures t == u
  {
    hide NextReply, Replays, BreadthFirst, NextDiscovery, SameFlow;
    if |t| <= |u| {
      NoFurther(env, perms, g, t, g', u);
    } else {
      SameFlowBack(g, g');
      NoFurther(env, perms, g', u, g, t);
    }
  }

  // ---- effects of a whole run --------------------------------------------

  /** Effect containment over a run: whatever node an execution stops at, every
      effect applied so far targets an entry of the matching permission list. */
  lemma {:induction false} RunEffectsArePermitted(env: Env, perms: Permissions, g: Graph, t: seq<Visit>, e: Effect)
    requires (forall id :: id in g.nodes ==> ValidNode(g.nodes[id])) && e in EffectsOf(env, perms, g, t)
    ensures e.kind in KINDS
    ensures e.kind == "database" ==> e.target in perms.databases
    ensures e.kind == "file" ==> e.target in perms.files
    ensures e.kind == "modbus" ==> e.target in perms.resources
  {
    if t != [] {
      var init, last := t[..|t| - 1], t[|t| - 1];
      if e in EffectsOf(env, perms, g, init) {
        RunEffectsArePermitted(env, perms, g, init, e);
      } else {
        assert e in ReplyOf(env, perms, g, init, last).effects;
        EffectsArePermitted(env, perms, g.nodes[last.id], last.input, CallsAfter(env, perms, g, init), e);
      }
    }
  }

  function ExecutedIds(logs: seq<LogEvent>): seq<string>
  {
    if logs == [] then []
    else
      var last := logs[|logs| - 1];
      ExecutedIds(logs[..|logs| - 1]) + (if last.NodeExecuted? then [last.id] else [])
  }

  lemma {:induction false} ExecutedIdsConcat(a: seq<LogEvent>, b: seq<LogEvent>)
    ensures ExecutedIds(a + b) == ExecutedIds(a) + ExecutedIds(b)
    decreases |b|
  {
    if b == [] {
      assert a + b == a;
    } else {
      assert (a + b)[..|a + b| - 1] == a + b[..|b| - 1];
      ExecutedIdsConcat(a, b[..|b| - 1]);
    }
  }

  lemma ReplyLogsNoExecution(env: Env, perms: Permissions, node: Node, input: Value, calls: nat)
    ensures ExecutedIds(NodeReply(env, perms, node, input, calls).logs) == []
  {
    var logs := NodeReply(env, perms, node, input, calls).logs;
    assert |logs| <= 1;
    assert |logs| == 1 ==> logs[..0] == [] && !logs[0].NodeExecuted?;
  }

  lemma ReplyOfLogsNoExecution(env: Env, perms: Permissions, g: Graph, before: seq<Visit>, v: Visit)
    ensures ExecutedIds(ReplyOf(env, perms, g, before, v).logs) == []
  {
    if v.id in g.nodes {
      ReplyLogsNoExecution(env, perms, g.nodes[v.id], v.input, CallsAfter(env, perms, g, before));
    }
  }

  lemma OneExecuted(id: string)
    ensures ExecutedIds([NodeExecuted(id)]) == [id]
  {
    assert [NodeExecuted(id)][..0] == [];
  }

  /** The log lists the executed nodes in execution order. */
  lemma {:induction false} LogsListExecutions(env: Env, perms: Permissions, g: Graph, t: seq<Visit>)
    ensures ExecutedIds(LogsOf(env, perms, g, t)) == VisitIds(t)
  {
    if t == [] {
      assert LogsOf(env, perms, g, t) == [];
    } else {
      var init, last := t[..|t| - 1], t[|t| - 1];
      var logs := ReplyOf(env, perms, g, init, last).logs;
      assert LogsOf(env, perms, g, t) == LogsOf(env, perms, g, init) + logs + [NodeExecuted(last.id)];
      hide ReplyOf, LogsOf, ExecutedIds;
      ReplyOfLogsNoExecution(env, perms, g, init, last);
      LogsListExecutions(env, perms, g, init);
      ExecutedIdsConcat(LogsOf(env, perms, g, init), logs);
      ExecutedIdsConcat(LogsOf(env, perms, g, init) + logs, [NodeExecuted(last.id)]);
      OneExecuted(last.id);
      assert VisitIds(t) == VisitIds(init) + [last.id];
    }
  }
}
