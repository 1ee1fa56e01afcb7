/** The task dependency graph and its critical path
    (plugins/visualization/src/graphs/dependency.ts).

    Kahn's worklist with longest-path relaxation is proved exact: on an acyclic graph it returns
    the number of tasks on the longest chain, and on a graph with cycles it returns the longest
    chain whose tasks, except possibly the last, no cycle reaches. */
module DependencyGraph {
  import opened Common

  type Id(==, !new)

  type Text(==, !new)

  /** What a node shows of its task as it stands. */
  datatype Details = Details(title: Text, status: Text, deadline: Option<Text>, classification: Text)

  /** A task with the ids it blocks (`urgencySignals.blockingRelationships`). */
  datatype Task = Task(id: Id, blocks: seq<Id>, priorityScore: int, details: Details)

  datatype Link = Link(source: Id, target: Id)

  datatype Group = Critical | High | Medium | Low

  datatype Node = Node(id: Id, details: Details, priorityScore: int, blockingCount: nat, blockedByCount: nat, group: Group)

  datatype GraphData = GraphData(nodes: seq<Node>, links: seq<Link>, totalTasks: nat,
                                 totalDependencies: nat, criticalPathLength: nat)

  /** The ids in scope and the links between them, in discovery order and with repetitions. */
  datatype Graph = Graph(ids: set<Id>, links: seq<Link>)

  function Ids(tasks: seq<Task>): set<Id> {
    set t | t in tasks :: t.id
  }

  // ----- What the critical path means -----

  /** `u` lists `v` as blocked, and `v` is in the set. */
  ghost predicate Blocks(tasks: seq<Task>, u: Id, v: Id) {
    v in Ids(tasks) && exists t :: t in tasks && t.id == u && v in t.blocks
  }

  ghost predicate LinkAt(g: Graph, p: seq<Id>, i: int)
    requires 0 < i < |p|
  {
    Link(p[i-1], p[i]) in g.links
  }

  /** A chain of blocking links; repetitions of a task are allowed. */
  ghost predicate IsChain(g: Graph, p: seq<Id>) {
    && p != []
    && (forall x {:trigger x in p} :: x in p ==> x in g.ids)
    && (forall i :: 0 < i < |p| ==> LinkAt(g, p, i))
  }

  ghost predicate Simple(p: seq<Id>) {
    forall i, j :: 0 <= i < j < |p| ==> p[i] != p[j]
  }

  /** No chain of two or more tasks returns to its start. */
  ghost predicate Acyclic(g: Graph) {
    forall p :: IsChain(g, p) && |p| >= 2 ==> p[0] != p[|p|-1]
  }

  /** `p` runs round a cycle, `p[..k+1]`, and then on to `v`. */
  ghost predicate Lasso(g: Graph, p: seq<Id>, k: nat, v: Id) {
    IsChain(g, p) && 0 < k < |p| && p[0] == p[k] && p[|p|-1] == v
  }

  /** Some cycle reaches `v`. */
  ghost predicate Tainted(g: Graph, v: Id) {
    exists p, k :: Lasso(g, p, k, v)
  }

  /** A chain none of whose tasks, except possibly the last, is reached by a cycle. */
  ghost predicate ClearChain(g: Graph, p: seq<Id>) {
    IsChain(g, p) && forall i :: 0 <= i < |p|-1 ==> !Tainted(g, p[i])
  }

  ghost predicate IsCriticalLength(g: Graph, r: nat) {
    && (exists p :: ClearChain(g, p) && |p| == r)
    && (forall p :: ClearChain(g, p) ==> |p| <= r)
  }

  /** An id given to two tasks is blocked by some task of the set. A source given twice is queued twice, and
      its links are counted off twice; ids are primary keys, so in practice none repeats. */
  ghost predicate SourcesAppearOnce(tasks: seq<Task>) {
    forall i, j :: 0 <= i < j < |tasks| && tasks[i].id == tasks[j].id ==> exists u :: Blocks(tasks, u, tasks[i].id)
  }

  // ----- Links -----

  /** The links of one task's list `blocks`, dropping ids that are not tasks. */
  function LinksFrom(ids: set<Id>, source: Id, blocks: seq<Id>): seq<Link> {
    if blocks == [] then []
    else
      var last := blocks[|blocks|-1];
      LinksFrom(ids, source, blocks[..|blocks|-1]) + if last in ids then [Link(source, last)] else []
  }

  /** The links of the first `n` tasks. */
  function LinksUpTo(tasks: seq<Task>, n: nat): seq<Link>
    requires n <= |tasks|
  {
    if n == 0 then []
    else LinksUpTo(tasks, n-1) + LinksFrom(Ids(tasks), tasks[n-1].id, tasks[n-1].blocks)
  }

  function GraphOf(tasks: seq<Task>): Graph {
    Graph(Ids(tasks), LinksUpTo(tasks, |tasks|))
  }

  lemma {:induction false} LinksFromMembers(ids: set<Id>, source: Id, blocks: seq<Id>, l: Link)
    ensures l in LinksFrom(ids, source, blocks) <==> l.source == source && l.target in blocks && l.target in ids
  {
    if blocks != [] {
      LinksFromMembers(ids, source, blocks[..|blocks|-1], l);
      assert blocks == blocks[..|blocks|-1] + [blocks[|blocks|-1]];
    }
  }

  lemma LinksFromSnoc(ids: set<Id>, source: Id, blocks: seq<Id>, k: nat, links: seq<Link>)
    requires k < |blocks|
    ensures links + LinksFrom(ids, source, blocks[..k+1])
         == links + LinksFrom(ids, source, blocks[..k]) + if blocks[k] in ids then [Link(source, blocks[k])] else []
  {
    assert blocks[..k+1][..k] == blocks[..k];
  }

  lemma {:induction false} LinksUpToMembers(tasks: seq<Task>, n: nat, l: Link)
    requires n <= |tasks|
    ensures l in LinksUpTo(tasks, n)
       <==> l.target in Ids(tasks) && exists i :: 0 <= i < n && tasks[i].id == l.source && l.target in tasks[i].blocks
  {
    if n > 0 {
      LinksUpToMembers(tasks, n-1, l);
      LinksFromMembers(Ids(tasks), tasks[n-1].id, tasks[n-1].blocks, l);
    }
  }

  /** The graph's links are exactly the blocking relationships between tasks of the set. */
  lemma LinksAreBlocks(tasks: seq<Task>, u: Id, v: Id)
    ensures Link(u, v) in GraphOf(tasks).links <==> Blocks(tasks, u, v)
    ensures Blocks(tasks, u, v) ==> u in Ids(tasks)
  {
    LinksUpToMembers(tasks, |tasks|, Link(u, v));
    if Blocks(tasks, u, v) {
      var t :| t in tasks && t.id == u && v in t.blocks;
      var i :| 0 <= i < |tasks| && tasks[i] == t;
    }
  }

  /** Where a link comes from: a position in the list of a task. */
  datatype Place = Place(task: nat, pos: nat)

  predicate Before(a: Place, b: Place) {
    a.task < b.task || (a.task == b.task && a.pos < b.pos)
  }

  /** The place is in the list of one of the first `n` tasks, and names a member of the set. */
  predicate InSet(tasks: seq<Task>, n: nat, p: Place)
    requires n <= |tasks|
  {
    p.task < n && p.pos < |tasks[p.task].blocks| && tasks[p.task].blocks[p.pos] in Ids(tasks)
  }

  /** The links are one for each place that names a member of the set, in order. */
  ghost predicate Listed(tasks: seq<Task>, n: nat, links: seq<Link>, at: seq<Place>)
    requires n <= |tasks|
  {
    && |links| == |at|
    && (forall k :: 0 <= k < |at| ==>
          && InSet(tasks, n, at[k])
          && links[k] == Link(tasks[at[k].task].id, tasks[at[k].task].blocks[at[k].pos]))
    && (forall k, l :: 0 <= k < l < |at| ==> Before(at[k], at[l]))
    && (forall p :: InSet(tasks, n, p) ==> p in at)
  }

  /** The same of the first `n` tasks and the first `pos` positions of the next. */
  ghost predicate ListedTo(tasks: seq<Task>, n: nat, pos: nat, links: seq<Link>, at: seq<Place>)
    requires n < |tasks| && pos <= |tasks[n].blocks|
  {
    && |links| == |at|
    && (forall k :: 0 <= k < |at| ==>
          && InSet(tasks, n + 1, at[k]) && Before(at[k], Place(n, pos))
          && links[k] == Link(tasks[at[k].task].id, tasks[at[k].task].blocks[at[k].pos]))
    && (forall k, l :: 0 <= k < l < |at| ==> Before(at[k], at[l]))
    && (forall p :: InSet(tasks, n + 1, p) && Before(p, Place(n, pos)) ==> p in at)
  }

  lemma ListedNext(tasks: seq<Task>, n: nat, pos: nat, links: seq<Link>, at: seq<Place>)
    requires n < |tasks| && pos < |tasks[n].blocks| && ListedTo(tasks, n, pos, links, at)
    ensures tasks[n].blocks[pos] in Ids(tasks) ==>
              ListedTo(tasks, n, pos + 1, links + [Link(tasks[n].id, tasks[n].blocks[pos])], at + [Place(n, pos)])
    ensures tasks[n].blocks[pos] !in Ids(tasks) ==> ListedTo(tasks, n, pos + 1, links, at)
  {
    var here := Place(n, pos);
    forall p ensures Before(p, Place(n, pos + 1)) <==> Before(p, here) || p == here {
      assert p == Place(p.task, p.pos);
    }
    if tasks[n].blocks[pos] in Ids(tasks) {
      var next := at + [here];
      assert forall p :: p in next <==> p in at || p == here;
    }
  }

  lemma {:induction false} LinksOfTaskListed(tasks: seq<Task>, n: nat, pos: nat, before: seq<Place>) returns (at: seq<Place>)
    requires n < |tasks| && pos <= |tasks[n].blocks| && Listed(tasks, n, LinksUpTo(tasks, n), before)
    ensures ListedTo(tasks, n, pos, LinksUpTo(tasks, n) + LinksFrom(Ids(tasks), tasks[n].id, tasks[n].blocks[..pos]), at)
    decreases pos
  {
    if pos == 0 {
      at := before;
      assert LinksUpTo(tasks, n) + [] == LinksUpTo(tasks, n);
    } else {
      at := LinksOfTaskListed(tasks, n, pos - 1, before);
      LinksFromSnoc(Ids(tasks), tasks[n].id, tasks[n].blocks, pos - 1, LinksUpTo(tasks, n));
      var links := LinksUpTo(tasks, n) + LinksFrom(Ids(tasks), tasks[n].id, tasks[n].blocks[..pos-1]);
      ListedNext(tasks, n, pos - 1, links, at);
      if tasks[n].blocks[pos-1] in Ids(tasks) {
        at := at + [Place(n, pos - 1)];
      } else {
        assert links + [] == links;
      }
    }
  }

  lemma {:induction false} LinksAreListed(tasks: seq<Task>, n: nat) returns (at: seq<Place>)
    requires n <= |tasks|
    ensures Listed(tasks, n, LinksUpTo(tasks, n), at)
  {
    if n == 0 {
      at := [];
    } else {
      var before := LinksAreListed(tasks, n - 1);
      var blocks := tasks[n-1].blocks;
      at := LinksOfTaskListed(tasks, n - 1, |blocks|, before);
      assert blocks[..|blocks|] == blocks;
      assert forall p :: InSet(tasks, n, p) ==> Before(p, Place(n - 1, |blocks|));
    }
  }

  lemma {:induction false} ImageSize(at: seq<Place>, ks: set<int>)
    requires forall k :: k in ks ==> 0 <= k < |at|
    requires forall k, l :: 0 <= k < l < |at| ==> at[k] != at[l]
    ensures |set k | k in ks :: at[k]| == |ks|
    decreases ks
  {
    var image := set k | k in ks :: at[k];
    if exists k :: k in ks {
      var k :| k in ks;
      ImageSize(at, ks - {k});
      var rest := set l | l in ks - {k} :: at[l];
      assert at[k] !in rest && image == rest + {at[k]};
    } else {
      assert ks == {} && image == {};
    }
  }

  /** The places at which task `u` lists `v`. */
  function Mentions(tasks: seq<Task>, u: Id, v: Id): set<Place> {
    set i, k | 0 <= i < |tasks| && 0 <= k < |tasks[i].blocks| && tasks[i].id == u && tasks[i].blocks[k] == v :: Place(i, k)
  }

  /** Where the link stands. */
  function Occurrences(links: seq<Link>, l: Link): set<int> {
    set k | 0 <= k < |links| && links[k] == l
  }

  lemma OccurrencesAreMentions(tasks: seq<Task>, links: seq<Link>, at: seq<Place>, u: Id, v: Id)
    requires Listed(tasks, |tasks|, links, at) && v in Ids(tasks)
    ensures (set k | k in Occurrences(links, Link(u, v)) :: at[k]) == Mentions(tasks, u, v)
  {
    forall p | p in Mentions(tasks, u, v) ensures exists k :: k in Occurrences(links, Link(u, v)) && at[k] == p {
      assert InSet(tasks, |tasks|, p);
      assert p in at;
      var k :| 0 <= k < |at| && at[k] == p;
      assert k in Occurrences(links, Link(u, v));
    }
  }

  /** A link between members of the set occurs as often as the one lists the other, and no other link does. */
  lemma LinkOccurs(tasks: seq<Task>, u: Id, v: Id)
    ensures |Occurrences(GraphOf(tasks).links, Link(u, v))| == if v in Ids(tasks) then |Mentions(tasks, u, v)| else 0
  {
    var links := GraphOf(tasks).links;
    var at := LinksAreListed(tasks, |tasks|);
    if v in Ids(tasks) {
      ImageSize(at, Occurrences(links, Link(u, v)));
      OccurrencesAreMentions(tasks, links, at, u, v);
    } else {
      assert Occurrences(links, Link(u, v)) == {};
    }
  }

  /** Targets of the links leaving `u`, in order. */
  function Out(links: seq<Link>, u: Id): seq<Id> {
    if links == [] then []
    else
      var l := links[|links|-1];
      Out(links[..|links|-1], u) + if l.source == u then [l.target] else []
  }

  /** Number of links into `v` from outside `done`. */
  function InDegree(links: seq<Link>, done: set<Id>, v: Id): nat {
    if links == [] then 0
    else
      var l := links[|links|-1];
      InDegree(links[..|links|-1], done, v) + if l.target == v && l.source !in done then 1 else 0
  }

  function Count(s: seq<Id>, v: Id): nat {
    if s == [] then 0 else (if s[0] == v then 1 else 0) + Count(s[1..], v)
  }

  lemma {:induction false} CountSnoc(s: seq<Id>, x: Id, v: Id)
    ensures Count(s + [x], v) == Count(s, v) + if x == v then 1 else 0
  {
    if s != [] {
      assert (s + [x])[1..] == s[1..] + [x];
      CountSnoc(s[1..], x, v);
    }
  }

  lemma OutAppend(links: seq<Link>, l: Link, u: Id)
    ensures Out(links + [l], u) == Out(links, u) + if l.source == u then [l.target] else []
  {
    assert (links + [l])[..|links|] == links;
  }

  lemma InDegreeAppend(links: seq<Link>, l: Link, done: set<Id>, v: Id)
    ensures InDegree(links + [l], done, v)
         == InDegree(links, done, v) + if l.target == v && l.source !in done then 1 else 0
  {
    assert (links + [l])[..|links|] == links;
  }

  lemma {:induction false} OutMembers(links: seq<Link>, u: Id, v: Id)
    ensures v in Out(links, u) <==> Link(u, v) in links
  {
    if links != [] {
      OutMembers(links[..|links|-1], u, v);
      assert links == links[..|links|-1] + [links[|links|-1]];
    }
  }

  lemma {:induction false} InDegreeZero(links: seq<Link>, done: set<Id>, v: Id)
    ensures InDegree(links, done, v) == 0 <==> forall u :: Link(u, v) in links ==> u in done
  {
    if links != [] {
      var l, rest := links[|links|-1], links[..|links|-1];
      InDegreeZero(rest, done, v);
      assert links == rest + [l];
      if l.target == v && l.source !in done {
        assert Link(l.source, v) in links;
      }
    }
  }

  /** Finishing `u` accounts for exactly the links it has into `v`. */
  lemma {:induction false} InDegreeFinish(links: seq<Link>, done: set<Id>, u: Id, v: Id)
    requires u !in done
    ensures InDegree(links, done, v) == InDegree(links, done + {u}, v) + Count(Out(links, u), v)
  {
    if links != [] {
      var rest, l := links[..|links|-1], links[|links|-1];
      InDegreeFinish(rest, done, u, v);
      CountSnoc(Out(rest, u), l.target, v);
      assert Out(rest, u) + [] == Out(rest, u);
    }
  }

  // ----- State of the worklist -----

  /** No id is queued twice, and none is queued again after it was shifted off. */
  ghost predicate QueuedOnce(g: Graph, order: seq<Id>, done: set<Id>, queue: seq<Id>) {
    && Simple(order)
    && Simple(queue)
    && (forall v :: v in order <==> v in done)
    && (forall v :: v in queue ==> v in g.ids && v !in done)
    && done <= g.ids
  }

  ghost predicate Degrees(g: Graph, done: set<Id>, pending: seq<Id>, inDegree: map<Id, int>) {
    && inDegree.Keys == g.ids
    && forall v {:trigger inDegree[v]} :: v in g.ids ==> inDegree[v] == InDegree(g.links, done, v) + Count(pending, v)
  }

  ghost predicate Ready(g: Graph, done: set<Id>, queue: seq<Id>, inDegree: map<Id, int>) {
    && inDegree.Keys == g.ids
    && forall v {:trigger inDegree[v]} :: v in g.ids ==> (inDegree[v] == 0 <==> v in done || v in queue)
  }

  ghost predicate FinishedBefore(g: Graph, order: seq<Id>, i: int)
    requires 0 <= i < |order|
  {
    forall u :: Link(u, order[i]) in g.links ==> u in order[..i]
  }

  /** Every predecessor of a finished task was finished before it. */
  ghost predicate Topological(g: Graph, order: seq<Id>) {
    forall i :: 0 <= i < |order| ==> FinishedBefore(g, order, i)
  }

  /** `p` is a chain of `d` tasks to `v`, all but the last of them finished. */
  ghost predicate Witness(g: Graph, done: set<Id>, p: seq<Id>, v: Id, d: nat) {
    && IsChain(g, p)
    && |p| == d
    && p[|p|-1] == v
    && forall x {:trigger x in p[..|p|-1]} :: x in p[..|p|-1] ==> x in done
  }

  ghost predicate Attained(g: Graph, done: set<Id>, dist: map<Id, nat>, path: map<Id, seq<Id>>) {
    && dist.Keys == path.Keys == g.ids
    && forall v {:trigger path[v]} :: v in g.ids ==> Witness(g, done, path[v], v, dist[v])
  }

  ghost predicate Relaxed(g: Graph, done: set<Id>, current: Id, pending: seq<Id>, dist: map<Id, nat>)
    requires WellFormed(g)
  {
    && dist.Keys == g.ids
    && forall u, v {:trigger Link(u, v)} ::
         Link(u, v) in g.links && u in done && (u == current ==> v !in pending) ==> dist[u] < dist[v]
  }

  ghost predicate Best(g: Graph, dist: map<Id, nat>, best: nat, top: Id) {
    && dist.Keys == g.ids
    && (forall v {:trigger dist[v]} :: v in g.ids ==> dist[v] <= best)
    && top in g.ids
    && dist[top] == best
  }

  ghost predicate WellFormed(g: Graph) {
    forall u, v {:trigger Link(u, v)} :: Link(u, v) in g.links ==> u in g.ids && v in g.ids
  }

  /** Between two relaxations `order` lists the ids shifted off the queue so far, `done` is the same as
      a set, `current` is the last of them and `pending` are its neighbours still to be relaxed. `path`
      and `top` are witnesses for `dist` and `best`. */
  ghost predicate Inv(g: Graph, order: seq<Id>, done: set<Id>, current: Id, pending: seq<Id>, queue: seq<Id>,
                      inDegree: map<Id, int>, dist: map<Id, nat>, path: map<Id, seq<Id>>, best: nat, top: Id) {
    && WellFormed(g)
    && Topological(g, order)
    && QueuedOnce(g, order, done, queue)
    && Degrees(g, done, pending, inDegree)
    && Ready(g, done, queue, inDegree)
    && Attained(g, done, dist, path)
    && Relaxed(g, done, current, pending, dist)
    && Best(g, dist, best, top)
  }

  lemma ShiftKeepsDegrees(g: Graph, done: set<Id>, u: Id, inDegree: map<Id, int>)
    requires Degrees(g, done, [], inDegree) && u !in done
    ensures Degrees(g, done + {u}, Out(g.links, u), inDegree)
  {
    forall v | v in g.ids
      ensures inDegree[v] == InDegree(g.links, done + {u}, v) + Count(Out(g.links, u), v)
    {
      InDegreeFinish(g.links, done, u, v);
    }
  }

  lemma ShiftKeepsTopological(g: Graph, order: seq<Id>, u: Id)
    requires Topological(g, order) && forall x :: Link(x, u) in g.links ==> x in order
    ensures Topological(g, order + [u])
  {
    var next := order + [u];
    forall i | 0 <= i < |next| ensures FinishedBefore(g, next, i) {
      if i < |order| {
        assert FinishedBefore(g, order, i);
        assert next[..i] == order[..i];
      } else {
        assert next[..i] == order;
      }
    }
  }

  lemma ShiftKeepsAttained(g: Graph, done: set<Id>, u: Id, dist: map<Id, nat>, path: map<Id, seq<Id>>)
    requires Attained(g, done, dist, path)
    ensures Attained(g, done + {u}, dist, path)
  {
    forall v | v in g.ids ensures Witness(g, done + {u}, path[v], v, dist[v]) {
      assert Witness(g, done, path[v], v, dist[v]);
    }
  }

  lemma ShiftKeepsRelaxed(g: Graph, done: set<Id>, current: Id, u: Id, dist: map<Id, nat>)
    requires WellFormed(g) && Relaxed(g, done, current, [], dist) && u !in done
    ensures Relaxed(g, done + {u}, u, Out(g.links, u), dist)
  {
    forall x, v | Link(x, v) in g.links && x in done + {u} && (x == u ==> v !in Out(g.links, u))
      ensures dist[x] < dist[v]
    {
      OutMembers(g.links, x, v);
    }
  }

  lemma ShiftKeepsQueue(g: Graph, order: seq<Id>, done: set<Id>, u: Id, rest: seq<Id>, inDegree: map<Id, int>)
    requires QueuedOnce(g, order, done, [u] + rest) && Ready(g, done, [u] + rest, inDegree)
    ensures u in g.ids && u !in done && inDegree[u] == 0
    ensures QueuedOnce(g, order + [u], done + {u}, rest) && Ready(g, done + {u}, rest, inDegree)
  {
    var queue := [u] + rest;
    assert queue[0] == u && u in queue;
    assert forall i :: 0 <= i < |rest| ==> rest[i] == queue[i+1];
  }

  /** Shifting `u` off the queue and taking up its neighbours keeps the invariant. */
  lemma ShiftKeepsInv(g: Graph, order: seq<Id>, done: set<Id>, current: Id, u: Id, rest: seq<Id>,
                      inDegree: map<Id, int>, dist: map<Id, nat>, path: map<Id, seq<Id>>, best: nat, top: Id)
    requires Inv(g, order, done, current, [], [u] + rest, inDegree, dist, path, best, top)
    ensures Inv(g, order + [u], done + {u}, u, Out(g.links, u), rest, inDegree, dist, path, best, top)
  {
    ShiftKeepsQueue(g, order, done, u, rest, inDegree);
    assert InDegree(g.links, done, u) == 0;
    InDegreeZero(g.links, done, u);
    ShiftKeepsTopological(g, order, u);
    ShiftKeepsDegrees(g, done, u, inDegree);
    ShiftKeepsAttained(g, done, u, dist, path);
    ShiftKeepsRelaxed(g, done, current, u, dist);
  }

  /** A pending neighbour has been neither queued nor finished yet. */
  lemma PendingIsWaiting(g: Graph, order: seq<Id>, done: set<Id>, v: Id, rest: seq<Id>, queue: seq<Id>, inDegree: map<Id, int>)
    requires v in g.ids && Degrees(g, done, [v] + rest, inDegree) && Ready(g, done, queue, inDegree)
    ensures inDegree[v] > 0 && v !in done && v !in queue
  {
    assert Count([v] + rest, v) > 0;
  }

  lemma RelaxKeepsDegrees(g: Graph, done: set<Id>, v: Id, rest: seq<Id>, inDegree: map<Id, int>)
    requires v in g.ids && Degrees(g, done, [v] + rest, inDegree)
    ensures Degrees(g, done, rest, inDegree[v := inDegree[v] - 1])
  {
    assert ([v] + rest)[1..] == rest;
  }

  lemma RelaxKeepsQueue(g: Graph, order: seq<Id>, done: set<Id>, v: Id, queue: seq<Id>, inDegree: map<Id, int>)
    requires QueuedOnce(g, order, done, queue) && Ready(g, done, queue, inDegree)
    requires v in g.ids && v !in done && v !in queue && inDegree[v] > 0
    ensures var queue' := if inDegree[v] == 1 then queue + [v] else queue;
            QueuedOnce(g, order, done, queue') && Ready(g, done, queue', inDegree[v := inDegree[v] - 1])
  {
  }

  lemma RelaxKeepsAttained(g: Graph, done: set<Id>, u: Id, here: seq<Id>, v: Id, d: nat,
                           dist: map<Id, nat>, path: map<Id, seq<Id>>)
    requires Attained(g, done, dist, path) && Witness(g, done, here, u, d)
    requires v in g.ids && u in done && Link(u, v) in g.links
    ensures Attained(g, done, dist[v := d + 1], path[v := here + [v]])
  {
    ChainAppend(g, here, v);
    assert (here + [v])[..|here|] == here;
    assert here == here[..|here|-1] + [u];
  }

  lemma ChainAppend(g: Graph, p: seq<Id>, v: Id)
    requires IsChain(g, p) && v in g.ids && Link(p[|p|-1], v) in g.links
    ensures IsChain(g, p + [v])
  {
    var q := p + [v];
    forall i | 0 < i < |q| ensures LinkAt(g, q, i) {
      if i < |p| {
        assert LinkAt(g, p, i);
      }
    }
  }

  function Raise(dist: map<Id, nat>, v: Id, d: nat): map<Id, nat>
    requires v in dist
  {
    if d > dist[v] then dist[v := d] else dist
  }

  lemma RelaxKeepsRelaxed(g: Graph, done: set<Id>, u: Id, v: Id, rest: seq<Id>, dist: map<Id, nat>)
    requires WellFormed(g) && Relaxed(g, done, u, [v] + rest, dist)
    requires v in g.ids && v !in done && u in g.ids && u in done
    ensures Relaxed(g, done, u, rest, Raise(dist, v, dist[u] + 1))
  {
  }

  /** Relaxing `v` keeps the invariant, `here` being a chain to `u`. */
  lemma RelaxKeepsInv(g: Graph, order: seq<Id>, done: set<Id>, u: Id, here: seq<Id>, v: Id, rest: seq<Id>, queue: seq<Id>,
                      inDegree: map<Id, int>, dist: map<Id, nat>, path: map<Id, seq<Id>>, best: nat, top: Id)
    requires Inv(g, order, done, u, [v] + rest, queue, inDegree, dist, path, best, top)
    requires u in done && Link(u, v) in g.links && Witness(g, done, here, u, dist[u])
    ensures inDegree[v] > 0 && u != v
    ensures var d := dist[u] + 1;
            Inv(g, order, done, u, rest, if inDegree[v] == 1 then queue + [v] else queue,
                inDegree[v := inDegree[v] - 1], Raise(dist, v, d), if d > dist[v] then path[v := here + [v]] else path,
                if d > best then d else best, if d > best then v else top)
  {
    PendingIsWaiting(g, order, done, v, rest, queue, inDegree);
    RelaxKeepsDegrees(g, done, v, rest, inDegree);
    RelaxKeepsQueue(g, order, done, v, queue, inDegree);
    RelaxKeepsAttained(g, done, u, here, v, dist[u], dist, path);
    RelaxKeepsRelaxed(g, done, u, v, rest, dist);
  }

  // ----- Any tasks -----

  /** What holds between two relaxations for any tasks, sources given twice included. */
  ghost predicate Basic(g: Graph, queue: seq<Id>, inDegree: map<Id, int>, dist: map<Id, nat>, path: map<Id, seq<Id>>,
                        best: nat, top: Id) {
    && WellFormed(g)
    && inDegree.Keys == g.ids
    && (forall v :: v in queue ==> v in g.ids)
    && Attained(g, g.ids, dist, path)
    && Best(g, dist, best, top)
  }

  /** `once` says that no source is given twice. */
  ghost predicate State(g: Graph, once: bool, order: seq<Id>, done: set<Id>, current: Id, pending: seq<Id>, queue: seq<Id>,
                        inDegree: map<Id, int>, dist: map<Id, nat>, path: map<Id, seq<Id>>, best: nat, top: Id) {
    && Basic(g, queue, inDegree, dist, path, best, top)
    && (once ==> Inv(g, order, done, current, pending, queue, inDegree, dist, path, best, top))
  }

  lemma ShiftKeepsState(g: Graph, once: bool, order: seq<Id>, done: set<Id>, current: Id, u: Id, queue: seq<Id>,
                        inDegree: map<Id, int>, dist: map<Id, nat>, path: map<Id, seq<Id>>, best: nat, top: Id)
    requires queue != [] && u == queue[0]
    requires State(g, once, order, done, current, [], queue, inDegree, dist, path, best, top)
    ensures u in g.ids
    ensures State(g, once, order + [u], done + {u}, u, Out(g.links, u), queue[1..], inDegree, dist, path, best, top)
  {
    assert queue == [u] + queue[1..];
    if once {
      ShiftKeepsInv(g, order, done, current, u, queue[1..], inDegree, dist, path, best, top);
    }
  }

  lemma RelaxKeepsBasic(g: Graph, u: Id, here: seq<Id>, d: nat, v: Id, queue: seq<Id>,
                        inDegree: map<Id, int>, dist: map<Id, nat>, path: map<Id, seq<Id>>, best: nat, top: Id)
    requires Basic(g, queue, inDegree, dist, path, best, top)
    requires Link(u, v) in g.links && Witness(g, g.ids, here, u, d)
    ensures v in g.ids
    ensures Basic(g, if inDegree[v] == 1 then queue + [v] else queue,
                  inDegree[v := inDegree[v] - 1], Raise(dist, v, d + 1), if d + 1 > dist[v] then path[v := here + [v]] else path,
                  if d + 1 > best then d + 1 else best, if d + 1 > best then v else top)
  {
    RelaxKeepsAttained(g, g.ids, u, here, v, d, dist, path);
  }

  /** The ids that may still be queued. */
  function Waiting(inDegree: map<Id, int>): set<Id> {
    set v | v in inDegree && inDegree[v] > 0
  }

  /** An id is queued as its count reaches 0, which it does only once. */
  lemma QueueingIsBounded(v: Id, queue: seq<Id>, inDegree: map<Id, int>)
    requires v in inDegree
    ensures |Waiting(inDegree[v := inDegree[v] - 1])| + |if inDegree[v] == 1 then queue + [v] else queue|
         <= |Waiting(inDegree)| + |queue|
  {
    var after := Waiting(inDegree[v := inDegree[v] - 1]);
    if inDegree[v] == 1 {
      assert after == Waiting(inDegree) - {v};
    } else {
      assert after == Waiting(inDegree);
    }
  }

  // ----- What is true when the queue runs dry -----

  lemma ChainPrefix(g: Graph, p: seq<Id>, n: nat)
    requires IsChain(g, p) && 0 < n <= |p|
    ensures IsChain(g, p[..n])
  {
    forall i | 0 < i < n ensures LinkAt(g, p[..n], i) {
      assert LinkAt(g, p, i);
    }
    assert forall x :: x in p[..n] ==> x in p;
  }

  lemma ChainSuffix(g: Graph, p: seq<Id>, n: nat)
    requires IsChain(g, p) && n < |p|
    ensures IsChain(g, p[n..])
  {
    forall i | 0 < i < |p| - n ensures LinkAt(g, p[n..], i) {
      assert LinkAt(g, p, n + i);
    }
    assert forall x :: x in p[n..] ==> x in p;
  }

  /** On a chain that ends in a finished task, everything earlier was finished before it. */
  lemma {:induction false} ChainBehind(g: Graph, order: seq<Id>, p: seq<Id>, m: nat, i: nat)
    requires Topological(g, order) && IsChain(g, p) && m < |order| && p[|p|-1] == order[m] && i < |p|-1
    ensures p[i] in order[..m]
    decreases |p|
  {
    var n := |p|-1;
    assert LinkAt(g, p, n);
    assert FinishedBefore(g, order, m);
    assert p[n-1] in order[..m];
    if i < n-1 {
      var k :| 0 <= k < m && order[k] == p[n-1];
      ChainPrefix(g, p, n);
      ChainBehind(g, order, p[..n], k, i);
      assert order[..k] <= order[..m];
    }
  }

  lemma FinishedIsClear(g: Graph, order: seq<Id>, v: Id)
    requires Topological(g, order) && Simple(order) && v in order
    ensures !Tainted(g, v)
  {
    if Tainted(g, v) {
      var p: seq<Id>, k: nat :| Lasso(g, p, k, v);
      var m :| 0 <= m < |order| && order[m] == v;
      if k < |p|-1 {
        ChainBehind(g, order, p, m, k);
      }
      assert p[k] in order;
      var j :| 0 <= j < |order| && order[j] == p[k];
      var cycle := p[..k+1];
      ChainPrefix(g, p, k+1);
      ChainBehind(g, order, cycle, j, 0);
      assert false;
    }
  }

  lemma {:induction false} Pigeonhole(p: seq<Id>, ids: set<Id>)
    requires Simple(p) && forall x :: x in p ==> x in ids
    ensures |p| <= |ids|
  {
    if p != [] {
      var last := p[|p|-1];
      assert last in p;
      Pigeonhole(p[..|p|-1], ids - {last});
    }
  }

  ghost predicate HasOpenBlocker(g: Graph, done: set<Id>, v: Id) {
    exists u :: u !in done && Link(u, v) in g.links
  }

  /** Every unfinished task has an unfinished predecessor. */
  ghost predicate Stuck(g: Graph, done: set<Id>) {
    forall v {:trigger HasOpenBlocker(g, done, v)} :: v in g.ids && v !in done ==> HasOpenBlocker(g, done, v)
  }

  /** So an unfinished task ends unfinished chains of every length. */
  lemma {:induction false} BackWalk(g: Graph, done: set<Id>, v: Id, n: nat) returns (p: seq<Id>)
    requires WellFormed(g) && Stuck(g, done) && v in g.ids && v !in done && n > 0
    ensures IsChain(g, p) && |p| == n && p[n-1] == v && p[0] !in done
  {
    if n == 1 {
      p := [v];
    } else {
      var q := BackWalk(g, done, v, n-1);
      assert q[0] in q;
      assert HasOpenBlocker(g, done, q[0]);
      var u :| u !in done && Link(u, q[0]) in g.links;
      p := [u] + q;
      ChainPrepend(g, u, q);
    }
  }

  lemma ChainPrepend(g: Graph, u: Id, q: seq<Id>)
    requires IsChain(g, q) && u in g.ids && Link(u, q[0]) in g.links
    ensures IsChain(g, [u] + q)
  {
    var p := [u] + q;
    forall i | 0 < i < |p| ensures LinkAt(g, p, i) {
      if i > 1 {
        assert LinkAt(g, q, i-1);
      }
    }
  }

  lemma RepeatIsLasso(g: Graph, p: seq<Id>, i: nat, j: nat)
    requires IsChain(g, p) && i < j < |p| && p[i] == p[j]
    ensures Lasso(g, p[i..], j - i, p[|p|-1])
  {
    ChainSuffix(g, p, i);
  }

  lemma UnfinishedIsTainted(g: Graph, done: set<Id>, v: Id)
    requires WellFormed(g) && Stuck(g, done) && v in g.ids && v !in done
    ensures Tainted(g, v)
  {
    var p := BackWalk(g, done, v, |g.ids| + 1);
    if Simple(p) {
      Pigeonhole(p, g.ids);
      assert false;
    }
    var i, j :| 0 <= i < j < |p| && p[i] == p[j];
    RepeatIsLasso(g, p, i, j);
  }

  lemma DryQueueIsStuck(g: Graph, done: set<Id>, inDegree: map<Id, int>)
    requires Degrees(g, done, [], inDegree) && Ready(g, done, [], inDegree)
    ensures Stuck(g, done)
  {
    forall v | v in g.ids && v !in done
      ensures HasOpenBlocker(g, done, v)
    {
      InDegreeZero(g.links, done, v);
    }
  }

  lemma {:induction false} ChainIsNoLongerThanDist(g: Graph, done: set<Id>, current: Id, dist: map<Id, nat>,
                                                   path: map<Id, seq<Id>>, p: seq<Id>)
    requires WellFormed(g) && Attained(g, done, dist, path) && Relaxed(g, done, current, [], dist)
    requires IsChain(g, p) && forall x :: x in p[..|p|-1] ==> x in done
    ensures p[|p|-1] in g.ids && |p| <= dist[p[|p|-1]]
    decreases |p|
  {
    var n := |p|-1;
    assert p[n] in p;
    assert Witness(g, done, path[p[n]], p[n], dist[p[n]]);
    if n > 0 {
      var q := p[..n];
      ChainPrefix(g, p, n);
      assert q == q[..n-1] + [q[n-1]];
      ChainIsNoLongerThanDist(g, done, current, dist, path, q);
      assert LinkAt(g, p, n);
    }
  }

  /** Once the queue is dry, the ids shifted off it are those no cycle reaches ... */
  lemma DryQueueHoldsTheTainted(g: Graph, order: seq<Id>, done: set<Id>, inDegree: map<Id, int>)
    requires WellFormed(g) && Topological(g, order) && QueuedOnce(g, order, done, [])
    requires Degrees(g, done, [], inDegree) && Ready(g, done, [], inDegree)
    ensures forall v :: v in done <==> v in g.ids && !Tainted(g, v)
  {
    DryQueueIsStuck(g, done, inDegree);
    forall v ensures v in done <==> v in g.ids && !Tainted(g, v) {
      if v in done {
        FinishedIsClear(g, order, v);
      } else if v in g.ids {
        UnfinishedIsTainted(g, done, v);
      }
    }
  }

  lemma WitnessIsClear(g: Graph, done: set<Id>, p: seq<Id>, v: Id, d: nat)
    requires forall v :: v in done ==> !Tainted(g, v)
    requires Witness(g, done, p, v, d)
    ensures ClearChain(g, p)
  {
    forall i | 0 <= i < |p|-1 ensures !Tainted(g, p[i]) {
      assert p[i] in p[..|p|-1];
    }
  }

  /** ... and the best distance is exact. */
  lemma DryQueueIsExact(g: Graph, done: set<Id>, current: Id, dist: map<Id, nat>, path: map<Id, seq<Id>>, best: nat, top: Id)
    requires forall v :: v in done <==> v in g.ids && !Tainted(g, v)
    requires WellFormed(g) && Attained(g, done, dist, path) && Relaxed(g, done, current, [], dist) && Best(g, dist, best, top)
    ensures IsCriticalLength(g, best)
  {
    assert Witness(g, done, path[top], top, best);
    WitnessIsClear(g, done, path[top], top, best);
    forall q | ClearChain(g, q) ensures |q| <= best {
      forall x | x in q[..|q|-1] ensures x in done {
        assert x in q;
      }
      ChainIsNoLongerThanDist(g, done, current, dist, path, q);
    }
  }

  // ----- The algorithm -----

  /** `adj` and `inDegree` describe the links found so far. */
  ghost predicate Tracks(ids: set<Id>, links: seq<Link>, adj: map<Id, seq<Id>>, inDegree: map<Id, int>) {
    && adj.Keys == inDegree.Keys == ids
    && (forall u :: u in ids ==> adj[u] == Out(links, u))
    && (forall v :: v in ids ==> inDegree[v] == InDegree(links, {}, v))
  }

  lemma TracksAppend(ids: set<Id>, links: seq<Link>, l: Link, adj: map<Id, seq<Id>>, inDegree: map<Id, int>)
    requires Tracks(ids, links, adj, inDegree) && l.source in ids && l.target in ids
    ensures Tracks(ids, links + [l], adj[l.source := adj[l.source] + [l.target]],
                   inDegree[l.target := inDegree[l.target] + 1])
  {
    var adj', inDegree' := adj[l.source := adj[l.source] + [l.target]], inDegree[l.target := inDegree[l.target] + 1];
    forall u | u in ids ensures adj'[u] == Out(links + [l], u) {
      OutAppend(links, l, u);
    }
    forall v | v in ids ensures inDegree'[v] == InDegree(links + [l], {}, v) {
      InDegreeAppend(links, l, {}, v);
    }
  }

  /** Adjacency lists and in-degrees, built link by link. */
  method BuildAdjacency(tasks: seq<Task>) returns (adj: map<Id, seq<Id>>, inDegree: map<Id, int>)
    ensures Tracks(Ids(tasks), GraphOf(tasks).links, adj, inDegree)
  {
    ghost var ids := Ids(tasks);
    adj, inDegree := map[], map[];
    for i := 0 to |tasks|
      invariant adj.Keys == inDegree.Keys == Ids(tasks[..i])
      invariant forall u :: u in adj ==> adj[u] == [] && inDegree[u] == 0
    {
      assert tasks[..i+1] == tasks[..i] + [tasks[i]];
      adj, inDegree := adj[tasks[i].id := []], inDegree[tasks[i].id := 0];
    }
    assert tasks[..|tasks|] == tasks;
    for i := 0 to |tasks|
      invariant Tracks(ids, LinksUpTo(tasks, i), adj, inDegree)
    {
      adj, inDegree := AddLinks(ids, LinksUpTo(tasks, i), tasks[i], adj, inDegree);
    }
  }

  method AddLinks(ghost ids: set<Id>, ghost links: seq<Link>, t: Task, adj: map<Id, seq<Id>>, inDegree: map<Id, int>)
      returns (adj': map<Id, seq<Id>>, inDegree': map<Id, int>)
    requires Tracks(ids, links, adj, inDegree) && t.id in ids
    ensures Tracks(ids, links + LinksFrom(ids, t.id, t.blocks), adj', inDegree')
  {
    adj', inDegree' := adj, inDegree;
    ghost var found := links;
    for k := 0 to |t.blocks|
      invariant found == links + LinksFrom(ids, t.id, t.blocks[..k])
      invariant Tracks(ids, found, adj', inDegree')
    {
      var blocked := t.blocks[k];
      LinksFromSnoc(ids, t.id, t.blocks, k, links);
      if blocked in adj' {
        TracksAppend(ids, found, Link(t.id, blocked), adj', inDegree');
        found := found + [Link(t.id, blocked)];
        adj' := adj'[t.id := adj'[t.id] + [blocked]];
        inDegree' := inDegree'[blocked := inDegree'[blocked] + 1];
      }
    }
    assert t.blocks[..|t.blocks|] == t.blocks;
  }

  lemma RepeatedIdsAreBlocked(tasks: seq<Task>, inDegree: map<Id, int>)
    requires inDegree.Keys == Ids(tasks)
    requires forall v :: v in Ids(tasks) ==> inDegree[v] == InDegree(GraphOf(tasks).links, {}, v)
    ensures NoSourceTwice(tasks, inDegree) <==> SourcesAppearOnce(tasks)
  {
    forall v | v in Ids(tasks) ensures inDegree[v] != 0 <==> exists u :: Blocks(tasks, u, v) {
      InDegreeZero(GraphOf(tasks).links, {}, v);
      forall u ensures Link(u, v) in GraphOf(tasks).links <==> Blocks(tasks, u, v) {
        LinksAreBlocks(tasks, u, v);
      }
    }
    assert forall i :: 0 <= i < |tasks| ==> tasks[i] in tasks;
  }

  /** No id without blockers is given to two tasks. */
  ghost predicate NoSourceTwice(tasks: seq<Task>, inDegree: map<Id, int>) {
    forall i, j :: 0 <= i < j < |tasks| && tasks[i].id == tasks[j].id ==>
      tasks[i].id in inDegree && inDegree[tasks[i].id] != 0
  }

  /** Every task at distance 1, the sources queued. */
  method InitialWork(tasks: seq<Task>, inDegree: map<Id, int>) returns (dist: map<Id, nat>, queue: seq<Id>)
    requires inDegree.Keys == Ids(tasks)
    ensures dist.Keys == Ids(tasks) && forall v :: v in dist ==> dist[v] == 1
    ensures forall v :: v in queue <==> v in Ids(tasks) && inDegree[v] == 0
    ensures Simple(queue) <==> NoSourceTwice(tasks, inDegree)
  {
    dist, queue := map[], [];
    for i := 0 to |tasks|
      invariant dist.Keys == Ids(tasks[..i]) && forall v :: v in dist ==> dist[v] == 1
      invariant forall v :: v in queue <==> v in Ids(tasks[..i]) && v in inDegree && inDegree[v] == 0
      invariant Simple(queue) <==> NoSourceTwice(tasks[..i], inDegree)
    {
      assert tasks[..i+1] == tasks[..i] + [tasks[i]];
      dist := dist[tasks[i].id := 1];
      OneMoreTask(tasks, i, inDegree);
      if inDegree[tasks[i].id] == 0 {
        SimpleSnoc(queue, tasks[i].id);
        queue := queue + [tasks[i].id];
      }
    }
    assert tasks[..|tasks|] == tasks;
  }

  lemma SimpleSnoc(s: seq<Id>, x: Id)
    ensures Simple(s + [x]) <==> Simple(s) && x !in s
  {
    var t := s + [x];
    if Simple(t) {
      assert forall i :: 0 <= i < |s| ==> s[i] == t[i] && t[i] != t[|s|];
    }
  }

  lemma OneMoreTask(tasks: seq<Task>, n: nat, inDegree: map<Id, int>)
    requires n < |tasks|
    ensures NoSourceTwice(tasks[..n+1], inDegree)
       <==> && NoSourceTwice(tasks[..n], inDegree)
            && (tasks[n].id in Ids(tasks[..n]) ==> tasks[n].id in inDegree && inDegree[tasks[n].id] != 0)
  {
    var before, after := tasks[..n], tasks[..n+1];
    assert forall i :: 0 <= i < n ==> before[i] == after[i];
    if NoSourceTwice(after, inDegree) && tasks[n].id in Ids(before) {
      var i :| 0 <= i < n && before[i].id == tasks[n].id;
      assert after[i].id == after[n].id;
    }
  }

  lemma GraphIsWellFormed(tasks: seq<Task>)
    ensures WellFormed(GraphOf(tasks))
  {
    forall u, v | Link(u, v) in GraphOf(tasks).links ensures u in Ids(tasks) && v in Ids(tasks) {
      LinksAreBlocks(tasks, u, v);
    }
  }

  lemma InitialInv(g: Graph, queue: seq<Id>, inDegree: map<Id, int>, dist: map<Id, nat>, path: map<Id, seq<Id>>, top: Id)
    requires WellFormed(g) && top in g.ids && Simple(queue)
    requires inDegree.Keys == dist.Keys == path.Keys == g.ids
    requires forall v :: v in queue <==> v in g.ids && inDegree[v] == 0
    requires forall v :: v in g.ids ==> dist[v] == 1 && path[v] == [v] && inDegree[v] == InDegree(g.links, {}, v)
    ensures Inv(g, [], {}, top, [], queue, inDegree, dist, path, 1, top)
  {
  }

  lemma InitialBasic(g: Graph, queue: seq<Id>, inDegree: map<Id, int>, dist: map<Id, nat>, path: map<Id, seq<Id>>, top: Id)
    requires WellFormed(g) && top in g.ids
    requires inDegree.Keys == dist.Keys == path.Keys == g.ids
    requires forall v :: v in queue ==> v in g.ids
    requires forall v :: v in g.ids ==> dist[v] == 1 && path[v] == [v]
    ensures Basic(g, queue, inDegree, dist, path, 1, top)
  {
  }

  /** The maps and the queue before the first shift. */
  method Prepare(tasks: seq<Task>) returns (adj: map<Id, seq<Id>>, inDegree: map<Id, int>, dist: map<Id, nat>, queue: seq<Id>,
                                            ghost path: map<Id, seq<Id>>)
    requires tasks != []
    ensures adj.Keys == Ids(tasks) && forall u :: u in adj ==> adj[u] == Out(GraphOf(tasks).links, u)
    ensures State(GraphOf(tasks), SourcesAppearOnce(tasks), [], {}, tasks[0].id, [], queue, inDegree, dist, path, 1, tasks[0].id)
  {
    GraphIsWellFormed(tasks);
    adj, inDegree := BuildAdjacency(tasks);
    RepeatedIdsAreBlocked(tasks, inDegree);
    dist, queue := InitialWork(tasks, inDegree);
    path := map v | v in Ids(tasks) :: [v];
    InitialBasic(GraphOf(tasks), queue, inDegree, dist, path, tasks[0].id);
    if SourcesAppearOnce(tasks) {
      InitialInv(GraphOf(tasks), queue, inDegree, dist, path, tasks[0].id);
    }
  }

  lemma DropHead(s: seq<Id>, k: nat)
    requires k < |s|
    ensures s[k..] == [s[k]] + s[k+1..]
  {
  }

  /** The longest distance is attained, and exact if no source is given twice. */
  lemma DryQueue(g: Graph, once: bool, order: seq<Id>, done: set<Id>, current: Id, inDegree: map<Id, int>, dist: map<Id, nat>,
                 path: map<Id, seq<Id>>, best: nat, top: Id)
    requires State(g, once, order, done, current, [], [], inDegree, dist, path, best, top)
    ensures exists p :: IsChain(g, p) && |p| == best
    ensures once ==> IsCriticalLength(g, best)
    ensures once ==> Simple(order) && forall v :: v in order <==> v in g.ids && !Tainted(g, v)
  {
    assert Witness(g, g.ids, path[top], top, best);
    if once {
      DryQueueHoldsTheTainted(g, order, done, inDegree);
      DryQueueIsExact(g, done, current, dist, path, best, top);
    }
  }

  /** Ends on every input, with the length of some chain. Unless a source is given twice, that is the
      critical length. `order` is what the worklist shifted off its queue, in that order. */
  method ComputeCriticalPathLength(tasks: seq<Task>) returns (maxPath: nat, ghost order: seq<Id>)
    ensures tasks == [] ==> maxPath == 0
    ensures tasks != [] ==> exists p :: IsChain(GraphOf(tasks), p) && |p| == maxPath
    ensures tasks != [] && SourcesAppearOnce(tasks) ==> IsCriticalLength(GraphOf(tasks), maxPath)
    ensures SourcesAppearOnce(tasks) ==>
              Simple(order) && forall v :: v in order <==> v in Ids(tasks) && !Tainted(GraphOf(tasks), v)
  {
    order := [];
    if |tasks| == 0 {
      return 0, [];
    }
    ghost var g, once := GraphOf(tasks), SourcesAppearOnce(tasks);
    var adj, inDegree, dist, queue, path := Prepare(tasks);
    maxPath := 1;
    ghost var done, last, top := {}, tasks[0].id, tasks[0].id;
    while |queue| > 0
      invariant State(g, once, order, done, last, [], queue, inDegree, dist, path, maxPath, top)
      decreases |Waiting(inDegree)| + |queue|
    {
      var current := queue[0];
      ShiftKeepsState(g, once, order, done, last, current, queue, inDegree, dist, path, maxPath, top);
      queue := queue[1..];
      order, done, last := order + [current], done + {current}, current;
      inDegree, dist, queue, maxPath, path, top :=
        RelaxNeighbors(g, once, order, done, current, adj[current], inDegree, dist, queue, maxPath, path, top);
    }
    DryQueue(g, once, order, done, last, inDegree, dist, path, maxPath, top);
  }

  /** One turn of the worklist: relax every neighbour of `current`, queueing those left without
      predecessors. */
  method RelaxNeighbors(ghost g: Graph, ghost once: bool, ghost order: seq<Id>, ghost done: set<Id>,
                        current: Id, neighbors: seq<Id>,
                        inDegree: map<Id, int>, dist: map<Id, nat>, queue: seq<Id>, best: nat,
                        ghost path: map<Id, seq<Id>>, ghost top: Id)
      returns (inDegree': map<Id, int>, dist': map<Id, nat>, queue': seq<Id>, best': nat,
               ghost path': map<Id, seq<Id>>, ghost top': Id)
    requires current in g.ids && neighbors == Out(g.links, current)
    requires current in done && State(g, once, order, done, current, neighbors, queue, inDegree, dist, path, best, top)
    ensures State(g, once, order, done, current, [], queue', inDegree', dist', path', best', top')
    ensures |Waiting(inDegree')| + |queue'| <= |Waiting(inDegree)| + |queue|
  {
    inDegree', dist', queue', best', path', top' := inDegree, dist, queue, best, path, top;
    var currentDist := dist[current];
    ghost var here := path[current];
    for k := 0 to |neighbors|
      invariant State(g, once, order, done, current, neighbors[k..], queue', inDegree', dist', path', best', top')
      invariant |Waiting(inDegree')| + |queue'| <= |Waiting(inDegree)| + |queue|
      invariant once ==> dist'[current] == currentDist
    {
      OutMembers(g.links, current, neighbors[k]);
      DropHead(neighbors, k);
      inDegree', dist', queue', best', path', top' :=
        RelaxOne(g, once, order, done, current, here, currentDist, neighbors[k], neighbors[k+1..],
                 inDegree', dist', queue', best', path', top');
    }
    assert neighbors[|neighbors|..] == [];
  }

  /** `here` is a chain to `current`. */
  method RelaxOne(ghost g: Graph, ghost once: bool, ghost order: seq<Id>, ghost done: set<Id>,
                  ghost current: Id, ghost here: seq<Id>, currentDist: nat, neighbor: Id, ghost rest: seq<Id>,
                  inDegree: map<Id, int>, dist: map<Id, nat>, queue: seq<Id>, best: nat,
                  ghost path: map<Id, seq<Id>>, ghost top: Id)
      returns (inDegree': map<Id, int>, dist': map<Id, nat>, queue': seq<Id>, best': nat,
               ghost path': map<Id, seq<Id>>, ghost top': Id)
    requires State(g, once, order, done, current, [neighbor] + rest, queue, inDegree, dist, path, best, top)
    requires Link(current, neighbor) in g.links && Witness(g, g.ids, here, current, currentDist)
    requires once ==> current in done && Witness(g, done, here, current, currentDist) && dist[current] == currentDist
    ensures State(g, once, order, done, current, rest, queue', inDegree', dist', path', best', top')
    ensures |Waiting(inDegree')| + |queue'| <= |Waiting(inDegree)| + |queue|
    ensures once ==> dist'[current] == currentDist
  {
    inDegree', dist', queue', best', path', top' := inDegree, dist, queue, best, path, top;
    RelaxKeepsBasic(g, current, here, currentDist, neighbor, queue, inDegree, dist, path, best, top);
    QueueingIsBounded(neighbor, queue, inDegree);
    if once {
      RelaxKeepsInv(g, order, done, current, here, neighbor, rest, queue, inDegree, dist, path, best, top);
    }
    var newDist := currentDist + 1;
    if newDist > dist[neighbor] {
      dist' := dist[neighbor := newDist];
      path' := path[neighbor := here + [neighbor]];
    }
    if newDist > best {
      best' := newDist;
      top' := neighbor;
    }
    var newInDegree := inDegree[neighbor] - 1;
    inDegree' := inDegree[neighbor := newInDegree];
    if newInDegree == 0 {
      queue' := queue + [neighbor];
    }
  }

  // ----- The whole graph -----

  function AssignGroup(score: int): Group {
    if score >= 80 then Critical else if score >= 60 then High else if score >= 30 then Medium else Low
  }

  /** Where the links into `v` stand. */
  function Into(links: seq<Link>, v: Id): set<int> {
    set k | 0 <= k < |links| && links[k].target == v
  }

  lemma IntoSnoc(links: seq<Link>, l: Link, v: Id)
    ensures Into(links + [l], v) == Into(links, v) + if l.target == v then {|links|} else {}
    ensures |links| !in Into(links, v)
  {
  }

  lemma {:induction false} InDegreeCounts(links: seq<Link>, v: Id)
    ensures InDegree(links, {}, v) == |Into(links, v)|
  {
    if links != [] {
      var n := |links| - 1;
      InDegreeCounts(links[..n], v);
      IntoSnoc(links[..n], links[n], v);
      assert links == links[..n] + [links[n]];
    }
  }

  /** Number of links into `v`. */
  function BlockedBy(links: seq<Link>, v: Id): nat {
    InDegree(links, {}, v)
  }

  /** The last of the tasks that have the id. */
  function LastWith(tasks: seq<Task>, id: Id): (t: Task)
    requires exists t :: t in tasks && t.id == id
    ensures t.id == id && exists i :: 0 <= i < |tasks| && tasks[i] == t && forall j :: i < j < |tasks| ==> tasks[j].id != id
  {
    var last := tasks[|tasks|-1];
    if last.id == id then last
    else
      assert forall t :: t in tasks ==> t == last || t in tasks[..|tasks|-1];
      LastWith(tasks[..|tasks|-1], id)
  }

  /** A task whose id is its own is the last with it. */
  lemma UniqueIsLast(tasks: seq<Task>, i: nat)
    requires i < |tasks| && forall j :: 0 <= j < |tasks| && j != i ==> tasks[j].id != tasks[i].id
    ensures tasks[i] in tasks && LastWith(tasks, tasks[i].id) == tasks[i]
  {
    assert tasks[i] in tasks;
    var t := LastWith(tasks, tasks[i].id);
    var j :| 0 <= j < |tasks| && tasks[j] == t;
  }

  /** `counts` holds, for every id of the first `n` tasks, how many ids its last task blocks. */
  ghost predicate CountsBlocking(tasks: seq<Task>, n: nat, counts: map<Id, nat>)
    requires n <= |tasks|
  {
    && counts.Keys == Ids(tasks[..n])
    && forall t :: t in tasks[..n] ==> counts[t.id] == |LastWith(tasks[..n], t.id).blocks|
  }

  lemma CountsNext(tasks: seq<Task>, n: nat, counts: map<Id, nat>)
    requires n < |tasks| && CountsBlocking(tasks, n, counts)
    ensures CountsBlocking(tasks, n + 1, counts[tasks[n].id := |tasks[n].blocks|])
  {
    var before, after, next := tasks[..n], tasks[..n+1], counts[tasks[n].id := |tasks[n].blocks|];
    assert after == before + [tasks[n]];
    assert after[..|after|-1] == before;
    forall t | t in after ensures t.id in next && next[t.id] == |LastWith(after, t.id).blocks| {
      if t.id != tasks[n].id {
        assert t in before;
        assert LastWith(after, t.id) == LastWith(before, t.id);
      }
    }
  }

  ghost predicate CountsBlockedBy(links: seq<Link>, counts: map<Id, nat>) {
    forall v :: BlockedBy(links, v) == if v in counts then counts[v] else 0
  }

  /** The links and both counts, task by task. */
  method CollectLinks(tasks: seq<Task>)
      returns (links: seq<Link>, blockedByCounts: map<Id, nat>, blockingCounts: map<Id, nat>)
    ensures links == GraphOf(tasks).links
    ensures CountsBlockedBy(links, blockedByCounts)
    ensures CountsBlocking(tasks, |tasks|, blockingCounts)
  {
    var ids := Ids(tasks);
    links, blockedByCounts, blockingCounts := [], map[], map[];
    for i := 0 to |tasks|
      invariant links == LinksUpTo(tasks, i)
      invariant CountsBlockedBy(links, blockedByCounts)
      invariant CountsBlocking(tasks, i, blockingCounts)
    {
      CountsNext(tasks, i, blockingCounts);
      blockingCounts := blockingCounts[tasks[i].id := |tasks[i].blocks|];
      links, blockedByCounts := LinkTask(ids, tasks[i], links, blockedByCounts);
    }
  }

  method LinkTask(ids: set<Id>, t: Task, links: seq<Link>, counts: map<Id, nat>)
      returns (links': seq<Link>, counts': map<Id, nat>)
    requires CountsBlockedBy(links, counts)
    ensures links' == links + LinksFrom(ids, t.id, t.blocks)
    ensures CountsBlockedBy(links', counts')
  {
    links', counts' := links, counts;
    for k := 0 to |t.blocks|
      invariant links' == links + LinksFrom(ids, t.id, t.blocks[..k])
      invariant CountsBlockedBy(links', counts')
    {
      var blocked := t.blocks[k];
      LinksFromSnoc(ids, t.id, t.blocks, k, links);
      if blocked in ids {
        ghost var before := links';
        links' := links' + [Link(t.id, blocked)];
        forall v ensures BlockedBy(links', v) == BlockedBy(before, v) + if v == blocked then 1 else 0 {
          InDegreeAppend(before, Link(t.id, blocked), {}, v);
        }
        counts' := counts'[blocked := (if blocked in counts' then counts'[blocked] else 0) + 1];
      }
    }
    assert t.blocks[..|t.blocks|] == t.blocks;
  }

  function NodeOf(t: Task, blockingCounts: map<Id, nat>, blockedByCounts: map<Id, nat>): Node {
    Node(t.id, t.details, t.priorityScore,
         if t.id in blockingCounts then blockingCounts[t.id] else 0,
         if t.id in blockedByCounts then blockedByCounts[t.id] else 0,
         AssignGroup(t.priorityScore))
  }

  /** The node of a task: with its own details, the number of ids the last task of its id blocks, the number
      of links into it, and the group of its score. */
  ghost predicate Shows(tasks: seq<Task>, links: seq<Link>, t: Task, n: Node) {
    && n.id == t.id && n.details == t.details && n.priorityScore == t.priorityScore
    && t in tasks && n.blockingCount == |LastWith(tasks, t.id).blocks|
    && n.blockedByCount == |set k | 0 <= k < |links| && links[k].target == t.id|
    && (n.group == Critical <==> t.priorityScore >= 80)
    && (n.group == High <==> 60 <= t.priorityScore < 80)
    && (n.group == Medium <==> 30 <= t.priorityScore < 60)
    && (n.group == Low <==> t.priorityScore < 30)
  }

  lemma NodeShows(tasks: seq<Task>, links: seq<Link>, t: Task, blockingCounts: map<Id, nat>, blockedByCounts: map<Id, nat>)
    requires t in tasks && CountsBlockedBy(links, blockedByCounts) && CountsBlocking(tasks, |tasks|, blockingCounts)
    ensures Shows(tasks, links, t, NodeOf(t, blockingCounts, blockedByCounts))
  {
    assert tasks[..|tasks|] == tasks;
    InDegreeCounts(links, t.id);
    assert Into(links, t.id) == set k | 0 <= k < |links| && links[k].target == t.id;
  }

  function Nodes(tasks: seq<Task>, blockingCounts: map<Id, nat>, blockedByCounts: map<Id, nat>): seq<Node> {
    seq(|tasks|, i requires 0 <= i < |tasks| => NodeOf(tasks[i], blockingCounts, blockedByCounts))
  }

  /** Every task is shown by its node. */
  ghost predicate ShowsAll(tasks: seq<Task>, links: seq<Link>, nodes: seq<Node>) {
    |nodes| == |tasks| && forall i :: 0 <= i < |tasks| ==> Shows(tasks, links, tasks[i], nodes[i])
  }

  lemma NodesShow(tasks: seq<Task>, links: seq<Link>, blockingCounts: map<Id, nat>, blockedByCounts: map<Id, nat>)
    requires CountsBlockedBy(links, blockedByCounts) && CountsBlocking(tasks, |tasks|, blockingCounts)
    ensures ShowsAll(tasks, links, Nodes(tasks, blockingCounts, blockedByCounts))
  {
    forall i | 0 <= i < |tasks| ensures Shows(tasks, links, tasks[i], NodeOf(tasks[i], blockingCounts, blockedByCounts)) {
      NodeShows(tasks, links, tasks[i], blockingCounts, blockedByCounts);
    }
  }

  method Generate(tasks: seq<Task>) returns (data: GraphData)
    ensures data.links == GraphOf(tasks).links
    ensures exists at :: Listed(tasks, |tasks|, data.links, at)
    ensures data.totalTasks == |tasks| && data.totalDependencies == |data.links|
    ensures tasks == [] ==> data.criticalPathLength == 0
    ensures tasks != [] ==> exists p :: IsChain(GraphOf(tasks), p) && |p| == data.criticalPathLength
    ensures tasks != [] && SourcesAppearOnce(tasks) ==> IsCriticalLength(GraphOf(tasks), data.criticalPathLength)
    ensures ShowsAll(tasks, data.links, data.nodes)
  {
    var links, blockedByCounts, blockingCounts := CollectLinks(tasks);
    ghost var at := LinksAreListed(tasks, |tasks|);
    NodesShow(tasks, links, blockingCounts, blockedByCounts);
    var nodes := Nodes(tasks, blockingCounts, blockedByCounts);
    var criticalPathLength, _ := ComputeCriticalPathLength(tasks);
    data := GraphData(nodes, links, |nodes|, |links|, criticalPathLength);
  }

  // ----- Consequences -----

  /** On an acyclic task set the result is the length of the longest chain of blocking links. */
  lemma CriticalPathOfAcyclic(g: Graph, r: nat)
    requires Acyclic(g) && IsCriticalLength(g, r)
    ensures exists p :: IsChain(g, p) && |p| == r
    ensures forall p :: IsChain(g, p) ==> |p| <= r
  {
    var longest :| ClearChain(g, longest) && |longest| == r;
    forall p | IsChain(g, p) ensures |p| <= r {
      forall i | 0 <= i < |p|-1 ensures !Tainted(g, p[i]) {
        if Tainted(g, p[i]) {
          TaintNeedsACycle(g, p[i]);
        }
      }
      assert ClearChain(g, p);
    }
  }

  /** A tainted task is reached by a cycle, so the graph is not acyclic. */
  lemma TaintNeedsACycle(g: Graph, v: Id)
    requires Tainted(g, v)
    ensures !Acyclic(g)
  {
    var q: seq<Id>, k: nat :| Lasso(g, q, k, v);
    ChainPrefix(g, q, k+1);
    var cycle := q[..k+1];
    assert |cycle| >= 2 && cycle[0] == cycle[|cycle|-1];
  }

  /** Conversely every task on a cycle is reached by it, so it is never shifted off the queue. */
  lemma CyclesAreTainted(g: Graph, p: seq<Id>, i: nat)
    requires IsChain(g, p) && |p| >= 2 && p[0] == p[|p|-1] && i < |p|
    ensures Tainted(g, p[i])
  {
    var q := p + p[1..i+1];
    forall k | 0 < k < |q| ensures LinkAt(g, q, k) {
      if k < |p| {
        assert LinkAt(g, p, k);
      } else {
        assert LinkAt(g, p, k - |p| + 1);
      }
    }
    assert forall x :: x in q ==> x in p;
    assert q[|q|-1] == p[i];
    assert Lasso(g, q, |p|-1, p[i]);
  }

  lemma RepeatIsTainted(g: Graph, p: seq<Id>, i: nat, j: nat)
    requires IsChain(g, p) && i < j < |p| && p[i] == p[j]
    ensures Tainted(g, p[i])
  {
    ChainPrefix(g, p, j+1);
    RepeatIsLasso(g, p[..j+1], i, j);
  }

  lemma ClearChainIsSimple(g: Graph, p: seq<Id>)
    requires ClearChain(g, p)
    ensures Simple(p)
  {
    forall i, j | 0 <= i < j < |p| ensures p[i] != p[j] {
      if p[i] == p[j] {
        RepeatIsTainted(g, p, i, j);
      }
    }
  }

  /** The result is attained by a chain without repetitions, so it lies between 1 and the number of tasks. */
  lemma CriticalPathIsSimple(g: Graph, r: nat)
    requires IsCriticalLength(g, r)
    ensures exists p :: ClearChain(g, p) && Simple(p) && |p| == r
    ensures 1 <= r <= |g.ids|
  {
    var p :| ClearChain(g, p) && |p| == r;
    ClearChainIsSimple(g, p);
    Pigeonhole(p, g.ids);
  }
}
