/** The lock-wait forest of `handler/locks.go`: rows "this process blocks that one" are
    unfolded into trees, one per process that blocks others without waiting itself. */
module LockForest {
  import opened Wrappers
  import opened Sorting

  datatype LockInfo = LockInfo(
    blockedPid: int, blockedUser: string, blockedDatabase: string, blockedQuery: string,
    blockingPid: int, blockingUser: string, blockingDatabase: string, blockingQuery: string,
    waitEventType: Option<string>, waitEvent: string, blockedState: string,
    blockedDuration: string, lockType: string, relationName: string)

  datatype NodeData = NodeData(
    pid: int, user: string, database: string, state: string, query: string,
    waitEventType: string, waitEvent: string, blockedDuration: string)

  datatype Edge = Edge(lockType: string, relationName: string, duration: string)

  datatype Tree = Tree(data: NodeData, children: seq<Tree>, edges: seq<Edge>)

  /** The four maps filled by the first loop. */
  datatype Index = Index(
    nodes: map<int, NodeData>,
    children: map<int, map<int, LockInfo>>,
    blocked: set<int>,
    blockers: set<int>)

  // ---------------------------------------------------------------- indexing the rows

  function BlockingData(l: LockInfo): NodeData {
    NodeData(l.blockingPid, l.blockingUser, l.blockingDatabase, "", l.blockingQuery, "", "", "")
  }

  function BlockedData(l: LockInfo): NodeData {
    NodeData(l.blockedPid, l.blockedUser, l.blockedDatabase, l.blockedState, l.blockedQuery,
             l.waitEventType.GetOr(""), l.waitEvent, l.blockedDuration)
  }

  function EdgeOf(l: LockInfo): Edge {
    Edge(l.lockType, l.relationName, l.blockedDuration)
  }

  function AddRow(g: Index, l: LockInfo): Index {
    var known := if l.blockingPid in g.children then g.children[l.blockingPid] else map[];
    Index(g.nodes[l.blockingPid := BlockingData(l)][l.blockedPid := BlockedData(l)],
          g.children[l.blockingPid := known[l.blockedPid := l]],
          g.blocked + {l.blockedPid},
          g.blockers + {l.blockingPid})
  }

  function IndexRows(rows: seq<LockInfo>): Index {
    if rows == [] then Index(map[], map[], {}, {})
    else AddRow(IndexRows(rows[..|rows| - 1]), rows[|rows| - 1])
  }

  predicate Names(l: LockInfo, pid: int) {
    l.blockingPid == pid || l.blockedPid == pid
  }

  /** What one row says about a process; a process that blocks itself counts as blocked. */
  function Saying(l: LockInfo, pid: int): NodeData
    requires Names(l, pid)
  {
    if l.blockedPid == pid then BlockedData(l) else BlockingData(l)
  }

  /** Row i is the last one that names pid. */
  ghost predicate LastNaming(rows: seq<LockInfo>, pid: int, i: int) {
    && 0 <= i < |rows| && Names(rows[i], pid)
    && forall j | i < j < |rows| :: !Names(rows[j], pid)
  }

  /** Row i is the last one that shows c waiting for pid. */
  ghost predicate LastWait(rows: seq<LockInfo>, pid: int, c: int, i: int) {
    && 0 <= i < |rows| && IsWait(rows[i], pid, c)
    && forall j | i < j < |rows| :: !IsWait(rows[j], pid, c)
  }

  predicate IsWait(l: LockInfo, pid: int, c: int) {
    l.blockingPid == pid && l.blockedPid == c
  }

  function Successors(g: Index, pid: int): set<int> {
    if pid in g.children then g.children[pid].Keys else {}
  }

  lemma AppendRow(rows: seq<LockInfo>)
    requires rows != []
    ensures IndexRows(rows) == AddRow(IndexRows(rows[..|rows| - 1]), rows[|rows| - 1])
    ensures forall l :: l in rows <==> l in rows[..|rows| - 1] || l == rows[|rows| - 1]
  {
    assert rows == rows[..|rows| - 1] + [rows[|rows| - 1]];
  }

  lemma {:induction false} IndexSets(rows: seq<LockInfo>, pid: int)
    ensures pid in IndexRows(rows).blocked <==> exists l | l in rows :: l.blockedPid == pid
    ensures pid in IndexRows(rows).blockers <==> exists l | l in rows :: l.blockingPid == pid
  {
    if rows == [] {
    } else {
      AppendRow(rows);
      IndexSets(rows[..|rows| - 1], pid);
    }
  }

  /** A successor is a process that some row shows waiting for pid. */
  lemma {:induction false} IndexSuccessors(rows: seq<LockInfo>, pid: int, c: int)
    ensures c in Successors(IndexRows(rows), pid) <==> exists l | l in rows :: IsWait(l, pid, c)
  {
    if rows == [] {
    } else {
      var front, last := rows[..|rows| - 1], rows[|rows| - 1];
      AppendRow(rows);
      IndexSuccessors(front, pid, c);
      assert c in Successors(IndexRows(rows), pid) <==> c in Successors(IndexRows(front), pid) || IsWait(last, pid, c);
    }
  }

  /** What is shown about a process comes from the last row that names it. */
  lemma {:induction false} IndexData(rows: seq<LockInfo>, pid: int, i: int)
    requires LastNaming(rows, pid, i)
    ensures pid in IndexRows(rows).nodes && IndexRows(rows).nodes[pid] == Saying(rows[i], pid)
    ensures var n, l := IndexRows(rows).nodes[pid], rows[i];
            n.pid == pid &&
            if l.blockedPid == pid
            then && n.user == l.blockedUser && n.database == l.blockedDatabase && n.query == l.blockedQuery
                 && n.state == l.blockedState && n.waitEvent == l.waitEvent && n.blockedDuration == l.blockedDuration
                 && n.waitEventType == (if l.waitEventType.Some? then l.waitEventType.value else "")
            else && n.user == l.blockingUser && n.database == l.blockingDatabase && n.query == l.blockingQuery
                 && n.state == n.waitEventType == n.waitEvent == n.blockedDuration == ""
  {
    AppendRow(rows);
    var front := rows[..|rows| - 1];
    if i < |front| {
      assert forall j | i < j < |front| :: front[j] == rows[j];
      IndexData(front, pid, i);
    }
  }

  /** The lock on an edge comes from the last row about that pair. */
  lemma {:induction false} IndexEdge(rows: seq<LockInfo>, pid: int, c: int, i: int)
    requires LastWait(rows, pid, c, i)
    ensures c in Successors(IndexRows(rows), pid) && IndexRows(rows).children[pid][c] == rows[i]
  {
    AppendRow(rows);
    var front := rows[..|rows| - 1];
    if i < |front| {
      assert forall j | i < j < |front| :: front[j] == rows[j];
      IndexEdge(front, pid, c, i);
    }
  }

  /** What the rest of the construction needs to know about the maps. */
  ghost predicate WellFormed(g: Index) {
    && g.children.Keys == g.blockers
    && g.nodes.Keys == g.blockers + g.blocked
    && (forall p | p in g.nodes :: g.nodes[p].pid == p)
    && (forall p, c | c in Successors(g, p) :: c in g.blocked)
    && (forall c | c in g.blocked :: exists p :: c in Successors(g, p))
  }

  lemma {:induction false} IndexShape(rows: seq<LockInfo>)
    ensures var g := IndexRows(rows);
            && g.children.Keys == g.blockers
            && g.nodes.Keys == g.blockers + g.blocked
            && (forall p | p in g.nodes :: g.nodes[p].pid == p)
  {
    if rows == [] {
    } else {
      IndexShape(rows[..|rows| - 1]);
    }
  }

  lemma IndexIsWellFormed(rows: seq<LockInfo>)
    ensures WellFormed(IndexRows(rows))
  {
    var g := IndexRows(rows);
    IndexShape(rows);
    forall p, c | c in Successors(g, p) ensures c in g.blocked {
      IndexSuccessors(rows, p, c);
      IndexSets(rows, c);
    }
    forall c | c in g.blocked ensures exists p :: c in Successors(g, p) {
      IndexSets(rows, c);
      var l :| l in rows && l.blockedPid == c;
      assert IsWait(l, l.blockingPid, c);
      IndexSuccessors(rows, l.blockingPid, c);
    }
  }

  ghost predicate Mentioned(rows: seq<LockInfo>, pid: int) {
    exists l | l in rows :: Names(l, pid)
  }

  lemma MentionedAreNodes(rows: seq<LockInfo>, pid: int)
    ensures Mentioned(rows, pid) <==> pid in IndexRows(rows).nodes
  {
    IndexShape(rows);
    IndexSets(rows, pid);
    if pid in IndexRows(rows).nodes {
      if l :| l in rows && l.blockedPid == pid { assert Names(l, pid); }
      if l :| l in rows && l.blockingPid == pid { assert Names(l, pid); }
    }
  }

  // ---------------------------------------------------------------- unfolding

  function NodeOf(g: Index, pid: int): NodeData {
    if pid in g.nodes then g.nodes[pid] else NodeData(0, "", "", "", "", "", "", "")
  }

  /** The processes waiting for pid, in the order in which `build` visits them. */
  ghost function Waiters(g: Index, pid: int): seq<int> {
    SortedInts(Successors(g, pid))
  }

  ghost function EdgesOf(g: Index, pid: int): seq<Edge> {
    SortedIntsMeaning(Successors(g, pid));
    var xs := Waiters(g, pid);
    seq(|xs|, i requires 0 <= i < |xs| => EdgeOf(g.children[pid][xs[i]]))
  }

  /** `build`: a process already seen on the way down is shown without children. */
  ghost function Build(g: Index, pid: int, seen: set<int>): Tree
    decreases g.children.Keys - seen
  {
    if pid in seen || pid !in g.children then Tree(NodeOf(g, pid), [], [])
    else
      var xs := Waiters(g, pid);
      Tree(NodeOf(g, pid), seq(|xs|, i requires 0 <= i < |xs| => Build(g, xs[i], seen + {pid})), EdgesOf(g, pid))
  }

  /** One level of the unfolding. */
  lemma BuildOpens(g: Index, pid: int, seen: set<int>)
    requires pid !in seen && pid in g.children
    ensures var t, xs := Build(g, pid, seen), Waiters(g, pid);
            && t.data == NodeOf(g, pid) && |t.children| == |t.edges| == |xs|
            && (forall k | 0 <= k < |xs| ::
                  && xs[k] in g.children[pid]
                  && t.children[k] == Build(g, xs[k], seen + {pid})
                  && t.edges[k] == EdgeOf(g.children[pid][xs[k]]))
  {
    SortedIntsMeaning(Successors(g, pid));
  }

  /** Blockers that wait for nobody, or all blockers when there are none. */
  function RootSet(g: Index): set<int> {
    if g.blockers - g.blocked == {} then g.blockers else g.blockers - g.blocked
  }

  ghost function Roots(g: Index): seq<int> {
    SortedInts(RootSet(g))
  }

  ghost function Forest(rows: seq<LockInfo>): seq<Tree> {
    var g := IndexRows(rows);
    seq(|Roots(g)|, i requires 0 <= i < |Roots(g)| => Build(g, Roots(g)[i], {}))
  }

  // ---------------------------------------------------------------- the program

  method IndexLocks(locks: seq<LockInfo>) returns (g: Index)
    ensures g == IndexRows(locks)
  {
    var nodes: map<int, NodeData> := map[];
    var children: map<int, map<int, LockInfo>> := map[];
    var blocked: set<int>, blockers: set<int> := {}, {};
    for i := 0 to |locks|
      invariant Index(nodes, children, blocked, blockers) == IndexRows(locks[..i])
    {
      var lock := locks[i];
      assert locks[..i + 1][..i] == locks[..i];
      blockers := blockers + {lock.blockingPid};
      blocked := blocked + {lock.blockedPid};
      nodes := nodes[lock.blockingPid := BlockingData(lock)];
      nodes := nodes[lock.blockedPid := BlockedData(lock)];
      if lock.blockingPid !in children {
        children := children[lock.blockingPid := map[]];
      }
      children := children[lock.blockingPid := children[lock.blockingPid][lock.blockedPid := lock]];
    }
    assert locks[..|locks|] == locks;
    g := Index(nodes, children, blocked, blockers);
  }

  method BuildNode(g: Index, pid: int, seen: set<int>) returns (node: Tree)
    ensures node == Build(g, pid, seen)
    decreases g.children.Keys - seen
  {
    node := Tree(NodeOf(g, pid), [], []);
    if pid in seen || pid !in g.children {
      return;
    }
    var nextSeen := seen + {pid};
    var childPids := SortInts(g.children[pid].Keys);
    BuildOpens(g, pid, seen);
    ghost var goal := Build(g, pid, seen);
    var i := 0;
    while i < |childPids|
      invariant 0 <= i <= |childPids| == |goal.children| == |goal.edges|
      invariant node.data == goal.data
      invariant node.children == goal.children[..i]
      invariant node.edges == goal.edges[..i]
    {
      var lock := g.children[pid][childPids[i]];
      var child := BuildNode(g, childPids[i], nextSeen);
      assert goal.edges[..i + 1] == goal.edges[..i] + [EdgeOf(lock)];
      assert goal.children[..i + 1] == goal.children[..i] + [child];
      node := Tree(node.data, node.children + [child], node.edges + [EdgeOf(lock)]);
      i := i + 1;
    }
  }

  method BuildLockTree(locks: seq<LockInfo>) returns (roots: seq<Tree>, flat: seq<LockInfo>)
    ensures roots == Forest(locks) && flat == locks
  {
    var g := IndexLocks(locks);
    var unblocked := g.blockers - g.blocked;
    var rootPids := SortInts(unblocked);
    if |rootPids| == 0 {
      rootPids := SortInts(g.blockers);
    }
    roots, flat := [], locks;
    var i := 0;
    while i < |rootPids|
      invariant 0 <= i <= |rootPids|
      invariant roots == Forest(locks)[..i]
    {
      var root := BuildNode(g, rootPids[i], {});
      roots := roots + [root];
      i := i + 1;
    }
  }

  // ---------------------------------------------------------------- walks and tree paths

  /** A walk of the blocking graph: each process waits for the one before it. */
  ghost predicate Walk(g: Index, w: seq<int>) {
    |w| > 0 && forall i | 0 <= i < |w| - 1 :: w[i + 1] in Successors(g, w[i])
  }

  /** The labels met on some way down from the root of t. */
  ghost predicate TreePath(t: Tree, w: seq<int>)
    decreases t
  {
    && |w| > 0 && w[0] == t.data.pid
    && (|w| == 1 || exists i | 0 <= i < |t.children| :: TreePath(t.children[i], w[1..]))
  }

  /** What a way down from pid may be when the processes in `seen` lie above it. */
  ghost predicate Unfolds(g: Index, pid: int, seen: set<int>, w: seq<int>) {
    && Walk(g, w) && w[0] == pid
    && NoDuplicates(w[..|w| - 1])
    && (forall i | 0 <= i < |w| - 1 :: w[i] !in seen)
  }

  lemma UnfoldsStep(g: Index, pid: int, c: int, seen: set<int>, w: seq<int>)
    requires |w| > 1 && w[0] == pid && w[1] == c
    ensures Unfolds(g, pid, seen, w) <==>
            pid !in seen && c in Successors(g, pid) && Unfolds(g, c, seen + {pid}, w[1..])
  {
    var v := w[1..];
    assert forall i | 0 <= i < |v| :: v[i] == w[i + 1];
    assert w[..|w| - 1] == [pid] + v[..|v| - 1];
    assert forall i | 0 < i < |w| - 1 :: w[..|w| - 1][i] == w[i];
    if Unfolds(g, pid, seen, w) {
      forall i | 0 <= i < |v| - 1 ensures v[i] !in seen + {pid} && v[i + 1] in Successors(g, v[i]) {
        assert w[i + 1] != w[0] by { assert w[..|w| - 1][i + 1] == w[i + 1] && w[..|w| - 1][0] == w[0]; }
      }
      forall i, j | 0 <= i < j < |v| - 1 ensures v[i] != v[j] {
        assert w[..|w| - 1][i + 1] != w[..|w| - 1][j + 1];
      }
    }
    if pid !in seen && c in Successors(g, pid) && Unfolds(g, c, seen + {pid}, v) {
      forall i | 0 <= i < |w| - 1 ensures w[i] !in seen && w[i + 1] in Successors(g, w[i]) {
        if i > 0 { assert w[i] == v[i - 1] && w[i + 1] == v[i]; }
      }
      forall i, j | 0 <= i < j < |w| - 1 ensures w[i] != w[j] {
        assert w[j] == v[j - 1];
        if i > 0 { assert v[..|v| - 1][i - 1] != v[..|v| - 1][j - 1]; }
      }
    }
  }

  /** The ways down a tree are exactly the walks that repeat no process before their end. */
  lemma {:induction false} PathsExact(g: Index, pid: int, seen: set<int>, w: seq<int>)
    requires WellFormed(g) && pid in g.nodes
    ensures TreePath(Build(g, pid, seen), w) <==> Unfolds(g, pid, seen, w)
    decreases |w|
  {
    var t := Build(g, pid, seen);
    if |w| > 1 && w[0] == pid {
      var c, v := w[1], w[1..];
      UnfoldsStep(g, pid, c, seen, w);
      if pid !in seen && pid in g.children {
        var xs := Waiters(g, pid);
        SortedIntsMeaning(Successors(g, pid));
        forall i | 0 <= i < |xs| ensures TreePath(t.children[i], v) <==> Unfolds(g, xs[i], seen + {pid}, v) {
          WaiterIsNode(g, pid, xs[i]);
          PathsExact(g, xs[i], seen + {pid}, v);
        }
        if c in Successors(g, pid) {
          var i := SortedIntsHas(Successors(g, pid), c);
          assert TreePath(t.children[i], v) <==> Unfolds(g, c, seen + {pid}, v);
        }
      }
    }
  }

  // ---------------------------------------------------------------- what is shown

  ghost predicate Occurs(t: Tree, pid: int)
    decreases t
  {
    t.data.pid == pid || exists c | c in t.children :: Occurs(c, pid)
  }

  ghost predicate Shown(rows: seq<LockInfo>, pid: int) {
    exists t | t in Forest(rows) :: Occurs(t, pid)
  }

  lemma {:induction false} OccursOnPath(t: Tree, pid: int) returns (w: seq<int>)
    requires Occurs(t, pid)
    ensures TreePath(t, w) && w[|w| - 1] == pid
    decreases t
  {
    if t.data.pid == pid {
      w := [pid];
    } else {
      var c :| c in t.children && Occurs(c, pid);
      var v := OccursOnPath(c, pid);
      w := [t.data.pid] + v;
      assert w[1..] == v;
      var i :| 0 <= i < |t.children| && t.children[i] == c;
      assert TreePath(t.children[i], w[1..]);
    }
  }

  lemma {:induction false} PathEndOccurs(t: Tree, w: seq<int>)
    requires TreePath(t, w)
    ensures Occurs(t, w[|w| - 1])
    decreases t
  {
    if |w| <= 1 {
    } else {
      var i :| 0 <= i < |t.children| && TreePath(t.children[i], w[1..]);
      PathEndOccurs(t.children[i], w[1..]);
      assert t.children[i] in t.children;
    }
  }

  /** `to` waits, directly or through others, for `from`. */
  ghost predicate Reaches(g: Index, from: int, to: int) {
    exists w :: WalkBetween(g, from, to, w)
  }

  ghost predicate ReachedFrom(g: Index, starts: set<int>, to: int) {
    exists r | r in starts :: Reaches(g, r, to)
  }

  ghost predicate WalkBetween(g: Index, from: int, to: int, w: seq<int>) {
    Walk(g, w) && w[0] == from && w[|w| - 1] == to
  }

  /** Cutting out loops leaves a walk on which no process repeats. */
  lemma {:induction false} SimpleWalk(g: Index, from: int, to: int, w: seq<int>) returns (v: seq<int>)
    requires WalkBetween(g, from, to, w)
    ensures WalkBetween(g, from, to, v) && NoDuplicates(v)
    decreases |w|
  {
    if i, j :| 0 <= i < j < |w| && w[i] == w[j] {
      var u := w[..i] + w[j..];
      forall k | 0 <= k < |u| - 1 ensures u[k + 1] in Successors(g, u[k]) {
        if k < i { assert u[k] == w[k] && u[k + 1] == w[k + 1]; }
        else { assert u[k] == w[k - i + j] && u[k + 1] == w[k + 1 - i + j]; }
      }
      v := SimpleWalk(g, from, to, u);
    } else {
      v := w;
    }
  }

  lemma TreeHasRoot(rows: seq<LockInfo>, t: Tree) returns (r: int)
    requires t in Forest(rows)
    ensures var g := IndexRows(rows);
            r in RootSet(g) && r in g.nodes && WellFormed(g) && t == Build(g, r, {})
  {
    IndexIsWellFormed(rows);
    var rs := Roots(IndexRows(rows));
    var i :| 0 <= i < |rs| && Forest(rows)[i] == t;
    r := rs[i];
    SortedIntsMeaning(RootSet(IndexRows(rows)));
  }

  lemma RootHasTree(rows: seq<LockInfo>, r: int)
    requires r in RootSet(IndexRows(rows))
    ensures Build(IndexRows(rows), r, {}) in Forest(rows)
  {
    var i := SortedIntsHas(RootSet(IndexRows(rows)), r);
    assert Forest(rows)[i] == Build(IndexRows(rows), r, {});
  }

  lemma ReachedOccurs(g: Index, r: int, pid: int)
    requires WellFormed(g) && r in g.nodes && Reaches(g, r, pid)
    ensures Occurs(Build(g, r, {}), pid)
  {
    var w :| WalkBetween(g, r, pid, w);
    var v := SimpleWalk(g, r, pid, w);
    PathsExact(g, r, {}, v);
    PathEndOccurs(Build(g, r, {}), v);
  }

  lemma OccursIsReached(g: Index, r: int, pid: int)
    requires WellFormed(g) && r in g.nodes && Occurs(Build(g, r, {}), pid)
    ensures Reaches(g, r, pid)
  {
    var w := OccursOnPath(Build(g, r, {}), pid);
    PathsExact(g, r, {}, w);
    assert WalkBetween(g, r, pid, w);
  }

  lemma ReachedIsShown(rows: seq<LockInfo>, r: int, pid: int)
    requires r in RootSet(IndexRows(rows)) && Reaches(IndexRows(rows), r, pid)
    ensures Shown(rows, pid)
  {
    IndexIsWellFormed(rows);
    RootHasTree(rows, r);
    ReachedOccurs(IndexRows(rows), r, pid);
  }

  lemma ShownIsReached(rows: seq<LockInfo>, pid: int) returns (r: int)
    requires Shown(rows, pid)
    ensures r in RootSet(IndexRows(rows)) && Reaches(IndexRows(rows), r, pid)
  {
    var t :| t in Forest(rows) && Occurs(t, pid);
    r := TreeHasRoot(rows, t);
    OccursIsReached(IndexRows(rows), r, pid);
  }

  /** A process is shown exactly when the blocking graph leads to it from a chosen root. */
  lemma ShownExactly(rows: seq<LockInfo>, pid: int)
    ensures Shown(rows, pid) <==> ReachedFrom(IndexRows(rows), RootSet(IndexRows(rows)), pid)
  {
    if Shown(rows, pid) {
      var r := ShownIsReached(rows, pid);
    }
    if r :| r in RootSet(IndexRows(rows)) && Reaches(IndexRows(rows), r, pid) {
      ReachedIsShown(rows, r, pid);
    }
  }

  /** No way down is longer than the number of blockers plus one, whatever cycles there are. */
  lemma PathsAreShort(rows: seq<LockInfo>, t: Tree, w: seq<int>)
    requires t in Forest(rows) && TreePath(t, w)
    ensures |w| <= |IndexRows(rows).blockers| + 1
  {
    var g := IndexRows(rows);
    var r := TreeHasRoot(rows, t);
    PathsExact(g, r, {}, w);
    var front := w[..|w| - 1];
    forall k | 0 <= k < |front| ensures front[k] in g.blockers {
      assert front[k] == w[k] && w[k + 1] in Successors(g, w[k]);
    }
    DistinctFit(front, g.blockers);
  }

  lemma {:induction false} DistinctFit(xs: seq<int>, s: set<int>)
    requires NoDuplicates(xs) && forall x | x in xs :: x in s
    ensures |xs| <= |s|
  {
    if xs == [] {
    } else {
      var last, front := xs[|xs| - 1], xs[..|xs| - 1];
      DistinctFit(front, s - {last});
    }
  }

  /** A process that stands above itself is shown a second time and not unfolded again. */
  lemma RepeatEndsPath(rows: seq<LockInfo>, t: Tree, w: seq<int>, c: int)
    requires t in Forest(rows) && TreePath(t, w) && !NoDuplicates(w)
    ensures NoDuplicates(w[..|w| - 1]) && w[|w| - 1] in w[..|w| - 1] && !TreePath(t, w + [c])
  {
    var g := IndexRows(rows);
    var r := TreeHasRoot(rows, t);
    PathsExact(g, r, {}, w);
    PathsExact(g, r, {}, w + [c]);
    RepeatIsLast(w);
    assert (w + [c])[..|w + [c]| - 1] == w;
  }

  lemma RepeatIsLast(w: seq<int>)
    requires |w| > 0 && NoDuplicates(w[..|w| - 1]) && !NoDuplicates(w)
    ensures w[|w| - 1] in w[..|w| - 1]
  {
    var front := w[..|w| - 1];
    assert forall k | 0 <= k < |front| :: front[k] == w[k];
    var i, j :| 0 <= i < j < |w| && w[i] == w[j];
    assert front[i] == w[|w| - 1];
  }

  /** An unfolded node lists each waiter once, in ascending order, each beside the edge
      taken from the index for that pair. */
  ghost predicate LevelAligned(g: Index, t: Tree) {
    && |t.children| == |t.edges|
    && (t.children != [] ==>
          && |t.children| == |Successors(g, t.data.pid)|
          && (forall i, j | 0 <= i < j < |t.children| :: t.children[i].data.pid < t.children[j].data.pid)
          && (forall i | 0 <= i < |t.children| ::
                && t.children[i].data.pid in Successors(g, t.data.pid)
                && t.edges[i] == EdgeOf(g.children[t.data.pid][t.children[i].data.pid])))
  }

  ghost predicate Aligned(g: Index, t: Tree)
    decreases t
  {
    LevelAligned(g, t) && forall c | c in t.children :: Aligned(g, c)
  }

  lemma BuildData(g: Index, pid: int, seen: set<int>)
    requires WellFormed(g) && pid in g.nodes
    ensures Build(g, pid, seen).data == g.nodes[pid] && Build(g, pid, seen).data.pid == pid
  {
  }

  lemma BuildLevelAligned(g: Index, pid: int, seen: set<int>)
    requires WellFormed(g) && pid in g.nodes
    ensures LevelAligned(g, Build(g, pid, seen))
  {
    BuildData(g, pid, seen);
    if pid !in seen && pid in g.children {
      BuildOpens(g, pid, seen);
      SortedIntsMeaning(Successors(g, pid));
      var t, xs := Build(g, pid, seen), Waiters(g, pid);
      forall i | 0 <= i < |xs| ensures t.children[i].data.pid == xs[i] {
        WaiterIsNode(g, pid, xs[i]);
        BuildData(g, xs[i], seen + {pid});
      }
    }
  }

  lemma WaiterIsNode(g: Index, pid: int, c: int)
    requires WellFormed(g) && c in Successors(g, pid)
    ensures c in g.nodes
  {
  }

  lemma {:induction false} BuildAligns(g: Index, pid: int, seen: set<int>)
    requires WellFormed(g) && pid in g.nodes
    ensures Aligned(g, Build(g, pid, seen))
    decreases g.children.Keys - seen
  {
    BuildLevelAligned(g, pid, seen);
    if pid !in seen && pid in g.children {
      BuildOpens(g, pid, seen);
      SortedIntsMeaning(Successors(g, pid));
      var t, xs := Build(g, pid, seen), Waiters(g, pid);
      forall i | 0 <= i < |xs| ensures Aligned(g, t.children[i]) {
        WaiterIsNode(g, pid, xs[i]);
        BuildAligns(g, xs[i], seen + {pid});
      }
    }
  }

  lemma ForestAligned(rows: seq<LockInfo>, t: Tree)
    requires t in Forest(rows)
    ensures Aligned(IndexRows(rows), t)
  {
    var r := TreeHasRoot(rows, t);
    BuildAligns(IndexRows(rows), r, {});
  }

  /** One tree per chosen root, in ascending order. */
  lemma ForestAscends(rows: seq<LockInfo>)
    ensures |Forest(rows)| == |RootSet(IndexRows(rows))|
    ensures forall i, j | 0 <= i < j < |Forest(rows)| :: Forest(rows)[i].data.pid < Forest(rows)[j].data.pid
  {
    var g := IndexRows(rows);
    IndexIsWellFormed(rows);
    var rs := Roots(g);
    SortedIntsMeaning(RootSet(g));
    forall i | 0 <= i < |rs| ensures Forest(rows)[i].data.pid == rs[i] {
      BuildData(g, rs[i], {});
    }
  }

  // ---------------------------------------------------------------- what is displayed

  /** u is t or stands somewhere in it. */
  ghost predicate Inside(u: Tree, t: Tree)
    decreases t
  {
    u == t || exists c | c in t.children :: Inside(u, c)
  }

  /** Every node shows what the index has for its process. */
  ghost predicate ShowsIndex(g: Index, t: Tree)
    decreases t
  {
    && t.data.pid in g.nodes && t.data == g.nodes[t.data.pid]
    && forall c | c in t.children :: ShowsIndex(g, c)
  }

  lemma {:induction false} BuildShowsIndex(g: Index, pid: int, seen: set<int>)
    requires WellFormed(g) && pid in g.nodes
    ensures ShowsIndex(g, Build(g, pid, seen))
    decreases g.children.Keys - seen
  {
    BuildData(g, pid, seen);
    if pid !in seen && pid in g.children {
      BuildOpens(g, pid, seen);
      SortedIntsMeaning(Successors(g, pid));
      var t, xs := Build(g, pid, seen), Waiters(g, pid);
      forall i | 0 <= i < |xs| ensures ShowsIndex(g, t.children[i]) {
        WaiterIsNode(g, pid, xs[i]);
        BuildShowsIndex(g, xs[i], seen + {pid});
      }
    }
  }

  lemma {:induction false} InsideKeeps(g: Index, u: Tree, t: Tree)
    requires Inside(u, t) && ShowsIndex(g, t) && Aligned(g, t)
    ensures ShowsIndex(g, u) && Aligned(g, u)
    decreases t
  {
    if u == t {
    } else {
      var c :| c in t.children && Inside(u, c);
      InsideKeeps(g, u, c);
    }
  }

  lemma ForestShowsIndex(rows: seq<LockInfo>, t: Tree, u: Tree)
    requires t in Forest(rows) && Inside(u, t)
    ensures ShowsIndex(IndexRows(rows), u) && Aligned(IndexRows(rows), u)
  {
    var r := TreeHasRoot(rows, t);
    BuildShowsIndex(IndexRows(rows), r, {});
    ForestAligned(rows, t);
    InsideKeeps(IndexRows(rows), u, t);
  }

  /** Every node of the forest shows its process as the last row that names it does: the waiting
      side in all fields, the blocking side with user, database and query and nothing else. */
  lemma NodeShows(rows: seq<LockInfo>, t: Tree, u: Tree, i: int)
    requires t in Forest(rows) && Inside(u, t)
    requires 0 <= i < |rows| && (rows[i].blockingPid == u.data.pid || rows[i].blockedPid == u.data.pid)
    requires forall j | i < j < |rows| :: rows[j].blockingPid != u.data.pid && rows[j].blockedPid != u.data.pid
    ensures rows[i].blockedPid == u.data.pid ==>
              && u.data.user == rows[i].blockedUser && u.data.database == rows[i].blockedDatabase
              && u.data.state == rows[i].blockedState && u.data.query == rows[i].blockedQuery
              && (rows[i].waitEventType.Some? ==> u.data.waitEventType == rows[i].waitEventType.value)
              && (rows[i].waitEventType.None? ==> u.data.waitEventType == "")
              && u.data.waitEvent == rows[i].waitEvent && u.data.blockedDuration == rows[i].blockedDuration
    ensures rows[i].blockedPid != u.data.pid ==>
              && u.data.user == rows[i].blockingUser && u.data.database == rows[i].blockingDatabase
              && u.data.query == rows[i].blockingQuery
              && u.data.state == u.data.waitEventType == u.data.waitEvent == u.data.blockedDuration == ""
  {
    ForestShowsIndex(rows, t, u);
    assert LastNaming(rows, u.data.pid, i);
    IndexData(rows, u.data.pid, i);
  }

  /** Every edge of the forest shows lock, relation and duration of the last row about its pair. */
  lemma EdgeShows(rows: seq<LockInfo>, t: Tree, u: Tree, c: nat, i: int)
    requires t in Forest(rows) && Inside(u, t) && c < |u.children|
    requires 0 <= i < |rows| && rows[i].blockingPid == u.data.pid && rows[i].blockedPid == u.children[c].data.pid
    requires forall j | i < j < |rows| ::
               !(rows[j].blockingPid == u.data.pid && rows[j].blockedPid == u.children[c].data.pid)
    ensures c < |u.edges| && u.edges[c].lockType == rows[i].lockType
    ensures u.edges[c].relationName == rows[i].relationName && u.edges[c].duration == rows[i].blockedDuration
  {
    ForestShowsIndex(rows, t, u);
    assert LastWait(rows, u.data.pid, u.children[c].data.pid, i);
    IndexEdge(rows, u.data.pid, u.children[c].data.pid, i);
    assert LevelAligned(IndexRows(rows), u);
  }

  // ---------------------------------------------------------------- coverage

  ghost predicate Acyclic(g: Index) {
    forall w | Walk(g, w) && |w| > 1 :: w[0] != w[|w| - 1]
  }

  /** When every blocker waits itself, every process is shown. */
  lemma AllBlockedShowsAll(rows: seq<LockInfo>, pid: int)
    requires IndexRows(rows).blockers <= IndexRows(rows).blocked && Mentioned(rows, pid)
    ensures Shown(rows, pid)
  {
    var g := IndexRows(rows);
    IndexIsWellFormed(rows);
    MentionedAreNodes(rows, pid);
    assert g.blockers - g.blocked == {};
    if pid in g.blockers {
      NoStep(g, pid);
      ReachedIsShown(rows, pid, pid);
    } else {
      var q :| pid in Successors(g, q);
      OneStep(g, q, pid);
      ReachedIsShown(rows, q, pid);
    }
  }

  lemma OneStep(g: Index, q: int, pid: int)
    requires pid in Successors(g, q)
    ensures Reaches(g, q, pid)
  {
    assert WalkBetween(g, q, pid, [q, pid]);
  }

  lemma NoStep(g: Index, pid: int)
    ensures Reaches(g, pid, pid)
  {
    assert WalkBetween(g, pid, pid, [pid]);
  }

  /** Walking back from the head of a walk in an acyclic graph ends at a process that waits for nobody. */
  lemma {:induction false} WalkBack(g: Index, w: seq<int>) returns (r: int)
    requires WellFormed(g) && Acyclic(g) && Walk(g, w) && w[0] in g.nodes
    ensures r in g.blockers - g.blocked || (r == w[0] && r !in g.blocked)
    ensures Reaches(g, r, w[|w| - 1])
    decreases |g.nodes.Keys| + 1 - |w|
  {
    r := w[0];
    if r in g.blocked {
      var q :| r in Successors(g, q);
      var v := [q] + w;
      forall i | 0 <= i < |v| - 1 ensures v[i + 1] in Successors(g, v[i]) {
        if i > 0 { assert v[i] == w[i - 1] && v[i + 1] == w[i]; }
      }
      AcyclicWalkFits(g, v);
      r := WalkBack(g, v);
    } else {
      assert WalkBetween(g, r, w[|w| - 1], w);
    }
  }

  lemma AcyclicWalkFits(g: Index, w: seq<int>)
    requires WellFormed(g) && Acyclic(g) && Walk(g, w) && w[0] in g.nodes
    ensures |w| <= |g.nodes.Keys|
  {
    forall i, j | 0 <= i < j < |w| ensures w[i] != w[j] {
      SubWalk(g, w, i, j);
    }
    forall k | 0 <= k < |w| ensures w[k] in g.nodes { WalkStaysInNodes(g, w, k); }
    DistinctFit(w, g.nodes.Keys);
  }

  lemma WalkStaysInNodes(g: Index, w: seq<int>, k: nat)
    requires WellFormed(g) && Walk(g, w) && w[0] in g.nodes && k < |w|
    ensures w[k] in g.nodes
  {
    if k > 0 {
      var i := k - 1;
      assert w[i + 1] in Successors(g, w[i]);
      WaiterIsNode(g, w[i], w[i + 1]);
    }
  }

  lemma SubWalk(g: Index, w: seq<int>, i: int, j: int)
    requires Walk(g, w) && 0 <= i < j < |w|
    ensures WalkBetween(g, w[i], w[j], w[i..j + 1])
  {
    var u := w[i..j + 1];
    forall k | 0 <= k < |u| - 1 ensures u[k + 1] in Successors(g, u[k]) {
      assert u[k] == w[i + k] && u[k + 1] == w[i + k + 1];
    }
  }

  /** Without cycles of waiting, every process named in any row is shown. */
  lemma AcyclicShowsAll(rows: seq<LockInfo>, pid: int)
    requires Acyclic(IndexRows(rows)) && Mentioned(rows, pid)
    ensures Shown(rows, pid)
  {
    var g := IndexRows(rows);
    IndexIsWellFormed(rows);
    MentionedAreNodes(rows, pid);
    var r := WalkBack(g, [pid]);
    assert r in g.blockers - g.blocked;
    ReachedIsShown(rows, r, pid);
  }

  /** Exactly when the forest shows everybody: no blocker is free of waiting, or
      everybody waits (through others, or not at all) for one that is. */
  lemma CoverageExactly(rows: seq<LockInfo>)
    ensures var g := IndexRows(rows);
            (forall pid | Mentioned(rows, pid) :: Shown(rows, pid)) <==>
            (g.blockers <= g.blocked
             || forall pid | Mentioned(rows, pid) :: ReachedFrom(g, g.blockers - g.blocked, pid))
  {
    var g := IndexRows(rows);
    if g.blockers <= g.blocked {
      forall pid | Mentioned(rows, pid) ensures Shown(rows, pid) { AllBlockedShowsAll(rows, pid); }
    } else {
      assert RootSet(g) == g.blockers - g.blocked;
      forall pid ensures Shown(rows, pid) <==> ReachedFrom(g, g.blockers - g.blocked, pid) {
        ShownExactly(rows, pid);
      }
    }
  }

  function Row(blocking: int, blocked: int): LockInfo {
    LockInfo(blocked, "", "", "", blocking, "", "", "", None, "", "", "", "", "")
  }

  /** A deadlocked pair beside an ordinary wait is left out of the forest. */
  lemma SeparateCycleIsHidden()
    ensures var rows := [Row(1, 2), Row(3, 4), Row(4, 3)];
            Mentioned(rows, 3) && !Shown(rows, 3)
  {
    var rows := [Row(1, 2), Row(3, 4), Row(4, 3)];
    var g := IndexRows(rows);
    assert rows[1] in rows && Names(rows[1], 3);
    ThreeRows(Row(1, 2), Row(3, 4), Row(4, 3));
    assert g.blockers - g.blocked == {1};
    if Shown(rows, 3) {
      var r := ShownIsReached(rows, 3);
      var w :| WalkBetween(g, r, 3, w);
      StaysLow(g, w, |w| - 1);
      assert false;
    }
  }

  lemma ThreeRows(a: LockInfo, b: LockInfo, c: LockInfo)
    ensures IndexRows([a, b, c]) == AddRow(AddRow(AddRow(IndexRows([]), a), b), c)
  {
    assert [a, b, c][..2] == [a, b];
    assert [a, b][..1] == [a];
    assert [a][..0] == [];
    AppendRow([a, b, c]);
    AppendRow([a, b]);
    AppendRow([a]);
  }

  lemma {:induction false} StaysLow(g: Index, w: seq<int>, k: nat)
    requires Walk(g, w) && k < |w| && w[0] == 1
    requires Successors(g, 1) == {2} && Successors(g, 2) == {}
    ensures w[k] in {1, 2}
  {
    if k == 0 {
    } else {
      StaysLow(g, w, k - 1);
      assert w[k - 1 + 1] in Successors(g, w[k - 1]);
    }
  }
}
