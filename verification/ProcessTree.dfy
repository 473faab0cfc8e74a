/** The process tree (src/process/info.py): ancestors collected upwards, then a forest built downwards over
    whatever parent links the operating system reported, cycles included. */
module ProcessTree {
  import opened Common

  /** parents: the reported parent of every process that can be queried. */
  type Parents = map<int, int>

  /** The ppid that ends up in the details: 0 when nothing is known. */
  function Ppid(parents: Parents, p: int): int { if p > 0 && p in parents then parents[p] else 0 }

  /** The k-th reported ancestor. */
  function Anc(parents: Parents, x: int, k: nat): int {
    if k == 0 then x else Ppid(parents, Anc(parents, x, k - 1))
  }

  /** The first k ancestors, and the process itself, are among pids. */
  ghost predicate Chain(parents: Parents, pids: set<int>, x: int, k: nat) {
    forall i :: 0 <= i <= k ==> Anc(parents, x, i) in pids
  }

  ghost predicate BelowBy(parents: Parents, pids: set<int>, a: int, x: int, k: nat) {
    Chain(parents, pids, x, k) && Anc(parents, x, k) == a
  }

  ghost predicate Below(parents: Parents, pids: set<int>, a: int, x: int) {
    exists k :: BelowBy(parents, pids, a, x, k)
  }

  /** A natural root: its parent is not among the processes. */
  ghost predicate IsRoot(parents: Parents, pids: set<int>, p: int) {
    p in pids && Ppid(parents, p) !in pids
  }

  /** The parent chain ends. */
  ghost predicate Rooted(parents: Parents, pids: set<int>, x: int) {
    exists r :: IsRoot(parents, pids, r) && Below(parents, pids, r, x)
  }

  lemma HasMember(s: set<int>)
    ensures s != {} ==> exists x :: x in s
  {
    if forall x :: x !in s {
      assert s == {};
    }
  }

  // ----- collecting ancestors -----

  /** Why no parent of p was added: there is none, it is there, nothing is known about it, or p is the
      session's own main process. */
  ghost predicate Settled(parents: Parents, pids: set<int>, root: int, p: int) {
    var q := Ppid(parents, p);
    q <= 0 || q in pids || q !in parents || (root != 0 && p == root)
  }

  ghost predicate DetailsOf(parents: Parents, pids: set<int>, details: map<int, int>) {
    && details.Keys == pids
    && forall p :: p in pids ==> p > 0 && details[p] == Ppid(parents, p)
  }

  /** From x one may climb k parents up: all of them are known, and the main process is not left behind. */
  ghost predicate Permitted(parents: Parents, root: int, x: int, k: nat) {
    && (forall i :: 0 < i <= k ==> Anc(parents, x, i) > 0 && Anc(parents, x, i) in parents)
    && (root == 0 || forall i :: 0 <= i < k ==> Anc(parents, x, i) != root)
  }

  ghost predicate ReachedBy(parents: Parents, root: int, x: int, p: int, k: nat) {
    k > 0 && Permitted(parents, root, x, k) && Anc(parents, x, k) == p
  }

  ghost predicate Reached(parents: Parents, root: int, from: set<int>, p: int) {
    exists x, k :: x in from && ReachedBy(parents, root, x, p, k)
  }

  /** What is to be collected: the given processes, and every ancestor that one of them may climb to. */
  ghost predicate Wanted(parents: Parents, root: int, from: set<int>, p: int) {
    p in from || Reached(parents, root, from, p)
  }

  ghost predicate Collected(parents: Parents, root: int, from: set<int>, pids: set<int>) {
    forall p :: p in pids <==> Wanted(parents, root, from, p)
  }

  /** Whatever was added is an ancestor that one of some processes may climb to. */
  ghost predicate Grown(parents: Parents, root: int, from: set<int>, before: set<int>, after: set<int>) {
    && before <= after
    && forall p :: p in after && p !in before ==> Reached(parents, root, from, p)
  }

  lemma GrownMore(parents: Parents, root: int, before: set<int>, pids: set<int>, p: int, x: int, k: nat)
    requires Grown(parents, root, {x}, before, pids) && ReachedBy(parents, root, x, p, k)
    ensures Grown(parents, root, {x}, before, pids + {p})
  {
    assert Reached(parents, root, {x}, p);
  }

  lemma PermittedMore(parents: Parents, root: int, x: int, k: nat)
    requires Permitted(parents, root, x, k) && (root == 0 || Anc(parents, x, k) != root)
    requires Anc(parents, x, k + 1) > 0 && Anc(parents, x, k + 1) in parents
    ensures Permitted(parents, root, x, k + 1)
  {}

  /** Processes with no parent left to add hold every ancestor that one of them may climb to. */
  lemma {:induction false} SettledReaches(parents: Parents, root: int, pids: set<int>, x: int, k: nat)
    requires x in pids && Permitted(parents, root, x, k)
    requires forall p :: p in pids ==> Settled(parents, pids, root, p)
    ensures Anc(parents, x, k) in pids
  {
    if k > 0 {
      SettledReaches(parents, root, pids, x, k - 1);
      assert Settled(parents, pids, root, Anc(parents, x, k - 1));
      assert Anc(parents, x, k) == Ppid(parents, Anc(parents, x, k - 1));
    }
  }

  lemma CollectedExactly(parents: Parents, root: int, from: set<int>, pids: set<int>)
    requires Grown(parents, root, from, from, pids)
    requires forall p :: p in pids ==> Settled(parents, pids, root, p)
    ensures Collected(parents, root, from, pids)
  {
    forall p | Reached(parents, root, from, p) ensures p in pids {
      var x, k :| x in from && ReachedBy(parents, root, x, p, k);
      SettledReaches(parents, root, pids, x, k);
    }
  }

  lemma SettledMore(parents: Parents, before: set<int>, after: set<int>, root: int, p: int)
    requires before <= after && Settled(parents, before, root, p)
    ensures Settled(parents, after, root, p)
  {}

  /** The climbing loop for one process. */
  method Climb(parents: Parents, root: int, pid: int, pids0: set<int>, details0: map<int, int>)
    returns (pids: set<int>, details: map<int, int>)
    requires DetailsOf(parents, pids0, details0) && pid in pids0
    ensures DetailsOf(parents, pids, details) && Grown(parents, root, {pid}, pids0, pids)
    ensures forall p :: p == pid || p in pids - pids0 ==> Settled(parents, pids, root, p)
  {
    pids, details := pids0, details0;
    var ancestor := details[pid];
    var visited := {pid};
    ghost var top, steps := pid, 0;
    while ancestor > 0 && ancestor !in pids
      invariant DetailsOf(parents, pids, details) && Grown(parents, root, {pid}, pids0, pids)
      invariant visited <= pids && top in pids && Permitted(parents, root, pid, steps)
      invariant ancestor == Ppid(parents, top) && top == Anc(parents, pid, steps)
      invariant top == pid || !(root != 0 && top == root)
      invariant pid == top || !(root != 0 && pid == root)
      invariant forall p :: (p == pid || p in pids - pids0) && p != top ==> Settled(parents, pids, root, p)
      decreases parents.Keys - pids
    {
      if ancestor in visited { break; }
      if root != 0 && pid == root { break; }
      visited := visited + {ancestor};
      if ancestor !in parents { break; }
      ghost var before, below := pids, top;
      details := details[ancestor := parents[ancestor]];
      pids := pids + {ancestor};
      PermittedMore(parents, root, pid, steps);
      top, steps := ancestor, steps + 1;
      GrownMore(parents, root, pids0, before, ancestor, pid, steps);
      forall p | (p == pid || p in pids - pids0) && p != top ensures Settled(parents, pids, root, p) {
        assert p == pid || p in before - pids0;
        if p == below {
          assert Ppid(parents, p) in pids;
        } else {
          SettledMore(parents, before, pids, root, p);
        }
      }
      if root != 0 && ancestor == root { break; }
      ancestor := parents[ancestor];
    }
  }

  /** One climb after another keeps what the first established. */
  lemma GrownTwice(parents: Parents, root: int, a: set<int>, b: set<int>, c: set<int>, pid: int)
    requires Grown(parents, root, a, a, b) && pid in a && Grown(parents, root, {pid}, b, c)
    ensures Grown(parents, root, a, a, c)
  {
    forall p | p in c && p !in a ensures Reached(parents, root, a, p) {
      if p !in b {
        var x, k :| x in {pid} && ReachedBy(parents, root, x, p, k);
        assert x in a;
      }
    }
  }

  /** All ancestors that may be climbed to, and no others. */
  method Collect(parents: Parents, root: int, valid: set<int>) returns (pids: set<int>, details: map<int, int>)
    requires forall p :: p in valid ==> p > 0
    ensures DetailsOf(parents, pids, details) && Collected(parents, root, valid, pids)
  {
    pids := valid;
    details := map p | p in valid :: Ppid(parents, p);
    var todo := valid;
    while todo != {}
      invariant todo <= valid <= pids
      invariant DetailsOf(parents, pids, details) && Grown(parents, root, valid, valid, pids)
      invariant forall p :: p in pids && p !in todo ==> Settled(parents, pids, root, p)
      decreases |todo|
    {
      HasMember(todo);
      var pid :| pid in todo;
      todo := todo - {pid};
      ghost var before := pids;
      pids, details := Climb(parents, root, pid, pids, details);
      GrownTwice(parents, root, valid, before, pids, pid);
      forall p | p in pids && p !in todo ensures Settled(parents, pids, root, p) {
        if p in before && p != pid { SettledMore(parents, before, pids, root, p); }
      }
    }
    CollectedExactly(parents, root, valid, pids);
  }

  // ----- children and roots -----

  /** The links c to p with c among done. */
  ghost predicate Grouped(parents: Parents, pids: set<int>, children: map<int, set<int>>, done: set<int>) {
    forall p, c :: LinkedIn(children, p, c) <==> p in pids && c in done && Ppid(parents, c) == p
  }

  predicate LinkedIn(children: map<int, set<int>>, p: int, c: int) { p in children && c in children[p] }

  lemma LinkMore(children: map<int, set<int>>, ppid: int, pid: int, p: int, c: int)
    ensures LinkedIn(children[ppid := (if ppid in children then children[ppid] else {}) + {pid}], p, c)
            <==> LinkedIn(children, p, c) || (p == ppid && c == pid)
  {
  }

  /** The table of children, as sets; the source sorts each before use. */
  method Group(parents: Parents, pids: set<int>, details: map<int, int>)
    returns (children: map<int, set<int>>, roots: set<int>)
    requires DetailsOf(parents, pids, details)
    ensures Grouped(parents, pids, children, pids)
    ensures forall p :: p in roots <==> IsRoot(parents, pids, p)
  {
    children, roots := map[], {};
    var todo, done := pids, {};
    while todo != {}
      invariant forall x :: x in pids <==> x in todo || x in done
      invariant Grouped(parents, pids, children, done)
      invariant forall p :: p in roots <==> IsRoot(parents, pids, p) && p in done
      decreases |todo|
    {
      HasMember(todo);
      var pid :| pid in todo;
      var ppid, was := details[pid], children;
      if ppid != 0 && ppid in pids {
        children := children[ppid := (if ppid in children then children[ppid] else {}) + {pid}];
        forall p, c ensures LinkedIn(children, p, c) <==> p in pids && c in done + {pid} && Ppid(parents, c) == p {
          LinkMore(was, ppid, pid, p, c);
        }
      } else {
        roots := roots + {pid};
      }
      todo, done := todo - {pid}, done + {pid};
    }
    forall x ensures x in done <==> x in pids {
      assert x !in todo;
    }
    assert done == pids;
  }

  method Smallest(s: set<int>) returns (m: int)
    requires s != {}
    ensures m in s && forall x :: x in s ==> m <= x
  {
    HasMember(s);
    m :| m in s;
    var todo := s - {m};
    while todo != {}
      invariant m in s && todo <= s
      invariant forall x :: x in s && x !in todo ==> m <= x
      decreases |todo|
    {
      HasMember(todo);
      var x :| x in todo;
      todo := todo - {x};
      if x < m { m := x; }
    }
  }

  method Sorted(s: set<int>) returns (r: seq<int>)
    ensures Increasing(r) && forall x :: x in r <==> x in s
  {
    r := [];
    var todo := s;
    while todo != {}
      invariant Increasing(r) && todo <= s
      invariant forall x :: x in r <==> x in s && x !in todo
      invariant forall x, y :: x in r && y in todo ==> x < y
      decreases |todo|
    {
      var m := Smallest(todo);
      forall x | x in r ensures x < m {}
      assert forall i :: 0 <= i < |r| ==> r[i] in r;
      todo := todo - {m};
      r := r + [m];
    }
  }

  ghost predicate Increasing(s: seq<int>) { forall i, j :: 0 <= i < j < |s| ==> s[i] < s[j] }

  // ----- nodes -----

  datatype Node = Node(pid: int, ppid: int, children: seq<Node>)

  ghost predicate IsChild(parents: Parents, pids: set<int>, c: int, p: int) {
    c in pids && Ppid(parents, c) == p
  }

  ghost predicate HasPid(nodes: seq<Node>, p: int) { exists i :: 0 <= i < |nodes| && nodes[i].pid == p }

  /** What _build_node returns for a process, given the processes above it: its children in increasing
      order, without those that are already on the path. */
  ghost predicate Built(parents: Parents, pids: set<int>, node: Node, pid: int, seen: set<int>)
    decreases node
  {
    && node.pid == pid && node.ppid == Ppid(parents, pid)
    && (forall i, j :: 0 <= i < j < |node.children| ==> node.children[i].pid < node.children[j].pid)
    && (forall c :: HasPid(node.children, c) <==> IsChild(parents, pids, c, pid) && c !in seen)
    && (forall i :: 0 <= i < |node.children| ==>
          Built(parents, pids, node.children[i], node.children[i].pid, seen + {pid}))
  }

  method BuildNode(parents: Parents, pids: set<int>, details: map<int, int>, children: map<int, set<int>>,
                   pid: int, seen: set<int>)
    returns (node: Node)
    requires DetailsOf(parents, pids, details) && pid in pids
    requires Grouped(parents, pids, children, pids)
    ensures Built(parents, pids, node, pid, seen)
    decreases pids - seen, if pid in seen then 1 else 0
  {
    var sorted := Sorted(if pid in children then children[pid] else {});
    assert forall c :: c in sorted <==> LinkedIn(children, pid, c);
    var nodes: seq<Node> := [];
    for j := 0 to |sorted|
      invariant forall i :: 0 <= i < |nodes| ==>
                  nodes[i].pid in sorted[..j] && Built(parents, pids, nodes[i], nodes[i].pid, seen + {pid})
      invariant forall i, i' :: 0 <= i < i' < |nodes| ==> nodes[i].pid < nodes[i'].pid
      invariant forall c :: HasPid(nodes, c) <==> c in sorted[..j] && c !in seen
    {
      var c := sorted[j];
      ghost var was := nodes;
      assert sorted[..j + 1] == sorted[..j] + [c];
      if c in seen { continue; }
      assert c in sorted;
      var child := BuildNode(parents, pids, details, children, c, seen + {pid});
      nodes := nodes + [child];
      HasPidMore(was, child);
    }
    assert sorted[..|sorted|] == sorted;
    node := Node(pid, details[pid], nodes);
  }

  lemma HasPidMore(nodes: seq<Node>, more: Node)
    ensures forall p :: HasPid(nodes + [more], p) <==> HasPid(nodes, p) || p == more.pid
  {
    forall p ensures HasPid(nodes + [more], p) <==> HasPid(nodes, p) || p == more.pid {
      if i :| 0 <= i < |nodes| && nodes[i].pid == p { assert (nodes + [more])[i].pid == p; }
      assert (nodes + [more])[|nodes|] == more;
    }
  }

  // ----- what a tree covers -----

  /** The processes of a tree, parents before children. */
  function Pids(node: Node): seq<int>
    decreases node
  {
    [node.pid] + PidsAll(node.children)
  }

  function PidsAll(nodes: seq<Node>): seq<int>
    decreases nodes
  {
    if nodes == [] then [] else Pids(nodes[0]) + PidsAll(nodes[1..])
  }

  ghost predicate InSome(nodes: seq<Node>, x: int) { exists i :: 0 <= i < |nodes| && x in Pids(nodes[i]) }

  lemma {:induction false} PidsAllMember(nodes: seq<Node>, x: int)
    ensures x in PidsAll(nodes) <==> InSome(nodes, x)
  {
    if nodes != [] {
      PidsAllMember(nodes[1..], x);
      if InSome(nodes[1..], x) {
        var i :| 0 <= i < |nodes[1..]| && x in Pids(nodes[1..][i]);
        assert nodes[i + 1] == nodes[1..][i];
      }
      if InSome(nodes, x) {
        var i :| 0 <= i < |nodes| && x in Pids(nodes[i]);
        assert i > 0 ==> nodes[1..][i - 1] == nodes[i];
      }
    }
  }

  /** The chain of x upwards first meets a process above or at pid when it arrives at pid, after k steps. */
  ghost predicate Path(parents: Parents, pids: set<int>, seen: set<int>, pid: int, x: int, k: nat) {
    BelowBy(parents, pids, pid, x, k) && forall i :: 0 <= i < k ==> Anc(parents, x, i) !in seen + {pid}
  }

  ghost predicate SomePath(parents: Parents, pids: set<int>, seen: set<int>, pid: int, x: int) {
    exists k :: Path(parents, pids, seen, pid, x, k)
  }

  lemma StepUp(parents: Parents, pids: set<int>, x: int, k: nat)
    requires Chain(parents, pids, x, k) && Ppid(parents, Anc(parents, x, k)) in pids
    ensures Chain(parents, pids, x, k + 1) && Anc(parents, x, k + 1) == Ppid(parents, Anc(parents, x, k))
  {
  }

  lemma {:induction false} TreeBelow(parents: Parents, pids: set<int>, node: Node, pid: int, seen: set<int>, x: int)
    requires Built(parents, pids, node, pid, seen) && pid in pids && x in Pids(node)
    ensures Below(parents, pids, pid, x)
    decreases node
  {
    if x == pid {
      assert BelowBy(parents, pids, pid, x, 0);
    } else {
      PidsAllMember(node.children, x);
      var i :| 0 <= i < |node.children| && x in Pids(node.children[i]);
      var c := node.children[i].pid;
      assert HasPid(node.children, c);
      TreeBelow(parents, pids, node.children[i], c, seen + {pid}, x);
      var k: nat :| BelowBy(parents, pids, c, x, k);
      StepUp(parents, pids, x, k);
      assert BelowBy(parents, pids, pid, x, k + 1);
    }
  }

  lemma {:induction false} TreePath(parents: Parents, pids: set<int>, node: Node, pid: int, seen: set<int>, x: int)
    requires Built(parents, pids, node, pid, seen) && pid in pids && Ppid(parents, pid) != pid && x in Pids(node)
    ensures SomePath(parents, pids, seen, pid, x)
    decreases node
  {
    if x == pid {
      assert Path(parents, pids, seen, pid, x, 0);
    } else {
      PidsAllMember(node.children, x);
      var i :| 0 <= i < |node.children| && x in Pids(node.children[i]);
      var c := node.children[i].pid;
      assert HasPid(node.children, c);
      TreePath(parents, pids, node.children[i], c, seen + {pid}, x);
      var k: nat :| Path(parents, pids, seen + {pid}, c, x, k);
      PathUp(parents, pids, seen, pid, c, x, k);
    }
  }

  lemma PathUp(parents: Parents, pids: set<int>, seen: set<int>, pid: int, c: int, x: int, k: nat)
    requires Path(parents, pids, seen + {pid}, c, x, k) && Ppid(parents, c) == pid && pid in pids
    requires c !in seen && c != pid
    ensures SomePath(parents, pids, seen, pid, x)
  {
    StepUp(parents, pids, x, k);
    assert Path(parents, pids, seen, pid, x, k + 1);
  }

  lemma {:induction false} PathTree(parents: Parents, pids: set<int>, node: Node, pid: int, seen: set<int>,
                                    x: int, k: nat)
    requires Built(parents, pids, node, pid, seen) && Path(parents, pids, seen, pid, x, k)
    ensures x in Pids(node)
    decreases k
  {
    if k > 0 {
      var c := Anc(parents, x, k - 1);
      assert HasPid(node.children, c);
      var i :| 0 <= i < |node.children| && node.children[i].pid == c;
      forall j | 0 <= j < k - 1 ensures Anc(parents, x, j) != c {
        assert Anc(parents, x, j + 1) != pid;
      }
      PathTree(parents, pids, node.children[i], c, seen + {pid}, x, k - 1);
      assert InSome(node.children, x);
      PidsAllMember(node.children, x);
    }
  }

  /** A chain that arrives at pid arrives there for a first time. */
  lemma {:induction false} FirstArrival(parents: Parents, pids: set<int>, pid: int, x: int, k: nat)
    requires BelowBy(parents, pids, pid, x, k)
    ensures SomePath(parents, pids, {}, pid, x)
    decreases k
  {
    if i :| 0 <= i < k && Anc(parents, x, i) == pid {
      FirstArrival(parents, pids, pid, x, i);
    } else {
      assert Path(parents, pids, {}, pid, x, k);
    }
  }

  /** A tree built from its top covers exactly the processes below that top, whatever cycles there are. */
  lemma TreeCovers(parents: Parents, pids: set<int>, node: Node, pid: int, x: int)
    requires Built(parents, pids, node, pid, {}) && pid in pids
    ensures x in Pids(node) <==> Below(parents, pids, pid, x)
  {
    if x in Pids(node) { TreeBelow(parents, pids, node, pid, {}, x); }
    if Below(parents, pids, pid, x) {
      var k: nat :| BelowBy(parents, pids, pid, x, k);
      FirstArrival(parents, pids, pid, x, k);
      var k': nat :| Path(parents, pids, {}, pid, x, k');
      PathTree(parents, pids, node, pid, {}, x, k');
    }
  }

  // ----- no process twice -----

  /** Two children of the same process have no process below both. */
  lemma SiblingsApart(parents: Parents, pids: set<int>, seen: set<int>, pid: int, c: int, d: int, x: int)
    requires Ppid(parents, c) == pid == Ppid(parents, d) && Ppid(parents, pid) != pid
    requires SomePath(parents, pids, seen + {pid}, c, x) && SomePath(parents, pids, seen + {pid}, d, x)
    ensures c == d
  {
    var k: nat :| Path(parents, pids, seen + {pid}, c, x, k);
    var l: nat :| Path(parents, pids, seen + {pid}, d, x, l);
    assert Anc(parents, x, k + 1) == pid && Anc(parents, x, l + 1) == pid;
  }

  /** Two natural roots have no process below both. */
  lemma RootsApart(parents: Parents, pids: set<int>, c: int, d: int, x: int)
    requires IsRoot(parents, pids, c) && IsRoot(parents, pids, d)
    requires Below(parents, pids, c, x) && Below(parents, pids, d, x)
    ensures c == d
  {
    var k: nat :| BelowBy(parents, pids, c, x, k);
    var l: nat :| BelowBy(parents, pids, d, x, l);
    assert Anc(parents, x, k + 1) !in pids && Anc(parents, x, l + 1) !in pids;
  }

  ghost predicate Apart(nodes: seq<Node>) {
    forall i, j, x :: 0 <= i < j < |nodes| && x in Pids(nodes[i]) ==> x !in Pids(nodes[j])
  }

  ghost predicate EachDistinct(nodes: seq<Node>) { forall i :: 0 <= i < |nodes| ==> NoRepeats(Pids(nodes[i])) }

  lemma {:induction false} ListDistinct(nodes: seq<Node>)
    requires Apart(nodes) && EachDistinct(nodes)
    ensures NoRepeats(PidsAll(nodes))
  {
    if nodes != [] {
      var rest := nodes[1..];
      assert forall i :: 0 <= i < |rest| ==> rest[i] == nodes[i + 1];
      ListDistinct(rest);
      forall x | x in Pids(nodes[0]) ensures x !in PidsAll(rest) {
        PidsAllMember(rest, x);
      }
      NoRepeatsConcat(Pids(nodes[0]), PidsAll(rest));
    }
  }

  lemma ChildrenApart(parents: Parents, pids: set<int>, node: Node, pid: int, seen: set<int>)
    requires Built(parents, pids, node, pid, seen) && pid in pids && Ppid(parents, pid) != pid
    ensures Apart(node.children) && !InSome(node.children, pid)
  {
    var cs := node.children;
    forall i, x | 0 <= i < |cs| && x in Pids(cs[i])
      ensures SomePath(parents, pids, seen + {pid}, cs[i].pid, x) && IsChild(parents, pids, cs[i].pid, pid)
    {
      assert HasPid(cs, cs[i].pid);
      TreePath(parents, pids, cs[i], cs[i].pid, seen + {pid}, x);
    }
    forall i, j, x | 0 <= i < j < |cs| && x in Pids(cs[i]) ensures x !in Pids(cs[j]) {
      if x in Pids(cs[j]) { SiblingsApart(parents, pids, seen, pid, cs[i].pid, cs[j].pid, x); }
    }
    forall i | 0 <= i < |cs| ensures pid !in Pids(cs[i]) {
      if pid in Pids(cs[i]) {
        var k: nat :| Path(parents, pids, seen + {pid}, cs[i].pid, pid, k);
        assert Anc(parents, pid, 0) == pid;
      }
    }
  }

  lemma {:induction false} NodeDistinct(parents: Parents, pids: set<int>, node: Node, pid: int, seen: set<int>)
    requires Built(parents, pids, node, pid, seen) && pid in pids && Ppid(parents, pid) != pid
    ensures NoRepeats(Pids(node))
    decreases node
  {
    var cs := node.children;
    ChildrenApart(parents, pids, node, pid, seen);
    forall i | 0 <= i < |cs| ensures NoRepeats(Pids(cs[i])) {
      assert HasPid(cs, cs[i].pid);
      NodeDistinct(parents, pids, cs[i], cs[i].pid, seen + {pid});
    }
    ListDistinct(cs);
    PidsAllMember(cs, pid);
    NoRepeatsConcat([pid], PidsAll(cs));
  }

  /** A top that is reported as its own parent appears in its own tree a second time. */
  lemma SelfParentTwice(parents: Parents, pids: set<int>, node: Node, pid: int)
    requires Built(parents, pids, node, pid, {}) && pid in pids && Ppid(parents, pid) == pid
    ensures !NoRepeats(Pids(node))
  {
    assert HasPid(node.children, pid);
    var i :| 0 <= i < |node.children| && node.children[i].pid == pid;
    assert pid in Pids(node.children[i]);
    PidsAllMember(node.children, pid);
    RepeatedFirst(pid, PidsAll(node.children));
  }

  lemma RepeatedFirst(x: int, s: seq<int>)
    requires x in s
    ensures !NoRepeats([x] + s)
  {
    var j :| 0 <= j < |s| && s[j] == x;
    assert ([x] + s)[0] == ([x] + s)[j + 1];
  }

  // ----- the whole forest -----

  ghost predicate DistinctTops(nodes: seq<Node>) {
    forall i, j :: 0 <= i < j < |nodes| ==> nodes[i].pid != nodes[j].pid
  }

  /** The returned list: one tree for every natural root, in some order; without any natural root, the tree
      of the smallest pid. */
  ghost predicate Forest(parents: Parents, pids: set<int>, tree: seq<Node>) {
    && DistinctTops(tree)
    && (forall i :: 0 <= i < |tree| ==> Built(parents, pids, tree[i], tree[i].pid, {}))
    && (forall p :: HasPid(tree, p) <==>
          if HasRoot(parents, pids) then IsRoot(parents, pids, p) else IsSmallest(pids, p))
  }

  ghost predicate HasRoot(parents: Parents, pids: set<int>) { exists r :: IsRoot(parents, pids, r) }

  ghost predicate IsSmallest(pids: set<int>, p: int) { p in pids && forall x :: x in pids ==> p <= x }

  lemma ForestMember(parents: Parents, pids: set<int>, tree: seq<Node>, x: int)
    requires Forest(parents, pids, tree)
    ensures x in PidsAll(tree) <==> exists p :: HasPid(tree, p) && Below(parents, pids, p, x)
  {
    PidsAllMember(tree, x);
    forall i | 0 <= i < |tree| ensures x in Pids(tree[i]) <==> Below(parents, pids, tree[i].pid, x) {
      assert HasPid(tree, tree[i].pid);
      TreeCovers(parents, pids, tree[i], tree[i].pid, x);
    }
    if p :| HasPid(tree, p) && Below(parents, pids, p, x) {
      var i :| 0 <= i < |tree| && tree[i].pid == p;
      assert x in Pids(tree[i]);
    }
    if i :| 0 <= i < |tree| && x in Pids(tree[i]) {
      assert HasPid(tree, tree[i].pid);
    }
  }

  /** With natural roots: every process whose parent chain ends is in the forest exactly once, and no other. */
  lemma ForestCovers(parents: Parents, pids: set<int>, tree: seq<Node>)
    requires Forest(parents, pids, tree) && HasRoot(parents, pids)
    ensures NoRepeats(PidsAll(tree)) && forall x :: x in PidsAll(tree) <==> Rooted(parents, pids, x)
  {
    forall x ensures x in PidsAll(tree) <==> Rooted(parents, pids, x) {
      ForestMember(parents, pids, tree, x);
      if Rooted(parents, pids, x) {
        var r :| IsRoot(parents, pids, r) && Below(parents, pids, r, x);
        assert HasPid(tree, r);
      }
    }
    forall i | 0 <= i < |tree| ensures IsRoot(parents, pids, tree[i].pid) && NoRepeats(Pids(tree[i])) {
      assert HasPid(tree, tree[i].pid);
      NodeDistinct(parents, pids, tree[i], tree[i].pid, {});
    }
    forall i, j, x | 0 <= i < j < |tree| && x in Pids(tree[i]) ensures x !in Pids(tree[j]) {
      TreeCovers(parents, pids, tree[i], tree[i].pid, x);
      if x in Pids(tree[j]) {
        TreeCovers(parents, pids, tree[j], tree[j].pid, x);
        RootsApart(parents, pids, tree[i].pid, tree[j].pid, x);
      }
    }
    ListDistinct(tree);
  }

  lemma AtMostOne(nodes: seq<Node>, m: int)
    requires DistinctTops(nodes)
    ensures (forall j :: 0 <= j < |nodes| ==> nodes[j].pid == m) ==> |nodes| <= 1
  {
    if |nodes| > 1 { assert nodes[0].pid != nodes[1].pid; }
  }

  /** Without a natural root: the descendants of the smallest pid, each once unless that pid is its own parent. */
  lemma FallbackCovers(parents: Parents, pids: set<int>, tree: seq<Node>, m: int)
    requires Forest(parents, pids, tree) && !HasRoot(parents, pids) && IsSmallest(pids, m)
    ensures forall x :: x in PidsAll(tree) <==> Below(parents, pids, m, x)
    ensures NoRepeats(PidsAll(tree)) <==> Ppid(parents, m) != m
  {
    assert HasPid(tree, m);
    forall j | 0 <= j < |tree| ensures tree[j].pid == m {
      assert HasPid(tree, tree[j].pid);
    }
    AtMostOne(tree, m);
    assert tree[1..] == [] && PidsAll(tree) == Pids(tree[0]);
    forall x ensures x in PidsAll(tree) <==> Below(parents, pids, m, x) {
      TreeCovers(parents, pids, tree[0], m, x);
    }
    if Ppid(parents, m) == m {
      SelfParentTwice(parents, pids, tree[0], m);
    } else {
      NodeDistinct(parents, pids, tree[0], m, {});
    }
  }

  // ----- cycles -----

  /** Some process is among its own ancestors. */
  ghost predicate OnCycle(parents: Parents, pids: set<int>, x: int, k: nat) {
    k > 0 && BelowBy(parents, pids, x, x, k)
  }

  ghost predicate Acyclic(parents: Parents, pids: set<int>) {
    forall x, k: nat :: !OnCycle(parents, pids, x, k)
  }

  lemma {:induction false} AncSum(parents: Parents, x: int, a: nat, b: nat)
    ensures Anc(parents, Anc(parents, x, a), b) == Anc(parents, x, a + b)
    decreases b
  {
    if b > 0 { AncSum(parents, x, a, b - 1); }
  }

  /** A chain that never ends stays among the processes. */
  lemma {:induction false} UnrootedChain(parents: Parents, pids: set<int>, x: int, k: nat)
    requires x in pids && !Rooted(parents, pids, x)
    ensures Chain(parents, pids, x, k)
    decreases k
  {
    if k > 0 {
      UnrootedChain(parents, pids, x, k - 1);
      var a := Anc(parents, x, k - 1);
      assert BelowBy(parents, pids, a, x, k - 1);
      assert !IsRoot(parents, pids, a);
    }
  }

  function Ancestors(parents: Parents, x: int, n: nat): set<int> {
    if n == 0 then {x} else Ancestors(parents, x, n - 1) + {Anc(parents, x, n)}
  }

  lemma {:induction false} AncestorsFrom(parents: Parents, x: int, n: nat, a: int) returns (i: nat)
    requires a in Ancestors(parents, x, n)
    ensures i <= n && Anc(parents, x, i) == a
  {
    if n == 0 || a == Anc(parents, x, n) {
      i := n;
    } else {
      i := AncestorsFrom(parents, x, n - 1, a);
    }
  }

  lemma {:induction false} AncestorsCount(parents: Parents, pids: set<int>, x: int, n: nat)
    requires Chain(parents, pids, x, n) && Acyclic(parents, pids)
    ensures Ancestors(parents, x, n) <= pids && |Ancestors(parents, x, n)| == n + 1
  {
    if n > 0 {
      AncestorsCount(parents, pids, x, n - 1);
      var a := Anc(parents, x, n);
      if a in Ancestors(parents, x, n - 1) {
        var i := AncestorsFrom(parents, x, n - 1, a);
        NoReturn(parents, pids, x, i, n);
      }
    }
  }

  lemma NoReturn(parents: Parents, pids: set<int>, x: int, i: nat, n: nat)
    requires i < n && Chain(parents, pids, x, n) && Acyclic(parents, pids)
    ensures Anc(parents, x, i) != Anc(parents, x, n)
  {
    var y := Anc(parents, x, i);
    forall j: int | 0 <= j <= n - i ensures Anc(parents, y, j) in pids {
      AncSum(parents, x, i, j);
    }
    AncSum(parents, x, i, n - i);
    assert !OnCycle(parents, pids, y, n - i);
  }

  lemma SubsetSize(a: set<int>, b: set<int>)
    requires a <= b
    ensures |a| <= |b|
  {
    assert a + (b - a) == b && |a + (b - a)| == |a| + |b - a|;
  }

  /** Every chain ends exactly when nothing is its own ancestor. */
  lemma RootedWhenAcyclic(parents: Parents, pids: set<int>)
    ensures (forall x :: x in pids ==> Rooted(parents, pids, x)) <==> Acyclic(parents, pids)
  {
    if Acyclic(parents, pids) {
      forall x | x in pids ensures Rooted(parents, pids, x) {
        if !Rooted(parents, pids, x) {
          UnrootedChain(parents, pids, x, |pids|);
          AncestorsCount(parents, pids, x, |pids|);
          SubsetSize(Ancestors(parents, x, |pids|), pids);
        }
      }
    }
    forall x, k: nat | OnCycle(parents, pids, x, k) ensures x in pids && !Rooted(parents, pids, x) {
      assert Anc(parents, x, 0) == x;
      CycleUnrooted(parents, pids, x, k);
    }
  }

  lemma {:induction false} Around(parents: Parents, pids: set<int>, x: int, k: nat, i: nat)
    requires OnCycle(parents, pids, x, k)
    ensures Anc(parents, x, i) in pids
    decreases i
  {
    if i > k {
      Around(parents, pids, x, k, i - k);
      AncSum(parents, x, k, i - k);
    }
  }

  lemma CycleUnrooted(parents: Parents, pids: set<int>, x: int, k: nat)
    requires OnCycle(parents, pids, x, k)
    ensures !Rooted(parents, pids, x)
  {
    forall r, i: nat | BelowBy(parents, pids, r, x, i) ensures !IsRoot(parents, pids, r) {
      Around(parents, pids, x, k, i + 1);
    }
  }

  function Positive(given: seq<int>): set<int> { set p | p in given && p > 0 }

  /** What the forest covers. With a natural root: exactly the processes whose parent chain ends, each once. */
  ghost predicate Covered(parents: Parents, pids: set<int>, tree: seq<Node>) {
    if HasRoot(parents, pids) then
      NoRepeats(PidsAll(tree)) && forall x :: x in PidsAll(tree) <==> Rooted(parents, pids, x)
    else forall m :: IsSmallest(pids, m) ==> CoveredBelow(parents, pids, tree, m)
  }

  /** Without a natural root: exactly those below the smallest pid, each once unless that is its own parent. */
  ghost predicate CoveredBelow(parents: Parents, pids: set<int>, tree: seq<Node>, m: int) {
    && (NoRepeats(PidsAll(tree)) <==> Ppid(parents, m) != m)
    && forall x :: x in PidsAll(tree) <==> Below(parents, pids, m, x)
  }

  /** The forest has every process exactly once, and nothing else. */
  ghost predicate OnceEach(tree: seq<Node>, pids: set<int>) {
    NoRepeats(PidsAll(tree)) && forall x :: x in PidsAll(tree) <==> x in pids
  }

  /** When that is so: with a natural root, if nothing is its own ancestor; without one, if everything is below
      the smallest pid and that is not its own parent. */
  ghost predicate CoverExpected(parents: Parents, pids: set<int>) {
    if HasRoot(parents, pids) then Acyclic(parents, pids)
    else forall m :: IsSmallest(pids, m) ==>
           Ppid(parents, m) != m && forall x :: x in pids ==> Below(parents, pids, m, x)
  }

  /** Main result: whatever parent links were reported, cycles included, the call ends; what it collected is
      exactly the given processes and the ancestors that one of them may climb to without leaving the main
      process behind. With a natural root the forest covers exactly the processes whose parent chain ends, each
      once; without one, exactly those below the smallest pid, each once unless that pid is its own parent. */
  method GetProcessTree(given: seq<int>, root: int, parents: Parents) returns (tree: seq<Node>, details: map<int, int>)
    ensures var pids := details.Keys;
            && DetailsOf(parents, pids, details)
            && Collected(parents, root, Positive(given), pids)
            && Forest(parents, pids, tree)
    ensures Covered(parents, details.Keys, tree)
    ensures OnceEach(tree, details.Keys) <==> CoverExpected(parents, details.Keys)
    ensures Acyclic(parents, details.Keys) ==> OnceEach(tree, details.Keys)
  {
    var valid := Positive(given);
    if valid == {} {
      tree, details := [], map[];
      NothingToShow(parents, root);
      return;
    }
    var pids;
    pids, details := Collect(parents, root, valid);
    var children, roots := Group(parents, pids, details);
    HasMember(valid);
    roots := Tops(parents, pids, roots);
    tree := BuildAll(parents, pids, details, children, roots);
    ForestExact(parents, pids, tree);
  }

  /** The natural roots, or the smallest pid when there are none. */
  method Tops(parents: Parents, pids: set<int>, roots: set<int>) returns (tops: set<int>)
    requires pids != {} && forall p :: p in roots <==> IsRoot(parents, pids, p)
    ensures forall p :: p in tops <==> if HasRoot(parents, pids) then IsRoot(parents, pids, p) else IsSmallest(pids, p)
    ensures forall p :: p in tops ==> p in pids
  {
    HasMember(roots);
    if roots != {} { return roots; }
    forall r ensures !IsRoot(parents, pids, r) {
      assert r !in roots;
    }
    var m := Smallest(pids);
    return {m};
  }

  lemma NothingToShow(parents: Parents, root: int)
    ensures Collected(parents, root, {}, {}) && Forest(parents, {}, []) && Covered(parents, {}, [])
    ensures OnceEach([], {}) && CoverExpected(parents, {})
  {
    ForestExact(parents, {}, []);
  }

  method BuildAll(parents: Parents, pids: set<int>, details: map<int, int>, children: map<int, set<int>>,
                  roots: set<int>)
    returns (tree: seq<Node>)
    requires DetailsOf(parents, pids, details) && forall p :: p in roots ==> p in pids
    requires Grouped(parents, pids, children, pids)
    ensures DistinctTops(tree)
    ensures forall i :: 0 <= i < |tree| ==> Built(parents, pids, tree[i], tree[i].pid, {})
    ensures forall p :: HasPid(tree, p) <==> p in roots
  {
    tree := [];
    var todo := roots;
    while todo != {}
      invariant todo <= roots
      invariant DistinctTops(tree)
      invariant forall i :: 0 <= i < |tree| ==> Built(parents, pids, tree[i], tree[i].pid, {})
      invariant forall p :: HasPid(tree, p) <==> p in roots && p !in todo
      decreases |todo|
    {
      HasMember(todo);
      var pid :| pid in todo;
      var node := BuildNode(parents, pids, details, children, pid, {});
      HasPidMore(tree, node);
      forall i | 0 <= i < |tree| ensures tree[i].pid != pid {
        assert HasPid(tree, tree[i].pid);
      }
      tree := tree + [node];
      todo := todo - {pid};
    }
  }

  /** Exactly when the forest has every process once. */
  lemma ForestExact(parents: Parents, pids: set<int>, tree: seq<Node>)
    requires Forest(parents, pids, tree)
    ensures Covered(parents, pids, tree)
    ensures OnceEach(tree, pids) <==> CoverExpected(parents, pids)
    ensures Acyclic(parents, pids) ==> OnceEach(tree, pids)
  {
    if HasRoot(parents, pids) {
      RootedExact(parents, pids, tree);
    } else {
      RootlessExact(parents, pids, tree);
    }
  }

  lemma RootedExact(parents: Parents, pids: set<int>, tree: seq<Node>)
    requires Forest(parents, pids, tree) && HasRoot(parents, pids)
    ensures Covered(parents, pids, tree)
    ensures OnceEach(tree, pids) <==> Acyclic(parents, pids)
  {
    ForestCovers(parents, pids, tree);
    RootedWhenAcyclic(parents, pids);
    RootedIn(parents, pids);
    if OnceEach(tree, pids) {
      forall x | x in pids ensures Rooted(parents, pids, x) { assert x in PidsAll(tree); }
    }
    if Acyclic(parents, pids) {
      forall x ensures x in PidsAll(tree) <==> x in pids { assert x in pids ==> Rooted(parents, pids, x); }
    }
  }

  lemma RootlessExact(parents: Parents, pids: set<int>, tree: seq<Node>)
    requires Forest(parents, pids, tree) && !HasRoot(parents, pids)
    ensures Covered(parents, pids, tree)
    ensures OnceEach(tree, pids) <==> CoverExpected(parents, pids)
    ensures Acyclic(parents, pids) ==> OnceEach(tree, pids)
  {
    forall m | IsSmallest(pids, m) ensures CoveredBelow(parents, pids, tree, m) {
      FallbackCovers(parents, pids, tree, m);
    }
    if pids == {} {
      TopOf(tree);
    } else {
      var m := SmallestOf(pids);
      RootlessAt(parents, pids, tree, m);
      RootedWhenAcyclic(parents, pids);
      assert Acyclic(parents, pids) ==> Rooted(parents, pids, m);
    }
  }

  lemma RootlessAt(parents: Parents, pids: set<int>, tree: seq<Node>, m: int)
    requires IsSmallest(pids, m) && CoveredBelow(parents, pids, tree, m) && !HasRoot(parents, pids)
    ensures OnceEach(tree, pids) <==> CoverExpected(parents, pids)
  {
    BelowIn(parents, pids);
    assert forall o :: IsSmallest(pids, o) ==> o == m;
    if OnceEach(tree, pids) {
      forall x | x in pids ensures Below(parents, pids, m, x) { assert x in PidsAll(tree); }
    }
  }

  lemma BelowIn(parents: Parents, pids: set<int>)
    ensures forall m, x :: Below(parents, pids, m, x) ==> x in pids
  {
    forall m, x | Below(parents, pids, m, x) ensures x in pids {
      var k: nat :| BelowBy(parents, pids, m, x, k);
      assert Anc(parents, x, 0) == x;
    }
  }

  lemma {:induction false} SmallestOf(pids: set<int>) returns (m: int)
    requires pids != {}
    ensures IsSmallest(pids, m)
    decreases |pids|
  {
    HasMember(pids);
    m :| m in pids;
    var rest := pids - {m};
    if rest != {} {
      var n := SmallestOf(rest);
      m := Min(m, n);
    }
    forall y | y in pids ensures m <= y {
      assert y in rest || rest == {} || y !in rest;
    }
  }

  lemma TopOf(nodes: seq<Node>)
    ensures nodes == [] || HasPid(nodes, nodes[0].pid)
  {
  }

  lemma RootedIn(parents: Parents, pids: set<int>)
    ensures forall x :: Rooted(parents, pids, x) ==> x in pids
  {
    forall x | Rooted(parents, pids, x) ensures x in pids {
      var r :| IsRoot(parents, pids, r) && Below(parents, pids, r, x);
      var k: nat :| BelowBy(parents, pids, r, x, k);
      assert Anc(parents, x, 0) == x;
    }
  }
}
