/**
  create_skeleton: the breadth-first walk over the bone tree that lays out
  the joints of the skeleton prim (names, paths, rest and bind transforms)
  and its helper-vertex map.
 */
module SkeletonWalk {
  import opened Wrappers
  import opened Geometry
  import opened Skeleton

  /** The position of the last bone without a parent (the code takes the last root). */
  function LastRoot(rig: seq<Bone>): (r: Option<nat>)
    ensures r.Some? ==> r.value < |rig| && rig[r.value].parent.None?
                        && forall j :: r.value < j < |rig| ==> rig[j].parent.Some?
    ensures r.None? ==> forall j :: 0 <= j < |rig| ==> rig[j].parent.Some?
  {
    if |rig| == 0 then None
    else if rig[|rig| - 1].parent.None? then Some(|rig| - 1)
    else LastRoot(rig[..|rig| - 1])
  }

  /** The joints of a skeleton prim, in joint order, and its helper-geometry custom data. */
  datatype SkeletonData = SkeletonData(
    jointNames: seq<string>, jointPaths: seq<string>,
    restTransforms: seq<Matrix4>, bindTransforms: seq<Matrix4>,
    helperVertices: map<string, seq<nat>>)

  /** The walk's state: the joint arrays so far, the FIFO queues of bones and of their paths, and the visited names. */
  datatype Walk = Walk(d: SkeletonData, queue: seq<Bone>, pathQueue: seq<string>, visited: seq<string>)

  /** A record of the walk: per joint, its bone, the joint of its parent, and its position among the parent's children. */
  datatype Trace = Trace(nodes: seq<Bone>, parents: seq<nat>, positions: seq<nat>)

  predicate HeadOk(b: Bone, n: nat)
  {
    |b.headVertices| > 0 && InRange(b.headVertices, n)
  }

  /** Every bone of the tree has a non-empty head group of valid mesh indices. */
  predicate HeadsValid(b: Bone, n: nat)
    decreases b
  {
    HeadOk(b, n) && forall k :: 0 <= k < |b.children| ==> HeadsValid(b.children[k], n)
  }

  ghost function NamesIn(bs: seq<Bone>): set<string>
    decreases bs
  {
    if |bs| == 0 then {} else {bs[0].name} + NamesIn(bs[0].children) + NamesIn(bs[1..])
  }

  function Elems(s: seq<string>): (r: set<string>)
    ensures forall x :: x in r <==> x in s
  {
    set x | x in s
  }

  /** compute_transforms for child c of bone v: from c's head group, relative to v's. */
  function ChildXf(mesh: seq<Vec3>, c: Bone, v: Bone): (Matrix4, Matrix4)
    requires HeadOk(c, |mesh|) && HeadOk(v, |mesh|)
  {
    ComputeTransforms(Gather(mesh, c.headVertices), Some(Gather(mesh, v.headVertices)))
  }

  /** The joint arrays all have one entry per visited bone, and there is at least the root. */
  ghost predicate Shaped(d: SkeletonData, t: Trace)
  {
    && |d.jointNames| == |d.jointPaths| == |d.restTransforms| == |d.bindTransforms| == |t.nodes|
    && |t.parents| == |t.positions| == |t.nodes| >= 1
  }

  /** Joint 0 is the root; its bind transform is the centroid of the WHOLE mesh, its rest transform relative to its head. */
  ghost predicate RootJoint(d: SkeletonData, t: Trace, mesh: seq<Vec3>, root: Bone)
    requires Shaped(d, t)
  {
    && |mesh| > 0
    && t.nodes[0] == root && d.jointNames[0] == root.name && d.jointPaths[0] == root.name
    && HeadOk(root, |mesh|)
    && (d.restTransforms[0], d.bindTransforms[0]) == ComputeTransforms(mesh, Some(Gather(mesh, root.headVertices)))
  }

  /**
    Joint i > 0 is child number positions[i] of joint parents[i], which came
    earlier; its path extends the parent's by one identifier; its transforms
    come from its head group and its parent's.
   */
  ghost predicate ChildJoint(d: SkeletonData, t: Trace, mesh: seq<Vec3>, ident: string -> string, i: nat)
    requires Shaped(d, t) && 1 <= i < |t.nodes|
  {
    var p := t.parents[i];
    var c := t.nodes[i];
    && p < i
    && t.positions[i] < |t.nodes[p].children| && c == t.nodes[p].children[t.positions[i]]
    && d.jointNames[i] == c.name
    && d.jointPaths[i] == d.jointPaths[p] + "/" + ident(c.name)
    && HeadOk(c, |mesh|) && HeadOk(t.nodes[p], |mesh|)
    && (d.restTransforms[i], d.bindTransforms[i]) == ChildXf(mesh, c, t.nodes[p])
  }

  /** Breadth-first order: parents never decrease, and siblings keep their order. */
  predicate BreadthFirst(parents: seq<nat>, positions: seq<nat>)
    requires |parents| == |positions|
  {
    forall i, j :: 1 <= i < j < |parents| ==>
      parents[i] < parents[j] || (parents[i] == parents[j] && positions[i] < positions[j])
  }

  /** No bone other than the root is visited twice. */
  predicate DistinctAfterRoot(names: seq<string>)
  {
    forall i, j :: 1 <= i < j < |names| ==> names[i] != names[j]
  }

  predicate LastWithPath(paths: seq<string>, i: nat)
  {
    forall j :: i < j < |paths| ==> paths[j] != paths[i]
  }

  /** The helper map has one key per joint path, holding the head group of the last joint with that path. */
  ghost predicate HelperMap(d: SkeletonData, t: Trace)
    requires |d.jointPaths| == |t.nodes|
  {
    && d.helperVertices.Keys == Elems(d.jointPaths)
    && forall i :: 0 <= i < |t.nodes| && LastWithPath(d.jointPaths, i) ==>
         d.helperVertices[d.jointPaths[i]] == t.nodes[i].headVertices
  }

  /**
    The joint arrays laid out from the root: shapes agree, joint 0 is the
    root, every later joint is a child of an earlier one with the path and
    transforms that follow from it, in breadth-first order, no name after the
    root twice, the helper map as written, every head group valid.
   */
  ghost predicate Laid(d: SkeletonData, t: Trace, mesh: seq<Vec3>, ident: string -> string, root: Bone)
  {
    && Shaped(d, t)
    && RootJoint(d, t, mesh, root)
    && (forall i :: 1 <= i < |t.nodes| ==> ChildJoint(d, t, mesh, ident, i))
    && BreadthFirst(t.parents, t.positions)
    && DistinctAfterRoot(d.jointNames)
    && HelperMap(d, t)
    && (forall i :: 0 <= i < |t.nodes| ==> HeadOk(t.nodes[i], |mesh|))
  }

  /** The facts the walk keeps after every step; S is a finite set holding every name of the tree. */
  ghost predicate WalkInv(w: Walk, t: Trace, mesh: seq<Vec3>, ident: string -> string, root: Bone, S: set<string>)
  {
    && Laid(w.d, t, mesh, ident, root)
    && w.visited == w.d.jointNames[1..]
    && (forall i :: 0 <= i < |t.nodes| ==> NamesIn([t.nodes[i]]) <= S)
    && (HeadsValid(root, |mesh|) ==> forall i :: 0 <= i < |t.nodes| ==> HeadsValid(t.nodes[i], |mesh|))
  }

  /** Every joint recorded so far hangs below a joint before p, or is an earlier child of p. */
  ghost predicate ParentsBefore(parents: seq<nat>, positions: seq<nat>, p: nat, k: nat)
    requires |parents| == |positions|
  {
    forall i :: 1 <= i < |parents| ==> parents[i] < p || (parents[i] == p && positions[i] < k)
  }

  /** The children of the first h joints are all visited. */
  ghost predicate ChildrenVisited(nodes: seq<Bone>, h: nat, visited: seq<string>)
    requires h <= |nodes|
  {
    forall p, k :: 0 <= p < h && 0 <= k < |nodes[p].children| ==> nodes[p].children[k].name in visited
  }

  /**
    Every joint after the root is the first occurrence of its name in
    breadth-first order: no child of an earlier joint, and no earlier child of
    its own parent, bears that name.
   */
  ghost predicate FirstOccurrence(t: Trace)
  {
    && |t.parents| == |t.positions| == |t.nodes|
    && forall i, q, k :: 1 <= i < |t.nodes| && 0 <= q < i && 0 <= k < |t.nodes[q].children|
                         && (q < t.parents[i] || (q == t.parents[i] && k < t.positions[i]))
                         ==> t.nodes[q].children[k].name != t.nodes[i].name
  }

  /** The queues hold the joints from h on, and their paths. */
  ghost predicate Queued(w: Walk, t: Trace, h: nat)
    requires |w.d.jointPaths| == |t.nodes|
  {
    h <= |t.nodes| && w.queue == t.nodes[h..] && w.pathQueue == w.d.jointPaths[h..]
  }

  /** The invariant of the outer loop, with h joints taken off the queue so far. */
  ghost predicate OuterInv(w: Walk, t: Trace, mesh: seq<Vec3>, ident: string -> string, root: Bone, S: set<string>, h: nat)
  {
    && WalkInv(w, t, mesh, ident, root, S)
    && Queued(w, t, h)
    && ParentsBefore(t.parents, t.positions, h, 0)
    && ChildrenVisited(t.nodes, h, w.visited)
    && FirstOccurrence(t)
  }

  /** The invariant of the inner loop over the children of joint p (bone v at path), k of them done. */
  ghost predicate InnerInv(w: Walk, t: Trace, mesh: seq<Vec3>, ident: string -> string, root: Bone, S: set<string>,
                           p: nat, k: nat, v: Bone, path: string)
  {
    && WalkInv(w, t, mesh, ident, root, S)
    && p < |t.nodes| && Queued(w, t, p + 1)
    && v == t.nodes[p] && path == w.d.jointPaths[p]
    && k <= |v.children|
    && ParentsBefore(t.parents, t.positions, p, k)
    && ChildrenVisited(t.nodes, p, w.visited)
    && (forall k' :: 0 <= k' < k ==> v.children[k'].name in w.visited)
    && FirstOccurrence(t)
  }

  /** The termination measure (unvisited names, queue length) of w is at most that of w0, queue length equal when tied. */
  ghost predicate Progress(w: Walk, w0: Walk, S: set<string>)
  {
    |S - Elems(w.visited)| < |S - Elems(w0.visited)|
    || (|S - Elems(w.visited)| == |S - Elems(w0.visited)| && |w.queue| == |w0.queue|)
  }

  /** The joint arrays and helper map after one more joint. */
  function AddJoint(d: SkeletonData, name: string, path: string, xf: (Matrix4, Matrix4), head: seq<nat>): SkeletonData
  {
    SkeletonData(d.jointNames + [name], d.jointPaths + [path], d.restTransforms + [xf.0],
                 d.bindTransforms + [xf.1], d.helperVertices[path := head])
  }

  function Extend(t: Trace, c: Bone, p: nat, k: nat): Trace
  {
    Trace(t.nodes + [c], t.parents + [p], t.positions + [k])
  }

  /** Visiting child c of bone v at path: its joint and helper entry recorded, bone and path queued, name marked visited. */
  function Visit(w: Walk, v: Bone, path: string, c: Bone, mesh: seq<Vec3>, ident: string -> string): Walk
    requires HeadOk(c, |mesh|) && HeadOk(v, |mesh|)
  {
    var childPath := path + "/" + ident(c.name);
    Walk(AddJoint(w.d, c.name, childPath, ChildXf(mesh, c, v), c.headVertices),
         w.queue + [c], w.pathQueue + [childPath], w.visited + [c.name])
  }

  function Pop(w: Walk): Walk
    requires |w.queue| > 0 && |w.pathQueue| > 0
  {
    w.(queue := w.queue[1..], pathQueue := w.pathQueue[1..])
  }

  /** The joint arrays holding only the root, with its transforms and its helper-vertex entry. */
  function RootData(mesh: seq<Vec3>, root: Bone): SkeletonData
    requires |mesh| > 0 && HeadOk(root, |mesh|)
  {
    var rootXf := ComputeTransforms(mesh, Some(Gather(mesh, root.headVertices)));
    SkeletonData([root.name], [root.name], [rootXf.0], [rootXf.1], map[root.name := root.headVertices])
  }

  lemma ChildNames(b: Bone, k: nat)
    requires k < |b.children|
    ensures b.children[k].name in NamesIn([b.children[k]])
    ensures NamesIn([b.children[k]]) <= NamesIn([b])
  {
    assert [b.children[k]][1..] == [];
    assert [b][1..] == [];
    ElemNames(b.children, k);
  }

  lemma {:induction false} ElemNames(bs: seq<Bone>, k: nat)
    requires k < |bs|
    ensures NamesIn([bs[k]]) <= NamesIn(bs)
  {
    assert [bs[k]][1..] == [];
    if k > 0 {
      ElemNames(bs[1..], k - 1);
      assert bs[1..][k - 1] == bs[k];
    }
  }

  lemma Shrinks(S: set<string>, V: set<string>, x: string)
    requires x in S && x !in V
    ensures |S - (V + {x})| < |S - V|
  {
    assert S - V == (S - (V + {x})) + {x};
  }

  lemma ExtendChildJoints(d: SkeletonData, t: Trace, mesh: seq<Vec3>, ident: string -> string, p: nat, k: nat)
    requires Shaped(d, t)
    requires forall i :: 1 <= i < |t.nodes| ==> ChildJoint(d, t, mesh, ident, i)
    requires p < |t.nodes| && k < |t.nodes[p].children|
    requires HeadOk(t.nodes[p], |mesh|) && HeadOk(t.nodes[p].children[k], |mesh|)
    ensures var c := t.nodes[p].children[k];
            var d' := AddJoint(d, c.name, d.jointPaths[p] + "/" + ident(c.name), ChildXf(mesh, c, t.nodes[p]), c.headVertices);
            var t' := Extend(t, c, p, k);
            && Shaped(d', t')
            && forall i :: 1 <= i < |t'.nodes| ==> ChildJoint(d', t', mesh, ident, i)
  {
    var c := t.nodes[p].children[k];
    var d' := AddJoint(d, c.name, d.jointPaths[p] + "/" + ident(c.name), ChildXf(mesh, c, t.nodes[p]), c.headVertices);
    var t' := Extend(t, c, p, k);
    var n := |t.nodes|;
    assert Shaped(d', t');
    forall i | 1 <= i < n + 1
      ensures ChildJoint(d', t', mesh, ident, i)
    {
      if i < n {
        assert ChildJoint(d, t, mesh, ident, i);
        var q := t.parents[i];
        assert t'.nodes[i] == t.nodes[i] && t'.nodes[q] == t.nodes[q] && t'.parents[i] == q && t'.positions[i] == t.positions[i];
        assert d'.jointNames[i] == d.jointNames[i] && d'.jointPaths[i] == d.jointPaths[i] && d'.jointPaths[q] == d.jointPaths[q];
        assert d'.restTransforms[i] == d.restTransforms[i] && d'.bindTransforms[i] == d.bindTransforms[i];
      }
    }
  }

  lemma ExtendHelper(d: SkeletonData, t: Trace, name: string, path: string, xf: (Matrix4, Matrix4), c: Bone, p: nat, k: nat)
    requires |d.jointPaths| == |t.nodes| && HelperMap(d, t)
    ensures HelperMap(AddJoint(d, name, path, xf, c.headVertices), Extend(t, c, p, k))
  {
    var d' := AddJoint(d, name, path, xf, c.headVertices);
    var t' := Extend(t, c, p, k);
    var n := |t.nodes|;
    assert Elems(d'.jointPaths) == Elems(d.jointPaths) + {path};
    forall i | 0 <= i < n + 1 && LastWithPath(d'.jointPaths, i)
      ensures d'.helperVertices[d'.jointPaths[i]] == t'.nodes[i].headVertices
    {
      if i < n {
        assert d'.jointPaths[i] == d.jointPaths[i] && d'.jointPaths[n] == path;
        forall j | i < j < n ensures d.jointPaths[j] != d.jointPaths[i] {
          assert d'.jointPaths[j] == d.jointPaths[j];
        }
      }
    }
  }

  lemma ExtendBreadthFirst(parents: seq<nat>, positions: seq<nat>, p: nat, k: nat)
    requires |parents| == |positions| && BreadthFirst(parents, positions) && ParentsBefore(parents, positions, p, k)
    ensures BreadthFirst(parents + [p], positions + [k]) && ParentsBefore(parents + [p], positions + [k], p, k + 1)
  {
    var parents', positions' := parents + [p], positions + [k];
    forall i, j | 1 <= i < j < |parents'|
      ensures parents'[i] < parents'[j] || (parents'[i] == parents'[j] && positions'[i] < positions'[j])
    {
      if j < |parents| {
        assert parents'[i] == parents[i] && parents'[j] == parents[j];
        assert positions'[i] == positions[i] && positions'[j] == positions[j];
      } else {
        assert parents'[i] == parents[i] && positions'[i] == positions[i];
      }
    }
    forall i | 1 <= i < |parents'|
      ensures parents'[i] < p || (parents'[i] == p && positions'[i] < k + 1)
    {
      if i < |parents| {
        assert parents'[i] == parents[i] && positions'[i] == positions[i];
      }
    }
  }

  lemma ExtendNames(names: seq<string>, visited: seq<string>, x: string)
    requires |names| >= 1 && visited == names[1..] && DistinctAfterRoot(names) && x !in visited
    ensures visited + [x] == (names + [x])[1..] && DistinctAfterRoot(names + [x])
  {
    assert (names + [x])[1..] == names[1..] + [x];
    forall i, j | 1 <= i < j < |names| + 1 ensures (names + [x])[i] != (names + [x])[j] {
      if j == |names| {
        assert names[i] == visited[i - 1];
      }
    }
  }

  lemma ExtendRoot(d: SkeletonData, t: Trace, mesh: seq<Vec3>, root: Bone, d': SkeletonData, t': Trace)
    requires Shaped(d, t) && Shaped(d', t') && RootJoint(d, t, mesh, root)
    requires t'.nodes[0] == t.nodes[0] && d'.jointNames[0] == d.jointNames[0] && d'.jointPaths[0] == d.jointPaths[0]
    requires d'.restTransforms[0] == d.restTransforms[0] && d'.bindTransforms[0] == d.bindTransforms[0]
    ensures RootJoint(d', t', mesh, root)
  {
  }

  /** Visiting child k of joint p, when its name is new and its head group valid, keeps the walk's facts. */
  lemma VisitPreserves(w: Walk, t: Trace, mesh: seq<Vec3>, ident: string -> string, root: Bone, S: set<string>,
                       p: nat, k: nat)
    requires WalkInv(w, t, mesh, ident, root, S)
    requires ParentsBefore(t.parents, t.positions, p, k)
    requires p < |t.nodes| && k < |t.nodes[p].children|
    requires t.nodes[p].children[k].name !in w.visited
    requires HeadOk(t.nodes[p].children[k], |mesh|)
    ensures HeadOk(t.nodes[p], |mesh|)
    ensures var c := t.nodes[p].children[k];
            var t' := Extend(t, c, p, k);
            && WalkInv(Visit(w, t.nodes[p], w.d.jointPaths[p], c, mesh, ident), t', mesh, ident, root, S)
            && ParentsBefore(t'.parents, t'.positions, p, k + 1)
  {
    var v := t.nodes[p];
    var c := v.children[k];
    var path := w.d.jointPaths[p] + "/" + ident(c.name);
    var d := w.d;
    var d' := AddJoint(d, c.name, path, ChildXf(mesh, c, v), c.headVertices);
    var t' := Extend(t, c, p, k);
    ExtendChildJoints(d, t, mesh, ident, p, k);
    ExtendHelper(d, t, c.name, path, ChildXf(mesh, c, v), c, p, k);
    ExtendNames(d.jointNames, w.visited, c.name);
    ExtendRoot(d, t, mesh, root, d', t');
    ExtendBreadthFirst(t.parents, t.positions, p, k);
    ChildNames(v, k);
    assert forall i :: 0 <= i < |t'.nodes| ==> HeadOk(t'.nodes[i], |mesh|) && NamesIn([t'.nodes[i]]) <= S;
    assert HeadsValid(root, |mesh|) ==> forall i :: 0 <= i < |t'.nodes| ==> HeadsValid(t'.nodes[i], |mesh|);
    assert Laid(d', t', mesh, ident, root);
  }

  lemma SliceAppend<T>(s: seq<T>, h: nat, x: T)
    requires h <= |s|
    ensures (s + [x])[h..] == s[h..] + [x]
  {
  }

  lemma ChildrenVisitedGrow(nodes: seq<Bone>, h: nat, visited: seq<string>, c: Bone, x: string)
    requires h <= |nodes| && ChildrenVisited(nodes, h, visited)
    ensures ChildrenVisited(nodes + [c], h, visited + [x])
  {
    forall p, k | 0 <= p < h && 0 <= k < |(nodes + [c])[p].children|
      ensures (nodes + [c])[p].children[k].name in visited + [x]
    {
      assert (nodes + [c])[p] == nodes[p];
    }
  }

  /** After visiting child k of v, the queues, joint p and the visited prefix of v's children are as the inner loop needs. */
  lemma VisitFrame(w: Walk, t: Trace, mesh: seq<Vec3>, ident: string -> string, p: nat, k: nat, v: Bone, path: string)
    requires |w.d.jointPaths| == |t.nodes| && p < |t.nodes| && Queued(w, t, p + 1)
    requires v == t.nodes[p] && path == w.d.jointPaths[p] && k < |v.children|
    requires ChildrenVisited(t.nodes, p, w.visited)
    requires forall k' :: 0 <= k' < k ==> v.children[k'].name in w.visited
    requires HeadOk(v.children[k], |mesh|) && HeadOk(v, |mesh|)
    ensures var w' := Visit(w, v, path, v.children[k], mesh, ident);
            var t' := Extend(t, v.children[k], p, k);
            && |w'.d.jointPaths| == |t'.nodes| && Queued(w', t', p + 1)
            && v == t'.nodes[p] && path == w'.d.jointPaths[p]
            && ChildrenVisited(t'.nodes, p, w'.visited)
            && forall k' :: 0 <= k' < k + 1 ==> v.children[k'].name in w'.visited
  {
    var c := v.children[k];
    var w' := Visit(w, v, path, c, mesh, ident);
    var t' := Extend(t, c, p, k);
    SliceAppend(t.nodes, p + 1, c);
    SliceAppend(w.d.jointPaths, p + 1, w'.d.jointPaths[|t.nodes|]);
    ChildrenVisitedGrow(t.nodes, p, w.visited, c, c.name);
  }

  /** Marking a new name of S visited lowers the measure. */
  lemma VisitProgress(w: Walk, w0: Walk, S: set<string>, w': Walk, x: string)
    requires Progress(w, w0, S) && x in S && x !in w.visited && w'.visited == w.visited + [x]
    ensures Progress(w', w0, S)
  {
    Shrinks(S, Elems(w.visited), x);
    assert Elems(w'.visited) == Elems(w.visited) + {x};
  }

  /** A child whose name is not yet visited, while every earlier child name is, is a first occurrence. */
  lemma ExtendFirst(t: Trace, visited: seq<string>, p: nat, k: nat)
    requires FirstOccurrence(t) && p < |t.nodes| && k < |t.nodes[p].children|
    requires ChildrenVisited(t.nodes, p, visited)
    requires forall k' :: 0 <= k' < k ==> t.nodes[p].children[k'].name in visited
    requires t.nodes[p].children[k].name !in visited
    ensures FirstOccurrence(Extend(t, t.nodes[p].children[k], p, k))
  {
    var c := t.nodes[p].children[k];
    var t' := Extend(t, c, p, k);
    var n := |t.nodes|;
    forall i, q, k'' | 1 <= i < n + 1 && 0 <= q < i && 0 <= k'' < |t'.nodes[q].children|
                       && (q < t'.parents[i] || (q == t'.parents[i] && k'' < t'.positions[i]))
      ensures t'.nodes[q].children[k''].name != t'.nodes[i].name
    {
      assert t'.nodes[q] == t.nodes[q];
      if i < n {
        assert t'.nodes[i] == t.nodes[i] && t'.parents[i] == t.parents[i] && t'.positions[i] == t.positions[i];
      } else {
        assert t'.nodes[i] == c && t'.parents[i] == p && t'.positions[i] == k;
        assert t.nodes[q].children[k''].name in visited;
      }
    }
  }

  /** The inner loop's step for a child whose name is new and whose head group is valid. */
  lemma VisitStep(w: Walk, t: Trace, mesh: seq<Vec3>, ident: string -> string, root: Bone, S: set<string>,
                  p: nat, k: nat, v: Bone, path: string, w0: Walk)
    requires InnerInv(w, t, mesh, ident, root, S, p, k, v, path) && Progress(w, w0, S)
    requires k < |v.children| && v.children[k].name !in w.visited && HeadOk(v.children[k], |mesh|)
    ensures HeadOk(v, |mesh|)
    ensures var w' := Visit(w, v, path, v.children[k], mesh, ident);
            && InnerInv(w', Extend(t, v.children[k], p, k), mesh, ident, root, S, p, k + 1, v, path)
            && Progress(w', w0, S)
  {
    var c := v.children[k];
    VisitPreserves(w, t, mesh, ident, root, S, p, k);
    VisitFrame(w, t, mesh, ident, p, k, v, path);
    ChildNames(v, k);
    assert NamesIn([v]) <= S;
    VisitProgress(w, w0, S, Visit(w, v, path, c, mesh, ident), c.name);
    ExtendFirst(t, w.visited, p, k);
  }

  /** The inner loop's step for a child whose name was already visited. */
  lemma SkipStep(w: Walk, t: Trace, mesh: seq<Vec3>, ident: string -> string, root: Bone, S: set<string>,
                 p: nat, k: nat, v: Bone, path: string)
    requires InnerInv(w, t, mesh, ident, root, S, p, k, v, path)
    requires k < |v.children| && v.children[k].name in w.visited
    ensures InnerInv(w, t, mesh, ident, root, S, p, k + 1, v, path)
  {
  }

  /** A child reached by the walk with a missing or out-of-range head group means the tree was not valid. */
  lemma InvalidHead(w: Walk, t: Trace, mesh: seq<Vec3>, ident: string -> string, root: Bone, S: set<string>,
                    p: nat, k: nat, v: Bone, path: string)
    requires InnerInv(w, t, mesh, ident, root, S, p, k, v, path) && k < |v.children|
    ensures HeadsValid(root, |mesh|) ==> HeadOk(v.children[k], |mesh|)
  {
    if HeadsValid(root, |mesh|) {
      assert HeadsValid(t.nodes[p], |mesh|);
    }
  }

  /** Once all children of joint p are visited, the outer loop's facts hold with one more joint popped. */
  lemma ChildrenDone(w: Walk, t: Trace, mesh: seq<Vec3>, ident: string -> string, root: Bone, S: set<string>,
                     p: nat, v: Bone, path: string)
    requires InnerInv(w, t, mesh, ident, root, S, p, |v.children|, v, path)
    ensures OuterInv(w, t, mesh, ident, root, S, p + 1)
  {
    forall q, k | 0 <= q < p + 1 && 0 <= k < |t.nodes[q].children|
      ensures t.nodes[q].children[k].name in w.visited
    {
      if q == p {
        assert t.nodes[q].children[k] == v.children[k];
      }
    }
    assert ParentsBefore(t.parents, t.positions, p + 1, 0);
  }

  /** Taking the next bone off the queue starts the inner loop over its children. */
  lemma PopStep(w: Walk, t: Trace, mesh: seq<Vec3>, ident: string -> string, root: Bone, S: set<string>, h: nat)
    requires OuterInv(w, t, mesh, ident, root, S, h) && |w.queue| > 0
    ensures |w.pathQueue| > 0
    ensures InnerInv(Pop(w), t, mesh, ident, root, S, h, 0, w.queue[0], w.pathQueue[0])
  {
    assert t.nodes[h..][1..] == t.nodes[h + 1..];
    assert w.d.jointPaths[h..][1..] == w.d.jointPaths[h + 1..];
  }

  /** The walk's facts hold for the root alone, with S a finite set holding every name of the tree. */
  lemma WalkStart(mesh: seq<Vec3>, ident: string -> string, root: Bone) returns (S: set<string>)
    requires |mesh| > 0 && HeadOk(root, |mesh|)
    ensures OuterInv(Walk(RootData(mesh, root), [root], [root.name], []), Trace([root], [0], [0]), mesh, ident, root, S, 0)
  {
    S := NamesIn([root]);
    assert [root][1..] == [];
    var d := RootData(mesh, root);
    assert Elems(d.jointPaths) == {root.name};
  }

  /** When the queue is empty the walk is complete: the joints are laid out and every child of every joint is visited. */
  lemma WalkDone(w: Walk, t: Trace, mesh: seq<Vec3>, ident: string -> string, root: Bone, S: set<string>, h: nat)
    requires OuterInv(w, t, mesh, ident, root, S, h) && |w.queue| == 0
    ensures Laid(w.d, t, mesh, ident, root)
    ensures |t.nodes| == |w.d.jointNames| && ChildrenVisited(t.nodes, |t.nodes|, w.d.jointNames[1..])
    ensures FirstOccurrence(t)
  {
  }

  /**
    The inner loop of create_skeleton: visits the children of bone v (joint
    p) in order, appending each bone not yet visited to the joint arrays and
    the queue. A child with an empty or out-of-range head group stops the walk.
   */
  method VisitChildren(w0: Walk, v: Bone, path: string, mesh: seq<Vec3>, ident: string -> string, root: Bone,
                       ghost S: set<string>, ghost t0: Trace, ghost p: nat)
    returns (err: Option<RigError>, w: Walk, ghost t: Trace)
    requires InnerInv(w0, t0, mesh, ident, root, S, p, 0, v, path)
    ensures err.Some? ==> !HeadsValid(root, |mesh|)
    ensures err.None? ==> OuterInv(w, t, mesh, ident, root, S, p + 1) && Progress(w, w0, S)
  {
    w, t := w0, t0;
    var k: nat := 0;
    while k < |v.children|
      invariant InnerInv(w, t, mesh, ident, root, S, p, k, v, path) && Progress(w, w0, S)
    {
      var child := v.children[k];
      if child.name !in w.visited {
        if |child.headVertices| == 0 {
          InvalidHead(w, t, mesh, ident, root, S, p, k, v, path);
          return Some(EmptyHeadVertices(child.name)), w, t;
        }
        if !InRange(child.headVertices, |mesh|) {
          InvalidHead(w, t, mesh, ident, root, S, p, k, v, path);
          return Some(VertexIndexOutOfRange(child.name)), w, t;
        }
        VisitStep(w, t, mesh, ident, root, S, p, k, v, path, w0);
        w, t := Visit(w, v, path, child, mesh, ident), Extend(t, child, p, k);
      } else {
        SkipStep(w, t, mesh, ident, root, S, p, k, v, path);
      }
      k := k + 1;
    }
    ChildrenDone(w, t, mesh, ident, root, S, p, v, path);
    err := None;
  }

  /**
    create_skeleton: finds the last root, gives it the quirky transforms,
    then walks the tree breadth-first with a FIFO queue, visiting each bone
    name at most once (the root's own name is not marked visited). Mesh
    indexing errors of numpy become failures. The ghost trace records, per
    joint, the bone, its parent joint and its position among the parent's
    children.
   */
  method CreateSkeleton(rig: seq<Bone>, mesh: seq<Vec3>, ident: string -> string)
    returns (r: Result<SkeletonData, RigError>, ghost t: Trace)
    requires |mesh| > 0
    requires LastRoot(rig).Some? ==> |rig[LastRoot(rig).value].headVertices| > 0
    ensures LastRoot(rig).None? ==> r == Failure(NoRoot)
    ensures LastRoot(rig).Some? && HeadsValid(rig[LastRoot(rig).value], |mesh|) ==> r.Success?
    ensures r.Success? ==> LastRoot(rig).Some? && Laid(r.value, t, mesh, ident, rig[LastRoot(rig).value])
    ensures r.Success? ==> |t.nodes| == |r.value.jointNames| && ChildrenVisited(t.nodes, |t.nodes|, r.value.jointNames[1..])
    ensures r.Success? ==> FirstOccurrence(t)
  {
    t := Trace([], [], []);
    var ro := LastRoot(rig);
    if ro.None? {
      return Failure(NoRoot), t;
    }
    var root := rig[ro.value];
    if !InRange(root.headVertices, |mesh|) {
      return Failure(VertexIndexOutOfRange(root.name)), t;
    }
    var w := Walk(RootData(mesh, root), [root], [root.name], []);
    t := Trace([root], [0], [0]);
    ghost var S := WalkStart(mesh, ident, root);
    ghost var h: nat := 0;
    while |w.queue| > 0
      invariant OuterInv(w, t, mesh, ident, root, S, h)
      decreases |S - Elems(w.visited)|, |w.queue|
    {
      var v := w.queue[0];
      PopStep(w, t, mesh, ident, root, S, h);
      var path := w.pathQueue[0];
      var err;
      err, w, t := VisitChildren(Pop(w), v, path, mesh, ident, root, S, t, h);
      if err.Some? {
        return Failure(err.value), t;
      }
      h := h + 1;
    }
    WalkDone(w, t, mesh, ident, root, S, h);
    r := Success(w.d);
  }

  /** For a joint whose parent is not the root, bind = parent bind + own rest. */
  lemma ChildBindComposes(d: SkeletonData, t: Trace, mesh: seq<Vec3>, ident: string -> string, i: nat)
    requires Shaped(d, t) && 1 <= i < |t.nodes| && t.parents[i] >= 1
    requires ChildJoint(d, t, mesh, ident, i)
    requires ChildJoint(d, t, mesh, ident, t.parents[i])
    ensures Translation(d.bindTransforms[i]) == Add(Translation(d.bindTransforms[t.parents[i]]), Translation(d.restTransforms[i]))
  {
    var p := t.parents[i];
    BindComposes(Gather(mesh, t.nodes[p].headVertices), Some(Gather(mesh, t.nodes[t.parents[p]].headVertices)),
                 Gather(mesh, t.nodes[i].headVertices));
  }

  lemma SumOfTwo(a: Vec3, b: Vec3)
    ensures Sum([a, b]) == Add(Add(Zero, a), b)
  {
    assert [a][..0] == [];
    assert Sum([a]) == Add(Zero, a);
    assert [a, b][..1] == [a];
  }

  /**
    The root quirk: the root's bind transform is the centroid of the whole
    mesh, so for a child of the root, root bind + child rest is not the
    child's bind. Two mesh points, root head at the first, child head at the
    second: the root bind is (0, 0.5, 0) and the composition misses by it.
   */
  lemma RootBindBreaksComposition(mesh: seq<Vec3>, root: Bone, c: Bone)
    requires mesh == [Vec3(0.0, 0.0, 0.0), Vec3(0.0, 1.0, 0.0)]
    requires root.headVertices == [0] && c.headVertices == [1]
    ensures HeadOk(root, |mesh|) && HeadOk(c, |mesh|)
    ensures Translation(RootData(mesh, root).bindTransforms[0]) == Vec3(0.0, 0.5, 0.0)
    ensures Translation(ChildXf(mesh, c, root).1) == Vec3(0.0, 1.0, 0.0)
    ensures Add(Translation(RootData(mesh, root).bindTransforms[0]), Translation(ChildXf(mesh, c, root).0))
            != Translation(ChildXf(mesh, c, root).1)
  {
    var a, b := mesh[0], mesh[1];
    SumOfTwo(a, b);
    var g0 := Gather(mesh, root.headVertices);
    var g1 := Gather(mesh, c.headVertices);
    assert g0 == [a] && g1 == [b];
    MeanOfCopies(g0, a);
    MeanOfCopies(g1, b);
  }
}
