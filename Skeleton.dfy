/**
  The bone tree read from a rig file (build_tree) and the rest and bind
  transforms of one joint (compute_transforms).
 */
module Skeleton {
  import opened Wrappers
  import opened Geometry
  import opened Dicts

  /** A bone record of the rig file: its parent (null for a root) and the names of its head and tail joint groups. */
  datatype BoneSpec = BoneSpec(parent: Option<string>, head: string, tail: string)

  /** One entry of a weights list: [vertex index, weight]. */
  type WeightEntry = (nat, real)

  /** A bone of the built tree: the record, its looked-up vertex groups, its sub-tree and its weights. */
  datatype Bone = Bone(
    name: string, parent: Option<string>, head: string, tail: string,
    headVertices: seq<nat>, tailVertices: seq<nat>,
    children: seq<Bone>, vertexWeights: seq<WeightEntry>)

  datatype RigError =
    | MissingJointGroup(group: string)
    | TreeTooDeep
    | NoRoot
    | EmptyHeadVertices(bone: string)
    | VertexIndexOutOfRange(bone: string)
    | EmptyMesh

  // ---------------------------------------------------------------------
  // build_tree

  /** The bones whose parent is `node`, in rig-file order. */
  function ChildSpecs(bones: Dict<string, BoneSpec>, node: Option<string>): (r: Dict<string, BoneSpec>)
    ensures |r| <= |bones|
    ensures forall e :: e in r <==> e in bones && e.1.parent == node
  {
    if |bones| == 0 then []
    else
      var rest := ChildSpecs(bones[1..], node);
      assert forall e :: e in bones <==> e == bones[0] || e in bones[1..];
      if bones[0].1.parent == node then [bones[0]] + rest else rest
  }

  predicate GroupsPresent(specs: Dict<string, BoneSpec>, joints: map<string, seq<nat>>)
  {
    forall i :: 0 <= i < |specs| ==> specs[i].1.head in joints && specs[i].1.tail in joints
  }

  /** The first head or tail group name, in record order, that the joints table lacks. */
  function FirstMissing(specs: Dict<string, BoneSpec>, joints: map<string, seq<nat>>): (g: string)
    requires !GroupsPresent(specs, joints)
    ensures g !in joints
  {
    if specs[0].1.head !in joints then specs[0].1.head
    else if specs[0].1.tail !in joints then specs[0].1.tail
    else
      assert !GroupsPresent(specs[1..], joints) by {
        var i :| 0 <= i < |specs| && !(specs[i].1.head in joints && specs[i].1.tail in joints);
        assert specs[1..][i - 1] == specs[i];
      }
      FirstMissing(specs[1..], joints)
  }

  /** b is the bone the record e becomes: same fields, vertex groups looked up, weights defaulting to []. */
  ghost predicate NodeFrom(b: Bone, e: (string, BoneSpec), joints: map<string, seq<nat>>,
                           weights: map<string, seq<WeightEntry>>)
  {
    && b.name == e.0 && b.parent == e.1.parent && b.head == e.1.head && b.tail == e.1.tail
    && e.1.head in joints && e.1.tail in joints
    && b.headVertices == joints[e.1.head] && b.tailVertices == joints[e.1.tail]
    && b.vertexWeights == (if e.0 in weights then weights[e.0] else [])
  }

  /** bs is, position by position, the level built from specs, each with its own sub-tree built. */
  ghost predicate Level(bs: seq<Bone>, specs: Dict<string, BoneSpec>, bones: Dict<string, BoneSpec>,
                        joints: map<string, seq<nat>>, weights: map<string, seq<WeightEntry>>)
    decreases bs, 1
  {
    && |bs| == |specs|
    && forall i :: 0 <= i < |bs| ==>
         NodeFrom(bs[i], specs[i], joints, weights) && Built(bs[i], bones, joints, weights)
  }

  /** The children of b are exactly the level built from the bones whose parent is b. */
  ghost predicate Built(b: Bone, bones: Dict<string, BoneSpec>, joints: map<string, seq<nat>>,
                        weights: map<string, seq<WeightEntry>>)
    decreases b, 0
  {
    Level(b.children, ChildSpecs(bones, Some(b.name)), bones, joints, weights)
  }

  /**
    build_tree(node, skel_data, weight_data). A joint group missing from the
    joints table is a KeyError. The recursion is bounded by `fuel` levels.
   */
  function BuildTree(node: Option<string>, bones: Dict<string, BoneSpec>, joints: map<string, seq<nat>>,
                     weights: map<string, seq<WeightEntry>>, fuel: nat): (r: Result<seq<Bone>, RigError>)
    ensures !GroupsPresent(ChildSpecs(bones, node), joints) ==> r.Failure?
    ensures r.Success? ==> Level(r.value, ChildSpecs(bones, node), bones, joints, weights)
    decreases fuel, 0
  {
    var specs := ChildSpecs(bones, node);
    if !GroupsPresent(specs, joints) then
      Failure(MissingJointGroup(FirstMissing(specs, joints)))
    else if |specs| == 0 then Success([])
    else if fuel == 0 then Failure(TreeTooDeep)
    else BuildLevel(specs, bones, joints, weights, fuel - 1)
  }

  /** The second loop of build_tree: one sub-tree per child record, in order. */
  function BuildLevel(specs: Dict<string, BoneSpec>, bones: Dict<string, BoneSpec>, joints: map<string, seq<nat>>,
                      weights: map<string, seq<WeightEntry>>, fuel: nat): (r: Result<seq<Bone>, RigError>)
    requires GroupsPresent(specs, joints)
    ensures r.Success? ==> Level(r.value, specs, bones, joints, weights)
    decreases fuel, 1, |specs|
  {
    if |specs| == 0 then Success([])
    else
      var (name, spec) := specs[0];
      var sub := BuildTree(Some(name), bones, joints, weights, fuel);
      if sub.Failure? then Failure(sub.error)
      else
        var rest := BuildLevel(specs[1..], bones, joints, weights, fuel);
        if rest.Failure? then Failure(rest.error)
        else
          var b := Bone(name, spec.parent, spec.head, spec.tail, joints[spec.head], joints[spec.tail],
                        sub.value, if name in weights then weights[name] else []);
          assert Built(b, bones, joints, weights);
          LevelCons(b, rest.value, specs, bones, joints, weights);
          Success([b] + rest.value)
  }

  /** A built bone for the first record in front of the level built from the others is the level built from all. */
  lemma LevelCons(b: Bone, rest: seq<Bone>, specs: Dict<string, BoneSpec>, bones: Dict<string, BoneSpec>,
                  joints: map<string, seq<nat>>, weights: map<string, seq<WeightEntry>>)
    requires |specs| > 0 && NodeFrom(b, specs[0], joints, weights) && Built(b, bones, joints, weights)
    requires Level(rest, specs[1..], bones, joints, weights)
    ensures Level([b] + rest, specs, bones, joints, weights)
  {
    var r := [b] + rest;
    assert forall i :: 1 <= i < |r| ==> r[i] == rest[i - 1] && specs[i] == specs[1..][i - 1];
  }

  /** Every bone whose parent is `node` appears, with its fields, at the top level of the built tree. */
  lemma BuildTreeCoversChildren(node: Option<string>, bones: Dict<string, BoneSpec>, joints: map<string, seq<nat>>,
                                weights: map<string, seq<WeightEntry>>, fuel: nat, e: (string, BoneSpec))
    requires BuildTree(node, bones, joints, weights, fuel).Success?
    requires e in bones && e.1.parent == node
    ensures exists b :: b in BuildTree(node, bones, joints, weights, fuel).value && NodeFrom(b, e, joints, weights)
  {
    var r := BuildTree(node, bones, joints, weights, fuel).value;
    var specs := ChildSpecs(bones, node);
    var i :| 0 <= i < |specs| && specs[i] == e;
    assert NodeFrom(r[i], e, joints, weights);
  }

  /**
    A ranking of the bone names that strictly decreases from every parent to
    each of its children. One exists exactly when the parent links have no
    cycle (the height of each bone is one).
   */
  ghost predicate Ranked(bones: Dict<string, BoneSpec>, rank: string -> nat)
  {
    forall i :: 0 <= i < |bones| && bones[i].1.parent.Some? ==> rank(bones[i].0) < rank(bones[i].1.parent.value)
  }

  /** The children of a node are records of the file, so their groups are present when all are. */
  lemma ChildGroupsPresent(bones: Dict<string, BoneSpec>, node: Option<string>, joints: map<string, seq<nat>>)
    requires GroupsPresent(bones, joints)
    ensures GroupsPresent(ChildSpecs(bones, node), joints)
  {
    var specs := ChildSpecs(bones, node);
    forall i | 0 <= i < |specs|
      ensures specs[i].1.head in joints && specs[i].1.tail in joints
    {
      assert specs[i] in specs;
      var j :| 0 <= j < |bones| && bones[j] == specs[i];
    }
  }

  /** A bound on the ranks of the records whose parent is `node` bounds the ranks of its child level. */
  lemma ChildRanks(node: Option<string>, bones: Dict<string, BoneSpec>, fuel: nat, rank: string -> nat)
    requires forall i :: 0 <= i < |bones| && bones[i].1.parent == node ==> rank(bones[i].0) < fuel
    ensures |ChildSpecs(bones, node)| > 0 ==> fuel > 0
    ensures forall i :: 0 <= i < |ChildSpecs(bones, node)| ==> rank(ChildSpecs(bones, node)[i].0) < fuel
  {
    var specs := ChildSpecs(bones, node);
    forall i | 0 <= i < |specs|
      ensures rank(specs[i].0) < fuel
    {
      assert specs[i] in specs;
      var j :| 0 <= j < |bones| && bones[j] == specs[i];
    }
    if |specs| > 0 {
      assert rank(specs[0].0) < fuel;
    }
  }

  /** A node without children builds to the empty level whatever the fuel. */
  lemma BuildTreeLeaf(node: Option<string>, bones: Dict<string, BoneSpec>, joints: map<string, seq<nat>>,
                      weights: map<string, seq<WeightEntry>>, fuel: nat)
    requires |ChildSpecs(bones, node)| == 0
    ensures BuildTree(node, bones, joints, weights, fuel) == Success([])
  {
  }

  /** With its groups present, a node with children builds as soon as its child level does, on one unit of fuel less. */
  lemma BuildTreeFromLevel(node: Option<string>, bones: Dict<string, BoneSpec>, joints: map<string, seq<nat>>,
                           weights: map<string, seq<WeightEntry>>, f: nat)
    requires GroupsPresent(ChildSpecs(bones, node), joints) && |ChildSpecs(bones, node)| > 0
    ensures BuildTree(node, bones, joints, weights, f + 1) == BuildLevel(ChildSpecs(bones, node), bones, joints, weights, f)
  {
  }

  /**
    build_tree succeeds on an acyclic rig whose joint groups are all present,
    once the fuel exceeds the rank of every child of the starting node.
   */
  lemma {:induction false} BuildTreeSucceeds(node: Option<string>, bones: Dict<string, BoneSpec>,
                                             joints: map<string, seq<nat>>, weights: map<string, seq<WeightEntry>>,
                                             fuel: nat, rank: string -> nat)
    requires GroupsPresent(bones, joints) && Ranked(bones, rank)
    requires forall i :: 0 <= i < |bones| && bones[i].1.parent == node ==> rank(bones[i].0) < fuel
    ensures BuildTree(node, bones, joints, weights, fuel).Success?
    decreases fuel, 0
  {
    if |ChildSpecs(bones, node)| == 0 {
      BuildTreeLeaf(node, bones, joints, weights, fuel);
    } else {
      ChildGroupsPresent(bones, node, joints);
      ChildRanks(node, bones, fuel, rank);
      var f: nat := fuel - 1;
      BuildLevelSucceeds(ChildSpecs(bones, node), bones, joints, weights, f, rank);
      BuildTreeFromLevel(node, bones, joints, weights, f);
    }
  }

  /** Each child record of rank at most the fuel builds, so the whole level does. */
  lemma {:induction false} BuildLevelSucceeds(specs: Dict<string, BoneSpec>, bones: Dict<string, BoneSpec>,
                                              joints: map<string, seq<nat>>, weights: map<string, seq<WeightEntry>>,
                                              fuel: nat, rank: string -> nat)
    requires GroupsPresent(bones, joints) && GroupsPresent(specs, joints) && Ranked(bones, rank)
    requires forall i :: 0 <= i < |specs| ==> rank(specs[i].0) <= fuel
    ensures BuildLevel(specs, bones, joints, weights, fuel).Success?
    decreases fuel, 1, |specs|
  {
    if |specs| > 0 {
      var name := specs[0].0;
      BuildTreeSucceeds(Some(name), bones, joints, weights, fuel, rank);
      BuildLevelSucceeds(specs[1..], bones, joints, weights, fuel, rank);
    }
  }

  /** The rig as a whole: with fuel above every rank, building from the roots succeeds. */
  lemma RigBuilds(bones: Dict<string, BoneSpec>, joints: map<string, seq<nat>>,
                  weights: map<string, seq<WeightEntry>>, fuel: nat, rank: string -> nat)
    requires GroupsPresent(bones, joints) && Ranked(bones, rank)
    requires forall i :: 0 <= i < |bones| ==> rank(bones[i].0) < fuel
    ensures BuildTree(None, bones, joints, weights, fuel).Success?
  {
    BuildTreeSucceeds(None, bones, joints, weights, fuel, rank);
  }

  // ---------------------------------------------------------------------
  // compute_transforms

  /**
    compute_transforms(head_vertices, parent_vertices): the bind transform
    translates to the centroid of the head vertices; the rest transform to
    the same point relative to the centroid of the parent vertices when they
    are given. Both matrices are pure translations. The result is (rest, bind).
   */
  function ComputeTransforms(head: seq<Vec3>, parent: Option<seq<Vec3>>): (r: (Matrix4, Matrix4))
    requires |head| > 0
    requires parent.Some? ==> |parent.value| > 0
    ensures IsTranslationOnly(r.0) && IsTranslationOnly(r.1)
    ensures Scale(Translation(r.1), |head| as real) == Sum(head)
    ensures parent.None? ==> r.0 == r.1
    ensures parent.Some? ==> Add(Translation(r.0), Mean(parent.value)) == Translation(r.1)
  {
    var h := Mean(head);
    var local := if parent.Some? then Sub(h, Mean(parent.value)) else h;
    TranslationRoundTrip(local, []);
    TranslationRoundTrip(h, []);
    (TranslationMatrix(local), TranslationMatrix(h))
  }

  /**
    When a joint's head group is its parent's head group and the parent's bind
    transform was computed from that group, child bind = parent bind + child rest.
   */
  lemma BindComposes(parentHead: seq<Vec3>, grandHead: Option<seq<Vec3>>, head: seq<Vec3>)
    requires |parentHead| > 0 && |head| > 0
    requires grandHead.Some? ==> |grandHead.value| > 0
    ensures Translation(ComputeTransforms(head, Some(parentHead)).1)
         == Add(Translation(ComputeTransforms(parentHead, grandHead).1), Translation(ComputeTransforms(head, Some(parentHead)).0))
  {
    var p := ComputeTransforms(parentHead, grandHead).1;
    var c := ComputeTransforms(head, Some(parentHead));
    MeanUnique(parentHead, Translation(p));
  }

  lemma MeanUnique(s: seq<Vec3>, m: Vec3)
    requires |s| > 0 && Scale(m, |s| as real) == Sum(s)
    ensures m == Mean(s)
  {
    var n := |s| as real;
    var q := Mean(s);
    assert m.x * n == q.x * n && m.y * n == q.y * n && m.z * n == q.z * n;
  }

}
