/**
  Skeletal targets: the joint transforms that follow a blend shape's helper
  geometry, and the removal of the skeletal deformation from a blend shape's
  offsets. Skinning and blend-shape deformation are computed by the scene
  library; here they are parameters that either deliver points or fail.
 */
module Skeltargets {
  import opened Wrappers
  import opened Geometry

  datatype SkelError =
    | KeyError(joint: string)   // a joint without a vertex list in the skeleton's custom data
    | IndexError                // an index past the end of an array
    | ShapeMismatch             // numpy operands of different lengths
    | SkinningFailed            // ComputeSkinnedPoints returned false
    | DeformFailed              // ComputeDeformedPoints returned false

  // ---------------------------------------------------------------------
  // compute_transform and joints_from_points

  /** compute_transform(head_vertices): identity rotation, translation at the centroid. */
  function ComputeTransform(head: seq<Vec3>): (m: Matrix4)
    requires |head| > 0
    ensures IsTranslationOnly(m)
    ensures Scale(Translation(m), |head| as real) == Sum(head)
  {
    TranslationRoundTrip(Mean(head), []);
    TranslationMatrix(Mean(head))
  }

  /** A joint whose vertices all sit at one point is placed at that point. */
  lemma ComputeTransformOfCopies(head: seq<Vec3>, p: Vec3)
    requires |head| > 0 && forall k :: 0 <= k < |head| ==> head[k] == p
    ensures ComputeTransform(head) == TranslationMatrix(p)
  {
    MeanOfCopies(head, p);
  }

  /** Every listed vertex set is nonempty (the centroid of none is NaN). */
  predicate NonemptyLists(boneVerts: map<string, seq<nat>>)
  {
    forall j :: j in boneVerts ==> |boneVerts[j]| > 0
  }

  /** The transform of one joint, or the error its lookup raises. */
  function JointTransform(joint: string, boneVerts: map<string, seq<nat>>, points: seq<Vec3>): (r: Result<Matrix4, SkelError>)
    requires NonemptyLists(boneVerts)
    ensures r.Success? <==> joint in boneVerts && InRange(boneVerts[joint], |points|)
    ensures r.Failure? ==> r.error == if joint in boneVerts then IndexError else KeyError(joint)
  {
    if joint !in boneVerts then Failure(KeyError(joint))
    else if !InRange(boneVerts[joint], |points|) then Failure(IndexError)
    else Success(ComputeTransform(Gather(points, boneVerts[joint])))
  }

  /** joints_from_points: one transform per joint in joint order, or the first joint's error. */
  function JointTransforms(joints: seq<string>, boneVerts: map<string, seq<nat>>, points: seq<Vec3>)
    : (r: Result<seq<Matrix4>, SkelError>)
    requires NonemptyLists(boneVerts)
    ensures r.Success? <==> forall k :: 0 <= k < |joints| ==> JointTransform(joints[k], boneVerts, points).Success?
    ensures r.Success? ==> |r.value| == |joints|
    ensures r.Success? ==> forall k :: 0 <= k < |joints| ==>
              r.value[k] == ComputeTransform(Gather(points, boneVerts[joints[k]]))
  {
    if |joints| == 0 then Success([])
    else
      var n := |joints|;
      var p := JointTransforms(joints[..n - 1], boneVerts, points);
      var t := JointTransform(joints[n - 1], boneVerts, points);
      assert forall k :: 0 <= k < n - 1 ==> joints[..n - 1][k] == joints[k];
      if p.Failure? then p
      else if t.Failure? then Failure(t.error)
      else Success(p.value + [t.value])
  }

  /** The first failing joint decides the error. */
  lemma {:induction false} JointTransformsPrefixFails(joints: seq<string>, boneVerts: map<string, seq<nat>>, points: seq<Vec3>, i: nat)
    requires NonemptyLists(boneVerts)
    requires i <= |joints| && JointTransforms(joints[..i], boneVerts, points).Failure?
    ensures JointTransforms(joints, boneVerts, points) == JointTransforms(joints[..i], boneVerts, points)
    decreases |joints|
  {
    if i == |joints| {
      assert joints[..i] == joints;
    } else {
      var n := |joints|;
      assert joints[..n - 1][..i] == joints[..i];
      JointTransformsPrefixFails(joints[..n - 1], boneVerts, points, i);
    }
  }

  /** Each joint's transform depends only on the points at that joint's own indices. */
  lemma JointTransformsLocal(joints: seq<string>, boneVerts: map<string, seq<nat>>, p: seq<Vec3>, q: seq<Vec3>, k: nat)
    requires NonemptyLists(boneVerts)
    requires JointTransforms(joints, boneVerts, p).Success? && JointTransforms(joints, boneVerts, q).Success?
    requires k < |joints|
    requires var idxs := boneVerts[joints[k]]; forall m :: 0 <= m < |idxs| ==> p[idxs[m]] == q[idxs[m]]
    ensures JointTransforms(joints, boneVerts, p).value[k] == JointTransforms(joints, boneVerts, q).value[k]
  {
    assert JointTransform(joints[k], boneVerts, p).Success? && JointTransform(joints[k], boneVerts, q).Success?;
    GatherAgree(p, q, boneVerts[joints[k]]);
  }

  predicate JointLoopInv(joints: seq<string>, boneVerts: map<string, seq<nat>>, points: seq<Vec3>, i: nat, xforms: seq<Matrix4>)
    requires NonemptyLists(boneVerts)
  {
    i <= |joints| && JointTransforms(joints[..i], boneVerts, points) == Success(xforms)
  }

  lemma JointLoopStep(joints: seq<string>, boneVerts: map<string, seq<nat>>, points: seq<Vec3>, i: nat, xforms: seq<Matrix4>)
    requires NonemptyLists(boneVerts) && i < |joints| && JointLoopInv(joints, boneVerts, points, i, xforms)
    ensures var t := JointTransform(joints[i], boneVerts, points);
            if t.Success? then JointLoopInv(joints, boneVerts, points, i + 1, xforms + [t.value])
            else JointTransforms(joints, boneVerts, points) == Failure(t.error)
  {
    assert joints[..i + 1][..i] == joints[..i];
    if JointTransform(joints[i], boneVerts, points).Failure? {
      JointTransformsPrefixFails(joints, boneVerts, points, i + 1);
    }
  }

  /** The loop of joints_from_points. */
  method JointsFromPoints(joints: seq<string>, boneVerts: map<string, seq<nat>>, points: seq<Vec3>)
    returns (r: Result<seq<Matrix4>, SkelError>)
    requires NonemptyLists(boneVerts)
    ensures r == JointTransforms(joints, boneVerts, points)
  {
    var xforms: seq<Matrix4> := [];
    assert joints[..0] == [];
    for i := 0 to |joints|
      invariant JointLoopInv(joints, boneVerts, points, i, xforms)
    {
      JointLoopStep(joints, boneVerts, points, i, xforms);
      var joint := joints[i];
      if joint !in boneVerts {
        return Failure(KeyError(joint));
      }
      var idxs := boneVerts[joint];
      if !InRange(idxs, |points|) {
        return Failure(IndexError);
      }
      xforms := xforms + [ComputeTransform(Gather(points, idxs))];
    }
    assert joints[..|joints|] == joints;
    r := Success(xforms);
  }

  // ---------------------------------------------------------------------
  // compute_blendshape_points and blendshape_to_skeltarget

  /** The mesh, with its points attribute. */
  class Body {
    var points: seq<Vec3>

    constructor (points: seq<Vec3>)
      ensures this.points == points
    {
      this.points := points;
    }
  }

  /** A deformer either delivers the deformed points or fails. */
  type Deformer = seq<Vec3> -> Option<seq<Vec3>>

  /**
    compute_blendshape_points: deforms a copy of the body's points; a failed
    deformation is a ValueError, and the body keeps its points either way.
   */
  method ComputeBlendshapePoints(body: Body, deform: Deformer) returns (r: Result<seq<Vec3>, SkelError>)
    ensures r.Failure? <==> deform(body.points).None?
    ensures r.Failure? ==> r.error == DeformFailed
    ensures r.Success? ==> r.value == deform(body.points).value
  {
    var points := body.points;
    var deformed := deform(points);
    if deformed.None? {
      return Failure(DeformFailed);
    }
    r := Success(deformed.value);
  }

  /** The joint transforms of blendshape_to_skeltarget: the skeleton fitted to the deformed points. */
  function SkeltargetTransforms(base: seq<Vec3>, deform: Deformer, joints: seq<string>, boneVerts: map<string, seq<nat>>)
    : Result<seq<Matrix4>, SkelError>
    requires NonemptyLists(boneVerts)
  {
    var d := deform(base);
    if d.None? then Failure(DeformFailed) else JointTransforms(joints, boneVerts, d.value)
  }

  /** blendshape_to_skeltarget up to the file export: deform, then fit the joints. */
  method BlendshapeToSkeltarget(body: Body, deform: Deformer, joints: seq<string>, boneVerts: map<string, seq<nat>>)
    returns (r: Result<seq<Matrix4>, SkelError>)
    requires NonemptyLists(boneVerts)
    ensures r == SkeltargetTransforms(body.points, deform, joints, boneVerts)
  {
    var points := ComputeBlendshapePoints(body, deform);
    if points.Failure? {
      return Failure(points.error);
    }
    r := JointsFromPoints(joints, boneVerts, points.value);
  }

  /** A joint whose vertices the blend shape does not move keeps its rest transform. */
  lemma UnmovedJointKeepsPose(base: seq<Vec3>, deform: Deformer, joints: seq<string>, boneVerts: map<string, seq<nat>>, k: nat)
    requires NonemptyLists(boneVerts)
    requires SkeltargetTransforms(base, deform, joints, boneVerts).Success? && JointTransforms(joints, boneVerts, base).Success?
    requires k < |joints|
    requires var idxs := boneVerts[joints[k]];
             forall m :: 0 <= m < |idxs| ==> deform(base).value[idxs[m]] == base[idxs[m]]
    ensures SkeltargetTransforms(base, deform, joints, boneVerts).value[k] == JointTransforms(joints, boneVerts, base).value[k]
  {
    JointTransformsLocal(joints, boneVerts, deform(base).value, base, k);
  }

  // ---------------------------------------------------------------------
  // calculate_skeltarget_verts

  /** One joint's entry of a .skeltarget file. */
  datatype JointPose = JointPose(translation: Vec3, axis: Vec3, angle: real, scale: Vec3)

  /** The rotation of an entry, as the axis and angle Gf.Rotation is built from. */
  datatype Rotation = AxisAngle(axis: Vec3, angle: real)

  /** The first |s| slots of a overwritten by s, the rest kept; s is cut to the length of a. */
  function Overwrite<T>(a: seq<T>, s: seq<T>): (r: seq<T>)
    ensures |r| == |a|
    ensures forall i :: 0 <= i < |a| ==> r[i] == if i < |s| then s[i] else a[i]
  {
    seq(|a|, i requires 0 <= i < |a| => if i < |s| then s[i] else a[i])
  }

  function Translations(entries: seq<(string, JointPose)>): (r: seq<Vec3>)
    ensures |r| == |entries| && forall i :: 0 <= i < |entries| ==> r[i] == entries[i].1.translation
  {
    seq(|entries|, i requires 0 <= i < |entries| => entries[i].1.translation)
  }

  function Rotations(entries: seq<(string, JointPose)>): (r: seq<Rotation>)
    ensures |r| == |entries| && forall i :: 0 <= i < |entries| ==> r[i] == AxisAngle(entries[i].1.axis, entries[i].1.angle)
  {
    seq(|entries|, i requires 0 <= i < |entries| => AxisAngle(entries[i].1.axis, entries[i].1.angle))
  }

  function Scales(entries: seq<(string, JointPose)>): (r: seq<Vec3>)
    ensures |r| == |entries| && forall i :: 0 <= i < |entries| ==> r[i] == entries[i].1.scale
  {
    seq(|entries|, i requires 0 <= i < |entries| => entries[i].1.scale)
  }

  /**
    The loop of calculate_skeltarget_verts over the file's entries, in file
    order: entry i fills slot i of the three arrays. More entries than
    joints raise IndexError after every slot has been written.
   */
  method FillJointArrays(entries: seq<(string, JointPose)>, translations: array<Vec3>,
                         rotations: array<Rotation>, scales: array<Vec3>)
    returns (err: Option<SkelError>)
    requires translations.Length == rotations.Length == scales.Length && translations != scales
    modifies translations, rotations, scales
    ensures err.Some? <==> |entries| > translations.Length
    ensures err.Some? ==> err.value == IndexError
    ensures translations[..] == Overwrite(old(translations[..]), Translations(entries))
    ensures rotations[..] == Overwrite(old(rotations[..]), Rotations(entries))
    ensures scales[..] == Overwrite(old(scales[..]), Scales(entries))
  {
    var n := translations.Length;
    ghost var t0, r0, s0 := translations[..], rotations[..], scales[..];
    var i := 0;
    while i < |entries|
      invariant 0 <= i <= |entries| && i <= n
      invariant translations[..] == Overwrite(t0, Translations(entries[..i]))
      invariant rotations[..] == Overwrite(r0, Rotations(entries[..i]))
      invariant scales[..] == Overwrite(s0, Scales(entries[..i]))
    {
      if i == n {
        assert Overwrite(t0, Translations(entries[..i])) == Overwrite(t0, Translations(entries));
        assert Overwrite(r0, Rotations(entries[..i])) == Overwrite(r0, Rotations(entries));
        assert Overwrite(s0, Scales(entries[..i])) == Overwrite(s0, Scales(entries));
        return Some(IndexError);
      }
      var pose := entries[i].1;
      translations[i] := pose.translation;
      rotations[i] := AxisAngle(pose.axis, pose.angle);
      scales[i] := pose.scale;
      i := i + 1;
    }
    assert entries[..i] == entries;
    err := None;
  }

  /** What the skinning computes from the joint arrays: the skinned points, or failure. */
  type Skinner = (seq<Vec3>, seq<Rotation>, seq<Vec3>) -> Option<seq<Vec3>>

  /** The result of calculate_skeltarget_verts for a skeleton of numJoints joints. */
  function SkeltargetVerts(numJoints: nat, entries: seq<(string, JointPose)>, skin: Skinner): Result<seq<Vec3>, SkelError>
  {
    if |entries| > numJoints then Failure(IndexError)
    else
      var skinned := skin(Overwrite(seq(numJoints, _ => Zero), Translations(entries)),
                          Overwrite(seq(numJoints, _ => AxisAngle(Zero, 0.0)), Rotations(entries)),
                          Overwrite(seq(numJoints, _ => Zero), Scales(entries)));
      if skinned.None? then Failure(SkinningFailed) else Success(skinned.value)
  }

  /** The joint names in the file play no part: only the order of the entries counts. */
  lemma SkeltargetVertsIgnoresNames(numJoints: nat, entries: seq<(string, JointPose)>, renamed: seq<(string, JointPose)>, skin: Skinner)
    requires |entries| == |renamed| && forall i :: 0 <= i < |entries| ==> entries[i].1 == renamed[i].1
    ensures SkeltargetVerts(numJoints, entries, skin) == SkeltargetVerts(numJoints, renamed, skin)
  {
    assert Translations(entries) == Translations(renamed);
    assert Rotations(entries) == Rotations(renamed);
    assert Scales(entries) == Scales(renamed);
  }

  /**
    calculate_skeltarget_verts: fresh zero-filled arrays, one slot per joint,
    filled from the file, then handed to the skinning.
   */
  method CalculateSkeltargetVerts(numJoints: nat, entries: seq<(string, JointPose)>, skin: Skinner)
    returns (r: Result<seq<Vec3>, SkelError>)
    ensures r == SkeltargetVerts(numJoints, entries, skin)
  {
    var translations := new Vec3[numJoints](_ => Zero);
    var rotations := new Rotation[numJoints](_ => AxisAngle(Zero, 0.0));
    var scales := new Vec3[numJoints](_ => Zero);
    assert translations[..] == seq(numJoints, _ => Zero);
    assert rotations[..] == seq(numJoints, _ => AxisAngle(Zero, 0.0));
    assert scales[..] == seq(numJoints, _ => Zero);
    var err := FillJointArrays(entries, translations, rotations, scales);
    if err.Some? {
      return Failure(err.value);
    }
    var skinned := skin(translations[..], rotations[..], scales[..]);
    if skinned.None? {
      return Failure(SkinningFailed);
    }
    r := Success(skinned.value);
  }

  // ---------------------------------------------------------------------
  // separate_blendshape

  /** default_points - skel_deformation, element-wise. */
  function SkeletalOffset(defaultPoints: seq<Vec3>, skinned: seq<Vec3>): (r: Result<seq<Vec3>, SkelError>)
    ensures r.Success? <==> |defaultPoints| == |skinned|
    ensures r.Failure? ==> r.error == ShapeMismatch
    ensures r.Success? ==> |r.value| == |defaultPoints|
    ensures r.Success? ==>
              forall k :: 0 <= k < |defaultPoints| ==> r.value[k] == Sub(defaultPoints[k], skinned[k])
  {
    if |defaultPoints| != |skinned| then Failure(ShapeMismatch)
    else Success(seq(|defaultPoints|, k requires 0 <= k < |defaultPoints| => Sub(defaultPoints[k], skinned[k])))
  }

  /** blendshape_offsets - deltas[blendshape_indices]. */
  function CorrectedOffsets(offsets: seq<Vec3>, indices: seq<nat>, deltas: seq<Vec3>): (r: Result<seq<Vec3>, SkelError>)
    ensures r.Success? <==> InRange(indices, |deltas|) && |offsets| == |indices|
    ensures r.Failure? ==> r.error == if InRange(indices, |deltas|) then ShapeMismatch else IndexError
    ensures r.Success? ==> |r.value| == |offsets|
    ensures r.Success? ==>
              forall k :: 0 <= k < |offsets| ==> r.value[k] == Sub(offsets[k], deltas[indices[k]])
  {
    if !InRange(indices, |deltas|) then Failure(IndexError)
    else if |offsets| != |indices| then Failure(ShapeMismatch)
    else Success(seq(|offsets|, k requires 0 <= k < |offsets| && k < |indices| => Sub(offsets[k], deltas[indices[k]])))
  }

  /** The corrected offsets of separate_blendshape, given the outcome of the skinning. */
  function Separated(defaultPoints: seq<Vec3>, skinned: Result<seq<Vec3>, SkelError>, offsets: seq<Vec3>, indices: seq<nat>)
    : Result<seq<Vec3>, SkelError>
  {
    if skinned.Failure? then Failure(skinned.error)
    else
      var delta := SkeletalOffset(defaultPoints, skinned.value);
      if delta.Failure? then Failure(delta.error) else CorrectedOffsets(offsets, indices, delta.value)
  }

  /**
    Each corrected offset is the stored offset minus the skeletal offset at
    its vertex; adding the skeletal offset back gives the stored offset.
   */
  lemma SeparatedAt(defaultPoints: seq<Vec3>, skinned: seq<Vec3>, offsets: seq<Vec3>, indices: seq<nat>, k: nat)
    requires Separated(defaultPoints, Success(skinned), offsets, indices).Success? && k < |offsets|
    ensures var r := Separated(defaultPoints, Success(skinned), offsets, indices).value;
            |r| == |offsets| == |indices| && indices[k] < |defaultPoints| == |skinned|
            && r[k] == Sub(offsets[k], Sub(defaultPoints[indices[k]], skinned[indices[k]]))
            && Add(r[k], Sub(defaultPoints[indices[k]], skinned[indices[k]])) == offsets[k]
  {
  }

  /** Skinned points equal to the default points at every stored index leave the offsets as they are. */
  lemma SeparatedWithoutSkinning(defaultPoints: seq<Vec3>, skinned: seq<Vec3>, offsets: seq<Vec3>, indices: seq<nat>)
    requires Separated(defaultPoints, Success(skinned), offsets, indices).Success?
    requires forall k :: 0 <= k < |indices| ==> indices[k] < |skinned| && skinned[indices[k]] == defaultPoints[indices[k]]
    ensures Separated(defaultPoints, Success(skinned), offsets, indices).value == offsets
  {
    var r := Separated(defaultPoints, Success(skinned), offsets, indices).value;
    forall k | 0 <= k < |offsets| ensures r[k] == offsets[k] {
      SeparatedAt(defaultPoints, skinned, offsets, indices, k);
    }
  }

  /** Vertices the blend shape does not store play no part. */
  lemma SeparatedLocal(defaultPoints: seq<Vec3>, skinned: seq<Vec3>, skinned': seq<Vec3>, offsets: seq<Vec3>, indices: seq<nat>)
    requires Separated(defaultPoints, Success(skinned), offsets, indices).Success? && |skinned'| == |skinned|
    requires forall k :: 0 <= k < |indices| ==> indices[k] < |skinned| && skinned[indices[k]] == skinned'[indices[k]]
    ensures Separated(defaultPoints, Success(skinned'), offsets, indices) == Separated(defaultPoints, Success(skinned), offsets, indices)
  {
    var r := Separated(defaultPoints, Success(skinned), offsets, indices).value;
    assert SkeletalOffset(defaultPoints, skinned').Success?;
    var r' := Separated(defaultPoints, Success(skinned'), offsets, indices).value;
    forall k | 0 <= k < |offsets| ensures r[k] == r'[k] {
      SeparatedAt(defaultPoints, skinned, offsets, indices, k);
      SeparatedAt(defaultPoints, skinned', offsets, indices, k);
    }
    assert |r| == |offsets| == |r'|;
    assert r == r';
  }

  /** A blend shape prim: its offsets and point indices attributes. */
  class BlendShape {
    var offsets: seq<Vec3>
    var pointIndices: seq<nat>

    constructor (offsets: seq<Vec3>, pointIndices: seq<nat>)
      ensures this.offsets == offsets && this.pointIndices == pointIndices
    {
      this.offsets := offsets;
      this.pointIndices := pointIndices;
    }
  }

  /**
    separate_blendshape: every error is raised before the attributes are
    set, so a failure leaves the blend shape untouched; otherwise the
    offsets are replaced by the corrected ones and the indices are written
    back unchanged.
   */
  method SeparateBlendshape(body: Body, bs: BlendShape, skinned: Result<seq<Vec3>, SkelError>) returns (err: Option<SkelError>)
    modifies bs
    ensures var s := Separated(old(body.points), skinned, old(bs.offsets), old(bs.pointIndices));
            && (err.Some? <==> s.Failure?)
            && (s.Failure? ==> err == Some(s.error) && bs.offsets == old(bs.offsets))
            && (s.Success? ==> bs.offsets == s.value)
    ensures bs.pointIndices == old(bs.pointIndices)
  {
    var corrected := Separated(body.points, skinned, bs.offsets, bs.pointIndices);
    if corrected.Failure? {
      return Some(corrected.error);
    }
    bs.offsets := corrected.value;
    bs.pointIndices := bs.pointIndices;
    err := None;
  }
}
