/**
  3-vectors of reals, centroids of point sets, and the 4x4 matrices the rig is
  written with. Matrices are stored row by row in the layout the code hands to
  Gf.Matrix4d after transposing a numpy column-vector matrix: the translation
  sits in the last row.
 */
module Geometry {

  datatype Vec3 = Vec3(x: real, y: real, z: real)

  const Zero: Vec3 := Vec3(0.0, 0.0, 0.0)

  function Add(a: Vec3, b: Vec3): Vec3 { Vec3(a.x + b.x, a.y + b.y, a.z + b.z) }

  function Sub(a: Vec3, b: Vec3): Vec3 { Vec3(a.x - b.x, a.y - b.y, a.z - b.z) }

  function Scale(a: Vec3, k: real): Vec3 { Vec3(a.x * k, a.y * k, a.z * k) }

  /** Component-wise sum, accumulated from the front (as numpy's sum along axis 0). */
  function Sum(s: seq<Vec3>): Vec3
  {
    if |s| == 0 then Zero else Add(Sum(s[..|s| - 1]), s[|s| - 1])
  }

  /** np.mean(points, axis=0). The mean of no points is NaN in numpy, so it is excluded. */
  function Mean(s: seq<Vec3>): (m: Vec3)
    requires |s| > 0
    ensures Scale(m, |s| as real) == Sum(s)
  {
    var n := |s| as real;
    var S := Sum(s);
    assert S.x / n * n == S.x && S.y / n * n == S.y && S.z / n * n == S.z;
    Vec3(S.x / n, S.y / n, S.z / n)
  }

  lemma {:induction false} SumOfCopies(s: seq<Vec3>, p: Vec3)
    requires forall k :: 0 <= k < |s| ==> s[k] == p
    ensures Sum(s) == Scale(p, |s| as real)
  {
    if |s| > 0 {
      SumOfCopies(s[..|s| - 1], p);
    }
  }

  /** The centroid of points that all coincide is that point. */
  lemma MeanOfCopies(s: seq<Vec3>, p: Vec3)
    requires |s| > 0
    requires forall k :: 0 <= k < |s| ==> s[k] == p
    ensures Mean(s) == p
  {
    SumOfCopies(s, p);
    var n := |s| as real;
    var m := Mean(s);
    assert m.x * n == p.x * n && m.y * n == p.y * n && m.z * n == p.z * n;
  }

  /** points[idxs] with numpy fancy indexing, for indices known to be in range. */
  function Gather(points: seq<Vec3>, idxs: seq<nat>): (r: seq<Vec3>)
    requires forall k :: 0 <= k < |idxs| ==> idxs[k] < |points|
    ensures |r| == |idxs|
    ensures forall k :: 0 <= k < |idxs| ==> r[k] == points[idxs[k]]
  {
    seq(|idxs|, k requires 0 <= k < |idxs| => points[idxs[k]])
  }

  predicate InRange(idxs: seq<nat>, n: nat)
  {
    forall k :: 0 <= k < |idxs| ==> idxs[k] < n
  }

  /** Two point sets that agree at the gathered indices have the same centroid there. */
  lemma GatherAgree(p: seq<Vec3>, q: seq<Vec3>, idxs: seq<nat>)
    requires InRange(idxs, |p|) && InRange(idxs, |q|)
    requires forall k :: 0 <= k < |idxs| ==> p[idxs[k]] == q[idxs[k]]
    ensures Gather(p, idxs) == Gather(q, idxs)
  {
  }

  type Matrix4 = seq<seq<real>>

  /** np.eye(4) with the translation written into column 3, then transposed. */
  function TranslationMatrix(t: Vec3): Matrix4
  {
    [[1.0, 0.0, 0.0, 0.0],
     [0.0, 1.0, 0.0, 0.0],
     [0.0, 0.0, 1.0, 0.0],
     [t.x, t.y, t.z, 1.0]]
  }

  predicate IsMatrix4(m: Matrix4)
  {
    |m| == 4 && forall i :: 0 <= i < 4 ==> |m[i]| == 4
  }

  /** A 4x4 matrix whose 3x3 part is the identity and whose last column is (0,0,0,1). */
  predicate IsTranslationOnly(m: Matrix4)
  {
    && IsMatrix4(m)
    && (forall i, j :: 0 <= i < 3 && 0 <= j < 3 ==> m[i][j] == if i == j then 1.0 else 0.0)
    && (forall i :: 0 <= i < 3 ==> m[i][3] == 0.0)
    && m[3][3] == 1.0
  }

  function Translation(m: Matrix4): Vec3
    requires IsMatrix4(m)
  {
    Vec3(m[3][0], m[3][1], m[3][2])
  }

  /** TranslationMatrix and Translation are inverse on translation-only matrices. */
  lemma TranslationRoundTrip(t: Vec3, m: Matrix4)
    ensures IsTranslationOnly(TranslationMatrix(t)) && Translation(TranslationMatrix(t)) == t
    ensures IsTranslationOnly(m) ==> TranslationMatrix(Translation(m)) == m
  {
    if IsTranslationOnly(m) {
      var r := TranslationMatrix(Translation(m));
      forall i | 0 <= i < 4 ensures r[i] == m[i] {
        assert |r[i]| == |m[i]| == 4;
        forall j | 0 <= j < 4 ensures r[i][j] == m[i][j] {
        }
      }
    }
  }

  function Transpose(m: Matrix4): (r: Matrix4)
    requires IsMatrix4(m)
    ensures IsMatrix4(r)
    ensures forall i, j :: 0 <= i < 4 && 0 <= j < 4 ==> r[i][j] == m[j][i]
  {
    seq(4, i requires 0 <= i < 4 => seq(4, j requires 0 <= j < 4 => m[j][i]))
  }

  lemma TransposeInvolution(m: Matrix4)
    requires IsMatrix4(m)
    ensures Transpose(Transpose(m)) == m
  {
    var r := Transpose(Transpose(m));
    forall i | 0 <= i < 4 ensures r[i] == m[i] {
      assert |r[i]| == |m[i]|;
    }
  }
}
