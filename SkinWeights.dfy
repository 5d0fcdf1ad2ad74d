/**
  vertices_to_weights: the per-vertex joint-index and weight arrays of the
  skeleton binding, built from a weights file.
 */
module SkinWeights {
  import opened Wrappers
  import opened Dicts
  import opened Skeleton

  /** The (joint position, weight) pairs one joint's weight list gives vertex v, in list order. */
  function EntriesFor(entries: seq<WeightEntry>, v: nat, j: nat): seq<(nat, real)>
  {
    if |entries| == 0 then []
    else
      var last := entries[|entries| - 1];
      EntriesFor(entries[..|entries| - 1], v, j) + (if last.0 == v then [(j, last.1)] else [])
  }

  /** What vertex v has collected after the first `upto` joints of the joint list. */
  function InfluencesUpTo(names: seq<string>, data: map<string, seq<WeightEntry>>, v: nat, upto: nat): seq<(nat, real)>
    requires upto <= |names|
  {
    if upto == 0 then []
    else
      var joint := names[upto - 1];
      InfluencesUpTo(names, data, v, upto - 1) + (if joint in data then EntriesFor(data[joint], v, IndexOf(names, joint)) else [])
  }

  /** The (joint index, weight) list of vertex v before padding. */
  function Influences(names: seq<string>, data: map<string, seq<WeightEntry>>, v: nat): seq<(nat, real)>
  {
    InfluencesUpTo(names, data, v, |names|)
  }

  function Firsts(row: seq<(nat, real)>): (r: seq<nat>)
    ensures |r| == |row| && forall k :: 0 <= k < |row| ==> r[k] == row[k].0
  {
    seq(|row|, k requires 0 <= k < |row| => row[k].0)
  }

  function Seconds(row: seq<(nat, real)>): (r: seq<real>)
    ensures |r| == |row| && forall k :: 0 <= k < |row| ==> r[k] == row[k].1
  {
    seq(|row|, k requires 0 <= k < |row| => row[k].1)
  }

  function SumReals(xs: seq<real>): real
  {
    if |xs| == 0 then 0.0 else SumReals(xs[..|xs| - 1]) + xs[|xs| - 1]
  }

  function WeightSum(row: seq<(nat, real)>): real
  {
    SumReals(Seconds(row))
  }

  function ZeroIndices(m: nat): (r: seq<nat>)
    ensures |r| == m && forall k :: 0 <= k < m ==> r[k] == 0
  {
    seq(m, _ => 0)
  }

  function Zeros(m: nat): (r: seq<real>)
    ensures |r| == m && forall k :: 0 <= k < m ==> r[k] == 0.0
  {
    seq(m, _ => 0.0)
  }

  /** Joint indices padded with 0 (a valid joint index) up to width w. */
  function PadIndices(row: seq<(nat, real)>, w: nat): (r: seq<nat>)
    requires |row| <= w
    ensures |r| == w
    ensures forall k :: 0 <= k < w ==> r[k] == if k < |row| then row[k].0 else 0
  {
    Firsts(row) + ZeroIndices(w - |row|)
  }

  function PadWeights(row: seq<(nat, real)>, w: nat): (r: seq<real>)
    requires |row| <= w
    ensures |r| == w
    ensures forall k :: 0 <= k < w ==> r[k] == if k < |row| then row[k].1 else 0.0
  {
    Seconds(row) + Zeros(w - |row|)
  }

  function Divide(xs: seq<real>, s: real): (r: seq<real>)
    requires s != 0.0
    ensures |r| == |xs| && forall k :: 0 <= k < |xs| ==> r[k] == xs[k] / s
  {
    seq(|xs|, k requires 0 <= k < |xs| => xs[k] / s)
  }

  lemma {:induction false} SumDivide(xs: seq<real>, s: real)
    requires s != 0.0
    ensures SumReals(Divide(xs, s)) == SumReals(xs) / s
  {
    if |xs| > 0 {
      var n := |xs|;
      SumDivide(xs[..n - 1], s);
      assert Divide(xs, s)[..n - 1] == Divide(xs[..n - 1], s);
      var a := SumReals(xs[..n - 1]);
      assert a / s + xs[n - 1] / s == (a + xs[n - 1]) / s;
    }
  }

  lemma {:induction false} SumZeros(xs: seq<real>, m: nat)
    ensures SumReals(xs + Zeros(m)) == SumReals(xs)
  {
    if m > 0 {
      var ys := xs + Zeros(m);
      SumZeros(xs, m - 1);
      assert ys[..|ys| - 1] == xs + Zeros(m - 1);
    } else {
      assert xs + Zeros(m) == xs;
    }
  }

  /** The padded, normalised weight row: each weight divided by the row's sum, so the row sums to 1. */
  function NormalizedRow(row: seq<(nat, real)>, w: nat): (r: seq<real>)
    requires |row| <= w && WeightSum(row) != 0.0
    ensures |r| == w
    ensures forall k :: 0 <= k < w ==> r[k] == (if k < |row| then row[k].1 else 0.0) / WeightSum(row)
    ensures SumReals(r) == 1.0
  {
    var padded := PadWeights(row, w);
    var t := SumReals(padded);
    assert t == WeightSum(row) by {
      SumZeros(Seconds(row), w - |row|);
    }
    var r := Divide(padded, t);
    assert SumReals(r) == t / t by {
      SumDivide(padded, t);
    }
    SelfQuotient(t);
    r
  }

  lemma SelfQuotient(t: real)
    requires t != 0.0
    ensures t / t == 1.0
  {
  }

  lemma {:induction false} EntriesForMembers(entries: seq<WeightEntry>, v: nat, j: nat, e: (nat, real))
    ensures e in EntriesFor(entries, v, j) <==> e.0 == j && (v, e.1) in entries
  {
    if |entries| > 0 {
      var n := |entries|;
      EntriesForMembers(entries[..n - 1], v, j, e);
      assert entries == entries[..n - 1] + [entries[n - 1]];
    }
  }

  /**
    A pair (j, w) is in vertex v's list exactly when some listed joint with
    weight data is first listed at position j and gives v the weight w:
    joints without data are skipped, and each index is the joint's position.
   */
  lemma {:induction false} InfluencesExact(names: seq<string>, data: map<string, seq<WeightEntry>>, v: nat,
                                           upto: nat, e: (nat, real))
    requires upto <= |names|
    ensures e in InfluencesUpTo(names, data, v, upto) <==>
            exists u :: 0 <= u < upto && names[u] in data && e.0 == IndexOf(names, names[u]) && (v, e.1) in data[names[u]]
  {
    if upto > 0 {
      InfluencesExact(names, data, v, upto - 1, e);
      var joint := names[upto - 1];
      if joint in data {
        EntriesForMembers(data[joint], v, IndexOf(names, joint), e);
      }
    }
  }

  predicate EntriesInRange(names: seq<string>, data: map<string, seq<WeightEntry>>, upto: nat, n: nat)
    requires upto <= |names|
  {
    forall u, q :: 0 <= u < upto && names[u] in data && 0 <= q < |data[names[u]]| ==> data[names[u]][q].0 < n
  }

  function MaxLen(rows: seq<seq<nat>>): (m: nat)
    requires |rows| > 0
    ensures forall i :: 0 <= i < |rows| ==> |rows[i]| <= m
    ensures exists i :: 0 <= i < |rows| && |rows[i]| == m
  {
    if |rows| == 1 then |rows[0]|
    else
      var m := MaxLen(rows[..|rows| - 1]);
      assert forall i :: 0 <= i < |rows| - 1 ==> rows[..|rows| - 1][i] == rows[i];
      if |rows[|rows| - 1]| > m then |rows[|rows| - 1]| else m
  }

  lemma FirstsSecondsAppend(row: seq<(nat, real)>, extra: seq<(nat, real)>)
    ensures Firsts(row + extra) == Firsts(row) + Firsts(extra)
    ensures Seconds(row + extra) == Seconds(row) + Seconds(extra)
  {
  }

  /**
    The inner loop of vertices_to_weights for joint number a: appends the
    joint's index and weight to the lists of every vertex its entries name.
    `ok` is false when an entry names a vertex beyond the mesh (IndexError).
   */
  method AddJointEntries(names: seq<string>, data: map<string, seq<WeightEntry>>, numVerts: nat, a: nat,
                         ji: seq<seq<nat>>, jw: seq<seq<real>>)
    returns (ok: bool, ji': seq<seq<nat>>, jw': seq<seq<real>>)
    requires a < |names| && names[a] in data && |ji| == |jw| == numVerts
    requires forall v :: 0 <= v < numVerts ==>
               ji[v] == Firsts(InfluencesUpTo(names, data, v, a)) && jw[v] == Seconds(InfluencesUpTo(names, data, v, a))
    ensures ok <==> forall q :: 0 <= q < |data[names[a]]| ==> data[names[a]][q].0 < numVerts
    ensures ok ==> |ji'| == |jw'| == numVerts
    ensures ok ==> forall v :: 0 <= v < numVerts ==>
                     ji'[v] == Firsts(InfluencesUpTo(names, data, v, a + 1))
                     && jw'[v] == Seconds(InfluencesUpTo(names, data, v, a + 1))
  {
    var joint := names[a];
    var entries := data[joint];
    var ix := IndexOf(names, joint);
    ji', jw' := ji, jw;
    var e := 0;
    while e < |entries|
      invariant 0 <= e <= |entries|
      invariant |ji'| == |jw'| == numVerts
      invariant forall q :: 0 <= q < e ==> entries[q].0 < numVerts
      invariant forall v :: 0 <= v < numVerts ==>
                  ji'[v] == Firsts(InfluencesUpTo(names, data, v, a) + EntriesFor(entries[..e], v, ix))
                  && jw'[v] == Seconds(InfluencesUpTo(names, data, v, a) + EntriesFor(entries[..e], v, ix))
    {
      var (idx, wt) := entries[e];
      if idx >= numVerts {
        return false, ji', jw';
      }
      forall v | 0 <= v < numVerts
        ensures (ji'[idx := ji'[idx] + [ix]])[v]
                == Firsts(InfluencesUpTo(names, data, v, a) + EntriesFor(entries[..e + 1], v, ix))
        ensures (jw'[idx := jw'[idx] + [wt]])[v]
                == Seconds(InfluencesUpTo(names, data, v, a) + EntriesFor(entries[..e + 1], v, ix))
      {
        AppendEntry(InfluencesUpTo(names, data, v, a), entries, e, v, ix);
      }
      ji' := ji'[idx := ji'[idx] + [ix]];
      jw' := jw'[idx := jw'[idx] + [wt]];
      e := e + 1;
    }
    assert entries[..|entries|] == entries;
    ok := true;
  }

  /**
    The loop of vertices_to_weights: each vertex's joint indices and weights,
    in joint-list order. An index beyond the mesh is an IndexError.
   */
  method CollectInfluences(names: seq<string>, data: map<string, seq<WeightEntry>>, numVerts: nat)
    returns (r: Result<(seq<seq<nat>>, seq<seq<real>>), RigError>)
    ensures r.Failure? <==> !EntriesInRange(names, data, |names|, numVerts)
    ensures r.Success? ==>
      && |r.value.0| == |r.value.1| == numVerts
      && forall v :: 0 <= v < numVerts ==>
           r.value.0[v] == Firsts(Influences(names, data, v)) && r.value.1[v] == Seconds(Influences(names, data, v))
  {
    var ji: seq<seq<nat>> := seq(numVerts, _ => []);
    var jw: seq<seq<real>> := seq(numVerts, _ => []);
    var a := 0;
    while a < |names|
      invariant 0 <= a <= |names|
      invariant |ji| == |jw| == numVerts
      invariant EntriesInRange(names, data, a, numVerts)
      invariant forall v :: 0 <= v < numVerts ==>
                  ji[v] == Firsts(InfluencesUpTo(names, data, v, a)) && jw[v] == Seconds(InfluencesUpTo(names, data, v, a))
    {
      var joint := names[a];
      if joint in data {
        var ok;
        ok, ji, jw := AddJointEntries(names, data, numVerts, a, ji, jw);
        if !ok {
          return Failure(VertexIndexOutOfRange(joint));
        }
      }
      a := a + 1;
    }
    r := Success((ji, jw));
  }

  lemma AppendEntry(base: seq<(nat, real)>, entries: seq<WeightEntry>, e: nat, v: nat, j: nat)
    requires e < |entries|
    ensures Firsts(base + EntriesFor(entries[..e + 1], v, j))
            == Firsts(base + EntriesFor(entries[..e], v, j)) + (if entries[e].0 == v then [j] else [])
    ensures Seconds(base + EntriesFor(entries[..e + 1], v, j))
            == Seconds(base + EntriesFor(entries[..e], v, j)) + (if entries[e].0 == v then [entries[e].1] else [])
  {
    assert entries[..e + 1][..e] == entries[..e];
    var step := if entries[e].0 == v then [(j, entries[e].1)] else [];
    assert base + EntriesFor(entries[..e + 1], v, j) == (base + EntriesFor(entries[..e], v, j)) + step;
    FirstsSecondsAppend(base + EntriesFor(entries[..e], v, j), step);
  }

  /** No vertex has any weight entry, so every row is empty before padding. */
  predicate Unweighted(names: seq<string>, data: map<string, seq<WeightEntry>>, numVerts: nat)
  {
    forall v :: 0 <= v < numVerts ==> Influences(names, data, v) == []
  }

  /**
    vertices_to_weights: for every vertex, the indices and normalised weights
    of the joints that influence it, padded to the longest list. An index
    beyond the mesh is an IndexError; an empty mesh makes max() fail. When no
    vertex has any weight the width is 0 and every row is empty.
   */
  method VerticesToWeights(names: seq<string>, data: map<string, seq<WeightEntry>>, numVerts: nat)
    returns (r: Result<(seq<seq<nat>>, seq<seq<real>>), RigError>)
    requires Unweighted(names, data, numVerts) || forall v :: 0 <= v < numVerts ==> WeightSum(Influences(names, data, v)) != 0.0
    ensures r.Failure? <==> numVerts == 0 || !EntriesInRange(names, data, |names|, numVerts)
    ensures r.Success? ==>
      var (indices, weights) := r.value;
      && |indices| == |weights| == numVerts > 0
      && var w := |indices[0]|;
         && (forall v :: 0 <= v < numVerts ==> |Influences(names, data, v)| <= w)
         && (exists v :: 0 <= v < numVerts && |Influences(names, data, v)| == w)
         && forall v :: 0 <= v < numVerts ==>
              indices[v] == PadIndices(Influences(names, data, v), w)
              && weights[v] == if w == 0 then [] else NormalizedRow(Influences(names, data, v), w)
  {
    var collected := CollectInfluences(names, data, numVerts);
    if collected.Failure? {
      return Failure(collected.error);
    }
    var (ji, jw) := collected.value;
    if numVerts == 0 {
      return Failure(EmptyMesh);
    }
    var maxLen := MaxLen(ji);
    forall v | 0 <= v < numVerts
      ensures |ji[v]| == |jw[v]| <= maxLen && (maxLen == 0 || SumReals(jw[v]) != 0.0)
    {
      if maxLen > 0 {
        var u :| 0 <= u < numVerts && |ji[u]| == maxLen;
        assert Influences(names, data, u) != [];
      }
    }
    var indices := seq(numVerts, v requires 0 <= v < numVerts => PadList(ji[v], maxLen));
    var weights := seq(numVerts, v requires 0 <= v < numVerts => NormalizeList(jw[v], maxLen));
    r := Success((indices, weights));
    assert |indices[0]| == maxLen;
    forall v | 0 <= v < numVerts
      ensures indices[v] == PadIndices(Influences(names, data, v), maxLen)
      ensures weights[v] == if maxLen == 0 then [] else NormalizedRow(Influences(names, data, v), maxLen)
    {
      PaddedRow(ji[v], jw[v], Influences(names, data, v), maxLen);
    }
  }

  /** A list of joint indices padded with 0 up to width w. */
  function PadList(js: seq<nat>, w: nat): (r: seq<nat>)
    requires |js| <= w
    ensures |r| == w
  {
    js + ZeroIndices(w - |js|)
  }

  /** A list of weights padded with 0.0 up to width w and divided by its sum; at width 0 there is nothing to divide. */
  function NormalizeList(ws: seq<real>, w: nat): (r: seq<real>)
    requires |ws| <= w && (w == 0 || SumReals(ws) != 0.0)
    ensures |r| == w
  {
    if w == 0 then []
    else
      var padded := ws + Zeros(w - |ws|);
      SumZeros(ws, w - |ws|);
      Divide(padded, SumReals(padded))
  }

  /** Padding the collected index and weight lists of a vertex gives its padded and normalised row. */
  lemma PaddedRow(js: seq<nat>, ws: seq<real>, row: seq<(nat, real)>, w: nat)
    requires js == Firsts(row) && ws == Seconds(row) && |row| <= w && (w == 0 || WeightSum(row) != 0.0)
    ensures PadList(js, w) == PadIndices(row, w)
    ensures NormalizeList(ws, w) == if w == 0 then [] else NormalizedRow(row, w)
  {
  }
}
