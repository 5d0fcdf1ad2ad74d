/**
  The Human object's data preparation: packing each vertex's joint
  influences into fixed-width index and weight buffers
  (calculate_influences), flattening the masked face list of a mesh
  (import_meshes), and the custom-data keys written on the human prim
  (write_properties).
 */
module Human {
  import opened Wrappers
  import opened Dicts
  import opened Skeleton
  import opened SkinWeights
  import opened Arith

  datatype HumanError =
    | UnknownJoint(joint: string)
    | VertexOutOfRange(joint: string)
    | TooManyInfluences(vertex: nat)
    | MaskTooShort
    | FaceTooShort(face: nat)
    | NoPerFaceCount

  // ---------------------------------------------------------------------
  // calculate_influences

  /** A joint's weight data: vertex indices and weights, paired up by zip (the shorter list decides). */
  type JointData = (seq<nat>, seq<real>)

  function Pairs(jd: JointData): (r: seq<WeightEntry>)
    ensures |r| == if |jd.0| <= |jd.1| then |jd.0| else |jd.1|
    ensures forall q :: 0 <= q < |r| ==> r[q] == (jd.0[q], jd.1[q])
  {
    var n := if |jd.0| <= |jd.1| then |jd.0| else |jd.1|;
    seq(n, q requires 0 <= q < n => (jd.0[q], jd.1[q]))
  }

  /** The first a joints of the weight table are all named in the joint list. */
  predicate Known(joints: Dict<string, JointData>, names: seq<string>, a: nat)
    requires a <= |joints|
  {
    forall i :: 0 <= i < a ==> joints[i].0 in names
  }

  /** The entries of the first a joints name vertices below n. */
  predicate EntriesBelow(joints: Dict<string, JointData>, n: nat, a: nat)
    requires a <= |joints|
  {
    forall i, q :: 0 <= i < a && 0 <= q < |Pairs(joints[i].1)| ==> Pairs(joints[i].1)[q].0 < n
  }

  /** The (joint index, weight) slots vertex v has taken after the first a joints, in table then entry order. */
  function SlotsUpTo(joints: Dict<string, JointData>, names: seq<string>, v: nat, a: nat): seq<(nat, real)>
    requires a <= |joints| && Known(joints, names, a)
  {
    if a == 0 then []
    else
      SlotsUpTo(joints, names, v, a - 1)
      + EntriesFor(Pairs(joints[a - 1].1), v, IndexOf(names, joints[a - 1].0))
  }

  function Slots(joints: Dict<string, JointData>, names: seq<string>, v: nat): seq<(nat, real)>
    requires Known(joints, names, |joints|)
  {
    SlotsUpTo(joints, names, v, |joints|)
  }

  /** When calculate_influences succeeds: every joint known, every vertex index in range, no vertex over m slots. */
  predicate Fits(joints: Dict<string, JointData>, names: seq<string>, n: nat, m: nat)
  {
    && Known(joints, names, |joints|)
    && EntriesBelow(joints, n, |joints|)
    && forall v :: 0 <= v < n ==> |Slots(joints, names, v)| <= m
  }

  function SlotIndex(row: seq<(nat, real)>, s: nat): nat
  {
    if s < |row| then row[s].0 else 0
  }

  function SlotWeight(row: seq<(nat, real)>, s: nat): real
  {
    if s < |row| then row[s].1 else 0.0
  }

  /** Row v of the buffers holds `row` in its first slots and zeros after, and the counter says how many. */
  ghost predicate RowHolds(ind: array2<nat>, wts: array2<real>, counts: array<nat>, v: nat, row: seq<(nat, real)>)
    reads ind, wts, counts
    requires v < counts.Length == ind.Length0 == wts.Length0 && ind.Length1 == wts.Length1
  {
    && counts[v] == |row| <= ind.Length1
    && forall s :: 0 <= s < ind.Length1 ==> ind[v, s] == SlotIndex(row, s) && wts[v, s] == SlotWeight(row, s)
  }

  ghost predicate Buffers(ind: array2<nat>, wts: array2<real>, counts: array<nat>, n: nat, m: nat)
    reads ind, wts, counts
  {
    counts.Length == ind.Length0 == wts.Length0 == n && ind.Length1 == wts.Length1 == m
  }

  /** Every row v of the buffers holds rows[v]. */
  ghost predicate Rows(ind: array2<nat>, wts: array2<real>, counts: array<nat>, rows: seq<seq<(nat, real)>>)
    reads ind, wts, counts
  {
    && Buffers(ind, wts, counts, |rows|, ind.Length1)
    && forall v :: 0 <= v < |rows| ==> RowHolds(ind, wts, counts, v, rows[v])
  }

  lemma SlotAppend(row: seq<(nat, real)>, x: (nat, real), s: nat)
    ensures SlotIndex(row + [x], s) == if s == |row| then x.0 else SlotIndex(row, s)
    ensures SlotWeight(row + [x], s) == if s == |row| then x.1 else SlotWeight(row, s)
  {
  }

  /** Puts (j, w) in the next free slot of row vi. */
  method TakeSlot(ind: array2<nat>, wts: array2<real>, counts: array<nat>, ghost rows: seq<seq<(nat, real)>>,
                  vi: nat, j: nat, w: real)
    requires Rows(ind, wts, counts, rows) && vi < |rows| && counts[vi] < ind.Length1
    modifies ind, wts, counts
    ensures Rows(ind, wts, counts, rows[vi := rows[vi] + [(j, w)]])
  {
    var c := counts[vi];
    ind[vi, c] := j;
    wts[vi, c] := w;
    counts[vi] := c + 1;
    ghost var rows' := rows[vi := rows[vi] + [(j, w)]];
    forall v | 0 <= v < |rows| ensures RowHolds(ind, wts, counts, v, rows'[v]) {
      assert old(RowHolds(ind, wts, counts, v, rows[v]));
      if v == vi {
        forall s | 0 <= s < ind.Length1
          ensures ind[v, s] == SlotIndex(rows'[v], s) && wts[v, s] == SlotWeight(rows'[v], s)
        {
          SlotAppend(rows[vi], (j, w), s);
        }
      }
    }
  }

  /** The rows after joint a's first e entries. */
  function RowAt(joints: Dict<string, JointData>, names: seq<string>, v: nat, a: nat, e: nat): seq<(nat, real)>
    requires a < |joints| && Known(joints, names, a + 1) && e <= |Pairs(joints[a].1)|
  {
    SlotsUpTo(joints, names, v, a) + EntriesFor(Pairs(joints[a].1)[..e], v, IndexOf(names, joints[a].0))
  }

  function RowsAt(joints: Dict<string, JointData>, names: seq<string>, n: nat, a: nat, e: nat): (r: seq<seq<(nat, real)>>)
    requires a < |joints| && Known(joints, names, a + 1) && e <= |Pairs(joints[a].1)|
    ensures |r| == n && forall v :: 0 <= v < n ==> r[v] == RowAt(joints, names, v, a, e)
  {
    seq(n, v requires 0 <= v < n => RowAt(joints, names, v, a, e))
  }

  function SlotsAll(joints: Dict<string, JointData>, names: seq<string>, n: nat, a: nat): (r: seq<seq<(nat, real)>>)
    requires a <= |joints| && Known(joints, names, a)
    ensures |r| == n && forall v :: 0 <= v < n ==> r[v] == SlotsUpTo(joints, names, v, a)
  {
    seq(n, v requires 0 <= v < n => SlotsUpTo(joints, names, v, a))
  }

  lemma RowsAtStart(joints: Dict<string, JointData>, names: seq<string>, n: nat, a: nat)
    requires a < |joints| && Known(joints, names, a + 1)
    ensures RowsAt(joints, names, n, a, 0) == SlotsAll(joints, names, n, a)
  {
    assert Pairs(joints[a].1)[..0] == [];
    forall v | 0 <= v < n ensures RowAt(joints, names, v, a, 0) == SlotsUpTo(joints, names, v, a) {
      assert SlotsUpTo(joints, names, v, a) + [] == SlotsUpTo(joints, names, v, a);
    }
  }

  lemma RowsAtEnd(joints: Dict<string, JointData>, names: seq<string>, n: nat, a: nat)
    requires a < |joints| && Known(joints, names, a + 1)
    ensures RowsAt(joints, names, n, a, |Pairs(joints[a].1)|) == SlotsAll(joints, names, n, a + 1)
  {
    var pairs := Pairs(joints[a].1);
    assert pairs[..|pairs|] == pairs;
  }

  /** Entry e of joint a extends the row of its own vertex by one slot and leaves the other rows as they were. */
  lemma RowAtStep(joints: Dict<string, JointData>, names: seq<string>, v: nat, a: nat, e: nat)
    requires a < |joints| && Known(joints, names, a + 1) && e < |Pairs(joints[a].1)|
    ensures var (vi, w) := Pairs(joints[a].1)[e];
            RowAt(joints, names, v, a, e + 1)
            == if v == vi then RowAt(joints, names, v, a, e) + [(IndexOf(names, joints[a].0), w)]
               else RowAt(joints, names, v, a, e)
  {
    var pairs := Pairs(joints[a].1);
    var j := IndexOf(names, joints[a].0);
    var (vi, w) := pairs[e];
    var base := SlotsUpTo(joints, names, v, a);
    assert pairs[..e + 1][..e] == pairs[..e];
    assert EntriesFor(pairs[..e + 1], v, j) == EntriesFor(pairs[..e], v, j) + (if vi == v then [(j, w)] else []);
    assert base + (EntriesFor(pairs[..e], v, j) + [(j, w)]) == base + EntriesFor(pairs[..e], v, j) + [(j, w)];
    assert EntriesFor(pairs[..e], v, j) + [] == EntriesFor(pairs[..e], v, j);
  }

  lemma RowsAtStep(joints: Dict<string, JointData>, names: seq<string>, n: nat, a: nat, e: nat)
    requires a < |joints| && Known(joints, names, a + 1) && e < |Pairs(joints[a].1)|
    requires Pairs(joints[a].1)[e].0 < n
    ensures var (vi, w) := Pairs(joints[a].1)[e];
            var rows := RowsAt(joints, names, n, a, e);
            RowsAt(joints, names, n, a, e + 1) == rows[vi := rows[vi] + [(IndexOf(names, joints[a].0), w)]]
  {
    forall v | 0 <= v < n {
      RowAtStep(joints, names, v, a, e);
    }
  }

  lemma {:induction false} EntriesForPrefixLength(entries: seq<WeightEntry>, e: nat, v: nat, j: nat)
    requires e <= |entries|
    ensures |EntriesFor(entries[..e], v, j)| <= |EntriesFor(entries, v, j)|
  {
    if e < |entries| {
      var n := |entries|;
      assert entries[..n - 1][..e] == entries[..e];
      EntriesForPrefixLength(entries[..n - 1], e, v, j);
    } else {
      assert entries[..e] == entries;
    }
  }

  lemma {:induction false} SlotsUpToGrow(joints: Dict<string, JointData>, names: seq<string>, v: nat, a: nat, b: nat)
    requires a <= b <= |joints| && Known(joints, names, b)
    ensures |SlotsUpTo(joints, names, v, a)| <= |SlotsUpTo(joints, names, v, b)|
  {
    if a < b {
      SlotsUpToGrow(joints, names, v, a, b - 1);
    }
  }

  /** The entry e of joint a, naming vertex v, adds one slot to v beyond the row before it. */
  lemma SlotsPastRow(joints: Dict<string, JointData>, names: seq<string>, v: nat, a: nat, e: nat)
    requires a < |joints| && Known(joints, names, |joints|) && e < |Pairs(joints[a].1)|
    requires Pairs(joints[a].1)[e].0 == v
    ensures |RowAt(joints, names, v, a, e)| < |Slots(joints, names, v)|
  {
    var pairs := Pairs(joints[a].1);
    var j := IndexOf(names, joints[a].0);
    assert |EntriesFor(pairs[..e + 1], v, j)| == |EntriesFor(pairs[..e], v, j)| + 1 by {
      assert pairs[..e + 1][..e] == pairs[..e];
    }
    assert |EntriesFor(pairs[..e + 1], v, j)| <= |EntriesFor(pairs, v, j)| by {
      EntriesForPrefixLength(pairs, e + 1, v, j);
    }
    assert |SlotsUpTo(joints, names, v, a + 1)| <= |Slots(joints, names, v)| by {
      SlotsUpToGrow(joints, names, v, a + 1, |joints|);
    }
  }

  /** A vertex whose slots after joint a's first e + 1 entries exceed m has too many influences in the end. */
  lemma Overflow(joints: Dict<string, JointData>, names: seq<string>, n: nat, m: nat, v: nat, a: nat, e: nat)
    requires a < |joints| && Known(joints, names, a + 1) && e < |Pairs(joints[a].1)|
    requires Pairs(joints[a].1)[e].0 == v < n && |RowAt(joints, names, v, a, e)| >= m
    ensures !Fits(joints, names, n, m)
  {
    if Known(joints, names, |joints|) {
      SlotsPastRow(joints, names, v, a, e);
    }
  }

  /**
    The inner loop of calculate_influences for table entry a (joint index j):
    each entry (vertex, weight) takes the vertex's next free slot. An entry
    naming a vertex beyond the mesh, or a vertex whose slots are full, is an
    IndexError.
   */
  method AddJointInfluences(ind: array2<nat>, wts: array2<real>, counts: array<nat>,
                            joints: Dict<string, JointData>, names: seq<string>, n: nat, m: nat, a: nat, j: nat)
    returns (err: Option<HumanError>)
    requires a < |joints| && Known(joints, names, a + 1) && EntriesBelow(joints, n, a) && j == IndexOf(names, joints[a].0)
    requires Buffers(ind, wts, counts, n, m) && Rows(ind, wts, counts, SlotsAll(joints, names, n, a))
    modifies ind, wts, counts
    ensures err.Some? ==> !Fits(joints, names, n, m)
    ensures err.None? ==> EntriesBelow(joints, n, a + 1)
    ensures err.None? ==> Rows(ind, wts, counts, SlotsAll(joints, names, n, a + 1))
  {
    var pairs := Pairs(joints[a].1);
    RowsAtStart(joints, names, n, a);
    var e := 0;
    while e < |pairs|
      invariant 0 <= e <= |pairs|
      invariant forall q :: 0 <= q < e ==> pairs[q].0 < n
      invariant Rows(ind, wts, counts, RowsAt(joints, names, n, a, e))
    {
      var (vi, w) := pairs[e];
      if vi >= n {
        return Some(VertexOutOfRange(joints[a].0));
      }
      if counts[vi] >= m {
        assert RowHolds(ind, wts, counts, vi, RowsAt(joints, names, n, a, e)[vi]);
        Overflow(joints, names, n, m, vi, a, e);
        return Some(TooManyInfluences(vi));
      }
      RowsAtStep(joints, names, n, a, e);
      TakeSlot(ind, wts, counts, RowsAt(joints, names, n, a, e), vi, j, w);
      e := e + 1;
    }
    RowsAtEnd(joints, names, n, a);
    err := None;
  }

  /** No row of the buffers is longer than the buffers are wide. */
  lemma RowsFit(ind: array2<nat>, wts: array2<real>, counts: array<nat>, rows: seq<seq<(nat, real)>>)
    requires Rows(ind, wts, counts, rows)
    ensures forall v :: 0 <= v < |rows| ==> |rows[v]| <= ind.Length1
  {
    forall v | 0 <= v < |rows| ensures |rows[v]| <= ind.Length1 {
      assert RowHolds(ind, wts, counts, v, rows[v]);
    }
  }

  /** Flat position i of the buffers is slot i % m of row i / m. */
  lemma FlatSlot(ind: array2<nat>, wts: array2<real>, counts: array<nat>, rows: seq<seq<(nat, real)>>, i: nat)
    requires Rows(ind, wts, counts, rows) && i < |rows| * ind.Length1
    ensures ind.Length1 > 0 && i / ind.Length1 < |rows| && i % ind.Length1 < ind.Length1
    ensures ind[i / ind.Length1, i % ind.Length1] == SlotIndex(rows[i / ind.Length1], i % ind.Length1)
    ensures wts[i / ind.Length1, i % ind.Length1] == SlotWeight(rows[i / ind.Length1], i % ind.Length1)
  {
    FlatBounds(i, |rows|, ind.Length1);
    assert RowHolds(ind, wts, counts, i / ind.Length1, rows[i / ind.Length1]);
  }

  /**
    The loop of calculate_influences over the weight table: each joint's
    entries take the next free slots of their vertices' rows in fresh n by m
    buffers. A joint not in the joint list is a ValueError of list.index.
   */
  method FillBuffers(joints: Dict<string, JointData>, names: seq<string>, n: nat, m: nat)
    returns (ind: array2<nat>, wts: array2<real>, counts: array<nat>, err: Option<HumanError>)
    ensures fresh(ind) && fresh(wts) && fresh(counts)
    ensures err.Some? ==> !Fits(joints, names, n, m)
    ensures err.None? ==> Known(joints, names, |joints|) && EntriesBelow(joints, n, |joints|)
    ensures err.None? ==> Buffers(ind, wts, counts, n, m) && Rows(ind, wts, counts, SlotsAll(joints, names, n, |joints|))
  {
    ind := new nat[n, m]((_, _) => 0);
    wts := new real[n, m]((_, _) => 0.0);
    counts := new nat[n](_ => 0);
    var a := 0;
    while a < |joints|
      invariant 0 <= a <= |joints|
      invariant Buffers(ind, wts, counts, n, m)
      invariant Known(joints, names, a) && EntriesBelow(joints, n, a)
      invariant Rows(ind, wts, counts, SlotsAll(joints, names, n, a))
    {
      var joint := joints[a].0;
      if joint !in names {
        return ind, wts, counts, Some(UnknownJoint(joint));
      }
      var j := IndexOf(names, joint);
      err := AddJointInfluences(ind, wts, counts, joints, names, n, m, a, j);
      if err.Some? {
        return;
      }
      a := a + 1;
    }
    err := None;
  }

  /**
    calculate_influences: for every vertex, its joint influences take slots
    0, 1, ... of its row in table order then entry order; the joint index is
    the joint's position in the joint list. The n by m buffers are returned
    flattened row by row.
   */
  method CalculateInfluences(joints: Dict<string, JointData>, names: seq<string>, n: nat, m: nat)
    returns (r: Result<(seq<nat>, seq<real>), HumanError>)
    ensures r.Success? <==> Fits(joints, names, n, m)
    ensures r.Success? ==> |r.value.0| == |r.value.1| == n * m
    ensures r.Success? ==> forall i :: 0 <= i < n * m ==>
              && r.value.0[i] == SlotIndex(Slots(joints, names, i / m), i % m)
              && r.value.1[i] == SlotWeight(Slots(joints, names, i / m), i % m)
  {
    var ind, wts, counts, err := FillBuffers(joints, names, n, m);
    if err.Some? {
      return Failure(err.value);
    }
    ghost var rows := SlotsAll(joints, names, n, |joints|);
    assert Fits(joints, names, n, m) by {
      RowsFit(ind, wts, counts, rows);
    }
    var flatInd := seq(n * m, i requires 0 <= i < n * m reads ind => FlatBounds(i, n, m); ind[i / m, i % m]);
    var flatWts := seq(n * m, i requires 0 <= i < n * m reads wts => FlatBounds(i, n, m); wts[i / m, i % m]);
    forall i | 0 <= i < n * m
      ensures flatInd[i] == SlotIndex(Slots(joints, names, i / m), i % m)
      ensures flatWts[i] == SlotWeight(Slots(joints, names, i / m), i % m)
    {
      FlatSlot(ind, wts, counts, rows, i);
    }
    r := Success((flatInd, flatWts));
  }

  /**
    A slot holds (j, w) exactly when some table entry names a known joint at
    list position j that gives vertex v the weight w.
   */
  lemma {:induction false} SlotsExact(joints: Dict<string, JointData>, names: seq<string>, v: nat, a: nat, e: (nat, real))
    requires a <= |joints| && Known(joints, names, a)
    ensures e in SlotsUpTo(joints, names, v, a) <==> exists i :: 0 <= i < a && GivesSlot(joints, names, v, i, e)
  {
    if a > 0 {
      var k := a - 1;
      SlotsExact(joints, names, v, k, e);
      var own := EntriesFor(Pairs(joints[k].1), v, IndexOf(names, joints[k].0));
      assert e in own <==> GivesSlot(joints, names, v, k, e) by {
        EntriesForMembers(Pairs(joints[k].1), v, IndexOf(names, joints[k].0), e);
      }
      assert SlotsUpTo(joints, names, v, a) == SlotsUpTo(joints, names, v, k) + own;
      if e in SlotsUpTo(joints, names, v, a) {
        if e !in SlotsUpTo(joints, names, v, k) {
          assert GivesSlot(joints, names, v, k, e);
        }
      } else {
        forall i | 0 <= i < a
          ensures !GivesSlot(joints, names, v, i, e)
        {
        }
      }
    }
  }

  /** Joint i of the table names list position e.0 and gives vertex v the weight e.1. */
  predicate GivesSlot(joints: Dict<string, JointData>, names: seq<string>, v: nat, i: nat, e: (nat, real))
    requires i < |joints| && joints[i].0 in names
  {
    e.0 == IndexOf(names, joints[i].0) && (v, e.1) in Pairs(joints[i].1)
  }

  // ---------------------------------------------------------------------
  // import_meshes: the face loop

  /** Every masked face reaches the mask, has at least k vertex and uv indices, and has an uv face. */
  predicate Flattenable(fvert: seq<seq<nat>>, fuvs: seq<seq<nat>>, mask: seq<bool>, k: nat, upto: nat)
    requires upto <= |fvert|
  {
    && upto <= |mask|
    && forall f :: 0 <= f < upto && mask[f] ==> |fvert[f]| >= k && f < |fuvs| && |fuvs[f]| >= k
  }

  /** The first k indices of every masked face among the first `upto`, face after face. */
  function Kept(faces: seq<seq<nat>>, mask: seq<bool>, k: nat, upto: nat): seq<nat>
    requires upto <= |mask| && forall f :: 0 <= f < upto && mask[f] ==> f < |faces| && |faces[f]| >= k
  {
    if upto == 0 then []
    else Kept(faces, mask, k, upto - 1) + (if mask[upto - 1] then faces[upto - 1][..k] else [])
  }

  function MaskedCount(mask: seq<bool>, upto: nat): nat
    requires upto <= |mask|
  {
    if upto == 0 then 0 else MaskedCount(mask, upto - 1) + (if mask[upto - 1] then 1 else 0)
  }

  /** Each masked face contributes exactly k indices. */
  lemma {:induction false} KeptLength(faces: seq<seq<nat>>, mask: seq<bool>, k: nat, upto: nat)
    requires upto <= |mask| && forall f :: 0 <= f < upto && mask[f] ==> f < |faces| && |faces[f]| >= k
    ensures |Kept(faces, mask, k, upto)| == MaskedCount(mask, upto) * k
  {
    if upto > 0 {
      KeptLength(faces, mask, k, upto - 1);
    }
  }

  /** [k] * c */
  function Repeat(k: nat, c: nat): (r: seq<nat>)
    ensures |r| == c && forall i :: 0 <= i < c ==> r[i] == k
  {
    seq(c, _ => k)
  }

  /**
    The face loop of import_meshes: keeps the first k vertex and uv indices
    of every face whose mask entry is set, and the counts list of k per kept
    face (the length divided by k, a ZeroDivisionError when k is 0).
    Indexing a mask, face or uv face that is too short is an IndexError.
   */
  method FlattenFaces(fvert: seq<seq<nat>>, fuvs: seq<seq<nat>>, mask: seq<bool>, k: nat)
    returns (r: Result<(seq<nat>, seq<nat>, seq<nat>), HumanError>)
    ensures r.Success? <==> k > 0 && Flattenable(fvert, fuvs, mask, k, |fvert|)
    ensures r.Success? ==>
      && r.value.0 == Kept(fvert, mask, k, |fvert|)
      && r.value.1 == Kept(fuvs, mask, k, |fvert|)
      && r.value.2 == Repeat(k, MaskedCount(mask, |fvert|))
  {
    var verts: seq<nat> := [];
    var uvs: seq<nat> := [];
    var f := 0;
    while f < |fvert|
      invariant 0 <= f <= |fvert|
      invariant Flattenable(fvert, fuvs, mask, k, f)
      invariant verts == Kept(fvert, mask, k, f) && uvs == Kept(fuvs, mask, k, f)
    {
      if f >= |mask| {
        return Failure(MaskTooShort);
      }
      if mask[f] {
        if |fvert[f]| < k || f >= |fuvs| || |fuvs[f]| < k {
          return Failure(FaceTooShort(f));
        }
        verts := verts + fvert[f][..k];
        uvs := uvs + fuvs[f][..k];
      }
      f := f + 1;
    }
    if k == 0 {
      return Failure(NoPerFaceCount);
    }
    KeptLength(fvert, mask, k, |fvert|);
    var c := |verts| / k;
    DivUnique(|verts|, k, MaskedCount(mask, |fvert|), 0);
    r := Success((verts, uvs, Repeat(k, c)));
  }

  // ---------------------------------------------------------------------
  // write_properties

  datatype CustomValue = BoolValue(b: bool) | RealValue(r: real) | PathValue(s: string)

  /** A modifier as the human holds it: full name "group/name" and current value. */
  datatype ModifierSetting = ModifierSetting(fullName: string, value: real)

  /** A proxy: its type (possibly unset or empty), name and file. */
  datatype Proxy = Proxy(ptype: Option<string>, name: string, file: string)

  function ModifierKey(fullName: string): (k: string)
    ensures k == "Modifiers:" + fullName
  {
    "Modifiers:" + fullName
  }

  /** The proxy type, "proxymeshes" when unset or empty. */
  function ProxyType(p: Proxy): (t: string)
    ensures t != ""
    ensures p.ptype.Some? && p.ptype.value != "" ==> t == p.ptype.value
  {
    if p.ptype.Some? && p.ptype.value != "" then p.ptype.value else "proxymeshes"
  }

  /** "Proxies:type:name" for clothes and proxy meshes, "Proxies:type" for any other type. */
  function ProxyKey(p: Proxy): (k: string)
    ensures var t := ProxyType(p);
            k == if t == "clothes" || t == "proxymeshes" then "Proxies:" + t + ":" + p.name else "Proxies:" + t
  {
    var t := ProxyType(p);
    if t == "clothes" || t == "proxymeshes" then "Proxies:" + t + ":" + p.name else "Proxies:" + t
  }

  /** The assignment of one modifier's value. */
  function ModifierEntry(x: ModifierSetting): (string, CustomValue)
  {
    (ModifierKey(x.fullName), RealValue(x.value))
  }

  /** The assignment of one proxy's file. */
  function ProxyEntry(p: Proxy): (string, CustomValue)
  {
    (ProxyKey(p), PathValue(p.file))
  }

  function ModifierEntries(ms: seq<ModifierSetting>): (r: seq<(string, CustomValue)>)
    ensures |r| == |ms| && forall i :: 0 <= i < |ms| ==> r[i] == ModifierEntry(ms[i])
  {
    if |ms| == 0 then [] else ModifierEntries(ms[..|ms| - 1]) + [ModifierEntry(ms[|ms| - 1])]
  }

  function ProxyEntries(ps: seq<Proxy>): (r: seq<(string, CustomValue)>)
    ensures |r| == |ps| && forall i :: 0 <= i < |ps| ==> r[i] == ProxyEntry(ps[i])
  {
    if |ps| == 0 then [] else ProxyEntries(ps[..|ps| - 1]) + [ProxyEntry(ps[|ps| - 1])]
  }

  /** The custom-data assignments write_properties makes, in order. */
  function PropertyEntries(modifiers: seq<ModifierSetting>, proxies: seq<Proxy>): seq<(string, CustomValue)>
  {
    [("human", BoolValue(true))] + ModifierEntries(modifiers) + ProxyEntries(proxies)
  }

  lemma PutAllSnoc<K, V>(d: Dict<K, V>, kvs: seq<(K, V)>, x: (K, V))
    ensures PutAll(d, kvs + [x]) == Put(PutAll(d, kvs), x.0, x.1)
  {
    assert (kvs + [x])[..|kvs|] == kvs;
  }

  lemma ModifierEntriesSnoc(ms: seq<ModifierSetting>, i: nat)
    requires i < |ms|
    ensures ModifierEntries(ms[..i + 1]) == ModifierEntries(ms[..i]) + [ModifierEntry(ms[i])]
  {
    assert ms[..i + 1][..i] == ms[..i];
  }

  lemma ProxyEntriesSnoc(ps: seq<Proxy>, i: nat)
    requires i < |ps|
    ensures ProxyEntries(ps[..i + 1]) == ProxyEntries(ps[..i]) + [ProxyEntry(ps[i])]
  {
    assert ps[..i + 1][..i] == ps[..i];
  }

  /** The custom data after the human flag and the first i modifiers. */
  function ModifiersWritten(data: Dict<string, CustomValue>, modifiers: seq<ModifierSetting>, i: nat): Dict<string, CustomValue>
    requires i <= |modifiers|
  {
    PutAll(data, [("human", BoolValue(true))] + ModifierEntries(modifiers[..i]))
  }

  /** The custom data after the human flag, every modifier and the first i proxies. */
  function ProxiesWritten(data: Dict<string, CustomValue>, modifiers: seq<ModifierSetting>, proxies: seq<Proxy>, i: nat): Dict<string, CustomValue>
    requires i <= |proxies|
  {
    PutAll(data, [("human", BoolValue(true))] + ModifierEntries(modifiers) + ProxyEntries(proxies[..i]))
  }

  lemma HumanWritten(data: Dict<string, CustomValue>, modifiers: seq<ModifierSetting>)
    ensures ModifiersWritten(data, modifiers, 0) == Put(data, "human", BoolValue(true))
  {
    assert modifiers[..0] == [];
    assert [("human", BoolValue(true))] + ModifierEntries(modifiers[..0]) == [] + [("human", BoolValue(true))];
    PutAllSnoc(data, [], ("human", BoolValue(true)));
  }

  lemma ModifierStep(data: Dict<string, CustomValue>, modifiers: seq<ModifierSetting>, i: nat)
    requires i < |modifiers|
    ensures ModifiersWritten(data, modifiers, i + 1)
         == Put(ModifiersWritten(data, modifiers, i), ModifierEntry(modifiers[i]).0, ModifierEntry(modifiers[i]).1)
  {
    var h := [("human", BoolValue(true))];
    ModifierEntriesSnoc(modifiers, i);
    assert h + ModifierEntries(modifiers[..i + 1]) == (h + ModifierEntries(modifiers[..i])) + [ModifierEntry(modifiers[i])];
    PutAllSnoc(data, h + ModifierEntries(modifiers[..i]), ModifierEntry(modifiers[i]));
  }

  lemma ModifiersDone(data: Dict<string, CustomValue>, modifiers: seq<ModifierSetting>, proxies: seq<Proxy>)
    ensures ProxiesWritten(data, modifiers, proxies, 0) == ModifiersWritten(data, modifiers, |modifiers|)
  {
    assert modifiers[..|modifiers|] == modifiers;
    assert proxies[..0] == [];
    var h := [("human", BoolValue(true))];
    assert h + ModifierEntries(modifiers) + ProxyEntries(proxies[..0]) == h + ModifierEntries(modifiers);
  }

  lemma ProxyStep(data: Dict<string, CustomValue>, modifiers: seq<ModifierSetting>, proxies: seq<Proxy>, i: nat)
    requires i < |proxies|
    ensures ProxiesWritten(data, modifiers, proxies, i + 1)
         == Put(ProxiesWritten(data, modifiers, proxies, i), ProxyEntry(proxies[i]).0, ProxyEntry(proxies[i]).1)
  {
    var hm := [("human", BoolValue(true))] + ModifierEntries(modifiers);
    ProxyEntriesSnoc(proxies, i);
    assert hm + ProxyEntries(proxies[..i + 1]) == (hm + ProxyEntries(proxies[..i])) + [ProxyEntry(proxies[i])];
    PutAllSnoc(data, hm + ProxyEntries(proxies[..i]), ProxyEntry(proxies[i]));
  }

  lemma ProxiesDone(data: Dict<string, CustomValue>, modifiers: seq<ModifierSetting>, proxies: seq<Proxy>)
    ensures ProxiesWritten(data, modifiers, proxies, |proxies|) == PutAll(data, PropertyEntries(modifiers, proxies))
  {
    assert proxies[..|proxies|] == proxies;
  }

  /** write_properties: marks the prim as a human, then writes one key per modifier and per proxy. */
  method WriteProperties(data: Dict<string, CustomValue>, modifiers: seq<ModifierSetting>, proxies: seq<Proxy>)
    returns (r: Dict<string, CustomValue>)
    ensures r == PutAll(data, PropertyEntries(modifiers, proxies))
  {
    r := Put(data, "human", BoolValue(true));
    HumanWritten(data, modifiers);
    for i := 0 to |modifiers|
      invariant r == ModifiersWritten(data, modifiers, i)
    {
      ModifierStep(data, modifiers, i);
      r := Put(r, ModifierKey(modifiers[i].fullName), RealValue(modifiers[i].value));
    }
    ModifiersDone(data, modifiers, proxies);
    for i := 0 to |proxies|
      invariant r == ProxiesWritten(data, modifiers, proxies, i)
    {
      ProxyStep(data, modifiers, proxies, i);
      r := Put(r, ProxyKey(proxies[i]), PathValue(proxies[i].file));
    }
    ProxiesDone(data, modifiers, proxies);
  }

  /** Modifier keys and proxy keys never coincide, and neither is "human". */
  lemma KeysApart(fullName: string, p: Proxy)
    ensures ModifierKey(fullName) != ProxyKey(p)
    ensures ModifierKey(fullName) != "human" && ProxyKey(p) != "human"
  {
    assert ModifierKey(fullName)[0] == 'M' && ProxyKey(p)[0] == 'P';
  }

  /** Distinct full names give distinct modifier keys. */
  lemma ModifierKeyInjective(a: string, b: string)
    ensures ModifierKey(a) == ModifierKey(b) ==> a == b
  {
    assert ModifierKey(a)[10..] == a && ModifierKey(b)[10..] == b;
  }

  /**
    After write_properties, the key of a modifier holds the value of the last
    modifier with that full name: proxies never overwrite modifier keys.
   */
  lemma ModifierWritten(data: Dict<string, CustomValue>, modifiers: seq<ModifierSetting>, proxies: seq<Proxy>, i: nat)
    requires i < |modifiers| && forall j :: i < j < |modifiers| ==> modifiers[j].fullName != modifiers[i].fullName
    ensures Get(PutAll(data, PropertyEntries(modifiers, proxies)), ModifierKey(modifiers[i].fullName))
            == Some(RealValue(modifiers[i].value))
  {
    var ms := ModifierEntries(modifiers);
    var ps := ProxyEntries(proxies);
    var es := [("human", BoolValue(true))] + ms + ps;
    var k := ModifierKey(modifiers[i].fullName);
    forall q | 1 + i < q < |es| ensures es[q].0 != k {
      if q < 1 + |ms| {
        assert es[q] == ms[q - 1];
        ModifierKeyInjective(modifiers[q - 1].fullName, modifiers[i].fullName);
      } else {
        assert es[q] == ps[q - 1 - |ms|];
        KeysApart(modifiers[i].fullName, proxies[q - 1 - |ms|]);
      }
    }
    assert es[1 + i] == ms[i];
    LastValueAt(es, 1 + i, k);
    PutAllGet(data, es, k);
  }
}
