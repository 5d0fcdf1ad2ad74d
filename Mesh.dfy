/**
  load_obj: the group-wise reader of Wavefront OBJ text. Lines holding a
  "#" anywhere are dropped; the others are split on whitespace. "v" and "vt"
  records collect the global vertex and uv lists, "f" records collect the
  faces of the current group, and a "g" record closes the current group (when
  it has a name) and opens the next. The coordinates are kept as their tokens.
 */
module Mesh {
  import opened Wrappers
  import opened Text

  /** One group of the file: its name, the shared vertex and uv lists, its flat index lists and its per-face counts. */
  datatype MeshData = MeshData(
    name: string, vertices: seq<seq<string>>, uvs: seq<seq<string>>,
    vertIndices: seq<int>, uvIndices: seq<int>, nfaceVerts: seq<nat>)

  datatype ObjError =
    | EmptyLine             // ln[0] of a blank line: IndexError
    | FaceTooShort          // fewer than nPerFace tokens: ValueError
    | BadFaceToken(token: string)  // missing "/" part (IndexError) or not an integer (ValueError)
    | MissingGroupName      // ln[1] of a bare "g": IndexError

  // ---------------------------------------------------------------------
  // Lines to records

  /** The whitespace-split lines that hold no "#", in file order. */
  function Records(lines: seq<string>): (r: seq<seq<string>>)
    ensures |r| <= |lines|
  {
    if |lines| == 0 then []
    else (if '#' in lines[0] then [] else [Words(lines[0])]) + Records(lines[1..])
  }

  lemma {:induction false} RecordsConcat(a: seq<string>, b: seq<string>)
    ensures Records(a + b) == Records(a) + Records(b)
  {
    if |a| == 0 {
      assert a + b == b;
    } else {
      assert (a + b)[0] == a[0];
      assert (a + b)[1..] == a[1..] + b;
      RecordsConcat(a[1..], b);
    }
  }

  /** A line holding "#" contributes nothing, wherever it stands. */
  lemma CommentIgnored(a: seq<string>, x: string, b: seq<string>)
    requires '#' in x
    ensures Records(a + [x] + b) == Records(a + b)
  {
    RecordsConcat(a + [x], b);
    RecordsConcat(a, [x]);
    RecordsConcat(a, b);
    assert [x][1..] == [];
  }

  /** A line free of "#" contributes its whitespace-separated tokens. */
  lemma PlainLineKept(a: seq<string>, x: string, b: seq<string>)
    requires '#' !in x
    ensures Records(a + [x] + b) == Records(a) + [Words(x)] + Records(b)
  {
    RecordsConcat(a + [x], b);
    RecordsConcat(a, [x]);
    assert [x][1..] == [];
  }

  // ---------------------------------------------------------------------
  // Face tokens

  /** "a/b..." becomes the 0-based vertex index int(a) - 1 and uv index int(b) - 1. */
  function FaceToken(t: string): Result<(int, int), ObjError>
  {
    var parts := Split(t, '/');
    if |parts| < 2 then Failure(BadFaceToken(t))
    else
      var a := ParseInt(parts[0]);
      var b := ParseInt(parts[1]);
      if a.None? || b.None? then Failure(BadFaceToken(t))
      else Success((a.value - 1, b.value - 1))
  }

  /** A token without "/" has no uv part. */
  lemma NoSlashFails(t: string)
    requires '/' !in t
    ensures FaceToken(t).Failure?
  {
    SplitNoSep(t, '/');
  }

  lemma DigitsNoSlash(s: string)
    requires AllDigits(s)
    ensures '/' !in s
  {
  }

  lemma SplitTwo(a: string, b: string)
    requires '/' !in a && '/' !in b
    ensures |Split(a + "/" + b, '/')| >= 2
    ensures Split(a + "/" + b, '/')[0] == a && Split(a + "/" + b, '/')[1] == b
  {
    assert a + "/" + b == a + ['/'] + b;
    SplitAppend(a, b, '/');
    SplitNoSep(b, '/');
  }

  lemma SplitThree(a: string, b: string, c: string)
    requires '/' !in a && '/' !in b
    ensures |Split(a + "/" + b + "/" + c, '/')| >= 2
    ensures Split(a + "/" + b + "/" + c, '/')[0] == a && Split(a + "/" + b + "/" + c, '/')[1] == b
  {
    assert a + "/" + b + "/" + c == a + ['/'] + (b + ['/'] + c);
    SplitAppend(a, b + ['/'] + c, '/');
    SplitAppend(b, c, '/');
  }

  /** A token "a/b" of decimal digits a and b is read as (a - 1, b - 1). */
  lemma FaceTokenDigits(a: string, b: string)
    requires AllDigits(a) && AllDigits(b)
    ensures FaceToken(a + "/" + b) == Success((DigitsValue(a) - 1, DigitsValue(b) - 1))
  {
    DigitsNoSlash(a);
    DigitsNoSlash(b);
    SplitTwo(a, b);
    FaceTokenParts(a + "/" + b, a, b);
  }

  lemma FaceTokenParts(t: string, a: string, b: string)
    requires |Split(t, '/')| >= 2 && Split(t, '/')[0] == a && Split(t, '/')[1] == b
    requires AllDigits(a) && AllDigits(b)
    ensures FaceToken(t) == Success((DigitsValue(a) - 1, DigitsValue(b) - 1))
  {
  }

  /** A normal part after a second "/" is ignored. */
  lemma FaceTokenWithNormal(a: string, b: string, c: string)
    requires AllDigits(a) && AllDigits(b)
    ensures FaceToken(a + "/" + b + "/" + c) == Success((DigitsValue(a) - 1, DigitsValue(b) - 1))
  {
    DigitsNoSlash(a);
    DigitsNoSlash(b);
    SplitThree(a, b, c);
    FaceTokenParts(a + "/" + b + "/" + c, a, b);
  }

  /** The index pairs of one face, token by token. */
  function FlattenFace(face: seq<string>): (r: Result<(seq<int>, seq<int>), ObjError>)
    ensures r.Success? <==> forall q :: 0 <= q < |face| ==> FaceToken(face[q]).Success?
    ensures r.Success? ==> |r.value.0| == |r.value.1| == |face|
    ensures r.Success? ==> forall q :: 0 <= q < |face| ==> (r.value.0[q], r.value.1[q]) == FaceToken(face[q]).value
  {
    if |face| == 0 then Success(([], []))
    else
      var n := |face|;
      var init := face[..n - 1];
      assert forall q :: 0 <= q < n - 1 ==> init[q] == face[q];
      var p := FlattenFace(init);
      if p.Failure? then p
      else
        var t := FaceToken(face[n - 1]);
        if t.Failure? then Failure(t.error)
        else Success((p.value.0 + [t.value.0], p.value.1 + [t.value.1]))
  }

  function TotalLength(faces: seq<seq<string>>): nat
  {
    if |faces| == 0 then 0 else TotalLength(faces[..|faces| - 1]) + |faces[|faces| - 1]|
  }

  /** The flat index lists of a group's faces, face after face. */
  function FlattenFaces(faces: seq<seq<string>>): (r: Result<(seq<int>, seq<int>), ObjError>)
    ensures r.Success? ==> |r.value.0| == |r.value.1| == TotalLength(faces)
  {
    if |faces| == 0 then Success(([], []))
    else
      var p := FlattenFaces(faces[..|faces| - 1]);
      if p.Failure? then p
      else
        var q := FlattenFace(faces[|faces| - 1]);
        if q.Failure? then q
        else Success((p.value.0 + q.value.0, p.value.1 + q.value.1))
  }

  /** The flattening succeeds exactly when every token of every face is well formed. */
  lemma {:induction false} FlattenFacesOk(faces: seq<seq<string>>)
    ensures FlattenFaces(faces).Success? <==>
            forall f, q :: 0 <= f < |faces| && 0 <= q < |faces[f]| ==> FaceToken(faces[f][q]).Success?
  {
    if |faces| > 0 {
      var n := |faces|;
      FlattenFacesOk(faces[..n - 1]);
      assert forall f :: 0 <= f < n - 1 ==> faces[..n - 1][f] == faces[f];
    }
  }

  function SumNat(xs: seq<nat>): nat
  {
    if |xs| == 0 then 0 else SumNat(xs[..|xs| - 1]) + xs[|xs| - 1]
  }

  /** When every face has as many tokens as its count says, the counts add up to the flattened length. */
  lemma {:induction false} TotalIsSum(faces: seq<seq<string>>, counts: seq<nat>)
    requires |faces| == |counts| && forall f :: 0 <= f < |faces| ==> |faces[f]| == counts[f]
    ensures TotalLength(faces) == SumNat(counts)
  {
    if |faces| > 0 {
      var n := |faces|;
      TotalIsSum(faces[..n - 1], counts[..n - 1]);
    }
  }

  /** The inner loop of the "g" branch for one face: appends its indices to the lists built so far. */
  method AppendFace(face: seq<string>, vi: seq<int>, ui: seq<int>) returns (r: Result<(seq<int>, seq<int>), ObjError>)
    ensures FlattenFace(face).Failure? ==> r == Failure(FlattenFace(face).error)
    ensures FlattenFace(face).Success? ==> r == Success((vi + FlattenFace(face).value.0, ui + FlattenFace(face).value.1))
  {
    var vs := vi;
    var us := ui;
    for q := 0 to |face|
      invariant FlattenFace(face[..q]).Success?
      invariant vs == vi + FlattenFace(face[..q]).value.0 && us == ui + FlattenFace(face[..q]).value.1
    {
      assert face[..q + 1][..q] == face[..q];
      var t := FaceToken(face[q]);
      if t.Failure? {
        FlattenFacePrefix(face, q + 1);
        return Failure(t.error);
      }
      vs := vs + [t.value.0];
      us := us + [t.value.1];
    }
    assert face[..|face|] == face;
    r := Success((vs, us));
  }

  /** A failing prefix of a face makes the whole face fail with the same error. */
  lemma {:induction false} FlattenFacePrefix(face: seq<string>, q: nat)
    requires q <= |face| && FlattenFace(face[..q]).Failure?
    ensures FlattenFace(face) == FlattenFace(face[..q])
  {
    if q < |face| {
      var n := |face|;
      assert FlattenFace(face[..n - 1]) == FlattenFace(face[..q]) by {
        assert face[..n - 1][..q] == face[..q];
        FlattenFacePrefix(face[..n - 1], q);
      }
      FlattenFaceInitFails(face);
    } else {
      assert face[..q] == face;
    }
  }

  /** A list of faces whose faces before the last already fail fails with their error. */
  lemma FlattenFacesInitFails(faces: seq<seq<string>>)
    requires |faces| > 0 && FlattenFaces(faces[..|faces| - 1]).Failure?
    ensures FlattenFaces(faces) == FlattenFaces(faces[..|faces| - 1])
  {
  }

  /** A face whose tokens before the last already fail fails with their error. */
  lemma FlattenFaceInitFails(face: seq<string>)
    requires |face| > 0 && FlattenFace(face[..|face| - 1]).Failure?
    ensures FlattenFace(face) == FlattenFace(face[..|face| - 1])
  {
  }

  /** The "g" branch's flush: the indices of every face of the group, in order. */
  method FlushGroup(faces: seq<seq<string>>) returns (r: Result<(seq<int>, seq<int>), ObjError>)
    ensures r == FlattenFaces(faces)
  {
    var vi: seq<int> := [];
    var ui: seq<int> := [];
    for f := 0 to |faces|
      invariant FlattenFaces(faces[..f]) == Success((vi, ui))
    {
      assert faces[..f + 1][..f] == faces[..f];
      var p := AppendFace(faces[f], vi, ui);
      if p.Failure? {
        FlattenFacesPrefix(faces, f + 1);
        return p;
      }
      vi, ui := p.value.0, p.value.1;
    }
    assert faces[..|faces|] == faces;
    r := Success((vi, ui));
  }

  lemma {:induction false} FlattenFacesPrefix(faces: seq<seq<string>>, f: nat)
    requires f <= |faces| && FlattenFaces(faces[..f]).Failure?
    ensures FlattenFaces(faces) == FlattenFaces(faces[..f])
  {
    if f < |faces| {
      var n := |faces|;
      assert FlattenFaces(faces[..n - 1]) == FlattenFaces(faces[..f]) by {
        assert faces[..n - 1][..f] == faces[..f];
        FlattenFacesPrefix(faces[..n - 1], f);
      }
      FlattenFacesInitFails(faces);
    } else {
      assert faces[..f] == faces;
    }
  }

  // ---------------------------------------------------------------------
  // The record loop

  /** The loop variables of load_obj. */
  datatype ObjState = ObjState(
    vertices: seq<seq<string>>, uvs: seq<seq<string>>, meshes: seq<MeshData>,
    group: string, faces: seq<seq<string>>, nfaceVerts: seq<nat>)

  const Start := ObjState([], [], [], "", [], [])

  /** `if nPerFace:` -- None and 0 both mean "keep every vertex". */
  predicate PerFace(nPerFace: Option<nat>)
  {
    nPerFace.Some? && nPerFace.value > 0
  }

  /** One pass of the loop body on record ln. */
  function Step(st: ObjState, ln: seq<string>, nPerFace: Option<nat>, ident: string -> string): Result<ObjState, ObjError>
  {
    if |ln| == 0 then Failure(EmptyLine)
    else if ln[0] == "v" then Success(st.(vertices := st.vertices + [ln[1..]]))
    else if ln[0] == "vt" then Success(st.(uvs := st.uvs + [ln[1..]]))
    else if ln[0] == "f" then
      if PerFace(nPerFace) then
        if nPerFace.value > |ln| - 1 then Failure(FaceTooShort)
        else Success(st.(faces := st.faces + [ln[1..nPerFace.value + 1]], nfaceVerts := st.nfaceVerts + [nPerFace.value]))
      else Success(st.(faces := st.faces + [ln[1..]], nfaceVerts := st.nfaceVerts + [|ln| - 1]))
    else if ln[0] == "g" then
      var flushed := if st.group != "" then FlattenFaces(st.faces) else Success(([], []));
      if flushed.Failure? then Failure(flushed.error)
      else
        var meshes := if st.group != "" then
                        st.meshes + [MeshData(st.group, [], [], flushed.value.0, flushed.value.1, st.nfaceVerts)]
                      else st.meshes;
        if |ln| < 2 then Failure(MissingGroupName)
        else Success(ObjState(st.vertices, st.uvs, meshes, ident(ln[1]), [], []))
    else Success(st)
  }

  function Run(recs: seq<seq<string>>, nPerFace: Option<nat>, ident: string -> string): Result<ObjState, ObjError>
  {
    if |recs| == 0 then Success(Start)
    else
      var p := Run(recs[..|recs| - 1], nPerFace, ident);
      if p.Failure? then p else Step(p.value, recs[|recs| - 1], nPerFace, ident)
  }

  /** Every mesh gets the global vertex and uv lists. */
  function Share(meshes: seq<MeshData>, vertices: seq<seq<string>>, uvs: seq<seq<string>>): (r: seq<MeshData>)
    ensures |r| == |meshes| && forall j :: 0 <= j < |meshes| ==> r[j] == meshes[j].(vertices := vertices, uvs := uvs)
  {
    seq(|meshes|, j requires 0 <= j < |meshes| => meshes[j].(vertices := vertices, uvs := uvs))
  }

  /** What load_obj returns for the lines of a file. */
  function Load(lines: seq<string>, nPerFace: Option<nat>, ident: string -> string): Result<seq<MeshData>, ObjError>
  {
    var r := Run(Records(lines), nPerFace, ident);
    if r.Failure? then Failure(r.error) else Success(Share(r.value.meshes, r.value.vertices, r.value.uvs))
  }

  lemma RunNext(recs: seq<seq<string>>, i: nat, nPerFace: Option<nat>, ident: string -> string)
    requires i < |recs| && Run(recs[..i], nPerFace, ident).Success?
    ensures Run(recs[..i + 1], nPerFace, ident) == Step(Run(recs[..i], nPerFace, ident).value, recs[i], nPerFace, ident)
  {
    assert recs[..i + 1][..i] == recs[..i];
  }

  lemma {:induction false} RunFailurePersists(recs: seq<seq<string>>, i: nat, nPerFace: Option<nat>, ident: string -> string)
    requires i <= |recs| && Run(recs[..i], nPerFace, ident).Failure?
    ensures Run(recs, nPerFace, ident) == Run(recs[..i], nPerFace, ident)
  {
    if i < |recs| {
      var n := |recs|;
      assert recs[..n - 1][..i] == recs[..i];
      RunFailurePersists(recs[..n - 1], i, nPerFace, ident);
    } else {
      assert recs[..i] == recs;
    }
  }

  /** The "g" branch of the loop body; `meshes` and the other results are the loop variables afterwards. */
  method CloseGroup(st: ObjState, ln: seq<string>, nPerFace: Option<nat>, ident: string -> string)
    returns (r: Result<ObjState, ObjError>)
    requires |ln| > 0 && ln[0] == "g"
    ensures r == Step(st, ln, nPerFace, ident)
  {
    var meshes := st.meshes;
    if st.group != "" {
      var flushed := FlushGroup(st.faces);
      if flushed.Failure? {
        return Failure(flushed.error);
      }
      meshes := meshes + [MeshData(st.group, [], [], flushed.value.0, flushed.value.1, st.nfaceVerts)];
    }
    if |ln| < 2 {
      return Failure(MissingGroupName);
    }
    r := Success(ObjState(st.vertices, st.uvs, meshes, ident(ln[1]), [], []));
  }

  /**
    load_obj(lines, nPerFace): the meshes of every group closed by a later
    "g" record, each carrying the global vertex and uv lists.
   */
  method LoadObj(lines: seq<string>, nPerFace: Option<nat>, ident: string -> string)
    returns (r: Result<seq<MeshData>, ObjError>)
    ensures r == Load(lines, nPerFace, ident)
  {
    var recs := Records(lines);
    var st := Start;
    for i := 0 to |recs|
      invariant Run(recs[..i], nPerFace, ident) == Success(st)
    {
      RunNext(recs, i, nPerFace, ident);
      var ln := recs[i];
      var next: Result<ObjState, ObjError>;
      if |ln| == 0 {
        next := Failure(EmptyLine);
      } else if ln[0] == "v" {
        next := Success(st.(vertices := st.vertices + [ln[1..]]));
      } else if ln[0] == "vt" {
        next := Success(st.(uvs := st.uvs + [ln[1..]]));
      } else if ln[0] == "f" {
        if PerFace(nPerFace) {
          if nPerFace.value > |ln| - 1 {
            next := Failure(FaceTooShort);
          } else {
            next := Success(st.(faces := st.faces + [ln[1..nPerFace.value + 1]],
                                nfaceVerts := st.nfaceVerts + [nPerFace.value]));
          }
        } else {
          next := Success(st.(faces := st.faces + [ln[1..]], nfaceVerts := st.nfaceVerts + [|ln| - 1]));
        }
      } else if ln[0] == "g" {
        next := CloseGroup(st, ln, nPerFace, ident);
      } else {
        next := Success(st);
      }
      assert next == Step(st, ln, nPerFace, ident);
      if next.Failure? {
        RunFailurePersists(recs, i + 1, nPerFace, ident);
        return Failure(next.error);
      }
      st := next.value;
    }
    assert recs[..|recs|] == recs;
    var meshes := ShareAll(st.meshes, st.vertices, st.uvs);
    r := Success(meshes);
  }

  /** The closing loop of load_obj: every mesh gets the global vertex and uv lists. */
  method ShareAll(meshes: seq<MeshData>, vertices: seq<seq<string>>, uvs: seq<seq<string>>) returns (r: seq<MeshData>)
    ensures r == Share(meshes, vertices, uvs)
  {
    r := meshes;
    for j := 0 to |r|
      invariant |r| == |meshes|
      invariant forall q :: 0 <= q < j ==> r[q] == meshes[q].(vertices := vertices, uvs := uvs)
      invariant forall q :: j <= q < |r| ==> r[q] == meshes[q]
    {
      r := r[j := r[j].(vertices := vertices, uvs := uvs)];
    }
  }

  // ---------------------------------------------------------------------
  // Properties of the loop

  /** The per-face counts of one mesh add up to the length of both index lists. */
  predicate Balanced(m: MeshData)
  {
    |m.vertIndices| == |m.uvIndices| == SumNat(m.nfaceVerts)
  }

  /** What every loop state satisfies. */
  predicate Inv(st: ObjState, nPerFace: Option<nat>)
  {
    && |st.faces| == |st.nfaceVerts|
    && (forall f :: 0 <= f < |st.faces| ==> |st.faces[f]| == st.nfaceVerts[f])
    && (PerFace(nPerFace) ==> forall f :: 0 <= f < |st.nfaceVerts| ==> st.nfaceVerts[f] == nPerFace.value)
    && (forall j :: 0 <= j < |st.meshes| ==> Balanced(st.meshes[j]) && st.meshes[j].name != "")
    && (PerFace(nPerFace) ==> forall j, f :: 0 <= j < |st.meshes| && 0 <= f < |st.meshes[j].nfaceVerts| ==>
                               st.meshes[j].nfaceVerts[f] == nPerFace.value)
  }

  lemma StepInv(st: ObjState, ln: seq<string>, nPerFace: Option<nat>, ident: string -> string)
    requires Inv(st, nPerFace) && Step(st, ln, nPerFace, ident).Success?
    ensures Inv(Step(st, ln, nPerFace, ident).value, nPerFace)
  {
    if ln[0] == "g" && st.group != "" {
      TotalIsSum(st.faces, st.nfaceVerts);
    }
  }

  lemma {:induction false} RunInv(recs: seq<seq<string>>, nPerFace: Option<nat>, ident: string -> string)
    requires Run(recs, nPerFace, ident).Success?
    ensures Inv(Run(recs, nPerFace, ident).value, nPerFace)
  {
    if |recs| > 0 {
      RunInv(recs[..|recs| - 1], nPerFace, ident);
      StepInv(Run(recs[..|recs| - 1], nPerFace, ident).value, recs[|recs| - 1], nPerFace, ident);
    }
  }

  /**
    Every returned mesh has as many vertex indices as uv indices, as many as
    its face counts add up to; every count is nPerFace when it is set; and
    every mesh is named.
   */
  lemma LoadBalanced(lines: seq<string>, nPerFace: Option<nat>, ident: string -> string, j: nat)
    requires Load(lines, nPerFace, ident).Success? && j < |Load(lines, nPerFace, ident).value|
    ensures var m := Load(lines, nPerFace, ident).value[j];
            Balanced(m) && m.name != "" &&
            (PerFace(nPerFace) ==> forall f :: 0 <= f < |m.nfaceVerts| ==> m.nfaceVerts[f] == nPerFace.value)
  {
    RunInv(Records(lines), nPerFace, ident);
  }

  /** The tails of the records that start with tag, in order. */
  function Tails(recs: seq<seq<string>>, tag: string): seq<seq<string>>
  {
    if |recs| == 0 then []
    else
      var last := recs[|recs| - 1];
      Tails(recs[..|recs| - 1], tag) + (if |last| > 0 && last[0] == tag then [last[1..]] else [])
  }

  /** The vertex list is the "v" records' tokens and the uv list the "vt" records' tokens, in file order. */
  lemma {:induction false} RunGlobals(recs: seq<seq<string>>, nPerFace: Option<nat>, ident: string -> string)
    requires Run(recs, nPerFace, ident).Success?
    ensures Run(recs, nPerFace, ident).value.vertices == Tails(recs, "v")
    ensures Run(recs, nPerFace, ident).value.uvs == Tails(recs, "vt")
  {
    if |recs| > 0 {
      RunGlobals(recs[..|recs| - 1], nPerFace, ident);
    }
  }

  /** Every returned mesh shares the global vertex and uv lists. */
  lemma LoadShares(lines: seq<string>, nPerFace: Option<nat>, ident: string -> string, j: nat)
    requires Load(lines, nPerFace, ident).Success? && j < |Load(lines, nPerFace, ident).value|
    ensures Load(lines, nPerFace, ident).value[j].vertices == Tails(Records(lines), "v")
    ensures Load(lines, nPerFace, ident).value[j].uvs == Tails(Records(lines), "vt")
  {
    RunGlobals(Records(lines), nPerFace, ident);
  }

  /** The number of "g" records. */
  function GroupCount(recs: seq<seq<string>>): nat
  {
    if |recs| == 0 then 0
    else
      var last := recs[|recs| - 1];
      GroupCount(recs[..|recs| - 1]) + (if |last| > 0 && last[0] == "g" then 1 else 0)
  }

  /**
    When no group name sanitises to the empty string, every "g" record but
    the first closes one group: the faces before the first "g" and the whole
    last group are never returned.
   */
  lemma {:induction false} MeshCount(recs: seq<seq<string>>, nPerFace: Option<nat>, ident: string -> string)
    requires forall s :: ident(s) != ""
    requires Run(recs, nPerFace, ident).Success?
    ensures |Run(recs, nPerFace, ident).value.meshes| == if GroupCount(recs) == 0 then 0 else GroupCount(recs) - 1
    ensures Run(recs, nPerFace, ident).value.group != "" <==> GroupCount(recs) > 0
  {
    if |recs| > 0 {
      MeshCount(recs[..|recs| - 1], nPerFace, ident);
    }
  }

  /** A record other than "g" never adds a mesh: nothing is emitted after the last "g". */
  lemma OnlyGroupRecordsEmit(st: ObjState, ln: seq<string>, nPerFace: Option<nat>, ident: string -> string)
    requires Step(st, ln, nPerFace, ident).Success? && ln[0] != "g"
    ensures Step(st, ln, nPerFace, ident).value.meshes == st.meshes
    ensures Step(st, ln, nPerFace, ident).value.group == st.group
  {
  }

  /**
    A "g" record after a named group emits that group's faces, flattened, with
    their counts, and starts the next group with no faces and the sanitised name.
   */
  lemma GroupRecordEmits(st: ObjState, ln: seq<string>, nPerFace: Option<nat>, ident: string -> string)
    requires Step(st, ln, nPerFace, ident).Success? && ln[0] == "g" && st.group != ""
    ensures var next := Step(st, ln, nPerFace, ident).value;
            var flat := FlattenFaces(st.faces);
            && flat.Success?
            && next.meshes == st.meshes + [MeshData(st.group, [], [], flat.value.0, flat.value.1, st.nfaceVerts)]
            && next.faces == [] && next.nfaceVerts == [] && next.group == ident(ln[1])
  {
  }
}
