# MakeHuman rig and morph-target pipeline, modelled in Dafny

This project models the core of the MakeHuman extensions for Omniverse
(`siborg.create.human` and `omni.makehuman`): the code that turns a MakeHuman
rig, mesh and target set into the data of a USD skinned character.

Every USD, file and UI call is removed from the model. The parts modelled are:

- **Skeleton construction** (`scripts/buildusd/skeletons.py`):
  - the recursive bone tree (`build_tree`);
  - the breadth-first joint layout from the last root (`create_skeleton`);
  - the translation-only rest and bind transforms (`compute_transforms`);
  - the dense, padded, normalised skin weights (`vertices_to_weights`).

  `scripts/buildusd/skeleton.py` is a byte-identical copy of this file, so the one model covers both.
- **Influence packing, face filtering and the custom-data key scheme** of the human prim (`siborg/create/human/human.py`).
- **The OBJ group parser** `load_obj` (`scripts/buildusd/mesh.py`).
- **Modifier records** and their grouping (`scripts/buildusd/modifiers.py` and the `TargetModifier` / `import_modifiers` of `scripts/buildusd/targets.py`).
- **Target import** (`targets.py`):
  - target-name derivation from the directory layout;
  - reading the delta table;
  - binding to meshes by index range;
  - the duplicate-free blend-shape list;
  - the `.target` file filter.
- **Macro-target weighting** (`siborg/create/human/modifiers.py`, and its values-driven variant in `scripts/buildusd/macrotargets.py`):
  - piecewise-linear part weights;
  - composite filenames and weights;
  - normalisation.

  The two files share `compose_filenames` and `normalize_weights` line for line (macrotargets.py:28-57 and modifiers.py:42-71), and the same members model both.
- **Skeletal-target separation** (`scripts/separate_skeltargets.py`):
  - joint transforms from deformed points;
  - the joint arrays fed to the skinning;
  - the sparse offset correction of `separate_blendshape`.
- **Joint path traversal** in `omni/makehuman/mh_usd.py`: `sanitize` and the pre-order `get_joint_data`.

## Conventions of the model

- **Numbers.** Floating-point numbers are `real`. Vertex, joint and face indices are `nat`, except where the source reads them as signed integers (OBJ tokens, target-file indices).
- **Dicts.**
  - A Python `dict` whose iteration order matters is `Dicts.Dict<K, V>`: a sequence of pairs in insertion order. `Put` overwrites in place or appends.
  - A lookup-only dict is a Dafny `map`.
- **Errors.**
  - Exceptions (`KeyError`, `IndexError`, `ValueError`, `NameError`) are the `Failure` case of a `Result`.
  - An early `return` without a value is `Success(None)`.
- **Foreign calls** become parameters:
  - `Tf.MakeValidIdentifier` is a function parameter `ident`, whose character rules are not modelled.
  - USD's deformation and skinning are the function parameters `Deformer` and `Skinner`, which may fail.
  - USD node matrices are input fields of the joint tree.
- **Code that changes state in place stays imperative.** Examples:
  - `calculate_influences` fills `array2` buffers;
  - mesh binding updates an `array` of blend-shape lists;
  - the skeltarget joint arrays are `array`s;
  - `get_joint_data` appends to the fields of a `SkelData` object;
  - `separate_blendshape` overwrites the fields of a `BlendShape` object.

  Each such method is proved against a specification function, and the properties are proved about that function.

## Model

| member | source | states |
|---|---|---|
| `Skeleton.ChildSpecs` | exts/siborg.create.human/scripts/buildusd/skeletons.py:153-155 | the children collected for a node are exactly the bone records whose parent is that node, and no more than the table holds |
| `Skeleton.BuildTree` | exts/siborg.create.human/scripts/buildusd/skeletons.py:150-167 | the built level matches the child records position by position: name, parent, head and tail are copied; the head and tail vertex groups are looked up in the joints table; the sub-tree is built from the child's own children; the weights default to []. A head or tail group missing from the joints table is a failure (KeyError) |
| `Skeleton.BuildTreeSucceeds` | exts/siborg.create.human/scripts/buildusd/skeletons.py:150-167 | on a rig whose parent links admit a ranking that falls from parent to child (no cycle) and whose head and tail groups are all in the joints table, building from a node succeeds once the fuel exceeds the rank of each of the node's children |
| `Skeleton.BuildLevelSucceeds` | exts/siborg.create.human/scripts/buildusd/skeletons.py:159-166 | under the same conditions, every child record of rank at most the fuel gets its sub-tree, so the whole level is built |
| `Skeleton.RigBuilds` | exts/siborg.create.human/scripts/buildusd/skeletons.py:147 | building from the roots succeeds on such a rig when the fuel exceeds every bone's rank |
| `Skeleton.BuildTreeCoversChildren` | exts/siborg.create.human/scripts/buildusd/skeletons.py:153-166 | every bone whose parent is the node appears at the top level of the result, with its looked-up fields |
| `Skeleton.ComputeTransforms` | exts/siborg.create.human/scripts/buildusd/skeletons.py:91-106 | both matrices are pure translations; the bind translation times the vertex count is the vertex sum (the centroid); without parent vertices the rest equals the bind; with them, rest translation + parent centroid = bind translation |
| `Skeleton.BindComposes` | exts/siborg.create.human/scripts/buildusd/skeletons.py:76-81 | when the parent's bind was computed from the parent's own head group, a child's bind translation is the parent's bind translation plus the child's rest translation |
| `SkeletonWalk.LastRoot` | exts/siborg.create.human/scripts/buildusd/skeletons.py:44 | the chosen root has no parent and every later bone has one; no root exists only when every bone has a parent |
| `SkeletonWalk.CreateSkeleton` | exts/siborg.create.human/scripts/buildusd/skeletons.py:36-88 | the skeleton has no root iff no bone lacks a parent. When every head group is valid, the walk succeeds. On success: the four joint lists have one entry per joint. Joint 0 is the root, with its raw name as its path and its whole-mesh transforms. Every later joint is a child of an earlier joint, with path = parent path + "/" + ident(name) and transforms computed from its head group relative to its parent's. The joints are in breadth-first order, and no name after the root repeats. A name that recurs in the tree is laid out at its first breadth-first occurrence: no child of an earlier joint, and no earlier sibling, bears a later joint's name. The helper map sends each path to the head group of the last joint with that path. Every child of every laid-out joint has been visited |
| `SkeletonWalk.VisitChildren` | exts/siborg.create.human/scripts/buildusd/skeletons.py:66-81 | the inner loop over one bone's children keeps the layout invariant, visits only unvisited names, and fails only when some head group of the tree is invalid |
| `SkeletonWalk.ChildBindComposes` | exts/siborg.create.human/scripts/buildusd/skeletons.py:76-81 | for a joint whose parent is not the root, bind translation = parent's bind translation + own rest translation |
| `SkeletonWalk.RootBindBreaksComposition` | exts/siborg.create.human/scripts/buildusd/skeletons.py:53-56 | take a two-vertex mesh (0,0,0), (0,1,0), with the root's head at vertex 0 and a child's head at vertex 1. The root's bind translation is the whole-mesh centroid (0,0.5,0). The child's bind translation is (0,1,0), which differs from the root bind plus the child's rest: the composition above fails for children of the root |
| `SkinWeights.VerticesToWeights` | exts/siborg.create.human/scripts/buildusd/skeletons.py:109-132 | the result fails iff the mesh has no vertices (max of an empty sequence) or an entry names a vertex out of range. On success: one index row and one weight row per vertex, all of the maximal influence count. Each row holds that vertex's influences (joint position in the name list, weight), then zero padding, and each weight row is divided by its sum so it sums to 1. When no vertex has any weight, the width is 0 and every row is empty |
| `SkinWeights.CollectInfluences` | exts/siborg.create.human/scripts/buildusd/skeletons.py:116-125 | fails iff some entry's vertex is out of range; otherwise each vertex's rows hold exactly the (joint index, weight) pairs of the joints in name order, skipping joints absent from the table |
| `SkinWeights.AddJointEntries` | exts/siborg.create.human/scripts/buildusd/skeletons.py:121-125 | one joint's entries are appended to the rows of their vertices, with the joint's position in the name list; an out-of-range vertex is an error |
| `SkinWeights.InfluencesExact` | exts/siborg.create.human/scripts/buildusd/skeletons.py:118-125 | a pair (j, w) is among a vertex's influences iff some joint at position j of the name list has a table entry (vertex, w) |
| `SkinWeights.NormalizedRow` | exts/siborg.create.human/scripts/buildusd/skeletons.py:127-131 | the padded row has the target width, holds each weight divided by the row sum and zeros after, and sums to 1 |
| `SkinWeights.MaxLen` | exts/siborg.create.human/scripts/buildusd/skeletons.py:127 | the padding width is at least every row's length and equal to some row's length |
| `Human.CalculateInfluences` | exts/siborg.create.human/siborg/create/human/human.py:420-488 | succeeds iff every joint of the weight table is in the joint list, every vertex index is below the vertex count and no vertex has more entries than max_influences. On success both flat arrays have length num_verts * max_influences, and slot s of vertex v holds the s-th (joint position, weight) pair of v in joint-then-entry order, or 0 past the vertex's count |
| `Human.FillBuffers` | exts/siborg.create.human/siborg/create/human/human.py:459-479 | the loop over the weight table fails only on input that does not fit; when it completes, every joint is in the joint list, every entry names a vertex of the mesh, and each vertex row holds exactly its (joint index, weight) slots in table then entry order, zeros after |
| `Human.AddJointInfluences` | exts/siborg.create.human/siborg/create/human/human.py:465-479 | one joint's entries are written into the next free slot of their vertex; a failure shows the input cannot fit |
| `Human.TakeSlot` | exts/siborg.create.human/siborg/create/human/human.py:471-479 | writing one (joint, weight) at the vertex's counter and incrementing the counter extends exactly that vertex's row |
| `Human.SlotsExact` | exts/siborg.create.human/siborg/create/human/human.py:465-476 | a pair (j, w) occupies a slot of vertex v iff some joint at position j of the joint list has the entry (v, w) |
| `Human.Overflow` | exts/siborg.create.human/siborg/create/human/human.py:471-476 | an entry arriving at a vertex whose slots are full means the input does not fit (the IndexError of the array write) |
| `Human.FlattenFaces` | exts/siborg.create.human/siborg/create/human/human.py:166-174 | succeeds iff nPerFace > 0 and every unmasked-out face has at least nPerFace vertex and uv indices. On success the vertex and uv lists are the first nPerFace indices of the masked-in faces in order, and the face counts are nPerFace repeated once per masked-in face |
| `Human.KeptLength` | exts/siborg.create.human/siborg/create/human/human.py:192 | the flattened list has nPerFace times the number of masked-in faces entries, so len / nPerFace is that number |
| `Human.WriteProperties` | exts/siborg.create.human/siborg/create/human/human.py:271-298 | the custom data is the input data updated with "human" = true, then each modifier under its key, then each proxy under its key, in that order |
| `Human.KeysApart` | exts/siborg.create.human/siborg/create/human/human.py:280-298 | modifier keys and proxy keys never collide with each other or with "human" |
| `Human.ModifierKeyInjective` | exts/siborg.create.human/siborg/create/human/human.py:280 | distinct modifier names give distinct keys |
| `Human.ModifierWritten` | exts/siborg.create.human/siborg/create/human/human.py:277-280 | after writing, a modifier's key holds its value when no later modifier has the same name |
| `Mesh.CommentIgnored` | exts/siborg.create.human/scripts/buildusd/mesh.py:85 | a line holding "#" anywhere contributes no record |
| `Mesh.PlainLineKept` | exts/siborg.create.human/scripts/buildusd/mesh.py:85 | a line without "#" becomes exactly one record, its whitespace-split words, in place |
| `Mesh.FaceTokenDigits` | exts/siborg.create.human/scripts/buildusd/mesh.py:117-118 | the face token "a/b" gives vertex index a-1 and uv index b-1 |
| `Mesh.FaceTokenWithNormal` | exts/siborg.create.human/scripts/buildusd/mesh.py:117-118 | an "a/b/c" token gives the same indices; the third field is ignored |
| `Mesh.FlattenFace` | exts/siborg.create.human/scripts/buildusd/mesh.py:116-118 | a face converts iff each token does; then the vertex and uv lists have one entry per token, in order |
| `Mesh.FlattenFacesOk` | exts/siborg.create.human/scripts/buildusd/mesh.py:115-118 | a group's faces convert iff every face does |
| `Mesh.TotalIsSum` | exts/siborg.create.human/scripts/buildusd/mesh.py:104-110 | the index lists of a group are as long as the sum of the recorded per-face counts |
| `Mesh.AppendFace` | exts/siborg.create.human/scripts/buildusd/mesh.py:116-118 | the loop over one face's tokens appends exactly the converted face, or stops at the conversion error |
| `Mesh.FlushGroup` | exts/siborg.create.human/scripts/buildusd/mesh.py:114-118 | the loop over a group's faces computes the flattened group |
| `Mesh.CloseGroup` | exts/siborg.create.human/scripts/buildusd/mesh.py:111-129 | handling a "g" record performs exactly one parser step |
| `Mesh.LoadObj` | exts/siborg.create.human/scripts/buildusd/mesh.py:80-140 | the imperative parser computes the specification `Load` of the file's lines |
| `Mesh.RunFailurePersists` | exts/siborg.create.human/scripts/buildusd/mesh.py:103-105 | once a record fails (a face shorter than nPerFace, a bad token), the whole parse fails with that error |
| `Mesh.LoadBalanced` | exts/siborg.create.human/scripts/buildusd/mesh.py:102-122 | every emitted mesh is named; its vertex and uv index lists are as long as the sum of its face counts; and with nPerFace every face count is nPerFace |
| `Mesh.RunGlobals` | exts/siborg.create.human/scripts/buildusd/mesh.py:98-101 | the vertex and uv lists are the tails of all "v" and "vt" records, in file order |
| `Mesh.ShareAll` | exts/siborg.create.human/scripts/buildusd/mesh.py:136-138 | the closing loop gives every mesh the global vertex and uv lists and changes nothing else about it |
| `Mesh.LoadShares` | exts/siborg.create.human/scripts/buildusd/mesh.py:136-138 | every emitted mesh carries the same global vertex and uv lists |
| `Mesh.MeshCount` | exts/siborg.create.human/scripts/buildusd/mesh.py:111-129 | with n "g" records, n-1 meshes are emitted (none for n = 0): the last group is never emitted |
| `Mesh.OnlyGroupRecordsEmit` | exts/siborg.create.human/scripts/buildusd/mesh.py:97-110 | records other than "g" emit nothing and keep the group name |
| `Mesh.GroupRecordEmits` | exts/siborg.create.human/scripts/buildusd/mesh.py:111-128 | a "g" record after a named group emits that group with its flattened faces and face counts, resets the accumulators and takes ident(token) as the new name |
| `Modifiers.LabelWords` | exts/siborg.create.human/scripts/buildusd/modifiers.py:36-42 | no label word holds "-" |
| `Modifiers.LabelWordsPlain` | exts/siborg.create.human/scripts/buildusd/modifiers.py:36-42 | a target made of plain words (no "-" or "\|" inside a word) keeps all of them when it is a single word or does not start with the group |
| `Modifiers.LabelWordsDropsGroup` | exts/siborg.create.human/scripts/buildusd/modifiers.py:39-40 | a leading segment equal to the group is dropped when more segments follow |
| `Modifiers.LabelWordsDropsBar` | exts/siborg.create.human/scripts/buildusd/modifiers.py:37-38 | a last segment holding "\|" is dropped |
| `Modifiers.MakeTargetModifier` | exts/siborg.create.human/scripts/buildusd/modifiers.py:32-63 | data exists iff the record has a target; group and label are set, max_val is 1. With min and max: blend is None, min/max blends are ident(blend + "_" + min/max), min_val is -1. Otherwise: blend is ident(target), no min/max blends, min_val is 0 |
| `Modifiers.GroupAndPrefix` | exts/siborg.create.human/scripts/buildusd/modifiers.py:79-84 | neither part holds "-"; a group without "-" keeps its name with an empty prefix |
| `Modifiers.GroupAndPrefixHyphen` | exts/siborg.create.human/scripts/buildusd/modifiers.py:79-81 | "a-b" and "a-b-…" give group "a" and prefix "b" |
| `Modifiers.MinLowest` | exts/siborg.create.human/scripts/buildusd/modifiers.py:131 | the result is some part's lowest and at most every part's lowest |
| `Modifiers.MaxHighest` | exts/siborg.create.human/scripts/buildusd/modifiers.py:132 | the result is some part's highest and at least every part's highest |
| `Modifiers.CenterOfRange` | exts/siborg.create.human/scripts/buildusd/modifiers.py:130-133 | an empty part list is an error; otherwise the centre is equidistant from min lowest and max highest and lies between them |
| `Modifiers.MakeMacroModifier` | exts/siborg.create.human/scripts/buildusd/modifiers.py:69-103 | an empty macro.json document (nothing loaded) is a ValueError; without macrovar the data stay empty; values are always [0,1] with group/prefix split from the group. An EthnicModifier always succeeds once the document is loaded, even with an empty or missing "macrotargets" table, and takes macrovar as label with no parts or centre. Otherwise a document without "macrotargets" is a KeyError, the lower-cased macrovar must be in that table (KeyError), and its entry must have parts; label, parts, macrovar and centre then come from that entry |
| `Modifiers.ModifierFor` | exts/siborg.create.human/scripts/buildusd/modifiers.py:114-118 | a record with a target gives a target modifier; one with a macrovar and no target gives the macro modifier built from it and fails exactly when building it fails, with the same error; one with neither target nor macrovar reuses the previous modifier, or fails before any |
| `Modifiers.GroupAssignments` | exts/siborg.create.human/scripts/buildusd/modifiers.py:114-120 | every record of a group is assigned to that group, in order |
| `Modifiers.NestedPutLookup` | exts/siborg.create.human/scripts/buildusd/modifiers.py:120 | storing a modifier makes it the value at (group, label) and changes no other entry |
| `Modifiers.StoreLookup` | exts/siborg.create.human/scripts/buildusd/modifiers.py:120 | after storing a sequence of modifiers, each (group, label) holds the last one stored there |
| `Modifiers.ImportGroup` | exts/siborg.create.human/scripts/buildusd/modifiers.py:114-120 | the loop over one group's records stores what the specification assigns, or fails with its error |
| `Modifiers.AssignmentsFailure` | exts/siborg.create.human/scripts/buildusd/modifiers.py:112-120 | a failure in an early group is the failure of the whole import |
| `Modifiers.ImportModifiers` | exts/siborg.create.human/scripts/buildusd/modifiers.py:106-121 | the nested loops compute the specification of the import |
| `Modifiers.LastLabelWins` | exts/siborg.create.human/scripts/buildusd/modifiers.py:120 | each (group, label) of the result holds the last modifier of the file with that group and label |
| `Targets.NewTargetModifier` | exts/siborg.create.human/scripts/buildusd/targets.py:28-59 | same rules as the buildusd modifier record: exists iff there is a target; label; max_val 1; min/max pair gives no blend, two derived blends and min_val -1; otherwise blend = ident(target), min_val 0 |
| `Targets.RecordStep` | exts/siborg.create.human/scripts/buildusd/targets.py:71-79 | a target record appends its modifier; a macrovar record ends the group; a record with neither re-appends the previous modifier or fails before any |
| `Targets.GroupAppends` | exts/siborg.create.human/scripts/buildusd/targets.py:70-81 | everything appended while reading a group goes to that group |
| `Targets.AppendGroup` | exts/siborg.create.human/scripts/buildusd/targets.py:70-81 | the loop over one group's records appends exactly what the specification appends, stopping at the first macrovar record |
| `Targets.GroupAllGet` | exts/siborg.create.human/scripts/buildusd/targets.py:79 | a group's list holds exactly the modifiers appended to it, in order, and a group is present iff something was appended |
| `Targets.CustomDataFields` | exts/siborg.create.human/scripts/buildusd/targets.py:86-95 | the custom data hold min_val and max_val, each blend field only when it is not None, and no other key |
| `Targets.WriteGroup` | exts/siborg.create.human/scripts/buildusd/targets.py:84-97 | the loop over one group's modifiers extends the written custom data by that group's writes |
| `Targets.ImportModifiers` | exts/siborg.create.human/scripts/buildusd/targets.py:62-97 | the two loops compute the specification of the import |
| `Targets.WritesOfAppends` | exts/siborg.create.human/scripts/buildusd/targets.py:84-97 | writing the grouped appends leaves each group the custom data of the last modifier appended to it, and no entry for a group that received none |
| `Targets.LastModifierWins` | exts/siborg.create.human/scripts/buildusd/targets.py:84-97 | each group's custom data are those of the last modifier appended to it; a group with no modifier is absent |
| `Targets.Components` | exts/siborg.create.human/scripts/buildusd/targets.py:132 | fails iff no path component is "targets" (ValueError of list.index) |
| `Targets.StemOfTargetFile` | exts/siborg.create.human/scripts/buildusd/targets.py:134 | the base name of "x.target" is x |
| `Targets.NamesOf` | exts/siborg.create.human/scripts/buildusd/targets.py:132-137 | no "targets" component, or nothing below it, is an error |
| `Targets.TargetNamesOfLayout` | exts/siborg.create.human/scripts/buildusd/targets.py:132-137 | for root/targets/g/sub…/file, the group is ident(g) and the name is ident(prefix + "_" + stem), or ident(stem) when there is no sub-directory; the prefix is the sub-directories joined by "_" |
| `Targets.ReadDelta` | exts/siborg.create.human/scripts/buildusd/targets.py:138-156 | a warning or an empty file gives nothing; ragged rows or a one-row/one-column table is an error; otherwise indices are column 0, truncated, and the offsets are the remaining columns, row-aligned |
| `Targets.SelectInAll` | exts/siborg.create.human/scripts/buildusd/targets.py:153-154 | selecting the rows whose index is among all indices keeps every row |
| `Targets.Affects` | exts/siborg.create.human/scripts/buildusd/targets.py:163-166 | a mesh without face indices is an error (min of an empty array); otherwise the mesh is bound iff some changed index lies in [min, max] of its face indices |
| `Targets.SharedVertexBinds` | exts/siborg.create.human/scripts/buildusd/targets.py:163-166 | a target that changes one of the mesh's own vertices binds to it |
| `Targets.OutsideRangeSkips` | exts/siborg.create.human/scripts/buildusd/targets.py:163-166 | a target whose changes all lie outside the mesh's range is not bound |
| `Targets.WithBlendShape` | exts/siborg.create.human/scripts/buildusd/targets.py:175-182 | the name ends up in the list and the old list is a prefix: unchanged if present, appended otherwise |
| `Targets.WithBlendShapeIdempotent` | exts/siborg.create.human/scripts/buildusd/targets.py:175-178 | adding the same name twice is adding it once |
| `Targets.WithBlendShapeDistinct` | exts/siborg.create.human/scripts/buildusd/targets.py:175-182 | a duplicate-free list stays duplicate-free |
| `Targets.BindMeshes` | exts/siborg.create.human/scripts/buildusd/targets.py:162-191 | meshes are processed in order up to the first one without face indices (then the error); each processed affected mesh gets the name added, and all other lists are unchanged |
| `Targets.MhTargetToBlendShapes` | exts/siborg.create.human/scripts/buildusd/targets.py:100-191 | name or read failures change nothing; an empty or warning file creates nothing; otherwise one blend shape with the derived group, name, indices and offsets is created and the meshes are bound as above |
| `Targets.TargetFiles` | exts/siborg.create.human/scripts/buildusd/targets.py:197-200 | exactly the file names ending in ".target" are kept |
| `Targets.TargetPaths` | exts/siborg.create.human/scripts/buildusd/targets.py:196-202 | every imported path ends in ".target" |
| `Targets.TargetPathsComplete` | exts/siborg.create.human/scripts/buildusd/targets.py:196-202 | every ".target" file of every walked directory is imported, joined to its directory |
| `MacroTargets.WeightForPart` | exts/siborg.create.human/siborg/create/human/modifiers.py:12-21 | a weight exists iff lowest <= v <= highest and the span is non-zero; then it carries the part's labels, weight_high * span = v - lowest, and the two weights lie in [0,1] and sum to 1 |
| `MacroTargets.WeightAtBounds` | exts/siborg.create.human/siborg/create/human/modifiers.py:19-20 | at lowest the weights are (1, 0), at highest (0, 1) |
| `MacroTargets.WeightMonotonic` | exts/siborg.create.human/siborg/create/human/modifiers.py:19 | weight_high grows with the value |
| `MacroTargets.FirstWeight` | exts/siborg.create.human/siborg/create/human/modifiers.py:34-38 | there is no weight iff no part contains the value |
| `MacroTargets.FirstWeightIsFirst` | exts/siborg.create.human/siborg/create/human/modifiers.py:34-38 | the weight found is that of a part of the list (the first match) |
| `MacroTargets.TableEntries` | exts/siborg.create.human/siborg/create/human/modifiers.py:32-38 | every target with parts gets the first matching weight of its supplied value, or of its range centre when none is supplied; a target without parts is an error (the centre's min of nothing) |
| `MacroTargets.WeightsByTableGet` | exts/siborg.create.human/siborg/create/human/modifiers.py:30-39 | a target of the table has that first matching weight or is absent when no part matches; a target outside the table is absent |
| `MacroTargets.CalculateWeightsByTable` | exts/siborg.create.human/siborg/create/human/modifiers.py:30-39 | the loop computes the specification of the table-driven weights |
| `MacroTargets.ValueEntries` | exts/siborg.create.human/scripts/buildusd/macrotargets.py:16-25 | fails iff some supplied value names a target missing from the table (KeyError); otherwise each value gets the first matching part weight |
| `MacroTargets.WeightsByValuesGet` | exts/siborg.create.human/scripts/buildusd/macrotargets.py:16-25 | only targets present in the values have an entry, each from its first containing part |
| `MacroTargets.CalculateWeightsByValues` | exts/siborg.create.human/scripts/buildusd/macrotargets.py:16-25 | the loop computes the specification of the values-driven weights, or its KeyError |
| `MacroTargets.ChosenLabel` | exts/siborg.create.human/siborg/create/human/modifiers.py:53 | the low label is chosen iff weight_low > weight_high or both labels coincide (a tie chooses the high label), and the choice is always one of the two labels |
| `MacroTargets.Dominant` | exts/siborg.create.human/siborg/create/human/modifiers.py:55 | the factor is the larger of the two weights |
| `MacroTargets.ComboLabels` | exts/siborg.create.human/siborg/create/human/modifiers.py:47-57 | one label per part: the chosen label of a known part, "unknown" otherwise |
| `MacroTargets.ComboWeightBounds` | exts/siborg.create.human/siborg/create/human/modifiers.py:46-55 | with complementary weights, a composite weight lies in [0,1] |
| `MacroTargets.ComboWeightUnknown` | exts/siborg.create.human/siborg/create/human/modifiers.py:56-57 | unknown parts contribute a factor of 1 |
| `MacroTargets.Filename` | exts/siborg.create.human/siborg/create/human/modifiers.py:59 | the filename ends in ".target" |
| `MacroTargets.FilenameLabels` | exts/siborg.create.human/siborg/create/human/modifiers.py:59 | splitting the filename without ".target" on "-" gives back the labels |
| `MacroTargets.ComposeOne` | exts/siborg.create.human/siborg/create/human/modifiers.py:45-59 | the inner loop computes the labels and the product of dominant weights of one combination |
| `MacroTargets.ComposeLastWins` | exts/siborg.create.human/siborg/create/human/modifiers.py:60 | two combinations with the same filename keep the weight of the later one |
| `MacroTargets.ComposeFilenames` | exts/siborg.create.human/siborg/create/human/modifiers.py:42-61 | the loop computes the specification of compose_filenames |
| `MacroTargets.SumDivided` | exts/siborg.create.human/siborg/create/human/modifiers.py:69-70 | dividing every value by t divides the sum by t |
| `MacroTargets.NormalizedSumsToOne` | exts/siborg.create.human/siborg/create/human/modifiers.py:64-71 | dividing by a non-zero total makes the values sum to 1 |
| `MacroTargets.NormalizeWeights` | exts/siborg.create.human/siborg/create/human/modifiers.py:64-71 | a zero total leaves the map unchanged; otherwise every value is divided by the total, keys and order kept |
| `Skeltargets.ComputeTransform` | exts/siborg.create.human/scripts/separate_skeltargets.py:263-270 | a pure translation whose translation times the vertex count is the vertex sum (the centroid) |
| `Skeltargets.ComputeTransformOfCopies` | exts/siborg.create.human/scripts/separate_skeltargets.py:265-268 | vertices all at p give the translation to p |
| `Skeltargets.JointTransform` | exts/siborg.create.human/scripts/separate_skeltargets.py:256-258 | succeeds iff the joint has recorded indices and they are all in range (KeyError / IndexError otherwise) |
| `Skeltargets.JointTransforms` | exts/siborg.create.human/scripts/separate_skeltargets.py:254-260 | succeeds iff every joint does; then exactly one transform per joint, in joint order, each the centroid transform of that joint's points |
| `Skeltargets.JointTransformsLocal` | exts/siborg.create.human/scripts/separate_skeltargets.py:256-258 | a joint's transform depends only on the points at its own indices |
| `Skeltargets.JointsFromPoints` | exts/siborg.create.human/scripts/separate_skeltargets.py:238-260 | the loop computes the specification, stopping at the first failing joint |
| `Skeltargets.ComputeBlendshapePoints` | exts/siborg.create.human/scripts/separate_skeltargets.py:202-235 | fails iff the deformation fails (ValueError); otherwise returns the deformed copy of the body's points |
| `Skeltargets.BlendshapeToSkeltarget` | exts/siborg.create.human/scripts/separate_skeltargets.py:10-19 | deform the body, then fit the joints to the deformed points |
| `Skeltargets.UnmovedJointKeepsPose` | exts/siborg.create.human/scripts/separate_skeltargets.py:15-19 | a joint whose points the blend shape does not move keeps its base transform |
| `Skeltargets.FillJointArrays` | exts/siborg.create.human/scripts/separate_skeltargets.py:98-105 | entries overwrite slots 0.. of the three arrays in file order, the rest keep their values; more entries than joints is an IndexError |
| `Skeltargets.SkeltargetVertsIgnoresNames` | exts/siborg.create.human/scripts/separate_skeltargets.py:98-105 | the joint names of the file play no part; only entry order counts |
| `Skeltargets.CalculateSkeltargetVerts` | exts/siborg.create.human/scripts/separate_skeltargets.py:62-126 | fresh joint arrays filled from the file are skinned; too many entries or a failed skinning is an error |
| `Skeltargets.SkeletalOffset` | exts/siborg.create.human/scripts/separate_skeltargets.py:155 | defined iff both point lists have equal length; then default - skinned, element-wise |
| `Skeltargets.CorrectedOffsets` | exts/siborg.create.human/scripts/separate_skeltargets.py:158-162 | defined iff every stored index is in range and offsets and indices align; then corrected[k] = offsets[k] - skeletal_offset[indices[k]] |
| `Skeltargets.SeparatedAt` | exts/siborg.create.human/scripts/separate_skeltargets.py:155-162 | corrected[k] = offsets[k] - (default[idx[k]] - skinned[idx[k]]), and adding the skeletal offset back recovers offsets[k] |
| `Skeltargets.SeparatedWithoutSkinning` | exts/siborg.create.human/scripts/separate_skeltargets.py:155-162 | when skinning leaves every stored vertex in place, the offsets are unchanged |
| `Skeltargets.SeparatedLocal` | exts/siborg.create.human/scripts/separate_skeltargets.py:155-162 | only skinned points at stored indices influence the result |
| `Skeltargets.SeparateBlendshape` | exts/siborg.create.human/scripts/separate_skeltargets.py:143-169 | on failure the blend shape's offsets are untouched; on success they become the corrected offsets; the indices are written back unchanged |
| `MhUsd.SanitizedClean` | exts/omni.makehuman/omni/makehuman/mh_usd.py:105-109 | a sanitized name holds no "." or "-", and sanitizing is idempotent |
| `MhUsd.SanitizedLegal` | exts/omni.makehuman/omni/makehuman/mh_usd.py:105-109 | a name without "." or "-" is left unchanged |
| `MhUsd.Sanitize` | exts/omni.makehuman/omni/makehuman/mh_usd.py:105-109 | the two replacement passes replace every "." and "-" by "_" and keep every other character and the length |
| `MhUsd.Entries` | exts/omni.makehuman/omni/makehuman/mh_usd.py:83-102 | the first entry of a sub-tree is its root: sanitized name, prefix + name as path, transposed relative matrix, bind matrix |
| `MhUsd.ChildBlock` | exts/omni.makehuman/omni/makehuman/mh_usd.py:101-102 | pre-order: a node, then its children's sub-trees in children order, each under the node's path + "/" |
| `MhUsd.ChildPath` | exts/omni.makehuman/omni/makehuman/mh_usd.py:85-102 | a child's path is its parent's path + "/" + its sanitized name |
| `MhUsd.Visit` | exts/omni.makehuman/omni/makehuman/mh_usd.py:81-102 | the recursive visit appends exactly the pre-order entries of the sub-tree to the shared lists and map |
| `MhUsd.GetJointData` | exts/omni.makehuman/omni/makehuman/mh_usd.py:71-80 | with no roots there is no result (the IndexError of roots[0]); otherwise the data are those of the walk from roots[0] with an empty prefix |
| `MhUsd.FirstPath` | exts/omni.makehuman/omni/makehuman/mh_usd.py:79-86 | the first path is the sanitized root name |
| `MhUsd.Lockstep` | exts/omni.makehuman/omni/makehuman/mh_usd.py:86-99 | the path, rest and bind lists have one entry per visited joint |
| `MhUsd.JointToPathLastWins` | exts/omni.makehuman/omni/makehuman/mh_usd.py:88 | joint_to_path maps each sanitized name to the path of the last joint visited under it, and knows no other names |

## Left out

- `Human.WriteProperties` keeps each custom-data entry under its full key string ("Modifiers:<fullName>", "Proxies:<type>:<name>"). `SetCustomDataByKey` reads ':' as a path into nested dictionaries; the model flattens that nesting into key paths.
- `Text.ParseInt` accepts an optional sign followed by ASCII digits. Python's `int()` also accepts single '_' separators between digits and non-ASCII decimal digits, which the face tokens of mesh.py:117-118 could in principle hold.
- `Text.Lower`, `Text.Capitalize`: the case mapping covers ASCII letters only. Python's `str.lower` and `str.capitalize` map all of Unicode.
- `Targets.TargetNames` splits a target path on '/'. The code splits on `os.path.sep`, which differs on Windows.
- USD authoring and queries are not modelled. This covers stage and prim definition, attribute `Set`/`Get`, binding relationships, `UsdSkel.NormalizeWeights`/`SortInfluences`, the skinning and blend-shape queries and `SetCustomDataByKey`. Their results are inputs (`Deformer`, `Skinner`, mesh point and face-index sequences); their writes are the values the model returns.
- Gf matrix decomposition and inversion (`Orthonormalize`, `ExtractRotation`, `compose_xforms`, `np.linalg.inv`) and the `.skeltarget` JSON assembly of `blendshape_to_skeltarget` are float linear algebra and file output. `Skeltargets.BlendshapeToSkeltarget` stops at the fitted joint transforms.
- A rotation is kept as its axis and angle. The conversion to a quaternion is not modelled.
- `Tf.MakeValidIdentifier` is the parameter `ident`. Its character rules are not modelled.
- File and JSON I/O (`open`, `json.load`, `np.loadtxt`, `os.walk`, writes of `.skeltarget` and `.usda` files) is out of scope. The model starts from the parsed data.
  - `np.loadtxt` is represented by its possible outcomes: a table of rows or a warning.
  - OBJ coordinates stay text. The float conversion of mesh.py:132-133 is not modelled.
- The UI, browser, download, lifecycle and orchestration files are not part of this model. They hold no pipeline logic.
- The `print` diagnostics are left out. This includes the bound/existing mismatch report of targets.py:183-189.
- `apply_modifier` (siborg/create/human/modifiers.py:4-9) defines an inner function but returns nothing, so there is nothing to model.
- Float corner cases are preconditions instead of NaN results:
  - `SkinWeights.VerticesToWeights` requires every vertex's weights to have a non-zero sum, unless no vertex has any weight. In that case the width is 0 and the division gives empty rows, which the model returns. Otherwise a zero-sum row (a vertex without weights next to one with weights) becomes 0/0 = NaN in the code.
  - `Skeleton.ComputeTransforms` and `Skeltargets.ComputeTransform` require non-empty vertex groups; `np.mean` of nothing is NaN.
  - `SkeletonWalk.CreateSkeleton` requires a non-empty mesh and a non-empty root head group.
- The `np.isin` weight selection of `compute_blendshape_points` (separate_skeltargets.py:214) and the discarded `np.append` of `add_blendshape_to_animation` (separate_skeltargets.py:198) are not modelled. Blend evaluation is the `Deformer` parameter.
- `Skeleton.BuildTree` takes a `fuel` bound on the recursion depth. The code has no such limit; `Skeleton.RigBuilds` shows that fuel above every bone's rank is enough for an acyclic rig with all groups present. Where the code recurses without end (a cycle of parent links reachable from the roots) and hits `RecursionError`, the model runs out of fuel and fails with `TreeTooDeep`.
- `Skeleton.BuildTree` returns a new tree. The in-place update of the input bone dicts (head/tail vertex lists, children and weights written into `skel_data`) is not modelled as aliasing.
- `Targets.Affects` tests membership in [min, max] of the face indices. On integers this is the code's half-open [min, max+1).
- `Targets.ReadDelta` models `np.loadtxt` on a single-row file as an error (column slicing on a vector). The float32 rounding of the values is not modelled; indices are the truncation of the stored reals.
- The sign of the skeletal offset follows the code: default points minus skinned points (exts/siborg.create.human/scripts/separate_skeltargets.py:155). The docstring of `separate_blendshape` (lines 144-146) says the skeletal deformation is subtracted, which is the other way round; the model keeps the code's sign.
- The root transforms follow the code. The root's bind translation is the centroid of the whole mesh, and its rest translation is that centroid minus the centroid of the root's head group (skeletons.py:54-56). In a two-joint example with mesh vertices (0,0,0) and (0,1,0), the root therefore gets bind translation (0,0.5,0), not its head position. `SkeletonWalk.RootBindBreaksComposition` states this case.
- `import_modifiers` of buildusd/modifiers.py fails (`NameError`) when a record with neither target nor macrovar comes first. When such a record follows other records, the previous modifier is stored again, as the code does with its stale variable. The same holds in targets.py.
