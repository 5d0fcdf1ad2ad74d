/**
  The target import of the asset build: the target modifiers of the
  modifiers file and their reduction to per-group custom data, the naming of
  a blend shape after its target file's path, the row layout of a target
  file, the mesh binding by index-range overlap, and the ".target" filter of
  the directory walk.
 */
module Targets {
  import opened Wrappers
  import opened Text
  import opened Dicts
  import opened Modifiers

  datatype TargetError =
    | NoTarget            // AttributeError: a TargetModifier built from a record without a target
    | NoPrevious          // NameError: a record with neither target nor macrovar before any modifier
    | NoTargetsDir        // ValueError: "targets" is not a component of the path
    | NoGroupDir          // IndexError: no directory between "targets" and the file
    | RaggedRows          // ValueError of the table reader: rows of different widths
    | NotATable           // IndexError: a one-row or one-column table is read as a vector
    | EmptyMesh           // ValueError: min() of a mesh without face-vertex indices

  // ---------------------------------------------------------------------
  // TargetModifier

  /** The fields of a target modifier of the build's targets module (the image is always None). */
  datatype TargetModifier = TargetModifier(
    labelText: string, blend: Option<string>, minBlend: Option<string>, maxBlend: Option<string>,
    minVal: int, maxVal: int)

  /** TargetModifier(group, data): the same label and blend-shape rules as the modifier records. */
  function NewTargetModifier(group: string, md: ModifierJson, ident: string -> string): (r: Result<TargetModifier, TargetError>)
    ensures r.Success? <==> md.target.Some?
    ensures r.Success? ==> r.value.labelText == Label(group, md.target.value) && r.value.maxVal == 1
    ensures r.Success? && md.min.Some? && md.max.Some? ==>
              && r.value.blend.None? && r.value.minVal == -1
              && r.value.minBlend == Some(ident(ident(md.target.value) + "_" + md.min.value))
              && r.value.maxBlend == Some(ident(ident(md.target.value) + "_" + md.max.value))
    ensures r.Success? && !(md.min.Some? && md.max.Some?) ==>
              && r.value.blend == Some(ident(md.target.value)) && r.value.minVal == 0
              && r.value.minBlend.None? && r.value.maxBlend.None?
  {
    var d := MakeTargetModifier(group, md, ident);
    if d.None? then Failure(NoTarget)
    else Success(TargetModifier(d.value.labelText, d.value.blend, d.value.minBlend, d.value.maxBlend,
                                d.value.minVal, d.value.maxVal))
  }

  // ---------------------------------------------------------------------
  // import_modifiers: grouping

  /** What one record does in the grouping loop: a modifier to append, or None to leave the group (a macrovar record). */
  function RecordStep(group: string, md: ModifierJson, prev: Option<TargetModifier>, ident: string -> string)
    : (r: Result<Option<TargetModifier>, TargetError>)
    ensures md.target.None? && md.macrovar.Some? ==> r == Success(None)
    ensures md.target.None? && md.macrovar.None? ==> r == if prev.Some? then Success(prev) else Failure(NoPrevious)
    ensures md.target.Some? ==> r.Success? && r.value.Some? && Success(r.value.value) == NewTargetModifier(group, md, ident)
  {
    if md.target.Some? then Success(Some(NewTargetModifier(group, md, ident).value))
    else if md.macrovar.Some? then Success(None)
    else if prev.Some? then Success(prev)
    else Failure(NoPrevious)
  }

  type Appends = seq<(string, TargetModifier)>

  /** Prefixes the appends done so far to the outcome of the rest of the loop. */
  function Prepend(done: Appends, r: Result<(Appends, Option<TargetModifier>), TargetError>)
    : Result<(Appends, Option<TargetModifier>), TargetError>
  {
    if r.Failure? then r else Success((done + r.value.0, r.value.1))
  }

  /** The (group, modifier) appends of one group's records, up to its first macrovar record, and the last modifier. */
  function GroupAppends(group: string, mods: seq<ModifierJson>, prev: Option<TargetModifier>, ident: string -> string)
    : (r: Result<(Appends, Option<TargetModifier>), TargetError>)
    ensures r.Success? ==> forall i :: 0 <= i < |r.value.0| ==> r.value.0[i].0 == group
    decreases |mods|
  {
    if |mods| == 0 then Success(([], prev))
    else
      var s := RecordStep(group, mods[0], prev, ident);
      if s.Failure? then Failure(s.error)
      else if s.value.None? then Success(([], prev))
      else Prepend([(group, s.value.value)], GroupAppends(group, mods[1..], s.value, ident))
  }

  /** The appends of every group of the file, with the group names capitalised. */
  function AllAppends(groups: seq<(string, seq<ModifierJson>)>, prev: Option<TargetModifier>, ident: string -> string)
    : Result<(Appends, Option<TargetModifier>), TargetError>
    decreases |groups|
  {
    if |groups| == 0 then Success(([], prev))
    else
      var g := GroupAppends(Capitalize(groups[0].0), groups[0].1, prev, ident);
      if g.Failure? then g
      else Prepend(g.value.0, AllAppends(groups[1..], g.value.1, ident))
  }

  lemma PrependEmpty(r: Result<(Appends, Option<TargetModifier>), TargetError>)
    ensures Prepend([], r) == r
  {
    if r.Success? {
      assert [] + r.value.0 == r.value.0;
    }
  }

  lemma PrependPrepend(a: Appends, b: Appends, r: Result<(Appends, Option<TargetModifier>), TargetError>)
    ensures Prepend(a, Prepend(b, r)) == Prepend(a + b, r)
  {
    if r.Success? {
      assert a + (b + r.value.0) == (a + b) + r.value.0;
    }
  }

  type Grouped = Dict<string, seq<TargetModifier>>

  /** groups[g].append(m) on a defaultdict(list). */
  function AppendTo(d: Grouped, g: string, m: TargetModifier): Grouped
  {
    Put(d, g, (if Get(d, g).Some? then Get(d, g).value else []) + [m])
  }

  function GroupAll(asg: Appends): Grouped
  {
    if |asg| == 0 then [] else AppendTo(GroupAll(asg[..|asg| - 1]), asg[|asg| - 1].0, asg[|asg| - 1].1)
  }

  /** The modifiers appended to group g, in order. */
  function AppendedTo(asg: Appends, g: string): (r: seq<TargetModifier>)
    ensures |r| > 0 <==> exists i :: 0 <= i < |asg| && asg[i].0 == g
  {
    if |asg| == 0 then []
    else
      var p := AppendedTo(asg[..|asg| - 1], g);
      assert forall i :: 0 <= i < |asg| - 1 ==> asg[..|asg| - 1][i] == asg[i];
      if asg[|asg| - 1].0 == g then p + [asg[|asg| - 1].1] else p
  }

  /** Each group holds exactly the modifiers appended to it, and a group is present iff something was appended to it. */
  lemma {:induction false} GroupAllGet(asg: Appends, g: string)
    ensures Get(GroupAll(asg), g) == if |AppendedTo(asg, g)| > 0 then Some(AppendedTo(asg, g)) else None
  {
    if |asg| > 0 {
      var n := |asg|;
      var d := GroupAll(asg[..n - 1]);
      var v := (if Get(d, asg[n - 1].0).Some? then Get(d, asg[n - 1].0).value else []) + [asg[n - 1].1];
      GroupAllGet(asg[..n - 1], g);
      GroupAllGet(asg[..n - 1], asg[n - 1].0);
      PutGet(d, asg[n - 1].0, v, g);
    }
  }

  lemma {:induction false} GroupAllDistinct(asg: Appends)
    ensures DistinctKeys(GroupAll(asg))
  {
    if |asg| > 0 {
      var n := |asg|;
      var d := GroupAll(asg[..n - 1]);
      GroupAllDistinct(asg[..n - 1]);
      PutDistinct(d, asg[n - 1].0, (if Get(d, asg[n - 1].0).Some? then Get(d, asg[n - 1].0).value else []) + [asg[n - 1].1]);
    }
  }

  /** The last value of g among the appends is the last modifier appended to g, if any was. */
  lemma {:induction false} LastAppended(asg: Appends, g: string)
    ensures var a := AppendedTo(asg, g);
            LastValue(asg, g) == if |a| > 0 then Some(a[|a| - 1]) else None
  {
    if |asg| > 0 {
      var n := |asg|;
      if asg[n - 1].0 != g {
        LastAppended(asg[..n - 1], g);
      }
    }
  }

  // ---------------------------------------------------------------------
  // import_modifiers: custom data

  datatype CdValue = IntVal(i: int) | StrVal(s: string)

  function Present(key: string, v: Option<string>): seq<(string, CdValue)>
  {
    if v.Some? then [(key, StrVal(v.value))] else []
  }

  /** The custom data of one modifier: min_val, max_val, blend, min_blend and max_blend, without the None-valued ones. */
  function CustomData(m: TargetModifier): Dict<string, CdValue>
  {
    [("min_val", IntVal(m.minVal)), ("max_val", IntVal(m.maxVal))]
      + Present("blend", m.blend) + Present("min_blend", m.minBlend) + Present("max_blend", m.maxBlend)
  }

  lemma GetPresent(key: string, v: Option<string>, k: string)
    ensures Get(Present(key, v), k) == if k == key && v.Some? then Some(StrVal(v.value)) else None
  {
  }

  /** The value stored under `key` in a modifier's custom data. */
  function FieldValue(m: TargetModifier, key: string): Option<CdValue>
  {
    if key == "min_val" then Some(IntVal(m.minVal))
    else if key == "max_val" then Some(IntVal(m.maxVal))
    else if key == "blend" && m.blend.Some? then Some(StrVal(m.blend.value))
    else if key == "min_blend" && m.minBlend.Some? then Some(StrVal(m.minBlend.value))
    else if key == "max_blend" && m.maxBlend.Some? then Some(StrVal(m.maxBlend.value))
    else None
  }

  lemma CustomDataGet(m: TargetModifier, key: string)
    ensures Get(CustomData(m), key) == FieldValue(m, key)
  {
    var base: Dict<string, CdValue> := [("min_val", IntVal(m.minVal)), ("max_val", IntVal(m.maxVal))];
    var b, lo, hi := Present("blend", m.blend), Present("min_blend", m.minBlend), Present("max_blend", m.maxBlend);
    GetAppend(base, b, key);
    GetAppend(base + b, lo, key);
    GetAppend(base + b + lo, hi, key);
    GetPresent("blend", m.blend, key);
    GetPresent("min_blend", m.minBlend, key);
    GetPresent("max_blend", m.maxBlend, key);
  }

  /** Both range bounds are always stored; each blend-shape name is stored iff it is not None; nothing else is. */
  lemma CustomDataFields(m: TargetModifier, k: string)
    ensures Get(CustomData(m), "min_val") == Some(IntVal(m.minVal))
    ensures Get(CustomData(m), "max_val") == Some(IntVal(m.maxVal))
    ensures Get(CustomData(m), "blend") == if m.blend.Some? then Some(StrVal(m.blend.value)) else None
    ensures Get(CustomData(m), "min_blend") == if m.minBlend.Some? then Some(StrVal(m.minBlend.value)) else None
    ensures Get(CustomData(m), "max_blend") == if m.maxBlend.Some? then Some(StrVal(m.maxBlend.value)) else None
    ensures k !in ["min_val", "max_val", "blend", "min_blend", "max_blend"] ==> Get(CustomData(m), k) == None
  {
    assert Get(CustomData(m), "min_val") == Some(IntVal(m.minVal)) by {
      CustomDataGet(m, "min_val");
    }
    assert Get(CustomData(m), "max_val") == Some(IntVal(m.maxVal)) by {
      CustomDataGet(m, "max_val");
    }
    assert Get(CustomData(m), "blend") == if m.blend.Some? then Some(StrVal(m.blend.value)) else None by {
      CustomDataGet(m, "blend");
    }
    assert Get(CustomData(m), "min_blend") == if m.minBlend.Some? then Some(StrVal(m.minBlend.value)) else None by {
      CustomDataGet(m, "min_blend");
    }
    assert Get(CustomData(m), "max_blend") == if m.maxBlend.Some? then Some(StrVal(m.maxBlend.value)) else None by {
      CustomDataGet(m, "max_blend");
    }
    if k !in ["min_val", "max_val", "blend", "min_blend", "max_blend"] {
      assert FieldValue(m, k) == None by {
        assert k != "min_val" && k != "max_val" && k != "blend" && k != "min_blend" && k != "max_blend";
      }
      CustomDataGet(m, k);
    }
  }

  /** The writes of one group's list: groups_custom_data[g] = custom data, once per modifier. */
  function Block(g: string, ms: seq<TargetModifier>): (r: seq<(string, Dict<string, CdValue>)>)
    ensures |r| == |ms| && forall i :: 0 <= i < |ms| ==> r[i] == (g, CustomData(ms[i]))
  {
    seq(|ms|, i requires 0 <= i < |ms| => (g, CustomData(ms[i])))
  }

  function Writes(d: Grouped): seq<(string, Dict<string, CdValue>)>
  {
    if |d| == 0 then [] else Writes(d[..|d| - 1]) + Block(d[|d| - 1].0, d[|d| - 1].1)
  }

  type CustomDataMap = Dict<string, Dict<string, CdValue>>

  /** What import_modifiers writes to the prim's "modifiers" custom data. */
  function ImportSpec(groups: seq<(string, seq<ModifierJson>)>, ident: string -> string): Result<CustomDataMap, TargetError>
  {
    var a := AllAppends(groups, None, ident);
    if a.Failure? then Failure(a.error) else Success(PutAll([], Writes(GroupAll(a.value.0))))
  }

  lemma BlockLast(g: string, ms: seq<TargetModifier>, k: string)
    ensures LastValue(Block(g, ms), k) == if k == g && |ms| > 0 then Some(CustomData(ms[|ms| - 1])) else None
  {
    if k == g && |ms| > 0 {
      LastValueAt(Block(g, ms), |ms| - 1, k);
    }
  }

  /** The custom data of the last modifier in g's list, if the list is there and not empty. */
  function LastCustom(d: Grouped, g: string): Option<Dict<string, CdValue>>
  {
    var l := Get(d, g);
    if l.Some? && |l.value| > 0 then Some(CustomData(l.value[|l.value| - 1])) else None
  }

  lemma WritesSnoc(p: Grouped, x: (string, seq<TargetModifier>))
    ensures Writes(p + [x]) == Writes(p) + Block(x.0, x.1)
  {
    assert (p + [x])[..|p|] == p;
  }

  /** One more group, new to the list: its own lookup gives its last modifier, every other lookup is unchanged. */
  lemma LastCustomSnoc(p: Grouped, x: (string, seq<TargetModifier>), g: string)
    requires x.0 !in KeySet(p)
    ensures LastCustom(p + [x], g)
         == if g != x.0 then LastCustom(p, g) else if |x.1| > 0 then Some(CustomData(x.1[|x.1| - 1])) else None
  {
    GetSnoc(p, x, g);
  }

  lemma WritesLastStep(p: Grouped, x: (string, seq<TargetModifier>), g: string)
    requires x.0 !in KeySet(p)
    requires LastValue(Writes(p), g) == LastCustom(p, g)
    ensures LastValue(Writes(p + [x]), g) == LastCustom(p + [x], g)
  {
    var b := Block(x.0, x.1);
    assert LastValue(Writes(p + [x]), g) == if LastValue(b, g).Some? then LastValue(b, g) else LastValue(Writes(p), g) by {
      WritesSnoc(p, x);
      LastValueConcat(Writes(p), b, g);
    }
    assert LastValue(b, g) == if g == x.0 && |x.1| > 0 then Some(CustomData(x.1[|x.1| - 1])) else None by {
      BlockLast(x.0, x.1, g);
    }
    assert LastCustom(p + [x], g)
        == if g != x.0 then LastCustom(p, g) else if |x.1| > 0 then Some(CustomData(x.1[|x.1| - 1])) else None by {
      LastCustomSnoc(p, x, g);
    }
    if g == x.0 {
      assert LastCustom(p, g).None? by {
        assert Get(p, g).None?;
      }
    }
  }

  /** With distinct group names, the last write to g is the custom data of the last modifier of g's list. */
  lemma {:induction false} WritesLast(d: Grouped, g: string)
    requires DistinctKeys(d)
    ensures LastValue(Writes(d), g) == LastCustom(d, g)
  {
    if |d| > 0 {
      var n := |d|;
      var p, x := d[..n - 1], d[n - 1];
      assert d == p + [x];
      assert DistinctKeys(p);
      assert x.0 !in KeySet(p);
      WritesLast(p, g);
      WritesLastStep(p, x, g);
    }
  }

  /** The last custom data of a grouped list is that of the last append to the group. */
  lemma LastCustomOfGroupAll(asg: Appends, g: string)
    ensures LastCustom(GroupAll(asg), g)
         == if LastValue(asg, g).Some? then Some(CustomData(LastValue(asg, g).value)) else None
  {
    GroupAllGet(asg, g);
    LastAppended(asg, g);
    LastCustomOf(GroupAll(asg), g, AppendedTo(asg, g), LastValue(asg, g));
  }

  lemma LastCustomOf(d: Grouped, g: string, a: seq<TargetModifier>, lv: Option<TargetModifier>)
    requires Get(d, g) == if |a| > 0 then Some(a) else None
    requires lv == if |a| > 0 then Some(a[|a| - 1]) else None
    ensures LastCustom(d, g) == if lv.Some? then Some(CustomData(lv.value)) else None
  {
  }

  /** Grouping a sequence of appends and writing the groups leaves each group the custom data of its last append. */
  lemma WritesOfAppends(asg: Appends, g: string)
    ensures Get(PutAll([], Writes(GroupAll(asg))), g)
         == if LastValue(asg, g).Some? then Some(CustomData(LastValue(asg, g).value)) else None
  {
    var d := GroupAll(asg);
    assert Get(PutAll([], Writes(d)), g) == LastValue(Writes(d), g) by {
      PutAllGet([], Writes(d), g);
    }
    assert LastValue(Writes(d), g) == LastCustom(d, g) by {
      GroupAllDistinct(asg);
      WritesLast(d, g);
    }
    LastCustomOfGroupAll(asg, g);
  }

  /**
    After import_modifiers, each group's custom data is that of the last
    modifier appended to the group, and a group is present iff a modifier
    was appended to it.
   */
  lemma LastModifierWins(groups: seq<(string, seq<ModifierJson>)>, ident: string -> string, g: string)
    requires ImportSpec(groups, ident).Success?
    ensures var asg := AllAppends(groups, None, ident).value.0;
            Get(ImportSpec(groups, ident).value, g)
            == if LastValue(asg, g).Some? then Some(CustomData(LastValue(asg, g).value)) else None
  {
    WritesOfAppends(AllAppends(groups, None, ident).value.0, g);
  }

  // ---------------------------------------------------------------------
  // import_modifiers: the loops

  /** The loop state of `AppendGroup`: the appends of this group so far, the grouped lists, the last modifier. */
  datatype AppendState = AppendState(acc: Appends, grouped: Grouped, last: Option<TargetModifier>)

  predicate AppendInv(st: AppendState, done: Appends, group: string, mods: seq<ModifierJson>, i: nat,
                      prev: Option<TargetModifier>, ident: string -> string)
  {
    && i <= |mods|
    && Prepend(st.acc, GroupAppends(group, mods[i..], st.last, ident)) == GroupAppends(group, mods, prev, ident)
    && st.grouped == GroupAll(done + st.acc)
  }

  /** What the loop over one group's records returns: the spec's failure, or the grouped lists with the group's appends. */
  predicate GroupAppended(r: Result<(Grouped, Option<TargetModifier>), TargetError>, done': Appends, done: Appends,
                          group: string, mods: seq<ModifierJson>, prev: Option<TargetModifier>, ident: string -> string)
  {
    var spec := GroupAppends(group, mods, prev, ident);
    && (spec.Failure? ==> r == Failure(spec.error))
    && (spec.Success? ==> done' == done + spec.value.0 && r == Success((GroupAll(done'), spec.value.1)))
  }

  lemma AppendStart(grouped: Grouped, done: Appends, group: string, mods: seq<ModifierJson>,
                    prev: Option<TargetModifier>, ident: string -> string)
    requires grouped == GroupAll(done)
    ensures AppendInv(AppendState([], grouped, prev), done, group, mods, 0, prev, ident)
  {
    assert mods[0..] == mods;
    assert done + [] == done;
    PrependEmpty(GroupAppends(group, mods, prev, ident));
  }

  lemma GroupAllSnoc(asg: Appends, x: (string, TargetModifier))
    ensures GroupAll(asg + [x]) == AppendTo(GroupAll(asg), x.0, x.1)
  {
    assert (asg + [x])[..|asg|] == asg;
  }

  lemma GroupAppendsUnfold(group: string, mods: seq<ModifierJson>, i: nat, last: Option<TargetModifier>,
                           ident: string -> string, m: TargetModifier)
    requires i < |mods| && RecordStep(group, mods[i], last, ident) == Success(Some(m))
    ensures GroupAppends(group, mods[i..], last, ident) == Prepend([(group, m)], GroupAppends(group, mods[i + 1..], Some(m), ident))
  {
    assert mods[i..][0] == mods[i] && mods[i..][1..] == mods[i + 1..];
  }

  lemma AppendStepSpec(acc: Appends, group: string, mods: seq<ModifierJson>, i: nat, last: Option<TargetModifier>,
                       ident: string -> string, m: TargetModifier, whole: Result<(Appends, Option<TargetModifier>), TargetError>)
    requires i < |mods| && RecordStep(group, mods[i], last, ident) == Success(Some(m))
    requires Prepend(acc, GroupAppends(group, mods[i..], last, ident)) == whole
    ensures Prepend(acc + [(group, m)], GroupAppends(group, mods[i + 1..], Some(m), ident)) == whole
  {
    GroupAppendsUnfold(group, mods, i, last, ident, m);
    PrependPrepend(acc, [(group, m)], GroupAppends(group, mods[i + 1..], Some(m), ident));
  }

  lemma AppendStepGrouped(done: Appends, acc: Appends, x: (string, TargetModifier))
    ensures AppendTo(GroupAll(done + acc), x.0, x.1) == GroupAll(done + (acc + [x]))
  {
    GroupAllSnoc(done + acc, x);
    assert done + acc + [x] == done + (acc + [x]);
  }

  lemma AppendStep(st: AppendState, done: Appends, group: string, mods: seq<ModifierJson>, i: nat,
                   prev: Option<TargetModifier>, ident: string -> string, m: TargetModifier)
    requires i < |mods| && AppendInv(st, done, group, mods, i, prev, ident)
    requires RecordStep(group, mods[i], st.last, ident) == Success(Some(m))
    ensures AppendInv(AppendState(st.acc + [(group, m)], AppendTo(st.grouped, group, m), Some(m)),
                      done, group, mods, i + 1, prev, ident)
  {
    AppendStepSpec(st.acc, group, mods, i, st.last, ident, m, GroupAppends(group, mods, prev, ident));
    AppendStepGrouped(done, st.acc, (group, m));
  }

  lemma AppendFails(st: AppendState, done: Appends, group: string, mods: seq<ModifierJson>, i: nat,
                    prev: Option<TargetModifier>, ident: string -> string, e: TargetError)
    requires i < |mods| && AppendInv(st, done, group, mods, i, prev, ident)
    requires RecordStep(group, mods[i], st.last, ident) == Failure(e)
    ensures GroupAppended(Failure(e), done + st.acc, done, group, mods, prev, ident)
  {
    assert mods[i..][0] == mods[i];
  }

  lemma AppendStops(st: AppendState, done: Appends, group: string, mods: seq<ModifierJson>, i: nat,
                    prev: Option<TargetModifier>, ident: string -> string)
    requires AppendInv(st, done, group, mods, i, prev, ident)
    requires i == |mods| || RecordStep(group, mods[i], st.last, ident) == Success(None)
    ensures GroupAppended(Success((st.grouped, st.last)), done + st.acc, done, group, mods, prev, ident)
  {
    if i < |mods| {
      assert mods[i..][0] == mods[i];
    }
    assert GroupAppends(group, mods[i..], st.last, ident) == Success(([], st.last));
    assert st.acc + [] == st.acc;
  }

  /** The inner loop of import_modifiers: appends each record's modifier to the group's list, leaving the group at a macrovar record. */
  method AppendGroup(grouped: Grouped, ghost done: Appends, group: string, mods: seq<ModifierJson>,
                     prev: Option<TargetModifier>, ident: string -> string)
    returns (r: Result<(Grouped, Option<TargetModifier>), TargetError>, ghost done': Appends)
    requires grouped == GroupAll(done)
    ensures GroupAppended(r, done', done, group, mods, prev, ident)
  {
    ghost var acc: Appends := [];
    var gs := grouped;
    var last := prev;
    AppendStart(grouped, done, group, mods, prev, ident);
    var i := 0;
    while i < |mods|
      invariant AppendInv(AppendState(acc, gs, last), done, group, mods, i, prev, ident)
      decreases |mods| - i
    {
      var s := RecordStep(group, mods[i], last, ident);
      if s.Failure? {
        AppendFails(AppendState(acc, gs, last), done, group, mods, i, prev, ident, s.error);
        return Failure(s.error), done + acc;
      }
      if s.value.None? {
        break;
      }
      AppendStep(AppendState(acc, gs, last), done, group, mods, i, prev, ident, s.value.value);
      gs := AppendTo(gs, group, s.value.value);
      acc := acc + [(group, s.value.value)];
      last := s.value;
      i := i + 1;
    }
    AppendStops(AppendState(acc, gs, last), done, group, mods, i, prev, ident);
    r, done' := Success((gs, last)), done + acc;
  }

  predicate GroupsInv(done: Appends, grouped: Grouped, last: Option<TargetModifier>,
                      groups: seq<(string, seq<ModifierJson>)>, k: nat, ident: string -> string)
  {
    && k <= |groups|
    && Prepend(done, AllAppends(groups[k..], last, ident)) == AllAppends(groups, None, ident)
    && grouped == GroupAll(done)
  }

  lemma GroupsStep(done: Appends, last: Option<TargetModifier>, groups: seq<(string, seq<ModifierJson>)>, k: nat,
                   ident: string -> string, r: Result<(Grouped, Option<TargetModifier>), TargetError>, done': Appends)
    requires k < |groups| && GroupsInv(done, GroupAll(done), last, groups, k, ident)
    requires GroupAppended(r, done', done, Capitalize(groups[k].0), groups[k].1, last, ident)
    ensures r.Failure? ==> AllAppends(groups, None, ident) == Failure(r.error)
    ensures r.Success? ==> GroupsInv(done', r.value.0, r.value.1, groups, k + 1, ident)
  {
    assert groups[k..][0] == groups[k] && groups[k..][1..] == groups[k + 1..];
    var g := GroupAppends(Capitalize(groups[k].0), groups[k].1, last, ident);
    if g.Success? {
      PrependPrepend(done, g.value.0, AllAppends(groups[k + 1..], g.value.1, ident));
    }
  }

  lemma GroupsDone(done: Appends, grouped: Grouped, last: Option<TargetModifier>,
                   groups: seq<(string, seq<ModifierJson>)>, ident: string -> string)
    requires GroupsInv(done, grouped, last, groups, |groups|, ident)
    ensures AllAppends(groups, None, ident) == Success((done, last))
  {
    assert groups[|groups|..] == [];
    assert done + [] == done;
  }

  /** The loop of the custom-data pass: the writes of the first k groups and the first j modifiers of group k. */
  function WritesUpTo(d: Grouped, k: nat, j: nat): seq<(string, Dict<string, CdValue>)>
    requires k < |d| && j <= |d[k].1|
  {
    Writes(d[..k]) + Block(d[k].0, d[k].1[..j])
  }

  lemma WritesUpToStep(d: Grouped, k: nat, j: nat)
    requires k < |d| && j < |d[k].1|
    ensures WritesUpTo(d, k, j + 1) == WritesUpTo(d, k, j) + [(d[k].0, CustomData(d[k].1[j]))]
  {
    assert Block(d[k].0, d[k].1[..j + 1]) == Block(d[k].0, d[k].1[..j]) + [(d[k].0, CustomData(d[k].1[j]))];
  }

  lemma WritesUpToNext(d: Grouped, k: nat)
    requires k < |d|
    ensures Writes(d[..k + 1]) == WritesUpTo(d, k, |d[k].1|)
  {
    assert d[..k + 1][..k] == d[..k];
    assert d[k].1[..|d[k].1|] == d[k].1;
  }

  lemma PutAllSnoc(kvs: seq<(string, Dict<string, CdValue>)>, x: (string, Dict<string, CdValue>))
    ensures PutAll([], kvs + [x]) == Put(PutAll([], kvs), x.0, x.1)
  {
    assert (kvs + [x])[..|kvs|] == kvs;
  }

  /** The inner loop of the custom-data pass over the modifiers of group k. */
  method WriteGroup(cd: CustomDataMap, d: Grouped, k: nat) returns (cd': CustomDataMap)
    requires k < |d| && cd == PutAll([], Writes(d[..k]))
    ensures cd' == PutAll([], Writes(d[..k + 1]))
  {
    cd' := cd;
    var (g, ms) := d[k];
    assert d[k].1[..0] == [] && Writes(d[..k]) + [] == Writes(d[..k]);
    for j := 0 to |ms|
      invariant cd' == PutAll([], WritesUpTo(d, k, j))
    {
      WritesUpToStep(d, k, j);
      PutAllSnoc(WritesUpTo(d, k, j), (g, CustomData(ms[j])));
      cd' := Put(cd', g, CustomData(ms[j]));
    }
    WritesUpToNext(d, k);
  }

  /**
    import_modifiers: groups every record's modifier by capitalised group
    name, then writes each group's custom data once per modifier of the
    group, so that the last one stays.
   */
  method ImportModifiers(groups: seq<(string, seq<ModifierJson>)>, ident: string -> string)
    returns (r: Result<CustomDataMap, TargetError>)
    ensures r == ImportSpec(groups, ident)
  {
    var grouped: Grouped := [];
    var last: Option<TargetModifier> := None;
    ghost var done: Appends := [];
    assert groups[0..] == groups;
    PrependEmpty(AllAppends(groups, None, ident));
    for k := 0 to |groups|
      invariant GroupsInv(done, grouped, last, groups, k, ident)
    {
      var res;
      ghost var done';
      res, done' := AppendGroup(grouped, done, Capitalize(groups[k].0), groups[k].1, last, ident);
      GroupsStep(done, last, groups, k, ident, res, done');
      if res.Failure? {
        return Failure(res.error);
      }
      grouped, last, done := res.value.0, res.value.1, done';
    }
    GroupsDone(done, grouped, last, groups, ident);
    var cd: CustomDataMap := [];
    assert grouped[..0] == [];
    for k := 0 to |grouped|
      invariant cd == PutAll([], Writes(grouped[..k]))
    {
      cd := WriteGroup(cd, grouped, k);
    }
    assert grouped[..|grouped|] == grouped;
    r := Success(cd);
  }

  // ---------------------------------------------------------------------
  // mhtarget_to_blendshapes: naming

  /** parts[index("targets") + 1 : -1]: the components between the first "targets" and the last one. */
  function Components(parts: seq<string>): (r: Result<seq<string>, TargetError>)
    ensures r.Failure? <==> "targets" !in parts
  {
    if "targets" !in parts then Failure(NoTargetsDir)
    else
      var a := IndexOf(parts, "targets") + 1;
      var b := |parts| - 1;
      Success(if a <= b then parts[a..b] else [])
  }

  /** The position of the last "." of p. */
  function LastDot(p: string): (r: Option<nat>)
    ensures r.None? <==> '.' !in p
    ensures r.Some? ==> r.value < |p| && p[r.value] == '.' && forall j :: r.value < j < |p| ==> p[j] != '.'
  {
    if |p| == 0 then None
    else if p[|p| - 1] == '.' then Some(|p| - 1)
    else
      var r := LastDot(p[..|p| - 1]);
      assert forall j :: 0 <= j < |p| - 1 ==> p[..|p| - 1][j] == p[j];
      assert '.' in p ==> exists j :: 0 <= j < |p| - 1 && p[j] == '.';
      r
  }

  /** os.path.splitext(name)[0] for a name without separators: cut at the last "." unless only dots precede it. */
  function Stem(p: string): string
  {
    var d := LastDot(p);
    if d.Some? && exists i :: 0 <= i < d.value && p[i] != '.' then p[..d.value] else p
  }

  /** A file name "x.target" has stem x, if x is not all dots. */
  lemma StemOfTargetFile(x: string)
    requires exists i :: 0 <= i < |x| && x[i] != '.'
    ensures Stem(x + ".target") == x
  {
    var p := x + ".target";
    assert p[|x|] == '.';
    assert forall j :: |x| < j < |p| ==> p[j] != '.';
    var d := LastDot(p);
    assert d == Some(|x|);
    var i :| 0 <= i < |x| && x[i] != '.';
    assert p[i] != '.';
    assert p[..|x|] == x;
  }

  /** A name without a dot, or whose dots all lead it, has no extension. */
  lemma StemUnchanged(p: string)
    requires forall i, j :: 0 <= i < j < |p| && p[j] == '.' ==> p[i] == '.'
    ensures Stem(p) == p
  {
  }

  /** The group prim name and the blend-shape name of a target file, from its path's components. */
  function NamesOf(parts: seq<string>, ident: string -> string): (r: Result<(string, string), TargetError>)
    ensures "targets" !in parts ==> r == Failure(NoTargetsDir)
    ensures Components(parts) == Success([]) ==> r == Failure(NoGroupDir)
  {
    var c := Components(parts);
    if c.Failure? then Failure(c.error)
    else if |c.value| == 0 then Failure(NoGroupDir)
    else
      var stem := Stem(parts[|parts| - 1]);
      var prefix := Join(c.value[1..], "_");
      Success((ident(c.value[0]), ident(if prefix != "" then prefix + "_" + stem else stem)))
  }

  function TargetNames(path: string, ident: string -> string): Result<(string, string), TargetError>
  {
    NamesOf(Split(path, '/'), ident)
  }

  /** With the first "targets" at position t, the components are those after it but the last. */
  lemma ComponentsAt(parts: seq<string>, t: nat)
    requires t + 1 < |parts| && parts[t] == "targets" && "targets" !in parts[..t]
    ensures Components(parts) == Success(parts[t + 1..|parts| - 1])
  {
  }

  /** The names from components with the first "targets" at position t and at least one directory after it. */
  lemma NamesOfParts(parts: seq<string>, t: nat, ident: string -> string)
    requires t + 2 < |parts| && parts[t] == "targets" && "targets" !in parts[..t]
    ensures var prefix := Join(parts[t + 2..|parts| - 1], "_");
            var stem := Stem(parts[|parts| - 1]);
            NamesOf(parts, ident) == Success((ident(parts[t + 1]), ident(if prefix != "" then prefix + "_" + stem else stem)))
  {
    ComponentsAt(parts, t);
    var comps := parts[t + 1..|parts| - 1];
    assert comps[0] == parts[t + 1] && comps[1..] == parts[t + 2..|parts| - 1];
  }

  lemma NoSlashParts(root: seq<string>, g: string, sub: seq<string>, file: string)
    requires forall i :: 0 <= i < |root| ==> '/' !in root[i]
    requires forall i :: 0 <= i < |sub| ==> '/' !in sub[i]
    requires '/' !in g && '/' !in file
    ensures var parts := root + ["targets", g] + sub + [file];
            forall i :: 0 <= i < |parts| ==> '/' !in parts[i]
  {
    var parts := root + ["targets", g] + sub + [file];
    forall i | 0 <= i < |parts| ensures '/' !in parts[i] {
      if i < |root| { assert parts[i] == root[i]; }
      else if |root| + 2 <= i < |root| + 2 + |sub| { assert parts[i] == sub[i - |root| - 2]; }
    }
  }

  /**
    A target file at <root>/targets/<group>/<sub...>/<file> belongs to the
    group prim ident(group) and its blend shape is named after the file's
    stem, prefixed with the sub-directories joined by "_" when there are any.
   */
  lemma TargetNamesOfLayout(root: seq<string>, g: string, sub: seq<string>, file: string, ident: string -> string)
    requires "targets" !in root
    requires forall i :: 0 <= i < |root| ==> '/' !in root[i]
    requires forall i :: 0 <= i < |sub| ==> '/' !in sub[i]
    requires '/' !in g && '/' !in file
    ensures var prefix := Join(sub, "_");
            TargetNames(Join(root + ["targets", g] + sub + [file], "/"), ident)
            == Success((ident(g), ident(if prefix != "" then prefix + "_" + Stem(file) else Stem(file))))
  {
    var parts := root + ["targets", g] + sub + [file];
    NoSlashParts(root, g, sub, file);
    assert parts[..|root|] == root;
    assert parts[|root| + 2..|parts| - 1] == sub;
    SplitJoin(parts, '/');
    NamesOfParts(parts, |root|, ident);
  }

  // ---------------------------------------------------------------------
  // mhtarget_to_blendshapes: the delta table

  /** What the table reader yields: a warning (an empty file, for one), or the rows of numbers. */
  datatype TargetFile = Warned | Table(rows: seq<seq<real>>)

  /** astype(int32) of a float: truncation toward zero. */
  function Trunc(x: real): int
  {
    if x >= 0.0 then x.Floor else -((-x).Floor)
  }

  /** The vertex indices of a blend shape and an offset row per index. */
  datatype Delta = Delta(indices: seq<int>, offsets: seq<seq<real>>)

  /** changed_offsets[np.isin(changed_indices, pool)]: the rows whose index is in the pool. */
  function SelectIn(xs: seq<seq<real>>, keys: seq<int>, pool: seq<int>): seq<seq<real>>
    requires |xs| == |keys|
  {
    if |xs| == 0 then []
    else SelectIn(xs[..|xs| - 1], keys[..|keys| - 1], pool) + (if keys[|keys| - 1] in pool then [xs[|xs| - 1]] else [])
  }

  /** Selecting the rows whose index is among the indices themselves keeps every row. */
  lemma {:induction false} SelectInAll(xs: seq<seq<real>>, keys: seq<int>, pool: seq<int>)
    requires |xs| == |keys| && forall k :: 0 <= k < |keys| ==> keys[k] in pool
    ensures SelectIn(xs, keys, pool) == xs
  {
    if |xs| > 0 {
      SelectInAll(xs[..|xs| - 1], keys[..|keys| - 1], pool);
      assert xs[..|xs| - 1] + [xs[|xs| - 1]] == xs;
    }
  }

  predicate Rectangular(rows: seq<seq<real>>)
  {
    forall k :: 0 <= k < |rows| ==> |rows[k]| == |rows[0]|
  }

  /**
    The indices are column 0, the offsets the remaining columns. A warning
    or an empty table gives nothing; ragged rows, a single row or a single
    column (read as a vector) are errors.
   */
  function ReadDelta(f: TargetFile): (r: Result<Option<Delta>, TargetError>)
    ensures f.Warned? ==> r == Success(None)
    ensures f.Table? && |f.rows| > 0 && !Rectangular(f.rows) ==> r == Failure(RaggedRows)
    ensures f.Table? && |f.rows| > 0 && Rectangular(f.rows) && (|f.rows| == 1 || |f.rows[0]| < 2) ==> r == Failure(NotATable)
    ensures r.Success? && r.value.Some? ==>
              && f.Table? && |r.value.value.indices| == |r.value.value.offsets| == |f.rows|
              && forall k :: 0 <= k < |f.rows| ==>
                   && |f.rows[k]| >= 2 && r.value.value.indices[k] == Trunc(f.rows[k][0])
                   && r.value.value.offsets[k] == f.rows[k][1..]
  {
    if f.Warned? || |f.rows| == 0 then Success(None)
    else if !Rectangular(f.rows) then Failure(RaggedRows)
    else if |f.rows| == 1 || |f.rows[0]| < 2 then Failure(NotATable)
    else
      var rows := f.rows;
      var indices := seq(|rows|, k requires 0 <= k < |rows| => Trunc(rows[k][0]));
      var tails := seq(|rows|, k requires 0 <= k < |rows| => rows[k][1..]);
      SelectInAll(tails, indices, indices);
      Success(Some(Delta(indices, SelectIn(tails, indices, indices))))
  }

  // ---------------------------------------------------------------------
  // mhtarget_to_blendshapes: binding the meshes

  function SeqMin(s: seq<int>): (m: int)
    requires |s| > 0
    ensures m in s && forall i :: 0 <= i < |s| ==> m <= s[i]
  {
    if |s| == 1 then s[0]
    else
      var rest := SeqMin(s[1..]);
      assert forall i :: 1 <= i < |s| ==> s[i] == s[1..][i - 1];
      if s[0] <= rest then s[0] else rest
  }

  function SeqMax(s: seq<int>): (m: int)
    requires |s| > 0
    ensures m in s && forall i :: 0 <= i < |s| ==> s[i] <= m
  {
    if |s| == 1 then s[0]
    else
      var rest := SeqMax(s[1..]);
      assert forall i :: 1 <= i < |s| ==> s[i] == s[1..][i - 1];
      if s[0] >= rest then s[0] else rest
  }

  /** Whether a target changes a mesh: some changed index lies in [min(vert_idxs), max(vert_idxs) + 1). A mesh without indices is an error. */
  function Affects(changed: seq<int>, vertIdxs: seq<int>): (r: Result<bool, TargetError>)
    ensures r.Failure? <==> |vertIdxs| == 0
    ensures r.Success? ==> (r.value <==> exists k :: 0 <= k < |changed| && SeqMin(vertIdxs) <= changed[k] <= SeqMax(vertIdxs))
  {
    if |vertIdxs| == 0 then Failure(EmptyMesh)
    else
      var lo, hi := SeqMin(vertIdxs), SeqMax(vertIdxs) + 1;
      Success(exists k :: 0 <= k < |changed| && lo <= changed[k] < hi)
  }

  /** A target that changes one of a mesh's own vertices is bound to the mesh. */
  lemma SharedVertexBinds(changed: seq<int>, vertIdxs: seq<int>, k: nat, j: nat)
    requires k < |changed| && j < |vertIdxs| && changed[k] == vertIdxs[j]
    ensures Affects(changed, vertIdxs) == Success(true)
  {
  }

  /** A target whose indices all lie outside the mesh's index range is not bound to it. */
  lemma OutsideRangeSkips(changed: seq<int>, vertIdxs: seq<int>)
    requires |vertIdxs| > 0
    requires forall k :: 0 <= k < |changed| ==> changed[k] < SeqMin(vertIdxs) || changed[k] > SeqMax(vertIdxs)
    ensures Affects(changed, vertIdxs) == Success(false)
  {
  }

  /** The mesh's blend-shape list after binding: unchanged if the name is there, else the name appended ([name] for an empty list). */
  function WithBlendShape(existing: seq<string>, name: string): (r: seq<string>)
    ensures name in r && existing <= r
    ensures name in existing ==> r == existing
    ensures name !in existing ==> r == existing + [name]
  {
    if name in existing then existing else existing + [name]
  }

  /** Binding twice is binding once. */
  lemma WithBlendShapeIdempotent(existing: seq<string>, name: string)
    ensures WithBlendShape(WithBlendShape(existing, name), name) == WithBlendShape(existing, name)
  {
  }

  /** Binding keeps a list of distinct names distinct. */
  lemma WithBlendShapeDistinct(existing: seq<string>, name: string)
    requires forall i, j :: 0 <= i < j < |existing| ==> existing[i] != existing[j]
    ensures var r := WithBlendShape(existing, name); forall i, j :: 0 <= i < j < |r| ==> r[i] != r[j]
  {
  }

  /** The position of the first mesh without face-vertex indices, or the number of meshes. */
  function FirstEmpty(vertIdxs: seq<seq<int>>): (n: nat)
    ensures n <= |vertIdxs| && (n < |vertIdxs| ==> |vertIdxs[n]| == 0)
    ensures forall k :: 0 <= k < n ==> |vertIdxs[k]| > 0
  {
    if |vertIdxs| == 0 then 0
    else if |vertIdxs[0]| == 0 then 0
    else
      var n := FirstEmpty(vertIdxs[1..]);
      assert forall k :: 1 <= k < |vertIdxs| ==> vertIdxs[k] == vertIdxs[1..][k - 1];
      1 + n
  }

  predicate Binds(changed: seq<int>, vertIdxs: seq<int>)
  {
    Affects(changed, vertIdxs) == Success(true)
  }

  /** One mesh's blend-shape list after the target is considered for it. */
  function BindOne(changed: seq<int>, vertIdxs: seq<int>, existing: seq<string>, name: string): seq<string>
  {
    if Binds(changed, vertIdxs) then WithBlendShape(existing, name) else existing
  }

  /** The blend-shape lists after the first n meshes are considered. */
  function BoundUpTo(changed: seq<int>, vertIdxs: seq<seq<int>>, shapes: seq<seq<string>>, name: string, n: nat)
    : (r: seq<seq<string>>)
    requires |shapes| == |vertIdxs|
    ensures |r| == |shapes|
    ensures forall k :: 0 <= k < |r| ==> r[k] == if k < n then BindOne(changed, vertIdxs[k], shapes[k], name) else shapes[k]
  {
    seq(|shapes|, k requires 0 <= k < |shapes| =>
      if k < n then BindOne(changed, vertIdxs[k], shapes[k], name) else shapes[k])
  }

  lemma BoundUpToStep(changed: seq<int>, vertIdxs: seq<seq<int>>, shapes: seq<seq<string>>, name: string, i: nat)
    requires |shapes| == |vertIdxs| && i < |shapes|
    ensures BoundUpTo(changed, vertIdxs, shapes, name, i)[i := BindOne(changed, vertIdxs[i], shapes[i], name)]
         == BoundUpTo(changed, vertIdxs, shapes, name, i + 1)
  {
  }

  /**
    The mesh loop: every mesh the target affects gets the blend shape named
    in its list, until the first mesh without indices, which raises; that
    mesh and the later ones keep their lists.
   */
  method BindMeshes(changed: seq<int>, vertIdxs: seq<seq<int>>, shapes: array<seq<string>>, name: string)
    returns (err: Option<TargetError>)
    requires shapes.Length == |vertIdxs|
    modifies shapes
    ensures err == if FirstEmpty(vertIdxs) < |vertIdxs| then Some(EmptyMesh) else None
    ensures shapes[..] == BoundUpTo(changed, vertIdxs, old(shapes[..]), name, FirstEmpty(vertIdxs))
  {
    ghost var s0 := shapes[..];
    var n := FirstEmpty(vertIdxs);
    for i := 0 to shapes.Length
      invariant i <= n
      invariant shapes[..] == BoundUpTo(changed, vertIdxs, s0, name, i)
    {
      var bound := Affects(changed, vertIdxs[i]);
      if bound.Failure? {
        return Some(EmptyMesh);
      }
      BoundUpToStep(changed, vertIdxs, s0, name, i);
      assert shapes[i] == s0[i];
      assert BindOne(changed, vertIdxs[i], s0[i], name) == if bound.value then WithBlendShape(s0[i], name) else s0[i];
      if bound.value {
        shapes[i] := WithBlendShape(shapes[i], name);
      }
    }
    err := None;
  }

  /** A blend shape created under the group prim of the targets prim. */
  datatype BlendShape = BlendShape(group: string, name: string, indices: seq<int>, offsets: seq<seq<real>>)

  /**
    mhtarget_to_blendshapes: names the blend shape after the path, reads the
    delta table, creates the blend shape and binds it to the meshes it
    affects. `created` is the blend shape if it was created, `err` the error
    raised, if any; a warning from the reader returns before anything is
    created.
   */
  method MhTargetToBlendShapes(path: string, ident: string -> string, file: TargetFile,
                               vertIdxs: seq<seq<int>>, shapes: array<seq<string>>)
    returns (created: Option<BlendShape>, err: Option<TargetError>)
    requires shapes.Length == |vertIdxs|
    modifies shapes
    ensures TargetNames(path, ident).Failure? ==>
              created.None? && err == Some(TargetNames(path, ident).error) && shapes[..] == old(shapes[..])
    ensures TargetNames(path, ident).Success? && ReadDelta(file).Failure? ==>
              created.None? && err == Some(ReadDelta(file).error) && shapes[..] == old(shapes[..])
    ensures TargetNames(path, ident).Success? && ReadDelta(file) == Success(None) ==>
              created.None? && err.None? && shapes[..] == old(shapes[..])
    ensures TargetNames(path, ident).Success? && ReadDelta(file).Success? && ReadDelta(file).value.Some? ==>
              var (g, name) := TargetNames(path, ident).value;
              var delta := ReadDelta(file).value.value;
              && created == Some(BlendShape(g, name, delta.indices, delta.offsets))
              && err == (if FirstEmpty(vertIdxs) < |vertIdxs| then Some(EmptyMesh) else None)
              && shapes[..] == BoundUpTo(delta.indices, vertIdxs, old(shapes[..]), name, FirstEmpty(vertIdxs))
  {
    var names := TargetNames(path, ident);
    if names.Failure? {
      return None, Some(names.error);
    }
    var delta := ReadDelta(file);
    if delta.Failure? {
      return None, Some(delta.error);
    }
    if delta.value.None? {
      return None, None;
    }
    var (g, name) := names.value;
    var d := delta.value.value;
    created := Some(BlendShape(g, name, d.indices, d.offsets));
    err := BindMeshes(d.indices, vertIdxs, shapes, name);
  }

  // ---------------------------------------------------------------------
  // import_targets

  /** The file names of a directory that are imported: those ending in ".target", in order. */
  function TargetFiles(filenames: seq<string>): (r: seq<string>)
    ensures forall f :: f in r <==> f in filenames && EndsWith(f, ".target")
  {
    if |filenames| == 0 then []
    else
      var rest := TargetFiles(filenames[..|filenames| - 1]);
      var f := filenames[|filenames| - 1];
      assert forall g :: g in filenames <==> g in filenames[..|filenames| - 1] || g == f;
      if EndsWith(f, ".target") then rest + [f] else rest
  }

  /** os.path.join(dirpath, filename) for a relative file name. */
  function JoinPath(dir: string, f: string): (p: string)
    ensures EndsWith(f, ".target") ==> EndsWith(p, ".target")
  {
    var p := if dir == "" || EndsWith(dir, "/") then dir + f else dir + "/" + f;
    assert p[|p| - |f|..] == f;
    p
  }

  /** The paths import_targets hands to mhtarget_to_blendshapes, directory by directory of the walk. */
  function TargetPaths(walk: seq<(string, seq<string>)>): (r: seq<string>)
    ensures forall i :: 0 <= i < |r| ==> EndsWith(r[i], ".target")
  {
    if |walk| == 0 then []
    else
      var (dir, fs) := walk[|walk| - 1];
      var here := TargetFiles(fs);
      TargetPaths(walk[..|walk| - 1]) + seq(|here|, i requires 0 <= i < |here| => JoinPath(dir, here[i]))
  }

  /** Every ".target" file of every directory is imported. */
  lemma {:induction false} TargetPathsComplete(walk: seq<(string, seq<string>)>, i: nat, f: string)
    requires i < |walk| && f in walk[i].1 && EndsWith(f, ".target")
    ensures JoinPath(walk[i].0, f) in TargetPaths(walk)
  {
    var n := |walk|;
    if i < n - 1 {
      TargetPathsComplete(walk[..n - 1], i, f);
    } else {
      var here := TargetFiles(walk[i].1);
      var j :| 0 <= j < |here| && here[j] == f;
      var post := seq(|here|, m requires 0 <= m < |here| => JoinPath(walk[i].0, here[m]));
      assert post[j] == JoinPath(walk[i].0, f);
    }
  }
}
