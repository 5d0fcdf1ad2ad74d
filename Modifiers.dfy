/**
  The modifier records of the asset build: target modifiers (one blend shape,
  or a min/max pair), macro modifiers (driven by the macro-target table), the
  centre of a macro variable's range, and the grouping of all modifiers of a
  modifiers file by group and label.
 */
module Modifiers {
  import opened Wrappers
  import opened Text
  import opened Dicts

  /** The fields of one modifier record of the modifiers file that the constructors read. */
  datatype ModifierJson = ModifierJson(
    target: Option<string>, macrovar: Option<string>,
    min: Option<string>, max: Option<string>, modifierType: Option<string>)

  /** One part of a macro variable's range: values in [lowest, highest] blend from target `low` to target `high`. */
  datatype Part = Part(low: string, high: string, lowest: real, highest: real)

  /** An entry of the macro-target table. */
  datatype MacroTarget = MacroTarget(labelText: string, parts: seq<Part>)

  /** The data dict of a modifier. */
  datatype ModData =
    | TargetData(group: string, labelText: string, blend: Option<string>, minBlend: Option<string>,
                 maxBlend: Option<string>, minVal: int, maxVal: int)
    | MacroData(group: string, targetsPrefix: string, minVal: int, maxVal: int, labelText: string,
                macrovar: Option<string>, parts: Option<seq<Part>>, center: Option<real>)

  datatype ModError =
    | MacrodataNotLoaded      // ValueError of the MacroModifier constructor
    | NoMacrotargets          // KeyError of macrodata["macrotargets"]
    | UnknownMacrovar(name: string)  // KeyError of the macro-target lookup
    | EmptyParts              // min() of an empty sequence: ValueError
    | NoModifierYet           // a record with neither target nor macrovar before any modifier

  // ---------------------------------------------------------------------
  // Labels

  /** The words of a target modifier's label: the target's "-" segments, without a last segment holding "|"
      and without a first segment equal to the group when more than one segment remains. */
  function LabelWords(group: string, target: string): (r: seq<string>)
    ensures forall i :: 0 <= i < |r| ==> '-' !in r[i]
  {
    var t := Split(target, '-');
    var t' := if '|' in t[|t| - 1] then t[..|t| - 1] else t;
    if |t'| > 1 && t'[0] == group then t'[1..] else t'
  }

  function CapitalizeAll(ws: seq<string>): (r: seq<string>)
    ensures |r| == |ws| && forall i :: 0 <= i < |ws| ==> r[i] == Capitalize(ws[i])
  {
    seq(|ws|, i requires 0 <= i < |ws| => Capitalize(ws[i]))
  }

  /** " ".join(word.capitalize() for word in label) */
  function Label(group: string, target: string): string
  {
    Join(CapitalizeAll(LabelWords(group, target)), " ")
  }

  predicate PlainWords(ws: seq<string>)
  {
    |ws| > 0 && forall i :: 0 <= i < |ws| ==> '-' !in ws[i] && '|' !in ws[i]
  }

  /** A target made of plain words keeps all of them when it does not start with the group. */
  lemma LabelWordsPlain(group: string, ws: seq<string>)
    requires PlainWords(ws) && (|ws| > 1 ==> ws[0] != group)
    ensures LabelWords(group, Join(ws, "-")) == ws
  {
    SplitJoin(ws, '-');
  }

  /** A leading segment equal to the group is dropped while any word remains after it. */
  lemma LabelWordsDropsGroup(group: string, ws: seq<string>)
    requires PlainWords(ws) && '-' !in group && '|' !in group
    ensures LabelWords(group, Join([group] + ws, "-")) == ws
  {
    var all := [group] + ws;
    assert forall i :: 0 <= i < |all| ==> '-' !in all[i] && '|' !in all[i];
    SplitJoin(all, '-');
    assert all[1..] == ws;
  }

  /** A last segment holding "|" is dropped. */
  lemma LabelWordsDropsBar(group: string, ws: seq<string>, x: string)
    requires PlainWords(ws) && (|ws| > 1 ==> ws[0] != group) && '-' !in x && '|' in x
    ensures LabelWords(group, Join(ws + [x], "-")) == ws
  {
    var all := ws + [x];
    assert forall i :: 0 <= i < |all| ==> '-' !in all[i];
    SplitJoin(all, '-');
    assert all[..|all| - 1] == ws;
  }

  // ---------------------------------------------------------------------
  // Constructors

  /**
    TargetModifier(group, data): the label, and either one blend shape
    ident(target) on [0, 1] or, when both "min" and "max" are given, the pair
    ident(ident(target) + "_" + min/max) on [-1, 1]. A record without a target
    leaves the data empty (None).
   */
  function MakeTargetModifier(group: string, md: ModifierJson, ident: string -> string): (r: Option<ModData>)
    ensures r.Some? <==> md.target.Some?
    ensures r.Some? ==> r.value.TargetData? && r.value.group == group && r.value.maxVal == 1
    ensures r.Some? ==> r.value.labelText == Label(group, md.target.value)
    ensures r.Some? && md.min.Some? && md.max.Some? ==>
              && r.value.blend.None? && r.value.minVal == -1
              && r.value.minBlend == Some(ident(ident(md.target.value) + "_" + md.min.value))
              && r.value.maxBlend == Some(ident(ident(md.target.value) + "_" + md.max.value))
    ensures r.Some? && !(md.min.Some? && md.max.Some?) ==>
              && r.value.blend == Some(ident(md.target.value)) && r.value.minVal == 0
              && r.value.minBlend.None? && r.value.maxBlend.None?
  {
    if md.target.None? then None
    else
      var target := md.target.value;
      var blend := ident(target);
      if md.min.Some? && md.max.Some? then
        var lo := ident(blend + "_" + md.min.value);
        var hi := ident(blend + "_" + md.max.value);
        Some(TargetData(group, Label(group, target), None, Some(lo), Some(hi), -1, 1))
      else
        Some(TargetData(group, Label(group, target), Some(blend), None, None, 0, 1))
  }

  /** The group and targets prefix of a macro modifier: "a-b..." gives ("a", "b"), a name without "-" gives (name, ""). */
  function GroupAndPrefix(group: string): (r: (string, string))
    ensures '-' !in r.0 && '-' !in r.1
    ensures '-' !in group ==> r == (group, "")
  {
    if '-' in group then
      var parts := Split(group, '-');
      if |parts| < 2 then
        SplitNoSepInverse(group);
        (group, "")
      else (parts[0], parts[1])
    else (group, "")
  }

  lemma SplitNoSepInverse(s: string)
    requires '-' in s
    ensures |Split(s, '-')| >= 2
  {
    if |Split(s, '-')| < 2 {
      JoinSplit(s, '-');
    }
  }

  /** A hyphenated group splits at its first hyphen. */
  lemma GroupAndPrefixHyphen(a: string, b: string, rest: string)
    requires '-' !in a && '-' !in b
    ensures GroupAndPrefix(a + "-" + b) == (a, b)
    ensures GroupAndPrefix(a + "-" + b + "-" + rest) == (a, b)
  {
    assert a + "-" + b == a + ['-'] + b;
    assert (a + "-" + b)[|a|] == '-';
    SplitAppend(a, b, '-');
    SplitNoSep(b, '-');
    assert a + "-" + b + "-" + rest == a + ['-'] + (b + ['-'] + rest);
    assert (a + "-" + b + "-" + rest)[|a|] == '-';
    SplitAppend(a, b + ['-'] + rest, '-');
    SplitAppend(b, rest, '-');
  }

  /** min(part.lowest for part in parts) */
  function MinLowest(parts: seq<Part>): (m: real)
    requires |parts| > 0
    ensures exists i :: 0 <= i < |parts| && parts[i].lowest == m
    ensures forall i :: 0 <= i < |parts| ==> m <= parts[i].lowest
  {
    if |parts| == 1 then parts[0].lowest
    else
      var rest := MinLowest(parts[1..]);
      assert forall i :: 1 <= i < |parts| ==> parts[i] == parts[1..][i - 1];
      if parts[0].lowest <= rest then parts[0].lowest else rest
  }

  /** max(part.highest for part in parts) */
  function MaxHighest(parts: seq<Part>): (m: real)
    requires |parts| > 0
    ensures exists i :: 0 <= i < |parts| && parts[i].highest == m
    ensures forall i :: 0 <= i < |parts| ==> parts[i].highest <= m
  {
    if |parts| == 1 then parts[0].highest
    else
      var rest := MaxHighest(parts[1..]);
      assert forall i :: 1 <= i < |parts| ==> parts[i] == parts[1..][i - 1];
      if parts[0].highest >= rest then parts[0].highest else rest
  }

  /**
    calculate_center_of_range(parts): the midpoint of the smallest lowest and
    the largest highest bound, so within both whenever they are ordered. No
    parts is a ValueError of min().
   */
  function CenterOfRange(parts: seq<Part>): (r: Result<real, ModError>)
    ensures r.Success? <==> |parts| > 0
    ensures r.Failure? ==> r.error == EmptyParts
    ensures r.Success? ==> r.value - MinLowest(parts) == MaxHighest(parts) - r.value
    ensures r.Success? && MinLowest(parts) <= MaxHighest(parts) ==> MinLowest(parts) <= r.value <= MaxHighest(parts)
  {
    if |parts| == 0 then Failure(EmptyParts)
    else Success((MinLowest(parts) + MaxHighest(parts)) / 2.0)
  }

  /**
    The global macro.json document as MacroModifier reads it: whether it holds
    any key besides "macrotargets", and its "macrotargets" table when it has one.
   */
  datatype MacroDoc = MacroDoc(otherKeys: bool, macrotargets: Option<map<string, MacroTarget>>)

  /** The document counts as loaded once it has any key at all (the code tests the dict's truthiness). */
  predicate Loaded(macrodata: MacroDoc)
  {
    macrodata.otherKeys || macrodata.macrotargets.Some?
  }

  /**
    MacroModifier(group, data) with `macrodata` the global document (empty until it is
    loaded). Ethnic modifiers take the macro variable as label and no parts and never
    read the table; the others look their lower-cased macro variable up in the
    "macrotargets" table. A record without a macro variable leaves the data empty.
   */
  function MakeMacroModifier(group: string, md: ModifierJson, macrodata: MacroDoc)
    : (r: Result<Option<ModData>, ModError>)
    ensures !Loaded(macrodata) ==> r == Failure(MacrodataNotLoaded)
    ensures Loaded(macrodata) && md.macrovar.None? ==> r == Success(None)
    ensures r.Success? && r.value.Some? ==>
              && r.value.value.MacroData? && (r.value.value.group, r.value.value.targetsPrefix) == GroupAndPrefix(group)
              && r.value.value.minVal == 0 && r.value.value.maxVal == 1
    ensures Loaded(macrodata) && md.macrovar.Some? && md.modifierType == Some("EthnicModifier") ==>
              && r.Success? && r.value.Some?
              && r.value.value.labelText == md.macrovar.value
              && r.value.value.parts.None? && r.value.value.center.None? && r.value.value.macrovar.None?
    ensures Loaded(macrodata) && md.macrovar.Some? && md.modifierType != Some("EthnicModifier") ==>
              && (macrodata.macrotargets.None? ==> r == Failure(NoMacrotargets))
              && (macrodata.macrotargets.Some? ==>
                    var table := macrodata.macrotargets.value;
                    var key := Lower(md.macrovar.value);
                    && (key !in table ==> r == Failure(UnknownMacrovar(key)))
                    && (key in table && r.Success? ==>
                          && r.value.Some? && r.value.value.labelText == table[key].labelText
                          && r.value.value.macrovar == Some(key)
                          && r.value.value.parts == Some(table[key].parts)
                          && r.value.value.center.Some?
                          && CenterOfRange(table[key].parts) == Success(r.value.value.center.value))
                    && (key in table ==> (r.Success? <==> |table[key].parts| > 0)))
  {
    if !Loaded(macrodata) then Failure(MacrodataNotLoaded)
    else if md.macrovar.None? then Success(None)
    else
      var (g, prefix) := GroupAndPrefix(group);
      if md.modifierType == Some("EthnicModifier") then
        Success(Some(MacroData(g, prefix, 0, 1, md.macrovar.value, None, None, None)))
      else if macrodata.macrotargets.None? then Failure(NoMacrotargets)
      else
        var table := macrodata.macrotargets.value;
        var key := Lower(md.macrovar.value);
        if key !in table then Failure(UnknownMacrovar(key))
        else
          var entry := table[key];
          var center := CenterOfRange(entry.parts);
          if center.Failure? then Failure(center.error)
          else Success(Some(MacroData(g, prefix, 0, 1, entry.labelText, Some(key), Some(entry.parts), Some(center.value))))
  }

  function LabelOf(d: ModData): string
  {
    d.labelText
  }

  // ---------------------------------------------------------------------
  // import_modifiers: grouping by label

  /** The modifier a record of group `group` stands for; a record with neither field reuses the previous modifier. */
  function ModifierFor(group: string, md: ModifierJson, prev: Option<ModData>,
                       macrodata: MacroDoc, ident: string -> string): (r: Result<ModData, ModError>)
    ensures md.target.Some? ==> r == Success(MakeTargetModifier(group, md, ident).value)
    ensures md.target.None? && md.macrovar.None? ==> r == if prev.Some? then Success(prev.value) else Failure(NoModifierYet)
    ensures md.target.None? && md.macrovar.Some? ==>
              var m := MakeMacroModifier(group, md, macrodata);
              && (r.Success? <==> m.Success?)
              && (m.Failure? ==> r.error == m.error)
              && (m.Success? ==> m.value == Some(r.value))
  {
    if md.target.Some? then Success(MakeTargetModifier(group, md, ident).value)
    else if md.macrovar.Some? then
      var m := MakeMacroModifier(group, md, macrodata);
      if m.Failure? then Failure(m.error) else Success(m.value.value)
    else if prev.Some? then Success(prev.value)
    else Failure(NoModifierYet)
  }

  /** The (group, data) assignments of the records of one group, in order, and the last modifier. */
  function GroupAssignments(group: string, mods: seq<ModifierJson>, prev: Option<ModData>,
                            macrodata: MacroDoc, ident: string -> string)
    : (r: Result<(seq<(string, ModData)>, Option<ModData>), ModError>)
    ensures r.Success? ==> |r.value.0| == |mods| && forall i :: 0 <= i < |mods| ==> r.value.0[i].0 == group
  {
    if |mods| == 0 then Success(([], prev))
    else
      var p := GroupAssignments(group, mods[..|mods| - 1], prev, macrodata, ident);
      if p.Failure? then p
      else
        var m := ModifierFor(group, mods[|mods| - 1], p.value.1, macrodata, ident);
        if m.Failure? then Failure(m.error)
        else Success((p.value.0 + [(group, m.value)], Some(m.value)))
  }

  /** Every group name capitalised, every record of the file in order. */
  function Assignments(groups: seq<(string, seq<ModifierJson>)>, macrodata: MacroDoc,
                       ident: string -> string): Result<(seq<(string, ModData)>, Option<ModData>), ModError>
  {
    if |groups| == 0 then Success(([], None))
    else
      var p := Assignments(groups[..|groups| - 1], macrodata, ident);
      if p.Failure? then p
      else
        var (name, mods) := groups[|groups| - 1];
        var g := GroupAssignments(Capitalize(name), mods, p.value.1, macrodata, ident);
        if g.Failure? then g
        else Success((p.value.0 + g.value.0, g.value.1))
  }

  type Groups = Dict<string, Dict<string, ModData>>

  /** groups[g][label] = data on a defaultdict(dict). */
  function NestedPut(gs: Groups, g: string, d: ModData): Groups
  {
    var inner := if Get(gs, g).Some? then Get(gs, g).value else [];
    Put(gs, g, Put(inner, LabelOf(d), d))
  }

  function Lookup(gs: Groups, g: string, l: string): Option<ModData>
  {
    if Get(gs, g).None? then None else Get(Get(gs, g).value, l)
  }

  /** Storing under (g, label) makes it the value there and leaves every other (group, label) alone. */
  lemma NestedPutLookup(gs: Groups, g: string, d: ModData, g': string, l': string)
    ensures Lookup(NestedPut(gs, g, d), g, LabelOf(d)) == Some(d)
    ensures (g', l') != (g, LabelOf(d)) ==> Lookup(NestedPut(gs, g, d), g', l') == Lookup(gs, g', l')
  {
    var inner := if Get(gs, g).Some? then Get(gs, g).value else [];
    PutGet(gs, g, Put(inner, LabelOf(d), d), g');
    PutGet(inner, LabelOf(d), d, l');
  }

  function Store(gs: Groups, asg: seq<(string, ModData)>): Groups
  {
    if |asg| == 0 then gs else NestedPut(Store(gs, asg[..|asg| - 1]), asg[|asg| - 1].0, asg[|asg| - 1].1)
  }

  /** The (group, label) key of every assignment. */
  function Keyed(asg: seq<(string, ModData)>): (r: seq<((string, string), ModData)>)
    ensures |r| == |asg| && forall i :: 0 <= i < |asg| ==> r[i] == ((asg[i].0, LabelOf(asg[i].1)), asg[i].1)
  {
    seq(|asg|, i requires 0 <= i < |asg| => ((asg[i].0, LabelOf(asg[i].1)), asg[i].1))
  }

  /** After the import, each (group, label) holds the last modifier assigned to it: later duplicates overwrite. */
  lemma {:induction false} StoreLookup(gs: Groups, asg: seq<(string, ModData)>, g: string, l: string)
    ensures Lookup(Store(gs, asg), g, l)
         == if LastValue(Keyed(asg), (g, l)).Some? then LastValue(Keyed(asg), (g, l)) else Lookup(gs, g, l)
  {
    if |asg| > 0 {
      var n := |asg|;
      StoreLookup(gs, asg[..n - 1], g, l);
      NestedPutLookup(Store(gs, asg[..n - 1]), asg[n - 1].0, asg[n - 1].1, g, l);
      KeyedLast(asg, (g, l));
    }
  }

  /** The last assignment decides the key it names; any other key is decided by the earlier ones. */
  lemma KeyedLast(asg: seq<(string, ModData)>, k: (string, string))
    requires |asg| > 0
    ensures var (g, d) := asg[|asg| - 1];
            LastValue(Keyed(asg), k) == if (g, LabelOf(d)) == k then Some(d) else LastValue(Keyed(asg[..|asg| - 1]), k)
  {
    assert Keyed(asg)[..|asg| - 1] == Keyed(asg[..|asg| - 1]);
  }

  /** What import_modifiers stores in the prim's custom data, before serialisation. */
  function ImportSpec(groups: seq<(string, seq<ModifierJson>)>, macrodata: MacroDoc,
                      ident: string -> string): Result<Groups, ModError>
  {
    var a := Assignments(groups, macrodata, ident);
    if a.Failure? then Failure(a.error) else Success(Store([], a.value.0))
  }

  lemma StoreSnoc(gs: Groups, asg: seq<(string, ModData)>, x: (string, ModData))
    ensures Store(gs, asg + [x]) == NestedPut(Store(gs, asg), x.0, x.1)
  {
    assert (asg + [x])[..|asg|] == asg;
  }

  /** One more record of a group: the assignments so far extended by its modifier, or its failure. */
  lemma GroupAssignmentsStep(group: string, mods: seq<ModifierJson>, i: nat, prev: Option<ModData>,
                             macrodata: MacroDoc, ident: string -> string)
    requires i < |mods| && GroupAssignments(group, mods[..i], prev, macrodata, ident).Success?
    ensures var p := GroupAssignments(group, mods[..i], prev, macrodata, ident).value;
            var m := ModifierFor(group, mods[i], p.1, macrodata, ident);
            GroupAssignments(group, mods[..i + 1], prev, macrodata, ident)
            == if m.Failure? then Failure(m.error) else Success((p.0 + [(group, m.value)], Some(m.value)))
  {
    assert mods[..i + 1][..i] == mods[..i];
  }

  /** The loop state of `ImportGroup`: groups stored so far, the assignments behind them, the last modifier. */
  datatype GroupLoop = GroupLoop(groups: Groups, done: seq<(string, ModData)>, last: Option<ModData>)

  predicate GroupLoopInv(st: GroupLoop, done0: seq<(string, ModData)>, group: string, mods: seq<ModifierJson>, i: nat,
                         prev: Option<ModData>, macrodata: MacroDoc, ident: string -> string)
    requires i <= |mods|
  {
    var p := GroupAssignments(group, mods[..i], prev, macrodata, ident);
    && p.Success? && st.done == done0 + p.value.0 && st.last == p.value.1 && st.groups == Store([], st.done)
  }

  lemma GroupAssignmentsSnoc(group: string, mods: seq<ModifierJson>, i: nat, prev: Option<ModData>,
                              macrodata: MacroDoc, ident: string -> string, d: ModData)
    requires i < |mods| && GroupAssignments(group, mods[..i], prev, macrodata, ident).Success?
    requires ModifierFor(group, mods[i], GroupAssignments(group, mods[..i], prev, macrodata, ident).value.1,
                         macrodata, ident) == Success(d)
    ensures GroupAssignments(group, mods[..i + 1], prev, macrodata, ident)
         == Success((GroupAssignments(group, mods[..i], prev, macrodata, ident).value.0 + [(group, d)], Some(d)))
  {
    GroupAssignmentsStep(group, mods, i, prev, macrodata, ident);
  }

  lemma GroupLoopStep(st: GroupLoop, done0: seq<(string, ModData)>, group: string, mods: seq<ModifierJson>, i: nat,
                      prev: Option<ModData>, macrodata: MacroDoc, ident: string -> string,
                      d: ModData)
    requires i < |mods| && GroupLoopInv(st, done0, group, mods, i, prev, macrodata, ident)
    requires ModifierFor(group, mods[i], st.last, macrodata, ident) == Success(d)
    ensures GroupLoopInv(GroupLoop(NestedPut(st.groups, group, d), st.done + [(group, d)], Some(d)),
                         done0, group, mods, i + 1, prev, macrodata, ident)
  {
    var p := GroupAssignments(group, mods[..i], prev, macrodata, ident).value;
    GroupAssignmentsSnoc(group, mods, i, prev, macrodata, ident, d);
    assert st.done + [(group, d)] == done0 + (p.0 + [(group, d)]);
    StoreSnoc([], st.done, (group, d));
  }

  /** What the inner loop over one group returns: the spec's failure, or the stored assignments and the last modifier. */
  predicate GroupImported(r: Result<(Groups, Option<ModData>), ModError>, done': seq<(string, ModData)>,
                          done: seq<(string, ModData)>, group: string, mods: seq<ModifierJson>, prev: Option<ModData>,
                          macrodata: MacroDoc, ident: string -> string)
  {
    var spec := GroupAssignments(group, mods, prev, macrodata, ident);
    && (spec.Failure? ==> r == Failure(spec.error))
    && (spec.Success? ==> done' == done + spec.value.0 && r == Success((Store([], done'), spec.value.1)))
  }

  lemma GroupLoopDone(st: GroupLoop, done0: seq<(string, ModData)>, group: string, mods: seq<ModifierJson>,
                      prev: Option<ModData>, macrodata: MacroDoc, ident: string -> string)
    requires GroupLoopInv(st, done0, group, mods, |mods|, prev, macrodata, ident)
    ensures GroupImported(Success((st.groups, st.last)), st.done, done0, group, mods, prev, macrodata, ident)
  {
    assert mods[..|mods|] == mods;
  }

  lemma GroupLoopFails(st: GroupLoop, done0: seq<(string, ModData)>, group: string, mods: seq<ModifierJson>, i: nat,
                       prev: Option<ModData>, macrodata: MacroDoc, ident: string -> string,
                       e: ModError)
    requires i < |mods| && GroupLoopInv(st, done0, group, mods, i, prev, macrodata, ident)
    requires ModifierFor(group, mods[i], st.last, macrodata, ident) == Failure(e)
    ensures GroupImported(Failure(e), st.done, done0, group, mods, prev, macrodata, ident)
  {
    GroupAssignmentsStep(group, mods, i, prev, macrodata, ident);
    GroupAssignmentsFailure(group, mods, i + 1, prev, macrodata, ident);
  }

  lemma GroupLoopStart(gs: Groups, done0: seq<(string, ModData)>, group: string, mods: seq<ModifierJson>,
                       prev: Option<ModData>, macrodata: MacroDoc, ident: string -> string)
    requires gs == Store([], done0)
    ensures GroupLoopInv(GroupLoop(gs, done0, prev), done0, group, mods, 0, prev, macrodata, ident)
  {
    assert mods[..0] == [];
  }

  /** The inner loop of import_modifiers over the records of one group. */
  method ImportGroup(gs: Groups, ghost done: seq<(string, ModData)>, group: string, mods: seq<ModifierJson>,
                     prev: Option<ModData>, macrodata: MacroDoc, ident: string -> string)
    returns (r: Result<(Groups, Option<ModData>), ModError>, ghost done': seq<(string, ModData)>)
    requires gs == Store([], done)
    ensures GroupImported(r, done', done, group, mods, prev, macrodata, ident)
  {
    var groups := gs;
    var last := prev;
    done' := done;
    GroupLoopStart(gs, done, group, mods, prev, macrodata, ident);
    for i := 0 to |mods|
      invariant GroupLoopInv(GroupLoop(groups, done', last), done, group, mods, i, prev, macrodata, ident)
    {
      var m := ModifierFor(group, mods[i], last, macrodata, ident);
      if m.Failure? {
        GroupLoopFails(GroupLoop(groups, done', last), done, group, mods, i, prev, macrodata, ident, m.error);
        return Failure(m.error), done';
      }
      GroupLoopStep(GroupLoop(groups, done', last), done, group, mods, i, prev, macrodata, ident, m.value);
      groups := NestedPut(groups, group, m.value);
      done' := done' + [(group, m.value)];
      last := Some(m.value);
    }
    GroupLoopDone(GroupLoop(groups, done', last), done, group, mods, prev, macrodata, ident);
    r := Success((groups, last));
  }

  /** A failure among the first records of a group is the failure of the whole group. */
  lemma {:induction false} GroupAssignmentsFailure(group: string, mods: seq<ModifierJson>, i: nat, prev: Option<ModData>,
                                                   macrodata: MacroDoc, ident: string -> string)
    requires i <= |mods| && GroupAssignments(group, mods[..i], prev, macrodata, ident).Failure?
    ensures GroupAssignments(group, mods, prev, macrodata, ident) == GroupAssignments(group, mods[..i], prev, macrodata, ident)
  {
    if i < |mods| {
      var init := mods[..|mods| - 1];
      assert init[..i] == mods[..i];
      GroupAssignmentsFailure(group, init, i, prev, macrodata, ident);
      GroupAssignmentsInitFails(group, mods, prev, macrodata, ident);
    } else {
      assert mods[..i] == mods;
    }
  }

  lemma GroupAssignmentsInitFails(group: string, mods: seq<ModifierJson>, prev: Option<ModData>,
                                  macrodata: MacroDoc, ident: string -> string)
    requires |mods| > 0 && GroupAssignments(group, mods[..|mods| - 1], prev, macrodata, ident).Failure?
    ensures GroupAssignments(group, mods, prev, macrodata, ident) == GroupAssignments(group, mods[..|mods| - 1], prev, macrodata, ident)
  {
  }

  /** A failure in the first groups is the failure of the whole import. */
  lemma {:induction false} AssignmentsFailure(groups: seq<(string, seq<ModifierJson>)>, i: nat,
                                              macrodata: MacroDoc, ident: string -> string)
    requires i <= |groups| && Assignments(groups[..i], macrodata, ident).Failure?
    ensures Assignments(groups, macrodata, ident) == Assignments(groups[..i], macrodata, ident)
  {
    if i < |groups| {
      var init := groups[..|groups| - 1];
      assert init[..i] == groups[..i];
      AssignmentsFailure(init, i, macrodata, ident);
      AssignmentsInitFails(groups, macrodata, ident);
    } else {
      assert groups[..i] == groups;
    }
  }

  lemma AssignmentsInitFails(groups: seq<(string, seq<ModifierJson>)>, macrodata: MacroDoc,
                             ident: string -> string)
    requires |groups| > 0 && Assignments(groups[..|groups| - 1], macrodata, ident).Failure?
    ensures Assignments(groups, macrodata, ident) == Assignments(groups[..|groups| - 1], macrodata, ident)
  {
  }

  /**
    import_modifiers: every record of every group is turned into a modifier
    and stored under its capitalised group name and its label.
   */
  method ImportModifiers(groups: seq<(string, seq<ModifierJson>)>, macrodata: MacroDoc,
                         ident: string -> string) returns (r: Result<Groups, ModError>)
    ensures r == ImportSpec(groups, macrodata, ident)
  {
    var gs: Groups := [];
    var prev: Option<ModData> := None;
    ghost var done: seq<(string, ModData)> := [];
    assert groups[..0] == [];
    for k := 0 to |groups|
      invariant Assignments(groups[..k], macrodata, ident) == Success((done, prev))
      invariant gs == Store([], done)
    {
      assert groups[..k + 1][..k] == groups[..k];
      var (name, mods) := groups[k];
      var res;
      res, done := ImportGroup(gs, done, Capitalize(name), mods, prev, macrodata, ident);
      if res.Failure? {
        AssignmentsFailure(groups, k + 1, macrodata, ident);
        return Failure(res.error);
      }
      gs, prev := res.value.0, res.value.1;
    }
    assert groups[..|groups|] == groups;
    r := Success(gs);
  }

  /** After import_modifiers, each (group, label) holds the last modifier of that group with that label. */
  lemma LastLabelWins(groups: seq<(string, seq<ModifierJson>)>, macrodata: MacroDoc,
                      ident: string -> string, g: string, l: string)
    requires ImportSpec(groups, macrodata, ident).Success?
    ensures var asg := Assignments(groups, macrodata, ident).value.0;
            Lookup(ImportSpec(groups, macrodata, ident).value, g, l) == LastValue(Keyed(asg), (g, l))
  {
    var asg := Assignments(groups, macrodata, ident).value.0;
    StoreLookup([], asg, g, l);
  }
}
