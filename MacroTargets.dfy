/**
  Macro-target interpolation: a macro variable's value picks a part of its
  range and blends between the part's low and high targets; the weights of
  several macro variables are combined into composite target file names
  with a product weight, and the weights are normalised to sum to 1.
 */
module MacroTargets {
  import opened Wrappers
  import opened Text
  import opened Dicts
  import opened Modifiers

  /** The weight dict of calculate_weight_for_part. */
  datatype Weight = Weight(low: string, high: string, weightLow: real, weightHigh: real)

  /** A weight as calculate_weight_for_part makes them: complementary, each in [0, 1]. */
  predicate Complementary(w: Weight)
  {
    0.0 <= w.weightLow <= 1.0 && 0.0 <= w.weightHigh <= 1.0 && w.weightLow + w.weightHigh == 1.0
  }

  /**
    calculate_weight_for_part(part, value): None outside [lowest, highest]
    (both bounds included) and for a part of zero width; otherwise the high
    weight is the value's position in the part.
   */
  function WeightForPart(p: Part, v: real): (r: Option<Weight>)
    ensures r.Some? <==> p.lowest <= v <= p.highest && p.lowest != p.highest
    ensures r.Some? ==> r.value.low == p.low && r.value.high == p.high && Complementary(r.value)
    ensures r.Some? ==> r.value.weightHigh * (p.highest - p.lowest) == v - p.lowest
  {
    if p.lowest <= v <= p.highest then
      var span := p.highest - p.lowest;
      if span == 0.0 then None
      else
        var wh := (v - p.lowest) / span;
        assert 0.0 <= wh <= 1.0 by {
          assert v - p.lowest <= span;
        }
        Some(Weight(p.low, p.high, 1.0 - wh, wh))
    else None
  }

  /** At the bounds of a part the weight is all low or all high. */
  lemma WeightAtBounds(p: Part)
    requires p.lowest < p.highest
    ensures WeightForPart(p, p.lowest) == Some(Weight(p.low, p.high, 1.0, 0.0))
    ensures WeightForPart(p, p.highest) == Some(Weight(p.low, p.high, 0.0, 1.0))
  {
    var span := p.highest - p.lowest;
    var lo, hi := WeightForPart(p, p.lowest).value, WeightForPart(p, p.highest).value;
    ZeroFactor(lo.weightHigh, span);
    UnitFactor(hi.weightHigh, span);
  }

  lemma ZeroFactor(a: real, c: real)
    requires c != 0.0 && a * c == 0.0
    ensures a == 0.0
  {
  }

  lemma UnitFactor(a: real, c: real)
    requires c != 0.0 && a * c == c
    ensures a == 1.0
  {
    assert (a - 1.0) * c == 0.0;
  }

  /** A larger value in the same part weighs the high target more. */
  lemma WeightMonotonic(p: Part, v: real, v': real)
    requires p.lowest <= v <= v' <= p.highest && p.lowest != p.highest
    ensures WeightForPart(p, v).value.weightHigh <= WeightForPart(p, v').value.weightHigh
  {
    var span := p.highest - p.lowest;
    var a, b := WeightForPart(p, v).value.weightHigh, WeightForPart(p, v').value.weightHigh;
    MulCancel(a, b, span, v - p.lowest, v' - p.lowest);
  }

  lemma MulCancel(a: real, b: real, c: real, x: real, y: real)
    requires a * c == x && b * c == y && x <= y && c > 0.0
    ensures a <= b
  {
    assert (b - a) * c == y - x;
  }

  lemma MulAtMost(a: real, b: real)
    requires 0.0 <= a && 0.0 <= b <= 1.0
    ensures 0.0 <= a * b <= a
  {
    assert a - a * b == a * (1.0 - b);
  }

  /** The weight of the first part that contains the value, if any. */
  function FirstWeight(parts: seq<Part>, v: real): (r: Option<Weight>)
    ensures r.None? <==> forall i :: 0 <= i < |parts| ==> WeightForPart(parts[i], v).None?
  {
    if |parts| == 0 then None
    else if WeightForPart(parts[0], v).Some? then WeightForPart(parts[0], v)
    else
      assert forall i :: 1 <= i < |parts| ==> parts[i] == parts[1..][i - 1];
      FirstWeight(parts[1..], v)
  }

  /** A found weight is that of a part containing the value, and every earlier part misses it. */
  lemma {:induction false} FirstWeightIsFirst(parts: seq<Part>, v: real)
    requires FirstWeight(parts, v).Some?
    ensures exists i :: 0 <= i < |parts| && FirstWeight(parts, v) == WeightForPart(parts[i], v)
                        && forall j :: 0 <= j < i ==> WeightForPart(parts[j], v).None?
  {
    if WeightForPart(parts[0], v).None? {
      FirstWeightIsFirst(parts[1..], v);
      var i :| 0 <= i < |parts[1..]| && FirstWeight(parts[1..], v) == WeightForPart(parts[1..][i], v)
               && forall j :: 0 <= j < i ==> WeightForPart(parts[1..][j], v).None?;
      assert forall j :: 1 <= j < i + 1 ==> parts[j] == parts[1..][j - 1];
      assert FirstWeight(parts, v) == WeightForPart(parts[i + 1], v);
    } else {
      assert FirstWeight(parts, v) == WeightForPart(parts[0], v);
    }
  }

  // ---------------------------------------------------------------------
  // calculate_weights_for_target, driven by the macro-target table

  /**
    The entry of one macro target: the first part weight for the supplied
    value, or for the centre of the range when none is supplied. The centre
    is computed either way, so a target without parts is an error.
   */
  function TableEntry(t: string, mt: MacroTarget, values: map<string, real>): (r: Result<Option<Weight>, ModError>)
    ensures r.Failure? <==> |mt.parts| == 0
    ensures r.Success? && t in values ==> r.value == FirstWeight(mt.parts, values[t])
    ensures r.Success? && t !in values ==> r.value == FirstWeight(mt.parts, CenterOfRange(mt.parts).value)
  {
    var center := CenterOfRange(mt.parts);
    if center.Failure? then Failure(center.error)
    else Success(FirstWeight(mt.parts, if t in values then values[t] else center.value))
  }

  function TableEntries(mts: Dict<string, MacroTarget>, values: map<string, real>)
    : (r: Result<seq<(string, Option<Weight>)>, ModError>)
    ensures r.Success? <==> forall i :: 0 <= i < |mts| ==> |mts[i].1.parts| > 0
    ensures r.Failure? ==> r.error == EmptyParts
    ensures r.Success? ==> |r.value| == |mts|
    ensures r.Success? ==>
              forall i :: 0 <= i < |mts| ==> r.value[i] == (mts[i].0, TableEntry(mts[i].0, mts[i].1, values).value)
  {
    if |mts| == 0 then Success([])
    else
      var n := |mts|;
      var p := TableEntries(mts[..n - 1], values);
      var e := TableEntry(mts[n - 1].0, mts[n - 1].1, values);
      assert forall i :: 0 <= i < n - 1 ==> mts[..n - 1][i] == mts[i];
      if p.Failure? then p
      else if e.Failure? then Failure(e.error)
      else Success(p.value + [(mts[n - 1].0, e.value)])
  }

  /** calculate_weights_for_target(macrotargets, values) of the interactive extension. */
  function WeightsByTable(mts: Dict<string, MacroTarget>, values: map<string, real>): Result<Dict<string, Weight>, ModError>
  {
    var es := TableEntries(mts, values);
    if es.Failure? then Failure(es.error) else Success(PutSome([], es.value))
  }

  /**
    Each macro target gets the weight of the first part containing its value
    (the supplied one, else the centre of its range); targets without such a
    part and names that are not macro targets are absent.
   */
  lemma WeightsByTableGet(mts: Dict<string, MacroTarget>, values: map<string, real>, t: string)
    requires DistinctKeys(mts) && WeightsByTable(mts, values).Success?
    ensures forall i :: 0 <= i < |mts| && mts[i].0 == t ==>
              Get(WeightsByTable(mts, values).value, t) == TableEntry(t, mts[i].1, values).value
    ensures t !in KeySet(mts) ==> Get(WeightsByTable(mts, values).value, t) == None
  {
    var es := TableEntries(mts, values).value;
    assert DistinctKeys(es);
    PutSomeGet([], es, t);
  }

  lemma TableEntryStep(mts: Dict<string, MacroTarget>, values: map<string, real>, i: nat)
    requires i < |mts| && TableEntries(mts[..i], values).Success?
    ensures TableEntries(mts[..i + 1], values)
         == var e := TableEntry(mts[i].0, mts[i].1, values);
            if e.Failure? then Failure(e.error) else Success(TableEntries(mts[..i], values).value + [(mts[i].0, e.value)])
  {
    assert mts[..i + 1][..i] == mts[..i];
  }

  lemma PutSomeSnoc<V>(d: Dict<string, V>, kvs: seq<(string, Option<V>)>, x: (string, Option<V>))
    ensures PutSome(d, kvs + [x]) == if x.1.Some? then Put(PutSome(d, kvs), x.0, x.1.value) else PutSome(d, kvs)
  {
    assert (kvs + [x])[..|kvs|] == kvs;
  }

  /** The loop invariant of CalculateWeightsByTable after i macro targets. */
  predicate TableLoopInv(mts: Dict<string, MacroTarget>, values: map<string, real>, i: nat, weights: Dict<string, Weight>)
  {
    i <= |mts| && TableEntries(mts[..i], values).Success? && weights == PutSome([], TableEntries(mts[..i], values).value)
  }

  lemma TableStep(mts: Dict<string, MacroTarget>, values: map<string, real>, i: nat, weights: Dict<string, Weight>, w: Option<Weight>)
    requires i < |mts| && TableLoopInv(mts, values, i, weights) && |mts[i].1.parts| > 0
    requires w == FirstWeight(mts[i].1.parts, if mts[i].0 in values then values[mts[i].0] else CenterOfRange(mts[i].1.parts).value)
    ensures TableLoopInv(mts, values, i + 1, if w.Some? then Put(weights, mts[i].0, w.value) else weights)
  {
    TableEntryStep(mts, values, i);
    PutSomeSnoc([], TableEntries(mts[..i], values).value, (mts[i].0, w));
  }

  lemma TableFails(mts: Dict<string, MacroTarget>, values: map<string, real>, i: nat)
    requires i < |mts| && |mts[i].1.parts| == 0
    ensures WeightsByTable(mts, values) == Failure(EmptyParts)
  {
  }

  lemma TableDone(mts: Dict<string, MacroTarget>, values: map<string, real>, weights: Dict<string, Weight>)
    requires TableLoopInv(mts, values, |mts|, weights)
    ensures WeightsByTable(mts, values) == Success(weights)
  {
    assert mts[..|mts|] == mts;
  }

  /** The loop of calculate_weights_for_target over the macro-target table. */
  method CalculateWeightsByTable(mts: Dict<string, MacroTarget>, values: map<string, real>)
    returns (r: Result<Dict<string, Weight>, ModError>)
    ensures r == WeightsByTable(mts, values)
  {
    var weights: Dict<string, Weight> := [];
    assert mts[..0] == [];
    for i := 0 to |mts|
      invariant TableLoopInv(mts, values, i, weights)
    {
      var (t, mt) := mts[i];
      var center := CenterOfRange(mt.parts);
      if center.Failure? {
        TableFails(mts, values, i);
        return Failure(center.error);
      }
      var value := if t in values then values[t] else center.value;
      var w := FirstWeight(mt.parts, value);
      TableStep(mts, values, i, weights, w);
      if w.Some? {
        weights := Put(weights, t, w.value);
      }
    }
    TableDone(mts, values, weights);
    r := Success(weights);
  }

  // ---------------------------------------------------------------------
  // calculate_weights_for_target, driven by the supplied values

  function ValueEntries(mts: map<string, MacroTarget>, values: Dict<string, real>)
    : (r: Result<seq<(string, Option<Weight>)>, ModError>)
    ensures r.Failure? <==> exists i :: 0 <= i < |values| && values[i].0 !in mts
    ensures r.Success? ==> |r.value| == |values|
    ensures r.Success? ==>
              forall i :: 0 <= i < |values| ==> r.value[i] == (values[i].0, FirstWeight(mts[values[i].0].parts, values[i].1))
  {
    if |values| == 0 then Success([])
    else
      var n := |values|;
      var p := ValueEntries(mts, values[..n - 1]);
      var (t, v) := values[n - 1];
      assert forall i :: 0 <= i < n - 1 ==> values[..n - 1][i] == values[i];
      if p.Failure? then p
      else if t !in mts then Failure(UnknownMacrovar(t))
      else Success(p.value + [(t, FirstWeight(mts[t].parts, v))])
  }

  /** calculate_weights_for_target(macrotargets, values) of the build scripts. */
  function WeightsByValues(mts: map<string, MacroTarget>, values: Dict<string, real>): Result<Dict<string, Weight>, ModError>
  {
    var es := ValueEntries(mts, values);
    if es.Failure? then Failure(es.error) else Success(PutSome([], es.value))
  }

  /**
    Only the supplied targets get weights, each that of the first part of its
    macro target containing the value; a supplied name that is not a macro
    target is a KeyError.
   */
  lemma WeightsByValuesGet(mts: map<string, MacroTarget>, values: Dict<string, real>, t: string)
    requires DistinctKeys(values) && WeightsByValues(mts, values).Success?
    ensures forall i :: 0 <= i < |values| && values[i].0 == t ==>
              Get(WeightsByValues(mts, values).value, t) == FirstWeight(mts[t].parts, values[i].1)
    ensures t !in KeySet(values) ==> Get(WeightsByValues(mts, values).value, t) == None
  {
    var es := ValueEntries(mts, values).value;
    assert DistinctKeys(es);
    PutSomeGet([], es, t);
  }

  lemma ValueEntryStep(mts: map<string, MacroTarget>, values: Dict<string, real>, i: nat)
    requires i < |values| && ValueEntries(mts, values[..i]).Success?
    ensures ValueEntries(mts, values[..i + 1])
         == if values[i].0 !in mts then Failure(UnknownMacrovar(values[i].0))
            else Success(ValueEntries(mts, values[..i]).value + [(values[i].0, FirstWeight(mts[values[i].0].parts, values[i].1))])
  {
    assert values[..i + 1][..i] == values[..i];
  }

  /** The first unknown name decides the error. */
  lemma {:induction false} ValueEntriesPrefixFails(mts: map<string, MacroTarget>, values: Dict<string, real>, i: nat)
    requires i <= |values| && ValueEntries(mts, values[..i]).Failure?
    ensures ValueEntries(mts, values) == ValueEntries(mts, values[..i])
    decreases |values|
  {
    if i == |values| {
      assert values[..i] == values;
    } else {
      var n := |values|;
      assert values[..n - 1][..i] == values[..i];
      ValueEntriesPrefixFails(mts, values[..n - 1], i);
    }
  }

  /** The loop invariant of CalculateWeightsByValues after i values. */
  predicate ValueLoopInv(mts: map<string, MacroTarget>, values: Dict<string, real>, i: nat, weights: Dict<string, Weight>)
  {
    i <= |values| && ValueEntries(mts, values[..i]).Success? && weights == PutSome([], ValueEntries(mts, values[..i]).value)
  }

  lemma ValueStep(mts: map<string, MacroTarget>, values: Dict<string, real>, i: nat, weights: Dict<string, Weight>, w: Option<Weight>)
    requires i < |values| && ValueLoopInv(mts, values, i, weights) && values[i].0 in mts
    requires w == FirstWeight(mts[values[i].0].parts, values[i].1)
    ensures ValueLoopInv(mts, values, i + 1, if w.Some? then Put(weights, values[i].0, w.value) else weights)
  {
    ValueEntryStep(mts, values, i);
    PutSomeSnoc([], ValueEntries(mts, values[..i]).value, (values[i].0, w));
  }

  lemma ValueFails(mts: map<string, MacroTarget>, values: Dict<string, real>, i: nat, weights: Dict<string, Weight>)
    requires i < |values| && ValueLoopInv(mts, values, i, weights) && values[i].0 !in mts
    ensures WeightsByValues(mts, values) == Failure(UnknownMacrovar(values[i].0))
  {
    ValueEntryStep(mts, values, i);
    ValueEntriesPrefixFails(mts, values, i + 1);
  }

  lemma ValueDone(mts: map<string, MacroTarget>, values: Dict<string, real>, weights: Dict<string, Weight>)
    requires ValueLoopInv(mts, values, |values|, weights)
    ensures WeightsByValues(mts, values) == Success(weights)
  {
    assert values[..|values|] == values;
  }

  /** The loop of calculate_weights_for_target over the supplied values. */
  method CalculateWeightsByValues(mts: map<string, MacroTarget>, values: Dict<string, real>)
    returns (r: Result<Dict<string, Weight>, ModError>)
    ensures r == WeightsByValues(mts, values)
  {
    var weights: Dict<string, Weight> := [];
    assert values[..0] == [];
    for i := 0 to |values|
      invariant ValueLoopInv(mts, values, i, weights)
    {
      var (t, v) := values[i];
      if t !in mts {
        ValueFails(mts, values, i, weights);
        return Failure(UnknownMacrovar(t));
      }
      var w := FirstWeight(mts[t].parts, v);
      ValueStep(mts, values, i, weights, w);
      if w.Some? {
        weights := Put(weights, t, w.value);
      }
    }
    ValueDone(mts, values, weights);
    r := Success(weights);
  }

  // ---------------------------------------------------------------------
  // compose_filenames

  /** The label of the dominant side; a tie picks the high label. */
  function ChosenLabel(w: Weight): (l: string)
    ensures l == w.low <==> (w.weightLow > w.weightHigh || w.low == w.high)
    ensures l == w.low || l == w.high
  {
    if w.weightLow > w.weightHigh then w.low else w.high
  }

  /** max(weight_low, weight_high) */
  function Dominant(w: Weight): (m: real)
    ensures m >= w.weightLow && m >= w.weightHigh && (m == w.weightLow || m == w.weightHigh)
  {
    if w.weightLow >= w.weightHigh then w.weightLow else w.weightHigh
  }

  /** The label one part contributes to a file name: the chosen label of its weights, "unknown" without any. */
  function PartLabel(g: Option<Weight>): string
  {
    if g.Some? then ChosenLabel(g.value) else "unknown"
  }

  /** The running product after one more part; a part without weights leaves it as it is. */
  function TimesDominant(w: real, g: Option<Weight>): real
  {
    if g.Some? then w * Dominant(g.value) else w
  }

  /** The chosen label of each part of a combination, "unknown" for a part without weights. */
  function ComboLabels(parts: seq<string>, weights: Dict<string, Weight>): (r: seq<string>)
    ensures |r| == |parts|
    ensures forall i :: 0 <= i < |parts| ==>
              r[i] == if Get(weights, parts[i]).Some? then ChosenLabel(Get(weights, parts[i]).value) else "unknown"
  {
    seq(|parts|, i requires 0 <= i < |parts| => PartLabel(Get(weights, parts[i])))
  }

  /** The running product of the dominant weights of the known parts. */
  function ComboWeight(parts: seq<string>, weights: Dict<string, Weight>): real
  {
    if |parts| == 0 then 1.0
    else TimesDominant(ComboWeight(parts[..|parts| - 1], weights), Get(weights, parts[|parts| - 1]))
  }

  predicate AllComplementary(weights: Dict<string, Weight>)
  {
    forall i :: 0 <= i < |weights| ==> Complementary(weights[i].1)
  }

  lemma GetComplementary(weights: Dict<string, Weight>, k: string)
    requires AllComplementary(weights) && Get(weights, k).Some?
    ensures Complementary(Get(weights, k).value)
  {
    if weights[0].0 != k {
      GetComplementary(weights[1..], k);
    }
  }

  /** The product of dominant complementary weights lies in [0, 1]; with no known part it is 1. */
  lemma {:induction false} ComboWeightBounds(parts: seq<string>, weights: Dict<string, Weight>)
    requires AllComplementary(weights)
    ensures 0.0 <= ComboWeight(parts, weights) <= 1.0
  {
    if |parts| > 0 {
      var n := |parts|;
      ComboWeightBounds(parts[..n - 1], weights);
      var g := Get(weights, parts[n - 1]);
      if g.Some? {
        GetComplementary(weights, parts[n - 1]);
      }
      TimesDominantBounds(ComboWeight(parts[..n - 1], weights), g);
    }
  }

  lemma TimesDominantBounds(w: real, g: Option<Weight>)
    requires 0.0 <= w <= 1.0 && (g.Some? ==> Complementary(g.value))
    ensures 0.0 <= TimesDominant(w, g) <= 1.0
  {
    if g.Some? {
      MulAtMost(w, Dominant(g.value));
    }
  }

  /** A combination none of whose parts has weights weighs 1. */
  lemma {:induction false} ComboWeightUnknown(parts: seq<string>, weights: Dict<string, Weight>)
    requires forall i :: 0 <= i < |parts| ==> Get(weights, parts[i]).None?
    ensures ComboWeight(parts, weights) == 1.0
  {
    if |parts| > 0 {
      var n := |parts|;
      assert forall i :: 0 <= i < n - 1 ==> parts[..n - 1][i] == parts[i];
      ComboWeightUnknown(parts[..n - 1], weights);
    }
  }

  /** "-".join(labels) + ".target" */
  function Filename(labels: seq<string>): (f: string)
    ensures EndsWith(f, ".target")
  {
    var f := Join(labels, "-") + ".target";
    assert f[|f| - 7..] == ".target";
    f
  }

  /** The labels come back from a file name by splitting its stem at "-", when no label holds a "-". */
  lemma FilenameLabels(labels: seq<string>)
    requires |labels| > 0 && forall i :: 0 <= i < |labels| ==> '-' !in labels[i]
    ensures var f := Filename(labels); Split(f[..|f| - 7], '-') == labels
  {
    var f := Filename(labels);
    assert f[..|f| - 7] == Join(labels, "-");
    SplitJoin(labels, '-');
  }

  /** The (file name, weight) assignments of the combinations, in order. */
  function ComboFiles(combos: Dict<string, seq<string>>, weights: Dict<string, Weight>): (r: seq<(string, real)>)
    ensures |r| == |combos|
    ensures forall i :: 0 <= i < |combos| ==>
              r[i] == (Filename(ComboLabels(combos[i].1, weights)), ComboWeight(combos[i].1, weights))
  {
    seq(|combos|, i requires 0 <= i < |combos| =>
      (Filename(ComboLabels(combos[i].1, weights)), ComboWeight(combos[i].1, weights)))
  }

  /** compose_filenames(combinations, weights): each file name holds the weight of the last combination naming it. */
  function ComposeSpec(combos: Dict<string, seq<string>>, weights: Dict<string, Weight>): Dict<string, real>
  {
    PutAll([], ComboFiles(combos, weights))
  }

  /** Two combinations with the same file name: the later weight stays. */
  lemma ComposeLastWins(combos: Dict<string, seq<string>>, weights: Dict<string, Weight>, f: string)
    ensures Get(ComposeSpec(combos, weights), f) == LastValue(ComboFiles(combos, weights), f)
  {
    PutAllGet([], ComboFiles(combos, weights), f);
  }

  /** The loop invariant of ComposeOne after i parts. */
  predicate ComposeInv(parts: seq<string>, weights: Dict<string, Weight>, i: nat, labels: seq<string>, w: real)
  {
    i <= |parts| && labels == ComboLabels(parts[..i], weights) && w == ComboWeight(parts[..i], weights)
  }

  lemma ComposeOneStep(parts: seq<string>, weights: Dict<string, Weight>, i: nat, labels: seq<string>, w: real)
    requires i < |parts| && ComposeInv(parts, weights, i, labels, w)
    ensures var g := Get(weights, parts[i]);
            ComposeInv(parts, weights, i + 1, labels + [PartLabel(g)], TimesDominant(w, g))
  {
    assert parts[..i + 1][..i] == parts[..i];
    assert ComboLabels(parts[..i + 1], weights) == ComboLabels(parts[..i], weights) + [PartLabel(Get(weights, parts[i]))];
  }

  lemma ComposeDone(parts: seq<string>, weights: Dict<string, Weight>, labels: seq<string>, w: real)
    requires ComposeInv(parts, weights, |parts|, labels, w)
    ensures labels == ComboLabels(parts, weights) && w == ComboWeight(parts, weights)
  {
    assert parts[..|parts|] == parts;
  }

  /** The inner loop: the labels and the running product of one combination. */
  method ComposeOne(parts: seq<string>, weights: Dict<string, Weight>) returns (labels: seq<string>, w: real)
    ensures labels == ComboLabels(parts, weights) && w == ComboWeight(parts, weights)
  {
    labels, w := [], 1.0;
    for i := 0 to |parts|
      invariant ComposeInv(parts, weights, i, labels, w)
    {
      ComposeOneStep(parts, weights, i, labels, w);
      var g := Get(weights, parts[i]);
      labels := labels + [PartLabel(g)];
      w := TimesDominant(w, g);
    }
    ComposeDone(parts, weights, labels, w);
  }

  lemma ComboFilesSnoc(combos: Dict<string, seq<string>>, weights: Dict<string, Weight>, i: nat)
    requires i < |combos|
    ensures PutAll([], ComboFiles(combos[..i + 1], weights))
         == Put(PutAll([], ComboFiles(combos[..i], weights)),
                Filename(ComboLabels(combos[i].1, weights)), ComboWeight(combos[i].1, weights))
  {
    assert ComboFiles(combos[..i + 1], weights)[..i] == ComboFiles(combos[..i], weights);
  }

  /** The outer loop of compose_filenames. */
  method ComposeFilenames(combos: Dict<string, seq<string>>, weights: Dict<string, Weight>) returns (r: Dict<string, real>)
    ensures r == ComposeSpec(combos, weights)
  {
    r := [];
    assert combos[..0] == [];
    for i := 0 to |combos|
      invariant r == PutAll([], ComboFiles(combos[..i], weights))
    {
      var labels, w := ComposeOne(combos[i].1, weights);
      ComboFilesSnoc(combos, weights, i);
      r := Put(r, Filename(labels), w);
    }
    assert combos[..|combos|] == combos;
  }

  // ---------------------------------------------------------------------
  // normalize_weights

  /** Every value divided by t, keys and order kept. */
  function Divided(d: Dict<string, real>, t: real): (r: Dict<string, real>)
    requires t != 0.0
    ensures |r| == |d| && forall i :: 0 <= i < |d| ==> r[i] == (d[i].0, d[i].1 / t)
  {
    MapValues(d, x => x / t)
  }

  lemma {:induction false} SumDivided(d: Dict<string, real>, t: real)
    requires t != 0.0
    ensures SumValues(Divided(d, t)) == SumValues(d) / t
  {
    if |d| > 0 {
      var n := |d|;
      assert Divided(d, t)[..n - 1] == Divided(d[..n - 1], t);
      SumDivided(d[..n - 1], t);
      var a, b := SumValues(d[..n - 1]), d[n - 1].1;
      assert a / t + b / t == (a + b) / t;
    }
  }

  /** After normalising a nonzero total, the weights sum to 1. */
  lemma NormalizedSumsToOne(d: Dict<string, real>)
    requires SumValues(d) != 0.0
    ensures SumValues(Divided(d, SumValues(d))) == 1.0
  {
    var t := SumValues(d);
    SumDivided(d, t);
    assert t / t == 1.0;
  }

  /**
    normalize_weights(filenames): a zero total leaves the weights unchanged;
    otherwise every weight is divided by the total, in place, keeping the
    keys and their order.
   */
  method NormalizeWeights(filenames: Dict<string, real>) returns (r: Dict<string, real>)
    ensures SumValues(filenames) == 0.0 ==> r == filenames
    ensures SumValues(filenames) != 0.0 ==> r == Divided(filenames, SumValues(filenames))
  {
    var total := SumValues(filenames);
    if total == 0.0 {
      return filenames;
    }
    r := filenames;
    for i := 0 to |r|
      invariant |r| == |filenames|
      invariant forall k :: 0 <= k < i ==> r[k] == (filenames[k].0, filenames[k].1 / total)
      invariant forall k :: i <= k < |r| ==> r[k] == filenames[k]
    {
      r := r[i := (r[i].0, r[i].1 / total)];
    }
  }
}
