/**
  The joint data handed to the USD skeleton writer of the MakeHuman
  extension: joint names made into valid prim names, and a pre-order walk of
  the joint tree that records each joint's path, rest and bind transforms.
 */
module MhUsd {
  import opened Wrappers
  import opened Geometry
  import opened Dicts

  // ---------------------------------------------------------------------
  // sanitize

  predicate Illegal(c: char)
  {
    c == '.' || c == '-'
  }

  /** Every "." and "-" replaced by "_", every other character kept. */
  function Sanitized(s: string): (r: string)
    ensures |r| == |s|
    ensures forall i :: 0 <= i < |s| ==> r[i] == if Illegal(s[i]) then '_' else s[i]
  {
    seq(|s|, i requires 0 <= i < |s| => if Illegal(s[i]) then '_' else s[i])
  }

  /** A sanitized name holds no "." or "-", and sanitizing it again changes nothing. */
  lemma SanitizedClean(s: string)
    ensures forall i :: 0 <= i < |Sanitized(s)| ==> !Illegal(Sanitized(s)[i])
    ensures Sanitized(Sanitized(s)) == Sanitized(s)
  {
    assert Sanitized(Sanitized(s)) == Sanitized(s);
  }

  /** Names without "." or "-" are already sanitized. */
  lemma SanitizedLegal(s: string)
    requires forall i :: 0 <= i < |s| ==> !Illegal(s[i])
    ensures Sanitized(s) == s
  {
  }

  /** sanitize(s): one replacement pass per illegal character. */
  method Sanitize(s: string) returns (r: string)
    ensures r == Sanitized(s)
  {
    var illegal := ['.', '-'];
    r := s;
    for j := 0 to |illegal|
      invariant |r| == |s|
      invariant forall i :: 0 <= i < |s| ==> r[i] == if s[i] in illegal[..j] then '_' else s[i]
    {
      var c := illegal[j];
      var k := 0;
      var next := "";
      while k < |r|
        invariant k <= |r| && |next| == k
        invariant forall i :: 0 <= i < k ==> next[i] == if r[i] == c then '_' else r[i]
      {
        next := next + [if r[k] == c then '_' else r[k]];
        k := k + 1;
      }
      assert forall i :: 0 <= i < |s| ==> (s[i] in illegal[..j + 1] <==> s[i] in illegal[..j] || s[i] == c);
      r := next;
    }
    assert illegal[..2] == illegal;
  }

  // ---------------------------------------------------------------------
  // get_joint_data

  /**
    A skeleton node: its name, its children in order, its relative matrix
    and the first matrix of its bind pair, as the skeleton hands them out.
   */
  datatype Node = Node(name: string, children: seq<Node>, relative: Matrix4, bind: Matrix4)

  /** Every matrix of the tree is 4x4. */
  predicate WellFormed(n: Node)
  {
    IsMatrix4(n.relative) && forall i :: 0 <= i < |n.children| ==> WellFormed(n.children[i])
  }

  /** What the walk records for one joint. */
  datatype Entry = Entry(name: string, path: string, rest: Matrix4, bind: Matrix4)

  function Concat<T>(ss: seq<seq<T>>): seq<T>
  {
    if |ss| == 0 then [] else Concat(ss[..|ss| - 1]) + ss[|ss| - 1]
  }

  lemma {:induction false} ConcatAppend<T>(a: seq<seq<T>>, b: seq<seq<T>>)
    ensures Concat(a + b) == Concat(a) + Concat(b)
  {
    if |b| == 0 {
      assert a + b == a;
    } else {
      var n := |b|;
      assert (a + b)[..|a + b| - 1] == a + b[..n - 1];
      ConcatAppend(a, b[..n - 1]);
    }
  }

  lemma {:induction false} ConcatAt<T>(ss: seq<seq<T>>, c: nat)
    requires c < |ss|
    ensures Concat(ss) == Concat(ss[..c]) + ss[c] + Concat(ss[c + 1..])
  {
    assert ss == ss[..c] + [ss[c]] + ss[c + 1..];
    ConcatAppend(ss[..c] + [ss[c]], ss[c + 1..]);
    ConcatAppend(ss[..c], [ss[c]]);
    assert Concat([ss[c]]) == ss[c] by {
      assert [ss[c]][..0] == [];
    }
  }

  /**
    The joints in the order get_joint_data visits them: the node under
    prefix + sanitized name, then each child's subtree under that path + "/".
   */
  function Entries(prefix: string, n: Node): (r: seq<Entry>)
    requires WellFormed(n)
    ensures |r| >= 1
    ensures r[0] == Entry(Sanitized(n.name), prefix + Sanitized(n.name), Transpose(n.relative), n.bind)
    decreases n
  {
    var path := prefix + Sanitized(n.name);
    [Entry(Sanitized(n.name), path, Transpose(n.relative), n.bind)] + Concat(ChildEntries(path + "/", n))
  }

  /** The subtrees of the children, each under the given prefix. */
  function ChildEntries(prefix: string, n: Node): (r: seq<seq<Entry>>)
    requires WellFormed(n)
    ensures |r| == |n.children|
    decreases n, 0
  {
    seq(|n.children|, i requires 0 <= i < |n.children| => Entries(prefix, n.children[i]))
  }

  /**
    Pre-order: the node comes first, and child c's subtree follows the
    subtrees of the children before it, under the node's path + "/"; its
    first entry is the child itself.
   */
  lemma ChildBlock(prefix: string, n: Node, c: nat)
    requires WellFormed(n) && c < |n.children|
    ensures var path := prefix + Sanitized(n.name);
            var cs := ChildEntries(path + "/", n);
            Entries(prefix, n) == [Entries(prefix, n)[0]] + Concat(cs[..c]) + Entries(path + "/", n.children[c]) + Concat(cs[c + 1..])
  {
    var path := prefix + Sanitized(n.name);
    ConcatAt(ChildEntries(path + "/", n), c);
  }

  /** A child's path is its parent's path, "/", and its own sanitized name. */
  lemma ChildPath(prefix: string, n: Node, c: nat)
    requires WellFormed(n) && c < |n.children|
    ensures var path := prefix + Sanitized(n.name);
            var k := 1 + |Concat(ChildEntries(path + "/", n)[..c])|;
            k < |Entries(prefix, n)| && Entries(prefix, n)[k].path == path + "/" + Sanitized(n.children[c].name)
  {
    ChildBlock(prefix, n, c);
  }

  function Paths(es: seq<Entry>): (r: seq<string>)
    ensures |r| == |es| && forall i :: 0 <= i < |es| ==> r[i] == es[i].path
  {
    seq(|es|, i requires 0 <= i < |es| => es[i].path)
  }

  function Rests(es: seq<Entry>): (r: seq<Matrix4>)
    ensures |r| == |es| && forall i :: 0 <= i < |es| ==> r[i] == es[i].rest
  {
    seq(|es|, i requires 0 <= i < |es| => es[i].rest)
  }

  function Binds(es: seq<Entry>): (r: seq<Matrix4>)
    ensures |r| == |es| && forall i :: 0 <= i < |es| ==> r[i] == es[i].bind
  {
    seq(|es|, i requires 0 <= i < |es| => es[i].bind)
  }

  function NamePaths(es: seq<Entry>): (r: seq<(string, string)>)
    ensures |r| == |es| && forall i :: 0 <= i < |es| ==> r[i] == (es[i].name, es[i].path)
  {
    seq(|es|, i requires 0 <= i < |es| => (es[i].name, es[i].path))
  }

  /** The four parts of skel_data as values. */
  datatype Snapshot = Snapshot(jointPaths: seq<string>, restTransforms: seq<Matrix4>,
                               bindTransforms: seq<Matrix4>, jointToPath: Dict<string, string>)

  /** skel_data after the walk has recorded the given entries. */
  function Extend(s: Snapshot, es: seq<Entry>): Snapshot
  {
    Snapshot(s.jointPaths + Paths(es), s.restTransforms + Rests(es), s.bindTransforms + Binds(es),
             PutAll(s.jointToPath, NamePaths(es)))
  }

  lemma PathsAppend(s: Snapshot, a: seq<Entry>, b: seq<Entry>)
    ensures Extend(Extend(s, a), b).jointPaths == Extend(s, a + b).jointPaths
  {
    assert Paths(a + b) == Paths(a) + Paths(b);
  }

  lemma RestsAppend(s: Snapshot, a: seq<Entry>, b: seq<Entry>)
    ensures Extend(Extend(s, a), b).restTransforms == Extend(s, a + b).restTransforms
  {
    assert Rests(a + b) == Rests(a) + Rests(b);
  }

  lemma BindsAppend(s: Snapshot, a: seq<Entry>, b: seq<Entry>)
    ensures Extend(Extend(s, a), b).bindTransforms == Extend(s, a + b).bindTransforms
  {
    assert Binds(a + b) == Binds(a) + Binds(b);
  }

  lemma NamePathsAppend(s: Snapshot, a: seq<Entry>, b: seq<Entry>)
    ensures Extend(Extend(s, a), b).jointToPath == Extend(s, a + b).jointToPath
  {
    assert NamePaths(a + b) == NamePaths(a) + NamePaths(b);
    PutAllConcat(s.jointToPath, NamePaths(a), NamePaths(b));
  }

  lemma ExtendAppend(s: Snapshot, a: seq<Entry>, b: seq<Entry>)
    ensures Extend(Extend(s, a), b) == Extend(s, a + b)
  {
    PathsAppend(s, a, b);
    RestsAppend(s, a, b);
    BindsAppend(s, a, b);
    NamePathsAppend(s, a, b);
  }

  /** The skel_data dict the walk fills in place. */
  class SkelData {
    var jointPaths: seq<string>
    var restTransforms: seq<Matrix4>
    var bindTransforms: seq<Matrix4>
    var jointToPath: Dict<string, string>

    constructor ()
      ensures jointPaths == [] && restTransforms == [] && bindTransforms == [] && jointToPath == []
    {
      jointPaths, restTransforms, bindTransforms, jointToPath := [], [], [], [];
    }

    function Snap(): Snapshot
      reads this
    {
      Snapshot(jointPaths, restTransforms, bindTransforms, jointToPath)
    }
  }

  lemma ExtendOne(s: Snapshot, e: Entry)
    ensures Extend(s, [e]) == Snapshot(s.jointPaths + [e.path], s.restTransforms + [e.rest],
                                       s.bindTransforms + [e.bind], Put(s.jointToPath, e.name, e.path))
  {
    assert Paths([e]) == [e.path];
    assert Rests([e]) == [e.rest];
    assert Binds([e]) == [e.bind];
    assert NamePaths([e]) == [(e.name, e.path)];
    PutAllOne(s.jointToPath, (e.name, e.path));
  }

  lemma VisitStart(s: Snapshot, prefix: string, n: Node, name: string)
    requires WellFormed(n) && name == Sanitized(n.name)
    ensures Extend(s, [Entries(prefix, n)[0]])
         == Snapshot(s.jointPaths + [prefix + name], s.restTransforms + [Transpose(n.relative)],
                     s.bindTransforms + [n.bind], Put(s.jointToPath, name, prefix + name))
  {
    ExtendOne(s, Entries(prefix, n)[0]);
  }

  /** Recording one more child block extends the recorded prefix by that block. */
  lemma VisitChild(s0: Snapshot, head: seq<Entry>, cs: seq<seq<Entry>>, i: nat)
    requires i < |cs|
    ensures Extend(Extend(s0, head + Concat(cs[..i])), cs[i]) == Extend(s0, head + Concat(cs[..i + 1]))
  {
    var a := head + Concat(cs[..i]);
    assert head + Concat(cs[..i + 1]) == a + cs[i] by {
      assert cs[..i + 1][..i] == cs[..i];
    }
    ExtendAppend(s0, a, cs[i]);
  }

  lemma VisitDone(prefix: string, n: Node)
    requires WellFormed(n)
    ensures var cs := ChildEntries(prefix + Sanitized(n.name) + "/", n);
            [Entries(prefix, n)[0]] + Concat(cs[..|n.children|]) == Entries(prefix, n)
  {
    var cs := ChildEntries(prefix + Sanitized(n.name) + "/", n);
    assert cs[..|n.children|] == cs;
  }

  /**
    get_joint_data(path, node, skel_data): records the node under
    path + sanitize(name), then walks the children in order under that
    path + "/".
   */
  method Visit(d: SkelData, prefix: string, n: Node)
    requires WellFormed(n)
    modifies d
    ensures d.Snap() == Extend(old(d.Snap()), Entries(prefix, n))
    decreases n
  {
    ghost var s0 := d.Snap();
    var name := Sanitize(n.name);
    var path := prefix + name;
    d.jointPaths := d.jointPaths + [path];
    d.jointToPath := Put(d.jointToPath, name, path);
    d.restTransforms := d.restTransforms + [Transpose(n.relative)];
    d.bindTransforms := d.bindTransforms + [n.bind];
    VisitStart(s0, prefix, n, name);
    ghost var head := [Entries(prefix, n)[0]];
    ghost var cs := ChildEntries(path + "/", n);
    assert cs[..0] == [];
    for i := 0 to |n.children|
      invariant d.Snap() == Extend(s0, head + Concat(cs[..i]))
    {
      Visit(d, path + "/", n.children[i]);
      VisitChild(s0, head, cs, i);
    }
    VisitDone(prefix, n);
  }

  /** skel_data for a skeleton whose first root is the given node. */
  function JointData(root: Node): Snapshot
    requires WellFormed(root)
  {
    Extend(Snapshot([], [], [], []), Entries("", root))
  }

  /**
    get_joint_data(skeleton=...): the walk from the first root with an empty
    prefix; a skeleton without roots is an IndexError.
   */
  method GetJointData(roots: seq<Node>) returns (r: Option<Snapshot>)
    requires forall i :: 0 <= i < |roots| ==> WellFormed(roots[i])
    ensures r.None? <==> |roots| == 0
    ensures r.Some? ==> r.value == JointData(roots[0])
  {
    if |roots| == 0 {
      return None;
    }
    var d := new SkelData();
    Visit(d, "", roots[0]);
    r := Some(d.Snap());
  }

  /** The first path is the sanitized name of the root. */
  lemma FirstPath(root: Node)
    requires WellFormed(root)
    ensures |JointData(root).jointPaths| >= 1 && JointData(root).jointPaths[0] == Sanitized(root.name)
  {
  }

  /** The three lists grow in lockstep, one element per visited joint. */
  lemma Lockstep(root: Node)
    requires WellFormed(root)
    ensures var d := JointData(root);
            |d.jointPaths| == |d.restTransforms| == |d.bindTransforms| == |Entries("", root)|
  {
  }

  /**
    joint_to_path maps each sanitized name to the path of the last joint
    visited under that name, and knows no other names.
   */
  lemma JointToPathLastWins(root: Node, name: string)
    requires WellFormed(root)
    ensures Get(JointData(root).jointToPath, name) == LastValue(NamePaths(Entries("", root)), name)
  {
    PutAllGet([], NamePaths(Entries("", root)), name);
  }
}
