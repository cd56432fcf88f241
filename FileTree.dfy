/**
 * The Composite file tree of Tree.java: a component is either a file leaf
 * or a directory that owns a mutable, ordered list of children, and
 * `print` renders a component in pre-order, one line per node.
 *
 * The two Java classes FileLeaf and DirectoryComposite become one class
 * with a constant kind tag and two named constructors, so that a
 * directory's children list can hold both kinds.  The value type `Tree`
 * is what a component looks like to `print`; `Lines` is the rendering
 * specified on that value.
 */
module FileTree {

  /** Marker in front of a directory's name (Tree.java:48). */
  const DirectoryMarker: string := "+-- "
  /** Marker in front of a file's name (Tree.java:26). */
  const FileMarker: string := "|-- "
  /** What each nesting level adds to the prefix (Tree.java:50). */
  const IndentUnit: string := "   "

  /** The value view of a component. */
  datatype Tree = Leaf(name: string) | Dir(name: string, children: seq<Tree>)

  function Marker(t: Tree): string {
    if t.Dir? then DirectoryMarker else FileMarker
  }

  /** Number of nodes of a tree. */
  function Size(t: Tree): nat
    decreases t
  {
    match t
    case Leaf(_) => 1
    case Dir(_, cs) => 1 + SizeAll(cs)
  }

  function SizeAll(ts: seq<Tree>): nat
    decreases ts
  {
    if ts == [] then 0 else Size(ts[0]) + SizeAll(ts[1..])
  }

  /**
   * The lines `print(prefix)` emits for `t`: its own line, then the lines
   * of each child, in order, printed with one more indentation unit.
   */
  function Lines(t: Tree, prefix: string): (r: seq<string>)
    decreases t
    ensures |r| == Size(t)
    ensures forall i :: 0 <= i < |r| ==> prefix <= r[i]
  {
    match t
    case Leaf(n) => [prefix + FileMarker + n]
    case Dir(n, cs) => [prefix + DirectoryMarker + n] + ChildLines(cs, prefix + IndentUnit)
  }

  function ChildLines(ts: seq<Tree>, prefix: string): (r: seq<string>)
    decreases ts
    ensures |r| == SizeAll(ts)
    ensures forall i :: 0 <= i < |r| ==> prefix <= r[i]
  {
    if ts == [] then [] else Lines(ts[0], prefix) + ChildLines(ts[1..], prefix)
  }

  lemma {:induction false} ChildLinesAppend(ts: seq<Tree>, t: Tree, prefix: string)
    ensures ChildLines(ts + [t], prefix) == ChildLines(ts, prefix) + Lines(t, prefix)
    decreases ts
  {
    if ts == [] {
      assert [] + [t] == [t];
    } else {
      assert (ts + [t])[1..] == ts[1..] + [t];
      ChildLinesAppend(ts[1..], t, prefix);
    }
  }

  // ---------------------------------------------------------------------
  // An independent description of the rendering: the pre-order list of
  // nodes with their nesting level, each rendered on its own.

  /** One node of a pre-order listing: its nesting level, kind and name. */
  datatype Row = Row(level: nat, isDirectory: bool, name: string)

  /** The nodes of `t` in pre-order, `t` itself being at `level`. */
  function Preorder(t: Tree, level: nat): seq<Row>
    decreases t
  {
    match t
    case Leaf(n) => [Row(level, false, n)]
    case Dir(n, cs) => [Row(level, true, n)] + PreorderAll(cs, level + 1)
  }

  function PreorderAll(ts: seq<Tree>, level: nat): seq<Row>
    decreases ts
  {
    if ts == [] then [] else Preorder(ts[0], level) + PreorderAll(ts[1..], level)
  }

  /** `level` indentation units. */
  function Indentation(level: nat): string {
    if level == 0 then "" else Indentation(level - 1) + IndentUnit
  }

  /** The line of one pre-order row under a prefix. */
  function RenderRow(row: Row, prefix: string): string {
    prefix + Indentation(row.level) + (if row.isDirectory then DirectoryMarker else FileMarker) + row.name
  }

  function RenderRows(rows: seq<Row>, prefix: string): (r: seq<string>)
    ensures |r| == |rows|
    ensures forall i :: 0 <= i < |rows| ==> r[i] == RenderRow(rows[i], prefix)
  {
    if rows == [] then [] else [RenderRow(rows[0], prefix)] + RenderRows(rows[1..], prefix)
  }

  lemma RenderRowsAppend(a: seq<Row>, b: seq<Row>, prefix: string)
    ensures RenderRows(a + b, prefix) == RenderRows(a, prefix) + RenderRows(b, prefix)
  {
  }

  /** An indentation of `level` units is exactly 3 * level spaces. */
  lemma {:induction false} IndentationIsSpaces(level: nat)
    ensures |Indentation(level)| == 3 * level
    ensures forall i :: 0 <= i < |Indentation(level)| ==> Indentation(level)[i] == ' '
  {
    if level > 0 {
      IndentationIsSpaces(level - 1);
    }
  }

  /** The pre-order listing has one row per node. */
  lemma {:induction false} PreorderSize(t: Tree, level: nat)
    ensures |Preorder(t, level)| == Size(t)
    decreases t
  {
    match t
    case Leaf(_) =>
    case Dir(_, cs) => PreorderAllSize(cs, level + 1);
  }

  lemma {:induction false} PreorderAllSize(ts: seq<Tree>, level: nat)
    ensures |PreorderAll(ts, level)| == SizeAll(ts)
    decreases ts
  {
    if ts != [] {
      PreorderSize(ts[0], level);
      PreorderAllSize(ts[1..], level);
    }
  }

  /**
   * Printing `t` with `prefix` followed by `level` indentation units
   * emits, line by line, the pre-order rows of `t` each rendered with
   * `prefix` and the indentation of its own nesting level.
   */
  lemma {:induction false} LinesArePreorder(t: Tree, prefix: string, level: nat)
    ensures Lines(t, prefix + Indentation(level)) == RenderRows(Preorder(t, level), prefix)
    decreases t
  {
    match t
    case Leaf(n) =>
    case Dir(n, cs) =>
      assert prefix + Indentation(level) + IndentUnit == prefix + Indentation(level + 1);
      ChildLinesArePreorder(cs, prefix, level + 1);
      RenderRowsAppend([Row(level, true, n)], PreorderAll(cs, level + 1), prefix);
  }

  lemma {:induction false} ChildLinesArePreorder(ts: seq<Tree>, prefix: string, level: nat)
    ensures ChildLines(ts, prefix + Indentation(level)) == RenderRows(PreorderAll(ts, level), prefix)
    decreases ts
  {
    if ts != [] {
      LinesArePreorder(ts[0], prefix, level);
      ChildLinesArePreorder(ts[1..], prefix, level);
      RenderRowsAppend(Preorder(ts[0], level), PreorderAll(ts[1..], level), prefix);
    }
  }

  /**
   * What `print("")` emits: line i is the i-th node in pre-order, prefixed
   * by exactly 3 * k spaces where k is that node's nesting level (the root
   * being at level 0), then its kind's marker and its name.
   */
  lemma PrintFromRoot(t: Tree, i: nat)
    requires i < Size(t)
    ensures |Lines(t, "")| == |Preorder(t, 0)| == Size(t)
    ensures var row := Preorder(t, 0)[i];
      && Lines(t, "")[i] == Indentation(row.level) + (if row.isDirectory then DirectoryMarker else FileMarker) + row.name
      && |Indentation(row.level)| == 3 * row.level
      && forall j :: 0 <= j < 3 * row.level ==> Lines(t, "")[i][j] == ' '
  {
    PreorderSize(t, 0);
    LinesArePreorder(t, "", 0);
    assert "" + Indentation(0) == "";
    var row := Preorder(t, 0)[i];
    IndentationIsSpaces(row.level);
    assert "" + Indentation(row.level) == Indentation(row.level);
  }

  // ---------------------------------------------------------------------
  // The mutable composite.

  /** The first position of `x` in `s`. */
  function FirstIndex<T(==)>(s: seq<T>, x: T): (k: nat)
    requires x in s
    ensures k < |s| && s[k] == x && x !in s[..k]
  {
    if s[0] == x then 0 else 1 + FirstIndex(s[1..], x)
  }

  /**
   * `s` without its first occurrence of `x`, as java.util.List.remove(Object)
   * does.
   */
  function RemoveFirst<T(==)>(s: seq<T>, x: T): seq<T> {
    if s == [] then []
    else if s[0] == x then s[1..]
    else [s[0]] + RemoveFirst(s[1..], x)
  }

  /**
   * Removal takes out the element at its first position and nothing else;
   * it leaves `s` as it is when `x` does not occur.
   */
  lemma {:induction false} RemoveFirstSpec<T>(s: seq<T>, x: T)
    ensures x !in s ==> RemoveFirst(s, x) == s
    ensures x in s ==> RemoveFirst(s, x) == s[..FirstIndex(s, x)] + s[FirstIndex(s, x) + 1..]
  {
    if s != [] && s[0] != x {
      RemoveFirstSpec(s[1..], x);
      if x in s {
        var k := FirstIndex(s[1..], x);
        assert FirstIndex(s, x) == k + 1;
        assert s[..k + 1] == [s[0]] + s[1..][..k];
        assert s[k + 2..] == s[1..][k + 1..];
      }
    }
  }

  /** Removing the first occurrence keeps every other element, in order. */
  lemma RemoveFirstKeepsOthers<T>(s: seq<T>, x: T)
    ensures forall y :: y in RemoveFirst(s, x) ==> y in s
    ensures x in s ==> |RemoveFirst(s, x)| == |s| - 1 && multiset(RemoveFirst(s, x)) == multiset(s) - multiset{x}
  {
    RemoveFirstSpec(s, x);
    if x in s {
      var k := FirstIndex(s, x);
      assert s == s[..k] + [s[k]] + s[k + 1..];
    }
  }

  class FileSystemComponent {
    const name: string
    const isDirectory: bool
    var children: seq<FileSystemComponent>
    /** This component and everything reachable from it. */
    ghost var Repr: set<object>

    /** A leaf has no children, and the children graph is acyclic. */
    ghost predicate Valid()
      reads this, Repr
      decreases Repr
    {
      && this in Repr
      && (!isDirectory ==> children == [])
      && forall i :: 0 <= i < |children| ==>
           && children[i] in Repr
           && children[i].Repr <= Repr
           && this !in children[i].Repr
           && children[i].Valid()
    }

    /** The component as `print` sees it. */
    ghost function Model(): (t: Tree)
      reads this, Repr
      requires Valid()
      decreases Repr, 1
      ensures t.name == name && t.Dir? == isDirectory
    {
      if isDirectory then Dir(name, ModelsFrom(0)) else Leaf(name)
    }

    /** The value views of children[i..]. */
    ghost function ModelsFrom(i: nat): (ts: seq<Tree>)
      reads this, Repr
      requires Valid() && i <= |children|
      decreases Repr, 0, |children| - i
      ensures |ts| == |children| - i
      ensures forall k :: 0 <= k < |ts| ==> ts[k] == children[i + k].Model()
    {
      if i == |children| then [] else [children[i].Model()] + ModelsFrom(i + 1)
    }

    /** new FileLeaf(name) (Tree.java:20-22). */
    constructor FileLeaf(name: string)
      ensures Valid() && fresh(Repr - {this})
      ensures this.name == name && !isDirectory && children == []
      ensures Model() == Leaf(name)
    {
      this.name := name;
      isDirectory := false;
      children := [];
      Repr := {this};
    }

    /** new DirectoryComposite(name), with an empty children list (Tree.java:32-36). */
    constructor DirectoryComposite(name: string)
      ensures Valid() && fresh(Repr - {this})
      ensures this.name == name && isDirectory && children == []
      ensures Model() == Dir(name, [])
    {
      this.name := name;
      isDirectory := true;
      children := [];
      Repr := {this};
    }

    /** A childless component is seen as a childless node. */
    lemma ChildlessModel()
      requires Valid() && children == []
      ensures Model() == (if isDirectory then Dir(name, []) else Leaf(name))
    {
    }

    /**
     * add(component) (Tree.java:38-40): appends `component` at the end;
     * the existing children and their order are unchanged.
     */
    method Add(component: FileSystemComponent)
      requires Valid() && isDirectory
      requires component.Valid() && this !in component.Repr
      modifies this
      ensures Valid()
      ensures children == old(children) + [component]
      ensures Repr == old(Repr) + component.Repr
      ensures Model() == Dir(name, old(Model()).children + [component.Model()])
    {
      ghost var before := ModelsFrom(0);
      children := children + [component];
      Repr := Repr + component.Repr;
      assert Valid();
      assert ModelsFrom(0) == before + [component.Model()];
    }

    /**
     * remove(component) (Tree.java:42-44): deletes the first child that is
     * the very same object as `component`; when there is none, nothing
     * changes.
     */
    method Remove(component: FileSystemComponent)
      requires Valid() && isDirectory
      modifies this
      ensures Valid() && Repr == old(Repr)
      ensures children == RemoveFirst(old(children), component)
      ensures component !in old(children) ==> children == old(children)
    {
      var before := children;
      RemoveFirstSpec(before, component);
      RemoveFirstKeepsOthers(before, component);
      children := RemoveFirst(before, component);
      forall i | 0 <= i < |children|
        ensures children[i] in Repr && children[i].Repr <= Repr && this !in children[i].Repr && children[i].Valid()
      {
        assert children[i] in before;
        var j :| 0 <= j < |before| && before[j] == children[i];
        assert old(before[j].Valid());
      }
    }

    /**
     * print(prefix) (Tree.java:24-27 for a leaf, 46-52 for a directory):
     * returns the lines printed, which are those of the value view.
     */
    method Print(prefix: string) returns (lines: seq<string>)
      requires Valid()
      decreases Repr, 1
      ensures lines == Lines(Model(), prefix)
    {
      if !isDirectory {
        lines := [prefix + FileMarker + name];
      } else {
        var below := PrintChildren(prefix + IndentUnit);
        lines := [prefix + DirectoryMarker + name] + below;
      }
    }

    /** The loop of a directory's print over its children (Tree.java:49-51). */
    method PrintChildren(prefix: string) returns (lines: seq<string>)
      requires Valid()
      decreases Repr, 0
      ensures lines == ChildLines(ModelsFrom(0), prefix)
    {
      ghost var ts := ModelsFrom(0);
      lines := [];
      for i := 0 to |children|
        invariant lines == ChildLines(ts[..i], prefix)
      {
        assert children[i].Valid() && children[i].Repr < Repr;
        var sub := children[i].Print(prefix);
        ChildLinesAppend(ts[..i], ts[i], prefix);
        assert ts[..i + 1] == ts[..i] + [ts[i]];
        lines := lines + sub;
      }
      assert ts[..|children|] == ts;
    }
  }
}
