/**
 * The depth-bounded walk of Tree.main: the anonymous SimpleFileVisitor
 * (a `currentDepth` counter plus the `root` directory it appends to), the
 * filesystem walk that drives it, and the program that prints the result.
 *
 * As written, every directory and file the visitor accepts is appended to
 * `root` itself, never to its parent directory, and a directory is skipped
 * only when `currentDepth > maxDepth`.  The model follows that code.
 */
module TreeWalk {
  import opened FileTree

  /** The depth bound of Tree.main (Tree.java:59). */
  const MaxDepth: int := 3

  /** A path as its sequence of name components; two paths are equal when their components are. */
  type Path = seq<string>

  /** getFileName(): the last component; a path without components has none. */
  function FileName(p: Path): string
    requires |p| > 0
  {
    p[|p| - 1]
  }

  datatype FileVisitResult = Continue | SkipSubtree

  /**
   * The filesystem below the walk's start: a regular file (or anything that
   * is not a directory), a directory with its entries in iteration order,
   * or an entry whose attributes or listing cannot be read.
   */
  datatype FsEntry =
    | FileEntry(name: string)
    | DirectoryEntry(name: string, entries: seq<FsEntry>)
    | UnreadableEntry(name: string)

  /** How a component added to `root` looks: its kind and name, without children. */
  function Shape(c: FileSystemComponent): Tree {
    if c.isDirectory then Dir(c.name, []) else Leaf(c.name)
  }

  function Shapes(cs: seq<FileSystemComponent>): (r: seq<Tree>)
    ensures |r| == |cs|
    ensures forall k :: 0 <= k < |cs| ==> r[k] == Shape(cs[k])
  {
    seq(|cs|, k requires 0 <= k < |cs| => Shape(cs[k]))
  }

  class TreeVisitor {
    /** The directory every accepted entry is added to (Tree.java:60). */
    const root: FileSystemComponent
    const rootPath: Path
    const maxDepth: int
    /** Tree.java:63. */
    var currentDepth: int

    ghost predicate Valid()
      reads this, root, root.Repr
    {
      root.Valid() && root.isDirectory && this !in root.Repr && |rootPath| > 0
    }

    constructor (root: FileSystemComponent, rootPath: Path, maxDepth: int)
      requires root.Valid() && root.isDirectory && |rootPath| > 0
      ensures Valid()
      ensures this.root == root && this.rootPath == rootPath && this.maxDepth == maxDepth
      ensures currentDepth == 0
    {
      this.root := root;
      this.rootPath := rootPath;
      this.maxDepth := maxDepth;
      currentDepth := 0;
    }

    /**
     * preVisitDirectory (Tree.java:65-76): skips the subtree, changing
     * nothing, when the counter exceeds the bound; otherwise continues,
     * and for a directory other than the start appends a new childless
     * directory to `root` and increments the counter.
     */
    method PreVisitDirectory(dir: Path) returns (r: FileVisitResult)
      requires Valid() && |dir| > 0
      modifies this, root
      ensures Valid()
      ensures r == (if old(currentDepth) > maxDepth then SkipSubtree else Continue)
      ensures old(currentDepth) > maxDepth || dir == rootPath ==>
        currentDepth == old(currentDepth) && root.children == old(root.children) && root.Repr == old(root.Repr)
      ensures old(currentDepth) <= maxDepth && dir != rootPath ==>
        && currentDepth == old(currentDepth) + 1
        && |root.children| == old(|root.children|) + 1
        && root.children[..old(|root.children|)] == old(root.children)
        && fresh(root.children[old(|root.children|)])
        && Shape(root.children[old(|root.children|)]) == Dir(FileName(dir), [])
        && root.children[old(|root.children|)].children == []
    {
      if currentDepth > maxDepth {
        return SkipSubtree;
      }
      if dir != rootPath {
        var directory := new FileSystemComponent.DirectoryComposite(FileName(dir));
        root.Add(directory);
        currentDepth := currentDepth + 1;
      }
      return Continue;
    }

    /** visitFile (Tree.java:78-82): appends a new leaf named after the file to `root`. */
    method VisitFile(file: Path) returns (r: FileVisitResult)
      requires Valid() && |file| > 0
      modifies root
      ensures Valid()
      ensures r == Continue
      ensures |root.children| == old(|root.children|) + 1
      ensures root.children[..old(|root.children|)] == old(root.children)
      ensures fresh(root.children[old(|root.children|)])
      ensures Shape(root.children[old(|root.children|)]) == Leaf(FileName(file))
      ensures root.children[old(|root.children|)].children == []
    {
      var leaf := new FileSystemComponent.FileLeaf(FileName(file));
      root.Add(leaf);
      return Continue;
    }

    /** postVisitDirectory (Tree.java:84-88): decrements the counter, for the start directory too. */
    method PostVisitDirectory(dir: Path) returns (r: FileVisitResult)
      requires Valid()
      modifies this
      ensures Valid()
      ensures r == Continue
      ensures currentDepth == old(currentDepth) - 1
    {
      currentDepth := currentDepth - 1;
      return Continue;
    }

    /** visitFileFailed (Tree.java:90-94): ignores the failure. */
    method VisitFileFailed(file: Path) returns (r: FileVisitResult)
      requires Valid()
      ensures r == Continue
    {
      return Continue;
    }
  }

  // ---------------------------------------------------------------------
  // What the walk appends, level by level.

  /**
   * The counter's value when the walk reaches an entry `level` levels
   * below the start: the start directory does not increment it, every
   * other entered directory does.
   */
  function CounterAt(level: nat): int {
    if level == 0 then 0 else level - 1
  }

  /**
   * The nodes appended to `root` while walking `e`, found `level` levels
   * below the start, when the counter is at CounterAt(level) on arrival.
   */
  function Reported(e: FsEntry, level: nat, m: int): seq<Tree>
    decreases e
  {
    match e
    case FileEntry(n) => [Leaf(n)]
    case UnreadableEntry(_) => []
    case DirectoryEntry(n, es) =>
      if CounterAt(level) > m then []
      else (if level == 0 then [] else [Dir(n, [])]) + ReportedAll(es, level + 1, m)
  }

  function ReportedAll(es: seq<FsEntry>, level: nat, m: int): seq<Tree>
    decreases es
  {
    if es == [] then [] else Reported(es[0], level, m) + ReportedAll(es[1..], level, m)
  }

  lemma {:induction false} ReportedAllAppend(es: seq<FsEntry>, e: FsEntry, level: nat, m: int)
    ensures ReportedAll(es + [e], level, m) == ReportedAll(es, level, m) + Reported(e, level, m)
    decreases es
  {
    if es == [] {
      assert [] + [e] == [e];
    } else {
      assert (es + [e])[1..] == es[1..] + [e];
      ReportedAllAppend(es[1..], e, level, m);
    }
  }

  /**
   * Files.walkFileTree, as this model assumes it: a file is reported to
   * visitFile, an unreadable entry to visitFileFailed, and a directory to
   * preVisitDirectory; when that returns CONTINUE its entries are walked in
   * order and postVisitDirectory follows, and when it returns SKIP_SUBTREE
   * neither happens.
   *
   * Walking an entry `level` levels below the start, on arrival at the
   * counter value CounterAt(level), appends exactly Reported(e, level, m)
   * to `root`, all of them new and childless, and leaves the counter as it
   * found it, except that completing the start directory leaves it at -1.
   */
  method Walk(v: TreeVisitor, e: FsEntry, path: Path, ghost level: nat)
    requires v.Valid()
    requires |path| > 0 && FileName(path) == e.name
    requires level == 0 ==> path == v.rootPath
    requires level > 0 ==> |path| > |v.rootPath|
    requires v.currentDepth == CounterAt(level)
    modifies v, v.root
    decreases e, 1
    ensures v.Valid()
    ensures v.currentDepth == (if level == 0 && e.DirectoryEntry? && 0 <= v.maxDepth then -1 else CounterAt(level))
    ensures |v.root.children| >= old(|v.root.children|)
    ensures v.root.children[..old(|v.root.children|)] == old(v.root.children)
    ensures Shapes(v.root.children[old(|v.root.children|)..]) == Reported(e, level, v.maxDepth)
    ensures forall k :: old(|v.root.children|) <= k < |v.root.children| ==>
      fresh(v.root.children[k]) && v.root.children[k].children == []
  {
    var root := v.root;
    var n0 := |root.children|;
    match e
    case FileEntry(n) =>
      var _ := v.VisitFile(path);
      assert root.children[n0..] == [root.children[n0]];
    case UnreadableEntry(n) =>
      var _ := v.VisitFileFailed(path);
      assert root.children[n0..] == [];
    case DirectoryEntry(n, es) =>
      WalkDirectory(v, n, es, path, level);
  }

  /** The directory case of Walk. */
  method WalkDirectory(v: TreeVisitor, n: string, es: seq<FsEntry>, path: Path, ghost level: nat)
    requires v.Valid()
    requires |path| > 0 && FileName(path) == n
    requires level == 0 ==> path == v.rootPath
    requires level > 0 ==> |path| > |v.rootPath|
    requires v.currentDepth == CounterAt(level)
    modifies v, v.root
    decreases DirectoryEntry(n, es), 0
    ensures v.Valid()
    ensures v.currentDepth == (if level == 0 && 0 <= v.maxDepth then -1 else CounterAt(level))
    ensures |v.root.children| >= old(|v.root.children|)
    ensures v.root.children[..old(|v.root.children|)] == old(v.root.children)
    ensures Shapes(v.root.children[old(|v.root.children|)..]) == Reported(DirectoryEntry(n, es), level, v.maxDepth)
    ensures forall k :: old(|v.root.children|) <= k < |v.root.children| ==>
      fresh(v.root.children[k]) && v.root.children[k].children == []
  {
    var root := v.root;
    var n0 := |root.children|;
    var r := v.PreVisitDirectory(path);
    if r == SkipSubtree {
      assert root.children[n0..] == [];
      return;
    }
    var n1 := |root.children|;
    assert level == 0 ==> n1 == n0;
    assert level > 0 ==> n1 == n0 + 1 && Shapes(root.children[n0..n1]) == [Dir(n, [])];
    WalkEntries(v, es, path, level + 1);
    ShapesSplit(root.children, n0, n1);
    var _ := v.PostVisitDirectory(path);
  }

  /** The entries of an entered directory, walked in order. */
  method WalkEntries(v: TreeVisitor, es: seq<FsEntry>, parent: Path, ghost level: nat)
    requires v.Valid()
    requires level > 0 && |parent| + 1 > |v.rootPath|
    requires v.currentDepth == CounterAt(level)
    modifies v, v.root
    decreases es
    ensures v.Valid()
    ensures v.currentDepth == CounterAt(level)
    ensures |v.root.children| >= old(|v.root.children|)
    ensures v.root.children[..old(|v.root.children|)] == old(v.root.children)
    ensures Shapes(v.root.children[old(|v.root.children|)..]) == ReportedAll(es, level, v.maxDepth)
    ensures forall k :: old(|v.root.children|) <= k < |v.root.children| ==>
      fresh(v.root.children[k]) && v.root.children[k].children == []
  {
    var root := v.root;
    var n0 := |root.children|;
    assert root.children[n0..] == [];
    for i := 0 to |es|
      invariant v.Valid()
      invariant v.currentDepth == CounterAt(level)
      invariant |root.children| >= n0
      invariant root.children[..n0] == old(root.children)
      invariant Shapes(root.children[n0..]) == ReportedAll(es[..i], level, v.maxDepth)
      invariant forall k :: n0 <= k < |root.children| ==>
        fresh(root.children[k]) && root.children[k].children == []
    {
      var n1 := |root.children|;
      Walk(v, es[i], parent + [es[i].name], level);
      ShapesSplit(root.children, n0, n1);
      ReportedAllAppend(es[..i], es[i], level, v.maxDepth);
      assert es[..i + 1] == es[..i] + [es[i]];
    }
    assert es[..|es|] == es;
  }

  lemma ShapesSplit(cs: seq<FileSystemComponent>, n0: nat, n1: nat)
    requires n0 <= n1 <= |cs|
    ensures Shapes(cs[n0..]) == Shapes(cs[n0..n1]) + Shapes(cs[n1..])
  {
    assert cs[n0..] == cs[n0..n1] + cs[n1..];
  }

  // ---------------------------------------------------------------------
  // Which entries end up in the tree.

  /** The readable entries below and including `e`, in walk order, `e` being at `level`. */
  function FsPreorder(e: FsEntry, level: nat): seq<Row>
    decreases e
  {
    match e
    case FileEntry(n) => [Row(level, false, n)]
    case UnreadableEntry(_) => []
    case DirectoryEntry(n, es) => [Row(level, true, n)] + FsPreorderAll(es, level + 1)
  }

  function FsPreorderAll(es: seq<FsEntry>, level: nat): seq<Row>
    decreases es
  {
    if es == [] then [] else FsPreorder(es[0], level) + FsPreorderAll(es[1..], level)
  }

  /**
   * Whether the walk adds an entry below the start: a directory when it is
   * at most maxDepth + 1 levels down, a file when at most maxDepth + 2.
   */
  predicate Kept(row: Row, m: int) {
    if row.isDirectory then row.level <= m + 1 else row.level <= m + 2
  }

  /** A row as a childless node. */
  function Detached(row: Row): Tree {
    if row.isDirectory then Dir(row.name, []) else Leaf(row.name)
  }

  /** The kept rows, each as a childless node. */
  function Selected(rows: seq<Row>, m: int): seq<Tree> {
    if rows == [] then []
    else if Kept(rows[0], m) then [Detached(rows[0])] + Selected(rows[1..], m)
    else Selected(rows[1..], m)
  }

  lemma {:induction false} SelectedAppend(a: seq<Row>, b: seq<Row>, m: int)
    ensures Selected(a + b, m) == Selected(a, m) + Selected(b, m)
  {
    if a != [] {
      assert (a + b)[0] == a[0];
      assert (a + b)[1..] == a[1..] + b;
      SelectedAppend(a[1..], b, m);
    } else {
      assert a + b == b;
    }
  }

  lemma {:induction false} FsPreorderLevels(e: FsEntry, level: nat)
    ensures forall k :: 0 <= k < |FsPreorder(e, level)| ==> FsPreorder(e, level)[k].level >= level
    decreases e
  {
    match e
    case FileEntry(_) =>
    case UnreadableEntry(_) =>
    case DirectoryEntry(_, es) => FsPreorderAllLevels(es, level + 1);
  }

  lemma {:induction false} FsPreorderAllLevels(es: seq<FsEntry>, level: nat)
    ensures forall k :: 0 <= k < |FsPreorderAll(es, level)| ==> FsPreorderAll(es, level)[k].level >= level
    decreases es
  {
    if es != [] {
      FsPreorderLevels(es[0], level);
      FsPreorderAllLevels(es[1..], level);
    }
  }

  lemma {:induction false} NothingSelectedDeeper(rows: seq<Row>, m: int)
    requires forall k :: 0 <= k < |rows| ==> rows[k].level > m + 2
    ensures Selected(rows, m) == []
  {
    if rows != [] {
      NothingSelectedDeeper(rows[1..], m);
    }
  }

  /**
   * Below the start, the walk adds exactly the kept entries, in walk
   * order: the counter invariant turns the test `currentDepth > maxDepth`
   * into a test on the entry's level.
   */
  lemma {:induction false} ReportedIsKept(e: FsEntry, level: nat, m: int)
    requires 1 <= level <= m + 2
    ensures Reported(e, level, m) == Selected(FsPreorder(e, level), m)
    decreases e
  {
    match e
    case FileEntry(n) =>
    case UnreadableEntry(_) =>
    case DirectoryEntry(n, es) =>
      var rows := FsPreorder(e, level);
      assert rows == [Row(level, true, n)] + FsPreorderAll(es, level + 1);
      SelectedAppend([Row(level, true, n)], FsPreorderAll(es, level + 1), m);
      if level <= m + 1 {
        ReportedAllIsKept(es, level + 1, m);
      } else {
        FsPreorderAllLevels(es, level + 1);
        NothingSelectedDeeper(FsPreorderAll(es, level + 1), m);
      }
  }

  lemma {:induction false} ReportedAllIsKept(es: seq<FsEntry>, level: nat, m: int)
    requires 1 <= level <= m + 2
    ensures ReportedAll(es, level, m) == Selected(FsPreorderAll(es, level), m)
    decreases es
  {
    if es != [] {
      ReportedIsKept(es[0], level, m);
      ReportedAllIsKept(es[1..], level, m);
      SelectedAppend(FsPreorder(es[0], level), FsPreorderAll(es[1..], level), m);
    }
  }

  /**
   * From the start directory with a bound maxDepth >= 0, `root` receives the
   * kept entries below it, each as a direct, childless child; with a
   * negative bound the start directory itself is skipped.
   */
  lemma StartDirectoryReported(n: string, es: seq<FsEntry>, m: int)
    ensures m < 0 ==> Reported(DirectoryEntry(n, es), 0, m) == []
    ensures 0 <= m ==> Reported(DirectoryEntry(n, es), 0, m) == Selected(FsPreorderAll(es, 1), m)
  {
    if 0 <= m {
      ReportedAllIsKept(es, 1, m);
    }
  }

  /** Every reported node is childless, whether a file or a directory. */
  lemma {:induction false} ReportedChildless(e: FsEntry, level: nat, m: int)
    ensures forall k :: 0 <= k < |Reported(e, level, m)| ==>
      Reported(e, level, m)[k] == Dir(Reported(e, level, m)[k].name, []) || Reported(e, level, m)[k].Leaf?
    decreases e
  {
    match e
    case FileEntry(_) =>
    case UnreadableEntry(_) =>
    case DirectoryEntry(n, es) => ReportedAllChildless(es, level + 1, m);
  }

  lemma {:induction false} ReportedAllChildless(es: seq<FsEntry>, level: nat, m: int)
    ensures forall k :: 0 <= k < |ReportedAll(es, level, m)| ==>
      ReportedAll(es, level, m)[k] == Dir(ReportedAll(es, level, m)[k].name, []) || ReportedAll(es, level, m)[k].Leaf?
    decreases es
  {
    if es != [] {
      ReportedChildless(es[0], level, m);
      ReportedAllChildless(es[1..], level, m);
    }
  }

  // ---------------------------------------------------------------------
  // The program.

  /**
   * Tree.main (Tree.java:57-100) on a given filesystem: the walk starts at
   * `rootPath`, whose entry is `home`, with the bound MaxDepth, and the
   * lines printed are those of a root directory named after the start
   * whose children are the reported nodes, in walk order.
   */
  method TreeMain(home: FsEntry, rootPath: Path) returns (lines: seq<string>)
    requires |rootPath| > 0 && FileName(rootPath) == home.name
    ensures lines == Lines(Dir(FileName(rootPath), Reported(home, 0, MaxDepth)), "")
  {
    var root := new FileSystemComponent.DirectoryComposite(FileName(rootPath));
    var visitor := new TreeVisitor(root, rootPath, MaxDepth);
    Walk(visitor, home, rootPath, 0);
    assert root.children[0..] == root.children;
    forall k | 0 <= k < |root.children|
      ensures root.children[k].Model() == Shape(root.children[k])
    {
      root.children[k].ChildlessModel();
    }
    assert root.Model().children == Shapes(root.children);
    lines := root.Print("");
  }

  /**
   * The printed output of a flat tree: the root's line, then one line per
   * child, indented by one unit.
   */
  lemma {:induction false} FlatLines(name: string, cs: seq<Tree>)
    requires forall k :: 0 <= k < |cs| ==> cs[k] == Dir(cs[k].name, []) || cs[k].Leaf?
    ensures |Lines(Dir(name, cs), "")| == 1 + |cs|
    ensures Lines(Dir(name, cs), "")[0] == DirectoryMarker + name
    ensures forall k :: 0 <= k < |cs| ==>
      Lines(Dir(name, cs), "")[k + 1] == IndentUnit + Marker(cs[k]) + cs[k].name
  {
    FlatChildLines(cs, "" + IndentUnit);
  }

  lemma {:induction false} FlatChildLines(cs: seq<Tree>, prefix: string)
    requires forall k :: 0 <= k < |cs| ==> cs[k] == Dir(cs[k].name, []) || cs[k].Leaf?
    ensures |ChildLines(cs, prefix)| == |cs|
    ensures forall k :: 0 <= k < |cs| ==> ChildLines(cs, prefix)[k] == prefix + Marker(cs[k]) + cs[k].name
  {
    if cs != [] {
      FlatChildLines(cs[1..], prefix);
      assert ChildLines([], prefix) == [];
      assert Lines(cs[0], prefix) == [prefix + Marker(cs[0]) + cs[0].name];
    }
  }

  /**
   * What Tree.main prints for a start directory: "+-- " and its name, then one
   * line per kept entry below it, in walk order, all at one indentation
   * unit: the output never nests.
   */
  lemma MainOutput(n: string, es: seq<FsEntry>)
    ensures var out := Lines(Dir(n, Reported(DirectoryEntry(n, es), 0, MaxDepth)), "");
      var kept := Selected(FsPreorderAll(es, 1), MaxDepth);
      && |out| == 1 + |kept|
      && out[0] == DirectoryMarker + n
      && forall k :: 0 <= k < |kept| ==> out[k + 1] == IndentUnit + Marker(kept[k]) + kept[k].name
  {
    StartDirectoryReported(n, es, MaxDepth);
    ReportedChildless(DirectoryEntry(n, es), 0, MaxDepth);
    FlatLines(n, Reported(DirectoryEntry(n, es), 0, MaxDepth));
  }

  /** A start directory R holding a.txt and a directory B that holds b.txt. */
  const ExampleHome: FsEntry := DirectoryEntry("R", [FileEntry("a.txt"), DirectoryEntry("B", [FileEntry("b.txt")])])

  /** The walk of ExampleHome appends a.txt, B and b.txt, all directly to the root. */
  lemma ExampleReported()
    ensures Reported(ExampleHome, 0, MaxDepth) == [Leaf("a.txt"), Dir("B", []), Leaf("b.txt")]
  {
    var es := ExampleHome.entries;
    assert ReportedAll([FileEntry("b.txt")], 2, MaxDepth) == [Leaf("b.txt")];
    assert Reported(es[1], 1, MaxDepth) == [Dir("B", []), Leaf("b.txt")];
    assert ReportedAll(es[1..], 1, MaxDepth) == [Dir("B", []), Leaf("b.txt")];
  }

  /** For ExampleHome, b.txt is printed at the same indentation as B, right after it. */
  lemma FlatteningExample()
    ensures Lines(Dir("R", Reported(ExampleHome, 0, MaxDepth)), "")
      == [DirectoryMarker + "R", IndentUnit + FileMarker + "a.txt", IndentUnit + DirectoryMarker + "B", IndentUnit + FileMarker + "b.txt"]
  {
    ExampleReported();
    var cs := [Leaf("a.txt"), Dir("B", []), Leaf("b.txt")];
    FlatLines("R", cs);
    var out := Lines(Dir("R", cs), "");
    assert out == [out[0], out[1], out[2], out[3]];
  }

  /**
   * With bound 0 and the chain R/D1/D2/f: D1 (counter 0) is added, D2
   * (counter 1) is skipped together with f.
   */
  lemma SkipExample()
    ensures Reported(DirectoryEntry("R", [DirectoryEntry("D1", [DirectoryEntry("D2", [FileEntry("f")])])]), 0, 0)
      == [Dir("D1", [])]
  {
    assert Reported(DirectoryEntry("D2", [FileEntry("f")]), 2, 0) == [];
    assert ReportedAll([DirectoryEntry("D2", [FileEntry("f")])], 2, 0) == [];
  }
}
