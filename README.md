# Composite file tree and password crackers, modelled in Dafny

This project models two Java programs.

**Tree.java** builds a Composite tree of the user's home directory and prints it.
- A component is a file leaf or a directory. A directory owns an ordered, mutable list of children, with `add` and `remove`.
- `print(prefix)` writes one line per node in pre-order:
  - a directory line is `prefix + "+-- " + name`;
  - a file line is `prefix + "|-- " + name`;
  - children are printed with `prefix + "   "`.
- The tree is filled by a `SimpleFileVisitor` driven by `Files.walkFileTree`. The visitor's state is a `currentDepth` counter and the `root` directory.

**Main.java** is a password-cracking demo.
- Two factories choose a cracker by a case-insensitive name.
- `main` chooses the factory by the operation type.
- Three crackers search fixed candidate sets: seven guesses, eight dictionary words, and the strings "0000" to "9999".

Modules:
- `FileTree` (FileTree.dfy)
  - `FileSystemComponent` is a class with a constant kind tag and the two constructors `FileLeaf` and `DirectoryComposite`.
  - Its ghost `Repr` and `Valid()` keep the children graph acyclic.
  - `Model()` gives the component as a value of the datatype `Tree`.
  - `Lines` is the rendering, specified on `Tree` values.
  - `Print`, `Add` and `Remove` are the class's methods.
- `TreeWalk` (TreeWalk.dfy)
  - `TreeVisitor` is the visitor as a class with its four callbacks.
  - `Walk`, with `WalkDirectory` and `WalkEntries`, stands in for `Files.walkFileTree` over an abstract filesystem `FsEntry`.
  - `TreeMain` is the program.
- `PasswordCrackers` (PasswordCrackers.dfy) holds the factories, the searches and `Run`, which models `Main.main`.

The code does not build a nested, depth-bounded tree, and the model follows the code:
- Every directory and every file the visitor accepts is appended to `root` itself, never to its parent (Tree.java:72, Tree.java:80).
- A directory L levels below the start is reached with `currentDepth == L - 1`, because the start directory does not increment the counter. The `CounterAt` requires and ensures of `Walk`, `WalkDirectory` and `WalkEntries` prove this; `ReportedIsKept` proves the consequence in the next bullet.
- So directories down to level maxDepth + 1 are added, and files down to level maxDepth + 2.
- Every added directory has no children, so the printed tree has at most two levels (`MainOutput`, `FlatteningExample`). It has only the root line when nothing is kept, for instance for an empty or unreadable start directory.

Assumptions about the environment:
- `Files.walkFileTree` behaves as `Walk` states. It is a pre-order driver:
  - a file goes to `visitFile`;
  - an entry whose attributes or listing cannot be read goes to `visitFileFailed`;
  - a directory goes to `preVisitDirectory`;
  - on CONTINUE, the directory's entries are walked in order and then `postVisitDirectory` is called;
  - on SKIP_SUBTREE, neither happens.
- A path is its sequence of name components. Two paths are equal exactly when their components are equal. `getFileName` is the last component.
- The console output of `print` is the returned sequence of lines.
- The console inputs of Main.java are parameters. The answer of the online dictionary cracker is a parameter of `Run`.

## Model

| member | source | states |
|---|---|---|
| `FileTree.FileSystemComponent.FileLeaf` | Tree.java:20-22 | a new valid leaf with the given name and no children |
| `FileTree.FileSystemComponent.DirectoryComposite` | Tree.java:32-36 | a new valid directory with the given name and an empty children list |
| `FileTree.FileSystemComponent.Model` | Tree.java:8-12 | a component's value view has its name and kind |
| `FileTree.FileSystemComponent.ChildlessModel` | Tree.java:34-36 | a component without children is seen as a childless node of its kind |
| `FileTree.FileSystemComponent.Add` | Tree.java:38-40 | children become the old list with the component appended at the end; the invariant is kept; the value view gains that child last |
| `FileTree.FileSystemComponent.Remove` | Tree.java:42-44 | children lose exactly the first child that is the same object; an absent component leaves them unchanged; the invariant is kept |
| `FileTree.FirstIndex` | Tree.java:43 | the first position holding the element: it holds it and no earlier position does |
| `FileTree.RemoveFirstSpec` | Tree.java:43 | removal gives the list without the element at its first position, and the list itself when the element is absent |
| `FileTree.RemoveFirstKeepsOthers` | Tree.java:43 | removal keeps only old elements; when the element is present, removal shortens the list by one and takes exactly one copy of it out of the multiset |
| `FileTree.FileSystemComponent.Print` | Tree.java:24-52 | the lines printed are exactly `Lines` of the component's value view: a leaf's one line, or a directory's line and then each child's lines in order with three more spaces |
| `FileTree.Lines` | Tree.java:24-52 | one line per node of the tree, each starting with the prefix |
| `FileTree.FileSystemComponent.PrintChildren` | Tree.java:49-51 | the loop over the children prints exactly the concatenation of each child's lines with the given prefix, in list order |
| `FileTree.ChildLines` | Tree.java:49-51 | the children's lines number as many as their nodes, each starting with the prefix |
| `FileTree.ChildLinesAppend` | Tree.java:49-51 | the loop over children: one more child appends that child's lines |
| `FileTree.LinesArePreorder` | Tree.java:47-51 | the printed lines are the pre-order list of nodes, each rendered with the indentation of its own nesting level, its kind's marker and its name |
| `FileTree.ChildLinesArePreorder` | Tree.java:49-51 | the same for a list of siblings |
| `FileTree.PreorderSize` | Tree.java:47-52 | the pre-order listing has exactly one row per node |
| `FileTree.IndentationIsSpaces` | Tree.java:50 | k indentation units are exactly 3·k spaces |
| `FileTree.PrintFromRoot` | Tree.java:99 | with the empty prefix, line i is the i-th node in pre-order, beginning with exactly 3·k spaces, k being that node's nesting level (root 0) |
| `TreeWalk.TreeVisitor.constructor` | Tree.java:62-63 | the visitor starts with `currentDepth` 0 over the given root, start path and bound |
| `TreeWalk.TreeVisitor.PreVisitDirectory` | Tree.java:65-76 | returns SKIP_SUBTREE exactly when `currentDepth > maxDepth`, and then changes nothing; otherwise returns CONTINUE; for the start directory it changes nothing, and for any other directory it appends one new childless directory named after it to `root` and increments the counter |
| `TreeWalk.TreeVisitor.VisitFile` | Tree.java:78-82 | appends exactly one new leaf named after the file to `root`, leaves the earlier children alone, returns CONTINUE |
| `TreeWalk.TreeVisitor.PostVisitDirectory` | Tree.java:84-88 | decrements the counter by exactly one and returns CONTINUE |
| `TreeWalk.TreeVisitor.VisitFileFailed` | Tree.java:90-94 | changes no state and returns CONTINUE |
| `TreeWalk.Walk` | Tree.java:62-95 | arriving at an entry L levels down with the counter at CounterAt(L), the walk appends exactly `Reported(e, L, maxDepth)` to `root`, all new and childless, and keeps the earlier children; the counter comes back balanced, except that completing the start directory leaves it at -1 |
| `TreeWalk.WalkDirectory` | Tree.java:65-88 | the same for a directory: pre-visit, then its entries when not skipped, then post-visit |
| `TreeWalk.WalkEntries` | Tree.java:62-95 | the entries of an entered directory, in order: they append the concatenation of what each reports, and the counter is unchanged |
| `TreeWalk.ReportedIsKept` | Tree.java:66-74 | below the start, the appended nodes are exactly the readable entries, in walk order, that are directories at most maxDepth + 1 levels down or files at most maxDepth + 2 levels down |
| `TreeWalk.ReportedAllIsKept` | Tree.java:66-74 | the same for a list of sibling entries |
| `TreeWalk.StartDirectoryReported` | Tree.java:66-75 | from the start directory, a negative bound adds nothing; any other bound adds the kept entries below it |
| `TreeWalk.ReportedChildless` | Tree.java:71-72 | every node the walk appends to `root` is a leaf or a directory with no children |
| `TreeWalk.TreeMain` | Tree.java:57-100 | the program prints exactly the lines of a root directory named after the start path whose children are the nodes reported by the walk with bound 3, in walk order |
| `TreeWalk.FlatLines` | Tree.java:47-52 | a root with childless children prints its own line, then one line per child at one indentation unit |
| `TreeWalk.MainOutput` | Tree.java:57-100 | for a start directory the output is "+-- " and its name, then one line per kept entry, in walk order, all at three spaces: the output never nests deeper |
| `TreeWalk.ExampleReported` | Tree.java:66-80 | R with a.txt and B, B with b.txt: the walk appends a leaf a.txt, a childless B and a leaf b.txt, in that order, all to the root |
| `TreeWalk.FlatteningExample` | Tree.java:72-80 | for the same directory the output is "+-- R", "   \|-- a.txt", "   +-- B", "   \|-- b.txt": b.txt is not indented below B |
| `TreeWalk.SkipExample` | Tree.java:66-68 | with bound 0, a directory two levels down is skipped together with its contents |
| `PasswordCrackers.AttackNamesDisjoint` | Main.java:24-26 | no parameter equals both "BruteForce" and "Dictionary" ignoring case |
| `PasswordCrackers.CreatePasswordCracker` | Main.java:22-42 | each factory returns its brute-force cracker exactly for "BruteForce" and its dictionary cracker exactly for "Dictionary", ignoring case, and null for every other parameter |
| `PasswordCrackers.ChooseFactory` | Main.java:179-187 | the Local factory exactly for "Local", the Online factory exactly for "Online", ignoring case, none otherwise |
| `PasswordCrackers.FirstMatch` | Main.java:56-60 | the first position whose word equals the password ignoring case; none exactly when no word does |
| `PasswordCrackers.ScanFindsFirstMatch` | Main.java:56-60 | a scan that reaches a matching word with no match before it has found the first match |
| `PasswordCrackers.GenerateGuesses` | Main.java:65-75 | the seven guesses in the order they are added |
| `PasswordCrackers.BruteForceLocalCrack` | Main.java:47-62 | the message names the first matching guess as the list spells it, or is exactly "Mot de passe non craqué" |
| `PasswordCrackers.DictionaryLocalCrack` | Main.java:79-99 | the message names the password as typed when a dictionary word matches, or is exactly "Mot de passe non craqué" |
| `PasswordCrackers.BruteForceOnlineCrack` | Main.java:140-161 | cracked exactly when the password is four decimal digits, the reported attempt then being the password itself; otherwise exactly "Mot de passe non craqué"; at most 10000 candidates are tried |
| `PasswordCrackers.Format04RoundTrip` | Main.java:153 | the candidate for i is four digits and reads back as i |
| `PasswordCrackers.FourDigitsRoundTrip` | Main.java:153 | every four-digit string is the candidate of its value, which is below 10000 |
| `PasswordCrackers.CandidateMatchIsExact` | Main.java:154 | a candidate equals a string ignoring case exactly when it equals it outright |
| `PasswordCrackers.BruteForceLocalSucceedsIff` | Main.java:56-61 | success exactly when one of the seven guesses equals the password ignoring case, reporting the first one in list order |
| `PasswordCrackers.DictionaryLocalSucceedsIff` | Main.java:88-98 | success exactly when one of the eight words equals the password ignoring case, reporting the password as typed |
| `PasswordCrackers.BruteForceOnlineSucceedsIff` | Main.java:152-160 | success exactly on the strings "0000" to "9999", reporting the password itself |
| `PasswordCrackers.SpellingOfTheReport` | Main.java:56-95 | for "PassWord" the brute-force message says "password" and the dictionary message says "PassWord" |
| `PasswordCrackers.Run` | Main.java:168-202 | an unknown operation type prints only the invalid-operation message; an unknown attack type prints only the no-cracker message; otherwise the one cracker built makes one attempt and "Résultat : " with its answer is printed |

## Left out

- `Files.walkFileTree`, `Path`, `Paths.get`, `System.getProperty("user.home")` and `BasicFileAttributes` are library calls and filesystem I/O. They are replaced by the `FsEntry` datatype and the `Walk` driver, whose callback order is an assumption.
- Symbolic links are not followed by the driver and are reported as files. A listing that fails partway is modelled as a directory holding the entries read before the failure.
- The `IOException` catch with `printStackTrace` (Tree.java:96-98) is left out: the visitor never throws, so the assumed driver never raises it.
- `getFileName()` returns null for a path without components, and the program then fails. The model requires the start path to have a name: `TreeWalk.TreeMain` requires a non-empty start path.
- `TreeWalk.TreeVisitor.VisitFile` requires a path with a name. Only a filesystem root has none, and a filesystem root is always a directory.
- Output goes to `System.out` in the source. Here it is returned as a sequence of lines, and its interleaving with other output is not modelled.
- `currentDepth` is a Java `int`. The model uses an unbounded integer, since it cannot overflow. It is incremented only after `currentDepth > maxDepth` has failed (`PreVisitDirectory`), and each decrement follows an accepted pre-visit, so it stays within -1 to maxDepth + 1, that is -1 to 4 for bound 3.
- `FileTree.FileSystemComponent.Add` requires that `component` does not already contain this directory. Java accepts such an add, but the resulting cycle makes `print` recurse without end.
- `FileTree.FileSystemComponent.Add` and `FileTree.FileSystemComponent.Remove` describe only the directory they change. A directory that contains it is not shown to stay valid.
- Java object identity is Dafny object identity. `remove` has no `equals` override to model.
- The interfaces `PasswordCracker` and `PasswordCrackerFactory` are replaced by the datatypes `Cracker` and `CrackerFactory`.
- `DictionaryOnlineCracker` (Main.java:103-137) downloads its word list over the network. Its answer is a parameter of `Run`.
- The `Scanner` reads and console prompts of Main.java are left out; the values read are parameters.
  - The brute-force local cracker reads a whitespace-free token with `next()`; the others read a whole line.
  - The prompts are not part of the modelled output.
  - `scanner.close()` is not modelled.
- The `login` argument of `crackPassword` is unused by the source and is left out.
- `PasswordCrackers.EqualsIgnoreCase` folds case only for the ASCII letters A-Z, whereas Java's `equalsIgnoreCase` compares characters through `Character.toUpperCase` and `Character.toLowerCase`. So the model treats "\u212Aharytoure" (a Kelvin sign first) and "kharytoure" as different, where Java finds them equal; likewise "ſ" (long s) against "s".
- `String.format("%04d", i)` is modelled as four ASCII digits. Locale-specific digits are not modelled.
