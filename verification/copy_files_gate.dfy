/**
 * The copy-files gate (`copyfilesgate.rs`): whether a build may skip the output cleanup and the
 * copying of non-compiled files, by a fast check of the recorded times or by walking the root
 * directories again.
 */
module CopyFilesGate {

  import opened Common

  type Path = seq<string>

  /** What is at a path; `Missing` is also a link to nothing. */
  datatype Node = Missing | File(mtime: int) | Other(mtime: int) | Directory(mtime: int, entries: seq<DirEntry>)

  datatype DirEntry = DirEntry(name: string, node: Node)

  datatype FileEntry = FileEntry(src: Path, dest: Path, srcMtime: int, destMtime: int)

  datatype TreeEntry = TreeEntry(path: Path, mtime: int)

  datatype Walked = Walked(dirs: seq<TreeEntry>, files: seq<FileEntry>)

  function Join(a: Walked, b: Walked): Walked {
    Walked(a.dirs + b.dirs, a.files + b.files)
  }

  /** Names in a directory are distinct. */
  ghost predicate Proper(node: Node) {
    node.Directory? ==>
      (forall i, j | 0 <= i < j < |node.entries| :: node.entries[i].name != node.entries[j].name) &&
      (forall e | e in node.entries :: Proper(e.node))
  }

  function Child(entries: seq<DirEntry>, name: string): Node {
    if entries == [] then Missing
    else if entries[0].name == name then entries[0].node
    else Child(entries[1..], name)
  }

  function At(root: Node, path: Path): Node
    decreases |path|
  {
    if path == [] then root
    else if root.Directory? then At(Child(root.entries, path[0]), path[1..])
    else Missing
  }

  /** The time `fs::metadata` reports, if there is anything. */
  function MtimeAt(root: Node, path: Path): Option<int> {
    var node := At(root, path);
    if node.Missing? then None else Some(node.mtime)
  }

  // ---- The walk ----------------------------------------------------------------------------

  /** What a build copies, and where to. */
  datatype Rules = Rules(outDir: Path, declaration: bool, compilable: string -> bool, output: Path -> Path)

  predicate EndsWith(s: string, suffix: string) {
    |s| >= |suffix| && s[|s| - |suffix|..] == suffix
  }

  predicate Skipped(rules: Rules, path: Path) {
    path != [] && (path[|path| - 1] == "node_modules" || path == rules.outDir)
  }

  predicate Copied(rules: Rules, path: Path)
    requires path != []
  {
    var name := path[|path| - 1];
    if EndsWith(name, ".d.ts") then rules.declaration else !rules.compilable(name)
  }

  function Time(m: Option<int>): int {
    if m.Some? then m.value else 0
  }

  /** What walking a directory records; `disk` is where the copies' times are looked up. */
  function WalkDir(node: Node, path: Path, rules: Rules, disk: Node): Walked
    decreases node, 1
  {
    if !node.Directory? then Walked([], [])
    else Join(Walked([TreeEntry(path, node.mtime)], []), WalkEntries(node, node.entries, path, rules, disk))
  }

  function WalkEntries(node: Node, entries: seq<DirEntry>, path: Path, rules: Rules, disk: Node): Walked
    requires node.Directory? && forall e | e in entries :: e in node.entries
    decreases node, 0, |entries|
  {
    if entries == [] then Walked([], [])
    else Join(WalkEntry(node, entries[0], path, rules, disk), WalkEntries(node, entries[1..], path, rules, disk))
  }

  function WalkEntry(node: Node, entry: DirEntry, path: Path, rules: Rules, disk: Node): Walked
    requires node.Directory? && entry in node.entries
    decreases node, 0, 0
  {
    var item := path + [entry.name];
    if Skipped(rules, item) then Walked([], [])
    else if entry.node.Directory? then WalkDir(entry.node, item, rules, disk)
    else if entry.node.File? && Copied(rules, item) then
      Walked([], [FileEntry(item, rules.output(item), entry.node.mtime, Time(MtimeAt(disk, rules.output(item))))])
    else Walked([], [])
  }

  function WalkRoots(roots: seq<Path>, rules: Rules, disk: Node): Walked {
    if roots == [] then Walked([], [])
    else Join(WalkDir(At(disk, roots[0]), roots[0], rules, disk), WalkRoots(roots[1..], rules, disk))
  }

  /** `walk`: pushes what it finds onto the manifest. */
  method Walk(node: Node, path: Path, rules: Rules, disk: Node, manifest: Walked) returns (pushed: Walked)
    ensures pushed == Join(manifest, WalkDir(node, path, rules, disk))
    decreases node, 1
  {
    pushed := manifest;
    if !node.Directory? {
      return;
    }
    pushed := pushed.(dirs := pushed.dirs + [TreeEntry(path, node.mtime)]);
    ghost var start := pushed;
    var index := 0;
    assert node.entries[index..] == node.entries;
    assert Join(start, WalkEntries(node, node.entries, path, rules, disk)) ==
           Join(manifest, WalkDir(node, path, rules, disk)) by {
      JoinAssociates(manifest, Walked([TreeEntry(path, node.mtime)], []), WalkEntries(node, node.entries, path, rules, disk));
    }
    while index < |node.entries|
      invariant 0 <= index <= |node.entries|
      invariant Join(pushed, WalkEntries(node, node.entries[index..], path, rules, disk)) ==
                Join(manifest, WalkDir(node, path, rules, disk))
    {
      var entry := node.entries[index];
      assert node.entries[index..] == [entry] + node.entries[index + 1..];
      JoinAssociates(pushed, WalkEntry(node, entry, path, rules, disk),
                     WalkEntries(node, node.entries[index + 1..], path, rules, disk));
      pushed := Visit(node, entry, path, rules, disk, pushed);
      index := index + 1;
    }
  }

  method Visit(node: Node, entry: DirEntry, path: Path, rules: Rules, disk: Node, manifest: Walked) returns (pushed: Walked)
    requires node.Directory? && entry in node.entries
    ensures pushed == Join(manifest, WalkEntry(node, entry, path, rules, disk))
    decreases node, 0
  {
    pushed := manifest;
    var item := path + [entry.name];
    if Skipped(rules, item) {
      return;
    }
    if entry.node.Directory? {
      pushed := Walk(entry.node, item, rules, disk, pushed);
      return;
    }
    if entry.node.File? && Copied(rules, item) {
      var dest := rules.output(item);
      pushed := pushed.(files := pushed.files + [FileEntry(item, dest, entry.node.mtime, Time(MtimeAt(disk, dest)))]);
    }
  }

  lemma JoinAssociates(a: Walked, b: Walked, c: Walked)
    ensures Join(Join(a, b), c) == Join(a, Join(b, c))
    ensures Join(a, Walked([], [])) == a
  {
  }

  // ---- What a walk records is true of the disk ---------------------------------------------

  lemma {:induction false} ChildOf(entries: seq<DirEntry>, i: nat)
    requires i < |entries| && forall j, k | 0 <= j < k < |entries| :: entries[j].name != entries[k].name
    ensures Child(entries, entries[i].name) == entries[i].node
  {
    if i > 0 {
      assert entries[0].name != entries[i].name;
      ChildOf(entries[1..], i - 1);
    }
  }

  lemma {:induction false} AtChild(root: Node, path: Path, name: string)
    ensures At(root, path + [name]) == if At(root, path).Directory? then Child(At(root, path).entries, name) else Missing
    decreases |path|
  {
    if path == [] {
      assert path + [name] == [name];
    } else {
      assert (path + [name])[1..] == path[1..] + [name];
      if root.Directory? {
        AtChild(Child(root.entries, path[0]), path[1..], name);
      }
    }
  }

  lemma EntryAt(disk: Node, node: Node, path: Path, entry: DirEntry)
    requires At(disk, path) == node && node.Directory? && Proper(node) && entry in node.entries
    ensures At(disk, path + [entry.name]) == entry.node && Proper(entry.node)
  {
    AtChild(disk, path, entry.name);
    var i :| 0 <= i < |node.entries| && node.entries[i] == entry;
    ChildOf(node.entries, i);
  }

  /** The directories and source files with the times the disk shows. */
  ghost predicate Accurate(w: Walked, disk: Node) {
    (forall e | e in w.dirs :: MtimeAt(disk, e.path) == Some(e.mtime)) &&
    (forall e | e in w.files :: MtimeAt(disk, e.src) == Some(e.srcMtime))
  }

  lemma {:induction false} WalkDirAccurate(node: Node, path: Path, rules: Rules, disk: Node, times: Node)
    requires At(disk, path) == node && Proper(node)
    ensures Accurate(WalkDir(node, path, rules, times), disk)
    decreases node, 1
  {
    if node.Directory? {
      WalkEntriesAccurate(node, node.entries, path, rules, disk, times);
    }
  }

  lemma {:induction false} WalkEntriesAccurate(node: Node, entries: seq<DirEntry>, path: Path, rules: Rules, disk: Node, times: Node)
    requires At(disk, path) == node && Proper(node) && node.Directory? && forall e | e in entries :: e in node.entries
    ensures Accurate(WalkEntries(node, entries, path, rules, times), disk)
    decreases node, 0, |entries|
  {
    if entries != [] {
      EntryAt(disk, node, path, entries[0]);
      if entries[0].node.Directory? {
        WalkDirAccurate(entries[0].node, path + [entries[0].name], rules, disk, times);
      }
      WalkEntriesAccurate(node, entries[1..], path, rules, disk, times);
    }
  }

  lemma {:induction false} WalkRootsAccurate(roots: seq<Path>, rules: Rules, disk: Node)
    requires forall r | r in roots :: Proper(At(disk, r))
    ensures Accurate(WalkRoots(roots, rules, disk), disk)
  {
    if roots != [] {
      WalkDirAccurate(At(disk, roots[0]), roots[0], rules, disk, disk);
      WalkRootsAccurate(roots[1..], rules, disk);
    }
  }

  // ---- What a walk lists -------------------------------------------------------------------

  /** Below its first `from` components the path is no dependency tree, nor the output directory or in it. */
  ghost predicate Open(path: Path, from: nat, rules: Rules) {
    forall n | from < n <= |path| :: path[n - 1] != "node_modules" && path[..n] != rules.outDir
  }

  /** A directory under the walked one that is not left out, with its time. */
  ghost predicate DirShows(node: Node, path: Path, rules: Rules, e: TreeEntry) {
    path <= e.path && At(node, e.path[|path|..]).Directory? && At(node, e.path[|path|..]).mtime == e.mtime &&
    Open(e.path, |path|, rules)
  }

  /** A regular file to copy: a declaration where those are, and otherwise what is not compiled. */
  ghost predicate FileShows(node: Node, path: Path, rules: Rules, disk: Node, f: FileEntry) {
    path < f.src && At(node, f.src[|path|..]) == File(f.srcMtime) && Open(f.src, |path|, rules) &&
    (var name := f.src[|f.src| - 1];
     if |name| >= 5 && name[|name| - 5..] == ".d.ts" then rules.declaration else !rules.compilable(name)) &&
    f.dest == rules.output(f.src) &&
    (if At(disk, f.dest).Missing? then f.destMtime == 0 else f.destMtime == At(disk, f.dest).mtime)
  }

  lemma OpenBelow(path: Path, from: nat, rules: Rules)
    requires from < |path|
    ensures Open(path, from, rules) <==> !Skipped(rules, path[..from + 1]) && Open(path, from + 1, rules)
  {
    assert path[..from + 1][from] == path[from];
  }

  lemma {:induction false} EntriesList(node: Node, entries: seq<DirEntry>, path: Path, rules: Rules, disk: Node, e: TreeEntry, f: FileEntry)
    requires node.Directory? && forall x | x in entries :: x in node.entries
    ensures e in WalkEntries(node, entries, path, rules, disk).dirs <==>
            exists x | x in entries :: e in WalkEntry(node, x, path, rules, disk).dirs
    ensures f in WalkEntries(node, entries, path, rules, disk).files <==>
            exists x | x in entries :: f in WalkEntry(node, x, path, rules, disk).files
    decreases |entries|
  {
    if entries != [] {
      var first, more := WalkEntry(node, entries[0], path, rules, disk), WalkEntries(node, entries[1..], path, rules, disk);
      EntriesList(node, entries[1..], path, rules, disk, e, f);
      assert WalkEntries(node, entries, path, rules, disk) == Join(first, more);
      hide WalkEntry, WalkEntries;
      assert entries == [entries[0]] + entries[1..];
    }
  }

  /** From an entry of a directory on, what shows below it shows below the directory. */
  lemma ShowsBelow(node: Node, x: DirEntry, path: Path, rules: Rules, p: Path)
    requires node.Directory? && Proper(node) && x in node.entries && path + [x.name] <= p
    ensures At(node, p[|path|..]) == At(x.node, p[|path| + 1..])
    ensures Open(p, |path|, rules) <==> !Skipped(rules, path + [x.name]) && Open(p, |path| + 1, rules)
  {
    hide Open, Skipped, Proper;
    EntryNode(node, x);
    var rest := p[|path|..];
    assert rest[0] == p[|path|] == x.name && rest[1..] == p[|path| + 1..];
    OpenBelow(p, |path|, rules);
    assert p[..|path| + 1] == path + [x.name];
  }

  lemma EntryNode(node: Node, x: DirEntry)
    requires node.Directory? && Proper(node) && x in node.entries
    ensures Child(node.entries, x.name) == x.node && Proper(x.node)
  {
    var i :| 0 <= i < |node.entries| && node.entries[i] == x;
    ChildOf(node.entries, i);
  }

  /** Whatever shows strictly below a directory shows below one of its entries. */
  lemma {:induction false} EntryOf(entries: seq<DirEntry>, name: string)
    ensures !Child(entries, name).Missing? ==> exists x | x in entries :: x.name == name && x.node == Child(entries, name)
  {
    if entries != [] && entries[0].name != name {
      EntryOf(entries[1..], name);
    }
  }

  lemma BelowEntry(node: Node, path: Path, p: Path)
    requires path < p && !At(node, p[|path|..]).Missing?
    ensures node.Directory? && exists x | x in node.entries :: path + [x.name] <= p
  {
    var rest := p[|path|..];
    MissingBelow(Missing, rest[1..]);
    EntryOf(node.entries, rest[0]);
    assert p[..|path| + 1] == path + [rest[0]];
  }

  lemma {:induction false} MissingBelow(node: Node, path: Path)
    requires node.Missing?
    ensures At(node, path).Missing?
  {
  }

  /** A walk lists exactly the directories that show, and the files. */
  lemma {:induction false} WalkLists(node: Node, path: Path, rules: Rules, disk: Node, e: TreeEntry, f: FileEntry)
    requires Proper(node)
    ensures e in WalkDir(node, path, rules, disk).dirs <==> DirShows(node, path, rules, e)
    ensures f in WalkDir(node, path, rules, disk).files <==> FileShows(node, path, rules, disk, f)
    decreases node
  {
    hide WalkEntry, Open, Proper, DirShows, FileShows;
    if !node.Directory? {
      NothingShows(node, path, rules, disk, e, f);
    } else {
      EntriesList(node, node.entries, path, rules, disk, e, f);
      forall x | x in node.entries
        ensures e in WalkEntry(node, x, path, rules, disk).dirs <==> path + [x.name] <= e.path && DirShows(node, path, rules, e)
        ensures f in WalkEntry(node, x, path, rules, disk).files <==> path + [x.name] <= f.src && FileShows(node, path, rules, disk, f)
      {
        EntryNode(node, x);
        WalkLists(x.node, path + [x.name], rules, disk, e, f);
        EntryLists(node, x, path, rules, disk, e, f);
      }
      SelfOrBelow(node, path, rules, disk, e, f);
    }
  }

  lemma NothingShows(node: Node, path: Path, rules: Rules, disk: Node, e: TreeEntry, f: FileEntry)
    requires !node.Directory?
    ensures !DirShows(node, path, rules, e) && !FileShows(node, path, rules, disk, f)
  {
    if path < f.src {
      assert f.src[|path|..] != [];
    }
    if path <= e.path {
      assert e.path[|path|..] == [] ==> At(node, e.path[|path|..]) == node;
    }
  }

  /** What shows is the directory itself, or shows below an entry. */
  lemma SelfOrBelow(node: Node, path: Path, rules: Rules, disk: Node, e: TreeEntry, f: FileEntry)
    requires node.Directory?
    ensures DirShows(node, path, rules, e) <==>
            e == TreeEntry(path, node.mtime) ||
            (DirShows(node, path, rules, e) && exists x | x in node.entries :: path + [x.name] <= e.path)
    ensures FileShows(node, path, rules, disk, f) ==> exists x | x in node.entries :: path + [x.name] <= f.src
  {
    if e.path == path {
      assert e.path[|path|..] == [];
    } else if path <= e.path && DirShows(node, path, rules, e) {
      BelowEntry(node, path, e.path);
    }
    if FileShows(node, path, rules, disk, f) {
      BelowEntry(node, path, f.src);
    }
  }

  /** One entry's part of a walk. */
  lemma EntryLists(node: Node, x: DirEntry, path: Path, rules: Rules, disk: Node, e: TreeEntry, f: FileEntry)
    requires node.Directory? && Proper(node) && x in node.entries
    requires e in WalkDir(x.node, path + [x.name], rules, disk).dirs <==> DirShows(x.node, path + [x.name], rules, e)
    requires f in WalkDir(x.node, path + [x.name], rules, disk).files <==> FileShows(x.node, path + [x.name], rules, disk, f)
    ensures e in WalkEntry(node, x, path, rules, disk).dirs <==> path + [x.name] <= e.path && DirShows(node, path, rules, e)
    ensures f in WalkEntry(node, x, path, rules, disk).files <==> path + [x.name] <= f.src && FileShows(node, path, rules, disk, f)
  {
    hide WalkDir, Open, Skipped, Proper, At;
    var item := path + [x.name];
    if item <= e.path {
      ShowsBelow(node, x, path, rules, e.path);
    }
    if item <= f.src {
      ShowsBelow(node, x, path, rules, f.src);
    }
    LeafLists(node, x, path, rules, disk, e, f);
  }

  lemma LeafLists(node: Node, x: DirEntry, path: Path, rules: Rules, disk: Node, e: TreeEntry, f: FileEntry)
    requires node.Directory? && x in node.entries
    requires var item := path + [x.name];
             (e in WalkDir(x.node, item, rules, disk).dirs <==> DirShows(x.node, item, rules, e)) &&
             (f in WalkDir(x.node, item, rules, disk).files <==> FileShows(x.node, item, rules, disk, f)) &&
             (item <= e.path ==>
                At(node, e.path[|path|..]) == At(x.node, e.path[|item|..]) &&
                (Open(e.path, |path|, rules) <==> !Skipped(rules, item) && Open(e.path, |item|, rules))) &&
             (item <= f.src ==>
                At(node, f.src[|path|..]) == At(x.node, f.src[|item|..]) &&
                (Open(f.src, |path|, rules) <==> !Skipped(rules, item) && Open(f.src, |item|, rules)))
    ensures var item := path + [x.name];
            (e in WalkEntry(node, x, path, rules, disk).dirs <==> item <= e.path && DirShows(node, path, rules, e)) &&
            (f in WalkEntry(node, x, path, rules, disk).files <==> item <= f.src && FileShows(node, path, rules, disk, f))
  {
    hide WalkDir, Skipped;
    var item := path + [x.name];
    if item <= f.src {
      assert f.src[|item|..] == [] ==> f.src == item;
    }
    if item <= e.path {
      assert e.path[|item|..] == [] ==> e.path == item;
    }
  }

  /** So a build's manifest lists what shows below its roots, and nothing else. */
  lemma {:induction false} RootsList(roots: seq<Path>, rules: Rules, disk: Node, e: TreeEntry, f: FileEntry)
    requires forall r | r in roots :: Proper(At(disk, r))
    ensures e in WalkRoots(roots, rules, disk).dirs <==> exists r | r in roots :: DirShows(At(disk, r), r, rules, e)
    ensures f in WalkRoots(roots, rules, disk).files <==> exists r | r in roots :: FileShows(At(disk, r), r, rules, disk, f)
  {
    hide WalkDir, DirShows, FileShows, Proper;
    if roots != [] {
      WalkLists(At(disk, roots[0]), roots[0], rules, disk, e, f);
      RootsList(roots[1..], rules, disk, e, f);
      assert roots == [roots[0]] + roots[1..];
    }
  }

  // ---- Two disks ---------------------------------------------------------------------------

  /** `b` shows what the directory times of `a` promise: the same entries, of the same kinds. */
  ghost predicate Alike(a: Node, b: Node)
    decreases a
  {
    (a.Missing? <==> b.Missing?) && (a.File? <==> b.File?) && (a.Directory? <==> b.Directory?) &&
    (a.Directory? && a.mtime == b.mtime ==>
       |a.entries| == |b.entries| &&
       forall i | 0 <= i < |a.entries| :: a.entries[i].name == b.entries[i].name && Alike(a.entries[i].node, b.entries[i].node))
  }

  /** The entries without the copies' times. */
  function Bare(files: seq<FileEntry>): (r: seq<FileEntry>)
    ensures |r| == |files| && forall i | 0 <= i < |files| :: r[i] == files[i].(destMtime := 0)
  {
    if files == [] then [] else [files[0].(destMtime := 0)] + Bare(files[1..])
  }

  ghost predicate SameSources(a: Walked, b: Walked) {
    a.dirs == b.dirs && Bare(a.files) == Bare(b.files)
  }

  lemma BareSum(a: seq<FileEntry>, b: seq<FileEntry>)
    ensures Bare(a + b) == Bare(a) + Bare(b)
  {
  }

  lemma SameJoin(a: Walked, b: Walked, c: Walked, d: Walked)
    requires SameSources(a, c) && SameSources(b, d)
    ensures SameSources(Join(a, b), Join(c, d))
  {
    BareSum(a.files, b.files);
    BareSum(c.files, d.files);
  }

  lemma AccurateJoin(a: Walked, b: Walked, disk: Node)
    requires Accurate(Join(a, b), disk)
    ensures Accurate(a, disk) && Accurate(b, disk)
  {
    assert forall e | e in a.dirs :: e in Join(a, b).dirs;
    assert forall e | e in b.dirs :: e in Join(a, b).dirs;
    assert forall e | e in a.files :: e in Join(a, b).files;
    assert forall e | e in b.files :: e in Join(a, b).files;
  }

  /** If the recorded times still show, a second walk records the same. */
  lemma {:induction false} WalkDirSame(a: Node, b: Node, path: Path, rules: Rules, timesA: Node, disk: Node)
    requires Alike(a, b) && At(disk, path) == b && Proper(b) && Accurate(WalkDir(a, path, rules, timesA), disk)
    ensures SameSources(WalkDir(a, path, rules, timesA), WalkDir(b, path, rules, disk))
    decreases a, 1
  {
    if a.Directory? {
      var first := Walked([TreeEntry(path, a.mtime)], []);
      AccurateJoin(first, WalkEntries(a, a.entries, path, rules, timesA), disk);
      assert TreeEntry(path, a.mtime) in first.dirs;
      assert a.mtime == b.mtime;
      WalkEntriesSame(a, b, 0, path, rules, timesA, disk);
      assert a.entries[0..] == a.entries && b.entries[0..] == b.entries;
      SameJoin(first, WalkEntries(a, a.entries, path, rules, timesA), first, WalkEntries(b, b.entries, path, rules, disk));
    }
  }

  lemma {:induction false} WalkEntriesSame(a: Node, b: Node, i: nat, path: Path, rules: Rules, timesA: Node, disk: Node)
    requires a.Directory? && b.Directory? && a.mtime == b.mtime && Alike(a, b) && i <= |a.entries|
    requires At(disk, path) == b && Proper(b) && Accurate(WalkEntries(a, a.entries[i..], path, rules, timesA), disk)
    ensures SameSources(WalkEntries(a, a.entries[i..], path, rules, timesA), WalkEntries(b, b.entries[i..], path, rules, disk))
    decreases a, 0, |a.entries| - i
  {
    if i < |a.entries| {
      assert a.entries[i..] == [a.entries[i]] + a.entries[i + 1..] && b.entries[i..] == [b.entries[i]] + b.entries[i + 1..];
      var one, rest := WalkEntry(a, a.entries[i], path, rules, timesA), WalkEntries(a, a.entries[i + 1..], path, rules, timesA);
      AccurateJoin(one, rest, disk);
      WalkEntrySame(a, b, i, path, rules, timesA, disk);
      WalkEntriesSame(a, b, i + 1, path, rules, timesA, disk);
      SameJoin(one, rest, WalkEntry(b, b.entries[i], path, rules, disk), WalkEntries(b, b.entries[i + 1..], path, rules, disk));
    }
  }

  lemma {:induction false} WalkEntrySame(a: Node, b: Node, i: nat, path: Path, rules: Rules, timesA: Node, disk: Node)
    requires a.Directory? && b.Directory? && a.mtime == b.mtime && Alike(a, b) && i < |a.entries|
    requires At(disk, path) == b && Proper(b) && Accurate(WalkEntry(a, a.entries[i], path, rules, timesA), disk)
    ensures SameSources(WalkEntry(a, a.entries[i], path, rules, timesA), WalkEntry(b, b.entries[i], path, rules, disk))
    decreases a, 0, 0
  {
    var item := path + [a.entries[i].name];
    EntryAt(disk, b, path, b.entries[i]);
    assert Alike(a.entries[i].node, b.entries[i].node);
    if a.entries[i].node.Directory? && !Skipped(rules, item) {
      WalkDirSame(a.entries[i].node, b.entries[i].node, item, rules, timesA, disk);
    } else if a.entries[i].node.File? && !Skipped(rules, item) && Copied(rules, item) {
      assert WalkEntry(a, a.entries[i], path, rules, timesA).files[0] in WalkEntry(a, a.entries[i], path, rules, timesA).files;
    }
  }

  // ---- Comparing manifests -----------------------------------------------------------------

  /** The recorded times by path, the last one winning. */
  function Times(entries: seq<TreeEntry>): map<Path, int> {
    if entries == [] then map[]
    else
      var last := entries[|entries| - 1];
      Times(entries[..|entries| - 1])[last.path := last.mtime]
  }

  /** `copy_files_dirs_equal`: the same length, and every time found, a missing path counting as 0. */
  predicate TimesEqual(a: seq<TreeEntry>, b: seq<TreeEntry>) {
    |a| == |b| &&
    forall i | 0 <= i < |b| :: (if b[i].path in Times(a) then Times(a)[b[i].path] else 0) == b[i].mtime
  }

  function Sources(files: seq<FileEntry>): (r: seq<TreeEntry>)
    ensures |r| == |files| && forall i | 0 <= i < |files| :: r[i] == TreeEntry(files[i].src, files[i].srcMtime)
  {
    if files == [] then [] else [TreeEntry(files[0].src, files[0].srcMtime)] + Sources(files[1..])
  }

  lemma {:induction false} TimesFrom(entries: seq<TreeEntry>, path: Path)
    ensures path in Times(entries) <==> exists e | e in entries :: e.path == path
    ensures path in Times(entries) ==> TreeEntry(path, Times(entries)[path]) in entries
  {
    if entries != [] {
      var front, last := entries[..|entries| - 1], entries[|entries| - 1];
      TimesFrom(front, path);
      assert entries == front + [last];
    }
  }

  ghost predicate DistinctPaths(entries: seq<TreeEntry>) {
    forall i, j | 0 <= i < j < |entries| :: entries[i].path != entries[j].path
  }

  lemma {:induction false} DistinctCount(entries: seq<TreeEntry>)
    requires DistinctPaths(entries)
    ensures |set e | e in entries| == |entries|
  {
    if entries != [] {
      var front, last := entries[..|entries| - 1], entries[|entries| - 1];
      DistinctCount(front);
      assert (set e | e in entries) == (set e | e in front) + {last};
      forall i | 0 <= i < |front| ensures front[i] != last {
        assert entries[i].path != entries[|entries| - 1].path;
      }
      assert last !in front;
    }
  }

  /**
   * With paths recorded once, the recorded times are equal, whatever the order, exactly if they
   * compare equal and every path compared is there. Without a time of 0 comparing equal is enough.
   */
  lemma TimesEqualMeans(a: seq<TreeEntry>, b: seq<TreeEntry>)
    requires DistinctPaths(a) && DistinctPaths(b)
    ensures (set e | e in a) == (set e | e in b) <==> TimesEqual(a, b) && forall e | e in b :: e.path in Times(a)
    ensures TimesEqual(a, b) && (forall e | e in b :: e.mtime != 0) ==> forall e | e in b :: e.path in Times(a)
  {
    var sa, sb := set e | e in a, set e | e in b;
    DistinctCount(a);
    DistinctCount(b);
    if TimesEqual(a, b) && forall e | e in b :: e.path in Times(a) {
      forall e | e in b ensures e in a {
        TimesFrom(a, e.path);
        var i :| 0 <= i < |b| && b[i] == e;
      }
      assert sb <= sa;
      assert sa == sb + (sa - sb);
      assert |sa| == |sb| + |sa - sb|;
    }
    if sa == sb {
      forall i | 0 <= i < |b| ensures b[i].path in Times(a) && Times(a)[b[i].path] == b[i].mtime {
        assert b[i] in sb && b[i] in a;
        TimesFrom(a, b[i].path);
        SamePathSame(a, b[i], TreeEntry(b[i].path, Times(a)[b[i].path]));
      }
    }
  }

  lemma SamePathSame(entries: seq<TreeEntry>, e: TreeEntry, f: TreeEntry)
    requires DistinctPaths(entries) && e in entries && f in entries && e.path == f.path
    ensures e == f
  {
    var i :| 0 <= i < |entries| && entries[i] == e;
    var j :| 0 <= j < |entries| && entries[j] == f;
    assert i == j;
  }

  /** A time of 0 passes for a path that is not there. */
  lemma ZeroPasses(x: Path, y: Path, mtime: int)
    requires x != y
    ensures TimesEqual([TreeEntry(x, mtime)], [TreeEntry(y, 0)])
  {
    assert [TreeEntry(x, mtime)][..0] == [];
    assert Times([TreeEntry(x, mtime)]) == map[x := mtime];
  }

  // ---- The gate ----------------------------------------------------------------------------

  datatype Decision = Decision(skipCleanup: bool, skipCopy: bool, owned: seq<Path>, persist: Option<Walked>)

  function Destinations(files: seq<FileEntry>): (r: seq<Path>)
    ensures |r| == |files| && forall i | 0 <= i < |r| :: r[i] == files[i].dest
    ensures forall d :: d in r <==> exists f | f in files :: f.dest == d
  {
    if files == [] then [] else [files[0].dest] + Destinations(files[1..])
  }

  predicate DestsValid(files: seq<FileEntry>, disk: Node) {
    forall f | f in files :: MtimeAt(disk, f.dest) == Some(f.destMtime)
  }

  /** `copy_files_fast_validate` */
  predicate FastValidate(cached: Walked, changed: set<Path>, disk: Node) {
    changed == {} &&
    (forall e | e in cached.dirs :: MtimeAt(disk, e.path) == Some(e.mtime)) &&
    (forall f | f in cached.files :: MtimeAt(disk, f.src) == Some(f.srcMtime)) &&
    DestsValid(cached.files, disk)
  }

  /** What the gate decides by walking the roots again. */
  function Slow(cached: Option<Walked>, changed: set<Path>, roots: seq<Path>, rules: Rules, disk: Node): Decision {
    var current := WalkRoots(roots, rules, disk);
    match cached
    case None => Decision(false, false, Destinations(current.files), Some(current))
    case Some(before) =>
      var dirsMatch := TimesEqual(current.dirs, before.dirs);
      var filesMatch := TimesEqual(Sources(current.files), Sources(before.files));
      var destsValid := DestsValid(before.files, disk);
      Decision(dirsMatch && filesMatch && destsValid && changed == {}, filesMatch && destsValid,
               Destinations(current.files), Some(current))
  }

  /** `load_copy_files_gate_pre_build` */
  function Gate(cached: Option<Walked>, changed: set<Path>, roots: seq<Path>, rules: Rules, disk: Node): Decision {
    if cached.Some? && FastValidate(cached.value, changed, disk) then
      Decision(true, true, Destinations(cached.value.files), None)
    else Slow(cached, changed, roots, rules, disk)
  }

  /** The disk shows this time there. */
  predicate TimeShows(disk: Node, path: Path, mtime: int) {
    !At(disk, path).Missing? && At(disk, path).mtime == mtime
  }

  /**
   * What the gate decides. It spares the walk exactly if there is a manifest, nothing is reported changed
   * and every recorded time still shows; then nothing is to do. Otherwise it walks, keeps the new
   * manifest, and without an old one skips nothing; with one it skips the copying if the sources have
   * the recorded times and so have the copies, and the cleanup if besides the directories have theirs
   * and nothing is reported changed.
   */
  lemma GateMeans(cached: Option<Walked>, changed: set<Path>, roots: seq<Path>, rules: Rules, disk: Node)
    ensures var gate, walked := Gate(cached, changed, roots, rules, disk), WalkRoots(roots, rules, disk);
            (gate.persist.None? <==>
               cached.Some? && changed == {} &&
               (forall e | e in cached.value.dirs :: TimeShows(disk, e.path, e.mtime)) &&
               (forall f | f in cached.value.files :: TimeShows(disk, f.src, f.srcMtime) && TimeShows(disk, f.dest, f.destMtime))) &&
            (gate.persist.None? ==> gate.skipCleanup && gate.skipCopy && gate.owned == Destinations(cached.value.files)) &&
            (gate.persist.Some? ==> gate.persist.value == walked && gate.owned == Destinations(walked.files)) &&
            (cached.None? ==> !gate.skipCleanup && !gate.skipCopy) &&
            (gate.persist.Some? && cached.Some? ==>
               (gate.skipCopy <==> TimesEqual(Sources(walked.files), Sources(cached.value.files)) &&
                                   forall f | f in cached.value.files :: TimeShows(disk, f.dest, f.destMtime)) &&
               (gate.skipCleanup <==> gate.skipCopy && changed == {} && TimesEqual(walked.dirs, cached.value.dirs)))
  {
    hide WalkRoots, TimesEqual, Sources, At;
    if cached.Some? {
      forall p: Path, m: int ensures MtimeAt(disk, p) == Some(m) <==> TimeShows(disk, p, m) {
      }
    }
  }

  // ---- The roots in any order --------------------------------------------------------------

  /** How many directories and files a walk recorded. */
  function Sizes(w: Walked): (nat, nat) {
    (|w.dirs|, |w.files|)
  }

  function Plus(a: (nat, nat), b: (nat, nat)): (nat, nat) {
    (a.0 + b.0, a.1 + b.1)
  }

  lemma {:induction false} WalkRootsSplit(roots: seq<Path>, i: nat, rules: Rules, disk: Node)
    requires i < |roots|
    ensures Sizes(WalkRoots(roots, rules, disk)) ==
            Plus(Sizes(WalkRoots(roots[..i] + roots[i + 1..], rules, disk)), Sizes(WalkDir(At(disk, roots[i]), roots[i], rules, disk)))
  {
    if i == 0 {
      assert roots[..0] + roots[1..] == roots[1..];
    } else {
      WalkRootsSplit(roots[1..], i - 1, rules, disk);
      assert (roots[..i] + roots[i + 1..])[1..] == roots[1..][..i - 1] + roots[1..][i..];
    }
  }

  lemma WithoutOne(paths: seq<Path>, i: nat)
    requires i < |paths|
    ensures multiset(paths[..i] + paths[i + 1..]) == multiset(paths) - multiset{paths[i]}
  {
    assert paths == paths[..i] + [paths[i]] + paths[i + 1..];
  }

  lemma SameEmpty(paths: seq<Path>)
    requires multiset(paths) == multiset([])
    ensures paths == []
  {
    assert |multiset(paths)| == 0;
  }

  /** Where the first of `a` stands in `b`, and what both are without it. */
  lemma FirstOf(a: seq<Path>, b: seq<Path>) returns (i: nat)
    requires a != [] && multiset(a) == multiset(b)
    ensures i < |b| && b[i] == a[0] && multiset(b[..i] + b[i + 1..]) == multiset(a[1..])
  {
    assert a[0] in multiset(b);
    i :| 0 <= i < |b| && b[i] == a[0];
    WithoutOne(b, i);
    WithoutOne(a, 0);
    assert a[..0] + a[1..] == a[1..];
  }

  lemma HeadSizes(roots: seq<Path>, rules: Rules, disk: Node)
    requires roots != []
    ensures Sizes(WalkRoots(roots, rules, disk)) ==
            Plus(Sizes(WalkRoots(roots[1..], rules, disk)), Sizes(WalkDir(At(disk, roots[0]), roots[0], rules, disk)))
  {
    hide WalkDir, At;
  }

  /** Walking the same roots in another order records as much. */
  lemma {:induction false} WalkRootsReordered(a: seq<Path>, b: seq<Path>, rules: Rules, disk: Node)
    requires multiset(a) == multiset(b)
    ensures Sizes(WalkRoots(a, rules, disk)) == Sizes(WalkRoots(b, rules, disk))
  {
    if a == [] {
      SameEmpty(b);
    } else {
      var i := FirstOf(a, b);
      WalkRootsSplit(b, i, rules, disk);
      WalkRootsReordered(a[1..], b[..i] + b[i + 1..], rules, disk);
      HeadSizes(a, rules, disk);
    }
  }

  ghost predicate PartOf(a: Walked, b: Walked) {
    (forall e | e in a.dirs :: e in b.dirs) && (forall f | f in a.files :: f in b.files)
  }

  lemma {:induction false} RootPart(roots: seq<Path>, root: Path, rules: Rules, disk: Node)
    requires root in roots
    ensures PartOf(WalkDir(At(disk, root), root, rules, disk), WalkRoots(roots, rules, disk))
  {
    if root != roots[0] {
      RootPart(roots[1..], root, rules, disk);
    }
  }

  lemma {:induction false} RootsPart(a: seq<Path>, b: seq<Path>, rules: Rules, disk: Node)
    requires forall r | r in a :: r in b
    ensures PartOf(WalkRoots(a, rules, disk), WalkRoots(b, rules, disk))
  {
    if a != [] {
      RootPart(b, a[0], rules, disk);
      RootsPart(a[1..], b, rules, disk);
    }
  }

  // ---- The fast gate refines the slow one --------------------------------------------------

  /** Between the disks, directory times determine entries and kinds below each root. */
  ghost predicate TimesTell(roots: seq<Path>, a: Node, b: Node) {
    forall r | r in roots && At(a, r).Directory? :: At(b, r).Missing? || Alike(At(a, r), At(b, r))
  }

  /** A root that was no directory is none still. */
  predicate NoRootAppears(roots: seq<Path>, a: Node, b: Node) {
    forall r | r in roots && At(b, r).Directory? :: At(a, r).Directory?
  }

  lemma {:induction false} WalkRootsSame(roots: seq<Path>, rules: Rules, a: Node, b: Node)
    requires TimesTell(roots, a, b) && Accurate(WalkRoots(roots, rules, a), b) && forall r | r in roots :: Proper(At(b, r))
    ensures NoRootAppears(roots, a, b) ==> SameSources(WalkRoots(roots, rules, a), WalkRoots(roots, rules, b))
    ensures |WalkRoots(roots, rules, a).dirs| <= |WalkRoots(roots, rules, b).dirs|
    ensures !NoRootAppears(roots, a, b) ==> |WalkRoots(roots, rules, a).dirs| < |WalkRoots(roots, rules, b).dirs|
  {
    if roots != [] {
      var r := roots[0];
      assert roots == [r] + roots[1..];
      var one, rest := WalkDir(At(a, r), r, rules, a), WalkRoots(roots[1..], rules, a);
      AccurateJoin(one, rest, b);
      WalkRootsSame(roots[1..], rules, a, b);
      if At(a, r).Directory? {
        assert TreeEntry(r, At(a, r).mtime) in one.dirs;
        WalkDirSame(At(a, r), At(b, r), r, rules, a, b);
      } else if At(b, r).Directory? {
        assert WalkDir(At(b, r), r, rules, b).dirs[0] == TreeEntry(r, At(b, r).mtime);
      }
      if NoRootAppears(roots, a, b) {
        SameJoin(one, rest, WalkDir(At(b, r), r, rules, b), WalkRoots(roots[1..], rules, b));
      }
    }
  }

  /** Lists with the same members and length compare equal, when both show the disk's times. */
  lemma TimesEqualOn(a: seq<TreeEntry>, b: seq<TreeEntry>, disk: Node)
    requires |a| == |b| && forall e | e in b :: e in a
    requires forall e | e in a :: MtimeAt(disk, e.path) == Some(e.mtime)
    ensures TimesEqual(a, b)
  {
    forall i | 0 <= i < |b| ensures b[i].path in Times(a) && Times(a)[b[i].path] == b[i].mtime {
      assert b[i] in a;
      TimesFrom(a, b[i].path);
    }
  }

  lemma BareSources(a: seq<FileEntry>, b: seq<FileEntry>)
    requires Bare(a) == Bare(b)
    ensures Sources(a) == Sources(b) && |a| == |b|
    ensures forall i | 0 <= i < |a| :: a[i].dest == b[i].dest
  {
    assert |a| == |Bare(a)| == |b|;
    forall i | 0 <= i < |a| ensures a[i].src == b[i].src && a[i].srcMtime == b[i].srcMtime && a[i].dest == b[i].dest {
      assert Bare(a)[i] == Bare(b)[i];
    }
  }

  /**
   * When the fast check passes, the slow gate skips the cleanup too exactly if no root appeared, and
   * then it skips the copying as well and owns the same outputs. The roots may come in another order:
   * the manifest's key sorts them.
   */
  lemma FastRefinesSlow(cached: Walked, changed: set<Path>, before: seq<Path>, roots: seq<Path>, rules: Rules, a: Node, b: Node)
    requires multiset(before) == multiset(roots) && SameSources(cached, WalkRoots(before, rules, a))
    requires TimesTell(before, a, b) && forall r | r in before :: Proper(At(b, r))
    requires FastValidate(cached, changed, b)
    ensures var slow := Slow(Some(cached), changed, roots, rules, b);
            (slow.skipCleanup <==> NoRootAppears(before, a, b)) &&
            (NoRootAppears(before, a, b) ==>
               slow.skipCopy && forall d :: d in slow.owned <==> d in Gate(Some(cached), changed, roots, rules, b).owned)
  {
    CachedAccurate(cached, WalkRoots(before, rules, a), b);
    WalkRootsSame(before, rules, a, b);
    WalkRootsReordered(before, roots, rules, b);
    SameRoots(before, roots);
    if NoRootAppears(before, a, b) {
      NothingAppeared(cached, before, roots, rules, b);
    }
  }

  /** A root that appears is such a case: the fast check passes, the full comparison does not. */
  lemma NewRootUnseen(rules: Rules)
    ensures var roots, a, b := [["r"]], Directory(0, []), Directory(0, [DirEntry("r", Directory(1, []))]);
            var cached := WalkRoots(roots, rules, a);
            cached == Walked([], []) && FastValidate(cached, {}, b) && !NoRootAppears(roots, a, b) &&
            !Slow(Some(cached), {}, roots, rules, b).skipCleanup
  {
    var roots, a, b := [["r"]], Directory(0, []), Directory(0, [DirEntry("r", Directory(1, []))]);
    assert At(a, ["r"]) == Missing && At(b, ["r"]) == Directory(1, []) by {
      assert ["r"][1..] == [];
    }
    assert roots[1..] == [] && WalkRoots(roots, rules, a) == Walked([], []);
    FastRefinesSlow(Walked([], []), {}, roots, roots, rules, a, b);
    assert ["r"] in roots;
  }

  lemma SameRoots(before: seq<Path>, roots: seq<Path>)
    requires multiset(before) == multiset(roots)
    ensures forall r :: r in before <==> r in roots
  {
    forall r ensures r in before <==> r in roots {
      assert r in before <==> r in multiset(before);
      assert r in roots <==> r in multiset(roots);
    }
  }

  /** A manifest of what a walk still finds compares equal to another walk, in any order of the roots. */
  lemma NothingAppeared(cached: Walked, before: seq<Path>, roots: seq<Path>, rules: Rules, b: Node)
    requires (forall r :: r in before <==> r in roots) && SameSources(cached, WalkRoots(before, rules, b))
    requires Sizes(WalkRoots(before, rules, b)) == Sizes(WalkRoots(roots, rules, b))
    requires forall r | r in before :: Proper(At(b, r))
    ensures var current := WalkRoots(roots, rules, b);
            TimesEqual(current.dirs, cached.dirs) && TimesEqual(Sources(current.files), Sources(cached.files)) &&
            forall d :: d in Destinations(current.files) <==> d in Destinations(cached.files)
  {
    var now, current := WalkRoots(before, rules, b), WalkRoots(roots, rules, b);
    RootsPart(before, roots, rules, b);
    RootsPart(roots, before, rules, b);
    WalkRootsAccurate(roots, rules, b);
    TimesEqualOn(current.dirs, cached.dirs, b);
    BareSources(now.files, cached.files);
    SourcesPart(now.files, current.files);
    SourcesAccurate(current, b);
    TimesEqualOn(Sources(current.files), Sources(cached.files), b);
    SameDestinations(current.files, now.files, cached.files);
  }

  lemma CachedAccurate(cached: Walked, walked: Walked, disk: Node)
    requires SameSources(cached, walked)
    requires forall e | e in cached.dirs :: MtimeAt(disk, e.path) == Some(e.mtime)
    requires forall f | f in cached.files :: MtimeAt(disk, f.src) == Some(f.srcMtime)
    ensures Accurate(walked, disk)
  {
    BareSources(cached.files, walked.files);
    forall f | f in walked.files ensures MtimeAt(disk, f.src) == Some(f.srcMtime) {
      var i :| 0 <= i < |walked.files| && walked.files[i] == f;
      assert Sources(cached.files)[i] == Sources(walked.files)[i] && cached.files[i] in cached.files;
    }
  }

  lemma SourcesPart(a: seq<FileEntry>, b: seq<FileEntry>)
    requires forall f | f in a :: f in b
    ensures forall e | e in Sources(a) :: e in Sources(b)
  {
    forall e | e in Sources(a) ensures e in Sources(b) {
      var i :| 0 <= i < |a| && Sources(a)[i] == e;
      assert a[i] in a;
      var j :| 0 <= j < |b| && b[j] == a[i];
      assert Sources(b)[j] == e;
    }
  }

  lemma SourcesAccurate(w: Walked, disk: Node)
    requires Accurate(w, disk)
    ensures forall e | e in Sources(w.files) :: MtimeAt(disk, e.path) == Some(e.mtime)
  {
    forall e | e in Sources(w.files) ensures MtimeAt(disk, e.path) == Some(e.mtime) {
      var i :| 0 <= i < |w.files| && Sources(w.files)[i] == e;
      assert w.files[i] in w.files;
    }
  }

  lemma SameDestinations(a: seq<FileEntry>, b: seq<FileEntry>, c: seq<FileEntry>)
    requires forall f :: f in a <==> f in b
    requires |b| == |c| && forall i | 0 <= i < |b| :: b[i].dest == c[i].dest
    ensures forall d :: d in Destinations(a) <==> d in Destinations(c)
  {
    forall d ensures d in Destinations(a) <==> d in Destinations(c) {
      if d in Destinations(a) {
        var f :| f in a && f.dest == d;
        var i :| 0 <= i < |b| && b[i] == f;
        assert c[i] in c;
      }
      if d in Destinations(c) {
        var f :| f in c && f.dest == d;
        var i :| 0 <= i < |c| && c[i] == f;
        assert b[i] in b && b[i] in a;
      }
    }
  }
}
