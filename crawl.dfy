/**
 * `build_tree`: the recursive directory walk that fills the output tree, over
 * an abstract file system. `WalkDir` and `WalkSubdirs` say what a walk
 * produces; the `BuildTree` method does it step by step, growing a tree
 * branch, a shared set of visited directory identities and shared counters.
 */
module Crawl {
  import opened Sorting
  import opened Labels
  import Summary

  datatype Option<T> = None | Some(value: T)

  /** `(st_ino, st_dev)`: how `os.stat` identifies a directory. */
  datatype Ident = Ident(ino: int, dev: int)

  /** The outcome of one type probe on a directory entry: it may raise `OSError`. */
  datatype Probe = Yes | No | Fails

  /**
   * One entry of a directory listing, with the answers the walk gets about it:
   * `isDir` is `is_dir(follow_symlinks=True)`, `isFile` is
   * `is_file(follow_symlinks=False)`, `isSymlink` is `is_symlink()`, `target`
   * is `os.readlink` (None when it fails) and `ident` is the identity
   * `os.stat(follow_symlinks=True)` reports (None when it fails).
   */
  datatype DirEntry = DirEntry(
    name: string,
    isDir: Probe,
    isFile: Probe,
    isSymlink: bool,
    target: Option<string>,
    ident: Option<Ident>)

  /** What `os.scandir` gives for a directory. */
  datatype Listing = Entries(entries: seq<DirEntry>) | PermissionDenied

  /** The directories reachable by identity, with their listings. */
  type FileSystem = map<Ident, Listing>

  /** The parameters passed unchanged down the recursion. */
  datatype Config = Config(maxFilesToList: int, maxDirsToList: int, showAll: bool)

  /**
   * The listing of the directory with identity `id`. A directory whose
   * identity is unknown (its `os.stat` failed) or not in the map cannot be
   * listed; that is a permission failure.
   */
  function ListingOf(fs: FileSystem, id: Option<Ident>): Listing
  {
    if id.Some? && id.value in fs then fs[id.value] else PermissionDenied
  }

  predicate Listable(fs: FileSystem, id: Option<Ident>)
  {
    ListingOf(fs, id).Entries?
  }

  /** `seen.add(...)` when the identity is known. */
  function Mark(seen: set<Ident>, id: Option<Ident>): (r: set<Ident>)
    ensures seen <= r
  {
    if id.Some? then seen + {id.value} else seen
  }

  // ---------------------------------------------------------------------------
  // Termination measure: the listable identities not yet visited.

  function Unvisited(fs: FileSystem, seen: set<Ident>): nat
  {
    |fs.Keys - seen|
  }

  lemma {:induction false} SubsetCard<T>(a: set<T>, b: set<T>)
    requires a <= b
    ensures |a| <= |b|
    decreases |a|
  {
    if a != {} {
      var x :| x in a;
      SubsetCard(a - {x}, b - {x});
    }
  }

  lemma UnvisitedShrinks(fs: FileSystem, a: set<Ident>, b: set<Ident>)
    requires a <= b
    ensures Unvisited(fs, b) <= Unvisited(fs, a)
  {
    SubsetCard(fs.Keys - b, fs.Keys - a);
  }

  /** Visiting a new listable identity leaves strictly fewer to visit. */
  lemma UnvisitedDrops(fs: FileSystem, a: set<Ident>, b: set<Ident>, x: Ident)
    requires a <= b && x in fs && x !in b
    ensures Unvisited(fs, b + {x}) < Unvisited(fs, a)
  {
    assert fs.Keys - (b + {x}) == (fs.Keys - b) - {x};
    assert |(fs.Keys - b) - {x}| == |fs.Keys - b| - 1;
    UnvisitedShrinks(fs, a, b);
  }

  // ---------------------------------------------------------------------------
  // Filtering and classifying the entries of one directory.

  /** `name.startswith(".")`. */
  predicate Hidden(name: string)
  {
    |name| > 0 && name[0] == '.'
  }

  predicate NotHidden(e: DirEntry)
  {
    !Hidden(e.name)
  }

  /** The entries the walk looks at: all of them, or those not starting with a dot. */
  function Visible(es: seq<DirEntry>, showAll: bool): (r: seq<DirEntry>)
    ensures forall e :: e in r <==> e in es && (showAll || !Hidden(e.name))
    ensures showAll ==> r == es
  {
    FilterMembers(es, NotHidden);
    if showAll then es else Filter(es, NotHidden)
  }

  datatype Kind = DirKind | FileKind | Dropped

  /**
   * A directory after following symlinks is a dir. Otherwise a regular file,
   * any symlink, or an entry whose file probe fails is a file. Anything else
   * (a socket, a fifo, a device) is dropped.
   */
  function KindOf(e: DirEntry): Kind
  {
    if e.isDir == Yes then DirKind
    else if e.isFile != No || e.isSymlink then FileKind
    else Dropped
  }

  predicate IsDirEntry(e: DirEntry) { KindOf(e) == DirKind }
  predicate IsFileEntry(e: DirEntry) { KindOf(e) == FileKind }
  predicate IsListed(e: DirEntry) { KindOf(e) != Dropped }
  predicate IsDropped(e: DirEntry) { KindOf(e) == Dropped }

  /** The kinds in terms of the probes, in the order the loop asks them. */
  lemma KindProbes(e: DirEntry)
    ensures IsDirEntry(e) <==> e.isDir == Yes
    ensures IsFileEntry(e) <==> e.isDir != Yes && (e.isFile == Fails || e.isFile == Yes || e.isSymlink)
  {
  }

  /** The classification loop: each entry goes to `dirs`, to `files`, or nowhere. */
  method Classify(entries: seq<DirEntry>) returns (dirs: seq<DirEntry>, files: seq<DirEntry>)
    ensures dirs == Filter(entries, IsDirEntry)
    ensures files == Filter(entries, IsFileEntry)
  {
    dirs, files := [], [];
    var i := 0;
    while i < |entries|
      invariant 0 <= i <= |entries|
      invariant dirs == Filter(entries[..i], IsDirEntry)
      invariant files == Filter(entries[..i], IsFileEntry)
    {
      var e := entries[i];
      TakeSnoc(entries, i);
      FilterSnoc(entries[..i], e, IsDirEntry);
      FilterSnoc(entries[..i], e, IsFileEntry);
      KindProbes(e);
      // a dir probe that raises means "not a dir"; a file probe that raises keeps the entry as a file
      var isDir := e.isDir == Yes;
      var isFile := e.isFile == Fails || e.isFile == Yes || e.isSymlink;
      assert isDir == IsDirEntry(e);
      assert !isDir ==> isFile == IsFileEntry(e);
      if isDir {
        dirs := dirs + [e];
      } else if isFile {
        files := files + [e];
      }
      i := i + 1;
    }
    assert entries[..|entries|] == entries;
  }


  /**
   * Every entry is exactly one of a dir, a file or dropped, and symlinks and
   * entries whose probes fail are never dropped.
   */
  lemma ClassifyPartition(es: seq<DirEntry>)
    ensures |Filter(es, IsDirEntry)| + |Filter(es, IsFileEntry)| + |Filter(es, IsDropped)| == |es|
    ensures forall e :: e in es && (e.isSymlink || e.isFile == Fails) ==>
              e in Filter(es, IsDirEntry) || e in Filter(es, IsFileEntry)
  {
    FilterSplit(es, IsListed, IsDirEntry, IsFileEntry);
    FilterMembers(es, IsDirEntry);
    FilterMembers(es, IsFileEntry);
    FilterComplement(es, IsListed, IsDropped);
  }

  /** Entries ordered by raw name, like `key=lambda e: e.name`. */
  predicate NameLe(a: DirEntry, b: DirEntry)
  {
    StrLe(a.name, b.name)
  }

  lemma NameLeTotal()
    ensures TotalPreorder(NameLe)
  {
    forall a, b ensures NameLe(a, b) || NameLe(b, a) {
      StrLeTotal(a.name, b.name);
    }
    forall a, b, c | NameLe(a, b) && NameLe(b, c) ensures NameLe(a, c) {
      StrLeTrans(a.name, b.name, c.name);
    }
  }

  /** `list.sort(key=lambda e: e.name)`. */
  function SortByName(es: seq<DirEntry>): (r: seq<DirEntry>)
    ensures SortedBy(r, NameLe) && multiset(r) == multiset(es)
  {
    NameLeTotal();
    Sort(es, NameLe)
  }

  /** The directories of a listing, in name order. */
  function DirsOf(es: seq<DirEntry>, cfg: Config): seq<DirEntry>
  {
    SortByName(Filter(Visible(es, cfg.showAll), IsDirEntry))
  }

  /** The files of a listing, in name order. */
  function FilesOf(es: seq<DirEntry>, cfg: Config): seq<DirEntry>
  {
    SortByName(Filter(Visible(es, cfg.showAll), IsFileEntry))
  }

  /** The dirs and files of a listing are its visible entries of that kind, sorted by name. */
  lemma SectionsOf(es: seq<DirEntry>, cfg: Config)
    ensures var ds, fs := DirsOf(es, cfg), FilesOf(es, cfg);
            && SortedBy(ds, NameLe) && SortedBy(fs, NameLe)
            && (forall e :: e in ds <==> e in es && (cfg.showAll || !Hidden(e.name)) && KindOf(e) == DirKind)
            && (forall e :: e in fs <==> e in es && (cfg.showAll || !Hidden(e.name)) && KindOf(e) == FileKind)
  {
    var vis := Visible(es, cfg.showAll);
    FilterMembers(vis, IsDirEntry);
    FilterMembers(vis, IsFileEntry);
    SameMembers(DirsOf(es, cfg), Filter(vis, IsDirEntry));
    SameMembers(FilesOf(es, cfg), Filter(vis, IsFileEntry));
  }

  // ---------------------------------------------------------------------------
  // Labels of the tree lines.

  /** `" -> target"`, or `" -> ?"` when the link cannot be read; nothing for a non-link. */
  function LinkSuffix(e: DirEntry): Label
  {
    if !e.isSymlink then []
    else match e.target
      case Some(t) => [Span(Plain, " -> " + t)]
      case None => [Span(Plain, " -> "), Span(Error, "?")]
  }

  function DirLabel(e: DirEntry): Label
  {
    [Span(Dir, e.name)] + LinkSuffix(e)
  }

  function FileLabel(e: DirEntry): Label
  {
    [Span(File, e.name)] + LinkSuffix(e)
  }

  const DeniedLabel: Label := [Span(Error, "permission denied")]

  function DirCountLabel(n: nat): Label
  {
    [Span(SummaryStyle, CountPhrase(n, "directory", "directories"))]
  }

  /** The plain text of an entry's line: its name, then the link target if it is a symlink. */
  lemma EntryLabelText(e: DirEntry)
    ensures !e.isSymlink ==> PlainText(DirLabel(e)) == e.name && PlainText(FileLabel(e)) == e.name
    ensures e.isSymlink && e.target.Some? ==>
              && PlainText(DirLabel(e)) == e.name + " -> " + e.target.value
              && PlainText(FileLabel(e)) == e.name + " -> " + e.target.value
    ensures e.isSymlink && e.target.None? ==>
              && PlainText(DirLabel(e)) == e.name + " -> ?"
              && PlainText(FileLabel(e)) == e.name + " -> ?"
  {
    var d, f := [Span(Dir, e.name)], [Span(File, e.name)];
    assert PlainText(d) == e.name by { assert d[..0] == []; }
    assert PlainText(f) == e.name by { assert f[..0] == []; }
    PlainTextAppend(d, LinkSuffix(e));
    PlainTextAppend(f, LinkSuffix(e));
    if e.isSymlink && e.target.None? {
      var l := LinkSuffix(e);
      assert l[..1] == [Span(Plain, " -> ")] && l[..1][..0] == [];
    } else if e.isSymlink {
      var l := LinkSuffix(e);
      assert l[..0] == [];
    }
  }

  /** The names of the entries, as `summarize_types` reads them. */
  function Names(es: seq<DirEntry>): (r: seq<string>)
    ensures |r| == |es| && forall i :: 0 <= i < |es| ==> r[i] == es[i].name
  {
    seq(|es|, i requires 0 <= i < |es| => es[i].name)
  }

  /** The file lines: none, one per file, or one summary line past the limit. */
  function FileSection(files: seq<DirEntry>, maxFiles: int): seq<TreeNode>
  {
    if files == [] then []
    else if |files| <= maxFiles then seq(|files|, i requires 0 <= i < |files| => Leaf(FileLabel(files[i])))
    else [Leaf(Summary.SummarizeTypes(Names(files)))]
  }

  // ---------------------------------------------------------------------------
  // What a walk produces.

  /**
   * The lines added below the walked directory, the visited identities after
   * the walk, and what the walk adds to the directory and file counters.
   */
  datatype Walk = Walk(nodes: seq<TreeNode>, seen: set<Ident>, dirs: nat, files: nat)

  /** Walk `a`, then walk `b` from where `a` left off. */
  function Then(a: Walk, b: Walk): Walk
  {
    Walk(a.nodes + b.nodes, b.seen, a.dirs + b.dirs, a.files + b.files)
  }

  /** Walks compose associatively. */
  lemma ThenAssoc(a: Walk, b: Walk, c: Walk)
    ensures Then(Then(a, b), c) == Then(a, Then(b, c))
  {
    AppendAssoc(a.nodes, b.nodes, c.nodes);
  }

  /** `build_tree` on the directory with identity `id`, given the identities visited so far. */
  function WalkDir(fs: FileSystem, cfg: Config, id: Option<Ident>, seen: set<Ident>): (w: Walk)
    ensures Mark(seen, id) <= w.seen
    ensures !Listable(fs, id) ==> w == Walk([Leaf(DeniedLabel)], Mark(seen, id), 0, 0)
    decreases Unvisited(fs, seen), if Listable(fs, id) then 2 else 0, 0
  {
    var seen1 := Mark(seen, id);
    match ListingOf(fs, id)
    case PermissionDenied => Walk([Leaf(DeniedLabel)], seen1, 0, 0)
    case Entries(es) =>
      var ds, files := DirsOf(es, cfg), FilesOf(es, cfg);
      UnvisitedShrinks(fs, seen, seen1);
      var sub := DirSection(fs, cfg, ds, seen1);
      Walk(sub.nodes + FileSection(files, cfg.maxFilesToList), sub.seen, |ds| + sub.dirs, |files| + sub.files)
  }

  /** The directory lines: none, one per subdirectory, or one count line past the limit. */
  function DirSection(fs: FileSystem, cfg: Config, ds: seq<DirEntry>, seen: set<Ident>): (w: Walk)
    ensures seen <= w.seen
    decreases Unvisited(fs, seen), 1, |ds| + 1
  {
    if ds == [] then Walk([], seen, 0, 0)
    else if |ds| <= cfg.maxDirsToList then WalkSubdirs(fs, cfg, ds, seen)
    else Walk([Leaf(DirCountLabel(|ds|))], seen, 0, 0)
  }

  /**
   * One subdirectory line. Its identity, when known and already visited, stops
   * the descent; otherwise it is marked visited and the directory is walked.
   */
  function VisitDir(fs: FileSystem, cfg: Config, d: DirEntry, seen: set<Ident>): (w: Walk)
    ensures seen <= w.seen
    ensures |w.nodes| == 1 && w.nodes[0].line == DirLabel(d)
    ensures d.ident.Some? && d.ident.value in seen ==> w == Walk([Leaf(DirLabel(d))], seen, 0, 0)
    decreases Unvisited(fs, seen), 1, 0
  {
    if d.ident.Some? && d.ident.value in seen then Walk([Leaf(DirLabel(d))], seen, 0, 0)
    else
      var seen1 := Mark(seen, d.ident);
      if Listable(fs, d.ident) then
        UnvisitedDrops(fs, seen, seen, d.ident.value);
        var sub := WalkDir(fs, cfg, d.ident, seen1);
        Walk([TreeNode(DirLabel(d), sub.nodes)], sub.seen, sub.dirs, sub.files)
      else
        UnvisitedShrinks(fs, seen, seen1);
        var sub := WalkDir(fs, cfg, d.ident, seen1);
        Walk([TreeNode(DirLabel(d), sub.nodes)], sub.seen, sub.dirs, sub.files)
  }

  /** The subdirectory lines, in order, each walk seeing the identities visited before it. */
  function WalkSubdirs(fs: FileSystem, cfg: Config, ds: seq<DirEntry>, seen: set<Ident>): (w: Walk)
    ensures seen <= w.seen
    decreases Unvisited(fs, seen), 1, |ds|
  {
    if ds == [] then Walk([], seen, 0, 0)
    else
      var v := VisitDir(fs, cfg, ds[0], seen);
      UnvisitedShrinks(fs, seen, v.seen);
      Then(v, WalkSubdirs(fs, cfg, ds[1..], v.seen))
  }

  /** The walk of a listable directory, in terms of its sorted dirs and files. */
  lemma WalkDirEntries(fs: FileSystem, cfg: Config, id: Option<Ident>, seen: set<Ident>,
                       ds: seq<DirEntry>, files: seq<DirEntry>)
    requires Listable(fs, id)
    requires ds == DirsOf(ListingOf(fs, id).entries, cfg) && files == FilesOf(ListingOf(fs, id).entries, cfg)
    ensures var sub := DirSection(fs, cfg, ds, Mark(seen, id));
            WalkDir(fs, cfg, id, seen)
              == Walk(sub.nodes + FileSection(files, cfg.maxFilesToList), sub.seen, |ds| + sub.dirs, |files| + sub.files)
  {
  }

  /** A subdirectory not visited before becomes a branch holding its walk. */
  lemma VisitDirUnfold(fs: FileSystem, cfg: Config, d: DirEntry, seen: set<Ident>)
    requires !(d.ident.Some? && d.ident.value in seen)
    ensures var sub := WalkDir(fs, cfg, d.ident, Mark(seen, d.ident));
            VisitDir(fs, cfg, d, seen) == Walk([TreeNode(DirLabel(d), sub.nodes)], sub.seen, sub.dirs, sub.files)
  {
  }

  /** Marking a listable directory not visited before lowers the count of unvisited ones. */
  lemma MarkBound(fs: FileSystem, seen: set<Ident>, id: Option<Ident>, bound: nat)
    requires Unvisited(fs, seen) <= bound && !(id.Some? && id.value in seen)
    ensures Unvisited(fs, Mark(seen, id)) <= bound
    ensures Listable(fs, id) ==> 0 < bound && Unvisited(fs, Mark(seen, id)) < bound
  {
    if Listable(fs, id) {
      UnvisitedDrops(fs, seen, seen, id.value);
    } else {
      UnvisitedShrinks(fs, seen, Mark(seen, id));
    }
  }

  /** Before the loop over the subdirectories nothing is done yet. */
  lemma WalkSubdirsStart(fs: FileSystem, cfg: Config, ds: seq<DirEntry>, seen: set<Ident>)
    ensures WalkSubdirs(fs, cfg, ds, seen) == Then(Walk([], seen, 0, 0), WalkSubdirs(fs, cfg, ds[0..], seen))
  {
    assert ds[0..] == ds;
    assert [] + WalkSubdirs(fs, cfg, ds, seen).nodes == WalkSubdirs(fs, cfg, ds, seen).nodes;
  }

  /** After the loop over the subdirectories all of the walk is done. */
  lemma WalkSubdirsDone(fs: FileSystem, cfg: Config, ds: seq<DirEntry>, seen0: set<Ident>, seen: set<Ident>, done: Walk)
    requires WalkSubdirs(fs, cfg, ds, seen0) == Then(done, WalkSubdirs(fs, cfg, ds[|ds|..], seen))
    ensures WalkSubdirs(fs, cfg, ds, seen0) == Walk(done.nodes, seen, done.dirs, done.files)
  {
    assert ds[|ds|..] == [];
    assert done.nodes + [] == done.nodes;
  }

  /** One step through the subdirectories, as the loop over them takes it. */
  lemma WalkSubdirsStep(fs: FileSystem, cfg: Config, ds: seq<DirEntry>, i: nat,
                        seen0: set<Ident>, seen: set<Ident>, done: Walk)
    requires i < |ds|
    requires WalkSubdirs(fs, cfg, ds, seen0) == Then(done, WalkSubdirs(fs, cfg, ds[i..], seen))
    ensures var v := VisitDir(fs, cfg, ds[i], seen);
            && WalkSubdirs(fs, cfg, ds, seen0) == Then(Then(done, v), WalkSubdirs(fs, cfg, ds[i + 1..], v.seen))
            && Unvisited(fs, v.seen) <= Unvisited(fs, seen)
  {
    var v := VisitDir(fs, cfg, ds[i], seen);
    assert ds[i..][0] == ds[i] && ds[i..][1..] == ds[i + 1..];
    ThenAssoc(done, v, WalkSubdirs(fs, cfg, ds[i + 1..], v.seen));
    UnvisitedShrinks(fs, seen, v.seen);
  }

  // ---------------------------------------------------------------------------
  // The mutable state of a walk.

  /** The shared counters, updated in place as directories are scanned. */
  class CrawlStats {
    var directories: nat
    var files: nat

    constructor ()
      ensures directories == 0 && files == 0
    {
      directories := 0;
      files := 0;
    }

    /** Adds one listing's subdirectories and files to the running totals. */
    method Count(dirs: nat, files: nat)
      modifies this
      ensures directories == old(directories) + dirs && this.files == old(this.files) + files
    {
      directories := directories + dirs;
      this.files := this.files + files;
    }
  }

  /** The shared set of visited directory identities. */
  class IdentitySet {
    var members: set<Ident>

    constructor ()
      ensures members == {}
    {
      members := {};
    }

    /** Records an identity when it is known; an identity that could not be read records nothing. */
    method AddKnown(id: Option<Ident>)
      modifies this
      ensures members == Mark(old(members), id)
    {
      if id.Some? {
        members := members + {id.value};
      }
    }
  }

  /** A node of the output tree whose children are appended one by one. */
  class Branch {
    const line: Label
    var children: seq<TreeNode>

    constructor (line: Label)
      ensures this.line == line && children == []
    {
      this.line := line;
      children := [];
    }

    method Add(node: TreeNode)
      modifies this
      ensures children == old(children) + [node]
    {
      children := children + [node];
    }
  }

  /**
   * The spinner text of `update_status`: the root label and the running
   * counts, each with the noun that agrees with it.
   */
  function StatusLine(rootLabel: string, dirs: nat, files: nat): Label
  {
    [Span(SummaryStyle, "Scanning " + rootLabel + "... (" + StatusCounts(dirs, files) + ")")]
  }

  function StatusCounts(dirs: nat, files: nat): string
  {
    CountPhrase(dirs, "directory", "directories") + ", " + CountPhrase(files, "file", "files")
  }

  /**
   * `build_tree` called without a `seen` set, as for the root of the
   * listing: the walk starts with no identity visited.
   */
  method BuildTreeFromRoot(fs: FileSystem, cfg: Config, root: Option<Ident>, tree: Branch, stats: CrawlStats)
    modifies tree, stats
    ensures var w := WalkDir(fs, cfg, root, {});
            && tree.children == old(tree.children) + w.nodes
            && stats.directories == old(stats.directories) + w.dirs
            && stats.files == old(stats.files) + w.files
  {
    var seen := new IdentitySet();
    BuildTree(fs, cfg, root, tree, stats, seen, Unvisited(fs, {}));
  }

  /**
   * `build_tree`: adds to `tree` the lines of the directory with identity
   * `id`, adds what it scans to `stats`, and records the identities it
   * visits in `seen`.
   */
  method BuildTree(fs: FileSystem, cfg: Config, id: Option<Ident>, tree: Branch,
                   stats: CrawlStats, seen: IdentitySet, ghost bound: nat)
    requires Unvisited(fs, seen.members) <= bound
    modifies tree, stats, seen
    ensures var w := WalkDir(fs, cfg, id, old(seen.members));
            && tree.children == old(tree.children) + w.nodes
            && seen.members == w.seen
            && stats.directories == old(stats.directories) + w.dirs
            && stats.files == old(stats.files) + w.files
    decreases bound, if Listable(fs, id) then 6 else 0
  {
    ghost var seen0 := seen.members;
    seen.AddKnown(id);
    var listing := ListingOf(fs, id);
    if listing.PermissionDenied? {
      tree.Add(Leaf(DeniedLabel));
    } else {
      UnvisitedShrinks(fs, seen0, seen.members);
      ListDir(fs, cfg, id, listing.entries, tree, stats, seen, bound, seen0);
    }
  }

  /** `build_tree` past a successful listing: count, then the directory lines, then the file lines. */
  method ListDir(fs: FileSystem, cfg: Config, id: Option<Ident>, es: seq<DirEntry>, tree: Branch,
                 stats: CrawlStats, seen: IdentitySet, ghost bound: nat, ghost seen0: set<Ident>)
    requires Listable(fs, id) && es == ListingOf(fs, id).entries
    requires seen.members == Mark(seen0, id) && Unvisited(fs, seen.members) <= bound
    modifies tree, stats, seen
    ensures var w := WalkDir(fs, cfg, id, seen0);
            && tree.children == old(tree.children) + w.nodes
            && seen.members == w.seen
            && stats.directories == old(stats.directories) + w.dirs
            && stats.files == old(stats.files) + w.files
    decreases bound, 5
  {
    var dirs, files := Scan(es, cfg);
    stats.Count(|dirs|, |files|);
    WalkDirEntries(fs, cfg, id, seen0, dirs, files);
    ghost var children1 := tree.children;
    ghost var sub := DirSection(fs, cfg, dirs, seen.members);
    AddDirs(fs, cfg, dirs, tree, stats, seen, bound);
    AddFiles(files, cfg.maxFilesToList, tree);
    AppendAssoc(children1, sub.nodes, FileSection(files, cfg.maxFilesToList));
  }

  /** The scan phase of `build_tree`: the visible subdirectories and files, each sorted by name. */
  method Scan(es: seq<DirEntry>, cfg: Config) returns (dirs: seq<DirEntry>, files: seq<DirEntry>)
    ensures dirs == DirsOf(es, cfg) && files == FilesOf(es, cfg)
  {
    var entries := Visible(es, cfg.showAll);
    dirs, files := Classify(entries);
    dirs := SortByName(dirs);
    files := SortByName(files);
  }

  /** The directory phase of `build_tree`: each subdirectory walked in turn, or one count line. */
  method AddDirs(fs: FileSystem, cfg: Config, dirs: seq<DirEntry>, tree: Branch,
                 stats: CrawlStats, seen: IdentitySet, ghost bound: nat)
    requires Unvisited(fs, seen.members) <= bound
    modifies tree, stats, seen
    ensures var w := DirSection(fs, cfg, dirs, old(seen.members));
            && tree.children == old(tree.children) + w.nodes
            && seen.members == w.seen
            && stats.directories == old(stats.directories) + w.dirs
            && stats.files == old(stats.files) + w.files
    decreases bound, 4
  {
    if dirs == [] {
    } else if |dirs| <= cfg.maxDirsToList {
      AddSubdirs(fs, cfg, dirs, tree, stats, seen, bound);
    } else {
      tree.Add(Leaf(DirCountLabel(|dirs|)));
    }
  }

  /** Each subdirectory in order, every walk seeing the identities visited before it. */
  method AddSubdirs(fs: FileSystem, cfg: Config, dirs: seq<DirEntry>, tree: Branch,
                    stats: CrawlStats, seen: IdentitySet, ghost bound: nat)
    requires Unvisited(fs, seen.members) <= bound
    modifies tree, stats, seen
    ensures var w := WalkSubdirs(fs, cfg, dirs, old(seen.members));
            && tree.children == old(tree.children) + w.nodes
            && seen.members == w.seen
            && stats.directories == old(stats.directories) + w.dirs
            && stats.files == old(stats.files) + w.files
    decreases bound, 3
  {
    ghost var seen0, children0, d0, f0 := seen.members, tree.children, stats.directories, stats.files;
    ghost var done := Walk([], seen0, 0, 0);
    WalkSubdirsStart(fs, cfg, dirs, seen0);
    for i := 0 to |dirs|
      invariant Unvisited(fs, seen.members) <= bound
      invariant WalkSubdirs(fs, cfg, dirs, seen0) == Then(done, WalkSubdirs(fs, cfg, dirs[i..], seen.members))
      invariant tree.children == children0 + done.nodes
      invariant stats.directories == d0 + done.dirs && stats.files == f0 + done.files
    {
      ghost var v := VisitDir(fs, cfg, dirs[i], seen.members);
      WalkSubdirsStep(fs, cfg, dirs, i, seen0, seen.members, done);
      AddSubdir(fs, cfg, dirs[i], tree, stats, seen, bound);
      AppendAssoc(children0, done.nodes, v.nodes);
      done := Then(done, v);
    }
    WalkSubdirsDone(fs, cfg, dirs, seen0, seen.members, done);
  }

  /**
   * One subdirectory: a bare line when its identity was already visited,
   * otherwise a branch filled by walking it.
   */
  method AddSubdir(fs: FileSystem, cfg: Config, d: DirEntry, tree: Branch,
                   stats: CrawlStats, seen: IdentitySet, ghost bound: nat)
    requires Unvisited(fs, seen.members) <= bound
    modifies tree, stats, seen
    ensures var w := VisitDir(fs, cfg, d, old(seen.members));
            && tree.children == old(tree.children) + w.nodes
            && seen.members == w.seen
            && stats.directories == old(stats.directories) + w.dirs
            && stats.files == old(stats.files) + w.files
    decreases bound, 2
  {
    if d.ident.Some? && d.ident.value in seen.members {
      tree.Add(Leaf(DirLabel(d)));
    } else {
      AddBranch(fs, cfg, d, tree, stats, seen, bound);
    }
  }

  /** A subdirectory not visited before: marked visited, then walked into a new branch. */
  method AddBranch(fs: FileSystem, cfg: Config, d: DirEntry, tree: Branch,
                   stats: CrawlStats, seen: IdentitySet, ghost bound: nat)
    requires Unvisited(fs, seen.members) <= bound
    requires !(d.ident.Some? && d.ident.value in seen.members)
    modifies tree, stats, seen
    ensures var w := VisitDir(fs, cfg, d, old(seen.members));
            && tree.children == old(tree.children) + w.nodes
            && seen.members == w.seen
            && stats.directories == old(stats.directories) + w.dirs
            && stats.files == old(stats.files) + w.files
    decreases bound, 1
  {
    var branch := new Branch(DirLabel(d));
    ghost var prev := seen.members;
    VisitDirUnfold(fs, cfg, d, prev);
    MarkBound(fs, prev, d.ident, bound);
    seen.AddKnown(d.ident);
    BuildTree(fs, cfg, d.ident, branch, stats, seen, if Listable(fs, d.ident) then bound - 1 else bound);
    assert branch.children == WalkDir(fs, cfg, d.ident, Mark(prev, d.ident)).nodes;
    tree.Add(TreeNode(branch.line, branch.children));
  }

  /** The file phase of `build_tree`: one line per file, or one summary line. */
  method AddFiles(files: seq<DirEntry>, maxFiles: int, tree: Branch)
    modifies tree
    ensures tree.children == old(tree.children) + FileSection(files, maxFiles)
  {
    if files == [] {
      return;
    }
    if |files| > maxFiles {
      tree.Add(Leaf(Summary.SummarizeTypes(Names(files))));
      return;
    }
    ghost var before := tree.children;
    var i := 0;
    while i < |files|
      invariant 0 <= i <= |files|
      invariant tree.children == before + FileSection(files, maxFiles)[..i]
    {
      tree.Add(Leaf(FileLabel(files[i])));
      i := i + 1;
    }
  }
}
