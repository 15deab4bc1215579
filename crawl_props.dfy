/**
 * What the walk of `build_tree` guarantees about the tree it builds: how the
 * lines of one directory are laid out, that dotfiles stay out unless asked
 * for, and that a directory reached twice is expanded only once.
 */
module CrawlProps {
  import opened Sorting
  import opened Labels
  import opened Crawl
  import Summary

  // ---------------------------------------------------------------------------
  // The lines of one directory.

  /** The subdirectory lines: one per subdirectory, in order, each labelled with its name. */
  lemma {:induction false} WalkSubdirsLines(fs: FileSystem, cfg: Config, ds: seq<DirEntry>, seen: set<Ident>)
    ensures var w := WalkSubdirs(fs, cfg, ds, seen);
            |w.nodes| == |ds| && forall k :: 0 <= k < |ds| ==> w.nodes[k].line == DirLabel(ds[k])
    decreases |ds|
  {
    if ds != [] {
      var v := VisitDir(fs, cfg, ds[0], seen);
      WalkSubdirsLines(fs, cfg, ds[1..], v.seen);
    }
  }

  /**
   * A listable directory: its subdirectory lines (or a single count line past
   * `max_dirs_to_list`, and then nothing below is visited), followed by its
   * file lines. Every subdirectory and file is counted, listed or not.
   */
  lemma WalkDirLayout(fs: FileSystem, cfg: Config, id: Option<Ident>, seen: set<Ident>)
    requires Listable(fs, id)
    ensures var es := ListingOf(fs, id).entries;
            var ds, files, w := DirsOf(es, cfg), FilesOf(es, cfg), WalkDir(fs, cfg, id, seen);
            var fl := FileSection(files, cfg.maxFilesToList);
            && w.dirs >= |ds| && w.files >= |files|
            && (ds != [] && |ds| > cfg.maxDirsToList ==>
                  w == Walk([Leaf(DirCountLabel(|ds|))] + fl, Mark(seen, id), |ds|, |files|))
            && (ds == [] || |ds| <= cfg.maxDirsToList ==>
                  && |w.nodes| == |ds| + |fl|
                  && (forall k :: 0 <= k < |ds| ==> w.nodes[k].line == DirLabel(ds[k]))
                  && w.nodes[|ds|..] == fl)
  {
    var es := ListingOf(fs, id).entries;
    var ds, files := DirsOf(es, cfg), FilesOf(es, cfg);
    WalkDirEntries(fs, cfg, id, seen, ds, files);
    var fl := FileSection(files, cfg.maxFilesToList);
    var sub := DirSection(fs, cfg, ds, Mark(seen, id));
    if ds == [] {
      assert sub.nodes == [];
    } else if |ds| <= cfg.maxDirsToList {
      WalkSubdirsLines(fs, cfg, ds, Mark(seen, id));
      assert (sub.nodes + fl)[|ds|..] == fl;
    }
  }

  /** A listable directory with no files and few enough subdirectories: just their walk. */
  lemma WalkDirOnlySubdirs(fs: FileSystem, cfg: Config, id: Option<Ident>, seen: set<Ident>,
                           ds: seq<DirEntry>, marked: set<Ident>)
    requires Listable(fs, id) && marked == Mark(seen, id)
    requires ds == DirsOf(ListingOf(fs, id).entries, cfg) && |ds| <= cfg.maxDirsToList
    requires FilesOf(ListingOf(fs, id).entries, cfg) == []
    ensures var sub := WalkSubdirs(fs, cfg, ds, marked);
            WalkDir(fs, cfg, id, seen) == Walk(sub.nodes, sub.seen, |ds| + sub.dirs, sub.files)
  {
    WalkDirEntries(fs, cfg, id, seen, ds, []);
    var sub := DirSection(fs, cfg, ds, marked);
    assert sub.nodes + [] == sub.nodes;
  }

  /** A listable directory without subdirectories: just its file lines. */
  lemma WalkDirOnlyFiles(fs: FileSystem, cfg: Config, id: Option<Ident>, seen: set<Ident>,
                         files: seq<DirEntry>, marked: set<Ident>)
    requires Listable(fs, id) && marked == Mark(seen, id)
    requires DirsOf(ListingOf(fs, id).entries, cfg) == []
    requires files == FilesOf(ListingOf(fs, id).entries, cfg)
    ensures WalkDir(fs, cfg, id, seen) == Walk(FileSection(files, cfg.maxFilesToList), marked, 0, |files|)
  {
    var w, fl := WalkDir(fs, cfg, id, seen), FileSection(files, cfg.maxFilesToList);
    WalkDirEntries(fs, cfg, id, seen, [], files);
    var sub := DirSection(fs, cfg, [], marked);
    assert sub == Walk([], marked, 0, 0);
    assert w.nodes == [] + fl == fl;
    assert w.seen == marked && w.dirs == 0 && w.files == |files|;
  }

  /** The file lines: each a childless line naming the file, in order, or one summary line. */
  lemma FileSectionLines(files: seq<DirEntry>, maxFiles: int)
    ensures var fl := FileSection(files, maxFiles);
            && (forall i :: 0 <= i < |fl| ==> fl[i].children == [])
            && (files != [] && |files| > maxFiles ==> fl == [Leaf(Summary.SummarizeTypes(Names(files)))])
            && (|files| <= maxFiles ==>
                  |fl| == |files| && forall i :: 0 <= i < |files| ==> PlainText(fl[i].line) == PlainText(FileLabel(files[i])))
  {
  }

  // ---------------------------------------------------------------------------
  // A directory reached twice.

  /** After a directory is visited, its identity is among the visited ones. */
  lemma VisitDirMarks(fs: FileSystem, cfg: Config, d: DirEntry, seen: set<Ident>)
    ensures Mark(seen, d.ident) <= VisitDir(fs, cfg, d, seen).seen
  {
    if !(d.ident.Some? && d.ident.value in seen) {
      VisitDirUnfold(fs, cfg, d, seen);
    }
  }

  /** A subdirectory whose identity was already visited is a bare line. */
  lemma {:induction false} VisitedIsBare(fs: FileSystem, cfg: Config, ds: seq<DirEntry>, seen: set<Ident>, j: nat)
    requires j < |ds| && ds[j].ident.Some? && ds[j].ident.value in seen
    ensures j < |WalkSubdirs(fs, cfg, ds, seen).nodes|
    ensures WalkSubdirs(fs, cfg, ds, seen).nodes[j] == Leaf(DirLabel(ds[j]))
    decreases j
  {
    var v := VisitDir(fs, cfg, ds[0], seen);
    WalkSubdirsLines(fs, cfg, ds[1..], v.seen);
    if j > 0 {
      VisitedIsBare(fs, cfg, ds[1..], v.seen, j - 1);
    }
  }

  /**
   * Two subdirectories with the same identity (a directory and a symlink to
   * it): only the first in name order is expanded; the later one is a bare line.
   */
  lemma {:induction false} SameIdentityOnce(fs: FileSystem, cfg: Config, ds: seq<DirEntry>, seen: set<Ident>, i: nat, j: nat)
    requires i < j < |ds| && ds[i].ident.Some? && ds[j].ident == ds[i].ident
    ensures j < |WalkSubdirs(fs, cfg, ds, seen).nodes|
    ensures WalkSubdirs(fs, cfg, ds, seen).nodes[j] == Leaf(DirLabel(ds[j]))
    decreases i
  {
    var v := VisitDir(fs, cfg, ds[0], seen);
    WalkSubdirsLines(fs, cfg, ds[1..], v.seen);
    if i == 0 {
      VisitDirMarks(fs, cfg, ds[0], seen);
      VisitedIsBare(fs, cfg, ds[1..], v.seen, j - 1);
    } else {
      SameIdentityOnce(fs, cfg, ds[1..], v.seen, i - 1, j - 1);
    }
  }

  // ---------------------------------------------------------------------------
  // Dotfiles.

  /** No entry name on the line starts with a dot. */
  predicate NoDotName(line: Label)
  {
    forall j :: 0 <= j < |line| && (line[j].style == Dir || line[j].style == File) ==> !Hidden(line[j].text)
  }

  /** No line of the tree, at any depth, names a dotfile. */
  predicate NoDotLines(nodes: seq<TreeNode>)
    decreases nodes
  {
    forall i :: 0 <= i < |nodes| ==> NoDotName(nodes[i].line) && NoDotLines(nodes[i].children)
  }

  predicate AllNotHidden(es: seq<DirEntry>)
  {
    forall i :: 0 <= i < |es| ==> !Hidden(es[i].name)
  }

  lemma NoDotLinesAppend(a: seq<TreeNode>, b: seq<TreeNode>)
    requires NoDotLines(a) && NoDotLines(b)
    ensures NoDotLines(a + b)
  {
    forall i | 0 <= i < |a + b| ensures NoDotName((a + b)[i].line) && NoDotLines((a + b)[i].children) {
      if i < |a| {
        assert (a + b)[i] == a[i];
      } else {
        assert (a + b)[i] == b[i - |a|];
      }
    }
  }

  /** An entry label names only the entry; its link suffix is plain or an error mark. */
  lemma EntryLabelsNoDot(e: DirEntry)
    requires !Hidden(e.name)
    ensures NoDotName(DirLabel(e)) && NoDotName(FileLabel(e))
  {
  }

  /** A summary line of names that are not dotfiles names no dotfile. */
  lemma SummaryNoDot(names: seq<string>)
    requires names != [] && forall k :: 0 <= k < |names| ==> !Hidden(names[k])
    ensures NoDotName(Summary.SummarizeTypes(names))
  {
    var r := Summary.SummarizeTypes(names);
    Summary.FileSpansNameInputs(names);
    forall j | 0 <= j < |r| && (r[j].style == Dir || r[j].style == File) ensures !Hidden(r[j].text) {
      Summary.SummarySpans(names, j);
    }
  }

  /** Childless lines that name no dotfile. */
  lemma LeavesNoDot(nodes: seq<TreeNode>)
    requires forall i :: 0 <= i < |nodes| ==> nodes[i].children == [] && NoDotName(nodes[i].line)
    ensures NoDotLines(nodes)
  {
    forall i | 0 <= i < |nodes| ensures NoDotLines(nodes[i].children) {
      assert nodes[i].children == [];
    }
  }

  lemma LeafNoDot(line: Label)
    requires NoDotName(line)
    ensures NoDotLines([Leaf(line)])
  {
    LeavesNoDot([Leaf(line)]);
  }

  /** With every file name visible, neither the file lines nor their summary names a dotfile. */
  lemma FileSectionNoDot(files: seq<DirEntry>, maxFiles: int)
    requires AllNotHidden(files)
    ensures NoDotLines(FileSection(files, maxFiles))
  {
    if files != [] && |files| > maxFiles {
      SummaryNoDot(Names(files));
      FileSummaryNoDot(files, maxFiles);
    } else if files != [] {
      FileLinesNoDot(files, maxFiles);
    }
  }

  lemma FileSummaryNoDot(files: seq<DirEntry>, maxFiles: int)
    requires files != [] && |files| > maxFiles && NoDotName(Summary.SummarizeTypes(Names(files)))
    ensures NoDotLines(FileSection(files, maxFiles))
  {
    LeafNoDot(Summary.SummarizeTypes(Names(files)));
  }

  lemma FileLinesNoDot(files: seq<DirEntry>, maxFiles: int)
    requires AllNotHidden(files) && |files| <= maxFiles
    ensures NoDotLines(FileSection(files, maxFiles))
  {
    var fl := FileSection(files, maxFiles);
    forall i | 0 <= i < |fl| ensures fl[i].children == [] && NoDotName(fl[i].line) {
      EntryLabelsNoDot(files[i]);
    }
    LeavesNoDot(fl);
  }

  /** Without `show_all`, the visible entries of a listing are never dotfiles. */
  lemma SectionsNoDot(es: seq<DirEntry>, cfg: Config)
    requires !cfg.showAll
    ensures AllNotHidden(DirsOf(es, cfg)) && AllNotHidden(FilesOf(es, cfg))
  {
    SectionsOf(es, cfg);
    var ds, files := DirsOf(es, cfg), FilesOf(es, cfg);
    assert forall i :: 0 <= i < |ds| ==> ds[i] in ds;
    assert forall i :: 0 <= i < |files| ==> files[i] in files;
  }

  /** Without `show_all`, no line of the walk of a directory names a dotfile. */
  lemma {:induction false} WalkDirNoDot(fs: FileSystem, cfg: Config, id: Option<Ident>, seen: set<Ident>)
    requires !cfg.showAll
    ensures NoDotLines(WalkDir(fs, cfg, id, seen).nodes)
    decreases Unvisited(fs, seen), if Listable(fs, id) then 2 else 0, 0
  {
    if Listable(fs, id) {
      var es := ListingOf(fs, id).entries;
      var ds, files := DirsOf(es, cfg), FilesOf(es, cfg);
      WalkDirEntries(fs, cfg, id, seen, ds, files);
      SectionsNoDot(es, cfg);
      UnvisitedShrinks(fs, seen, Mark(seen, id));
      DirSectionNoDot(fs, cfg, ds, Mark(seen, id));
      FileSectionNoDot(files, cfg.maxFilesToList);
      NoDotLinesAppend(DirSection(fs, cfg, ds, Mark(seen, id)).nodes, FileSection(files, cfg.maxFilesToList));
    } else {
      var w := WalkDir(fs, cfg, id, seen);
      assert NoDotName(w.nodes[0].line);
    }
  }

  lemma {:induction false} DirSectionNoDot(fs: FileSystem, cfg: Config, ds: seq<DirEntry>, seen: set<Ident>)
    requires !cfg.showAll && AllNotHidden(ds)
    ensures NoDotLines(DirSection(fs, cfg, ds, seen).nodes)
    decreases Unvisited(fs, seen), 1, |ds| + 1
  {
    if ds != [] && |ds| <= cfg.maxDirsToList {
      WalkSubdirsNoDot(fs, cfg, ds, seen);
    } else if ds != [] {
      var w := DirSection(fs, cfg, ds, seen);
      assert NoDotName(w.nodes[0].line);
    }
  }

  lemma {:induction false} VisitDirNoDot(fs: FileSystem, cfg: Config, d: DirEntry, seen: set<Ident>)
    requires !cfg.showAll && !Hidden(d.name)
    ensures NoDotLines(VisitDir(fs, cfg, d, seen).nodes)
    decreases Unvisited(fs, seen), 1, 0
  {
    EntryLabelsNoDot(d);
    if !(d.ident.Some? && d.ident.value in seen) {
      if Listable(fs, d.ident) {
        UnvisitedDrops(fs, seen, seen, d.ident.value);
      } else {
        UnvisitedShrinks(fs, seen, Mark(seen, d.ident));
      }
      VisitDirUnfold(fs, cfg, d, seen);
      WalkDirNoDot(fs, cfg, d.ident, Mark(seen, d.ident));
    }
  }

  lemma {:induction false} WalkSubdirsNoDot(fs: FileSystem, cfg: Config, ds: seq<DirEntry>, seen: set<Ident>)
    requires !cfg.showAll && AllNotHidden(ds)
    ensures NoDotLines(WalkSubdirs(fs, cfg, ds, seen).nodes)
    decreases Unvisited(fs, seen), 1, |ds|
  {
    if ds != [] {
      var v := VisitDir(fs, cfg, ds[0], seen);
      UnvisitedShrinks(fs, seen, v.seen);
      VisitDirNoDot(fs, cfg, ds[0], seen);
      WalkSubdirsNoDot(fs, cfg, ds[1..], v.seen);
      NoDotLinesAppend(v.nodes, WalkSubdirs(fs, cfg, ds[1..], v.seen).nodes);
    }
  }

  // ---------------------------------------------------------------------------
  // The spinner text.

  /** Equal strings with the same text around them are equal. */
  lemma SameAround(a: string, x: string, y: string, z: string)
    requires a + x + z == a + y + z
    ensures x == y
  {
    assert |x| == |y|;
    assert x == (a + x + z)[|a|..|a| + |x|];
    assert y == (a + y + z)[|a|..|a| + |y|];
  }

  lemma SamePrefix(a: string, x: string, y: string)
    requires a + x == a + y
    ensures x == y
  {
    assert x == (a + x)[|a|..];
  }

  lemma Regroup(w: string, x: string, y: string, z: string)
    ensures ((w + x) + y) + z == w + ((x + y) + z)
  {
  }

  /** The counts text determines both counts. */
  lemma StatusCountsInjective(d1: nat, f1: nat, d2: nat, f2: nat)
    requires StatusCounts(d1, f1) == StatusCounts(d2, f2)
    ensures d1 == d2 && f1 == f2
  {
    var n1, n2 := CountNoun(d1, "directory", "directories"), CountNoun(d2, "directory", "directories");
    var c1, c2 := CountPhrase(f1, "file", "files"), CountPhrase(f2, "file", "files");
    Regroup(Decimal(d1) + " ", n1, ", ", c1);
    Regroup(Decimal(d2) + " ", n2, ", ", c2);
    SplitAtSpace(Decimal(d1), n1 + ", " + c1, Decimal(d2), n2 + ", " + c2);
    DecimalInjective(d1, d2);
    SamePrefix(n1 + ", ", c1, c2);
    CountPhraseInjective(f1, f2, "file", "files");
  }

  /** The spinner text determines the counts it reports. */
  lemma StatusLineInjective(root: string, d1: nat, f1: nat, d2: nat, f2: nat)
    requires StatusLine(root, d1, f1) == StatusLine(root, d2, f2)
    ensures d1 == d2 && f1 == f2
  {
    SameAround("Scanning " + root + "... (", StatusCounts(d1, f1), StatusCounts(d2, f2), ")");
    StatusCountsInjective(d1, f1, d2, f2);
  }

  lemma ZeroPhrases()
    ensures CountPhrase(0, "directory", "directories") == "0 directories"
    ensures CountPhrase(0, "file", "files") == "0 files"
  {
    assert Decimal(0) == "0";
  }

  lemma ZeroCounts()
    ensures StatusCounts(0, 0) == "0 directories, 0 files"
  {
    ZeroPhrases();
  }

  /** Before anything is counted the text reads "(0 directories, 0 files)", as the spinner starts. */
  lemma InitialStatus(root: string)
    ensures StatusLine(root, 0, 0) == [Span(SummaryStyle, "Scanning " + root + "... (0 directories, 0 files)")]
  {
    var counts := "0 directories, 0 files";
    ZeroCounts();
    Regroup("Scanning " + root, "... (", counts, ")");
    assert "... (" + counts + ")" == "... (0 directories, 0 files)";
  }
}
