/**
 * The walk on small directory trees: a dotfile with and without `show_all`,
 * a directory listing too many subdirectories, an unreadable directory, and a
 * directory holding a symlink to a sibling directory.
 */
module CrawlExamples {
  import opened Sorting
  import opened Labels
  import opened Crawl
  import opened CrawlProps

  const Root: Ident := Ident(1, 1)

  // ---------------------------------------------------------------------------
  // A directory holding only `.hidden.txt`.

  const HiddenTxt: DirEntry := DirEntry(".hidden.txt", No, Yes, false, None, None)

  function HiddenOnly(): FileSystem
  {
    map[Root := Entries([HiddenTxt])]
  }

  /** Without `show_all` the directory looks empty. */
  lemma HiddenSkipped()
    ensures WalkDir(HiddenOnly(), Config(5, 5, false), Some(Root), {}) == Walk([], {Root}, 0, 0)
  {
    var es := [HiddenTxt];
    assert Filter(es, NotHidden) == [] by {
      assert es[..0] == [];
    }
  }

  lemma HiddenListing()
    ensures Listable(HiddenOnly(), Some(Root))
    ensures DirsOf(ListingOf(HiddenOnly(), Some(Root)).entries, Config(5, 5, true)) == []
    ensures FilesOf(ListingOf(HiddenOnly(), Some(Root)).entries, Config(5, 5, true)) == [HiddenTxt]
  {
    var es := [HiddenTxt];
    FilterNone(es, IsDirEntry);
    FilterAll(es, IsFileEntry);
  }

  /** With `show_all` the dotfile is listed. */
  lemma HiddenShown()
    ensures WalkDir(HiddenOnly(), Config(5, 5, true), Some(Root), {}) == Walk([Leaf(FileLabel(HiddenTxt))], {Root}, 0, 1)
  {
    HiddenListing();
    assert Mark({}, Some(Root)) == {Root};
    WalkDirOnlyFiles(HiddenOnly(), Config(5, 5, true), Some(Root), {}, [HiddenTxt], {Root});
    assert FileSection([HiddenTxt], 5) == [Leaf(FileLabel(HiddenTxt))];
  }

  // ---------------------------------------------------------------------------
  // Three subdirectories with at most two to list.

  const Alpha: DirEntry := DirEntry("alpha", Yes, No, false, None, Some(Ident(2, 1)))
  const Beta: DirEntry := DirEntry("beta", Yes, No, false, None, Some(Ident(3, 1)))
  const Gamma: DirEntry := DirEntry("gamma", Yes, No, false, None, Some(Ident(4, 1)))

  lemma ThreeDirsSections()
    ensures |DirsOf([Alpha, Beta, Gamma], Config(5, 2, false))| == 3
    ensures FilesOf([Alpha, Beta, Gamma], Config(5, 2, false)) == []
  {
    var es := [Alpha, Beta, Gamma];
    FilterAll(es, NotHidden);
    FilterAll(es, IsDirEntry);
    FilterNone(es, IsFileEntry);
  }

  /**
   * The only line is a count: whatever the three subdirectories hold, none of
   * them is entered, yet all three are counted.
   */
  lemma ThreeDirsCounted(fs: FileSystem)
    requires Root in fs && fs[Root] == Entries([Alpha, Beta, Gamma])
    ensures WalkDir(fs, Config(5, 2, false), Some(Root), {}) == Walk([Leaf(DirCountLabel(3))], {Root}, 3, 0)
  {
    var es, cfg := [Alpha, Beta, Gamma], Config(5, 2, false);
    ThreeDirsSections();
    var ds := DirsOf(es, cfg);
    WalkDirEntries(fs, cfg, Some(Root), {}, ds, []);
    assert Mark({}, Some(Root)) == {Root};
    assert DirSection(fs, cfg, ds, {Root}) == Walk([Leaf(DirCountLabel(3))], {Root}, 0, 0);
    assert FileSection([], 5) == [];
  }

  /** The count line reads "3 directories". */
  lemma ThreeDirsText()
    ensures PlainText(DirCountLabel(3)) == "3 directories"
  {
    assert Decimal(3) == "3";
    assert DirCountLabel(3)[..0] == [];
  }

  // ---------------------------------------------------------------------------
  // A directory that cannot be listed.

  /** The only line is "permission denied" and nothing is counted. */
  lemma DeniedExample(cfg: Config)
    ensures WalkDir(map[Root := PermissionDenied], cfg, Some(Root), {}) == Walk([Leaf(DeniedLabel)], {Root}, 0, 0)
    ensures PlainText(DeniedLabel) == "permission denied"
  {
    assert DeniedLabel[..0] == [];
  }

  // ---------------------------------------------------------------------------
  // A directory `real` holding `inner.txt`, and a symlink `link` to it.

  const Shared: Ident := Ident(5, 1)
  const Real: DirEntry := DirEntry("real", Yes, No, false, None, Some(Shared))
  const Link: DirEntry := DirEntry("link", Yes, No, true, Some("/t/real"), Some(Shared))
  const Inner: DirEntry := DirEntry("inner.txt", No, Yes, false, None, None)

  /** The root lists `real` and `link`; `real` lists `inner.txt`. */
  predicate LinkedDirs(fs: FileSystem)
  {
    Root in fs && fs[Root] == Entries([Real, Link]) && Shared in fs && fs[Shared] == Entries([Inner])
  }

  const Defaults: Config := Config(5, 5, false)

  /** Two entries out of name order are swapped by the sort. */
  lemma SortTwo(a: DirEntry, b: DirEntry)
    requires !NameLe(a, b)
    ensures SortByName([a, b]) == [b, a]
  {
    var r := SortByName([a, b]);
    assert |r| == |multiset(r)| == 2;
    assert r[0] in multiset(r) && r[1] in multiset(r);
    assert multiset(r) == multiset{r[0], r[1]} by {
      assert r == [r[0], r[1]];
    }
    NameLeTotal();
  }

  lemma LinkSortsFirst()
    ensures DirsOf([Real, Link], Defaults) == [Link, Real]
    ensures FilesOf([Real, Link], Defaults) == []
  {
    var es := [Real, Link];
    FilterAll(es, NotHidden);
    FilterAll(es, IsDirEntry);
    FilterNone(es, IsFileEntry);
    assert !StrLe("real", "link");
    SortTwo(Real, Link);
  }

  lemma InnerWalk(fs: FileSystem, seen: set<Ident>)
    requires LinkedDirs(fs) && Shared in seen
    ensures WalkDir(fs, Defaults, Some(Shared), seen) == Walk([Leaf(FileLabel(Inner))], seen, 0, 1)
  {
    var es := [Inner];
    FilterAll(es, NotHidden);
    FilterNone(es, IsDirEntry);
    FilterAll(es, IsFileEntry);
    var files := FilesOf(es, Defaults);
    assert files == [Inner];
    WalkDirEntries(fs, Defaults, Some(Shared), seen, [], files);
    assert Mark(seen, Some(Shared)) == seen;
    assert FileSection(files, 5) == [Leaf(FileLabel(Inner))];
  }

  /** `link` is reached first: its target was not visited, so it is expanded. */
  lemma LinkVisit(fs: FileSystem)
    requires LinkedDirs(fs)
    ensures VisitDir(fs, Defaults, Link, {Root})
            == Walk([TreeNode(DirLabel(Link), [Leaf(FileLabel(Inner))])], {Root, Shared}, 0, 1)
  {
    VisitDirUnfold(fs, Defaults, Link, {Root});
    assert Mark({Root}, Some(Shared)) == {Root, Shared};
    InnerWalk(fs, {Root, Shared});
  }

  /** `real` comes second: the same directory was just visited, so it is a bare line. */
  lemma RealVisit(fs: FileSystem)
    requires LinkedDirs(fs)
    ensures WalkSubdirs(fs, Defaults, [Real], {Root, Shared}) == Walk([Leaf(DirLabel(Real))], {Root, Shared}, 0, 0)
  {
    assert [Real][1..] == [];
  }

  /** The two subdirectory lines of the root. */
  lemma RootSubdirs(fs: FileSystem)
    requires LinkedDirs(fs)
    ensures WalkSubdirs(fs, Defaults, [Link, Real], {Root})
            == Walk([TreeNode(DirLabel(Link), [Leaf(FileLabel(Inner))]), Leaf(DirLabel(Real))], {Root, Shared}, 0, 1)
  {
    var ds := [Link, Real];
    var v, rest := VisitDir(fs, Defaults, Link, {Root}), WalkSubdirs(fs, Defaults, [Real], {Root, Shared});
    LinkVisit(fs);
    RealVisit(fs);
    assert ds[0] == Link && ds[1..] == [Real];
    assert WalkSubdirs(fs, Defaults, ds, {Root}) == Then(v, rest);
    assert v.nodes + rest.nodes == [TreeNode(DirLabel(Link), [Leaf(FileLabel(Inner))]), Leaf(DirLabel(Real))];
  }

  /** The root lists `link` then `real` as its directories, and no files. */
  lemma RootListing(fs: FileSystem)
    requires LinkedDirs(fs)
    ensures Listable(fs, Some(Root))
    ensures DirsOf(ListingOf(fs, Some(Root)).entries, Defaults) == [Link, Real]
    ensures FilesOf(ListingOf(fs, Some(Root)).entries, Defaults) == []
  {
    LinkSortsFirst();
  }

  /**
   * `link` comes first by name, so it is the one expanded; `real`, the same
   * directory, is then a bare line. Both are counted, and `inner.txt` once.
   */
  lemma SymlinkFollowedOnce(fs: FileSystem)
    requires LinkedDirs(fs)
    ensures WalkDir(fs, Defaults, Some(Root), {})
            == Walk([TreeNode(DirLabel(Link), [Leaf(FileLabel(Inner))]), Leaf(DirLabel(Real))], {Root, Shared}, 2, 1)
  {
    RootListing(fs);
    assert Mark({}, Some(Root)) == {Root};
    WalkDirOnlySubdirs(fs, Defaults, Some(Root), {}, [Link, Real], {Root});
    RootSubdirs(fs);
  }

  /** The plain text of the expanded link's line shows its target. */
  lemma LinkLineText()
    ensures PlainText(DirLabel(Link)) == "link -> /t/real"
  {
    EntryLabelText(Link);
  }

  // ---------------------------------------------------------------------------
  // A file `real.txt` and a symlink `link.txt` to it.

  const RealTxt: DirEntry := DirEntry("real.txt", No, Yes, false, None, None)
  const LinkTxt: DirEntry := DirEntry("link.txt", No, No, true, Some("/t/real.txt"), None)

  lemma LinkedFilesSorted()
    ensures DirsOf([RealTxt, LinkTxt], Defaults) == []
    ensures FilesOf([RealTxt, LinkTxt], Defaults) == [LinkTxt, RealTxt]
  {
    var es := [RealTxt, LinkTxt];
    FilterAll(es, NotHidden);
    FilterNone(es, IsDirEntry);
    FilterAll(es, IsFileEntry);
    assert !StrLe("real.txt", "link.txt");
    SortTwo(RealTxt, LinkTxt);
  }

  lemma LinkedFilesListing(fs: FileSystem)
    requires Root in fs && fs[Root] == Entries([RealTxt, LinkTxt])
    ensures Listable(fs, Some(Root))
    ensures DirsOf(ListingOf(fs, Some(Root)).entries, Defaults) == []
    ensures FilesOf(ListingOf(fs, Some(Root)).entries, Defaults) == [LinkTxt, RealTxt]
  {
    LinkedFilesSorted();
  }

  lemma TwoFileLines(a: DirEntry, b: DirEntry, maxFiles: int)
    requires 2 <= maxFiles
    ensures FileSection([a, b], maxFiles) == [Leaf(FileLabel(a)), Leaf(FileLabel(b))]
  {
  }

  /** A directory holding just two files, both within the limit, lists them in order. */
  lemma TwoFilesWalk(fs: FileSystem, cfg: Config, id: Option<Ident>, seen: set<Ident>, a: DirEntry, b: DirEntry)
    requires Listable(fs, id) && 2 <= cfg.maxFilesToList
    requires DirsOf(ListingOf(fs, id).entries, cfg) == [] && FilesOf(ListingOf(fs, id).entries, cfg) == [a, b]
    ensures WalkDir(fs, cfg, id, seen) == Walk([Leaf(FileLabel(a)), Leaf(FileLabel(b))], Mark(seen, id), 0, 2)
  {
    WalkDirOnlyFiles(fs, cfg, id, seen, [a, b], Mark(seen, id));
    TwoFileLines(a, b, cfg.maxFilesToList);
  }

  /** Both are listed as files, `link.txt` first by name, with its target shown. */
  lemma FileSymlinkShown(fs: FileSystem)
    requires Root in fs && fs[Root] == Entries([RealTxt, LinkTxt])
    ensures WalkDir(fs, Defaults, Some(Root), {}) == Walk([Leaf(FileLabel(LinkTxt)), Leaf(FileLabel(RealTxt))], {Root}, 0, 2)
  {
    LinkedFilesListing(fs);
    TwoFilesWalk(fs, Defaults, Some(Root), {}, LinkTxt, RealTxt);
    assert Mark({}, Some(Root)) == {Root};
  }

  /** The plain text of the two file lines. */
  lemma FileSymlinkText()
    ensures PlainText(FileLabel(LinkTxt)) == "link.txt -> /t/real.txt"
    ensures PlainText(FileLabel(RealTxt)) == "real.txt"
  {
    EntryLabelText(LinkTxt);
    EntryLabelText(RealTxt);
  }

  // ---------------------------------------------------------------------------
  // Three files with at most one to list, dotfiles shown.

  const Readme: DirEntry := DirEntry("README", No, Yes, false, None, None)
  const AlphaPy: DirEntry := DirEntry("alpha.py", No, Yes, false, None, None)
  const BetaPy: DirEntry := DirEntry("beta.PY", No, Yes, false, None, None)

  const OneFile: Config := Config(1, 5, true)

  lemma LimitFilesSorted()
    ensures DirsOf([Readme, AlphaPy, BetaPy], OneFile) == []
    ensures FilesOf([Readme, AlphaPy, BetaPy], OneFile) == [Readme, AlphaPy, BetaPy]
  {
    var es := [Readme, AlphaPy, BetaPy];
    FilterNone(es, IsDirEntry);
    FilterAll(es, IsFileEntry);
    StrLeByFirst("README", "alpha.py");
    StrLeByFirst("README", "beta.PY");
    StrLeByFirst("alpha.py", "beta.PY");
    assert SortedBy(es, NameLe);
    NameLeTotal();
    SortKeepsSorted(es, NameLe);
  }

  lemma LimitFilesListing(fs: FileSystem)
    requires Root in fs && fs[Root] == Entries([Readme, AlphaPy, BetaPy])
    ensures Listable(fs, Some(Root))
    ensures DirsOf(ListingOf(fs, Some(Root)).entries, OneFile) == []
    ensures FilesOf(ListingOf(fs, Some(Root)).entries, OneFile) == [Readme, AlphaPy, BetaPy]
  {
    LimitFilesSorted();
  }

  lemma LimitFileNames()
    ensures Names([Readme, AlphaPy, BetaPy]) == Summary.LimitNames
  {
  }

  /** More files than the limit make a single summary line. */
  lemma OverLimitLine(files: seq<DirEntry>, maxFiles: int)
    requires |files| > maxFiles && files != []
    ensures FileSection(files, maxFiles) == [Leaf(Summary.SummarizeTypes(Names(files)))]
  {
  }

  /**
   * Past the file limit the only line is the type summary of the three
   * files (`Summary.LimitExample` gives its text); all three are counted.
   */
  lemma FilesSummarized(fs: FileSystem)
    requires Root in fs && fs[Root] == Entries([Readme, AlphaPy, BetaPy])
    ensures WalkDir(fs, OneFile, Some(Root), {}) == Walk([Leaf(Summary.SummarizeTypes(Summary.LimitNames))], {Root}, 0, 3)
  {
    var files := [Readme, AlphaPy, BetaPy];
    LimitFilesListing(fs);
    assert Mark({}, Some(Root)) == {Root};
    WalkDirOnlyFiles(fs, OneFile, Some(Root), {}, files, {Root});
    OverLimitLine(files, 1);
    LimitFileNames();
  }
}
