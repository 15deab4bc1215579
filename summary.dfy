/**
 * `summarize_types`: the one-line description that replaces a directory's
 * file listing when it has too many files. Files whose extension occurs
 * once are named; extensions shared by several files are counted, most
 * frequent first, ties broken by extension; a trailing noun closes the line.
 */
module Summary {
  import opened Sorting
  import opened Labels
  import opened FileTypes

  /** The extension of each name, in order (the second field of `file_infos`). */
  function Types(names: seq<string>): seq<string>
  {
    MapSeq(names, FileType)
  }

  /** `Counter(ftype for _, ftype in file_infos)`: how many names have each extension. */
  function Counts(names: seq<string>): multiset<string>
  {
    multiset(Types(names))
  }

  /** `file_infos.sort(key=name)`: the names in ascending code-point order. */
  function SortedNames(names: seq<string>): (r: seq<string>)
    ensures SortedBy(r, StrLe) && multiset(r) == multiset(names)
  {
    StrLeIsTotalOrder();
    Sort(names, StrLe)
  }

  /** The filter of the `singletons` comprehension. */
  function SingletonTest(counts: multiset<string>): string -> bool
  {
    n => counts[FileType(n)] == 1
  }

  /** The `count == 1: continue` test of the grouping loop, negated. */
  function RepeatedTest(counts: multiset<string>): string -> bool
  {
    e => counts[e] > 1
  }

  /** Most frequent first, then ascending extension: the key `(-count, ext)`. */
  predicate GroupLe(counts: multiset<string>, a: string, b: string)
  {
    counts[a] > counts[b] || (counts[a] == counts[b] && StrLe(a, b))
  }

  function GroupOrder(counts: multiset<string>): (string, string) -> bool
  {
    (a, b) => GroupLe(counts, a, b)
  }

  lemma GroupOrderIsTotal(counts: multiset<string>)
    ensures TotalPreorder(GroupOrder(counts)) && Antisymmetric(GroupOrder(counts))
  {
    StrLeIsTotalOrder();
  }

  /** The distinct values of `s` in order of first occurrence (the keys of a `Counter`). */
  function Distinct(s: seq<string>): (r: seq<string>)
    ensures forall x :: x in r <==> x in s
    ensures NoDup(r)
  {
    if s == [] then []
    else
      var d := Distinct(s[..|s| - 1]);
      assert s == s[..|s| - 1] + [s[|s| - 1]];
      if s[|s| - 1] in d then d else d + [s[|s| - 1]]
  }

  /** Reordering the names does not change how often each extension occurs. */
  lemma CountsPermutation(a: seq<string>, b: seq<string>)
    requires multiset(a) == multiset(b)
    ensures Counts(a) == Counts(b)
  {
    MapPermutation(a, b, FileType);
  }

  /** An extension is counted exactly when some name has it. */
  lemma CountsPositive(names: seq<string>, e: string)
    ensures Counts(names)[e] > 0 <==> e in Types(names)
  {
  }

  /**
   * The names listed individually: those whose extension occurs once, in
   * ascending name order, each once.
   */
  function Singletons(names: seq<string>): (r: seq<string>)
    ensures forall n :: n in r <==> n in names && Counts(names)[FileType(n)] == 1
    ensures SortedBy(r, StrLe)
    ensures NoDup(r)
  {
    var sorted := SortedNames(names);
    CountsPermutation(sorted, names);
    var r := Filter(sorted, SingletonTest(Counts(names)));
    FilterSorted(sorted, SingletonTest(Counts(names)), StrLe);
    FilterMembers(sorted, SingletonTest(Counts(names)));
    SingletonsNoDup(sorted, Counts(names));
    assert forall n :: n in sorted <==> n in names by {
      forall n ensures n in sorted <==> n in names {
        assert n in sorted <==> multiset(sorted)[n] > 0;
        assert n in names <==> multiset(names)[n] > 0;
      }
    }
    r
  }

  /** A name kept for its unique extension cannot occur twice. */
  lemma SingletonsNoDup(sorted: seq<string>, counts: multiset<string>)
    requires counts == Counts(sorted)
    ensures NoDup(Filter(sorted, SingletonTest(counts)))
  {
    var r := Filter(sorted, SingletonTest(counts));
    FilterMembers(sorted, SingletonTest(counts));
    FilterCounts(sorted, SingletonTest(counts));
    forall i, j | 0 <= i < j < |r| ensures r[i] != r[j] {
      if r[i] == r[j] {
        TwiceCounted(r, i, j);
        assert SingletonTest(counts)(r[i]);
        MapCovers(sorted, FileType, r[i]);
        assert false;
      }
    }
  }

  /**
   * The extensions shown as counts: exactly those that occur more than
   * once, each once, by descending count and then ascending extension.
   */
  function GroupedTypes(names: seq<string>): (r: seq<string>)
    ensures forall e :: e in r <==> Counts(names)[e] > 1
    ensures NoDup(r)
    ensures SortedBy(r, GroupOrder(Counts(names)))
  {
    var sorted := SortedNames(names);
    CountsPermutation(sorted, names);
    GroupsOf(Types(sorted), Counts(names))
  }

  /**
   * The counter's keys sorted by `(-count, ext)`, keeping those counted more
   * than once; `counts` is the counter of `types`.
   */
  function GroupsOf(types: seq<string>, counts: multiset<string>): (r: seq<string>)
    requires counts == multiset(types)
    ensures forall e :: e in r <==> counts[e] > 1
    ensures NoDup(r)
    ensures SortedBy(r, GroupOrder(counts))
  {
    GroupOrderIsTotal(counts);
    var keys := Distinct(types);
    var order := Sort(keys, GroupOrder(counts));
    NoDupPermutation(keys, order);
    assert forall e :: e in order <==> e in keys by {
      forall e ensures e in order <==> e in keys {
        assert e in order <==> multiset(order)[e] > 0;
        assert e in keys <==> multiset(keys)[e] > 0;
      }
    }
    FilterSorted(order, RepeatedTest(counts), GroupOrder(counts));
    FilterNoDup(order, RepeatedTest(counts));
    FilterMembers(order, RepeatedTest(counts));
    Filter(order, RepeatedTest(counts))
  }

  /** The grouped extensions, spelled out: strictly by descending count, then ascending extension. */
  lemma GroupedTypesOrder(names: seq<string>)
    ensures var g, counts := GroupedTypes(names), Counts(names);
            forall i, j :: 0 <= i < j < |g| ==>
              counts[g[i]] > counts[g[j]] || (counts[g[i]] == counts[g[j]] && StrLe(g[i], g[j]) && g[i] != g[j])
  {
    StrictGroupOrder(GroupedTypes(names), Counts(names));
  }

  /** A duplicate-free sequence sorted by the group order is strictly ordered. */
  lemma StrictGroupOrder(g: seq<string>, counts: multiset<string>)
    requires NoDup(g) && SortedBy(g, GroupOrder(counts))
    ensures forall i, j :: 0 <= i < j < |g| ==>
              counts[g[i]] > counts[g[j]] || (counts[g[i]] == counts[g[j]] && StrLe(g[i], g[j]) && g[i] != g[j])
  {
    forall i, j | 0 <= i < j < |g|
      ensures counts[g[i]] > counts[g[j]] || (counts[g[i]] == counts[g[j]] && StrLe(g[i], g[j]) && g[i] != g[j])
    {
      assert GroupOrder(counts)(g[i], g[j]);
      assert GroupLe(counts, g[i], g[j]);
    }
  }


  /** The grouped extensions are the only sequence with those properties. */
  lemma GroupedTypesUnique(names: seq<string>, g: seq<string>)
    requires forall e :: e in g <==> Counts(names)[e] > 1
    requires NoDup(g)
    requires SortedBy(g, GroupOrder(Counts(names)))
    ensures g == GroupedTypes(names)
  {
    var counts := Counts(names);
    GroupOrderIsTotal(counts);
    NoDupSameMembers(g, GroupedTypes(names));
    SortedUnique(g, GroupedTypes(names), GroupOrder(counts));
  }

  /** The count of each repeated extension, summed. */
  function GroupedTotal(es: seq<string>, counts: multiset<string>): nat
  {
    if es == [] then 0 else GroupedTotal(es[..|es| - 1], counts) + counts[es[|es| - 1]]
  }

  /** Summing the counts of distinct values counts the elements that take one of them. */
  lemma {:induction false} GroupedTotalFilter(s: seq<string>, g: seq<string>, p: string -> bool)
    requires NoDup(g)
    requires forall e :: e in s ==> (p(e) <==> e in g)
    ensures GroupedTotal(g, multiset(s)) == |Filter(s, p)|
    decreases |g|
  {
    if g == [] {
      var none := (e: string) => false;
      FilterAgree(s, p, none);
      FilterNone(s, none);
    } else {
      var init, last := g[..|g| - 1], g[|g| - 1];
      assert NoDup(init);
      var inInit := (e: string) => e in init;
      var isLast := (e: string) => e == last;
      GroupedTotalFilter(s, init, inInit);
      FilterSplit(s, p, inInit, isLast);
      var only := Filter(s, isLast);
      FilterMembers(s, isLast);
      FilterCounts(s, isLast);
      AllSameCount(only, last);
    }
  }

  /**
   * Every file is accounted for once: the named singletons plus the counts of
   * the grouped extensions add up to the number of files.
   */
  lemma CountsAddUp(names: seq<string>)
    ensures |Singletons(names)| + GroupedTotal(GroupedTypes(names), Counts(names)) == |names|
  {
    var sorted := SortedNames(names);
    CountsPermutation(sorted, names);
    var counts := Counts(sorted);
    var types := Types(sorted);
    var others := (n: string) => counts[FileType(n)] != 1;
    FilterComplement(sorted, SingletonTest(counts), others);
    var repeated := (e: string) => counts[e] != 1;
    MapFilterLength(sorted, FileType, others, repeated);
    var g := GroupedTypes(names);
    GroupedTotalFilter(types, g, repeated);
    assert |sorted| == |multiset(sorted)| == |names|;
  }

  /** `f"{count} {label}"`: a grouped extension with its count. */
  function GroupText(counts: multiset<string>, ext: string): string
  {
    Decimal(counts[ext]) + " " + ext
  }

  /** `parts = singletons + grouped`: named files in `file` style, counts in `summary` style. */
  function PartsOf(s: seq<string>, g: seq<string>, counts: multiset<string>): (r: seq<Span>)
    ensures |r| == |s| + |g|
    ensures forall i :: 0 <= i < |s| ==> r[i] == Span(File, s[i])
    ensures forall k :: 0 <= k < |g| ==> r[|s| + k] == Span(SummaryStyle, GroupText(counts, g[k]))
  {
    seq(|s|, i requires 0 <= i < |s| => Span(File, s[i]))
      + seq(|g|, k requires 0 <= k < |g| => Span(SummaryStyle, GroupText(counts, g[k])))
  }

  function SummaryParts(names: seq<string>): seq<Span>
  {
    PartsOf(Singletons(names), GroupedTypes(names), Counts(names))
  }

  /** Some file is either named or counted, so the parts are never empty for a non-empty input. */
  lemma PartsNonEmpty(names: seq<string>)
    requires names != []
    ensures SummaryParts(names) != []
  {
    var e := FileType(names[0]);
    assert Types(names)[0] == e;
    if Counts(names)[e] == 1 {
      assert names[0] in Singletons(names);
    } else {
      assert e in GroupedTypes(names);
    }
  }

  /**
   * `f"{', '.join(parts)} {noun_markup}"`, or the noun alone when there are
   * no parts: the parts at the even positions, ", " between neighbours, and
   * a space before the noun.
   */
  function Render(parts: seq<Span>, noun: string): (r: Label)
    ensures parts == [] ==> r == [Span(SummaryStyle, noun)]
    ensures parts != [] ==> && |r| == 2 * |parts| + 1
                            && (forall i :: 0 <= i < |parts| ==> r[2 * i] == parts[i])
                            && (forall i :: 0 <= i < |parts| - 1 ==> r[2 * i + 1] == Span(Plain, ", "))
                            && r[|r| - 2] == Span(Plain, " ")
                            && r[|r| - 1] == Span(SummaryStyle, noun)
  {
    if parts == [] then [Span(SummaryStyle, noun)]
    else Join(parts, ", ") + [Span(Plain, " "), Span(SummaryStyle, noun)]
  }

  /** `sum(counts.values())`: the counter holds one entry per file. */
  lemma CountsTotal(names: seq<string>)
    ensures |Counts(names)| == |names|
  {
  }

  /**
   * The summary label. An empty input gives "0 files"; otherwise the parts
   * joined by ", ", a space, and "file" or "files" by the total count.
   */
  function SummarizeTypes(names: seq<string>): (r: Label)
    ensures names == [] ==> r == [Span(SummaryStyle, "0 files")]
    ensures names != [] ==> && |r| == 2 * |SummaryParts(names)| + 1
                            && r[|r| - 2] == Span(Plain, " ")
                            && r[|r| - 1] == Span(SummaryStyle, if |names| == 1 then "file" else "files")
  {
    if names == [] then [Span(SummaryStyle, "0 files")]
    else
      CountsTotal(names);
      PartsNonEmpty(names);
      Render(SummaryParts(names), CountNoun(|Counts(names)|, "file", "files"))
  }

  /** The named singletons are the only sequence with their properties. */
  lemma SingletonsUnique(names: seq<string>, s: seq<string>)
    requires forall n :: n in s <==> n in names && Counts(names)[FileType(n)] == 1
    requires SortedBy(s, StrLe) && NoDup(s)
    ensures s == Singletons(names)
  {
    StrLeIsTotalOrder();
    NoDupSameMembers(s, Singletons(names));
    SortedUnique(s, Singletons(names), StrLe);
  }

  /**
   * The layout of a non-empty summary: the named singletons at the even
   * positions first, then the grouped counts, ", " between neighbours, and a
   * space before the closing noun.
   */
  lemma SummaryLayout(names: seq<string>)
    requires names != []
    ensures var r, s, g := SummarizeTypes(names), Singletons(names), GroupedTypes(names);
            && |r| == 2 * (|s| + |g|) + 1
            && (forall i :: 0 <= i < |s| ==> r[2 * i] == Span(File, s[i]))
            && (forall k :: 0 <= k < |g| ==> r[2 * (|s| + k)] == Span(SummaryStyle, GroupText(Counts(names), g[k])))
            && (forall i :: 0 <= i < |s| + |g| - 1 ==> r[2 * i + 1] == Span(Plain, ", "))
  {
    var s, g := Singletons(names), GroupedTypes(names);
    PartsNonEmpty(names);
    SummaryFrom(names, s, g);
    RenderLayout(s, g, Counts(names), CountNoun(|names|, "file", "files"));
  }

  /** The rendered parts: singletons at the even positions, then the groups, separated by ", ". */
  lemma RenderLayout(s: seq<string>, g: seq<string>, counts: multiset<string>, noun: string)
    requires |s| + |g| > 0
    ensures var r := Render(PartsOf(s, g, counts), noun);
            && |r| == 2 * (|s| + |g|) + 1
            && (forall i :: 0 <= i < |s| ==> r[2 * i] == Span(File, s[i]))
            && (forall k :: 0 <= k < |g| ==> r[2 * (|s| + k)] == Span(SummaryStyle, GroupText(counts, g[k])))
            && (forall i :: 0 <= i < |s| + |g| - 1 ==> r[2 * i + 1] == Span(Plain, ", "))
  {
    var parts := PartsOf(s, g, counts);
    var r := Render(parts, noun);
    forall k | 0 <= k < |g| ensures r[2 * (|s| + k)] == Span(SummaryStyle, GroupText(counts, g[k])) {
      assert r[2 * (|s| + k)] == parts[|s| + k];
    }
  }


  /** Every span of a rendering is one of the parts, a separator or the noun. */
  lemma RenderSpanOf(parts: seq<Span>, noun: string, j: int)
    requires parts != [] && 0 <= j < |Render(parts, noun)|
    ensures var r := Render(parts, noun);
            || (exists h :: 0 <= h < |parts| && r[j] == parts[h])
            || r[j] == Span(Plain, ", ") || r[j] == Span(Plain, " ") || r[j] == Span(SummaryStyle, noun)
  {
    var r := Render(parts, noun);
    if j < |r| - 2 {
      var h := j / 2;
      if j % 2 == 1 {
        assert j == 2 * h + 1 && h < |parts| - 1;
      } else {
        assert j == 2 * h;
      }
    }
  }

  /** Every span of rendered parts is a named, grouped, separator or noun span. */
  lemma RenderSpans(s: seq<string>, g: seq<string>, counts: multiset<string>, noun: string, j: int)
    requires |s| + |g| > 0 && 0 <= j < |Render(PartsOf(s, g, counts), noun)|
    ensures var r := Render(PartsOf(s, g, counts), noun);
            || (exists i :: 0 <= i < |s| && r[j] == Span(File, s[i]))
            || (exists k :: 0 <= k < |g| && r[j] == Span(SummaryStyle, GroupText(counts, g[k])))
            || r[j] == Span(Plain, ", ") || r[j] == Span(Plain, " ") || r[j] == Span(SummaryStyle, noun)
  {
    var parts := PartsOf(s, g, counts);
    RenderSpanOf(parts, noun, j);
    if h :| 0 <= h < |parts| && Render(parts, noun)[j] == parts[h] {
      if h < |s| {
        assert parts[h] == Span(File, s[h]);
      } else {
        var k := h - |s|;
        assert parts[|s| + k] == Span(SummaryStyle, GroupText(counts, g[k]));
      }
    }
  }

  /** Every span of a non-empty summary is one of the named, grouped, separator or noun spans. */
  lemma SummarySpans(names: seq<string>, j: int)
    requires names != [] && 0 <= j < |SummarizeTypes(names)|
    ensures var r, s, g := SummarizeTypes(names), Singletons(names), GroupedTypes(names);
            || (exists i :: 0 <= i < |s| && r[j] == Span(File, s[i]))
            || (exists k :: 0 <= k < |g| && r[j] == Span(SummaryStyle, GroupText(Counts(names), g[k])))
            || r[j] == Span(Plain, ", ") || r[j] == Span(Plain, " ")
            || r[j] == Span(SummaryStyle, CountNoun(|names|, "file", "files"))
  {
    CountsTotal(names);
    PartsNonEmpty(names);
    RenderSpans(Singletons(names), GroupedTypes(names), Counts(names), CountNoun(|names|, "file", "files"), j);
  }

  /** Every `file` span of the summary names one of the summarized files. */
  lemma FileSpansNameInputs(names: seq<string>)
    ensures var r := SummarizeTypes(names);
            forall j :: 0 <= j < |r| && r[j].style == File ==> r[j].text in names
  {
    var r := SummarizeTypes(names);
    if names != [] {
      forall j | 0 <= j < |r| && r[j].style == File ensures r[j].text in names {
        SummarySpans(names, j);
      }
    }
  }

  /** A name that is not among the singletons has no `file` span in rendered parts. */
  lemma RenderNamesOnlySingletons(s: seq<string>, g: seq<string>, counts: multiset<string>, noun: string, n: string)
    requires n !in s
    ensures Span(File, n) !in Render(PartsOf(s, g, counts), noun)
  {
    var parts := PartsOf(s, g, counts);
    var r := Render(parts, noun);
    forall j | 0 <= j < |r| ensures r[j] != Span(File, n) {
      if parts != [] && j < |r| - 2 {
        var h := j / 2;
        assert j == 2 * h || j == 2 * h + 1;
        if j == 2 * h {
          assert r[j] == parts[h];
          if h < |s| {
            assert parts[h] == Span(File, s[h]);
          } else {
            assert parts[|s| + (h - |s|)].style == SummaryStyle;
          }
        }
      }
    }
  }

  /** A file whose extension is shared is never named: it is only counted. */
  lemma SharedTypeNeverNamed(names: seq<string>, n: string)
    requires Counts(names)[FileType(n)] > 1
    ensures Span(File, n) !in SummarizeTypes(names)
  {
    if names != [] {
      SummaryFrom(names, Singletons(names), GroupedTypes(names));
      RenderNamesOnlySingletons(Singletons(names), GroupedTypes(names), Counts(names), CountNoun(|names|, "file", "files"), n);
    }
  }

  /** A file whose extension is its own is named. */
  lemma UniqueTypeNamed(names: seq<string>, n: string)
    requires n in names && Counts(names)[FileType(n)] == 1
    ensures Span(File, n) in SummarizeTypes(names)
  {
    SummaryLayout(names);
    var s := Singletons(names);
    var i :| 0 <= i < |s| && s[i] == n;
    assert SummarizeTypes(names)[2 * i] == Span(File, n);
  }

  /** Every shared extension is shown with its count. */
  lemma SharedTypeCounted(names: seq<string>, e: string)
    requires Counts(names)[e] > 1
    ensures Span(SummaryStyle, Decimal(Counts(names)[e]) + " " + e) in SummarizeTypes(names)
  {
    assert e in Types(names);
    CountsTotal(names);
    PartsNonEmpty(names);
    var s, g, counts := Singletons(names), GroupedTypes(names), Counts(names);
    var parts := PartsOf(s, g, counts);
    var r := Render(parts, CountNoun(|names|, "file", "files"));
    assert SummarizeTypes(names) == r;
    var k :| 0 <= k < |g| && g[k] == e;
    assert r[2 * (|s| + k)] == parts[|s| + k] == Span(SummaryStyle, GroupText(counts, e));
  }

  /** What a terminal without colour shows of a rendered summary. */
  lemma {:induction false} RenderPlainText(parts: seq<Span>, noun: string)
    requires parts != []
    ensures PlainText(Render(parts, noun)) == JoinText(Texts(parts), ", ") + " " + noun
  {
    var tail := [Span(Plain, " "), Span(SummaryStyle, noun)];
    PlainTextAppend(Join(parts, ", "), tail);
    PlainTextOfJoin(parts, ", ");
    PlainTextPair(tail[0], tail[1]);
  }

  /** The joined parts, a space and the noun. */
  lemma SummaryPlainText(names: seq<string>)
    requires names != []
    ensures PlainText(SummarizeTypes(names))
            == JoinText(Texts(SummaryParts(names)), ", ") + " " + CountNoun(|names|, "file", "files")
  {
    CountsTotal(names);
    PartsNonEmpty(names);
    RenderPlainText(SummaryParts(names), CountNoun(|names|, "file", "files"));
  }

  /** Index-wise form of `SingletonsUnique`, for concrete inputs. */
  lemma SingletonsByIndex(names: seq<string>, s: seq<string>)
    requires forall x :: x in s ==> x in names
    requires forall i :: 0 <= i < |names| ==> (names[i] in s <==> Counts(names)[Types(names)[i]] == 1)
    requires SortedBy(s, StrLe) && NoDup(s)
    ensures s == Singletons(names)
  {
    forall n ensures n in s <==> n in names && Counts(names)[FileType(n)] == 1 {
      if n in names {
        var i :| 0 <= i < |names| && names[i] == n;
      }
    }
    SingletonsUnique(names, s);
  }

  lemma FourElements<T>(s: seq<T>, a: T, b: T, c: T, d: T)
    requires |s| == 4 && s[0] == a && s[1] == b && s[2] == c && s[3] == d
    ensures s == [a, b, c, d]
  {
  }

  lemma DistinctFour<T>(a: T, b: T, c: T, d: T)
    requires a != b && a != c && a != d && b != c && b != d && c != d
    ensures NoDup([a, b, c, d])
  {
  }

  /** The files of the source's first summary test. */
  const MixedNames: seq<string> := ["a.py", "b.PY", "c.txt", "README"]

  lemma MixedTypes()
    ensures Types(MixedNames) == ["py", "py", "txt", NoExtension]
    ensures Counts(MixedNames) == multiset{"py", "py", "txt", NoExtension}
  {
    TypeOfAPy();
    TypeOfBPy();
    TypeOfCTxt();
    TypeOfReadme();
    var types := Types(MixedNames);
    assert types[0] == "py" && types[1] == "py" && types[2] == "txt" && types[3] == NoExtension;
    FourElements(types, "py", "py", "txt", NoExtension);
  }

  /** The first test's singletons in name order. */
  const MixedSorted: seq<string> := ["README", "c.txt"]

  lemma MixedSortedShape()
    ensures SortedBy(MixedSorted, StrLe) && NoDup(MixedSorted)
    ensures MixedNames[0] !in MixedSorted && MixedNames[1] !in MixedSorted
    ensures MixedNames[2] in MixedSorted && MixedNames[3] in MixedSorted
    ensures forall x :: x in MixedSorted ==> x in MixedNames
  {
    StrLeByFirst("README", "c.txt");
    assert MixedNames[2] == MixedSorted[1] && MixedNames[3] == MixedSorted[0];
  }

  lemma MixedSingletons()
    ensures Singletons(MixedNames) == MixedSorted
  {
    MixedSortedShape();
    MixedTypes();
    var names, s, counts, types := MixedNames, MixedSorted, Counts(MixedNames), Types(MixedNames);
    assert counts[types[0]] == 2 && counts[types[1]] == 2 && counts[types[2]] == 1 && counts[types[3]] == 1;
    forall i | 0 <= i < |names| ensures names[i] in s <==> counts[types[i]] == 1 {
      assert i == 0 || i == 1 || i == 2 || i == 3;
    }
    SingletonsByIndex(names, s);
  }

  lemma MixedGroups()
    ensures GroupedTypes(MixedNames) == ["py"]
  {
    MixedTypes();
    GroupedTypesUnique(MixedNames, ["py"]);
  }

  /** The parts of the first summary test. */
  lemma MixedParts(counts: multiset<string>)
    requires counts == multiset{"py", "py", "txt", NoExtension}
    ensures PartsOf(MixedSorted, ["py"], counts)
            == [Span(File, "README"), Span(File, "c.txt"), Span(SummaryStyle, "2 py")]
  {
    assert counts["py"] == 2;
    assert Decimal(2) == "2";
    assert GroupText(counts, "py") == "2 py";
  }

  /** The rendering of the first summary test's parts. */
  lemma MixedRendering()
    ensures var parts := [Span(File, "README"), Span(File, "c.txt"), Span(SummaryStyle, "2 py")];
            && Render(parts, "files")
               == [Span(File, "README"), Span(Plain, ", "), Span(File, "c.txt"), Span(Plain, ", "),
                   Span(SummaryStyle, "2 py"), Span(Plain, " "), Span(SummaryStyle, "files")]
            && PlainText(Render(parts, "files")) == "README, c.txt, 2 py files"
  {
    var a, b, c := Span(File, "README"), Span(File, "c.txt"), Span(SummaryStyle, "2 py");
    var parts := [a, b, c];
    JoinThree(a, b, c, ", ");
    RenderPlainText(parts, "files");
    assert Texts(parts) == ["README", "c.txt", "2 py"];
    assert JoinText(["README", "c.txt", "2 py"], ", ") == "README, c.txt, 2 py" by {
      assert ["README", "c.txt", "2 py"][..2] == ["README", "c.txt"];
      assert ["README", "c.txt"][..1] == ["README"];
    }
  }

  /** The summary of given names, once its singletons and groups are known. */
  lemma SummaryFrom(names: seq<string>, s: seq<string>, g: seq<string>)
    requires names != [] && Singletons(names) == s && GroupedTypes(names) == g
    ensures SummarizeTypes(names) == Render(PartsOf(s, g, Counts(names)), CountNoun(|names|, "file", "files"))
  {
    CountsTotal(names);
  }

  /**
   * The summary does not depend on the order the files arrive in: it sorts
   * them by name before reading them.
   */
  lemma SummaryIgnoresOrder(a: seq<string>, b: seq<string>)
    requires multiset(a) == multiset(b)
    ensures SummarizeTypes(a) == SummarizeTypes(b)
  {
    assert |a| == |multiset(a)| == |b|;
    if a != [] {
      CountsPermutation(a, b);
      forall n ensures n in a <==> n in b {
        assert n in a <==> n in multiset(a);
        assert n in b <==> n in multiset(b);
      }
      SingletonsUnique(b, Singletons(a));
      GroupedTypesUnique(b, GroupedTypes(a));
      SummaryFrom(a, Singletons(a), GroupedTypes(a));
      SummaryFrom(b, Singletons(a), GroupedTypes(a));
    }
  }

  /**
   * Two `py` files, a `txt` file and one without extension: the two unique
   * ones named in order, then "2 py", then the plural noun.
   */
  lemma MixedTypesExample()
    ensures SummarizeTypes(MixedNames)
            == [Span(File, "README"), Span(Plain, ", "), Span(File, "c.txt"), Span(Plain, ", "),
                Span(SummaryStyle, "2 py"), Span(Plain, " "), Span(SummaryStyle, "files")]
    ensures PlainText(SummarizeTypes(MixedNames)) == "README, c.txt, 2 py files"
  {
    MixedSingletons();
    MixedGroups();
    MixedTypes();
    SummaryFrom(MixedNames, MixedSorted, ["py"]);
    MixedParts(Counts(MixedNames));
    assert CountNoun(|MixedNames|, "file", "files") == "files";
    MixedRendering();
  }

  /** The files of the source's second summary test. */
  const UniqueNames: seq<string> := ["report.log", "notes.md", "image.JPG", "script.sh"]

  lemma UniqueTypes()
    ensures Types(UniqueNames) == ["log", "md", "jpg", "sh"]
    ensures Counts(UniqueNames) == multiset{"log", "md", "jpg", "sh"}
    ensures NoDup(Types(UniqueNames))
  {
    TypeOfReportLog();
    TypeOfNotesMd();
    TypeOfImageJpg();
    TypeOfScriptSh();
    var types := Types(UniqueNames);
    assert types[0] == "log" && types[1] == "md" && types[2] == "jpg" && types[3] == "sh";
    FourElements(types, "log", "md", "jpg", "sh");
    assert "log"[0] == 'l' && "md"[0] == 'm' && "jpg"[0] == 'j' && "sh"[0] == 's';
    DistinctFour("log", "md", "jpg", "sh");
  }

  /** The second test's names in name order. */
  const UniqueSorted: seq<string> := ["image.JPG", "notes.md", "report.log", "script.sh"]

  lemma UniqueSortedShape()
    ensures SortedBy(UniqueSorted, StrLe) && NoDup(UniqueSorted)
    ensures forall i :: 0 <= i < |UniqueNames| ==> UniqueNames[i] in UniqueSorted
    ensures forall x :: x in UniqueSorted ==> x in UniqueNames
  {
    var s := UniqueSorted;
    StrLeByFirst("image.JPG", "notes.md");
    StrLeByFirst("notes.md", "report.log");
    StrLeByFirst("report.log", "script.sh");
    StrLeIsTotalOrder();
    assert "image.JPG"[0] == 'i' && "notes.md"[0] == 'n' && "report.log"[0] == 'r' && "script.sh"[0] == 's';
    DistinctFour("image.JPG", "notes.md", "report.log", "script.sh");
    assert UniqueNames[0] == s[2] && UniqueNames[1] == s[1] && UniqueNames[2] == s[0] && UniqueNames[3] == s[3];
  }

  lemma UniqueSingletons()
    ensures Singletons(UniqueNames) == UniqueSorted
  {
    UniqueSortedShape();
    UniqueTypes();
    var names, counts, types := UniqueNames, Counts(UniqueNames), Types(UniqueNames);
    forall i | 0 <= i < |names| ensures counts[types[i]] == 1 {
      NoDupCount(types, types[i]);
    }
    SingletonsByIndex(names, UniqueSorted);
  }

  lemma UniqueGroups()
    ensures GroupedTypes(UniqueNames) == []
  {
    UniqueTypes();
    forall e ensures Counts(UniqueNames)[e] <= 1 {
      NoDupCount(Types(UniqueNames), e);
    }
    GroupedTypesUnique(UniqueNames, []);
  }

  /** Four different extensions: every file is named, in name order, and nothing is counted. */
  lemma AllUniqueExample()
    ensures SummarizeTypes(UniqueNames)
            == [Span(File, "image.JPG"), Span(Plain, ", "), Span(File, "notes.md"), Span(Plain, ", "),
                Span(File, "report.log"), Span(Plain, ", "), Span(File, "script.sh"),
                Span(Plain, " "), Span(SummaryStyle, "files")]
  {
    UniqueSingletons();
    UniqueGroups();
    SummaryFrom(UniqueNames, UniqueSorted, []);
    assert CountNoun(|UniqueNames|, "file", "files") == "files";
    UniqueRendering(Counts(UniqueNames));
  }

  /** The rendering of the second summary test's parts. */
  lemma UniqueRendering(counts: multiset<string>)
    ensures Render(PartsOf(UniqueSorted, [], counts), "files")
            == [Span(File, "image.JPG"), Span(Plain, ", "), Span(File, "notes.md"), Span(Plain, ", "),
                Span(File, "report.log"), Span(Plain, ", "), Span(File, "script.sh"),
                Span(Plain, " "), Span(SummaryStyle, "files")]
  {
    var parts := PartsOf(UniqueSorted, [], counts);
    assert parts == [Span(File, "image.JPG"), Span(File, "notes.md"), Span(File, "report.log"), Span(File, "script.sh")];
    JoinFour(Span(File, "image.JPG"), Span(File, "notes.md"), Span(File, "report.log"), Span(File, "script.sh"), ", ");
  }

  /** The files of the source's crawl test past the file limit, in name order. */
  const LimitNames: seq<string> := ["README", "alpha.py", "beta.PY"]

  lemma LimitTypes()
    ensures Types(LimitNames) == [NoExtension, "py", "py"]
    ensures Counts(LimitNames) == multiset{NoExtension, "py", "py"}
  {
    TypeOfReadme();
    TypeOfAlphaPy();
    TypeOfBetaPy();
    var types := Types(LimitNames);
    assert types[0] == NoExtension && types[1] == "py" && types[2] == "py";
    assert types == [types[0], types[1], types[2]];
  }

  /** Of three files, only the first has an extension of its own. */
  lemma FirstOfThreeSingleton(names: seq<string>, a: string, b: string, c: string)
    requires names == [a, b, c] && a != b && a != c
    requires Counts(names)[FileType(a)] == 1
    requires Counts(names)[FileType(b)] > 1 && Counts(names)[FileType(c)] > 1
    ensures Singletons(names) == [a]
  {
    forall n ensures n in [a] <==> n in names && Counts(names)[FileType(n)] == 1 {
    }
    SingletonsUnique(names, [a]);
  }

  lemma LimitSingletons()
    ensures Singletons(LimitNames) == ["README"]
  {
    LimitTypes();
    TypeOfReadme();
    TypeOfAlphaPy();
    TypeOfBetaPy();
    var counts := Counts(LimitNames);
    assert counts[NoExtension] == 1 && counts["py"] == 2;
    assert "README"[0] != "alpha.py"[0] && "README"[0] != "beta.PY"[0];
    FirstOfThreeSingleton(LimitNames, "README", "alpha.py", "beta.PY");
  }

  lemma LimitGroups()
    ensures GroupedTypes(LimitNames) == ["py"]
  {
    LimitTypes();
    GroupedTypesUnique(LimitNames, ["py"]);
  }

  lemma LimitParts(counts: multiset<string>)
    requires counts == multiset{NoExtension, "py", "py"}
    ensures PartsOf(["README"], ["py"], counts) == [Span(File, "README"), Span(SummaryStyle, "2 py")]
  {
    assert counts["py"] == 2;
    assert Decimal(2) == "2";
    assert GroupText(counts, "py") == "2 py";
  }

  lemma LimitRendering()
    ensures var parts := [Span(File, "README"), Span(SummaryStyle, "2 py")];
            && Render(parts, "files")
               == [Span(File, "README"), Span(Plain, ", "), Span(SummaryStyle, "2 py"), Span(Plain, " "), Span(SummaryStyle, "files")]
            && PlainText(Render(parts, "files")) == "README, 2 py files"
  {
    var parts := [Span(File, "README"), Span(SummaryStyle, "2 py")];
    assert parts[..1] == [Span(File, "README")];
    RenderPlainText(parts, "files");
    assert Texts(parts) == ["README", "2 py"];
    assert JoinText(["README", "2 py"], ", ") == "README, 2 py" by {
      assert ["README", "2 py"][..1] == ["README"];
    }
  }

  /**
   * A file without extension and two `py` files, one spelled in capitals:
   * the unique one named, then "2 py", then the plural noun.
   */
  lemma LimitExample()
    ensures SummarizeTypes(LimitNames)
            == [Span(File, "README"), Span(Plain, ", "), Span(SummaryStyle, "2 py"), Span(Plain, " "), Span(SummaryStyle, "files")]
    ensures PlainText(SummarizeTypes(LimitNames)) == "README, 2 py files"
  {
    LimitSingletons();
    LimitGroups();
    LimitTypes();
    SummaryFrom(LimitNames, ["README"], ["py"]);
    LimitParts(Counts(LimitNames));
    assert CountNoun(|LimitNames|, "file", "files") == "files";
    LimitRendering();
  }
}
