/**
 * The output vocabulary of the listing. The source writes Rich console
 * markup (`[dir]…[/dir]`, `[file]…[/file]`, `[summary]…[/summary]`,
 * `[error]…[/error]`); here a label is a sequence of spans, each carrying a
 * semantic style and its plain text, and `PlainText` joins the texts. Names
 * and link targets are taken to hold no markup tag of their own; for those,
 * `PlainText` is what a terminal without colour shows.
 */
module Labels {

  /** The theme's four styles, plus `Plain` for unmarked text. */
  datatype Style = Dir | File | SummaryStyle | Error | Plain

  datatype Span = Span(style: Style, text: string)

  type Label = seq<Span>

  /** One node of the output tree: a label and its ordered children. */
  datatype TreeNode = TreeNode(line: Label, children: seq<TreeNode>)

  function Leaf(line: Label): TreeNode
  {
    TreeNode(line, [])
  }

  /** The text of a label with its markup stripped. */
  function PlainText(spans: Label): string
  {
    if spans == [] then "" else PlainText(spans[..|spans| - 1]) + spans[|spans| - 1].text
  }

  lemma {:induction false} PlainTextAppend(a: Label, b: Label)
    ensures PlainText(a + b) == PlainText(a) + PlainText(b)
    decreases |b|
  {
    if b == [] {
      assert a + b == a;
    } else {
      var c, z := b[..|b| - 1], b[|b| - 1];
      var ab := a + b;
      assert ab[..|ab| - 1] == a + c;
      assert ab[|ab| - 1] == z;
      assert PlainText(ab) == PlainText(a + c) + z.text;
      assert PlainText(b) == PlainText(c) + z.text;
      PlainTextAppend(a, c);
    }
  }

  lemma PlainTextPair(x: Span, y: Span)
    ensures PlainText([x, y]) == x.text + y.text
  {
    assert [x, y][..1] == [x];
    assert PlainText([x]) == PlainText([]) + x.text;
  }

  /** `sep.join(parts)` on spans: the parts with a plain separator span between neighbours. */
  function Join(parts: seq<Span>, sep: string): (r: seq<Span>)
    ensures |parts| > 0 ==> |r| == 2 * |parts| - 1
    ensures parts == [] ==> r == []
    ensures forall i :: 0 <= i < |parts| ==> r[2 * i] == parts[i]
    ensures forall i :: 0 <= i < |parts| - 1 ==> r[2 * i + 1] == Span(Plain, sep)
  {
    if |parts| <= 1 then parts
    else
      var init := parts[..|parts| - 1];
      var j := Join(init, sep);
      var r := j + [Span(Plain, sep), parts[|parts| - 1]];
      assert |j| == 2 * |init| - 1;
      forall i | 0 <= i < |parts| ensures r[2 * i] == parts[i] {
        if i < |init| {
          assert r[2 * i] == j[2 * i] == init[i];
        } else {
          assert 2 * i == |j| + 1;
        }
      }
      forall i | 0 <= i < |parts| - 1 ensures r[2 * i + 1] == Span(Plain, sep) {
        if i < |init| - 1 {
          assert r[2 * i + 1] == j[2 * i + 1];
        } else {
          assert 2 * i + 1 == |j|;
        }
      }
      r
  }

  lemma JoinThree(a: Span, b: Span, c: Span, sep: string)
    ensures Join([a, b, c], sep) == [a, Span(Plain, sep), b, Span(Plain, sep), c]
  {
    assert [a, b, c][..2] == [a, b];
    assert [a, b][..1] == [a];
  }

  lemma JoinFour(a: Span, b: Span, c: Span, d: Span, sep: string)
    ensures Join([a, b, c, d], sep) == [a, Span(Plain, sep), b, Span(Plain, sep), c, Span(Plain, sep), d]
  {
    assert [a, b, c, d][..3] == [a, b, c];
    JoinThree(a, b, c, sep);
  }

  /** `sep.join(texts)` on strings. */
  function JoinText(texts: seq<string>, sep: string): string
  {
    if texts == [] then ""
    else if |texts| == 1 then texts[0]
    else JoinText(texts[..|texts| - 1], sep) + sep + texts[|texts| - 1]
  }

  function Texts(spans: seq<Span>): (r: seq<string>)
    ensures |r| == |spans| && forall i :: 0 <= i < |spans| ==> r[i] == spans[i].text
  {
    seq(|spans|, i requires 0 <= i < |spans| => spans[i].text)
  }

  /** Stripping markup from joined spans joins their texts. */
  lemma {:induction false} PlainTextOfJoin(parts: seq<Span>, sep: string)
    ensures PlainText(Join(parts, sep)) == JoinText(Texts(parts), sep)
    decreases |parts|
  {
    if |parts| > 1 {
      var init := parts[..|parts| - 1];
      PlainTextOfJoin(init, sep);
      PlainTextAppend(Join(init, sep), [Span(Plain, sep), parts[|parts| - 1]]);
      assert PlainText([Span(Plain, sep), parts[|parts| - 1]]) == sep + parts[|parts| - 1].text by {
        assert [Span(Plain, sep), parts[|parts| - 1]][..1] == [Span(Plain, sep)];
        assert PlainText([Span(Plain, sep)]) == PlainText([]) + sep;
      }
      assert Texts(parts)[..|parts| - 1] == Texts(init);
    } else if |parts| == 1 {
      assert PlainText(parts) == PlainText([]) + parts[0].text;
    }
  }

  /** The singular noun exactly when the count is one (the source's `"x" if n == 1 else "xs"`). */
  function CountNoun(n: int, singular: string, plural: string): (r: string)
    ensures singular != plural ==> (r == singular <==> n == 1)
    ensures r == singular || r == plural
  {
    if n == 1 then singular else plural
  }

  function DigitChar(d: nat): (c: char)
    requires d < 10
    ensures '0' <= c <= '9'
  {
    ('0' as int + d) as char
  }

  predicate IsDigits(s: string)
  {
    forall i :: 0 <= i < |s| ==> '0' <= s[i] <= '9'
  }

  /** Python's `str(n)` for a non-negative integer: its canonical decimal numeral. */
  function Decimal(n: nat): (r: string)
    ensures |r| > 0 && IsDigits(r)
    ensures r[0] == '0' ==> n == 0
    decreases n
  {
    if n < 10 then [DigitChar(n)] else Decimal(n / 10) + [DigitChar(n % 10)]
  }

  /** The value a decimal numeral denotes; the inverse of `Decimal`. */
  function DecimalValue(s: string): nat
    requires IsDigits(s)
  {
    if s == [] then 0 else DecimalValue(s[..|s| - 1]) * 10 + (s[|s| - 1] as int - '0' as int)
  }

  lemma {:induction false} DecimalRoundTrip(n: nat)
    ensures DecimalValue(Decimal(n)) == n
    decreases n
  {
    if n >= 10 {
      DecimalRoundTrip(n / 10);
      var r := Decimal(n);
      assert r[..|r| - 1] == Decimal(n / 10);
    }
  }

  /** Distinct counts render differently. */
  lemma DecimalInjective(m: nat, n: nat)
    requires Decimal(m) == Decimal(n)
    ensures m == n
  {
    DecimalRoundTrip(m);
    DecimalRoundTrip(n);
  }

  /** `f"{n} {noun}"` with the noun agreeing with `n`. */
  function CountPhrase(n: nat, singular: string, plural: string): string
  {
    Decimal(n) + " " + CountNoun(n, singular, plural)
  }

  /** The index of the first space in `s`, or `|s|` when there is none. */
  function SpaceIndex(s: string): (k: nat)
    ensures k <= |s|
  {
    if s == [] || s[0] == ' ' then 0 else 1 + SpaceIndex(s[1..])
  }

  lemma {:induction false} SpaceAfterDigits(a: string, x: string)
    requires IsDigits(a)
    ensures SpaceIndex(a + " " + x) == |a|
  {
    if a != [] {
      assert (a + " " + x)[1..] == a[1..] + " " + x;
      SpaceAfterDigits(a[1..], x);
    }
  }

  /** A numeral followed by a space can be split off unambiguously. */
  lemma SplitAtSpace(a: string, x: string, b: string, y: string)
    requires IsDigits(a) && IsDigits(b) && a + " " + x == b + " " + y
    ensures a == b && x == y
  {
    var l, r := a + " " + x, b + " " + y;
    SpaceAfterDigits(a, x);
    SpaceAfterDigits(b, y);
    assert a == l[..|a|] && b == r[..|b|];
    assert x == l[|a| + 1..] && y == r[|b| + 1..];
  }

  /** A count phrase determines its count. */
  lemma CountPhraseInjective(m: nat, n: nat, singular: string, plural: string)
    requires CountPhrase(m, singular, plural) == CountPhrase(n, singular, plural)
    ensures m == n
  {
    SplitAtSpace(Decimal(m), CountNoun(m, singular, plural), Decimal(n), CountNoun(n, singular, plural));
    DecimalInjective(m, n);
  }
}
