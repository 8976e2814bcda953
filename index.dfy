/**
 * The heading numberer of `put_index`: headings are the lines that start with the
 * title prefix; consecutive headings with one title are numbered "(k/n)", and a table
 * of contents lists one line per run of headings.
 */
module Index {
  import opened Wrappers
  import opened Text

  /** A heading line: its position among the lines and its normalised title. */
  datatype Heading = Heading(line: nat, title: string)

  /** A run of consecutive headings sharing one title: their line positions and the title. */
  datatype Group = Group(lines: seq<nat>, title: string)

  /** The slide's configured `title_prefix`, or "# " when it has none. */
  function TitlePrefix(configured: Option<string>): string {
    configured.UnwrapOr("# ")
  }

  /** `line.starts_with(prefix)`. */
  predicate IsHeading(line: string, prefix: string) {
    prefix <= line
  }

  // ---------------------------------------------------------------- "(k/n)" markers

  /** `\d+/\d+`: two non-empty runs of digits around a slash. */
  predicate IsRatio(s: string) {
    exists p :: 0 < p < |s| - 1 && s[p] == '/' && AllDigits(s[..p]) && AllDigits(s[p + 1..])
  }

  /** `\(\d+/\d+\)`: a ratio in parentheses. */
  predicate IsMarker(m: string) {
    |m| >= 2 && m[0] == '(' && m[|m| - 1] == ')' && IsRatio(m[1..|m| - 1])
  }

  /** The leftmost position from `k` on where `\(\d+/\d+\)$` matches, as the regex search finds it. */
  function MarkerFrom(s: string, k: nat): (r: Option<nat>)
    requires k <= |s|
    ensures r.Some? ==> k <= r.value <= |s| && IsMarker(s[r.value..])
    decreases |s| - k
  {
    if IsMarker(s[k..]) then Some(k)
    else if k == |s| then None
    else MarkerFrom(s, k + 1)
  }

  /** The search misses no match: it finds one at or before every position where a marker starts. */
  lemma {:induction false} MarkerFromLeftmost(s: string, k: nat, j: nat)
    requires k <= j <= |s| && IsMarker(s[j..])
    ensures MarkerFrom(s, k).Some? && MarkerFrom(s, k).value <= j
    decreases |s| - k
  {
    if !IsMarker(s[k..]) {
      MarkerFromLeftmost(s, k + 1, j);
    }
  }

  /** Inside a marker there is no opening parenthesis: only digits, the slash and ')'. */
  lemma {:induction false} MarkerInnerChars(m: string, d: nat)
    requires IsMarker(m) && 0 < d < |m|
    ensures m[d] != '('
  {
    if d < |m| - 1 {
      var r := m[1..|m| - 1];
      var p :| 0 < p < |r| - 1 && r[p] == '/' && AllDigits(r[..p]) && AllDigits(r[p + 1..]);
      assert m[d] == r[d - 1];
      if d - 1 < p {
        assert r[..p][d - 1] == r[d - 1];
      } else if d - 1 > p {
        assert r[p + 1..][d - 2 - p] == r[d - 1];
      }
    }
  }

  /** A line ends in at most one marker: no marker is a proper suffix of another. */
  lemma {:induction false} MarkerUnique(s: string, i: nat, j: nat)
    requires i <= j <= |s| && IsMarker(s[i..]) && IsMarker(s[j..])
    ensures i == j
  {
    if i < j {
      assert s[i..][j - i] == s[j];
      MarkerInnerChars(s[i..], j - i);
    }
  }

  /** `slide_number.replace(line, "")`: the line without a trailing "(digits/digits)". */
  function StripMarker(s: string): (r: string)
    ensures |r| <= |s| && r == s[..|r|]
    ensures |r| < |s| ==> IsMarker(s[|r|..])
  {
    match MarkerFrom(s, 0)
    case Some(k) => s[..k]
    case None => s
  }

  /** What is removed is the whole of the line's marker: nothing that ends the line as a marker stays. */
  lemma {:induction false} StripMarkerLeftmost(s: string, j: nat)
    requires j <= |s| && IsMarker(s[j..])
    ensures |StripMarker(s)| <= j
  {
    MarkerFromLeftmost(s, 0, j);
  }

  /** A line that does not end in a marker is left unchanged. */
  lemma {:induction false} StripMarkerNone(s: string)
    requires forall j :: 0 <= j <= |s| ==> !IsMarker(s[j..])
    ensures StripMarker(s) == s
  {
  }

  /** Text followed by a marker loses exactly that marker. */
  lemma {:induction false} StripMarkerOf(p: string, m: string)
    requires IsMarker(m)
    ensures StripMarker(p + m) == p
  {
    var s := p + m;
    assert s[|p|..] == m;
    StripMarkerLeftmost(s, |p|);
    var r := StripMarker(s);
    MarkerUnique(s, |r|, |p|);
    assert s[..|p|] == p;
  }

  /** The normalised title of a heading: its marker removed, then trimmed. */
  function Normalize(line: string): string {
    Trim(StripMarker(line))
  }

  /** `format!("{} ({}/{})", title, k, n)`. */
  function Numbered(title: string, k: nat, n: nat): string {
    title + " " + Marker(k, n)
  }

  function Marker(k: nat, n: nat): string {
    "(" + Decimal(k) + "/" + Decimal(n) + ")"
  }

  lemma {:induction false} MarkerIsMarker(k: nat, n: nat)
    ensures IsMarker(Marker(k, n))
  {
    var a, b := Decimal(k), Decimal(n);
    var m := Marker(k, n);
    var r := m[1..|m| - 1];
    assert r == a + "/" + b;
    assert r[|a|] == '/' && r[..|a|] == a && r[|a| + 1..] == b;
  }

  /**
   * Numbering is not stacked: a numbered title normalises back to the title, so a
   * second run replaces the "(k/n)" of the first instead of adding another.
   */
  lemma {:induction false} NormalizeNumbered(title: string, k: nat, n: nat)
    requires IsTrimmed(title)
    ensures Normalize(Numbered(title, k, n)) == title
  {
    MarkerIsMarker(k, n);
    assert Numbered(title, k, n) == (title + " ") + Marker(k, n);
    StripMarkerOf(title + " ", Marker(k, n));
    TrimTrailingWhitespace(title, " ");
  }

  /**
   * A renumbered heading normalises back to the title it was numbered from, whatever "(k/n)"
   * it was given, so "(k/n)" markers never stack.
   */
  lemma {:induction false} RenumberedTitle(line: string, k: nat, n: nat)
    ensures Normalize(Numbered(Normalize(line), k, n)) == Normalize(line)
  {
    TrimSpec(StripMarker(line));
    NormalizeNumbered(Normalize(line), k, n);
  }

  /** A marker ends the raw line or it stays: whitespace after it keeps it in the title. */
  lemma {:induction false} MarkerMustEndLine(title: string, k: nat, n: nat)
    requires IsTrimmed(title) && title != []
    ensures Normalize(Numbered(title, k, n) + " ") == Numbered(title, k, n)
  {
    var s := Numbered(title, k, n) + " ";
    forall j | 0 <= j <= |s|
      ensures !IsMarker(s[j..])
    {
      if j < |s| {
        assert s[j..][|s| - j - 1] == ' ';
      }
    }
    StripMarkerNone(s);
    assert IsTrimmed(Numbered(title, k, n));
    TrimTrailingWhitespace(Numbered(title, k, n), " ");
  }

  // ---------------------------------------------------------------- headings

  predicate Increasing(hs: seq<Heading>) {
    forall a, b :: 0 <= a < b < |hs| ==> hs[a].line < hs[b].line
  }

  /** The headings among the first `n` lines, in order, each with its normalised title. */
  function HeadingsUpTo(lines: seq<string>, prefix: string, n: nat): (hs: seq<Heading>)
    requires n <= |lines|
    ensures |hs| <= n
  {
    if n == 0 then []
    else
      var hs := HeadingsUpTo(lines, prefix, n - 1);
      if IsHeading(lines[n - 1], prefix) then hs + [Heading(n - 1, Normalize(lines[n - 1]))] else hs
  }

  lemma {:induction false} HeadingsUpToLines(lines: seq<string>, prefix: string, n: nat, j: nat)
    requires n <= |lines| && j < |HeadingsUpTo(lines, prefix, n)|
    ensures HeadingsUpTo(lines, prefix, n)[j].line < n
    ensures IsHeading(lines[HeadingsUpTo(lines, prefix, n)[j].line], prefix)
  {
    if j < |HeadingsUpTo(lines, prefix, n - 1)| {
      HeadingsUpToLines(lines, prefix, n - 1, j);
    }
  }

  lemma {:induction false} HeadingsUpToTitle(lines: seq<string>, prefix: string, n: nat, j: nat)
    requires n <= |lines| && j < |HeadingsUpTo(lines, prefix, n)|
    ensures HeadingsUpTo(lines, prefix, n)[j].line < n
    ensures HeadingsUpTo(lines, prefix, n)[j].title == Normalize(lines[HeadingsUpTo(lines, prefix, n)[j].line])
  {
    var hs := HeadingsUpTo(lines, prefix, n - 1);
    if IsHeading(lines[n - 1], prefix) {
      assert HeadingsUpTo(lines, prefix, n) == hs + [Heading(n - 1, Normalize(lines[n - 1]))];
    } else {
      assert HeadingsUpTo(lines, prefix, n) == hs;
    }
    if j < |hs| {
      HeadingsUpToTitle(lines, prefix, n - 1, j);
    }
  }

  lemma {:induction false} HeadingsUpToIncreasing(lines: seq<string>, prefix: string, n: nat)
    requires n <= |lines|
    ensures Increasing(HeadingsUpTo(lines, prefix, n))
  {
    if n > 0 {
      var hs := HeadingsUpTo(lines, prefix, n - 1);
      HeadingsUpToIncreasing(lines, prefix, n - 1);
      if IsHeading(lines[n - 1], prefix) {
        forall j | 0 <= j < |hs| ensures hs[j].line < n - 1 {
          HeadingsUpToLines(lines, prefix, n - 1, j);
        }
        var h := Heading(n - 1, Normalize(lines[n - 1]));
        IncreasingSnoc(hs, h);
        assert HeadingsUpTo(lines, prefix, n) == hs + [h];
      } else {
        assert HeadingsUpTo(lines, prefix, n) == hs;
      }
    }
  }

  lemma {:induction false} IncreasingSnoc(hs: seq<Heading>, h: Heading)
    requires Increasing(hs) && forall j :: 0 <= j < |hs| ==> hs[j].line < h.line
    ensures Increasing(hs + [h])
  {
  }

  /** No heading line is missed. */
  lemma {:induction false} HeadingsUpToComplete(lines: seq<string>, prefix: string, n: nat, i: nat)
      returns (j: nat)
    requires i < n <= |lines| && IsHeading(lines[i], prefix)
    ensures j < |HeadingsUpTo(lines, prefix, n)| && HeadingsUpTo(lines, prefix, n)[j].line == i
  {
    var hs := HeadingsUpTo(lines, prefix, n - 1);
    if i == n - 1 {
      j := |hs|;
      assert HeadingsUpTo(lines, prefix, n) == hs + [Heading(i, Normalize(lines[i]))];
    } else {
      j := HeadingsUpToComplete(lines, prefix, n - 1, i);
    }
  }

  /** The heading lines of a file: those starting with the prefix, normalised. */
  function Headings(lines: seq<string>, prefix: string): seq<Heading> {
    HeadingsUpTo(lines, prefix, |lines|)
  }

  /**
   * The headings are exactly the lines that start with the prefix, in line order, each
   * carrying its normalised title.
   */
  lemma {:induction false} HeadingsAre(lines: seq<string>, prefix: string)
    ensures var hs := Headings(lines, prefix);
            Increasing(hs)
            && (forall j :: 0 <= j < |hs| ==>
                  hs[j].line < |lines| && IsHeading(lines[hs[j].line], prefix)
                  && hs[j].title == Normalize(lines[hs[j].line]))
            && (forall i :: 0 <= i < |lines| && IsHeading(lines[i], prefix) ==>
                  exists j :: 0 <= j < |hs| && hs[j].line == i)
  {
    var hs := Headings(lines, prefix);
    HeadingsUpToIncreasing(lines, prefix, |lines|);
    forall j | 0 <= j < |hs|
      ensures hs[j].line < |lines| && IsHeading(lines[hs[j].line], prefix)
              && hs[j].title == Normalize(lines[hs[j].line])
    {
      HeadingsUpToLines(lines, prefix, |lines|, j);
      HeadingsUpToTitle(lines, prefix, |lines|, j);
    }
    forall i | 0 <= i < |lines| && IsHeading(lines[i], prefix)
      ensures exists j :: 0 <= j < |hs| && hs[j].line == i
    {
      var j := HeadingsUpToComplete(lines, prefix, |lines|, i);
    }
  }

  // ---------------------------------------------------------------- run-length grouping

  /** The headings a group stands for. */
  function Members(g: Group): seq<Heading> {
    seq(|g.lines|, k requires 0 <= k < |g.lines| => Heading(g.lines[k], g.title))
  }

  /** The headings a sequence of groups stands for, in order. */
  function Expand(gs: seq<Group>): seq<Heading> {
    if gs == [] then [] else Expand(gs[..|gs| - 1]) + Members(gs[|gs| - 1])
  }

  /**
   * `gs` is the run-length encoding of `hs`: the groups stand for exactly the headings,
   * in order, no group is empty, and neighbouring groups have different titles (so every
   * group is a maximal run of equal titles).
   */
  predicate IsRunLength(gs: seq<Group>, hs: seq<Heading>) {
    && (forall j :: 0 <= j < |gs| ==> gs[j].lines != [])
    && (forall j :: 0 < j < |gs| ==> gs[j - 1].title != gs[j].title)
    && Expand(gs) == hs
  }

  /** One step of the fold: join the last group when the title repeats, else open a group. */
  function Extend(acc: seq<Group>, h: Heading): seq<Group> {
    if acc != [] && acc[|acc| - 1].title == h.title then
      acc[..|acc| - 1] + [Group(acc[|acc| - 1].lines + [h.line], h.title)]
    else
      acc + [Group([h.line], h.title)]
  }

  /** The run-length encoding the fold computes. */
  function RunLength(hs: seq<Heading>): seq<Group> {
    if hs == [] then [] else Extend(RunLength(hs[..|hs| - 1]), hs[|hs| - 1])
  }

  lemma {:induction false} MembersSnoc(ls: seq<nat>, x: nat, t: string)
    ensures Members(Group(ls + [x], t)) == Members(Group(ls, t)) + [Heading(x, t)]
  {
  }

  lemma {:induction false} ExpandSnoc(gs: seq<Group>, g: Group)
    ensures Expand(gs + [g]) == Expand(gs) + Members(g)
  {
    assert (gs + [g])[..|gs|] == gs;
  }

  /** Each step of the fold keeps the accumulator a run-length encoding of what it has seen. */
  lemma {:induction false} ExtendKeepsRuns(acc: seq<Group>, hs: seq<Heading>, h: Heading)
    requires IsRunLength(acc, hs)
    ensures IsRunLength(Extend(acc, h), hs + [h])
  {
    if acc != [] && acc[|acc| - 1].title == h.title {
      JoinKeepsRuns(acc, hs, h);
    } else {
      ExpandSnoc(acc, Group([h.line], h.title));
    }
  }

  lemma {:induction false} JoinKeepsRuns(acc: seq<Group>, hs: seq<Heading>, h: Heading)
    requires IsRunLength(acc, hs)
    requires acc != [] && acc[|acc| - 1].title == h.title
    ensures IsRunLength(acc[..|acc| - 1] + [Group(acc[|acc| - 1].lines + [h.line], h.title)], hs + [h])
  {
    var init, last := acc[..|acc| - 1], acc[|acc| - 1];
    var last' := Group(last.lines + [h.line], h.title);
    var r := init + [last'];
    assert acc == init + [last];
    ExpandSnoc(init, last);
    ExpandSnoc(init, last');
    MembersSnoc(last.lines, h.line, h.title);
    assert Expand(r) == Expand(init) + Members(last) + [h];
    forall j | 0 < j < |r| ensures r[j - 1].title != r[j].title {
      assert r[j - 1].title == acc[j - 1].title && r[j].title == acc[j].title;
    }
  }

  /** The fold yields the run-length encoding of the headings. */
  lemma {:induction false} RunLengthIsRuns(hs: seq<Heading>)
    ensures IsRunLength(RunLength(hs), hs)
  {
    if hs != [] {
      var init := hs[..|hs| - 1];
      RunLengthIsRuns(init);
      ExtendKeepsRuns(RunLength(init), init, hs[|hs| - 1]);
      assert init + [hs[|hs| - 1]] == hs;
    }
  }

  /** A run-length encoding is unique: any grouping with the three properties is the fold's. */
  lemma {:induction false} RunLengthUnique(gs: seq<Group>, hs: seq<Heading>)
    requires IsRunLength(gs, hs)
    ensures gs == RunLength(hs)
    decreases |hs|
  {
    if gs == [] {
      assert hs == [];
    } else {
      if |gs[|gs| - 1].lines| == 1 {
        DropLastGroup(gs, hs);
        RunLengthUnique(gs[..|gs| - 1], hs[..|hs| - 1]);
        ExtendOpens(gs, hs);
      } else {
        var b := DropLastLine(gs, hs);
        RunLengthUnique(b, hs[..|hs| - 1]);
        ExtendJoins(gs, hs, b);
      }
    }
  }

  /** The fold opens the last group when it holds one heading. */
  lemma {:induction false} ExtendOpens(gs: seq<Group>, hs: seq<Heading>)
    requires hs != [] && gs != []
    requires gs == gs[..|gs| - 1] + [Group([hs[|hs| - 1].line], hs[|hs| - 1].title)]
    requires |gs| > 1 ==> gs[|gs| - 2].title != hs[|hs| - 1].title
    requires gs[..|gs| - 1] == RunLength(hs[..|hs| - 1])
    ensures gs == RunLength(hs)
  {
    var init, h := gs[..|gs| - 1], hs[|hs| - 1];
    assert init != [] ==> init[|init| - 1] == gs[|gs| - 2];
    assert RunLength(hs) == Extend(init, h);
  }

  /** The fold joins the last heading onto the last group when that group holds several. */
  lemma {:induction false} ExtendJoins(gs: seq<Group>, hs: seq<Heading>, b: seq<Group>)
    requires hs != [] && gs != [] && |gs[|gs| - 1].lines| > 1
    requires b == gs[..|gs| - 1] + [Group(gs[|gs| - 1].lines[..|gs[|gs| - 1].lines| - 1], gs[|gs| - 1].title)]
    requires gs[|gs| - 1] == Group(b[|b| - 1].lines + [hs[|hs| - 1].line], hs[|hs| - 1].title)
    requires b == RunLength(hs[..|hs| - 1])
    ensures gs == RunLength(hs)
  {
    assert RunLength(hs) == Extend(b, hs[|hs| - 1]);
    assert b[..|b| - 1] == gs[..|gs| - 1];
  }

  /** Removing a last group of one heading leaves a run-length encoding of the rest. */
  lemma {:induction false} DropLastGroup(gs: seq<Group>, hs: seq<Heading>)
    requires IsRunLength(gs, hs) && gs != [] && |gs[|gs| - 1].lines| == 1
    ensures hs != [] && IsRunLength(gs[..|gs| - 1], hs[..|hs| - 1])
    ensures gs == gs[..|gs| - 1] + [Group([hs[|hs| - 1].line], hs[|hs| - 1].title)]
    ensures |gs| > 1 ==> gs[|gs| - 2].title != hs[|hs| - 1].title
  {
    var init, last := gs[..|gs| - 1], gs[|gs| - 1];
    ExpandSnoc(init, last);
    assert gs == init + [last];
    assert Members(last) == [Heading(last.lines[0], last.title)];
    assert last.lines == [last.lines[0]];
  }

  /** Removing the last heading from a run of several leaves a run-length encoding of the rest. */
  lemma {:induction false} DropLastLine(gs: seq<Group>, hs: seq<Heading>) returns (b: seq<Group>)
    requires IsRunLength(gs, hs) && gs != [] && |gs[|gs| - 1].lines| > 1
    ensures hs != [] && IsRunLength(b, hs[..|hs| - 1])
    ensures b == gs[..|gs| - 1] + [Group(gs[|gs| - 1].lines[..|gs[|gs| - 1].lines| - 1], gs[|gs| - 1].title)]
    ensures gs[|gs| - 1] == Group(b[|b| - 1].lines + [hs[|hs| - 1].line], hs[|hs| - 1].title)
  {
    var init, last := gs[..|gs| - 1], gs[|gs| - 1];
    var len := |last.lines|;
    ExpandSnoc(init, last);
    assert gs == init + [last];
    var h := hs[|hs| - 1];
    assert h == Heading(last.lines[len - 1], last.title);
    var first := Group(last.lines[..len - 1], last.title);
    b := init + [first];
    ExpandSnoc(init, first);
    MembersSnoc(first.lines, h.line, h.title);
    assert last.lines == first.lines + [h.line];
    forall j | 0 < j < |b| ensures b[j - 1].title != b[j].title {
      assert b[j - 1].title == gs[j - 1].title && b[j].title == gs[j].title;
    }
  }

  /**
   * The fold of `put_index`: keep the groups in `acc`, push the line onto the last group
   * when its title repeats, otherwise push a new group.
   */
  method GroupHeadings(hs: seq<Heading>) returns (acc: seq<Group>)
    ensures IsRunLength(acc, hs)
  {
    acc := [];
    var i := 0;
    while i < |hs|
      invariant 0 <= i <= |hs|
      invariant IsRunLength(acc, hs[..i])
    {
      var h := hs[i];
      assert hs[..i + 1] == hs[..i] + [h];
      ExtendKeepsRuns(acc, hs[..i], h);
      ghost var before := acc;
      if acc != [] && acc[|acc| - 1].title == h.title {
        var last := acc[|acc| - 1];
        acc := acc[..|acc| - 1] + [Group(last.lines + [h.line], last.title)];
      } else {
        acc := acc + [Group([h.line], h.title)];
      }
      assert acc == Extend(before, h);
      i := i + 1;
    }
    assert hs[..i] == hs;
  }

  // ---------------------------------------------------------------- numbering

  /** The new text of the k-th heading (0-based) of a group. */
  function Label(g: Group, k: nat): string
    requires k < |g.lines|
  {
    if |g.lines| > 1 then Numbered(g.title, k + 1, |g.lines|) else g.title
  }

  function GroupLabels(g: Group): seq<Heading> {
    seq(|g.lines|, k requires 0 <= k < |g.lines| => Heading(g.lines[k], Label(g, k)))
  }

  /** The (line, new text) pairs the `flat_map` yields, group after group. */
  function Labels(gs: seq<Group>): seq<Heading> {
    if gs == [] then [] else Labels(gs[..|gs| - 1]) + GroupLabels(gs[|gs| - 1])
  }

  /** The labels carry the same line positions as the headings the groups stand for. */
  lemma {:induction false} LabelsLines(gs: seq<Group>)
    ensures |Labels(gs)| == |Expand(gs)|
    ensures forall j :: 0 <= j < |Labels(gs)| ==> Labels(gs)[j].line == Expand(gs)[j].line
  {
    if gs != [] {
      LabelsLines(gs[..|gs| - 1]);
    }
  }

  /** Where heading k of group g sits among the labels, and the text it gets. */
  lemma {:induction false} LabelsAt(gs: seq<Group>, g: nat, k: nat)
    requires g < |gs| && k < |gs[g].lines|
    ensures |Expand(gs[..g])| + k < |Labels(gs)|
    ensures Labels(gs)[|Expand(gs[..g])| + k] == Heading(gs[g].lines[k], Label(gs[g], k))
  {
    var init := gs[..|gs| - 1];
    LabelsLines(gs);
    LabelsLines(init);
    if g == |gs| - 1 {
      assert gs[..g] == init;
    } else {
      assert init[..g] == gs[..g];
      LabelsAt(init, g, k);
    }
  }

  /** The text that replaces line `i`, if some label names it. */
  function Find(labels: seq<Heading>, i: nat): Option<string> {
    if labels == [] then None
    else if labels[0].line == i then Some(labels[0].title)
    else Find(labels[1..], i)
  }

  lemma {:induction false} FindAt(labels: seq<Heading>, p: nat, i: nat)
    requires p < |labels| && labels[p].line == i
    requires forall j :: 0 <= j < p ==> labels[j].line != i
    ensures Find(labels, i) == Some(labels[p].title)
  {
    if p > 0 {
      FindAt(labels[1..], p - 1, i);
    }
  }

  lemma {:induction false} FindAbsent(labels: seq<Heading>, i: nat)
    requires forall j :: 0 <= j < |labels| ==> labels[j].line != i
    ensures Find(labels, i) == None
  {
    if labels != [] {
      FindAbsent(labels[1..], i);
    }
  }

  /** Every line a label names replaced by the label's text, the others kept. */
  function Relabel(lines: seq<string>, labels: seq<Heading>): (r: seq<string>)
    ensures |r| == |lines|
  {
    seq(|lines|, i requires 0 <= i < |lines| => Find(labels, i).UnwrapOr(lines[i]))
  }

  lemma {:induction false} RelabelAt(lines: seq<string>, labels: seq<Heading>, p: nat)
    requires Increasing(labels) && p < |labels| && labels[p].line < |lines|
    ensures Relabel(lines, labels)[labels[p].line] == labels[p].title
  {
    FindAt(labels, p, labels[p].line);
  }

  /** `"1. " + title.trim_start_matches(prefix).trim()`: one entry of the table of contents. */
  function TocEntry(title: string, prefix: string): string {
    "1. " + Trim(TrimStartMatches(title, prefix))
  }

  /** The entries of the table of contents: one per group, in order. */
  function TocEntries(gs: seq<Group>, prefix: string): (es: seq<string>)
    ensures |es| == |gs|
  {
    if gs == [] then [] else TocEntries(gs[..|gs| - 1], prefix) + [TocEntry(gs[|gs| - 1].title, prefix)]
  }

  lemma {:induction false} TocEntriesAt(gs: seq<Group>, prefix: string, j: nat)
    requires j < |gs|
    ensures TocEntries(gs, prefix)[j] == TocEntry(gs[j].title, prefix)
  {
    if j < |gs| - 1 {
      TocEntriesAt(gs[..|gs| - 1], prefix, j);
    }
  }

  /** The table of contents: every entry followed by a line feed. */
  function TocText(gs: seq<Group>, prefix: string): string {
    Terminated(TocEntries(gs, prefix))
  }

  /**
   * The whole transform on the lines of a slide file: the rewritten lines, with one empty
   * line appended, and the table of contents.
   */
  function Numbering(lines: seq<string>, prefix: string): (seq<string>, string) {
    var gs := RunLength(Headings(lines, prefix));
    (Relabel(lines, Labels(gs)) + [""], TocText(gs, prefix))
  }

  /**
   * `put_index` without its file read and write: number the headings of the slide text in
   * place, append an empty line, join with line feeds, and return the table of contents.
   */
  method PutIndex(text: string, titlePrefix: Option<string>) returns (content: string, toc: string)
    ensures var result := Numbering(Lines(text), TitlePrefix(titlePrefix));
            content == Join(result.0, "\n") && toc == result.1
  {
    var ls := Lines(text);
    var lines := new string[|ls|](i requires 0 <= i < |ls| => ls[i]);
    assert lines[..] == ls;
    var prefix := TitlePrefix(titlePrefix);

    var headings := Headings(lines[..], prefix);
    HeadingsAre(lines[..], prefix);
    var groups := GroupHeadings(headings);
    RunLengthUnique(groups, headings);

    var titles;
    toc, titles := TocAndLabels(groups, prefix);
    LabelsIncreasing(groups, headings);
    Overwrite(lines, titles);
    content := Join(lines[..] + [""], "\n");
  }

  /**
   * The `flat_map` over the groups: push one table-of-contents entry per group and yield
   * each heading's line with its new text, "(k/n)" appended when the group has n > 1 lines.
   */
  method TocAndLabels(groups: seq<Group>, prefix: string) returns (toc: string, titles: seq<Heading>)
    ensures toc == TocText(groups, prefix)
    ensures titles == Labels(groups)
  {
    toc := "";
    titles := [];
    var j := 0;
    while j < |groups|
      invariant 0 <= j <= |groups|
      invariant toc == TocText(groups[..j], prefix)
      invariant titles == Labels(groups[..j])
    {
      var g := groups[j];
      assert groups[..j + 1] == groups[..j] + [g];
      TocTextSnoc(groups[..j], g, prefix);
      LabelsSnoc(groups[..j], g);
      toc := toc + TocEntry(g.title, prefix) + "\n";
      var block := GroupBlock(g);
      titles := titles + block;
      j := j + 1;
    }
    assert groups[..j] == groups;
  }

  /**
   * The iterator the `flat_map` closure returns for one group: each line with
   * "title (k/n)" when the group has n > 1 lines, else with the title alone.
   */
  method GroupBlock(g: Group) returns (block: seq<Heading>)
    ensures block == GroupLabels(g)
  {
    var n := |g.lines|;
    if n > 1 {
      block := seq(n, k requires 0 <= k < n => Heading(g.lines[k], Numbered(g.title, k + 1, n)));
    } else {
      block := seq(n, k requires 0 <= k < n => Heading(g.lines[k], g.title));
    }
  }

  lemma {:induction false} LabelsSnoc(gs: seq<Group>, g: Group)
    ensures Labels(gs + [g]) == Labels(gs) + GroupLabels(g)
  {
    assert (gs + [g])[..|gs|] == gs;
  }

  lemma {:induction false} TocTextSnoc(gs: seq<Group>, g: Group, prefix: string)
    ensures TocText(gs + [g], prefix) == TocText(gs, prefix) + TocEntry(g.title, prefix) + "\n"
  {
    assert (gs + [g])[..|gs|] == gs;
    TerminatedSnoc(TocEntries(gs, prefix), TocEntry(g.title, prefix));
  }

  /** The labels of a run-length encoding are in line order, as the headings are. */
  lemma {:induction false} LabelsIncreasing(gs: seq<Group>, hs: seq<Heading>)
    requires IsRunLength(gs, hs) && Increasing(hs)
    ensures |Labels(gs)| == |hs| && Increasing(Labels(gs))
    ensures forall t :: 0 <= t < |hs| ==> Labels(gs)[t].line == hs[t].line
  {
    LabelsLines(gs);
  }

  /**
   * The `for_each` over `lines.iter_mut()`: walk the lines and the labels together, and
   * overwrite line i when the next label names it.
   */
  method Overwrite(lines: array<string>, titles: seq<Heading>)
    requires Increasing(titles)
    requires forall t :: 0 <= t < |titles| ==> titles[t].line < lines.Length
    modifies lines
    ensures lines[..] == Relabel(old(lines[..]), titles)
  {
    ghost var original := lines[..];
    var p, i := 0, 0;
    while i < lines.Length
      invariant 0 <= i <= lines.Length && 0 <= p <= |titles|
      invariant forall t :: 0 <= t < p ==> titles[t].line < i
      invariant p < |titles| ==> titles[p].line >= i
      invariant forall k :: 0 <= k < i ==> lines[k] == Relabel(original, titles)[k]
      invariant forall k :: i <= k < lines.Length ==> lines[k] == original[k]
    {
      if p < |titles| && titles[p].line == i {
        FindAt(titles, p, i);
        lines[i] := titles[p].title;
        p := p + 1;
      } else {
        FindAbsent(titles, i);
      }
      i := i + 1;
    }
  }

  // ---------------------------------------------------------------- properties of the transform

  /**
   * Lines that do not start with the prefix come out unchanged; the output has one line
   * more than the input, and that last line is empty.
   */
  lemma {:induction false} NumberingKeepsOtherLines(lines: seq<string>, prefix: string)
    ensures var out := Numbering(lines, prefix).0;
            |out| == |lines| + 1 && out[|lines|] == ""
            && forall i :: 0 <= i < |lines| && !IsHeading(lines[i], prefix) ==> out[i] == lines[i]
  {
    var hs := Headings(lines, prefix);
    var gs := RunLength(hs);
    HeadingsAre(lines, prefix);
    RunLengthIsRuns(hs);
    LabelsLines(gs);
    forall i | 0 <= i < |lines| && !IsHeading(lines[i], prefix)
      ensures Relabel(lines, Labels(gs))[i] == lines[i]
    {
      FindAbsent(Labels(gs), i);
    }
  }

  /**
   * The headings fall into maximal runs of equal normalised titles (consecutive among the
   * heading lines); in a run of n > 1 the k-th heading becomes "title (k/n)", and a run of
   * one becomes its normalised title.
   */
  lemma {:induction false} NumberingHeadings(lines: seq<string>, prefix: string)
    ensures var hs := Headings(lines, prefix);
            var gs := RunLength(hs);
            var out := Numbering(lines, prefix).0;
            IsRunLength(gs, hs)
            && forall g, k :: 0 <= g < |gs| && 0 <= k < |gs[g].lines| ==>
                 gs[g].lines[k] < |lines|
                 && out[gs[g].lines[k]]
                    == if |gs[g].lines| > 1 then Numbered(gs[g].title, k + 1, |gs[g].lines|)
                       else gs[g].title
  {
    var hs := Headings(lines, prefix);
    var gs := RunLength(hs);
    HeadingsAre(lines, prefix);
    RunLengthIsRuns(hs);
    forall g, k | 0 <= g < |gs| && 0 <= k < |gs[g].lines|
      ensures gs[g].lines[k] < |lines| && Relabel(lines, Labels(gs))[gs[g].lines[k]] == Label(gs[g], k)
    {
      RelabelGroupMember(lines, hs, gs, g, k);
    }
  }

  lemma {:induction false} RelabelGroupMember(lines: seq<string>, hs: seq<Heading>, gs: seq<Group>, g: nat, k: nat)
    requires IsRunLength(gs, hs) && Increasing(hs)
    requires forall j :: 0 <= j < |hs| ==> hs[j].line < |lines|
    requires g < |gs| && k < |gs[g].lines|
    ensures gs[g].lines[k] < |lines| && Relabel(lines, Labels(gs))[gs[g].lines[k]] == Label(gs[g], k)
  {
    LabelsIncreasing(gs, hs);
    LabelsAt(gs, g, k);
    RelabelAt(lines, Labels(gs), |Expand(gs[..g])| + k);
  }

  lemma {:induction false} NoNewlineInfix(s: string, i: nat, j: nat)
    requires i <= j <= |s| && '\n' !in s
    ensures '\n' !in s[i..j]
  {
  }

  lemma {:induction false} TrimNoNewline(s: string)
    requires '\n' !in s
    ensures '\n' !in Trim(s)
  {
    var i := TrimInfix(s);
    NoNewlineInfix(s, i, i + |Trim(s)|);
  }

  lemma {:induction false} NormalizeNoNewline(line: string)
    requires '\n' !in line
    ensures '\n' !in Normalize(line)
  {
    NoNewlineInfix(line, 0, |StripMarker(line)|);
    TrimNoNewline(StripMarker(line));
  }

  lemma {:induction false} TocEntryPlain(title: string, prefix: string)
    requires '\n' !in title
    ensures IsPlainLine(TocEntry(title, prefix))
  {
    var t := TrimStartMatches(title, prefix);
    TrimStartMatchesSuffix(title, prefix);
    NoNewlineInfix(title, |title| - |t|, |title|);
    TrimNoNewline(t);
    TrimSpec(t);
  }

  /**
   * The table of contents has exactly one line per group, in document order: "1. " and the
   * group's title with leading copies of the prefix and surrounding whitespace removed.
   */
  lemma {:induction false} NumberingToc(lines: seq<string>, prefix: string)
    requires forall i :: 0 <= i < |lines| ==> '\n' !in lines[i]
    ensures var gs := RunLength(Headings(lines, prefix));
            var toc := Numbering(lines, prefix).1;
            |Lines(toc)| == Count(toc, '\n') == |gs|
            && forall j :: 0 <= j < |gs| ==> Lines(toc)[j] == TocEntry(gs[j].title, prefix)
  {
    var hs := Headings(lines, prefix);
    var gs := RunLength(hs);
    HeadingsAre(lines, prefix);
    RunLengthIsRuns(hs);
    var entries := TocEntries(gs, prefix);
    forall j | 0 <= j < |gs| ensures IsPlainLine(entries[j]) && entries[j] == TocEntry(gs[j].title, prefix) {
      TocEntriesAt(gs, prefix, j);
      GroupTitleNoNewline(lines, hs, gs, j);
      TocEntryPlain(gs[j].title, prefix);
    }
    LinesOfTerminated(entries);
    TerminatedLineFeeds(entries);
  }

  /** A group's title is the normalised title of a heading line, so it has no line feed. */
  lemma {:induction false} GroupTitleNoNewline(lines: seq<string>, hs: seq<Heading>, gs: seq<Group>, j: nat)
    requires forall i :: 0 <= i < |lines| ==> '\n' !in lines[i]
    requires IsRunLength(gs, hs)
    requires forall t :: 0 <= t < |hs| ==>
               hs[t].line < |lines| && hs[t].title == Normalize(lines[hs[t].line])
    requires j < |gs|
    ensures '\n' !in gs[j].title
  {
    ExpandAt(gs, j, 0);
    NormalizeNoNewline(lines[hs[|Expand(gs[..j])|].line]);
  }

  /** A numbered title has a line feed only where its title does: the marker holds digits, '/', '(' and ')'. */
  lemma {:induction false} NumberedNoNewline(title: string, k: nat, n: nat)
    requires '\n' !in title
    ensures '\n' !in Numbered(title, k, n)
  {
    var a, b := Decimal(k), Decimal(n);
    assert '\n' !in a && '\n' !in b by {
      forall i | 0 <= i < |a| ensures a[i] != '\n' { assert IsDigit(a[i]); }
      forall i | 0 <= i < |b| ensures b[i] != '\n' { assert IsDigit(b[i]); }
    }
    assert Numbered(title, k, n) == title + " " + ("(" + a + "/" + b + ")");
  }

  /** The new texts of groups whose titles hold no line feed hold none either. */
  lemma {:induction false} LabelsNoNewline(gs: seq<Group>)
    requires forall g :: 0 <= g < |gs| ==> '\n' !in gs[g].title
    ensures forall t :: 0 <= t < |Labels(gs)| ==> '\n' !in Labels(gs)[t].title
  {
    if gs != [] {
      var init, last := gs[..|gs| - 1], gs[|gs| - 1];
      LabelsNoNewline(init);
      var block := GroupLabels(last);
      forall k | 0 <= k < |block| ensures '\n' !in block[k].title {
        if |last.lines| > 1 {
          NumberedNoNewline(last.title, k + 1, |last.lines|);
        }
      }
      assert Labels(gs) == Labels(init) + block;
    }
  }

  lemma {:induction false} FindNoNewline(labels: seq<Heading>, i: nat)
    requires forall t :: 0 <= t < |labels| ==> '\n' !in labels[t].title
    ensures Find(labels, i).Some? ==> '\n' !in Find(labels, i).value
  {
    if labels != [] && labels[0].line != i {
      FindNoNewline(labels[1..], i);
    }
  }

  /**
   * The file content holds exactly one line feed per input line (the input lines being
   * what `str::lines` returns, so free of line feeds): none is added or lost by numbering.
   */
  lemma {:induction false} NumberingLineFeeds(lines: seq<string>, prefix: string)
    requires forall i :: 0 <= i < |lines| ==> '\n' !in lines[i]
    ensures Count(Join(Numbering(lines, prefix).0, "\n"), '\n') == |lines|
  {
    var hs := Headings(lines, prefix);
    var gs := RunLength(hs);
    HeadingsAre(lines, prefix);
    RunLengthIsRuns(hs);
    forall j | 0 <= j < |gs| ensures '\n' !in gs[j].title {
      GroupTitleNoNewline(lines, hs, gs, j);
    }
    LabelsNoNewline(gs);
    var out := Numbering(lines, prefix).0;
    forall i | 0 <= i < |lines| ensures '\n' !in out[..|lines|][i] {
      FindNoNewline(Labels(gs), i);
    }
    NumberingContent(lines, prefix);
    TerminatedLineFeeds(out[..|lines|]);
  }

  /** Heading k of group g is the heading at offset |Expand(gs[..g])| + k. */
  lemma {:induction false} ExpandAt(gs: seq<Group>, g: nat, k: nat)
    requires g < |gs| && k < |gs[g].lines|
    ensures |Expand(gs[..g])| + k < |Expand(gs)|
    ensures Expand(gs)[|Expand(gs[..g])| + k] == Heading(gs[g].lines[k], gs[g].title)
  {
    var init := gs[..|gs| - 1];
    if g == |gs| - 1 {
      assert gs[..g] == init;
    } else {
      assert init[..g] == gs[..g];
      ExpandAt(init, g, k);
    }
  }

  /**
   * The file content ends with a line feed and holds one line feed per input line: the
   * appended empty line makes the join terminate every line.
   */
  lemma {:induction false} NumberingContent(lines: seq<string>, prefix: string)
    ensures var out := Numbering(lines, prefix).0;
            Join(out, "\n") == Terminated(out[..|lines|])
  {
    var out := Numbering(lines, prefix).0;
    assert out == out[..|lines|] + [""];
    JoinWithEmptyLast(out[..|lines|]);
  }
}
