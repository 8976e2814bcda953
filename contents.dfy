/**
 * The document splitter of `SlideContents::try_from`: a slide document is a
 * frontmatter block followed by pages, every block opened by a line of three or
 * more hyphens.
 */
module Contents {
  import opened Wrappers
  import opened Text

  /** One page of a slide, its text trimmed. */
  datatype SlidePage = SlidePage(contents: string)

  /** A split document: the frontmatter kept verbatim, then the pages in order. */
  datatype SlideContents = SlideContents(frontmatter: string, pages: seq<SlidePage>)

  /** The one way splitting fails ("Frontmatter is missing"). */
  datatype Error = MissingFrontmatter

  /** The separator pattern `^-{3,}$` applied to one line. */
  predicate IsSeparator(line: string) {
    |line| >= 3 && forall k :: 0 <= k < |line| ==> line[k] == '-'
  }

  predicate NoSeparator(lines: seq<string>) {
    forall k :: 0 <= k < |lines| ==> !IsSeparator(lines[k])
  }

  function SeparatorCount(lines: seq<string>): nat {
    if lines == [] then 0
    else (if IsSeparator(lines[0]) then 1 else 0) + SeparatorCount(lines[1..])
  }

  /** The separator lines of `lines`, in order. */
  function Separators(lines: seq<string>): (s: seq<string>)
    ensures |s| == SeparatorCount(lines)
    ensures forall k :: 0 <= k < |s| ==> IsSeparator(s[k])
  {
    if lines == [] then []
    else (if IsSeparator(lines[0]) then [lines[0]] else []) + Separators(lines[1..])
  }

  /**
   * The runs of lines between separators: run 0 is what precedes the first
   * separator, run k + 1 what follows the k-th one. No run holds a separator.
   */
  function Groups(lines: seq<string>): (g: seq<seq<string>>)
    ensures |g| == SeparatorCount(lines) + 1
  {
    if lines == [] then [[]]
    else
      var rest := Groups(lines[1..]);
      if IsSeparator(lines[0]) then [[]] + rest
      else [[lines[0]] + rest[0]] + rest[1..]
  }

  /** No run holds a separator. */
  lemma {:induction false} GroupsSeparatorFree(lines: seq<string>)
    ensures forall k :: 0 <= k < |Groups(lines)| ==> NoSeparator(Groups(lines)[k])
  {
    if lines != [] {
      GroupsSeparatorFree(lines[1..]);
      var rest := Groups(lines[1..]);
      var g := Groups(lines);
      if IsSeparator(lines[0]) {
        assert g == [[]] + rest;
        forall k | 1 <= k < |g| ensures NoSeparator(g[k]) {
          assert g[k] == rest[k - 1];
        }
      } else {
        assert g == [[lines[0]] + rest[0]] + rest[1..];
        assert NoSeparator(rest[0]);
        forall k | 0 <= k < |g[0]| ensures !IsSeparator(g[0][k]) {
          if k > 0 { assert g[0][k] == rest[0][k - 1]; }
        }
        forall k | 1 <= k < |g| ensures NoSeparator(g[k]) {
          assert g[k] == rest[k];
          assert NoSeparator(rest[k]);
        }
      }
    }
  }

  /** A document laid out block by block: separator 0, block 0, separator 1, block 1, ... */
  function Interleave(seps: seq<string>, blocks: seq<seq<string>>): seq<string>
    requires |seps| == |blocks|
  {
    if seps == [] then [] else [seps[0]] + blocks[0] + Interleave(seps[1..], blocks[1..])
  }

  /** The specification of `try_from`: fail without frontmatter, else frontmatter and trimmed pages. */
  function Parse(value: string): Result<SlideContents, Error> {
    FromGroups(Groups(Lines(value)))
  }

  /** The outcome of splitting a document whose runs between separators are `g`. */
  function FromGroups(g: seq<seq<string>>): Result<SlideContents, Error>
    requires |g| >= 1
  {
    if g[0] != [] || |g| < 3 then Err(MissingFrontmatter)
    else
      Ok(SlideContents(
           Terminated(g[1]),
           seq(|g| - 2, k requires 0 <= k < |g| - 2 => SlidePage(Trim(Terminated(g[k + 2]))))))
  }

  /**
   * `SlideContents::try_from`: open a new segment at each separator, append every other
   * line with its line feed to the open segment, fail on a line before the first
   * separator or when fewer than two segments were opened; the first segment is the
   * frontmatter and the others, trimmed, are the pages.
   */
  method TryFrom(value: string) returns (r: Result<SlideContents, Error>)
    ensures r == Parse(value)
  {
    var lines := Lines(value);
    var splitted: seq<string> := [];
    var i := 0;
    while i < |lines|
      invariant 0 <= i <= |lines|
      invariant Groups(lines[..i])[0] == []
      invariant splitted == OpenSegments(Groups(lines[..i]))
    {
      var line := lines[i];
      if IsSeparator(line) {
        StepSeparator(lines, i, splitted);
        splitted := splitted + [""];
      } else if splitted != [] {
        StepLine(lines, i, splitted);
        var n := |splitted| - 1;
        splitted := splitted[..n] + [splitted[n] + line + "\n"];
      } else {
        StepMissing(lines, i, splitted);
        return Err(MissingFrontmatter);
      }
      i := i + 1;
    }
    assert lines[..i] == lines;
    ParseOfSegments(value, splitted);
    if |splitted| < 2 {
      return Err(MissingFrontmatter);
    }
    var frontmatter := splitted[0];
    splitted := splitted[1..];
    var pages := seq(|splitted|, k requires 0 <= k < |splitted| => SlidePage(Trim(splitted[k])));
    r := Ok(SlideContents(frontmatter, pages));
  }

  /** A separator opens a new, empty segment. */
  lemma StepSeparator(lines: seq<string>, i: nat, splitted: seq<string>)
    requires i < |lines| && IsSeparator(lines[i])
    requires Groups(lines[..i])[0] == [] && splitted == OpenSegments(Groups(lines[..i]))
    ensures Groups(lines[..i + 1])[0] == [] && splitted + [""] == OpenSegments(Groups(lines[..i + 1]))
  {
    assert lines[..i + 1] == lines[..i] + [lines[i]];
    GroupsSnocSeparator(lines[..i], lines[i]);
    OpenSegmentsSeparator(Groups(lines[..i]));
  }

  /** Another line, once a segment is open, is appended to the last segment with its line feed. */
  lemma StepLine(lines: seq<string>, i: nat, splitted: seq<string>)
    requires i < |lines| && !IsSeparator(lines[i]) && splitted != []
    requires Groups(lines[..i])[0] == [] && splitted == OpenSegments(Groups(lines[..i]))
    ensures var n := |splitted| - 1;
            Groups(lines[..i + 1])[0] == []
            && splitted[..n] + [splitted[n] + lines[i] + "\n"] == OpenSegments(Groups(lines[..i + 1]))
  {
    assert lines[..i + 1] == lines[..i] + [lines[i]];
    GroupsSnocLine(lines[..i], lines[i]);
    OpenSegmentsLine(Groups(lines[..i]), lines[i]);
  }

  /** A line before any separator puts text in front of the frontmatter. */
  lemma StepMissing(lines: seq<string>, i: nat, splitted: seq<string>)
    requires i < |lines| && !IsSeparator(lines[i]) && splitted == []
    requires Groups(lines[..i])[0] == [] && splitted == OpenSegments(Groups(lines[..i]))
    ensures Groups(lines)[0] != []
  {
    assert lines[..i + 1] == lines[..i] + [lines[i]];
    GroupsSnocLine(lines[..i], lines[i]);
    GroupZeroGrows(lines, i + 1, |lines|);
    assert lines[..|lines|] == lines;
  }

  /** Once every line is read, the open segments decide the result. */
  lemma ParseOfSegments(value: string, splitted: seq<string>)
    requires Groups(Lines(value))[0] == [] && splitted == OpenSegments(Groups(Lines(value)))
    ensures |splitted| < 2 ==> Parse(value) == Err(MissingFrontmatter)
    ensures |splitted| >= 2 ==>
              var rest := splitted[1..];
              Parse(value)
              == Ok(SlideContents(splitted[0], seq(|rest|, k requires 0 <= k < |rest| => SlidePage(Trim(rest[k])))))
  {
    var g := Groups(Lines(value));
    if |splitted| >= 2 {
      var rest := splitted[1..];
      var pages := seq(|rest|, k requires 0 <= k < |rest| => SlidePage(Trim(rest[k])));
      var spec := seq(|g| - 2, k requires 0 <= k < |g| - 2 => SlidePage(Trim(Terminated(g[k + 2]))));
      forall k | 0 <= k < |rest| ensures pages[k] == spec[k] {
        assert rest[k] == splitted[k + 1] == Terminated(g[k + 2]);
      }
      assert pages == spec;
    }
  }

  /** The segments `try_from` has open for runs `g`: every run after the first, terminated. */
  function OpenSegments(g: seq<seq<string>>): (s: seq<string>)
    requires |g| >= 1
    ensures |s| == |g| - 1
  {
    seq(|g| - 1, k requires 0 <= k < |g| - 1 => Terminated(g[k + 1]))
  }

  lemma OpenSegmentsSeparator(g: seq<seq<string>>)
    requires |g| >= 1
    ensures OpenSegments(g + [[]]) == OpenSegments(g) + [""]
  {
    assert (g + [[]])[|g|] == [];
  }

  lemma OpenSegmentsLine(g: seq<seq<string>>, l: string)
    requires |g| >= 2
    ensures var s, n := OpenSegments(g), |g| - 1;
            OpenSegments(g[..n] + [g[n] + [l]]) == s[..n - 1] + [s[n - 1] + l + "\n"]
  {
    var n := |g| - 1;
    TerminatedSnoc(g[n], l);
    var s := OpenSegments(g);
    var s' := OpenSegments(g[..n] + [g[n] + [l]]);
    forall k | 0 <= k < n
      ensures s'[k] == (s[..n - 1] + [s[n - 1] + l + "\n"])[k]
    {
      if k < n - 1 {
        assert (g[..n] + [g[n] + [l]])[k + 1] == g[k + 1];
      }
    }
  }

  // ---------------------------------------------------------------- lemmas about Groups

  /** One more line either opens a new run (a separator) or extends the last run. */
  lemma GroupsSnoc(lines: seq<string>, l: string)
    ensures var g := Groups(lines);
            Groups(lines + [l])
            == if IsSeparator(l) then g + [[]] else g[..|g| - 1] + [g[|g| - 1] + [l]]
  {
    if IsSeparator(l) {
      GroupsSnocSeparator(lines, l);
    } else {
      GroupsSnocLine(lines, l);
    }
  }

  lemma {:induction false} GroupsSnocSeparator(lines: seq<string>, l: string)
    requires IsSeparator(l)
    ensures Groups(lines + [l]) == Groups(lines) + [[]]
  {
    if lines == [] {
      assert [l][1..] == [];
    } else {
      assert (lines + [l])[1..] == lines[1..] + [l];
      GroupsSnocSeparator(lines[1..], l);
      var g' := Groups(lines[1..]);
      if !IsSeparator(lines[0]) {
        assert (g' + [[]])[1..] == g'[1..] + [[]];
      }
    }
  }

  lemma {:induction false} GroupsSnocLine(lines: seq<string>, l: string)
    requires !IsSeparator(l)
    ensures var g := Groups(lines);
            Groups(lines + [l]) == g[..|g| - 1] + [g[|g| - 1] + [l]]
  {
    if lines == [] {
      var none: seq<seq<string>> := [[]];
      assert lines + [l] == [l] && [l][1..] == [] && none[1..] == [];
      assert [l] + [] == [l];
      assert Groups([l]) == [[l] + []] + none[1..] == [[l]];
      var g := Groups(lines);
      assert g[..|g| - 1] + [g[|g| - 1] + [l]] == [[l]];
    } else {
      var l0, ll := lines[0], lines + [l];
      assert ll[0] == l0 && ll[1..] == lines[1..] + [l];
      GroupsSnocLine(lines[1..], l);
      var g' := Groups(lines[1..]);
      if IsSeparator(l0) {
        assert Groups(lines) == [[]] + g';
        SnocAfterSeparator(g', l);
      } else {
        assert Groups(lines) == [[l0] + g'[0]] + g'[1..];
        SnocAfterLine(l0, g', l);
      }
    }
  }

  lemma {:induction false} SnocAfterSeparator(g': seq<seq<string>>, l: string)
    requires g' != []
    ensures var h, g := g'[..|g'| - 1] + [g'[|g'| - 1] + [l]], [[]] + g';
            [[]] + h == g[..|g| - 1] + [g[|g| - 1] + [l]]
  {
    var g := [[]] + g';
    assert g[..|g| - 1] == [[]] + g'[..|g'| - 1];
  }

  lemma {:induction false} SnocAfterLine(l0: string, g': seq<seq<string>>, l: string)
    requires g' != []
    ensures var h, g := g'[..|g'| - 1] + [g'[|g'| - 1] + [l]], [[l0] + g'[0]] + g'[1..];
            [[l0] + h[0]] + h[1..] == g[..|g| - 1] + [g[|g| - 1] + [l]]
  {
    var n' := |g'|;
    var h, g := g'[..n' - 1] + [g'[n' - 1] + [l]], [[l0] + g'[0]] + g'[1..];
    if n' == 1 {
      assert h == [g'[0] + [l]];
      assert ([l0] + g'[0]) + [l] == [l0] + (g'[0] + [l]);
    } else {
      assert h[0] == g'[0];
      assert h[1..] == g'[1..n' - 1] + [g'[n' - 1] + [l]];
      assert g[..|g| - 1] == [[l0] + g'[0]] + g'[1..n' - 1];
    }
  }

  /** Run 0 only ever grows as lines are added. */
  lemma {:induction false} GroupZeroGrows(lines: seq<string>, i: nat, j: nat)
    requires i <= j <= |lines|
    ensures Groups(lines[..i])[0] <= Groups(lines[..j])[0]
    decreases j - i
  {
    if i < j {
      assert lines[..i + 1] == lines[..i] + [lines[i]];
      GroupsSnoc(lines[..i], lines[i]);
      GroupZeroGrows(lines, i + 1, j);
    }
  }

  /** A separator-free stretch is a single run. */
  lemma {:induction false} GroupsNoSeparator(lines: seq<string>)
    requires NoSeparator(lines)
    ensures Groups(lines) == [lines]
  {
    if lines != [] {
      assert NoSeparator(lines[1..]) by {
        forall k | 0 <= k < |lines| - 1 ensures !IsSeparator(lines[1..][k]) {
          assert lines[1..][k] == lines[k + 1];
        }
      }
      GroupsNoSeparator(lines[1..]);
      assert !IsSeparator(lines[0]);
      assert [lines[0]] + lines[1..] == lines;
    }
  }

  /** The runs of an interleaved layout are exactly its blocks, after what precedes it. */
  lemma {:induction false} GroupsOfInterleave(pre: seq<string>, seps: seq<string>, blocks: seq<seq<string>>)
    requires |seps| == |blocks|
    requires NoSeparator(pre)
    requires forall k :: 0 <= k < |seps| ==> IsSeparator(seps[k])
    requires forall k :: 0 <= k < |blocks| ==> NoSeparator(blocks[k])
    ensures Groups(pre + Interleave(seps, blocks)) == [pre] + blocks
    decreases |seps|, |pre|
  {
    if pre != [] {
      var lines := pre + Interleave(seps, blocks);
      assert lines[0] == pre[0] && !IsSeparator(pre[0]);
      assert lines[1..] == pre[1..] + Interleave(seps, blocks);
      assert NoSeparator(pre[1..]) by {
        forall k | 0 <= k < |pre| - 1 ensures !IsSeparator(pre[1..][k]) {
          assert pre[1..][k] == pre[k + 1];
        }
      }
      GroupsOfInterleave(pre[1..], seps, blocks);
      assert [pre[0]] + pre[1..] == pre;
    } else if seps == [] {
      assert pre + Interleave(seps, blocks) == [];
    } else {
      var lines := pre + Interleave(seps, blocks);
      assert lines == [seps[0]] + (blocks[0] + Interleave(seps[1..], blocks[1..]));
      assert lines[1..] == blocks[0] + Interleave(seps[1..], blocks[1..]);
      GroupsOfInterleave(blocks[0], seps[1..], blocks[1..]);
      assert [blocks[0]] + blocks[1..] == blocks;
    }
  }

  /** The runs lose nothing: run 0 followed by separators interleaved with the other runs is the input. */
  lemma {:induction false} GroupsReassemble(lines: seq<string>)
    ensures var g := Groups(lines);
            lines == g[0] + Interleave(Separators(lines), g[1..])
  {
    if lines != [] {
      GroupsReassemble(lines[1..]);
      var g', s' := Groups(lines[1..]), Separators(lines[1..]);
      assert lines == [lines[0]] + lines[1..];
      if IsSeparator(lines[0]) {
        ReassembleSeparator(lines[0], lines[1..], g', s');
      } else {
        assert Separators(lines) == [] + s' == s';
        assert Groups(lines) == [[lines[0]] + g'[0]] + g'[1..];
        ReassembleLine(lines[0], lines[1..], g', s');
      }
    }
  }

  lemma {:induction false} ReassembleSeparator(l: string, rest: seq<string>, g': seq<seq<string>>, s': seq<string>)
    requires |g'| == |s'| + 1
    requires rest == g'[0] + Interleave(s', g'[1..])
    ensures var g := [[]] + g';
            [l] + rest == g[0] + Interleave([l] + s', g[1..])
  {
    var g, s := [[]] + g', [l] + s';
    assert g[1..] == g' && s[1..] == s' && s[0] == l;
    assert Interleave(s, g') == [l] + g'[0] + Interleave(s', g'[1..]);
  }

  lemma {:induction false} ReassembleLine(l: string, rest: seq<string>, g': seq<seq<string>>, s': seq<string>)
    requires |g'| == |s'| + 1
    requires rest == g'[0] + Interleave(s', g'[1..])
    ensures var g := [[l] + g'[0]] + g'[1..];
            [l] + rest == g[0] + Interleave(s', g[1..])
  {
    var g := [[l] + g'[0]] + g'[1..];
    assert g[1..] == g'[1..];
  }

  // ---------------------------------------------------------------- lemmas about try_from

  /**
   * Splitting fails exactly when a line other than a separator comes first, or when
   * there are fewer than two separators (so the empty document fails).
   */
  lemma ParseFailure(value: string)
    ensures var lines := Lines(value);
            Parse(value).Err?
            <==> (lines != [] && !IsSeparator(lines[0])) || SeparatorCount(lines) < 2
  {
  }

  /** With fewer than two separator lines there is no document, however the text looks. */
  lemma EmptyDocumentFails()
    ensures Parse("") == Err(MissingFrontmatter)
  {
  }

  /**
   * Any document is a separator, the frontmatter lines, and then one separator and one
   * block of lines per page; its frontmatter is those lines each followed by a line feed,
   * untrimmed, and page k is block k + 1 joined the same way and trimmed. In particular the
   * page count is the separator count minus one, pages keep document order, no separator
   * line reaches the frontmatter or a page, and two adjacent separators give an empty page.
   */
  lemma ParseInterleaved(value: string, seps: seq<string>, blocks: seq<seq<string>>)
    requires |seps| == |blocks| >= 2
    requires forall k :: 0 <= k < |seps| ==> IsSeparator(seps[k])
    requires forall k :: 0 <= k < |blocks| ==> NoSeparator(blocks[k])
    requires Lines(value) == Interleave(seps, blocks)
    ensures Parse(value).Ok?
    ensures Parse(value).value.frontmatter == Terminated(blocks[0])
    ensures |Parse(value).value.pages| == |blocks| - 1 == SeparatorCount(Lines(value)) - 1
    ensures forall k :: 0 <= k < |blocks| - 1 ==>
              Parse(value).value.pages[k].contents == Trim(Terminated(blocks[k + 1]))
  {
    var lines := Lines(value);
    InterleavedGroups(lines, seps, blocks);
    FromGroupsAfterEmpty(blocks);
  }

  lemma InterleavedGroups(lines: seq<string>, seps: seq<string>, blocks: seq<seq<string>>)
    requires |seps| == |blocks|
    requires forall k :: 0 <= k < |seps| ==> IsSeparator(seps[k])
    requires forall k :: 0 <= k < |blocks| ==> NoSeparator(blocks[k])
    requires lines == Interleave(seps, blocks)
    ensures Groups(lines) == [[]] + blocks
  {
    GroupsOfInterleave([], seps, blocks);
    assert [] + Interleave(seps, blocks) == Interleave(seps, blocks);
  }

  /** The outcome for runs `[[]] + blocks`: block 0 is the frontmatter, the others the pages. */
  lemma FromGroupsAfterEmpty(blocks: seq<seq<string>>)
    requires |blocks| >= 2
    ensures var r := FromGroups([[]] + blocks);
            && r.Ok?
            && r.value.frontmatter == Terminated(blocks[0])
            && |r.value.pages| == |blocks| - 1
            && forall k :: 0 <= k < |blocks| - 1 ==> r.value.pages[k].contents == Trim(Terminated(blocks[k + 1]))
  {
    var g := [[]] + blocks;
    var c := FromGroups(g).value;
    forall k | 0 <= k < |blocks| - 1
      ensures c.pages[k].contents == Trim(Terminated(blocks[k + 1]))
    {
      assert g[k + 2] == blocks[k + 1];
    }
  }

  /** Every successfully split document has the layout `ParseInterleaved` describes. */
  lemma ParseDecomposes(value: string) returns (seps: seq<string>, blocks: seq<seq<string>>)
    requires Parse(value).Ok?
    ensures |seps| == |blocks| >= 2
    ensures forall k :: 0 <= k < |seps| ==> IsSeparator(seps[k])
    ensures forall k :: 0 <= k < |blocks| ==> NoSeparator(blocks[k])
    ensures Lines(value) == Interleave(seps, blocks)
  {
    var lines := Lines(value);
    GroupsReassemble(lines);
    GroupsSeparatorFree(lines);
    seps := Separators(lines);
    blocks := Groups(lines)[1..];
    assert Groups(lines)[0] + Interleave(seps, blocks) == Interleave(seps, blocks);
  }
}
