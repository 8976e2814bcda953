/**
 * Which files a slide is built into and which build jobs run: one output stem per custom
 * path plus the secret (or the name), one PDF and one HTML command per stem, and drafts
 * filtered out before any command runs.
 */
module Build {
  import opened Wrappers
  import opened Config

  /** A slide: the directory holding its `slide.toml`, and that configuration. */
  datatype Slide = Slide(dir: string, conf: SlideConf)

  /**
   * A build job. The external command itself is not modelled; a job records the stem its
   * output file is named after.
   */
  datatype BuildCommand =
    | Pdf(dir: string, stem: string, conf: SlideConf)
    | Html(dir: string, stem: string, conf: SlideConf)

  /** The slide's custom paths, none when the field is absent. */
  function CustomPaths(conf: SlideConf): seq<string> {
    conf.customPath.UnwrapOr([])
  }

  /** The stem every slide gets: its secret when it has one, else its name. */
  function PrimaryStem(conf: SlideConf): string {
    conf.secret.UnwrapOr(conf.name)
  }

  /** The stems of a slide's output files. */
  function FileStems(conf: SlideConf): seq<string> {
    CustomPaths(conf) + [PrimaryStem(conf)]
  }

  /**
   * `make_file_stems`: start from a copy of the custom paths, then push the secret, or the
   * name when there is no secret.
   */
  method MakeFileStems(slide: Slide) returns (res: seq<string>)
    ensures res == FileStems(slide.conf)
    ensures |res| == |CustomPaths(slide.conf)| + 1
    ensures res[..|res| - 1] == CustomPaths(slide.conf)
    ensures slide.conf.secret.Some? ==> res[|res| - 1] == slide.conf.secret.value
    ensures slide.conf.secret.None? ==> res[|res| - 1] == slide.conf.name
  {
    res := slide.conf.customPath.UnwrapOr([]);
    if slide.conf.secret.Some? {
      res := res + [slide.conf.secret.value];
    } else {
      res := res + [slide.conf.name];
    }
  }

  /** A slide is built unless its `draft` flag is set to true. */
  predicate IsPublished(conf: SlideConf) {
    !conf.draft.UnwrapOr(false)
  }

  /** Only an explicit `draft = true` holds a slide back; an absent flag publishes it. */
  lemma PublishedIff(conf: SlideConf)
    ensures !IsPublished(conf) <==> conf.draft == Some(true)
  {
  }

  function ConfOf(cmd: BuildCommand): SlideConf {
    match cmd
    case Pdf(_, _, conf) => conf
    case Html(_, _, conf) => conf
  }

  /** `build_pdf_commands`: one PDF job per stem, in stem order. */
  function PdfCommands(slide: Slide): seq<BuildCommand> {
    var stems := FileStems(slide.conf);
    seq(|stems|, i requires 0 <= i < |stems| => Pdf(slide.dir, stems[i], slide.conf))
  }

  /** `build_html_commands`: one HTML job per stem, in stem order. */
  function HtmlCommands(slide: Slide): seq<BuildCommand> {
    var stems := FileStems(slide.conf);
    seq(|stems|, i requires 0 <= i < |stems| => Html(slide.dir, stems[i], slide.conf))
  }

  /** The filter at the head of `build`: the jobs of published slides, in their order. */
  function Scheduled(cmds: seq<BuildCommand>): (r: seq<BuildCommand>)
    ensures |r| <= |cmds|
  {
    if cmds == [] then []
    else if IsPublished(ConfOf(cmds[|cmds| - 1])) then Scheduled(cmds[..|cmds| - 1]) + [cmds[|cmds| - 1]]
    else Scheduled(cmds[..|cmds| - 1])
  }

  /** A job runs exactly when it is in the input and its slide is published. */
  lemma {:induction false} ScheduledIff(cmds: seq<BuildCommand>, c: BuildCommand)
    ensures c in Scheduled(cmds) <==> c in cmds && IsPublished(ConfOf(c))
  {
    if cmds != [] {
      var init := cmds[..|cmds| - 1];
      ScheduledIff(init, c);
      assert cmds == init + [cmds[|cmds| - 1]];
    }
  }

  /** Filtering keeps order: filtering two runs of jobs filters each in turn. */
  lemma {:induction false} ScheduledAppend(a: seq<BuildCommand>, b: seq<BuildCommand>)
    ensures Scheduled(a + b) == Scheduled(a) + Scheduled(b)
    decreases |b|
  {
    if b == [] {
      assert a + b == a;
    } else {
      var init, x := b[..|b| - 1], b[|b| - 1];
      var ab := a + b;
      ScheduledAppend(a, init);
      assert ab[..|ab| - 1] == a + init && ab[|ab| - 1] == x;
      var kept := if IsPublished(ConfOf(x)) then [x] else [];
      assert Scheduled(ab) == Scheduled(a + init) + kept;
      assert Scheduled(b) == Scheduled(init) + kept;
    }
  }

  /** Filtering keeps every job of a published list, in order. */
  lemma {:induction false} ScheduledAllPublished(cmds: seq<BuildCommand>)
    requires forall i :: 0 <= i < |cmds| ==> IsPublished(ConfOf(cmds[i]))
    ensures Scheduled(cmds) == cmds
  {
    if cmds != [] {
      ScheduledAllPublished(cmds[..|cmds| - 1]);
    }
  }

  /** Filtering drops every job of a draft list. */
  lemma {:induction false} ScheduledNoneDraft(cmds: seq<BuildCommand>)
    requires forall i :: 0 <= i < |cmds| ==> !IsPublished(ConfOf(cmds[i]))
    ensures Scheduled(cmds) == []
  {
    if cmds != [] {
      ScheduledNoneDraft(cmds[..|cmds| - 1]);
    }
  }

  /**
   * A slide's PDF and HTML jobs name each of its stems once, in stem order. A published slide
   * runs all of them; a draft runs none.
   */
  lemma SlideJobs(slide: Slide)
    ensures var stems := FileStems(slide.conf);
            var pdf, html := PdfCommands(slide), HtmlCommands(slide);
            && |pdf| == |html| == |stems|
            && (forall i :: 0 <= i < |stems| ==>
                  pdf[i].Pdf? && pdf[i].stem == stems[i] && html[i].Html? && html[i].stem == stems[i])
            && (IsPublished(slide.conf) ==> Scheduled(pdf) == pdf && Scheduled(html) == html)
            && (!IsPublished(slide.conf) ==> Scheduled(pdf) == [] && Scheduled(html) == [])
  {
    if IsPublished(slide.conf) {
      ScheduledAllPublished(PdfCommands(slide));
      ScheduledAllPublished(HtmlCommands(slide));
    } else {
      ScheduledNoneDraft(PdfCommands(slide));
      ScheduledNoneDraft(HtmlCommands(slide));
    }
  }
}
