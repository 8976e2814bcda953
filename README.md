# slide-flow core, modelled in Dafny

slide-flow manages a project of Marp slide decks. This model covers the pure text and list
logic at its centre:

- the **document splitter** (`SlideContents::try_from`): it cuts a `slide.md` at separator
  lines made of three or more hyphens into a frontmatter and trimmed pages;
- the **heading numberer** (`put_index`, without its file read and write): it picks the
  heading lines by their title prefix and strips any trailing "(k/n)". It then groups equal
  consecutive titles, renumbers each group of n > 1 as "title (k/n)" and builds a table of
  contents with one "1. title" line per group;
- the **bibliography entry formatter** (`BibEntry::format`) and the default project
  configuration;
- the **build planner**: the output stems of a slide (`make_file_stems`), one PDF and one
  HTML job per stem, and the filter that holds back drafts;
- the **cache clean-up** of the pre-commit step: the set of retained names and the
  selection of output entries to remove. Together with the build planner this gives the
  invariant that nothing the build names for a published slide is ever removed.

Files:

- `wrappers.dfy`: `Option` and `Result`.
- `text.dfy`: the parts of Rust's string library the core relies on:
  - `str::lines` (split at line feeds, drop one carriage return before a line feed; a
    final line feed does not start an extra empty line);
  - `trim` with the Unicode White_Space set, and `trim_start_matches`;
  - `join`;
  - decimal `to_string`.
- `contents.dfy`, `index.dfy`, `config.dfy`, `build.dfy`, `pre_commit.dfy`: one module per
  core source file.

Where the source mutates state, the model does too:

- `Contents.TryFrom` grows the `splitted` segments in a loop.
- `Index.GroupHeadings` is the run-length fold.
- `Index.TocAndLabels` pushes the table-of-contents entries.
- `Index.Overwrite` rewrites an `array` of lines in place.
- `Config.Format` pushes the parts of an entry one by one.
- `Build.MakeFileStems` pushes the final stem.

Each of these methods is proved equal to a specification function, and the properties
are proved about that function.

## Model

| member | source | states |
|---|---|---|
| Text.Lines | src/subcommand/index.rs:17 | `str::lines`: no line it returns holds a line feed; its round trip is `Text.LinesOfTerminated` |
| Text.Trim | src/contents.rs:45 | `str::trim` with the Unicode White_Space set; its properties are `Text.TrimSpec` and `Text.TrimInfix` |
| Text.TrimStartMatches | src/subcommand/index.rs:61 | `str::trim_start_matches` with a string pattern; its properties are `Text.TrimStartMatchesRemoved`, `Text.TrimStartMatchesSuffix` and `Text.TrimStartMatchesAll` |
| Text.Decimal | src/config.rs:134 | `u16::to_string` (and the `{}` of a `usize`): non-empty ASCII digits with no leading zero; read back by `Text.DecimalRoundTrip` |
| Text.Join | src/subcommand/index.rs:91 | `join("\n")`: the lines with a line feed between neighbours; `Text.JoinWithEmptyLast` states the joined form used here |
| Text.LinesOfTerminated | src/subcommand/index.rs:17 | splitting lines that each end in a line feed (and hold no line break) gives back exactly those lines |
| Text.TrimSpec | src/contents.rs:45 | `trim` leaves no whitespace at either end and never lengthens the text |
| Text.TrimInfix | src/contents.rs:45 | the trimmed text is a contiguous slice of the input, and only whitespace lies before and after it |
| Text.TrimStartMatchesSuffix | src/subcommand/index.rs:61 | `trim_start_matches` returns a suffix of its input, and an empty pattern removes nothing |
| Text.TrimStartMatchesAll | src/subcommand/index.rs:61 | after `trim_start_matches` with a non-empty pattern the text no longer starts with that pattern |
| Text.TrimStartMatchesRemoved | src/subcommand/index.rs:61 | only whole copies of the pattern are removed: the input is `CopiesStripped` copies of the pattern followed by the result |
| Text.DecimalRoundTrip | src/config.rs:134 | the decimal digits of a number read back as that number |
| Text.DecimalInjective | src/config.rs:134 | different numbers have different decimal texts |
| Text.JoinWithEmptyLast | src/subcommand/index.rs:88-91 | joining lines with "\n" after pushing an empty line ends every line with a line feed |
| Text.TerminatedLineFeeds | src/subcommand/index.rs:59-62 | text made of line-feed-terminated lines holds exactly one line feed per line |
| Contents.IsSeparator | src/contents.rs:18-23 | the regex `^-{3,}$` on one line: three or more characters, all of them '-' |
| Contents.Parse | src/contents.rs:15-50 | the specification of `try_from` on the runs between separators; characterised by `Contents.ParseFailure`, `Contents.ParseInterleaved` and `Contents.ParseDecomposes` |
| Contents.TryFrom | src/contents.rs:15-50 | the imperative splitter returns exactly the specification `Parse`: the same error or the same frontmatter and pages |
| Contents.StepSeparator | src/contents.rs:23-24 | a separator line opens a new empty segment |
| Contents.StepLine | src/contents.rs:27-29 | any other line, once a segment is open, is appended to the last segment followed by "\n" |
| Contents.StepMissing | src/contents.rs:30-31 | a non-separator line before any separator means the document has text before its frontmatter, so splitting fails |
| Contents.ParseOfSegments | src/contents.rs:36-47 | fewer than two segments fail with "Frontmatter is missing"; otherwise segment 0 is the frontmatter and the rest, trimmed, are the pages |
| Contents.ParseFailure | src/contents.rs:27-38 | splitting fails exactly when the first line is not a separator or there are fewer than two separators |
| Contents.EmptyDocumentFails | src/contents.rs:36-38 | the empty document fails with "Frontmatter is missing" |
| Contents.ParseInterleaved | src/contents.rs:22-47 | for a document laid out as separator, block, separator, block, and so on: the frontmatter is block 0 with a line feed after each line, untrimmed. Page k is block k+1 terminated the same way and trimmed. The page count is the separator count minus one. Separator lines appear nowhere, and adjacent separators give an empty page |
| Contents.ParseDecomposes | src/contents.rs:22-47 | every document that splits successfully has that separator/block layout |
| Contents.GroupsReassemble | src/contents.rs:22-34 | the runs between separators lose no line: with the separators put back between them they rebuild the input |
| Contents.GroupsSeparatorFree | src/contents.rs:23-24 | no run between separators contains a separator line |
| Contents.GroupsSnoc | src/contents.rs:22-34 | one more line opens a new run when it is a separator, and otherwise extends the last run |
| Index.TitlePrefix | src/subcommand/index.rs:26 | the configured title prefix, or "# " when the slide sets none |
| Index.IsHeading | src/subcommand/index.rs:37 | `line.starts_with(title_prefix)` |
| Index.Normalize | src/subcommand/index.rs:39 | the heading's title: the end-of-line marker replaced by nothing, then trimmed; see `Index.StripMarker` and `Index.RenumberedTitle` |
| Index.Numbered | src/subcommand/index.rs:69 | `format!("{} ({}/{})", title, k, n)`; see `Index.MarkerIsMarker` and `Index.NormalizeNumbered` |
| Index.TocEntry | src/subcommand/index.rs:59-62 | one table-of-contents line: "1. " and the title with leading prefixes removed, then trimmed; see `Index.NumberingToc` |
| Index.Numbering | src/subcommand/index.rs:26-91 | the whole transform from (lines, prefix) to (rewritten lines plus one empty line, table of contents); characterised by the `Index.Numbering*` lemmas |
| Index.MarkerFrom | src/subcommand/index.rs:29 | a found position starts a "(digits/digits)" that runs to the end of the line |
| Index.MarkerFromLeftmost | src/subcommand/index.rs:29 | the search finds a match at or before every position where such a marker starts |
| Index.MarkerUnique | src/subcommand/index.rs:29 | a line ends in at most one marker: no marker is a proper suffix of another |
| Index.StripMarker | src/subcommand/index.rs:39 | the replaced line is a prefix of the line, and whatever was removed is one end-of-line marker |
| Index.StripMarkerLeftmost | src/subcommand/index.rs:39 | the replacement removes every marker that ends the line |
| Index.StripMarkerNone | src/subcommand/index.rs:39 | a line that does not end in a marker is left unchanged |
| Index.StripMarkerOf | src/subcommand/index.rs:39 | text followed by a marker loses exactly that marker |
| Index.MarkerIsMarker | src/subcommand/index.rs:69 | the "(k/n)" that numbering writes is matched by the marker pattern |
| Index.NormalizeNumbered | src/subcommand/index.rs:39 | a trimmed title numbered "title (k/n)" normalises back to the title, so numbering does not stack |
| Index.RenumberedTitle | src/subcommand/index.rs:39 | the numbered form of any heading's normalised title normalises back to that title, so "(k/n)" markers never stack |
| Index.MarkerMustEndLine | src/subcommand/index.rs:29-39 | a marker followed by whitespace is not removed: the match is taken before trimming, so it must end the raw line |
| Index.Headings | src/subcommand/index.rs:34-41 | the prefix filter and title map over the numbered lines; characterised by `Index.HeadingsAre` |
| Index.HeadingsAre | src/subcommand/index.rs:34-41 | the headings are exactly the lines that start with the prefix, in line order, each with its marker-stripped, trimmed title |
| Index.ExtendKeepsRuns | src/subcommand/index.rs:43-54 | one fold step keeps the groups a run-length encoding of the headings seen so far |
| Index.GroupHeadings | src/subcommand/index.rs:43-54 | the fold's groups stand for the headings in order, none is empty, and neighbouring groups have different titles |
| Index.RunLengthIsRuns | src/subcommand/index.rs:43-54 | the specification fold `RunLength` yields a run-length encoding of the headings |
| Index.RunLengthUnique | src/subcommand/index.rs:43-54 | the run-length encoding is unique: any grouping with those properties is the fold's |
| Index.GroupBlock | src/subcommand/index.rs:64-76 | a group of n > 1 yields its lines with "title (k/n)", k from 1; a group of one yields its title |
| Index.TocAndLabels | src/subcommand/index.rs:57-77 | the loop over the groups produces the table of contents of the specification and every heading's new text, group after group |
| Index.LabelsIncreasing | src/subcommand/index.rs:78-86 | the new texts come in line order, one per heading, as the peeking walk over the lines requires |
| Index.Overwrite | src/subcommand/index.rs:81-86 | the in-place walk replaces each named line with its new text and keeps every other line |
| Index.PutIndex | src/subcommand/index.rs:26-91 | the prefix defaults to "# ". The written content is the joined result of the specification `Numbering`, and the returned table of contents is its table |
| Index.NumberingKeepsOtherLines | src/subcommand/index.rs:81-88 | a line not starting with the prefix is unchanged; the output has one more line than the input, and it is empty |
| Index.NumberingHeadings | src/subcommand/index.rs:43-86 | headings fall into maximal runs of equal titles. In a run of n > 1 the k-th becomes "title (k/n)"; a run of one becomes its title |
| Index.NumberingToc | src/subcommand/index.rs:57-62 | the table of contents has exactly one line per group, in order: "1. " and the title with leading prefixes removed, then trimmed |
| Index.NumberingContent | src/subcommand/index.rs:88-91 | the written content is every output line followed by a line feed (so an empty file writes the empty text) |
| Index.NumberingLineFeeds | src/subcommand/index.rs:88-91 | when no input line holds a line feed, the written content holds exactly one line feed per input line |
| Config.DefaultProjectConf | src/config.rs:22-34 | `ProjectConf::default()`, built from the template and build defaults; its values are stated by `Config.DefaultProjectValues` |
| Config.DefaultTemplateConf | src/config.rs:47-56 | `TemplateConf::default()`: three empty templates; see `Config.DefaultProjectValues` |
| Config.DefaultBuildConf | src/config.rs:67-75 | `BuildConf::default()`: theme dir ".marp/themes" and binary "marp"; see `Config.DefaultProjectValues` |
| Config.DefaultProjectValues | src/config.rs:22-75 | the default project is "my-slide-project" by "Your Name" at "https://example.com/" into "output", with empty templates, theme dir ".marp/themes" and binary "marp" |
| Config.Format | src/config.rs:118-142 | pushing the parts one by one yields "authors. " (if any), title, ". ", "venue, " (if any), the year, and ". url" (if any) |
| Config.FormattedFull | src/config.rs:118-142 | with every field present the entry is "authors. title. venue, year. url" |
| Config.FormattedStart | src/config.rs:121-124 | without authors the entry starts with the title; with authors it starts with them |
| Config.FormattedTitle | src/config.rs:126-127 | "title. " always appears, right after the authors' part |
| Config.FormattedNoVenue | src/config.rs:129-132 | without a venue the year follows the title's ". " directly |
| Config.FormattedEnd | src/config.rs:134-139 | without a URL the entry ends with the year's digits, which read back as the year; with one it ends with ". url" |
| Config.YearDigits | src/config.rs:134 | a `u16` year is written with one to five digits |
| Config.FormattedExampleFull | src/config.rs:219-222 | the first bibliography example formats to its expected text |
| Config.FormattedExampleNoVenue | src/config.rs:223-226 | the second bibliography example, without a venue, formats to its expected text |
| Build.MakeFileStems | src/subcommand/build.rs:81-91 | the stems are the custom paths in order (none when absent), then the secret or else the name. There are |custom paths| + 1 of them |
| Build.PublishedIff | src/subcommand/build.rs:46-49 | a slide is held back exactly when `draft` is `Some(true)` |
| Build.IsPublished | src/subcommand/build.rs:46-49 | `!conf.draft.unwrap_or(false)`; see `Build.PublishedIff` |
| Build.Scheduled | src/subcommand/build.rs:44-49 | the draft filter over the build jobs, never longer than its input; see `Build.ScheduledIff` and `Build.ScheduledAppend` |
| Build.PdfCommands | src/subcommand/build.rs:137-143 | one PDF job per file stem, in stem order; see `Build.SlideJobs` |
| Build.HtmlCommands | src/subcommand/build.rs:188-196 | one HTML job per file stem, in stem order; see `Build.SlideJobs` |
| Build.ScheduledAppend | src/subcommand/build.rs:44-49 | the filter keeps order: filtering two runs of jobs one after the other filters each in turn |
| Build.ScheduledIff | src/subcommand/build.rs:44-49 | a job runs exactly when it is listed and its slide is not a draft |
| Build.ScheduledAllPublished | src/subcommand/build.rs:44-49 | the filter keeps every job of published slides, in order |
| Build.ScheduledNoneDraft | src/subcommand/build.rs:44-49 | the filter drops every job of a draft |
| Build.SlideJobs | src/subcommand/build.rs:137-143 | the PDF jobs and the HTML jobs each name every stem once, in stem order. A published slide runs them all, a draft none |
| PreCommit.SlideNames | src/subcommand/pre_commit.rs:60-69 | the names one slide contributes: its secret or else its name, then its custom paths; see `PreCommit.RetainedIff` |
| PreCommit.Retained | src/subcommand/pre_commit.rs:55-71 | `retained_files`: the union of the names of every published slide; see `PreCommit.RetainedIff` |
| PreCommit.RemovalSelection | src/subcommand/pre_commit.rs:77-84 | the entries, in directory order, whose stem exists and is not retained, never more than listed; see `PreCommit.RemovalSelectionIff` |
| PreCommit.RetainedIff | src/subcommand/pre_commit.rs:55-71 | a name is retained exactly when a published slide has it as its secret (else its name) or among its custom paths |
| PreCommit.RemovalSelectionIff | src/subcommand/pre_commit.rs:77-84 | an entry is removed exactly when it is listed and has a UTF-8 stem that is not retained |
| PreCommit.RemovalSelectionAppend | src/subcommand/pre_commit.rs:77-84 | the selection keeps directory order |
| PreCommit.PublishedOutputsKept | src/subcommand/pre_commit.rs:55-84 | every stem the build names for a published slide is retained, so no output entry with such a stem is removed |

## Left out

- File I/O is not modelled:
  - the read and write of `slide.md` in `put_index` (the model takes and returns the text);
  - the directory listing and deletion in `remove_cache` (the model takes the listed entries, each with its path and its stem);
  - `update_bibliography`;
  - `copy_images` and `copy_images_html`.
- Concurrency and processes: the tokio runtime and semaphore in `build` are not modelled, nor is running `marp`. A build job records only its kind, directory, stem and slide configuration, not its command-line arguments.
- Path semantics (`join`, `with_extension`, `file_stem`): stems are plain strings, and an entry's stem is an input (`None` when absent or not UTF-8).
- PreCommit.PublishedOutputsKept: it holds for stems, not for the real file names. A stem containing '.' is cut by the path library: `with_extension("pdf")` turns the stem "v1.2" into the file "v1.pdf", and `file_stem` of the HTML directory "v1.2" is "v1". Neither "v1" is retained, so both outputs of a published slide named "v1.2" are removed; the model, whose stems are plain strings, does not capture this.
- TOML and serde parsing, project and slide discovery, the clap command line, askama templates and UUID generation are foreign libraries and are not modelled.
- The scaffolding of `init`, `add` and `new`, and the path getters of `Slide`, are not modelled.
- Bibliography rewriting and footnote composition (`modify_bibliography`, `to_marp`) are called by the bib subcommand but defined in no file of this model's source; they are not modelled.
- Index.MarkerFrom: the regex's `\d` matches any Unicode decimal digit; the model accepts ASCII digits only.
- Index.RenumberedTitle: numbering does not stack markers, but a re-run need not find the same headings. Trimming can cut into the prefix itself: with prefix "# " the line "# " is renumbered as "#", which no longer starts with the prefix, so on a re-run that line loses its group and its table-of-contents entry.
- Index.PutIndex: the source builds the table of contents lazily, inside the `flat_map`, while the line walk pulls from it. Every group is still visited before the walk ends, so the model builds the whole table eagerly.
