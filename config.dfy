/**
 * The configuration records of a slide project (`config.toml` and each slide's
 * `slide.toml`), their defaults, and the rendering of one bibliography entry.
 */
module Config {
  import opened Wrappers
  import opened Text

  /** Rust's `u8`. */
  newtype U8 = x: int | 0 <= x < 0x100

  /** Rust's `u16`. */
  newtype U16 = x: int | 0 <= x < 0x1_0000

  /** Names of the marp templates a project inserts into its slides. */
  datatype TemplateConf = TemplateConf(slide: string, index: string, suffix: string)

  /** Where the marp themes are and which marp executable builds the slides. */
  datatype BuildConf = BuildConf(themeDir: string, marpBinary: string)

  /** The project's `config.toml`. */
  datatype ProjectConf = ProjectConf(
    name: string,
    author: string,
    baseUrl: string,
    outputDir: string,
    template: TemplateConf,
    build: BuildConf)

  /** One reference of a slide's bibliography. */
  datatype BibEntry = BibEntry(
    tag: string,
    title: string,
    authors: Option<string>,
    year: U16,
    venue: Option<string>,
    url: Option<string>)

  /** A slide's `slide.toml`. */
  datatype SlideConf = SlideConf(
    name: string,
    version: U8,
    secret: Option<string>,
    customPath: Option<seq<string>>,
    draft: Option<bool>,
    description: Option<string>,
    titlePrefix: Option<string>,
    bibliography: Option<seq<BibEntry>>)

  // ---------------------------------------------------------------- defaults

  function DefaultTemplateConf(): TemplateConf {
    TemplateConf("", "", "")
  }

  function DefaultBuildConf(): BuildConf {
    BuildConf(".marp/themes", "marp")
  }

  /** The configuration `init` writes for a new project. */
  function DefaultProjectConf(): ProjectConf {
    ProjectConf("my-slide-project", "Your Name", "https://example.com/", "output",
                DefaultTemplateConf(), DefaultBuildConf())
  }

  /** The values a freshly initialised project reads back from its `config.toml`. */
  lemma DefaultProjectValues()
    ensures var c := DefaultProjectConf();
            && c.name == "my-slide-project" && c.author == "Your Name"
            && c.baseUrl == "https://example.com/" && c.outputDir == "output"
            && c.template.slide == "" && c.template.index == "" && c.template.suffix == ""
            && c.build.themeDir == ".marp/themes" && c.build.marpBinary == "marp"
  {
  }

  // ---------------------------------------------------------------- bibliography entries

  /** "authors. " when the entry names its authors, else nothing. */
  function AuthorsPart(e: BibEntry): string {
    match e.authors
    case Some(a) => a + ". "
    case None => ""
  }

  /** "venue, " when the entry names its venue, else nothing. */
  function VenuePart(e: BibEntry): string {
    match e.venue
    case Some(v) => v + ", "
    case None => ""
  }

  /** ". url" when the entry has a URL, else nothing. */
  function UrlPart(e: BibEntry): string {
    match e.url
    case Some(u) => ". " + u
    case None => ""
  }

  /** The year as `u16::to_string` writes it. */
  function YearText(e: BibEntry): string {
    Decimal(e.year as nat)
  }

  /** The rendered entry: its optional and mandatory parts in order. */
  function Formatted(e: BibEntry): string {
    AuthorsPart(e) + e.title + ". " + VenuePart(e) + YearText(e) + UrlPart(e)
  }

  /** `BibEntry::format`: push each present part onto an initially empty string. */
  method Format(e: BibEntry) returns (entry: string)
    ensures entry == Formatted(e)
  {
    entry := "";
    if e.authors.Some? {
      entry := entry + e.authors.value;
      entry := entry + ". ";
    }
    assert entry == AuthorsPart(e);
    entry := entry + e.title;
    entry := entry + ". ";
    ghost var head := entry;
    if e.venue.Some? {
      entry := entry + e.venue.value;
      entry := entry + ", ";
    }
    assert entry == head + VenuePart(e);
    entry := entry + Decimal(e.year as nat);
    ghost var body := entry;
    if e.url.Some? {
      entry := entry + ". ";
      entry := entry + e.url.value;
    }
    assert entry == body + UrlPart(e);
  }

  /** With every field present the entry reads "authors. title. venue, year. url". */
  lemma FormattedFull(e: BibEntry, a: string, v: string, u: string)
    requires e.authors == Some(a) && e.venue == Some(v) && e.url == Some(u)
    ensures Formatted(e) == a + ". " + e.title + ". " + v + ", " + YearText(e) + ". " + u
  {
  }

  /** The title followed by ". " always appears, right after the authors' part. */
  lemma FormattedTitle(e: BibEntry) returns (i: nat)
    ensures i + |e.title| + 2 <= |Formatted(e)|
    ensures Formatted(e)[i..i + |e.title| + 2] == e.title + ". "
    ensures i == match e.authors case Some(a) => |a| + 2 case None => 0
  {
    var r := Formatted(e);
    i := |AuthorsPart(e)|;
    assert r == AuthorsPart(e) + (e.title + ". ") + (VenuePart(e) + YearText(e) + UrlPart(e));
  }

  /** Without authors the entry begins directly with the title; with authors it begins with them. */
  lemma FormattedStart(e: BibEntry)
    ensures e.authors.None? ==> e.title + ". " <= Formatted(e)
    ensures e.authors.Some? ==> e.authors.value + ". " <= Formatted(e)
  {
    var r := Formatted(e);
    assert r == AuthorsPart(e) + (e.title + ". " + VenuePart(e) + YearText(e) + UrlPart(e));
    if e.authors.Some? {
      assert r == (e.authors.value + ". ") + (e.title + ". " + VenuePart(e) + YearText(e) + UrlPart(e));
    }
  }

  /** Without a venue the year follows the title's ". " directly. */
  lemma FormattedNoVenue(e: BibEntry)
    requires e.venue.None?
    ensures Formatted(e) == AuthorsPart(e) + e.title + ". " + YearText(e) + UrlPart(e)
  {
  }

  /**
   * Without a URL the entry ends with the year's digits, and those digits read back as
   * the year; with a URL it ends with ". " and the URL.
   */
  lemma FormattedEnd(e: BibEntry)
    ensures e.url.None? ==>
              var r := Formatted(e);
              var d := YearText(e);
              |d| <= |r| && r[|r| - |d|..] == d && DecimalValue(d) == e.year as int
    ensures e.url.Some? ==>
              var r := Formatted(e);
              var tail := ". " + e.url.value;
              |tail| <= |r| && r[|r| - |tail|..] == tail
  {
    var r := Formatted(e);
    var front := AuthorsPart(e) + e.title + ". " + VenuePart(e);
    if e.url.None? {
      assert r == front + YearText(e);
      DecimalRoundTrip(e.year as nat);
    } else {
      assert r == (front + YearText(e)) + (". " + e.url.value);
    }
  }

  /** A `u16` year is at most five digits long. */
  lemma YearDigits(e: BibEntry)
    ensures 1 <= |YearText(e)| <= 5
  {
    DecimalLength(e.year as nat, 5);
  }

  function Pow10(k: nat): nat {
    if k == 0 then 1 else 10 * Pow10(k - 1)
  }

  lemma {:induction false} DecimalLength(n: nat, k: nat)
    requires 1 <= k && n < Pow10(k)
    ensures |Decimal(n)| <= k
    decreases k
  {
    if n >= 10 {
      DecimalLength(n / 10, k - 1);
    }
  }

  lemma Decimal2020s()
    ensures Decimal(2020) == "2020" && Decimal(2021) == "2021"
  {
    assert Decimal(2) == "2";
    assert Decimal(20) == "20";
    assert Decimal(202) == "202";
  }

  /**
   * The first entry of the bibliography example, every field present; the expected text
   * is "Author A, Author B. This is bibliographic information 1. Conference X, 2021.
   * https://doi.org/xxxx", written here piece by piece.
   */
  lemma FormattedExampleFull()
    ensures Formatted(BibEntry("tag1", "This is bibliographic information 1", Some("Author A, Author B"),
                               2021, Some("Conference X"), Some("https://doi.org/xxxx")))
            == "Author A, Author B" + ". " + "This is bibliographic information 1" + ". "
               + "Conference X" + ", " + "2021" + ". " + "https://doi.org/xxxx"
  {
    Decimal2020s();
  }

  /**
   * The second entry of the bibliography example, without a venue; the expected text is
   * "Author C. This is bibliographic information 2. 2020. https://doi.org/yyyy".
   */
  lemma FormattedExampleNoVenue()
    ensures Formatted(BibEntry("tag2", "This is bibliographic information 2", Some("Author C"),
                               2020, None, Some("https://doi.org/yyyy")))
            == "Author C" + ". " + "This is bibliographic information 2" + ". "
               + "2020" + ". " + "https://doi.org/yyyy"
  {
    Decimal2020s();
  }
}
