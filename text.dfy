/**
 * The Rust string operations the core is written with, stated on `seq<char>`:
 * `char::is_whitespace`, `str::trim`, `str::lines`, `str::trim_start_matches`,
 * `[String]::join`, and the decimal rendering of unsigned integers (`to_string`,
 * `format!("{}")`).
 */
module Text {

  // ---------------------------------------------------------------- whitespace

  /** `char::is_whitespace`: the code points with the Unicode White_Space property. */
  predicate IsWhitespace(c: char) {
    || ('\t' <= c <= '\r')
    || c == ' '
    || c == '\U{85}'
    || c == '\U{A0}'
    || c == '\U{1680}'
    || ('\U{2000}' <= c <= '\U{200A}')
    || c == '\U{2028}'
    || c == '\U{2029}'
    || c == '\U{202F}'
    || c == '\U{205F}'
    || c == '\U{3000}'
  }

  predicate AllWhitespace(s: string) {
    forall k :: 0 <= k < |s| ==> IsWhitespace(s[k])
  }

  /** Neither end of `s` is whitespace (vacuously true of the empty string). */
  predicate IsTrimmed(s: string) {
    s == [] || (!IsWhitespace(s[0]) && !IsWhitespace(s[|s| - 1]))
  }

  /** `str::trim_start`: drop whitespace from the front. */
  function TrimStart(s: string): string {
    if s != [] && IsWhitespace(s[0]) then TrimStart(s[1..]) else s
  }

  /** `trim_start` keeps the longest suffix of `s` that does not start with whitespace. */
  lemma {:induction false} TrimStartSpec(s: string)
    ensures var r := TrimStart(s);
            |r| <= |s| && r == s[|s| - |r|..]
            && AllWhitespace(s[..|s| - |r|])
            && (r != [] ==> !IsWhitespace(r[0]))
  {
    if s != [] && IsWhitespace(s[0]) {
      TrimStartSpec(s[1..]);
      var r := TrimStart(s);
      assert s[..|s| - |r|] == [s[0]] + s[1..][..|s| - 1 - |r|];
    }
  }

  /** `str::trim_end`: drop whitespace from the back. */
  function TrimEnd(s: string): string {
    if s != [] && IsWhitespace(s[|s| - 1]) then TrimEnd(s[..|s| - 1]) else s
  }

  /** `trim_end` keeps the longest prefix of `s` that does not end in whitespace. */
  lemma {:induction false} TrimEndSpec(s: string)
    ensures var r := TrimEnd(s);
            |r| <= |s| && r == s[..|r|]
            && AllWhitespace(s[|r|..])
            && (r != [] ==> !IsWhitespace(r[|r| - 1]))
  {
    if s != [] && IsWhitespace(s[|s| - 1]) {
      TrimEndSpec(s[..|s| - 1]);
      var r := TrimEnd(s);
      assert s[|r|..] == s[..|s| - 1][|r|..] + [s[|s| - 1]];
    }
  }

  /** `str::trim`: `s` without its leading and trailing whitespace. */
  function Trim(s: string): string {
    TrimEnd(TrimStart(s))
  }

  /** `trim` leaves no whitespace at either end and never lengthens the text. */
  lemma TrimSpec(s: string)
    ensures IsTrimmed(Trim(s)) && |Trim(s)| <= |s|
  {
    var t := TrimStart(s);
    TrimStartSpec(s);
    TrimEndSpec(t);
    var r := TrimEnd(t);
    assert r != [] ==> r[0] == t[0];
  }

  /** `trim` keeps one contiguous run of `s` and removes only whitespace around it. */
  lemma TrimInfix(s: string) returns (i: nat)
    ensures i + |Trim(s)| <= |s| && Trim(s) == s[i..i + |Trim(s)|]
    ensures AllWhitespace(s[..i]) && AllWhitespace(s[i + |Trim(s)|..])
  {
    var t := TrimStart(s);
    TrimStartSpec(s);
    TrimEndSpec(t);
    var r := TrimEnd(t);
    i := |s| - |t|;
    assert s[i..i + |r|] == r;
    assert s[i + |r|..] == t[|r|..];
  }

  /** Trimming text that is already trimmed changes nothing. */
  lemma TrimTrimmed(s: string)
    requires IsTrimmed(s)
    ensures Trim(s) == s
  {
    assert TrimStart(s) == s;
  }

  /** Trailing whitespace after trimmed text is exactly what `trim` removes. */
  lemma {:induction false} TrimTrailingWhitespace(s: string, w: string)
    requires IsTrimmed(s) && AllWhitespace(w)
    ensures Trim(s + w) == s
  {
    if s == [] {
      assert s + w == w;
      TrimStartAllWhitespace(w);
      assert Trim(w) == TrimEnd([]) == [];
    } else {
      assert TrimStart(s + w) == s + w;
      TrimEndWhitespaceSuffix(s, w);
    }
  }

  lemma {:induction false} TrimStartAllWhitespace(w: string)
    requires AllWhitespace(w)
    ensures TrimStart(w) == []
  {
    if w != [] {
      TrimStartAllWhitespace(w[1..]);
    }
  }

  lemma {:induction false} TrimEndWhitespaceSuffix(s: string, w: string)
    requires s != [] && !IsWhitespace(s[|s| - 1]) && AllWhitespace(w)
    ensures TrimEnd(s + w) == s
    decreases |w|
  {
    if w == [] {
      assert s + w == s;
    } else {
      var w' := w[..|w| - 1];
      assert (s + w)[..|s + w| - 1] == s + w';
      TrimEndWhitespaceSuffix(s, w');
    }
  }

  // ---------------------------------------------------------------- prefixes

  /** `str::trim_start_matches` with a string pattern: strip leading copies of `p`. */
  function TrimStartMatches(s: string, p: string): string
    decreases |s|
  {
    if p != [] && p <= s then TrimStartMatches(s[|p|..], p) else s
  }

  /** What `trim_start_matches` keeps is a suffix; an empty pattern removes nothing. */
  lemma {:induction false} TrimStartMatchesSuffix(s: string, p: string)
    ensures var r := TrimStartMatches(s, p);
            |r| <= |s| && r == s[|s| - |r|..] && (p == [] ==> r == s)
    decreases |s|
  {
    if p != [] && p <= s {
      TrimStartMatchesSuffix(s[|p|..], p);
    }
  }

  /** Every leading copy is removed: what is left does not start with a non-empty pattern. */
  lemma {:induction false} TrimStartMatchesAll(s: string, p: string)
    requires p != []
    ensures !(p <= TrimStartMatches(s, p))
    decreases |s|
  {
    if p <= s {
      TrimStartMatchesAll(s[|p|..], p);
    }
  }

  /** `k` copies of `p`, one after another. */
  function Repeat(p: string, k: nat): string {
    if k == 0 then [] else p + Repeat(p, k - 1)
  }

  /** How many leading copies of `p` `trim_start_matches` strips from `s`. */
  function CopiesStripped(s: string, p: string): nat
    decreases |s|
  {
    if p != [] && p <= s then 1 + CopiesStripped(s[|p|..], p) else 0
  }

  /**
   * Only whole copies of the pattern are removed: the input is those copies followed by
   * what `trim_start_matches` keeps.
   */
  lemma {:induction false} TrimStartMatchesRemoved(s: string, p: string)
    ensures s == Repeat(p, CopiesStripped(s, p)) + TrimStartMatches(s, p)
    decreases |s|
  {
    if p != [] && p <= s {
      var rest := s[|p|..];
      assert s == s[..|p|] + rest && s[..|p|] == p;
      TrimStartMatchesRemoved(rest, p);
      var copies, kept := Repeat(p, CopiesStripped(rest, p)), TrimStartMatches(rest, p);
      assert Repeat(p, CopiesStripped(s, p)) == p + copies;
      assert TrimStartMatches(s, p) == kept;
      assert (p + copies) + kept == p + (copies + kept);
    }
  }

  // ---------------------------------------------------------------- lines

  /** Index of the first line feed in `s`, or `|s|` when there is none. */
  function NewlineIndex(s: string): (i: nat)
    ensures i <= |s|
    ensures i < |s| ==> s[i] == '\n'
    ensures '\n' !in s[..i]
  {
    if s == [] || s[0] == '\n' then 0 else 1 + NewlineIndex(s[1..])
  }

  /** Drop one carriage return at the end of a line, as `str::lines` does before a line feed. */
  function StripCarriageReturn(l: string): string {
    if l != [] && l[|l| - 1] == '\r' then l[..|l| - 1] else l
  }

  /**
   * `str::lines`: split at each line feed, removing a carriage return just before it;
   * a final line feed does not start an empty line, and the empty text has no lines.
   */
  function Lines(s: string): (ls: seq<string>)
    ensures forall k :: 0 <= k < |ls| ==> '\n' !in ls[k]
    decreases |s|
  {
    if s == [] then []
    else
      var i := NewlineIndex(s);
      if i == |s| then [s]
      else [StripCarriageReturn(s[..i])] + Lines(s[i + 1..])
  }

  /** Every line followed by a line feed: what `line + "\n"` appended line by line produces. */
  function Terminated(ls: seq<string>): string {
    if ls == [] then [] else ls[0] + "\n" + Terminated(ls[1..])
  }

  lemma {:induction false} TerminatedSnoc(ls: seq<string>, l: string)
    ensures Terminated(ls + [l]) == Terminated(ls) + l + "\n"
  {
    if ls != [] {
      assert (ls + [l])[1..] == ls[1..] + [l];
      TerminatedSnoc(ls[1..], l);
    }
  }

  /** A line of `str::lines` output: no line feed, and no carriage return it would strip. */
  predicate IsPlainLine(l: string) {
    '\n' !in l && (l == [] || l[|l| - 1] != '\r')
  }

  /** `str::lines` undoes `Terminated` on plain lines. */
  lemma {:induction false} LinesOfTerminated(ls: seq<string>)
    requires forall k :: 0 <= k < |ls| ==> IsPlainLine(ls[k])
    ensures Lines(Terminated(ls)) == ls
  {
    if ls != [] {
      var s := Terminated(ls);
      var l := ls[0];
      assert s == l + ("\n" + Terminated(ls[1..]));
      NewlineIndexAfterLine(l, "\n" + Terminated(ls[1..]));
      assert s[..|l|] == l;
      assert s[|l| + 1..] == Terminated(ls[1..]);
      LinesOfTerminated(ls[1..]);
    }
  }

  lemma NewlineIndexAfterLine(l: string, rest: string)
    requires '\n' !in l && rest != [] && rest[0] == '\n'
    ensures NewlineIndex(l + rest) == |l|
  {
    assert (l + rest)[|l|] == '\n';
    assert (l + rest)[..|l|] == l;
  }

  /** `[String]::join(sep)`. */
  function Join(ls: seq<string>, sep: string): string {
    if ls == [] then []
    else if |ls| == 1 then ls[0]
    else ls[0] + sep + Join(ls[1..], sep)
  }

  /** Joining with line feeds after appending one empty line terminates every line. */
  lemma {:induction false} JoinWithEmptyLast(ls: seq<string>)
    ensures Join(ls + [""], "\n") == Terminated(ls)
  {
    if ls != [] {
      assert (ls + [""])[1..] == ls[1..] + [""];
      JoinWithEmptyLast(ls[1..]);
    }
  }

  /** Number of occurrences of `c` in `s`. */
  function Count(s: string, c: char): nat {
    if s == [] then 0 else (if s[0] == c then 1 else 0) + Count(s[1..], c)
  }

  lemma {:induction false} CountAppend(a: string, b: string, c: char)
    ensures Count(a + b, c) == Count(a, c) + Count(b, c)
  {
    if a != [] {
      assert (a + b)[0] == a[0];
      assert (a + b)[1..] == a[1..] + b;
      CountAppend(a[1..], b, c);
    } else {
      assert a + b == b;
    }
  }

  lemma {:induction false} CountAbsent(a: string, c: char)
    requires c !in a
    ensures Count(a, c) == 0
  {
    if a != [] {
      CountAbsent(a[1..], c);
    }
  }

  /** Terminated lines hold one line feed per line. */
  lemma {:induction false} TerminatedLineFeeds(ls: seq<string>)
    requires forall k :: 0 <= k < |ls| ==> '\n' !in ls[k]
    ensures Count(Terminated(ls), '\n') == |ls|
  {
    if ls != [] {
      assert Terminated(ls) == ls[0] + ("\n" + Terminated(ls[1..]));
      CountAppend(ls[0], "\n" + Terminated(ls[1..]), '\n');
      CountAppend("\n", Terminated(ls[1..]), '\n');
      CountAbsent(ls[0], '\n');
      TerminatedLineFeeds(ls[1..]);
    }
  }

  // ---------------------------------------------------------------- decimal numbers

  predicate IsDigit(c: char) {
    '0' <= c <= '9'
  }

  predicate AllDigits(s: string) {
    forall k :: 0 <= k < |s| ==> IsDigit(s[k])
  }

  function DigitChar(d: nat): (c: char)
    requires d < 10
    ensures IsDigit(c)
  {
    (48 + d) as char
  }

  function DigitValue(c: char): (d: nat)
    requires IsDigit(c)
    ensures d < 10
  {
    (c as int) - 48
  }

  /** Decimal rendering of an unsigned integer, as Rust's `to_string` and `{}` give it. */
  function Decimal(n: nat): (r: string)
    ensures r != [] && AllDigits(r)
    ensures r[0] == '0' ==> r == "0"
    decreases n
  {
    if n < 10 then [DigitChar(n)] else Decimal(n / 10) + [DigitChar(n % 10)]
  }

  /** The value a string of decimal digits denotes. */
  function DecimalValue(s: string): nat
    requires AllDigits(s)
  {
    if s == [] then 0 else DecimalValue(s[..|s| - 1]) * 10 + DigitValue(s[|s| - 1])
  }

  /** Reading the rendered digits back gives the number: the rendering loses nothing. */
  lemma {:induction false} DecimalRoundTrip(n: nat)
    ensures DecimalValue(Decimal(n)) == n
    decreases n
  {
    if n >= 10 {
      var r := Decimal(n);
      assert r[..|r| - 1] == Decimal(n / 10);
      DecimalRoundTrip(n / 10);
    }
  }

  /** Distinct numbers render differently. */
  lemma DecimalInjective(m: nat, n: nat)
    requires Decimal(m) == Decimal(n)
    ensures m == n
  {
    DecimalRoundTrip(m);
    DecimalRoundTrip(n);
  }
}
