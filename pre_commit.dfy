/**
 * The cache clean-up of the pre-commit step: the names of published slides are retained,
 * and every entry of the output directory whose stem is not retained is removed.
 */
module PreCommit {
  import opened Wrappers
  import opened Config
  import opened Build

  /** The names one slide keeps in the output directory: its secret or name, then its custom paths. */
  function SlideNames(conf: SlideConf): seq<string> {
    [conf.secret.UnwrapOr(conf.name)] + CustomPaths(conf)
  }

  /** `retained_files`: the names of every published slide, collected into a set. */
  function Retained(confs: seq<SlideConf>): set<string> {
    if confs == [] then {}
    else
      var own := if IsPublished(confs[0]) then set n | n in SlideNames(confs[0]) else {};
      own + Retained(confs[1..])
  }

  /**
   * A name is retained exactly when some published slide has it as its secret (or as its
   * name, when it has no secret) or among its custom paths; drafts contribute nothing.
   */
  lemma {:induction false} RetainedIff(confs: seq<SlideConf>, n: string)
    ensures n in Retained(confs) <==>
              exists i :: 0 <= i < |confs| && IsPublished(confs[i])
                          && (n == confs[i].secret.UnwrapOr(confs[i].name) || n in CustomPaths(confs[i]))
  {
    if confs != [] {
      RetainedIff(confs[1..], n);
      if n in Retained(confs) && n !in Retained(confs[1..]) {
        assert n in SlideNames(confs[0]);
      }
      if exists i :: 0 <= i < |confs| && IsPublished(confs[i])
                     && (n == confs[i].secret.UnwrapOr(confs[i].name) || n in CustomPaths(confs[i])) {
        var i :| 0 <= i < |confs| && IsPublished(confs[i])
                 && (n == confs[i].secret.UnwrapOr(confs[i].name) || n in CustomPaths(confs[i]));
        if i == 0 {
          assert n in SlideNames(confs[0]);
        } else {
          assert confs[1..][i - 1] == confs[i];
        }
      }
    }
  }

  /**
   * An entry of the output directory. `stem` is the file stem as UTF-8 text, or None when
   * the path has no stem or the stem is not valid UTF-8.
   */
  datatype OutputEntry = OutputEntry(path: string, stem: Option<string>)

  predicate Selected(e: OutputEntry, retained: set<string>) {
    e.stem.Some? && e.stem.value !in retained
  }

  /** `remove_files`: the entries, in directory order, whose stem is present and not retained. */
  function RemovalSelection(entries: seq<OutputEntry>, retained: set<string>): (r: seq<OutputEntry>)
    ensures |r| <= |entries|
  {
    if entries == [] then []
    else
      var rest := RemovalSelection(entries[1..], retained);
      if Selected(entries[0], retained) then [entries[0]] + rest else rest
  }

  /** An entry is removed exactly when it is listed and its stem exists and is not retained. */
  lemma {:induction false} RemovalSelectionIff(entries: seq<OutputEntry>, retained: set<string>, e: OutputEntry)
    ensures e in RemovalSelection(entries, retained) <==> e in entries && Selected(e, retained)
  {
    if entries != [] {
      RemovalSelectionIff(entries[1..], retained, e);
      assert entries == [entries[0]] + entries[1..];
    }
  }

  /** Selection keeps directory order: selecting from two runs of entries selects from each in turn. */
  lemma {:induction false} RemovalSelectionAppend(a: seq<OutputEntry>, b: seq<OutputEntry>, retained: set<string>)
    ensures RemovalSelection(a + b, retained) == RemovalSelection(a, retained) + RemovalSelection(b, retained)
  {
    if a != [] {
      assert (a + b)[0] == a[0];
      assert (a + b)[1..] == a[1..] + b;
      RemovalSelectionAppend(a[1..], b, retained);
    } else {
      assert a + b == b;
    }
  }

  /**
   * What the build names for a published slide is never removed: every stem of its PDF and
   * HTML outputs is retained, so no output entry with such a stem is selected.
   */
  lemma PublishedOutputsKept(confs: seq<SlideConf>, k: nat, entries: seq<OutputEntry>)
    requires k < |confs| && IsPublished(confs[k])
    ensures forall s :: s in FileStems(confs[k]) ==> s in Retained(confs)
    ensures forall e :: e in entries && e.stem.Some? && e.stem.value in FileStems(confs[k]) ==>
              e !in RemovalSelection(entries, Retained(confs))
  {
    forall s | s in FileStems(confs[k]) ensures s in Retained(confs) {
      RetainedIff(confs, s);
    }
    forall e | e in entries && e.stem.Some? && e.stem.value in FileStems(confs[k])
      ensures e !in RemovalSelection(entries, Retained(confs))
    {
      RemovalSelectionIff(entries, Retained(confs), e);
    }
  }
}
