/** `process_directory` of the `utf8fix` package: after its checks, a first
    pass renames directories bottom-up and a second pass, over a fresh
    top-down walk of the tree the first pass left, renames files. Each rename
    is a single `os.rename` onto the cleaned name, and any exception from one
    entry is logged and the pass goes on. */
module Utf8fixRewrite {
  import opened Errors
  import opened Fs
  import opened Walk
  import opened Report
  import opened Nfkd
  import Utf8fixClean
  import UnifileBuild
  import UnifileSrc

  /** The checks before the walks (lines 22-31), in their order: `None`,
      falsy, neither `str` nor path-like, missing, not a directory. */
  function Validate(directory: UnifileBuild.DirArg, e: map<Path, Node>): (r: Result<Path>)
    ensures r.Ok? <==> directory.PathArg? && directory.at in e && e[directory.at].Dir?
    ensures r.Ok? ==> r.value == directory.at
    ensures directory.NoneArg? || directory == UnifileBuild.OtherArg(true) ==> r == Err(TypeError)
    ensures directory.EmptyStr? || directory == UnifileBuild.OtherArg(false) ==> r == Err(ValueError)
    ensures directory.PathArg? && !(directory.at in e && e[directory.at].Dir?) ==> r == Err(ValueError)
  {
    match directory
    case NoneArg => Err(TypeError)
    case EmptyStr => Err(ValueError)
    case OtherArg(truthy) => if truthy then Err(TypeError) else Err(ValueError)
    case PathArg(p) =>
      if p !in e then Err(ValueError)
      else if !e[p].Dir? then Err(ValueError)
      else Ok(p)
  }

  // ---------------------------------------------------------------------------
  // What one name, one pass and the whole call do

  /** One listed name of kind `kind` in `root` (lines 36-47 for a directory,
      52-63 for a file): a name that cleaning leaves alone is skipped, a dry
      run logs the proposal, a real run is one `os.rename` onto the cleaned
      name whose failure is logged. `clean_filename` never raises for a
      `str` name, whatever the mode, so nothing ends the pass. */
  function EntryRun(e: map<Path, Node>, kind: Kind, root: Path, name: string, mode: string, dryRun: bool, fold: Fold): Run {
    var newName := Utf8fixClean.CleanFilename(name, mode, fold);
    if newName == name then Run(Pass, e, [])
    else if dryRun then Run(Pass, e, [WouldRename(kind, Join(root, name), Join(root, newName))])
    else UnifileSrc.RenameEntryRun(e, kind, root, name, newName)
  }

  /** The names of one kind in one step, in order. */
  function NamesRun(e: map<Path, Node>, kind: Kind, root: Path, names: seq<string>, mode: string, dryRun: bool, fold: Fold): Run
    decreases |names|
  {
    if names == [] then Run(Pass, e, [])
    else
      var r := EntryRun(e, kind, root, names[0], mode, dryRun, fold);
      Prepend(r.log, NamesRun(r.after, kind, root, names[1..], mode, dryRun, fold))
  }

  /** One pass: the names of kind `kind` of every step of `w`, in order (the
      loop at line 34 with `kind == DirKind`, at line 50 with
      `kind == FileKind`). */
  function PassRun(e: map<Path, Node>, w: seq<Step>, kind: Kind, mode: string, dryRun: bool, fold: Fold): Run
    decreases |w|
  {
    if w == [] then Run(Pass, e, [])
    else
      var r := NamesRun(e, kind, w[0].root, Listing(w[0], kind), mode, dryRun, fold);
      Prepend(r.log, PassRun(r.after, w[1..], kind, mode, dryRun, fold))
  }

  /** The directory pass over `w1`, then the file pass over `w2`. */
  function TwoPassRun(e: map<Path, Node>, w1: seq<Step>, w2: seq<Step>, mode: string, dryRun: bool, fold: Fold): Run {
    var r := PassRun(e, w1, DirKind, mode, dryRun, fold);
    Prepend(r.log, PassRun(r.after, w2, FileKind, mode, dryRun, fold))
  }

  method ProcessName(fs: FileSystem, kind: Kind, root: Path, name: string, mode: string, dryRun: bool, fold: Fold)
    returns (log: seq<Record>)
    requires fs.Valid()
    modifies fs
    ensures fs.Valid()
    ensures Run(Pass, fs.entries, log) == EntryRun(old(fs.entries), kind, root, name, mode, dryRun, fold)
  {
    var newName := Utf8fixClean.CleanFilename(name, mode, fold);
    if newName == name {
      return [];
    }
    if dryRun {
      return [WouldRename(kind, Join(root, name), Join(root, newName))];
    }
    var rec := UnifileSrc.RenameEntry(fs, kind, root, name, newName);
    log := [rec];
  }

  method ProcessNames(fs: FileSystem, kind: Kind, root: Path, names: seq<string>, mode: string, dryRun: bool, fold: Fold)
    returns (log: seq<Record>)
    requires fs.Valid()
    modifies fs
    ensures fs.Valid()
    ensures Run(Pass, fs.entries, log) == NamesRun(old(fs.entries), kind, root, names, mode, dryRun, fold)
  {
    ghost var all := NamesRun(fs.entries, kind, root, names, mode, dryRun, fold);
    log := [];
    for i := 0 to |names|
      invariant fs.Valid()
      invariant all == Prepend(log, NamesRun(fs.entries, kind, root, names[i..], mode, dryRun, fold))
    {
      assert names[i..][1..] == names[i + 1..];
      var more := ProcessName(fs, kind, root, names[i], mode, dryRun, fold);
      PrependTwice(log, more, NamesRun(fs.entries, kind, root, names[i + 1..], mode, dryRun, fold));
      log := log + more;
    }
    assert names[|names|..] == [];
  }

  method RunPass(fs: FileSystem, w: seq<Step>, kind: Kind, mode: string, dryRun: bool, fold: Fold)
    returns (log: seq<Record>)
    requires fs.Valid()
    modifies fs
    ensures fs.Valid()
    ensures Run(Pass, fs.entries, log) == PassRun(old(fs.entries), w, kind, mode, dryRun, fold)
  {
    ghost var all := PassRun(fs.entries, w, kind, mode, dryRun, fold);
    log := [];
    for k := 0 to |w|
      invariant fs.Valid()
      invariant all == Prepend(log, PassRun(fs.entries, w[k..], kind, mode, dryRun, fold))
    {
      assert w[k..][1..] == w[k + 1..];
      var more := ProcessNames(fs, kind, w[k].root, Listing(w[k], kind), mode, dryRun, fold);
      PrependTwice(log, more, PassRun(fs.entries, w[k + 1..], kind, mode, dryRun, fold));
      log := log + more;
    }
    assert w[|w|..] == [];
  }

  /** `process_directory(directory, mode, dry_run)` (lines 19-63). The first
      walk is taken from the tree before any rename, bottom-up; the second,
      lazy in the source, is taken top-down from the tree the first pass
      left. Once the checks pass the call always returns normally. */
  method ProcessDirectory(fs: FileSystem, directory: UnifileBuild.DirArg, mode: string, dryRun: bool, fold: Fold)
    returns (r: Outcome, log: seq<Record>, w1: seq<Step>, w2: seq<Step>)
    requires fs.Valid()
    modifies fs
    ensures fs.Valid()
    ensures Validate(directory, old(fs.entries)).Err? ==>
      r == Fail(Validate(directory, old(fs.entries)).error) && log == [] && fs.entries == old(fs.entries)
    ensures Validate(directory, old(fs.entries)).Ok? ==>
      var top := directory.at;
      var pass1 := PassRun(old(fs.entries), w1, DirKind, mode, dryRun, fold);
      && r == Pass
      && IsWalk(old(fs.entries), top, w1) && BottomUp(w1)
      && IsWalk(pass1.after, top, w2) && TopDown(w2)
      && Run(r, fs.entries, log) == TwoPassRun(old(fs.entries), w1, w2, mode, dryRun, fold)
      && Shrinks(old(fs.entries), fs.entries)
      && (Utf8fixClean.CleanStaysIn(mode, fold) ==> SameOutside(old(fs.entries), fs.entries, top))
  {
    w1, w2 := [], [];
    var top := Validate(directory, fs.entries);
    if top.Err? {
      return Fail(top.error), [], w1, w2;
    }
    ghost var e0 := fs.entries;
    w1 := WalkBottomUp(fs.entries, top.value);
    var dirLog := RunPass(fs, w1, DirKind, mode, dryRun, fold);
    ghost var e1 := fs.entries;
    PassShrinks(e0, w1, DirKind, mode, dryRun, fold);
    w2 := WalkTopDown(fs.entries, top.value);
    var fileLog := RunPass(fs, w2, FileKind, mode, dryRun, fold);
    r, log := Pass, dirLog + fileLog;
    PassShrinks(e1, w2, FileKind, mode, dryRun, fold);
    if Utf8fixClean.CleanStaysIn(mode, fold) {
      WalkWellListed(e0, top.value, w1);
      WalkWellListed(e1, top.value, w2);
      PassInside(e0, w1, DirKind, mode, dryRun, fold, top.value);
      PassInside(e1, w2, FileKind, mode, dryRun, fold, top.value);
      SameOutsideTrans(e0, e1, fs.entries, top.value);
    }
  }

  // ---------------------------------------------------------------------------
  // No content appears; some may be lost

  lemma EntryShrinks(e: map<Path, Node>, kind: Kind, root: Path, name: string, mode: string, dryRun: bool, fold: Fold)
    requires Tree(e)
    ensures Shrinks(e, EntryRun(e, kind, root, name, mode, dryRun, fold).after)
  {
    var newName := Utf8fixClean.CleanFilename(name, mode, fold);
    if newName != name && !dryRun {
      UnifileSrc.RenameEntryShrinks(e, kind, root, name, newName);
    }
  }

  lemma {:induction false} NamesShrink(e: map<Path, Node>, kind: Kind, root: Path, names: seq<string>, mode: string, dryRun: bool, fold: Fold)
    requires Tree(e)
    ensures Shrinks(e, NamesRun(e, kind, root, names, mode, dryRun, fold).after)
    decreases |names|
  {
    if names != [] {
      var r := EntryRun(e, kind, root, names[0], mode, dryRun, fold);
      EntryShrinks(e, kind, root, names[0], mode, dryRun, fold);
      NamesShrink(r.after, kind, root, names[1..], mode, dryRun, fold);
      ShrinksTrans(e, r.after, NamesRun(r.after, kind, root, names[1..], mode, dryRun, fold).after);
    }
  }

  /** Whatever happens, a pass leaves a tree holding no content it did not
      hold before. */
  lemma {:induction false} PassShrinks(e: map<Path, Node>, w: seq<Step>, kind: Kind, mode: string, dryRun: bool, fold: Fold)
    requires Tree(e)
    ensures Shrinks(e, PassRun(e, w, kind, mode, dryRun, fold).after)
    decreases |w|
  {
    if w != [] {
      var r := NamesRun(e, kind, w[0].root, Listing(w[0], kind), mode, dryRun, fold);
      NamesShrink(e, kind, w[0].root, Listing(w[0], kind), mode, dryRun, fold);
      PassShrinks(r.after, w[1..], kind, mode, dryRun, fold);
      ShrinksTrans(e, r.after, PassRun(r.after, w[1..], kind, mode, dryRun, fold).after);
    }
  }

  // ---------------------------------------------------------------------------
  // Nothing outside the directory changes

  lemma EntryInside(e: map<Path, Node>, kind: Kind, root: Path, name: string, mode: string, dryRun: bool, fold: Fold)
    requires Tree(e) && PlainName(name)
    requires Fs.StaysIn(Utf8fixClean.CleanFilename(name, mode, fold))
    ensures SameOutside(e, EntryRun(e, kind, root, name, mode, dryRun, fold).after, root)
  {
    var newName := Utf8fixClean.CleanFilename(name, mode, fold);
    if newName != name && !dryRun {
      UnifileSrc.RenameEntryInside(e, kind, root, name, newName);
    }
  }

  lemma {:induction false} NamesInside(e: map<Path, Node>, kind: Kind, root: Path, names: seq<string>,
                                       mode: string, dryRun: bool, fold: Fold)
    requires Tree(e)
    requires forall n :: n in names ==> PlainName(n)
    requires Utf8fixClean.CleanStaysIn(mode, fold)
    ensures SameOutside(e, NamesRun(e, kind, root, names, mode, dryRun, fold).after, root)
    decreases |names|
  {
    if names != [] {
      var r := EntryRun(e, kind, root, names[0], mode, dryRun, fold);
      EntryInside(e, kind, root, names[0], mode, dryRun, fold);
      EntryShrinks(e, kind, root, names[0], mode, dryRun, fold);
      NamesInside(r.after, kind, root, names[1..], mode, dryRun, fold);
      SameOutsideTrans(e, r.after, NamesRun(r.after, kind, root, names[1..], mode, dryRun, fold).after, root);
    }
  }

  /** When the cleaned names stay in their directories, a pass over steps
      below `top` changes nothing outside `top`. */
  lemma {:induction false} PassInside(e: map<Path, Node>, w: seq<Step>, kind: Kind, mode: string, dryRun: bool, fold: Fold, top: Path)
    requires Tree(e) && WellListed(w, top)
    requires Utf8fixClean.CleanStaysIn(mode, fold)
    ensures SameOutside(e, PassRun(e, w, kind, mode, dryRun, fold).after, top)
    decreases |w|
  {
    if w != [] {
      var s := w[0];
      var r := NamesRun(e, kind, s.root, Listing(s, kind), mode, dryRun, fold);
      assert IsPrefix(top, s.root);
      NamesInside(e, kind, s.root, Listing(s, kind), mode, dryRun, fold);
      UnifileBuild.SameOutsideWiden(e, r.after, top, s.root);
      NamesShrink(e, kind, s.root, Listing(s, kind), mode, dryRun, fold);
      WellListedRest(w, top);
      PassInside(r.after, w[1..], kind, mode, dryRun, fold, top);
      SameOutsideTrans(e, r.after, PassRun(r.after, w[1..], kind, mode, dryRun, fold).after, top);
    }
  }

  // ---------------------------------------------------------------------------
  // A dry run, clean names, any mode other than ascii

  lemma {:induction false} NamesDryRun(e: map<Path, Node>, kind: Kind, root: Path, names: seq<string>, mode: string, fold: Fold)
    ensures NamesRun(e, kind, root, names, mode, true, fold) ==
      Run(Pass, e, Proposals(kind, root, names, Utf8fixClean.Cleaner(mode, fold)))
    decreases |names|
  {
    if names != [] {
      NamesDryRun(e, kind, root, names[1..], mode, fold);
    }
  }

  lemma {:induction false} PassDryRun(e: map<Path, Node>, w: seq<Step>, kind: Kind, mode: string, fold: Fold)
    ensures PassRun(e, w, kind, mode, true, fold) == Run(Pass, e, KindProposals(w, kind, Utf8fixClean.Cleaner(mode, fold)))
    decreases |w|
  {
    if w != [] {
      NamesDryRun(e, kind, w[0].root, Listing(w[0], kind), mode, fold);
      PassDryRun(e, w[1..], kind, mode, fold);
    }
  }

  /** A dry run changes nothing, so both walks are walks of the same tree,
      and logs the proposals for the directories of the first walk, then
      for the files of the second. */
  lemma TwoPassDryRun(e: map<Path, Node>, w1: seq<Step>, w2: seq<Step>, mode: string, fold: Fold)
    ensures TwoPassRun(e, w1, w2, mode, true, fold) ==
      Run(Pass, e, KindProposals(w1, DirKind, Utf8fixClean.Cleaner(mode, fold)) + KindProposals(w2, FileKind, Utf8fixClean.Cleaner(mode, fold)))
  {
    PassDryRun(e, w1, DirKind, mode, fold);
    PassDryRun(e, w2, FileKind, mode, fold);
  }

  /** The names a pass visits are all clean. */
  ghost predicate KindClean(w: seq<Step>, kind: Kind, clean: string -> string) {
    forall k :: 0 <= k < |w| ==> forall n :: n in Listing(w[k], kind) ==> clean(n) == n
  }

  lemma {:induction false} NamesClean(e: map<Path, Node>, kind: Kind, root: Path, names: seq<string>, mode: string, dryRun: bool, fold: Fold)
    requires forall n :: n in names ==> Utf8fixClean.CleanFilename(n, mode, fold) == n
    ensures NamesRun(e, kind, root, names, mode, dryRun, fold) == Run(Pass, e, [])
    decreases |names|
  {
    if names != [] {
      NamesClean(e, kind, root, names[1..], mode, dryRun, fold);
    }
  }

  /** A pass over clean names renames nothing and logs nothing, dry run or
      not (the `name != new_name` tests of lines 38 and 54). */
  lemma {:induction false} PassClean(e: map<Path, Node>, w: seq<Step>, kind: Kind, mode: string, dryRun: bool, fold: Fold)
    requires KindClean(w, kind, Utf8fixClean.Cleaner(mode, fold))
    ensures PassRun(e, w, kind, mode, dryRun, fold) == Run(Pass, e, [])
    decreases |w|
  {
    if w != [] {
      var clean := Utf8fixClean.Cleaner(mode, fold);
      assert forall n :: n in Listing(w[0], kind) ==> clean(n) == n;
      NamesClean(e, kind, w[0].root, Listing(w[0], kind), mode, dryRun, fold);
      assert KindClean(w[1..], kind, clean) by {
        forall k | 0 <= k < |w[1..]|
          ensures forall n :: n in Listing(w[1..][k], kind) ==> clean(n) == n
        {
          assert w[1..][k] == w[k + 1];
        }
      }
      PassClean(e, w[1..], kind, mode, dryRun, fold);
    }
  }

  lemma {:induction false} NamesAnyMode(e: map<Path, Node>, kind: Kind, root: Path, names: seq<string>, mode: string, dryRun: bool, fold: Fold)
    requires mode != "ascii"
    ensures NamesRun(e, kind, root, names, mode, dryRun, fold) == NamesRun(e, kind, root, names, "preserve", dryRun, fold)
    decreases |names|
  {
    if names != [] {
      var r := EntryRun(e, kind, root, names[0], mode, dryRun, fold);
      assert r == EntryRun(e, kind, root, names[0], "preserve", dryRun, fold);
      NamesAnyMode(r.after, kind, root, names[1..], mode, dryRun, fold);
    }
  }

  /** The mode is never checked: a pass under any mode other than `'ascii'`
      is the pass under `'preserve'`, and never raises. */
  lemma {:induction false} PassAnyMode(e: map<Path, Node>, w: seq<Step>, kind: Kind, mode: string, dryRun: bool, fold: Fold)
    requires mode != "ascii"
    ensures PassRun(e, w, kind, mode, dryRun, fold) == PassRun(e, w, kind, "preserve", dryRun, fold)
    decreases |w|
  {
    if w != [] {
      var r := NamesRun(e, kind, w[0].root, Listing(w[0], kind), mode, dryRun, fold);
      NamesAnyMode(e, kind, w[0].root, Listing(w[0], kind), mode, dryRun, fold);
      PassAnyMode(r.after, w[1..], kind, mode, dryRun, fold);
    }
  }

  // ---------------------------------------------------------------------------
  // A real run answers the proposals of a dry run, one by one

  lemma EntryAnswers(e: map<Path, Node>, kind: Kind, root: Path, name: string, mode: string, fold: Fold)
    requires PlainName(name)
    ensures var r := EntryRun(e, kind, root, name, mode, false, fold);
      var props := Proposal(kind, root, name, Utf8fixClean.Cleaner(mode, fold));
      |r.log| == |props| && AnswersPrefix(r.log, props)
  {
    var clean := Utf8fixClean.Cleaner(mode, fold);
    var newName := Utf8fixClean.CleanFilename(name, mode, fold);
    assert clean(name) == newName;
    if newName != name {
      UnifileSrc.RenameEntryAnswers(e, kind, root, name, newName);
    }
  }

  lemma {:induction false} NamesAnswer(e: map<Path, Node>, kind: Kind, root: Path, names: seq<string>, mode: string, fold: Fold)
    requires forall n :: n in names ==> PlainName(n)
    ensures var r := NamesRun(e, kind, root, names, mode, false, fold);
      var props := Proposals(kind, root, names, Utf8fixClean.Cleaner(mode, fold));
      r.outcome == Pass && |r.log| == |props| && AnswersPrefix(r.log, props)
    decreases |names|
  {
    if names != [] {
      var clean := Utf8fixClean.Cleaner(mode, fold);
      var r := EntryRun(e, kind, root, names[0], mode, false, fold);
      EntryAnswers(e, kind, root, names[0], mode, fold);
      assert Proposals(kind, root, names, clean) == Proposal(kind, root, names[0], clean) + Proposals(kind, root, names[1..], clean);
      NamesAnswer(r.after, kind, root, names[1..], mode, fold);
      var rest := NamesRun(r.after, kind, root, names[1..], mode, false, fold);
      AnswersConcat(r.log, Proposal(kind, root, names[0], clean), rest.log, Proposals(kind, root, names[1..], clean));
    }
  }

  lemma {:induction false} PassAnswer(e: map<Path, Node>, w: seq<Step>, kind: Kind, mode: string, fold: Fold, top: Path)
    requires WellListed(w, top)
    ensures var r := PassRun(e, w, kind, mode, false, fold);
      var props := KindProposals(w, kind, Utf8fixClean.Cleaner(mode, fold));
      r.outcome == Pass && |r.log| == |props| && AnswersPrefix(r.log, props)
    decreases |w|
  {
    if w != [] {
      var clean := Utf8fixClean.Cleaner(mode, fold);
      var s := w[0];
      var r := NamesRun(e, kind, s.root, Listing(s, kind), mode, false, fold);
      NamesAnswer(e, kind, s.root, Listing(s, kind), mode, fold);
      WellListedRest(w, top);
      PassAnswer(r.after, w[1..], kind, mode, fold, top);
      var rest := PassRun(r.after, w[1..], kind, mode, false, fold);
      AnswersConcat(r.log, Proposals(kind, s.root, Listing(s, kind), clean), rest.log, KindProposals(w[1..], kind, clean));
    }
  }

  /** A real run returns normally and logs, in order, one record per
      proposal a dry run over the same two walks logs: the entry renamed
      onto the proposed path, or an error logged for it. */
  lemma TwoPassAnswer(e: map<Path, Node>, w1: seq<Step>, w2: seq<Step>, mode: string, fold: Fold, top: Path)
    requires WellListed(w1, top) && WellListed(w2, top)
    ensures var r := TwoPassRun(e, w1, w2, mode, false, fold);
      var props := KindProposals(w1, DirKind, Utf8fixClean.Cleaner(mode, fold)) + KindProposals(w2, FileKind, Utf8fixClean.Cleaner(mode, fold));
      r.outcome == Pass && |r.log| == |props| && AnswersPrefix(r.log, props)
  {
    var clean := Utf8fixClean.Cleaner(mode, fold);
    var r := PassRun(e, w1, DirKind, mode, false, fold);
    PassAnswer(e, w1, DirKind, mode, fold, top);
    PassAnswer(r.after, w2, FileKind, mode, fold, top);
    var rest := PassRun(r.after, w2, FileKind, mode, false, fold);
    AnswersConcat(r.log, KindProposals(w1, DirKind, clean), rest.log, KindProposals(w2, FileKind, clean));
  }
}
