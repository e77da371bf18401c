/** `process_directory` of the `unifile` under `src/`: the same bottom-up walk
    and the same cleaner as the packaged copy, but every entry is renamed by a
    single `os.rename` onto its cleaned name, with no suffix search, no merge
    and no permission check. */
module UnifileSrc {
  import opened Errors
  import opened Fs
  import opened Walk
  import opened Report
  import opened Nfkd
  import UnifileClean
  import UnifileBuild

  /** The checks before the walk (lines 92-97), in their order: `None`,
      falsy, missing. */
  function Validate(directory: UnifileBuild.DirArg, e: map<Path, Node>): (r: Result<Path>)
    ensures r.Ok? <==> directory.PathArg? && directory.at in e
    ensures r.Ok? ==> r.value == directory.at
    ensures directory.NoneArg? || directory == UnifileBuild.OtherArg(true) ==> r == Err(TypeError)
    ensures directory.EmptyStr? || directory == UnifileBuild.OtherArg(false) ==> r == Err(ValueError)
    ensures directory.PathArg? && directory.at !in e ==> r == Err(ValueError)
  {
    match directory
    case NoneArg => Err(TypeError)
    case EmptyStr => Err(ValueError)
    case OtherArg(truthy) => if truthy then Err(TypeError) else Err(ValueError)
    case PathArg(p) => if p !in e then Err(ValueError) else Ok(p)
  }

  /** These checks are those of the packaged copy when access is granted. */
  lemma ValidateWithoutAccess(directory: UnifileBuild.DirArg, e: map<Path, Node>)
    ensures Validate(directory, e) == UnifileBuild.Validate(directory, e, true)
    ensures UnifileBuild.Validate(directory, e, false).Ok? ==> false
  {
  }

  // ---------------------------------------------------------------------------
  // What one name and the whole walk do

  /** One listed name of kind `kind` in `root` (lines 102-114 for a file,
      117-129 for a directory): an invalid mode raises `ValueError` out of
      `clean_filename`, a name that cleaning leaves alone is skipped, a dry
      run logs the proposal, a real run calls `os.rename` onto the cleaned
      name and logs its `OSError`. */
  function EntryRun(e: map<Path, Node>, kind: Kind, root: Path, name: string, mode: string, dryRun: bool, fold: Fold): Run {
    match UnifileClean.CleanFilename(UnifileClean.Str(name), mode, fold)
    case Err(error) => Run(Fail(error), e, [])
    case Ok(newName) =>
      var src, dst := Join(root, name), Join(root, newName);
      if newName == name then Run(Pass, e, [])
      else if dryRun then Run(Pass, e, [WouldRename(kind, src, dst)])
      else RenameEntryRun(e, kind, root, name, newName)
  }

  /** `os.rename(root/name, root/newName)` with its `OSError` logged. */
  function RenameEntryRun(e: map<Path, Node>, kind: Kind, root: Path, name: string, newName: string): Run {
    var src, dst := Join(root, name), Join(root, newName);
    var r := RenameRun(e, src, dst);
    Run(Pass, r.after, [if r.outcome.Pass? then Renamed(kind, src, dst) else Failed(src)])
  }

  /** The names of one kind in one step, in order; an exception ends the
      walk. */
  function NamesRun(e: map<Path, Node>, kind: Kind, root: Path, names: seq<string>, mode: string, dryRun: bool, fold: Fold): Run
    decreases |names|
  {
    if names == [] then Run(Pass, e, [])
    else
      var r := EntryRun(e, kind, root, names[0], mode, dryRun, fold);
      if r.outcome.Fail? then r else Prepend(r.log, NamesRun(r.after, kind, root, names[1..], mode, dryRun, fold))
  }

  /** One `(root, dirs, files)` step: its files, then its subdirectories. */
  function StepRun(e: map<Path, Node>, s: Step, mode: string, dryRun: bool, fold: Fold): Run {
    var r := NamesRun(e, FileKind, s.root, s.files, mode, dryRun, fold);
    if r.outcome.Fail? then r else Prepend(r.log, NamesRun(r.after, DirKind, s.root, s.dirs, mode, dryRun, fold))
  }

  /** The steps of a walk in order (the loop at line 100). */
  function StepsRun(e: map<Path, Node>, w: seq<Step>, mode: string, dryRun: bool, fold: Fold): Run
    decreases |w|
  {
    if w == [] then Run(Pass, e, [])
    else
      var r := StepRun(e, w[0], mode, dryRun, fold);
      if r.outcome.Fail? then r else Prepend(r.log, StepsRun(r.after, w[1..], mode, dryRun, fold))
  }

  method ProcessEntry(fs: FileSystem, kind: Kind, root: Path, name: string, mode: string, dryRun: bool, fold: Fold)
    returns (r: Outcome, log: seq<Record>)
    requires fs.Valid()
    modifies fs
    ensures fs.Valid()
    ensures Run(r, fs.entries, log) == EntryRun(old(fs.entries), kind, root, name, mode, dryRun, fold)
  {
    var cleaned := UnifileClean.CleanFilename(UnifileClean.Str(name), mode, fold);
    if cleaned.Err? {
      return Fail(cleaned.error), [];
    }
    var newName := cleaned.value;
    var src, dst := Join(root, name), Join(root, newName);
    if newName == name {
      return Pass, [];
    }
    if dryRun {
      return Pass, [WouldRename(kind, src, dst)];
    }
    var rec := RenameEntry(fs, kind, root, name, newName);
    r, log := Pass, [rec];
  }

  /** `os.rename(root/name, root/newName)` and the record it leaves. */
  method RenameEntry(fs: FileSystem, kind: Kind, root: Path, name: string, newName: string) returns (rec: Record)
    requires fs.Valid()
    modifies fs
    ensures fs.Valid()
    ensures Run(Pass, fs.entries, [rec]) == RenameEntryRun(old(fs.entries), kind, root, name, newName)
  {
    var src, dst := Join(root, name), Join(root, newName);
    var o := fs.Rename(src, dst);
    rec := if o.Pass? then Renamed(kind, src, dst) else Failed(src);
  }

  method ProcessNames(fs: FileSystem, kind: Kind, root: Path, names: seq<string>, mode: string, dryRun: bool, fold: Fold)
    returns (r: Outcome, log: seq<Record>)
    requires fs.Valid()
    modifies fs
    ensures fs.Valid()
    ensures Run(r, fs.entries, log) == NamesRun(old(fs.entries), kind, root, names, mode, dryRun, fold)
  {
    ghost var all := NamesRun(fs.entries, kind, root, names, mode, dryRun, fold);
    log := [];
    for i := 0 to |names|
      invariant fs.Valid()
      invariant all == Prepend(log, NamesRun(fs.entries, kind, root, names[i..], mode, dryRun, fold))
    {
      NamesUnfold(fs.entries, kind, root, names, i, mode, dryRun, fold);
      var o, more := ProcessEntry(fs, kind, root, names[i], mode, dryRun, fold);
      if o.Fail? {
        return o, log + more;
      }
      PrependTwice(log, more, NamesRun(fs.entries, kind, root, names[i + 1..], mode, dryRun, fold));
      log := log + more;
    }
    assert names[|names|..] == [];
    r := Pass;
  }

  method ProcessStep(fs: FileSystem, s: Step, mode: string, dryRun: bool, fold: Fold) returns (r: Outcome, log: seq<Record>)
    requires fs.Valid()
    modifies fs
    ensures fs.Valid()
    ensures Run(r, fs.entries, log) == StepRun(old(fs.entries), s, mode, dryRun, fold)
  {
    var fileLog, dirLog;
    r, fileLog := ProcessNames(fs, FileKind, s.root, s.files, mode, dryRun, fold);
    if r.Fail? {
      return r, fileLog;
    }
    r, dirLog := ProcessNames(fs, DirKind, s.root, s.dirs, mode, dryRun, fold);
    log := fileLog + dirLog;
  }

  method ProcessSteps(fs: FileSystem, w: seq<Step>, mode: string, dryRun: bool, fold: Fold) returns (r: Outcome, log: seq<Record>)
    requires fs.Valid()
    modifies fs
    ensures fs.Valid()
    ensures Run(r, fs.entries, log) == StepsRun(old(fs.entries), w, mode, dryRun, fold)
  {
    ghost var all := StepsRun(fs.entries, w, mode, dryRun, fold);
    log := [];
    for k := 0 to |w|
      invariant fs.Valid()
      invariant all == Prepend(log, StepsRun(fs.entries, w[k..], mode, dryRun, fold))
    {
      StepsUnfold(fs.entries, w, k, mode, dryRun, fold);
      var o, more := ProcessStep(fs, w[k], mode, dryRun, fold);
      if o.Fail? {
        return o, log + more;
      }
      PrependTwice(log, more, StepsRun(fs.entries, w[k + 1..], mode, dryRun, fold));
      log := log + more;
    }
    assert w[|w|..] == [];
    r := Pass;
  }

  /** `process_directory(directory, mode, dry_run)` (lines 92-129): the
      checks, then `os.walk(directory, topdown=False)`, taken from the tree
      as it is before any rename. */
  method ProcessDirectory(fs: FileSystem, directory: UnifileBuild.DirArg, mode: string, dryRun: bool, fold: Fold)
    returns (r: Outcome, log: seq<Record>, walk: seq<Step>)
    requires fs.Valid()
    modifies fs
    ensures fs.Valid()
    ensures Validate(directory, old(fs.entries)).Err? ==>
      r == Fail(Validate(directory, old(fs.entries)).error) && log == [] && fs.entries == old(fs.entries)
    ensures Validate(directory, old(fs.entries)).Ok? ==>
      var top := directory.at;
      && IsWalk(old(fs.entries), top, walk) && BottomUp(walk)
      && Run(r, fs.entries, log) == StepsRun(old(fs.entries), walk, mode, dryRun, fold)
      && Shrinks(old(fs.entries), fs.entries)
      && (UnifileClean.CleanStaysIn(mode, fold) ==> SameOutside(old(fs.entries), fs.entries, top))
  {
    walk := [];
    var top := Validate(directory, fs.entries);
    if top.Err? {
      return Fail(top.error), [], walk;
    }
    ghost var e0 := fs.entries;
    walk := WalkBottomUp(fs.entries, top.value);
    r, log := ProcessSteps(fs, walk, mode, dryRun, fold);
    StepsShrink(e0, walk, mode, dryRun, fold);
    if UnifileClean.CleanStaysIn(mode, fold) {
      WalkWellListed(e0, top.value, walk);
      UnifileBuild.WalkRootsAreDirs(e0, top.value, walk);
      StepsInside(e0, walk, mode, dryRun, fold, top.value);
    }
  }

  lemma NamesUnfold(e: map<Path, Node>, kind: Kind, root: Path, names: seq<string>, i: nat, mode: string, dryRun: bool, fold: Fold)
    requires i < |names|
    ensures var r := EntryRun(e, kind, root, names[i], mode, dryRun, fold);
      NamesRun(e, kind, root, names[i..], mode, dryRun, fold) ==
        if r.outcome.Fail? then r else Prepend(r.log, NamesRun(r.after, kind, root, names[i + 1..], mode, dryRun, fold))
  {
    assert names[i..][1..] == names[i + 1..];
  }

  lemma StepsUnfold(e: map<Path, Node>, w: seq<Step>, k: nat, mode: string, dryRun: bool, fold: Fold)
    requires k < |w|
    ensures var r := StepRun(e, w[k], mode, dryRun, fold);
      StepsRun(e, w[k..], mode, dryRun, fold) ==
        if r.outcome.Fail? then r else Prepend(r.log, StepsRun(r.after, w[k + 1..], mode, dryRun, fold))
  {
    assert w[k..][1..] == w[k + 1..];
  }

  // ---------------------------------------------------------------------------
  // No content appears; some may be lost (see `SrcFileClobbered`)

  lemma RenameEntryShrinks(e: map<Path, Node>, kind: Kind, root: Path, name: string, newName: string)
    requires Tree(e)
    ensures Shrinks(e, RenameEntryRun(e, kind, root, name, newName).after)
  {
    var src, dst := Join(root, name), Join(root, newName);
    if RenameOk(e, src, dst) {
      RenamedTree(e, src, dst);
      RenamedDataFrom(e, src, dst);
    }
  }

  lemma EntryShrinks(e: map<Path, Node>, kind: Kind, root: Path, name: string, mode: string, dryRun: bool, fold: Fold)
    requires Tree(e)
    ensures Shrinks(e, EntryRun(e, kind, root, name, mode, dryRun, fold).after)
  {
    var cleaned := UnifileClean.CleanFilename(UnifileClean.Str(name), mode, fold);
    if cleaned.Ok? && cleaned.value != name && !dryRun {
      RenameEntryShrinks(e, kind, root, name, cleaned.value);
    }
  }

  lemma {:induction false} NamesShrink(e: map<Path, Node>, kind: Kind, root: Path, names: seq<string>, mode: string, dryRun: bool, fold: Fold)
    requires Tree(e)
    ensures Shrinks(e, NamesRun(e, kind, root, names, mode, dryRun, fold).after)
    decreases |names|
  {
    if names != [] {
      var r := EntryRun(e, kind, root, names[0], mode, dryRun, fold);
      EntryShrinks(e, kind, root, names[0], mode, dryRun, fold);
      NamesAfter(e, kind, root, names, mode, dryRun, fold);
      if r.outcome.Pass? {
        NamesShrink(r.after, kind, root, names[1..], mode, dryRun, fold);
        ShrinksTrans(e, r.after, NamesRun(r.after, kind, root, names[1..], mode, dryRun, fold).after);
      }
    }
  }

  /** Where a pass over `names` leaves the tree: where the first name left
      it, or where the rest of the names leave it from there. */
  lemma NamesAfter(e: map<Path, Node>, kind: Kind, root: Path, names: seq<string>, mode: string, dryRun: bool, fold: Fold)
    requires names != []
    ensures var r := EntryRun(e, kind, root, names[0], mode, dryRun, fold);
      NamesRun(e, kind, root, names, mode, dryRun, fold).after ==
        if r.outcome.Fail? then r.after else NamesRun(r.after, kind, root, names[1..], mode, dryRun, fold).after
  {
  }

  lemma StepShrinks(e: map<Path, Node>, s: Step, mode: string, dryRun: bool, fold: Fold)
    requires Tree(e)
    ensures Shrinks(e, StepRun(e, s, mode, dryRun, fold).after)
  {
    var r := NamesRun(e, FileKind, s.root, s.files, mode, dryRun, fold);
    NamesShrink(e, FileKind, s.root, s.files, mode, dryRun, fold);
    if r.outcome.Pass? {
      NamesShrink(r.after, DirKind, s.root, s.dirs, mode, dryRun, fold);
      ShrinksTrans(e, r.after, NamesRun(r.after, DirKind, s.root, s.dirs, mode, dryRun, fold).after);
    }
  }

  /** Whatever the outcome, the entries after the walk form a tree holding
      no content they did not hold before. */
  lemma {:induction false} StepsShrink(e: map<Path, Node>, w: seq<Step>, mode: string, dryRun: bool, fold: Fold)
    requires Tree(e)
    ensures Shrinks(e, StepsRun(e, w, mode, dryRun, fold).after)
    decreases |w|
  {
    if w != [] {
      var r := StepRun(e, w[0], mode, dryRun, fold);
      StepShrinks(e, w[0], mode, dryRun, fold);
      if r.outcome.Pass? {
        StepsShrink(r.after, w[1..], mode, dryRun, fold);
        ShrinksTrans(e, r.after, StepsRun(r.after, w[1..], mode, dryRun, fold).after);
      }
    }
  }

  // ---------------------------------------------------------------------------
  // Nothing outside the directory changes

  /** `os.rename` of an entry onto its own directory fails. */
  lemma NotOntoParent(e: map<Path, Node>, p: Path)
    requires Tree(e) && p != []
    ensures !RenameOk(e, p, Parent(p))
  {
    if RenameOk(e, p, Parent(p)) {
      RenameApart(e, p, Parent(p));
      assert false;
    }
  }

  lemma RenameEntryInside(e: map<Path, Node>, kind: Kind, root: Path, name: string, newName: string)
    requires Tree(e) && PlainName(name) && Fs.StaysIn(newName)
    ensures SameOutside(e, RenameEntryRun(e, kind, root, name, newName).after, root)
  {
    var src, dst := root + [name], Join(root, newName);
    UnifileBuild.ChildBelow(root, root, name);
    JoinStaysIn(root, newName);
    if dst == root {
      assert Parent(src) == root;
      NotOntoParent(e, src);
    } else {
      UnifileBuild.ChildBelow(root, root, newName);
      RenameRunInside(e, src, dst, root);
    }
  }

  lemma EntryInside(e: map<Path, Node>, kind: Kind, root: Path, name: string, mode: string, dryRun: bool, fold: Fold)
    requires Tree(e) && PlainName(name)
    requires Fs.StaysIn(UnifileClean.CleanedName(name, mode, fold))
    ensures SameOutside(e, EntryRun(e, kind, root, name, mode, dryRun, fold).after, root)
  {
    var cleaned := UnifileClean.CleanFilename(UnifileClean.Str(name), mode, fold);
    if cleaned.Ok? && cleaned.value != name && !dryRun {
      RenameEntryInside(e, kind, root, name, cleaned.value);
    }
  }

  lemma {:induction false} NamesInside(e: map<Path, Node>, kind: Kind, root: Path, names: seq<string>,
                                       mode: string, dryRun: bool, fold: Fold)
    requires Tree(e)
    requires forall n :: n in names ==> PlainName(n)
    requires UnifileClean.CleanStaysIn(mode, fold)
    ensures SameOutside(e, NamesRun(e, kind, root, names, mode, dryRun, fold).after, root)
    decreases |names|
  {
    if names != [] {
      var r := EntryRun(e, kind, root, names[0], mode, dryRun, fold);
      EntryInside(e, kind, root, names[0], mode, dryRun, fold);
      NamesAfter(e, kind, root, names, mode, dryRun, fold);
      if r.outcome.Pass? {
        EntryShrinks(e, kind, root, names[0], mode, dryRun, fold);
        NamesInside(r.after, kind, root, names[1..], mode, dryRun, fold);
        SameOutsideTrans(e, r.after, NamesRun(r.after, kind, root, names[1..], mode, dryRun, fold).after, root);
      }
    }
  }

  lemma StepInside(e: map<Path, Node>, s: Step, mode: string, dryRun: bool, fold: Fold)
    requires Tree(e)
    requires (forall n :: n in s.files ==> PlainName(n)) && (forall n :: n in s.dirs ==> PlainName(n))
    requires UnifileClean.CleanStaysIn(mode, fold)
    ensures SameOutside(e, StepRun(e, s, mode, dryRun, fold).after, s.root)
  {
    var r := NamesRun(e, FileKind, s.root, s.files, mode, dryRun, fold);
    NamesInside(e, FileKind, s.root, s.files, mode, dryRun, fold);
    if r.outcome.Pass? {
      NamesShrink(e, FileKind, s.root, s.files, mode, dryRun, fold);
      NamesInside(r.after, DirKind, s.root, s.dirs, mode, dryRun, fold);
      SameOutsideTrans(e, r.after, NamesRun(r.after, DirKind, s.root, s.dirs, mode, dryRun, fold).after, s.root);
    }
  }

  /** When the cleaned names stay in their directories, a walk of the tree
      below `top` changes nothing outside `top`. */
  lemma {:induction false} StepsInside(e: map<Path, Node>, w: seq<Step>, mode: string, dryRun: bool, fold: Fold, top: Path)
    requires Tree(e) && BottomUp(w) && WellListed(w, top)
    requires forall k :: 0 <= k < |w| ==> w[k].root in e && e[w[k].root].Dir?
    requires UnifileClean.CleanStaysIn(mode, fold)
    ensures SameOutside(e, StepsRun(e, w, mode, dryRun, fold).after, top)
    decreases |w|
  {
    if w != [] {
      var r := StepRun(e, w[0], mode, dryRun, fold);
      assert IsPrefix(top, w[0].root);
      StepInside(e, w[0], mode, dryRun, fold);
      UnifileBuild.SameOutsideWiden(e, r.after, top, w[0].root);
      if r.outcome.Pass? {
        StepShrinks(e, w[0], mode, dryRun, fold);
        UnifileBuild.RestOfWalk(e, r.after, w, top);
        StepsInside(r.after, w[1..], mode, dryRun, fold, top);
        SameOutsideTrans(e, r.after, StepsRun(r.after, w[1..], mode, dryRun, fold).after, top);
      }
    }
  }

  // ---------------------------------------------------------------------------
  // A dry run, an invalid mode, clean names

  lemma {:induction false} NamesDryRun(e: map<Path, Node>, kind: Kind, root: Path, names: seq<string>, mode: string, fold: Fold)
    requires UnifileClean.ValidMode(mode)
    ensures NamesRun(e, kind, root, names, mode, true, fold) ==
      Run(Pass, e, Proposals(kind, root, names, UnifileClean.Cleaner(mode, fold)))
    decreases |names|
  {
    if names != [] {
      NamesDryRun(e, kind, root, names[1..], mode, fold);
    }
  }

  /** A dry run changes nothing, returns normally and logs one proposal per
      listed name that cleaning changes, in walk order. */
  lemma {:induction false} StepsDryRun(e: map<Path, Node>, w: seq<Step>, mode: string, fold: Fold)
    requires UnifileClean.ValidMode(mode)
    ensures StepsRun(e, w, mode, true, fold) == Run(Pass, e, WalkProposals(w, UnifileClean.Cleaner(mode, fold)))
    decreases |w|
  {
    if w != [] {
      NamesDryRun(e, FileKind, w[0].root, w[0].files, mode, fold);
      NamesDryRun(e, DirKind, w[0].root, w[0].dirs, mode, fold);
      StepsDryRun(e, w[1..], mode, fold);
    }
  }

  lemma {:induction false} NamesInvalid(e: map<Path, Node>, kind: Kind, root: Path, names: seq<string>,
                                        mode: string, dryRun: bool, fold: Fold)
    requires !UnifileClean.ValidMode(mode)
    ensures NamesRun(e, kind, root, names, mode, dryRun, fold) ==
      if names == [] then Run(Pass, e, []) else Run(Fail(ValueError), e, [])
  {
  }

  /** Under an invalid mode the first listed name raises `ValueError`;
      nothing changes and nothing is logged, and the call returns normally
      only when no step lists a name. */
  lemma {:induction false} StepsInvalid(e: map<Path, Node>, w: seq<Step>, mode: string, dryRun: bool, fold: Fold)
    requires !UnifileClean.ValidMode(mode)
    ensures StepsRun(e, w, mode, dryRun, fold) ==
      if UnifileBuild.AllEmpty(w) then Run(Pass, e, []) else Run(Fail(ValueError), e, [])
    decreases |w|
  {
    if w != [] {
      NamesInvalid(e, FileKind, w[0].root, w[0].files, mode, dryRun, fold);
      NamesInvalid(e, DirKind, w[0].root, w[0].dirs, mode, dryRun, fold);
      StepsInvalid(e, w[1..], mode, dryRun, fold);
      UnifileBuild.AllEmptySplit(w);
    }
  }

  lemma {:induction false} NamesClean(e: map<Path, Node>, kind: Kind, root: Path, names: seq<string>,
                                      mode: string, dryRun: bool, fold: Fold)
    requires UnifileClean.ValidMode(mode)
    requires forall n :: n in names ==> UnifileClean.CleanedName(n, mode, fold) == n
    ensures NamesRun(e, kind, root, names, mode, dryRun, fold) == Run(Pass, e, [])
    decreases |names|
  {
    if names != [] {
      EntryClean(e, kind, root, names[0], mode, dryRun, fold);
      NamesClean(e, kind, root, names[1..], mode, dryRun, fold);
    }
  }

  lemma EntryClean(e: map<Path, Node>, kind: Kind, root: Path, name: string, mode: string, dryRun: bool, fold: Fold)
    requires UnifileClean.ValidMode(mode) && UnifileClean.CleanedName(name, mode, fold) == name
    ensures EntryRun(e, kind, root, name, mode, dryRun, fold) == Run(Pass, e, [])
  {
  }

  /** Over a walk whose names are all clean, nothing is renamed and nothing
      is logged, dry run or not (the `new_name != name` tests of lines 105
      and 120). */
  lemma {:induction false} StepsClean(e: map<Path, Node>, w: seq<Step>, mode: string, dryRun: bool, fold: Fold)
    requires UnifileClean.ValidMode(mode) && UnifileBuild.AllClean(w, UnifileClean.Cleaner(mode, fold))
    ensures StepsRun(e, w, mode, dryRun, fold) == Run(Pass, e, [])
    decreases |w|
  {
    if w != [] {
      UnifileBuild.AllCleanHead(w, UnifileClean.Cleaner(mode, fold));
      StepClean(e, w[0], mode, dryRun, fold);
      UnifileBuild.AllCleanRest(w, UnifileClean.Cleaner(mode, fold));
      StepsClean(e, w[1..], mode, dryRun, fold);
    }
  }

  lemma StepClean(e: map<Path, Node>, s: Step, mode: string, dryRun: bool, fold: Fold)
    requires UnifileClean.ValidMode(mode) && UnifileBuild.CleanStep(s, UnifileClean.Cleaner(mode, fold))
    ensures StepRun(e, s, mode, dryRun, fold) == Run(Pass, e, [])
  {
    NamesClean(e, FileKind, s.root, s.files, mode, dryRun, fold);
    NamesClean(e, DirKind, s.root, s.dirs, mode, dryRun, fold);
  }

  // ---------------------------------------------------------------------------
  // A real run answers the proposals of a dry run, one by one

  /** A real rename logs `Renamed` exactly when POSIX allows renaming the
      entry onto `root/newName`, and the entry is then there; otherwise it
      logs `Failed` and nothing changes. */
  lemma RenameEntryRecord(e: map<Path, Node>, kind: Kind, root: Path, name: string, newName: string)
    ensures var src, dst := Join(root, name), Join(root, newName);
      var r := RenameEntryRun(e, kind, root, name, newName);
      && r.outcome == Pass
      && (r.log == [Renamed(kind, src, dst)] <==> RenameOk(e, src, dst))
      && (r.log == [Failed(src)] <==> !RenameOk(e, src, dst))
      && r.after == if RenameOk(e, src, dst) then Fs.Renamed(e, src, dst) else e
  {
  }

  lemma RenameEntryAnswers(e: map<Path, Node>, kind: Kind, root: Path, name: string, newName: string)
    ensures var r := RenameEntryRun(e, kind, root, name, newName);
      r.outcome == Pass && |r.log| == 1 && Answers(r.log[0], WouldRename(kind, Join(root, name), Join(root, newName)))
  {
  }

  lemma EntryAnswers(e: map<Path, Node>, kind: Kind, root: Path, name: string, mode: string, fold: Fold)
    requires UnifileClean.ValidMode(mode) && PlainName(name)
    ensures var r := EntryRun(e, kind, root, name, mode, false, fold);
      var props := Proposal(kind, root, name, UnifileClean.Cleaner(mode, fold));
      r.outcome == Pass && |r.log| == |props| && AnswersPrefix(r.log, props)
  {
    var clean := UnifileClean.Cleaner(mode, fold);
    var newName := UnifileClean.CleanedName(name, mode, fold);
    assert clean(name) == newName;
    assert UnifileClean.CleanFilename(UnifileClean.Str(name), mode, fold) == Ok(newName);
    if newName != name {
      RenameEntryAnswers(e, kind, root, name, newName);
    }
  }

  lemma {:induction false} NamesAnswer(e: map<Path, Node>, kind: Kind, root: Path, names: seq<string>, mode: string, fold: Fold)
    requires UnifileClean.ValidMode(mode) && forall n :: n in names ==> PlainName(n)
    ensures var r := NamesRun(e, kind, root, names, mode, false, fold);
      var props := Proposals(kind, root, names, UnifileClean.Cleaner(mode, fold));
      r.outcome == Pass && |r.log| == |props| && AnswersPrefix(r.log, props)
    decreases |names|
  {
    if names != [] {
      var clean := UnifileClean.Cleaner(mode, fold);
      var r := EntryRun(e, kind, root, names[0], mode, false, fold);
      EntryAnswers(e, kind, root, names[0], mode, fold);
      assert Proposals(kind, root, names, clean) == Proposal(kind, root, names[0], clean) + Proposals(kind, root, names[1..], clean);
      NamesAnswer(r.after, kind, root, names[1..], mode, fold);
      var rest := NamesRun(r.after, kind, root, names[1..], mode, false, fold);
      AnswersConcat(r.log, Proposal(kind, root, names[0], clean), rest.log, Proposals(kind, root, names[1..], clean));
      assert NamesRun(e, kind, root, names, mode, false, fold) == Prepend(r.log, rest);
    }
  }

  /** A real run under a valid mode returns normally and logs, in walk
      order, one record per proposal of the dry run over the same walk: the
      entry renamed onto the proposed path, or an error logged for it. */
  lemma {:induction false} StepsAnswer(e: map<Path, Node>, w: seq<Step>, mode: string, fold: Fold, top: Path)
    requires UnifileClean.ValidMode(mode) && WellListed(w, top)
    ensures var r := StepsRun(e, w, mode, false, fold);
      var props := WalkProposals(w, UnifileClean.Cleaner(mode, fold));
      r.outcome == Pass && |r.log| == |props| && AnswersPrefix(r.log, props)
    decreases |w|
  {
    if w != [] {
      var clean := UnifileClean.Cleaner(mode, fold);
      var s := w[0];
      var f := NamesRun(e, FileKind, s.root, s.files, mode, false, fold);
      NamesAnswer(e, FileKind, s.root, s.files, mode, fold);
      NamesAnswer(f.after, DirKind, s.root, s.dirs, mode, fold);
      var d := NamesRun(f.after, DirKind, s.root, s.dirs, mode, false, fold);
      AnswersConcat(f.log, Proposals(FileKind, s.root, s.files, clean), d.log, Proposals(DirKind, s.root, s.dirs, clean));
      var r := StepRun(e, s, mode, false, fold);
      assert r == Prepend(f.log, d);
      WellListedRest(w, top);
      StepsAnswer(r.after, w[1..], mode, fold, top);
      var rest := StepsRun(r.after, w[1..], mode, false, fold);
      AnswersConcat(r.log, StepProposals(s, clean), rest.log, WalkProposals(w[1..], clean));
      assert StepsRun(e, w, mode, false, fold) == Prepend(r.log, rest);
    }
  }

  // ---------------------------------------------------------------------------
  // The overwrite

  /** Lines 110-111 as written: when `name` cleans to `newName` and a file of
      that name already sits next to it, the rename goes ahead and the content
      of the other file is gone. */
  lemma SrcFileClobbered(e: map<Path, Node>, root: Path, name: string, newName: string)
    requires Tree(e) && name != newName && newName != ""
    requires root + [name] in e && e[root + [name]].File?
    requires root + [newName] in e && e[root + [newName]].File?
    requires forall p :: p in e && p != root + [newName] && e[p].File? ==> e[p].data != e[root + [newName]].data
    ensures RenameOk(e, root + [name], Join(root, newName))
    ensures e[root + [newName]].data in FileData(e)
    ensures e[root + [newName]].data !in FileData(Fs.Renamed(e, root + [name], Join(root, newName)))
  {
    var from, to := root + [name], root + [newName];
    assert from[|root|] != to[|root|];
    assert Parent(to) == root;
    UnifileBuild.OverwriteLoses(e, from, to);
  }

  /** The concrete case: `tést.txt` (content 1) next to `test.txt`
      (content 2); in ascii mode the first cleans to the second. */
  lemma SrcFileClobberedExample()
    ensures RenameOk(SiblingTree(), ["t\U{E9}st.txt"], ["test.txt"])
    ensures 2 in FileData(SiblingTree())
    ensures 2 !in FileData(Fs.Renamed(SiblingTree(), ["t\U{E9}st.txt"], ["test.txt"]))
  {
    var from: Path, to: Path := ["t\U{E9}st.txt"], ["test.txt"];
    assert from[0] != to[0];
    SiblingsUnique();
    UnifileBuild.OverwriteLoses(SiblingTree(), from, to);
  }

  /** Only `test.txt` holds content 2. */
  lemma SiblingsUnique()
    ensures forall p :: p in SiblingTree() && p != ["test.txt"] && SiblingTree()[p].File? ==> SiblingTree()[p].data != 2
  {
  }

  function SiblingTree(): map<Path, Node> {
    map[[] := Dir, ["t\U{E9}st.txt"] := File(1), ["test.txt"] := File(2)]
  }
}
