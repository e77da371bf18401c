/** `process_path` of the packaged `unifile`, the function its command line
    calls: every entry that `path.rglob('*')` yields is cleaned and renamed on
    its own, and whatever goes wrong with one entry is logged and skipped. */
module UnifileRglob {
  import opened Errors
  import opened Fs
  import opened Report
  import opened Nfkd
  import UnifileClean
  import UnifileBuild

  /** How `item.is_file()` classifies an entry: a missing entry is no file,
      so it is handled as a directory. */
  function ItemKind(e: map<Path, Node>, p: Path): Kind {
    if p in e && e[p].File? then FileKind else DirKind
  }

  /** Every item has a last component. */
  predicate NonEmpty(items: seq<Path>) {
    forall i :: 0 <= i < |items| ==> items[i] != []
  }

  // ---------------------------------------------------------------------------
  // What one item and the whole loop do

  /** An exception out of the renaming of `item` is caught by the handler of
      lines 266-267 and logged; the loop goes on. */
  function Caught(item: Path, r: Run): Run {
    if r.outcome.Fail? then Run(Pass, r.after, r.log + [Failed(item)]) else r
  }

  /** The renaming branch for one item (lines 221-265): a file goes to the
      first free name (`shutil.move` onto a free path is `os.rename`), a
      directory is renamed or merged as by `process_directory`. */
  function RenameItemRun(e: map<Path, Node>, order: Order, item: Path, newName: string): Run
    requires item != []
  {
    if ItemKind(e, item) == FileKind then UnifileBuild.RenameFileRun(e, Parent(item), Last(item), newName)
    else Caught(item, UnifileBuild.RenameDirRun(e, order, Parent(item), Last(item), newName))
  }

  /** The body of the loop (lines 209-267) for one item. An invalid mode
      raises out of `clean_filename` into the handler; a name that cleaning
      leaves alone is skipped; a dry run logs the proposal. */
  function ItemRun(e: map<Path, Node>, order: Order, item: Path, mode: string, dryRun: bool, fold: Fold): Run
    requires item != []
  {
    match UnifileClean.CleanFilename(UnifileClean.Str(Last(item)), mode, fold)
    case Err(_) => Run(Pass, e, [Failed(item)])
    case Ok(newName) =>
      if newName == Last(item) then Run(Pass, e, [])
      else if dryRun then Run(Pass, e, [WouldRename(ItemKind(e, item), item, Join(Parent(item), newName))])
      else RenameItemRun(e, order, item, newName)
  }

  /** The loop of line 208 over the items, in order. */
  function PathRun(e: map<Path, Node>, order: Order, items: seq<Path>, mode: string, dryRun: bool, fold: Fold): Run
    requires NonEmpty(items)
    decreases |items|
  {
    if items == [] then Run(Pass, e, [])
    else
      var r := ItemRun(e, order, items[0], mode, dryRun, fold);
      Prepend(r.log, PathRun(r.after, order, items[1..], mode, dryRun, fold))
  }

  method RenameItem(fs: FileSystem, item: Path, newName: string) returns (log: seq<Record>)
    requires fs.Valid() && item != []
    modifies fs
    ensures fs.Valid()
    ensures Run(Pass, fs.entries, log) == RenameItemRun(old(fs.entries), fs.order, item, newName)
  {
    var isFile := fs.IsFile(item);
    if isFile {
      var rec := UnifileBuild.RenameFile(fs, Parent(item), Last(item), newName);
      log := [rec];
    } else {
      var r, l := UnifileBuild.RenameDir(fs, Parent(item), Last(item), newName);
      log := if r.Fail? then l + [Failed(item)] else l;
    }
  }

  method ProcessItem(fs: FileSystem, item: Path, mode: string, dryRun: bool, fold: Fold) returns (log: seq<Record>)
    requires fs.Valid() && item != []
    modifies fs
    ensures fs.Valid()
    ensures Run(Pass, fs.entries, log) == ItemRun(old(fs.entries), fs.order, item, mode, dryRun, fold)
  {
    var cleaned := UnifileClean.CleanFilename(UnifileClean.Str(Last(item)), mode, fold);
    if cleaned.Err? {
      return [Failed(item)];
    }
    var newName := cleaned.value;
    if newName == Last(item) {
      return [];
    }
    if dryRun {
      var isFile := fs.IsFile(item);
      return [WouldRename(if isFile then FileKind else DirKind, item, Join(Parent(item), newName))];
    }
    log := RenameItem(fs, item, newName);
  }

  /** `process_path` (lines 206-267) over the items `rglob('*')` yields, in
      order. No exception leaves the loop. */
  method ProcessPath(fs: FileSystem, items: seq<Path>, mode: string, dryRun: bool, fold: Fold) returns (log: seq<Record>)
    requires fs.Valid() && NonEmpty(items)
    modifies fs
    ensures fs.Valid()
    ensures Run(Pass, fs.entries, log) == PathRun(old(fs.entries), fs.order, items, mode, dryRun, fold)
  {
    ghost var all := PathRun(fs.entries, fs.order, items, mode, dryRun, fold);
    log := [];
    assert items[0..] == items;
    for i := 0 to |items|
      invariant fs.Valid() && NonEmpty(items[i..])
      invariant all == Prepend(log, PathRun(fs.entries, fs.order, items[i..], mode, dryRun, fold))
    {
      log := ProcessItemAt(fs, items, i, mode, dryRun, fold, all, log);
    }
    assert items[|items|..] == [];
  }

  /** One round of the loop of `ProcessPath`: the `i`-th item, with the
      records so far extended by its own. */
  method ProcessItemAt(fs: FileSystem, items: seq<Path>, i: nat, mode: string, dryRun: bool, fold: Fold,
                       ghost all: Run, log: seq<Record>) returns (log': seq<Record>)
    requires fs.Valid() && NonEmpty(items) && i < |items|
    requires all == Prepend(log, PathRun(fs.entries, fs.order, items[i..], mode, dryRun, fold))
    modifies fs
    ensures fs.Valid() && NonEmpty(items[i + 1..])
    ensures all == Prepend(log', PathRun(fs.entries, fs.order, items[i + 1..], mode, dryRun, fold))
  {
    ghost var e := fs.entries;
    PathUnfold(e, fs.order, items, i, mode, dryRun, fold);
    var more := ProcessItem(fs, items[i], mode, dryRun, fold);
    PrependTwice(log, more, PathRun(fs.entries, fs.order, items[i + 1..], mode, dryRun, fold));
    log' := log + more;
  }

  lemma PathUnfold(e: map<Path, Node>, order: Order, items: seq<Path>, i: nat, mode: string, dryRun: bool, fold: Fold)
    requires NonEmpty(items) && i < |items|
    ensures NonEmpty(items[i..]) && NonEmpty(items[i + 1..])
    ensures var r := ItemRun(e, order, items[i], mode, dryRun, fold);
      PathRun(e, order, items[i..], mode, dryRun, fold) == Prepend(r.log, PathRun(r.after, order, items[i + 1..], mode, dryRun, fold))
  {
    assert items[i..][0] == items[i];
    assert items[i..][1..] == items[i + 1..];
  }

  // ---------------------------------------------------------------------------
  // A dry run

  /** The record a dry run owes to the item `p` when cleaning changes its name. */
  predicate Owed(e: map<Path, Node>, p: Path, clean: string -> string, rec: Record)
    requires p != []
  {
    clean(Last(p)) != Last(p) && rec == WouldRename(ItemKind(e, p), p, Join(Parent(p), clean(Last(p))))
  }

  /** What a dry run logs for one item: at most one record. */
  function ItemProposal(e: map<Path, Node>, p: Path, clean: string -> string): (r: seq<Record>)
    requires p != []
    ensures forall rec :: rec in r <==> Owed(e, p, clean, rec)
  {
    if clean(Last(p)) != Last(p) then [WouldRename(ItemKind(e, p), p, Join(Parent(p), clean(Last(p))))] else []
  }

  /** What a dry run logs for the items, in order. */
  function PathProposals(e: map<Path, Node>, items: seq<Path>, clean: string -> string): seq<Record>
    requires NonEmpty(items)
    decreases |items|
  {
    if items == [] then [] else ItemProposal(e, items[0], clean) + PathProposals(e, items[1..], clean)
  }

  /** `rec` is owed to one of the items. */
  ghost predicate OwedSome(e: map<Path, Node>, items: seq<Path>, clean: string -> string, rec: Record)
    requires NonEmpty(items)
  {
    exists i :: 0 <= i < |items| && Owed(e, items[i], clean, rec)
  }

  /** A record is logged exactly when it is owed to one of the items. */
  lemma {:induction false} PathProposalsMember(e: map<Path, Node>, items: seq<Path>, clean: string -> string, rec: Record)
    requires NonEmpty(items)
    ensures rec in PathProposals(e, items, clean) <==> OwedSome(e, items, clean, rec)
    decreases |items|
  {
    if items != [] {
      PathProposalsMember(e, items[1..], clean, rec);
      OwedSomeSplit(e, items, clean, rec);
    }
  }

  /** Owed to one of the items: to the first, or to one of the rest. */
  lemma OwedSomeSplit(e: map<Path, Node>, items: seq<Path>, clean: string -> string, rec: Record)
    requires NonEmpty(items) && items != []
    ensures OwedSome(e, items, clean, rec) <==> Owed(e, items[0], clean, rec) || OwedSome(e, items[1..], clean, rec)
  {
    var rest := items[1..];
    if OwedSome(e, items, clean, rec) {
      var i :| 0 <= i < |items| && Owed(e, items[i], clean, rec);
      if i > 0 {
        assert rest[i - 1] == items[i];
      }
    }
    if OwedSome(e, rest, clean, rec) {
      var i :| 0 <= i < |rest| && Owed(e, rest[i], clean, rec);
      assert items[i + 1] == rest[i];
    }
  }

  /** When `rglob('*')` yields every entry below `top`, a dry run logs
      exactly the renames owed to the entries below the top whose cleaned
      name differs. */
  lemma PathDryRunExact(e: map<Path, Node>, top: Path, items: seq<Path>, clean: string -> string, rec: Record)
    requires NonEmpty(items)
    requires forall i :: 0 <= i < |items| ==> items[i] in e && Below(top, items[i])
    requires forall p :: p in e && Below(top, p) ==> p in items
    ensures rec in PathProposals(e, items, clean) <==> Proposed(e, top, clean, rec)
  {
    PathProposalsMember(e, items, clean, rec);
    if rec in PathProposals(e, items, clean) {
      var i :| 0 <= i < |items| && Owed(e, items[i], clean, rec);
      var p := items[i];
      assert KindOf(e[p]) == ItemKind(e, p);
    }
    if Proposed(e, top, clean, rec) {
      var p :| p in e && Below(top, p) && clean(Last(p)) != Last(p)
        && rec == WouldRename(KindOf(e[p]), p, Join(Parent(p), clean(Last(p))));
      var i :| 0 <= i < |items| && items[i] == p;
      assert Owed(e, items[i], clean, rec);
    }
  }

  /** A dry run under a valid mode changes nothing and logs the proposals,
      in order. */
  lemma {:induction false} PathDryRun(e: map<Path, Node>, order: Order, items: seq<Path>, mode: string, fold: Fold)
    requires NonEmpty(items) && UnifileClean.ValidMode(mode)
    ensures PathRun(e, order, items, mode, true, fold) == Run(Pass, e, PathProposals(e, items, UnifileClean.Cleaner(mode, fold)))
    decreases |items|
  {
    if items != [] {
      PathDryRun(e, order, items[1..], mode, fold);
    }
  }

  // ---------------------------------------------------------------------------
  // An invalid mode

  /** One `Failed` record per item, in order. */
  function Failures(items: seq<Path>): (r: seq<Record>)
    ensures |r| == |items| && forall i :: 0 <= i < |items| ==> r[i] == Failed(items[i])
  {
    if items == [] then [] else [Failed(items[0])] + Failures(items[1..])
  }

  /** Under an invalid mode every item raises `ValueError` into the handler:
      nothing changes and each item logs one failure. */
  lemma {:induction false} PathInvalid(e: map<Path, Node>, order: Order, items: seq<Path>, mode: string, dryRun: bool, fold: Fold)
    requires NonEmpty(items) && !UnifileClean.ValidMode(mode)
    ensures PathRun(e, order, items, mode, dryRun, fold) == Run(Pass, e, Failures(items))
    decreases |items|
  {
    if items != [] {
      PathInvalid(e, order, items[1..], mode, dryRun, fold);
    }
  }

  // ---------------------------------------------------------------------------
  // A real run

  /** The items whose cleaned name differs, in order: those a run owes a
      record. */
  function Owing(items: seq<Path>, clean: string -> string): seq<Path>
    requires NonEmpty(items)
    decreases |items|
  {
    if items == [] then []
    else (if clean(Last(items[0])) != Last(items[0]) then [items[0]] else []) + Owing(items[1..], clean)
  }

  /** `rec`, logged by a real run for `item`, names it as its source: the
      item was renamed (a file onto a candidate for its cleaned name, a
      directory onto its cleaned name), merged into the existing directory
      of its cleaned name, or an error was logged for it. */
  ghost predicate SettlesItem(rec: Record, item: Path, clean: string -> string) {
    && item != []
    && var to := Join(Parent(item), clean(Last(item)));
       match rec
       case WouldRename(_, _, _) => false
       case Renamed(kind, from, dst) =>
         && from == item
         && (if kind == FileKind then exists n :: dst == UnifileBuild.Candidate(Parent(item), clean(Last(item)), n) else dst == to)
       case Merged(from, dst) => from == item && dst == to
       case Failed(at) => at == item
  }

  /** Record by record, `log` settles the items `owing`. */
  ghost predicate SettlesItems(log: seq<Record>, owing: seq<Path>, clean: string -> string) {
    |log| == |owing| && forall i :: 0 <= i < |owing| ==> SettlesItem(log[i], owing[i], clean)
  }

  lemma SettlesItemsConcat(a: seq<Record>, oa: seq<Path>, b: seq<Record>, ob: seq<Path>, clean: string -> string)
    requires SettlesItems(a, oa, clean) && SettlesItems(b, ob, clean)
    ensures SettlesItems(a + b, oa + ob, clean)
  {
    forall i | 0 <= i < |oa + ob|
      ensures SettlesItem((a + b)[i], (oa + ob)[i], clean)
    {
      if i >= |oa| {
        assert (a + b)[i] == b[i - |a|] && (oa + ob)[i] == ob[i - |oa|];
      }
    }
  }

  lemma ItemSettles(e: map<Path, Node>, order: Order, item: Path, mode: string, fold: Fold)
    requires item != [] && PlainName(Last(item)) && UnifileClean.ValidMode(mode)
    ensures var r := ItemRun(e, order, item, mode, false, fold);
      var clean := UnifileClean.Cleaner(mode, fold);
      && r.outcome == Pass
      && (clean(Last(item)) == Last(item) ==> r == Run(Pass, e, []))
      && (clean(Last(item)) != Last(item) ==> |r.log| == 1 && SettlesItem(r.log[0], item, clean))
  {
    var clean := UnifileClean.Cleaner(mode, fold);
    var parent, name := Parent(item), Last(item);
    assert item == parent + [name];
    assert clean(name) == UnifileClean.CleanedName(name, mode, fold);
    if clean(name) != name {
      if ItemKind(e, item) == FileKind {
        UnifileBuild.FileSettles(e, parent, name, clean);
      } else {
        UnifileBuild.DirSettles(e, order, parent, name, clean);
      }
    }
  }

  /** The same, against the items a run owes a record. */
  lemma ItemSettlesOwing(e: map<Path, Node>, order: Order, item: Path, mode: string, fold: Fold)
    requires item != [] && PlainName(Last(item)) && UnifileClean.ValidMode(mode)
    ensures var r := ItemRun(e, order, item, mode, false, fold);
      r.outcome == Pass && SettlesItems(r.log, Owing([item], UnifileClean.Cleaner(mode, fold)), UnifileClean.Cleaner(mode, fold))
  {
    var clean := UnifileClean.Cleaner(mode, fold);
    var r := ItemRun(e, order, item, mode, false, fold);
    ItemSettles(e, order, item, mode, fold);
    assert [item][1..] == [];
    if clean(Last(item)) != Last(item) {
      assert Owing([item], clean) == [item];
    } else {
      assert Owing([item], clean) == [];
    }
  }

  /** A real run under a valid mode returns normally and logs, in order, one
      record for each item whose cleaned name differs, naming that item and
      where it went. */
  lemma {:induction false} PathSettles(e: map<Path, Node>, order: Order, items: seq<Path>, mode: string, fold: Fold)
    requires NonEmpty(items) && UnifileClean.ValidMode(mode)
    requires forall i :: 0 <= i < |items| ==> PlainName(Last(items[i]))
    ensures var r := PathRun(e, order, items, mode, false, fold);
      r.outcome == Pass && SettlesItems(r.log, Owing(items, UnifileClean.Cleaner(mode, fold)), UnifileClean.Cleaner(mode, fold))
    decreases |items|
  {
    if items != [] {
      var clean := UnifileClean.Cleaner(mode, fold);
      var r := ItemRun(e, order, items[0], mode, false, fold);
      ItemSettlesOwing(e, order, items[0], mode, fold);
      assert forall i :: 0 <= i < |items[1..]| ==> items[1..][i] == items[i + 1];
      PathSettles(r.after, order, items[1..], mode, fold);
      var rest := PathRun(r.after, order, items[1..], mode, false, fold);
      OwingSplit(items, clean);
      SettlesItemsConcat(r.log, Owing([items[0]], clean), rest.log, Owing(items[1..], clean), clean);
      var all := PathRun(e, order, items, mode, false, fold);
      assert all == Prepend(r.log, rest);
      assert all.outcome == Pass && all.log == r.log + rest.log;
    }
  }

  lemma OwingSplit(items: seq<Path>, clean: string -> string)
    requires NonEmpty(items) && items != []
    ensures Owing(items, clean) == Owing([items[0]], clean) + Owing(items[1..], clean)
  {
    var head, rest := [items[0]], items[1..];
    assert NonEmpty(rest) by {
      forall i | 0 <= i < |rest|
        ensures rest[i] != []
      {
        assert rest[i] == items[i + 1];
      }
    }
    assert head[1..] == [];
    assert Owing(head, clean) == (if clean(Last(items[0])) != Last(items[0]) then head else []) + Owing([], clean);
  }

  /** Over items whose names are all clean, nothing is renamed and nothing
      is logged, dry run or not (the test of line 213). */
  lemma {:induction false} PathClean(e: map<Path, Node>, order: Order, items: seq<Path>, mode: string, dryRun: bool, fold: Fold)
    requires NonEmpty(items) && UnifileClean.ValidMode(mode)
    requires forall i :: 0 <= i < |items| ==> UnifileClean.CleanedName(Last(items[i]), mode, fold) == Last(items[i])
    ensures PathRun(e, order, items, mode, dryRun, fold) == Run(Pass, e, [])
    decreases |items|
  {
    if items != [] {
      assert forall i :: 0 <= i < |items[1..]| ==> items[1..][i] == items[i + 1];
      PathClean(e, order, items[1..], mode, dryRun, fold);
    }
  }

  // ---------------------------------------------------------------------------
  // No content is lost (with the corrected inner merge), nothing outside
  // changes

  lemma ItemKeeps(e: map<Path, Node>, order: Order, item: Path, mode: string, dryRun: bool, fold: Fold)
    requires Tree(e) && item != []
    ensures Keeps(e, ItemRun(e, order, item, mode, dryRun, fold).after)
  {
    var cleaned := UnifileClean.CleanFilename(UnifileClean.Str(Last(item)), mode, fold);
    if cleaned.Ok? && cleaned.value != Last(item) && !dryRun {
      if ItemKind(e, item) == FileKind {
        UnifileBuild.RenameFileKeeps(e, Parent(item), Last(item), cleaned.value);
      } else {
        UnifileBuild.RenameDirKeeps(e, order, Parent(item), Last(item), cleaned.value);
      }
    }
  }

  /** Whatever fails along the way, the tree keeps exactly its file
      contents. */
  lemma {:induction false} PathKeeps(e: map<Path, Node>, order: Order, items: seq<Path>, mode: string, dryRun: bool, fold: Fold)
    requires Tree(e) && NonEmpty(items)
    ensures Keeps(e, PathRun(e, order, items, mode, dryRun, fold).after)
    decreases |items|
  {
    if items != [] {
      var r := ItemRun(e, order, items[0], mode, dryRun, fold);
      ItemKeeps(e, order, items[0], mode, dryRun, fold);
      PathKeeps(r.after, order, items[1..], mode, dryRun, fold);
    }
  }

  lemma ItemInside(e: map<Path, Node>, order: Order, item: Path, mode: string, dryRun: bool, fold: Fold, top: Path)
    requires Tree(e) && OrderOk(order) && Below(top, item) && PlainName(Last(item))
    requires UnifileClean.CleanStaysIn(mode, fold)
    ensures SameOutside(e, ItemRun(e, order, item, mode, dryRun, fold).after, top)
  {
    var parent, name := Parent(item), Last(item);
    assert IsPrefix(top, parent) by {
      assert parent[..|top|] == item[..|top|];
    }
    var cleaned := UnifileClean.CleanFilename(UnifileClean.Str(name), mode, fold);
    if cleaned.Ok? && cleaned.value != name && !dryRun {
      assert Fs.StaysIn(UnifileClean.CleanedName(name, mode, fold));
      if ItemKind(e, item) == FileKind {
        UnifileBuild.FileInside(e, parent, name, cleaned.value);
      } else {
        UnifileBuild.DirInside(e, order, parent, name, cleaned.value);
      }
      UnifileBuild.SameOutsideWiden(e, ItemRun(e, order, item, mode, dryRun, fold).after, top, parent);
    }
  }

  /** When the cleaned names stay in their directories, nothing outside
      `top` changes. */
  lemma {:induction false} PathInside(e: map<Path, Node>, order: Order, items: seq<Path>, mode: string, dryRun: bool,
                                      fold: Fold, top: Path)
    requires Tree(e) && OrderOk(order) && NonEmpty(items)
    requires forall i :: 0 <= i < |items| ==> Below(top, items[i]) && PlainName(Last(items[i]))
    requires UnifileClean.CleanStaysIn(mode, fold)
    ensures SameOutside(e, PathRun(e, order, items, mode, dryRun, fold).after, top)
    decreases |items|
  {
    if items != [] {
      var r := ItemRun(e, order, items[0], mode, dryRun, fold);
      ItemInside(e, order, items[0], mode, dryRun, fold, top);
      ItemKeeps(e, order, items[0], mode, dryRun, fold);
      assert forall i :: 0 <= i < |items[1..]| ==> items[1..][i] == items[i + 1];
      PathInside(r.after, order, items[1..], mode, dryRun, fold, top);
      SameOutsideTrans(e, r.after, PathRun(r.after, order, items[1..], mode, dryRun, fold).after, top);
    }
  }
}
