/** What the rewriters log, as abstract records rather than text, and the
    records a dry run produces for a walk. */
module Report {
  import opened Errors
  import opened Fs
  import opened Walk

  datatype Kind = FileKind | DirKind

  function KindOf(n: Node): Kind {
    if n.File? then FileKind else DirKind
  }

  datatype Record =
    /** "Would rename file/directory: old -> new" (dry run) */
    | WouldRename(kind: Kind, from: Path, to: Path)
    /** "Renamed file/directory: old -> new" */
    | Renamed(kind: Kind, from: Path, to: Path)
    /** "Merged and removed directory: old -> new" */
    | Merged(from: Path, to: Path)
    /** An error logged for one entry, after which the loop goes on */
    | Failed(at: Path)

  /** What one call does: how it ends (`Pass` when it returns, else the
      exception it raises), the entries it leaves, and what it logs. */
  datatype Run = Run(outcome: Outcome, after: map<Path, Node>, log: seq<Record>)

  /** `r`, after the records `log`. */
  function Prepend(log: seq<Record>, r: Run): Run {
    Run(r.outcome, r.after, log + r.log)
  }

  lemma PrependTwice(a: seq<Record>, b: seq<Record>, r: Run)
    ensures Prepend(a, Prepend(b, r)) == Prepend(a + b, r)
  {
  }

  /** A file-system call, logging nothing. */
  function Lift(x: Effect): Run {
    Run(x.outcome, x.after, [])
  }

  function RenameRun(e: map<Path, Node>, src: Path, dst: Path): Run {
    Lift(RenameEffect(e, src, dst))
  }

  function MoveRun(e: map<Path, Node>, src: Path, dst: Path): Run {
    Lift(MoveEffect(e, src, dst))
  }

  function RmdirRun(e: map<Path, Node>, p: Path): Run {
    Lift(RmdirEffect(e, p))
  }

  /** `e2` is a tree that holds exactly the file contents of `e1`. */
  ghost predicate Keeps(e1: map<Path, Node>, e2: map<Path, Node>) {
    Tree(e2) && FileData(e2) == FileData(e1)
  }

  /** `e2` is a tree that holds no file content `e1` did not hold. */
  ghost predicate Shrinks(e1: map<Path, Node>, e2: map<Path, Node>) {
    Tree(e2) && FileData(e2) <= FileData(e1)
  }

  lemma ShrinksTrans(e1: map<Path, Node>, e2: map<Path, Node>, e3: map<Path, Node>)
    requires Shrinks(e1, e2) && Shrinks(e2, e3)
    ensures Shrinks(e1, e3)
  {
  }

  lemma KeepsTrans(e1: map<Path, Node>, e2: map<Path, Node>, e3: map<Path, Node>)
    requires Keeps(e1, e2) && Keeps(e2, e3)
    ensures Keeps(e1, e3)
  {
  }

  /** Moving onto a free path is renaming onto it, and keeps every file. */
  lemma MoveToFreeRun(e: map<Path, Node>, src: Path, dst: Path)
    requires Tree(e) && dst !in e
    ensures MoveRun(e, src, dst) == RenameRun(e, src, dst)
    ensures Keeps(e, MoveRun(e, src, dst).after)
  {
    if src != [] {
      MoveToFree(e, src, dst);
    }
    if RenameOk(e, src, dst) {
      RenamedTree(e, src, dst);
      RenameToFreeKeepsData(e, src, dst);
    }
  }

  /** Any move leaves a tree and creates no content. */
  lemma MoveRunShrinks(e: map<Path, Node>, src: Path, dst: Path)
    requires Tree(e)
    ensures Shrinks(e, MoveRun(e, src, dst).after)
  {
    if MoveOk(e, src, dst) {
      RenamedTree(e, src, MoveTarget(e, src, dst));
      RenamedDataFrom(e, src, MoveTarget(e, src, dst));
    }
  }

  lemma RmdirRunKeeps(e: map<Path, Node>, p: Path)
    requires Tree(e)
    ensures Keeps(e, RmdirRun(e, p).after)
  {
    if RmdirOk(e, p) {
      RmdirTree(e, p);
      RmdirKeepsData(e, p);
    }
  }

  /** A move between two paths strictly inside `top` changes nothing outside
      it. */
  lemma MoveRunInside(e: map<Path, Node>, src: Path, dst: Path, top: Path)
    requires Below(top, src) && Below(top, dst)
    ensures SameOutside(e, MoveRun(e, src, dst).after, top)
  {
    if MoveOk(e, src, dst) {
      MoveInside(e, src, dst, top);
    }
  }

  lemma RenameRunInside(e: map<Path, Node>, src: Path, dst: Path, top: Path)
    requires Below(top, src) && Below(top, dst)
    ensures SameOutside(e, RenameRun(e, src, dst).after, top)
  {
    RenameInside(e, src, dst, top);
  }

  lemma RmdirRunInside(e: map<Path, Node>, p: Path, top: Path)
    requires Below(top, p)
    ensures SameOutside(e, RmdirRun(e, p).after, top)
  {
  }

  /** `rec`, logged by a real run, answers the record `prop` a dry run logs
      for the same entry: the entry was renamed to the proposed path, merged
      into the proposed directory, or an error was logged for it. */
  predicate Answers(rec: Record, prop: Record) {
    && prop.WouldRename?
    && match rec
       case WouldRename(_, _, _) => false
       case Renamed(kind, from, to) => kind == prop.kind && from == prop.from && to == prop.to
       case Merged(from, to) => prop.kind == DirKind && from == prop.from && to == prop.to
       case Failed(at) => at == prop.from
  }

  /** Record by record, `log` answers the first `|log|` proposals. */
  predicate AnswersPrefix(log: seq<Record>, props: seq<Record>) {
    |log| <= |props| && forall i :: 0 <= i < |log| ==> Answers(log[i], props[i])
  }

  lemma AnswersConcat(a: seq<Record>, pa: seq<Record>, b: seq<Record>, pb: seq<Record>)
    requires AnswersPrefix(a, pa) && |a| == |pa| && AnswersPrefix(b, pb)
    ensures AnswersPrefix(a + b, pa + pb)
  {
    forall i | 0 <= i < |a + b|
      ensures Answers((a + b)[i], (pa + pb)[i])
    {
      if i >= |a| {
        assert (a + b)[i] == b[i - |a|] && (pa + pb)[i] == pb[i - |a|];
      }
    }
  }

  /** The dry-run records for the names `names` inside `root`, in order. */
  function Proposals(kind: Kind, root: Path, names: seq<string>, clean: string -> string): seq<Record> {
    if names == [] then [] else Proposal(kind, root, names[0], clean) + Proposals(kind, root, names[1..], clean)
  }

  /** The dry-run record for the name `n` inside `root`, if cleaning changes
      it. */
  function Proposal(kind: Kind, root: Path, n: string, clean: string -> string): seq<Record> {
    if clean(n) != n then [WouldRename(kind, Join(root, n), Join(root, clean(n)))] else []
  }

  /** The names of one kind in a step. */
  function Listing(s: Step, kind: Kind): seq<string> {
    if kind == FileKind then s.files else s.dirs
  }

  /** One walk step: its files first, then its subdirectories. */
  function StepProposals(s: Step, clean: string -> string): seq<Record> {
    Proposals(FileKind, s.root, s.files, clean) + Proposals(DirKind, s.root, s.dirs, clean)
  }

  function WalkProposals(w: seq<Step>, clean: string -> string): seq<Record> {
    if w == [] then [] else StepProposals(w[0], clean) + WalkProposals(w[1..], clean)
  }

  /** Only the names of one kind, step after step. */
  function KindProposals(w: seq<Step>, kind: Kind, clean: string -> string): seq<Record> {
    if w == [] then [] else KindStep(w[0], kind, clean) + KindProposals(w[1..], kind, clean)
  }

  /** The records of the names of kind `kind` in one step. */
  function KindStep(s: Step, kind: Kind, clean: string -> string): seq<Record> {
    Proposals(kind, s.root, Listing(s, kind), clean)
  }

  /** The record a dry run owes to the entry `p`: one exactly when cleaning
      changes its name. */
  ghost predicate Proposed(e: map<Path, Node>, top: Path, clean: string -> string, rec: Record) {
    exists p :: p in e && Below(top, p) && clean(Last(p)) != Last(p)
      && rec == WouldRename(KindOf(e[p]), p, Join(Parent(p), clean(Last(p))))
  }

  /** `rec` is a record of the names of kind `kind` in some step. */
  ghost predicate InSomeStep(w: seq<Step>, kind: Kind, clean: string -> string, rec: Record) {
    exists k :: 0 <= k < |w| && rec in Proposals(kind, w[k].root, Listing(w[k], kind), clean)
  }

  lemma {:induction false} ProposalsMember(kind: Kind, root: Path, names: seq<string>, clean: string -> string, rec: Record)
    ensures rec in Proposals(kind, root, names, clean) <==>
      exists n :: n in names && clean(n) != n && rec == WouldRename(kind, Join(root, n), Join(root, clean(n)))
  {
    if names != [] {
      ProposalsMember(kind, root, names[1..], clean, rec);
      assert forall n :: n in names <==> n == names[0] || n in names[1..];
    }
  }

  lemma {:induction false} WalkProposalsMember(w: seq<Step>, clean: string -> string, rec: Record)
    ensures rec in WalkProposals(w, clean) <==> InSomeStep(w, FileKind, clean, rec) || InSomeStep(w, DirKind, clean, rec)
  {
    if w != [] {
      WalkProposalsMember(w[1..], clean, rec);
      ShiftSteps(w, FileKind, clean, rec);
      ShiftSteps(w, DirKind, clean, rec);
    }
  }

  lemma {:induction false} KindProposalsMember(w: seq<Step>, kind: Kind, clean: string -> string, rec: Record)
    ensures rec in KindProposals(w, kind, clean) <==> InSomeStep(w, kind, clean, rec)
  {
    if w != [] {
      KindProposalsMember(w[1..], kind, clean, rec);
      ShiftSteps(w, kind, clean, rec);
    }
  }

  lemma ShiftSteps(w: seq<Step>, kind: Kind, clean: string -> string, rec: Record)
    requires w != []
    ensures InSomeStep(w, kind, clean, rec) <==>
      rec in Proposals(kind, w[0].root, Listing(w[0], kind), clean) || InSomeStep(w[1..], kind, clean, rec)
  {
    if InSomeStep(w[1..], kind, clean, rec) {
      var k :| 0 <= k < |w[1..]| && rec in Proposals(kind, w[1..][k].root, Listing(w[1..][k], kind), clean);
      assert w[k + 1] == w[1..][k];
    }
    if k :| 1 <= k < |w| && rec in Proposals(kind, w[k].root, Listing(w[k], kind), clean) {
      assert w[1..][k - 1] == w[k];
    }
  }

  /** The records of one kind in a walk are owed to entries of that kind, and
      each such entry's record is in the step of its parent. */
  lemma KindProposed(e: map<Path, Node>, top: Path, w: seq<Step>, kind: Kind, clean: string -> string, rec: Record)
    requires Tree(e) && IsWalk(e, top, w)
    ensures InSomeStep(w, kind, clean, rec) <==> Proposed(e, top, clean, rec) && rec.kind == kind
  {
    if InSomeStep(w, kind, clean, rec) {
      var k :| 0 <= k < |w| && rec in Proposals(kind, w[k].root, Listing(w[k], kind), clean);
      WalkStep(e, top, w, k);
      StepRecordOwed(e, top, w[k], kind, clean, rec);
    }
    if Proposed(e, top, clean, rec) && rec.kind == kind {
      OwedRecordListed(e, top, w, kind, clean, rec);
    }
  }

  lemma WalkStep(e: map<Path, Node>, top: Path, w: seq<Step>, k: nat)
    requires IsWalk(e, top, w) && k < |w|
    ensures Listed(e, w[k]) && IsPrefix(top, w[k].root)
  {
    assert w[k].root in Roots(w);
  }

  lemma StepRecordOwed(e: map<Path, Node>, top: Path, s: Step, kind: Kind, clean: string -> string, rec: Record)
    requires Tree(e) && Listed(e, s) && IsPrefix(top, s.root)
    requires rec in Proposals(kind, s.root, Listing(s, kind), clean)
    ensures Proposed(e, top, clean, rec) && rec.kind == kind
  {
    ProposalsMember(kind, s.root, Listing(s, kind), clean, rec);
    var n :| n in Listing(s, kind) && clean(n) != n && rec == WouldRename(kind, Join(s.root, n), Join(s.root, clean(n)));
    ListedEntry(e, s, n);
    ProposedChild(e, top, s.root, n, kind, clean, rec);
  }

  /** The record owed to the entry `n` of `root`, an entry at or below `top`. */
  lemma ProposedChild(e: map<Path, Node>, top: Path, root: Path, n: string, kind: Kind, clean: string -> string, rec: Record)
    requires root + [n] in e && PlainName(n) && IsPrefix(top, root) && KindOf(e[root + [n]]) == kind
    requires clean(n) != n && rec == WouldRename(kind, Join(root, n), Join(root, clean(n)))
    ensures Proposed(e, top, clean, rec)
  {
    var p := root + [n];
    assert Parent(p) == root && Last(p) == n;
    assert p[..|top|] == root[..|top|];
    assert p in e && Below(top, p) && clean(Last(p)) != Last(p)
      && rec == WouldRename(KindOf(e[p]), p, Join(Parent(p), clean(Last(p))));
  }

  lemma OwedRecordListed(e: map<Path, Node>, top: Path, w: seq<Step>, kind: Kind, clean: string -> string, rec: Record)
    requires Tree(e) && IsWalk(e, top, w)
    requires Proposed(e, top, clean, rec) && rec.kind == kind
    ensures InSomeStep(w, kind, clean, rec)
  {
    var p :| p in e && Below(top, p) && clean(Last(p)) != Last(p)
      && rec == WouldRename(KindOf(e[p]), p, Join(Parent(p), clean(Last(p))));
    var k := WalkCovers(e, top, w, p);
    ListedRecord(w[k], kind, p, clean, rec);
  }

  /** The record owed to `p`, a name of kind `kind` listed in step `s`, is among that step's records. */
  lemma ListedRecord(s: Step, kind: Kind, p: Path, clean: string -> string, rec: Record)
    requires p != [] && PlainName(Last(p)) && s.root == Parent(p) && Last(p) in Listing(s, kind) && clean(Last(p)) != Last(p)
    requires rec == WouldRename(kind, p, Join(Parent(p), clean(Last(p))))
    ensures rec in Proposals(kind, s.root, Listing(s, kind), clean)
  {
    var n := Last(p);
    assert p == Join(s.root, n);
    ProposalsMember(kind, s.root, Listing(s, kind), clean, rec);
  }

  /** A dry run over a walk logs exactly the renames owed to the entries below
      the top whose cleaned name differs. */
  lemma DryRunExact(e: map<Path, Node>, top: Path, w: seq<Step>, clean: string -> string, rec: Record)
    requires Tree(e) && IsWalk(e, top, w)
    ensures rec in WalkProposals(w, clean) <==> Proposed(e, top, clean, rec)
  {
    WalkProposalsMember(w, clean, rec);
    KindProposed(e, top, w, FileKind, clean, rec);
    KindProposed(e, top, w, DirKind, clean, rec);
  }

  /** The same for a pass over the directories of one walk followed by a pass
      over the files of another walk of the same tree. */
  lemma TwoPassDryRunExact(e: map<Path, Node>, top: Path, w1: seq<Step>, w2: seq<Step>, clean: string -> string, rec: Record)
    requires Tree(e) && IsWalk(e, top, w1) && IsWalk(e, top, w2)
    ensures rec in KindProposals(w1, DirKind, clean) + KindProposals(w2, FileKind, clean) <==> Proposed(e, top, clean, rec)
  {
    KindProposalsMember(w1, DirKind, clean, rec);
    KindProposalsMember(w2, FileKind, clean, rec);
    KindProposed(e, top, w1, DirKind, clean, rec);
    KindProposed(e, top, w2, FileKind, clean, rec);
  }

  lemma {:induction false} ProposalsConcat(kind: Kind, root: Path, a: seq<string>, b: seq<string>, clean: string -> string)
    ensures Proposals(kind, root, a + b, clean) == Proposals(kind, root, a, clean) + Proposals(kind, root, b, clean)
  {
    if a == [] {
      assert a + b == b;
    } else {
      assert (a + b)[1..] == a[1..] + b;
      ProposalsConcat(kind, root, a[1..], b, clean);
    }
  }

  /** Growing a prefix of a listing by one name grows its records by that
      name's. */
  lemma ProposalsStep(kind: Kind, root: Path, names: seq<string>, i: nat, clean: string -> string)
    requires i < |names|
    ensures Proposals(kind, root, names[..i + 1], clean) == Proposals(kind, root, names[..i], clean) + Proposals(kind, root, [names[i]], clean)
  {
    assert names[..i + 1] == names[..i] + [names[i]];
    ProposalsConcat(kind, root, names[..i], [names[i]], clean);
  }

  lemma {:induction false} WalkProposalsConcat(a: seq<Step>, b: seq<Step>, clean: string -> string)
    ensures WalkProposals(a + b, clean) == WalkProposals(a, clean) + WalkProposals(b, clean)
  {
    if a == [] {
      assert a + b == b;
    } else {
      assert (a + b)[1..] == a[1..] + b;
      WalkProposalsConcat(a[1..], b, clean);
    }
  }

  lemma {:induction false} KindProposalsConcat(a: seq<Step>, b: seq<Step>, kind: Kind, clean: string -> string)
    ensures KindProposals(a + b, kind, clean) == KindProposals(a, kind, clean) + KindProposals(b, kind, clean)
  {
    if a == [] {
      assert a + b == b;
    } else {
      assert (a + b)[1..] == a[1..] + b;
      KindProposalsConcat(a[1..], b, kind, clean);
    }
  }

  /** Growing a prefix of a walk by one step grows its records by that
      step's. */
  lemma WalkProposalsStep(w: seq<Step>, k: nat, clean: string -> string)
    requires k < |w|
    ensures WalkProposals(w[..k + 1], clean) == WalkProposals(w[..k], clean) + StepProposals(w[k], clean)
  {
    assert w[..k + 1] == w[..k] + [w[k]];
    WalkProposalsConcat(w[..k], [w[k]], clean);
    assert [w[k]][1..] == [];
  }

  /** The same for the records of one kind. */
  lemma KindProposalsStep(w: seq<Step>, k: nat, kind: Kind, clean: string -> string)
    requires k < |w|
    ensures KindProposals(w[..k + 1], kind, clean) == KindProposals(w[..k], kind, clean) + Proposals(kind, w[k].root, Listing(w[k], kind), clean)
  {
    assert w[..k + 1] == w[..k] + [w[k]];
    KindProposalsConcat(w[..k], [w[k]], kind, clean);
    assert [w[k]][1..] == [];
  }
}
