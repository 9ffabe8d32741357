/** The major-version upgrade of the embedded cluster (packages/provisioning-pg/src/supervisor.ts,
    `EmbeddedPostgres.upgrade`), over a file tree, with any step failing part-way. */
module PgUpgrade {
  import opened Common

  // ---------------------------------------------------------------- the file tree

  type Path = seq<string>

  type Tree = map<Path, string>

  /** One path is the other or inside it. */
  predicate Overlap(p: Path, q: Path) {
    p <= q || q <= p
  }

  lemma Injective(p: Path)
    ensures forall r, x: Path :: p + r == p + x ==> r == x
    ensures forall q, x: Path :: p <= q && p <= x && q[|p|..] == x[|p|..] ==> q == x
  {
    forall r, x: Path | p + r == p + x
      ensures r == x
    {
      assert r == (p + r)[|p|..] && x == (p + x)[|p|..];
    }
    forall q, x: Path | p <= q && p <= x && q[|p|..] == x[|p|..]
      ensures q == x
    {
      assert q == p + q[|p|..] && x == p + x[|p|..];
    }
  }

  /** What is at or below `p`, by relative path. */
  function Sub(disk: Tree, p: Path): Tree {
    Injective(p);
    map q | q in disk && p <= q :: q[|p|..] := disk[q]
  }

  function Remove(disk: Tree, p: Path): Tree {
    map q | q in disk && !(p <= q) :: disk[q]
  }

  lemma RemovedInEitherOrder(disk: Tree, p: Path, q: Path)
    ensures Remove(Remove(disk, p), q) == Remove(Remove(disk, q), p)
  {
  }

  function Grafted(p: Path, t: Tree): Tree {
    Injective(p);
    map r | r in t :: p + r := t[r]
  }

  /** `t` laid over whatever is at `p`. */
  function Place(disk: Tree, p: Path, t: Tree): Tree {
    disk + Grafted(p, t)
  }

  /** The tree at `p` replaced by `t`. */
  function Retree(disk: Tree, p: Path, t: Tree): Tree {
    Place(Remove(disk, p), p, t)
  }

  lemma SubAt(disk: Tree, p: Path, r: Path)
    ensures r in Sub(disk, p) <==> p + r in disk
    ensures r in Sub(disk, p) ==> Sub(disk, p)[r] == disk[p + r]
  {
    assert (p + r)[|p|..] == r;
    forall q | q in disk && p <= q && q[|p|..] == r
      ensures q == p + r
    {
      assert q == q[..|p|] + q[|p|..];
    }
  }

  lemma GraftedAt(p: Path, t: Tree, q: Path)
    ensures q in Grafted(p, t) <==> p <= q && q[|p|..] in t
    ensures q in Grafted(p, t) ==> Grafted(p, t)[q] == t[q[|p|..]]
  {
    forall r: Path
      ensures (p + r)[|p|..] == r
    {
    }
    if p <= q {
      assert q == p + q[|p|..];
    }
  }

  lemma RetreedAt(disk: Tree, p: Path, t: Tree, x: Path)
    ensures var after := Retree(disk, p, t);
            if p <= x then (x in after <==> x[|p|..] in t) && (x in after ==> after[x] == t[x[|p|..]])
            else (x in after <==> x in disk) && (x in after ==> after[x] == disk[x])
  {
    GraftedAt(p, t, x);
  }

  lemma Retreed(disk: Tree, p: Path, t: Tree)
    ensures Sub(Retree(disk, p, t), p) == t
  {
    var after := Retree(disk, p, t);
    forall r: Path
      ensures r in Sub(after, p) <==> r in t
      ensures r in t ==> r in Sub(after, p) && Sub(after, p)[r] == t[r]
    {
      SubAt(after, p, r);
      RetreedAt(disk, p, t, p + r);
      assert (p + r)[|p|..] == r;
    }
  }

  lemma RetreedElsewhere(disk: Tree, p: Path, t: Tree, q: Path)
    requires !Overlap(p, q)
    ensures Sub(Retree(disk, p, t), q) == Sub(disk, q)
  {
    var after := Retree(disk, p, t);
    forall r: Path
      ensures r in Sub(after, q) <==> r in Sub(disk, q)
      ensures r in Sub(disk, q) ==> r in Sub(after, q) && Sub(after, q)[r] == Sub(disk, q)[r]
    {
      SubAt(after, q, r);
      SubAt(disk, q, r);
      RetreedAt(disk, p, t, q + r);
      if p <= q + r {
        PrefixesMeet(p, q, q + r);
      }
    }
  }

  lemma PrefixesMeet(p: Path, q: Path, x: Path)
    requires p <= x && q <= x
    ensures Overlap(p, q)
  {
    if |p| <= |q| {
      assert q[..|p|] == x[..|p|] == p;
    } else {
      assert p[..|q|] == x[..|q|] == q;
    }
  }

  // ---------------------------------------------------------------- the eight steps

  datatype Step = Stop | Backup | Dumpall | InitdbNew | Restore | Verify | Swap | Restart

  const NUMBER_OF_STEPS := 8

  /** The canonical order. */
  function StepAt(n: nat): Step
    requires n < NUMBER_OF_STEPS
  {
    match n
    case 0 => Stop
    case 1 => Backup
    case 2 => Dumpall
    case 3 => InitdbNew
    case 4 => Restore
    case 5 => Verify
    case 6 => Swap
    case _ => Restart
  }

  predicate InOrder(taken: seq<Step>) {
    |taken| <= NUMBER_OF_STEPS && forall k :: 0 <= k < |taken| ==> taken[k] == StepAt(k)
  }

  predicate AtOrAfterSwap(step: Step) {
    step.Swap? || step.Restart?
  }

  datatype Options = Options(dataDir: Path, backupPath: Path, toMajor: int)

  function ScratchFor(dataDir: Path): Path
    requires dataDir != []
  {
    dataDir[..|dataDir| - 1] + [dataDir[|dataDir| - 1] + "-upgrading"]
  }

  lemma ScratchIsApart(dataDir: Path)
    requires dataDir != []
    ensures !Overlap(dataDir, ScratchFor(dataDir))
  {
    var n := |dataDir| - 1;
    assert dataDir[n] != dataDir[n] + "-upgrading" by {
      assert |dataDir[n] + "-upgrading"| > |dataDir[n]|;
    }
    assert ScratchFor(dataDir)[n] == dataDir[n] + "-upgrading";
  }

  /** How one step goes. `tree` is what the step leaves in the directory it works on: what a server
      made of it, or as much as was done before a failure. `answers` are the spot checks', `major` the
      version a server reports. */
  datatype Choice = Choice(ok: bool, tree: Tree, other: Tree, answers: seq<string>, major: int)

  /** The disk, what the dump file and the spot checks recorded, and the steps taken so far. */
  datatype Progress = Progress(disk: Tree, dump: string, before: seq<string>, taken: seq<Step>, failed: bool)

  /** The version marker of a cluster directory. */
  const PG_VERSION: Path := ["PG_VERSION"]

  function Ended(p: Progress, step: Step, disk: Tree, ok: bool): Progress {
    p.(disk := disk, taken := p.taken + [step], failed := !ok)
  }

  function AfterBackup(p: Progress, o: Options, c: Choice): Progress {
    var gone := Remove(p.disk, o.backupPath);
    if Overlap(o.backupPath, o.dataDir) then Ended(p, Backup, gone, false)
    else if !c.ok then Ended(p, Backup, Retree(p.disk, o.backupPath, c.tree), false)
    else
      var copy := Sub(p.disk, o.dataDir);
      Ended(p, Backup, Retree(p.disk, o.backupPath, copy), PG_VERSION in copy)
  }

  /** The data directory is removed and the scratch directory takes its place. */
  function Swapped(disk: Tree, o: Options): Tree
    requires o.dataDir != []
  {
    var scratch := ScratchFor(o.dataDir);
    Retree(Remove(disk, scratch), o.dataDir, Sub(Remove(disk, o.dataDir), scratch))
  }

  /** A swap that fails part-way. */
  function HalfSwapped(disk: Tree, o: Options, c: Choice): Tree
    requires o.dataDir != []
  {
    Retree(Retree(disk, o.dataDir, c.tree), ScratchFor(o.dataDir), c.other)
  }

  function AfterSwap(p: Progress, o: Options, c: Choice): Progress
    requires o.dataDir != []
  {
    Ended(p, Swap, if c.ok then Swapped(p.disk, o) else HalfSwapped(p.disk, o, c), c.ok)
  }

  /** The directory whose tree a step works on, the backup and the swap apart. */
  function WorksOn(step: Step, o: Options): Path
    requires o.dataDir != []
  {
    if step.InitdbNew? || step.Restore? || step.Verify? then ScratchFor(o.dataDir) else o.dataDir
  }

  predicate Succeeds(p: Progress, o: Options, step: Step, c: Choice) {
    c.ok && (step.Verify? ==> c.major == o.toMajor && c.answers == p.before)
  }

  /** One step. `meaning` says what data a cluster directory holds; the dump and the spot checks record
      the old cluster's. */
  function AfterStep(p: Progress, meaning: Tree -> string, o: Options, step: Step, c: Choice): (after: Progress)
    requires o.dataDir != []
    ensures after.taken == p.taken + [step]
  {
    if step.Backup? then AfterBackup(p, o, c)
    else if step.Swap? then AfterSwap(p, o, c)
    else
      var recorded := if step.Dumpall? && c.ok then p.(dump := meaning(Sub(p.disk, o.dataDir)), before := c.answers) else p;
      Ended(recorded, step, Retree(p.disk, WorksOn(step, o), c.tree), Succeeds(p, o, step, c))
  }

  /** The first `n` steps, stopping at a failure. */
  function After(disk: Tree, meaning: Tree -> string, o: Options, cs: seq<Choice>, n: nat): Progress
    requires o.dataDir != [] && n <= 8 && |cs| == 8
  {
    if n == 0 then Progress(disk, "", [], [], false)
    else
      var p := After(disk, meaning, o, cs, n - 1);
      if p.failed then p else AfterStep(p, meaning, o, StepAt(n - 1), cs[n - 1])
  }

  datatype Outcome =
    | Upgraded
    | StepFailed(step: Step, oldClusterIntact: bool)
    | RawError

  /** What fails outside the steps: resolving the secret before all of them, or making the scratch
      socket directory before the restore. */
  datatype RawFailure = NoRawFailure | SecretUnresolved | NoScratchSocket

  function Reach(raw: RawFailure): nat {
    match raw
    case NoRawFailure => 8
    case SecretUnresolved => 0
    case NoScratchSocket => 4
  }

  lemma {:induction false} FailedStays(disk: Tree, meaning: Tree -> string, o: Options, cs: seq<Choice>, n: nat, m: nat)
    requires o.dataDir != [] && n <= m <= 8 && |cs| == 8 && After(disk, meaning, o, cs, n).failed
    ensures After(disk, meaning, o, cs, m) == After(disk, meaning, o, cs, n)
    decreases m
  {
    if n < m {
      FailedStays(disk, meaning, o, cs, n, m - 1);
    }
  }

  lemma {:induction false} RunInvariant(disk: Tree, meaning: Tree -> string, o: Options, cs: seq<Choice>, n: nat, inv: Progress -> bool)
    requires o.dataDir != [] && n <= 8 && |cs| == 8
    requires inv(After(disk, meaning, o, cs, 0))
    requires forall k :: 0 <= k < n && !After(disk, meaning, o, cs, k).failed && inv(After(disk, meaning, o, cs, k))
                         ==> inv(AfterStep(After(disk, meaning, o, cs, k), meaning, o, StepAt(k), cs[k]))
    ensures inv(After(disk, meaning, o, cs, n))
  {
    if n > 0 {
      RunInvariant(disk, meaning, o, cs, n - 1, inv);
    }
  }

  predicate Orderly(p: Progress) {
    InOrder(p.taken) && (p.failed ==> 0 < |p.taken|)
  }

  lemma NextIsOrderly(p: Progress, q: Progress, step: Step)
    requires Orderly(p) && |p.taken| < NUMBER_OF_STEPS
    requires q.taken == p.taken + [step] && step == StepAt(|p.taken|)
    ensures Orderly(q)
  {
  }

  lemma {:induction false} CountsSteps(disk: Tree, meaning: Tree -> string, o: Options, cs: seq<Choice>, n: nat)
    requires o.dataDir != [] && n <= 8 && |cs| == 8
    ensures |After(disk, meaning, o, cs, n).taken| <= n
    ensures !After(disk, meaning, o, cs, n).failed ==> |After(disk, meaning, o, cs, n).taken| == n
  {
    if n > 0 {
      CountsSteps(disk, meaning, o, cs, n - 1);
    }
  }

  /** Steps run in the canonical order, as many as there were before the first failure. */
  lemma StepsAreInOrder(disk: Tree, meaning: Tree -> string, o: Options, cs: seq<Choice>, n: nat)
    requires o.dataDir != [] && n <= 8 && |cs| == 8
    ensures var p := After(disk, meaning, o, cs, n);
            && |p.taken| <= n && InOrder(p.taken)
            && (p.failed ==> 0 < |p.taken|) && (!p.failed ==> |p.taken| == n)
  {
    CountsSteps(disk, meaning, o, cs, n);
    forall k | 0 <= k < n && !After(disk, meaning, o, cs, k).failed && Orderly(After(disk, meaning, o, cs, k))
      ensures Orderly(AfterStep(After(disk, meaning, o, cs, k), meaning, o, StepAt(k), cs[k]))
    {
      var p := After(disk, meaning, o, cs, k);
      CountsSteps(disk, meaning, o, cs, k);
      NextIsOrderly(p, AfterStep(p, meaning, o, StepAt(k), cs[k]), StepAt(k));
    }
    RunInvariant(disk, meaning, o, cs, n, Orderly);
  }

  /** Only the last step taken can have failed. */
  lemma OnlyTheLastFails(disk: Tree, meaning: Tree -> string, o: Options, cs: seq<Choice>, n: nat, k: nat)
    requires o.dataDir != [] && n <= 8 && |cs| == 8 && k < |After(disk, meaning, o, cs, n).taken|
    ensures k < n && !After(disk, meaning, o, cs, k).failed
  {
    StepsAreInOrder(disk, meaning, o, cs, n);
    StepsAreInOrder(disk, meaning, o, cs, k);
    if After(disk, meaning, o, cs, k).failed {
      FailedStays(disk, meaning, o, cs, k, n);
    }
  }

  class EmbeddedPostgres {
    var disk: Tree
    var major: int
    const meaning: Tree -> string

    constructor (disk: Tree, major: int, meaning: Tree -> string)
      ensures this.disk == disk && this.major == major && this.meaning == meaning
    {
      this.disk, this.major, this.meaning := disk, major, meaning;
    }

    /** Removes the tree at `p`, if any, and puts `t` there. */
    method Replace(p: Path, t: Tree)
      modifies this`disk
      ensures disk == Retree(old(disk), p, t)
    {
      disk := Remove(disk, p);
      disk := Place(disk, p, t);
    }

    /** The old backup goes first, then the copy is made and its version marker looked for. */
    method RunBackup(o: Options, c: Choice) returns (ok: bool)
      modifies this`disk
      ensures var after := AfterBackup(Progress(old(disk), "", [], [], false), o, c);
              disk == after.disk && ok == !after.failed
    {
      ghost var before := disk;
      disk := Remove(disk, o.backupPath);
      if Overlap(o.backupPath, o.dataDir) {
        return false;
      }
      RemovedElsewhere(before, o.backupPath, o.dataDir);
      if !c.ok {
        disk := Place(disk, o.backupPath, c.tree);
        return false;
      }
      disk := Place(disk, o.backupPath, Sub(disk, o.dataDir));
      Retreed(before, o.backupPath, Sub(before, o.dataDir));
      ok := PG_VERSION in Sub(disk, o.backupPath);
    }

    /** The data directory is removed, and the scratch directory renamed to it. */
    method RunSwap(o: Options, c: Choice) returns (ok: bool)
      requires o.dataDir != []
      modifies this`disk
      ensures ok == c.ok && disk == if c.ok then Swapped(old(disk), o) else HalfSwapped(old(disk), o, c)
    {
      var scratch := ScratchFor(o.dataDir);
      if !c.ok {
        Replace(o.dataDir, c.tree);
        Replace(scratch, c.other);
        return false;
      }
      RemovedInEitherOrder(disk, o.dataDir, scratch);
      disk := Remove(disk, o.dataDir);
      var moved := Sub(disk, scratch);
      disk := Remove(disk, scratch);
      disk := Place(disk, o.dataDir, moved);
      ok := true;
    }

    /** One step on the disk, recorded whether it succeeds or not. */
    method RunStep(p: Progress, o: Options, step: Step, c: Choice) returns (after: Progress)
      requires o.dataDir != [] && p.disk == disk
      modifies this`disk
      ensures after == AfterStep(p, meaning, o, step, c) && disk == after.disk
    {
      var ok := c.ok;
      var dump, before := p.dump, p.before;
      match step {
        case Stop => Replace(o.dataDir, c.tree);
        case Backup => ok := RunBackup(o, c);
        case Dumpall =>
          if c.ok {
            dump, before := meaning(Sub(disk, o.dataDir)), c.answers;
          }
          Replace(o.dataDir, c.tree);
        case InitdbNew => Replace(ScratchFor(o.dataDir), c.tree);
        case Restore => Replace(ScratchFor(o.dataDir), c.tree);
        case Verify =>
          Replace(ScratchFor(o.dataDir), c.tree);
          ok := c.ok && c.major == o.toMajor && c.answers == before;
        case Swap => ok := RunSwap(o, c);
        case Restart => Replace(o.dataDir, c.tree);
      }
      after := Progress(disk, dump, before, p.taken + [step], !ok);
    }

    /** The next step of a run: after `n` steps without a failure, the step after them. */
    method RunNext(ghost start: Tree, p: Progress, o: Options, cs: seq<Choice>, n: nat) returns (after: Progress)
      requires o.dataDir != [] && n < 8 && |cs| == 8
      requires p == After(start, meaning, o, cs, n) && !p.failed && disk == p.disk
      modifies this`disk
      ensures after == After(start, meaning, o, cs, n + 1) && disk == after.disk
      ensures |after.taken| == |p.taken| + 1
    {
      after := RunStep(p, o, StepAt(n), cs[n]);
    }

    /** The steps up to `reach`, stopping at a failure; the new version is taken over after the swap. */
    method RunSteps(o: Options, cs: seq<Choice>, reach: nat) returns (p: Progress, n: nat)
      requires o.dataDir != [] && |cs| == 8 && reach <= 8
      modifies this
      ensures n <= reach && (p.failed || n == reach) && |p.taken| == n
      ensures p == After(old(disk), meaning, o, cs, n) && disk == p.disk
      ensures major == if n > 7 || (n == 7 && !p.failed) then o.toMajor else old(major)
    {
      ghost var start := disk;
      p := Progress(disk, "", [], [], false);
      n := 0;
      while n < reach && !p.failed
        invariant n <= reach && p == After(start, meaning, o, cs, n) && disk == p.disk && |p.taken| == n
        invariant major == if n > 7 || (n == 7 && !p.failed) then o.toMajor else old(major)
      {
        p := RunNext(start, p, o, cs, n);
        n := n + 1;
        if n == 7 && !p.failed {
          major := o.toMajor;
        }
      }
    }

    /** A failed step is reported with its name and whether the old cluster is still in place. */
    method Upgrade(o: Options, cs: seq<Choice>, raw: RawFailure) returns (outcome: Outcome, taken: seq<Step>)
      requires o.dataDir != [] && |cs| == 8
      modifies this
      ensures var p := After(old(disk), meaning, o, cs, Reach(raw));
              && disk == p.disk && taken == p.taken
              && outcome == (if p.failed then StepFailed(Last(taken), !AtOrAfterSwap(Last(taken)))
                             else if raw.NoRawFailure? then Upgraded else RawError)
      ensures major == if |taken| > 7 || (|taken| == 7 && !outcome.StepFailed?) then o.toMajor else old(major)
    {
      ghost var start := disk;
      var p, n := RunSteps(o, cs, Reach(raw));
      StepsAreInOrder(start, meaning, o, cs, n);
      if p.failed {
        FailedStays(start, meaning, o, cs, n, Reach(raw));
      }
      taken := p.taken;
      outcome := if p.failed then StepFailed(Last(taken), !AtOrAfterSwap(Last(taken)))
                 else if raw.NoRawFailure? then Upgraded else RawError;
    }
  }

  function Last(taken: seq<Step>): Step {
    if taken == [] then Stop else taken[|taken| - 1]
  }

  // ---------------------------------------------------------------- what the upgrade keeps

  /** The backup is neither inside the cluster, nor around it, nor in the upgrade's scratch directory. */
  predicate Apart(o: Options)
    requires o.dataDir != []
  {
    !Overlap(o.backupPath, o.dataDir) && !Overlap(o.backupPath, ScratchFor(o.dataDir))
  }

  /** What is assumed of the PostgreSQL binaries: a server that runs on a directory keeps its data,
      and a restore without errors holds what was dumped. */
  predicate Lawful(p: Progress, meaning: Tree -> string, o: Options, step: Step, c: Choice)
    requires o.dataDir != []
  {
    match step
    case Stop => meaning(c.tree) == meaning(Sub(p.disk, o.dataDir))
    case Dumpall => meaning(c.tree) == meaning(Sub(p.disk, o.dataDir))
    case Restart => meaning(c.tree) == meaning(Sub(p.disk, o.dataDir))
    case Restore => c.ok ==> meaning(c.tree) == p.dump
    case Verify => meaning(c.tree) == meaning(Sub(p.disk, ScratchFor(o.dataDir)))
    case _ => true
  }

  predicate LawfulRun(disk: Tree, meaning: Tree -> string, o: Options, cs: seq<Choice>, n: nat)
    requires o.dataDir != [] && n <= 8 && |cs| == 8
  {
    forall k :: 0 <= k < n ==> Lawful(After(disk, meaning, o, cs, k), meaning, o, StepAt(k), cs[k])
  }

  lemma OneTree(disk: Tree, p: Path, t: Tree, q: Path, r: Path)
    requires !Overlap(p, q) && !Overlap(p, r)
    ensures var after := Retree(disk, p, t);
            Sub(after, p) == t && Sub(after, q) == Sub(disk, q) && Sub(after, r) == Sub(disk, r)
  {
    Retreed(disk, p, t);
    RetreedElsewhere(disk, p, t, q);
    RetreedElsewhere(disk, p, t, r);
  }

  lemma RemovedElsewhere(disk: Tree, p: Path, q: Path)
    requires !Overlap(p, q)
    ensures Sub(Remove(disk, p), q) == Sub(disk, q)
  {
    forall r: Path
      ensures r in Sub(Remove(disk, p), q) <==> r in Sub(disk, q)
      ensures r in Sub(disk, q) ==> r in Sub(Remove(disk, p), q) && Sub(Remove(disk, p), q)[r] == Sub(disk, q)[r]
    {
      SubAt(Remove(disk, p), q, r);
      SubAt(disk, q, r);
      if p <= q + r {
        PrefixesMeet(p, q, q + r);
      }
    }
  }

  lemma SwapMoves(disk: Tree, o: Options)
    requires o.dataDir != [] && Apart(o)
    ensures Sub(Swapped(disk, o), o.dataDir) == Sub(disk, ScratchFor(o.dataDir))
    ensures Sub(Swapped(disk, o), o.backupPath) == Sub(disk, o.backupPath)
  {
    var D, S, B := o.dataDir, ScratchFor(o.dataDir), o.backupPath;
    ScratchIsApart(D);
    RemovedElsewhere(disk, D, S);
    RemovedElsewhere(disk, S, B);
    Retreed(Remove(disk, S), D, Sub(Remove(disk, D), S));
    RetreedElsewhere(Remove(disk, S), D, Sub(Remove(disk, D), S), B);
  }

  lemma FailedSwapSparesBackup(disk: Tree, o: Options, c: Choice)
    requires o.dataDir != [] && Apart(o)
    ensures Sub(HalfSwapped(disk, o, c), o.backupPath) == Sub(disk, o.backupPath)
  {
    RetreedElsewhere(disk, o.dataDir, c.tree, o.backupPath);
    RetreedElsewhere(Retree(disk, o.dataDir, c.tree), ScratchFor(o.dataDir), c.other, o.backupPath);
  }

  // ---------------------------------------------------------------- what each step does to each directory

  /** The data directory, the scratch directory and the backup after a step, whether it failed, and what
      it recorded, written out step by step. */
  ghost predicate Effect(p: Progress, q: Progress, meaning: Tree -> string, o: Options, step: Step, c: Choice)
    requires o.dataDir != []
  {
    var D, S, B := o.dataDir, ScratchFor(o.dataDir), o.backupPath;
    && (step != Dumpall || !c.ok ==> q.dump == p.dump && q.before == p.before)
    && (step != Backup ==> Sub(q.disk, B) == Sub(p.disk, B))
    && match step
       case Stop => Sub(q.disk, D) == c.tree && Sub(q.disk, S) == Sub(p.disk, S) && (q.failed <==> !c.ok)
       case Backup =>
         && Sub(q.disk, D) == Sub(p.disk, D) && Sub(q.disk, S) == Sub(p.disk, S)
         && Sub(q.disk, B) == (if c.ok then Sub(p.disk, D) else c.tree)
         && (q.failed <==> !c.ok || ["PG_VERSION"] !in Sub(p.disk, D))
       case Dumpall =>
         && Sub(q.disk, D) == c.tree && Sub(q.disk, S) == Sub(p.disk, S) && (q.failed <==> !c.ok)
         && (c.ok ==> q.dump == meaning(Sub(p.disk, D)) && q.before == c.answers)
       case InitdbNew => Sub(q.disk, D) == Sub(p.disk, D) && Sub(q.disk, S) == c.tree && (q.failed <==> !c.ok)
       case Restore => Sub(q.disk, D) == Sub(p.disk, D) && Sub(q.disk, S) == c.tree && (q.failed <==> !c.ok)
       case Verify =>
         && Sub(q.disk, D) == Sub(p.disk, D) && Sub(q.disk, S) == c.tree
         && (q.failed <==> !c.ok || c.major != o.toMajor || c.answers != p.before)
       case Swap =>
         && Sub(q.disk, D) == (if c.ok then Sub(p.disk, S) else c.tree)
         && Sub(q.disk, S) == (if c.ok then map[] else c.other) && (q.failed <==> !c.ok)
       case Restart => Sub(q.disk, D) == c.tree && Sub(q.disk, S) == Sub(p.disk, S) && (q.failed <==> !c.ok)
  }

  /** Servers and tools change the directory they work on and no other; the backup is a copy of the
      cluster, complete when it has the version marker; the verified server must report the version
      asked for and answer as the old one did; and the swap puts the scratch directory in the data
      directory's place. */
  lemma StepHasItsEffect(p: Progress, meaning: Tree -> string, o: Options, step: Step, c: Choice)
    requires o.dataDir != [] && Apart(o)
    ensures Effect(p, AfterStep(p, meaning, o, step, c), meaning, o, step, c)
  {
    var D, S, B := o.dataDir, ScratchFor(o.dataDir), o.backupPath;
    ScratchIsApart(D);
    if step.Backup? {
      OneTree(p.disk, B, c.tree, D, S);
      OneTree(p.disk, B, Sub(p.disk, D), D, S);
    } else if step.Swap? {
      SwapReplaces(p.disk, o, c);
    } else if step.InitdbNew? || step.Restore? || step.Verify? {
      OneTree(p.disk, S, c.tree, D, B);
    } else {
      OneTree(p.disk, D, c.tree, S, B);
    }
  }

  lemma NothingRemains(disk: Tree, p: Path)
    ensures Sub(Remove(disk, p), p) == map[]
  {
  }

  lemma SwapReplaces(disk: Tree, o: Options, c: Choice)
    requires o.dataDir != [] && Apart(o)
    ensures var D, S, B, half := o.dataDir, ScratchFor(o.dataDir), o.backupPath, HalfSwapped(disk, o, c);
            && Sub(Swapped(disk, o), B) == Sub(disk, B) && Sub(half, B) == Sub(disk, B)
            && Sub(Swapped(disk, o), D) == Sub(disk, S) && Sub(half, D) == c.tree
            && Sub(Swapped(disk, o), S) == map[] && Sub(half, S) == c.other
  {
    var D, S := o.dataDir, ScratchFor(o.dataDir);
    ScratchIsApart(D);
    SwapMoves(disk, o);
    NothingRemains(disk, S);
    RetreedElsewhere(Remove(disk, S), D, Sub(Remove(disk, D), S), S);
    FailedSwapSparesBackup(disk, o, c);
    Retreed(disk, D, c.tree);
    OneTree(Retree(disk, D, c.tree), S, c.other, D, o.backupPath);
  }

  /** What a run that has not failed has on disk and on record after `n` steps. */
  ghost predicate Reached(start: Tree, p: Progress, meaning: Tree -> string, o: Options, cs: seq<Choice>, n: nat)
    requires o.dataDir != [] && n <= 8 && |cs| == 8
  {
    var D, S, B := o.dataDir, ScratchFor(o.dataDir), o.backupPath;
    && Sub(p.disk, D) == (if n == 0 then Sub(start, D) else if n <= 2 then cs[0].tree else if n <= 6 then cs[2].tree
                          else if n == 7 then cs[5].tree else cs[7].tree)
    && Sub(p.disk, B) == (if n < 2 then Sub(start, B) else cs[0].tree)
    && Sub(p.disk, S) == (if n < 4 then Sub(start, S) else if n == 4 then cs[3].tree else if n == 5 then cs[4].tree
                          else if n == 6 then cs[5].tree else map[])
    && (n >= 3 ==> p.dump == meaning(cs[0].tree) && p.before == cs[2].answers)
  }

  /** What it takes to get through the first `n` steps. */
  ghost predicate Passes(o: Options, cs: seq<Choice>, n: nat)
    requires n <= 8 && |cs| == 8
  {
    && (forall k :: 0 <= k < n ==> cs[k].ok)
    && (n >= 2 ==> ["PG_VERSION"] in cs[0].tree)
    && (n >= 6 ==> cs[5].major == o.toMajor && cs[5].answers == cs[2].answers)
  }

  lemma PassesNext(o: Options, cs: seq<Choice>, n: nat)
    requires n < 8 && |cs| == 8 && Passes(o, cs, n)
    ensures Passes(o, cs, n + 1)
       <==> && cs[n].ok && (n == 1 ==> ["PG_VERSION"] in cs[0].tree)
            && (n == 5 ==> cs[5].major == o.toMajor && cs[5].answers == cs[2].answers)
  {
  }

  lemma ReachesNext(start: Tree, p: Progress, q: Progress, meaning: Tree -> string, o: Options, cs: seq<Choice>, n: nat)
    requires o.dataDir != [] && n < 8 && |cs| == 8
    requires Reached(start, p, meaning, o, cs, n) && Passes(o, cs, n) && Effect(p, q, meaning, o, StepAt(n), cs[n])
    ensures !q.failed <==> Passes(o, cs, n + 1)
    ensures !q.failed ==> Reached(start, q, meaning, o, cs, n + 1)
  {
    PassesNext(o, cs, n);
    if n < 3 {
      assert cs[n].ok ==> Reached(start, q, meaning, o, cs, n + 1);
    } else if n < 6 {
      assert cs[n].ok ==> Reached(start, q, meaning, o, cs, n + 1);
    }
  }

  lemma {:induction false} ReachedIff(start: Tree, meaning: Tree -> string, o: Options, cs: seq<Choice>, n: nat)
    requires o.dataDir != [] && n <= 8 && |cs| == 8 && Apart(o)
    ensures var p := After(start, meaning, o, cs, n);
            && (!p.failed <==> Passes(o, cs, n))
            && (!p.failed ==> Reached(start, p, meaning, o, cs, n))
  {
    if n > 0 {
      ReachedIff(start, meaning, o, cs, n - 1);
      var p := After(start, meaning, o, cs, n - 1);
      if !p.failed {
        StepHasItsEffect(p, meaning, o, StepAt(n - 1), cs[n - 1]);
        ReachesNext(start, p, After(start, meaning, o, cs, n), meaning, o, cs, n - 1);
      }
    }
  }

  lemma AllStepsTaken(taken: seq<Step>)
    requires InOrder(taken) && |taken| == 8
    ensures taken == [Stop, Backup, Dumpall, InitdbNew, Restore, Verify, Swap, Restart]
  {
  }

  /** When an upgrade succeeds, and what it leaves. All eight steps must succeed for themselves, the
      stopped cluster must have its version marker, and the new server must report the version asked
      for and answer the spot checks as the old one did. Then the data directory is what the restarted
      server made of the cluster that was verified, the backup is the cluster as it was stopped, and
      the scratch directory is gone. */
  lemma UpgradeSucceedsIff(start: Tree, meaning: Tree -> string, o: Options, cs: seq<Choice>, p: Progress)
    requires o.dataDir != [] && |cs| == 8 && Apart(o) && p == After(start, meaning, o, cs, 8)
    ensures !p.failed <==> && (forall k :: 0 <= k < 8 ==> cs[k].ok) && ["PG_VERSION"] in cs[0].tree
                           && cs[5].major == o.toMajor && cs[5].answers == cs[2].answers
    ensures !p.failed ==> && Sub(p.disk, o.dataDir) == cs[7].tree && Sub(p.disk, o.backupPath) == cs[0].tree
                          && Sub(p.disk, ScratchFor(o.dataDir)) == map[]
                          && p.taken == [Stop, Backup, Dumpall, InitdbNew, Restore, Verify, Swap, Restart]
  {
    ReachedIff(start, meaning, o, cs, 8);
    StepsAreInOrder(start, meaning, o, cs, 8);
    if !p.failed {
      AllStepsTaken(p.taken);
    }
  }

  /** What fails outside the steps comes between them: an unresolved secret before the first, a missing
      scratch socket directory after the fourth. */
  lemma RawFailuresComeBetween(start: Tree, meaning: Tree -> string, o: Options, cs: seq<Choice>)
    requires o.dataDir != [] && |cs| == 8
    ensures var p := After(start, meaning, o, cs, Reach(SecretUnresolved)); p.disk == start && p.taken == [] && !p.failed
    ensures var p := After(start, meaning, o, cs, Reach(NoScratchSocket));
            !p.failed ==> p.taken == [Stop, Backup, Dumpall, InitdbNew]
    ensures var p := After(start, meaning, o, cs, Reach(NoRawFailure));
            !p.failed ==> p.taken == [Stop, Backup, Dumpall, InitdbNew, Restore, Verify, Swap, Restart]
  {
    StepsAreInOrder(start, meaning, o, cs, 4);
    StepsAreInOrder(start, meaning, o, cs, 8);
    FourStepsTaken(After(start, meaning, o, cs, 4).taken);
    if |After(start, meaning, o, cs, 8).taken| == 8 {
      AllStepsTaken(After(start, meaning, o, cs, 8).taken);
    }
  }

  lemma FourStepsTaken(taken: seq<Step>)
    requires InOrder(taken)
    ensures |taken| == 4 ==> taken == [Stop, Backup, Dumpall, InitdbNew]
  {
  }

  /** What the old cluster's data has become after some of the steps. */
  predicate Kept(p: Progress, meaning: Tree -> string, o: Options, data: string)
    requires o.dataDir != []
  {
    var n := |p.taken|;
    && (n < 7 ==> meaning(Sub(p.disk, o.dataDir)) == data)
    && (n > 2 || (n == 2 && !p.failed) ==> meaning(Sub(p.disk, o.backupPath)) == data)
    && (n > 3 || (n == 3 && !p.failed) ==> p.dump == data)
    && (5 <= n <= 6 && !p.failed ==> meaning(Sub(p.disk, ScratchFor(o.dataDir))) == data)
    && (n == 8 || (n == 7 && !p.failed) ==> meaning(Sub(p.disk, o.dataDir)) == data)
  }

  lemma TakenUpTo(taken: seq<Step>)
    requires InOrder(taken)
    ensures Swap in taken <==> |taken| >= 7
    ensures Backup in taken <==> |taken| >= 2
    ensures Restart in taken <==> |taken| == 8
    ensures Last(taken) == Backup <==> |taken| == 2
    ensures AtOrAfterSwap(Last(taken)) <==> |taken| >= 7
  {
    assert |taken| > 1 ==> taken[1] == Backup;
    assert |taken| > 6 ==> taken[6] == Swap;
    assert |taken| > 7 ==> taken[7] == Restart;
  }

  lemma EarlySteps(p: Progress, q: Progress, meaning: Tree -> string, o: Options, step: Step, c: Choice, data: string)
    requires o.dataDir != [] && !p.failed && Kept(p, meaning, o, data) && Lawful(p, meaning, o, step, c)
    requires |p.taken| < 4 && step == StepAt(|p.taken|) && |q.taken| == |p.taken| + 1
    requires Effect(p, q, meaning, o, step, c)
    ensures Kept(q, meaning, o, data)
  {
  }

  lemma ScratchSteps(p: Progress, q: Progress, meaning: Tree -> string, o: Options, step: Step, c: Choice, data: string)
    requires o.dataDir != [] && !p.failed && Kept(p, meaning, o, data) && Lawful(p, meaning, o, step, c)
    requires 4 <= |p.taken| < 6 && step == StepAt(|p.taken|) && |q.taken| == |p.taken| + 1
    requires Effect(p, q, meaning, o, step, c)
    ensures Kept(q, meaning, o, data)
  {
  }

  lemma SwapStep(p: Progress, q: Progress, meaning: Tree -> string, o: Options, c: Choice, data: string)
    requires o.dataDir != [] && !p.failed && Kept(p, meaning, o, data) && Lawful(p, meaning, o, Swap, c)
    requires |p.taken| == 6 && |q.taken| == 7 && Effect(p, q, meaning, o, Swap, c)
    ensures Kept(q, meaning, o, data)
  {
  }

  lemma RestartStep(p: Progress, q: Progress, meaning: Tree -> string, o: Options, c: Choice, data: string)
    requires o.dataDir != [] && !p.failed && Kept(p, meaning, o, data) && Lawful(p, meaning, o, Restart, c)
    requires |p.taken| == 7 && |q.taken| == 8 && Effect(p, q, meaning, o, Restart, c)
    ensures Kept(q, meaning, o, data)
  {
  }

  lemma StepKeeps(p: Progress, q: Progress, meaning: Tree -> string, o: Options, step: Step, c: Choice, data: string)
    requires o.dataDir != [] && !p.failed && Kept(p, meaning, o, data) && Lawful(p, meaning, o, step, c)
    requires |p.taken| < 8 && step == StepAt(|p.taken|) && |q.taken| == |p.taken| + 1
    requires Effect(p, q, meaning, o, step, c)
    ensures Kept(q, meaning, o, data)
  {
    if |p.taken| < 4 {
      EarlySteps(p, q, meaning, o, step, c, data);
    } else if |p.taken| < 6 {
      ScratchSteps(p, q, meaning, o, step, c, data);
    } else if |p.taken| == 6 {
      SwapStep(p, q, meaning, o, c, data);
    } else {
      RestartStep(p, q, meaning, o, c, data);
    }
  }

  /** `Kept` as a function of the progress alone. */
  function KeptBy(meaning: Tree -> string, o: Options, data: string): Progress -> bool
    requires o.dataDir != []
  {
    (p: Progress) => Kept(p, meaning, o, data)
  }

  lemma UpgradeKeeps(disk: Tree, meaning: Tree -> string, o: Options, cs: seq<Choice>, n: nat)
    requires o.dataDir != [] && n <= 8 && |cs| == 8 && Apart(o) && LawfulRun(disk, meaning, o, cs, n)
    ensures Kept(After(disk, meaning, o, cs, n), meaning, o, meaning(Sub(disk, o.dataDir)))
  {
    var data := meaning(Sub(disk, o.dataDir));
    var inv := KeptBy(meaning, o, data);
    forall k | 0 <= k < n && !After(disk, meaning, o, cs, k).failed && inv(After(disk, meaning, o, cs, k))
      ensures inv(AfterStep(After(disk, meaning, o, cs, k), meaning, o, StepAt(k), cs[k]))
    {
      StepsAreInOrder(disk, meaning, o, cs, k);
      var p := After(disk, meaning, o, cs, k);
      StepHasItsEffect(p, meaning, o, StepAt(k), cs[k]);
      StepKeeps(p, AfterStep(p, meaning, o, StepAt(k), cs[k]), meaning, o, StepAt(k), cs[k], data);
    }
    RunInvariant(disk, meaning, o, cs, n, inv);
  }

  predicate HoldsAt(disk: Tree, meaning: Tree -> string, p: Path, data: string) {
    meaning(Sub(disk, p)) == data
  }

  /** With the backup apart, at every point of every upgrade and whatever fails: the data directory
      holds its data unless the swap was reached, a complete copy is always somewhere, the backup is
      one from the moment its step succeeded, and a finished upgrade serves the same data. */
  lemma DataIsNeverLost(disk: Tree, meaning: Tree -> string, o: Options, cs: seq<Choice>, n: nat)
    requires o.dataDir != [] && n <= 8 && |cs| == 8 && Apart(o) && LawfulRun(disk, meaning, o, cs, n)
    ensures var p, data := After(disk, meaning, o, cs, n), meaning(Sub(disk, o.dataDir));
            && (Swap !in p.taken ==> HoldsAt(p.disk, meaning, o.dataDir, data))
            && (HoldsAt(p.disk, meaning, o.dataDir, data) || HoldsAt(p.disk, meaning, o.backupPath, data))
            && (Backup in p.taken && !(p.failed && Last(p.taken) == Backup) ==> HoldsAt(p.disk, meaning, o.backupPath, data))
            && (Restart in p.taken ==> HoldsAt(p.disk, meaning, o.dataDir, data))
            && (p.failed && !AtOrAfterSwap(Last(p.taken)) ==> HoldsAt(p.disk, meaning, o.dataDir, data))
  {
    UpgradeKeeps(disk, meaning, o, cs, n);
    StepsAreInOrder(disk, meaning, o, cs, n);
    var p := After(disk, meaning, o, cs, n);
    TakenUpTo(p.taken);
    KeptSomewhere(p, meaning, o, meaning(Sub(disk, o.dataDir)));
  }

  lemma KeptSomewhere(p: Progress, meaning: Tree -> string, o: Options, data: string)
    requires o.dataDir != [] && Kept(p, meaning, o, data) && |p.taken| <= 8
    ensures HoldsAt(p.disk, meaning, o.dataDir, data) || HoldsAt(p.disk, meaning, o.backupPath, data)
    ensures |p.taken| < 7 ==> HoldsAt(p.disk, meaning, o.dataDir, data)
    ensures |p.taken| > 2 || (|p.taken| == 2 && !p.failed) ==> HoldsAt(p.disk, meaning, o.backupPath, data)
    ensures |p.taken| == 8 ==> HoldsAt(p.disk, meaning, o.dataDir, data)
  {
  }

  // ---------------------------------------------------------------- an overlapping backup path

  /** The backup step leaves the cluster's files as they were exactly when none of them lies at or
      below the backup path. */
  lemma BackupSparesClusterIff(p: Progress, o: Options, c: Choice)
    requires c.ok
    ensures Sub(AfterBackup(p, o, c).disk, o.dataDir) == Sub(p.disk, o.dataDir)
       <==> forall q :: q in p.disk && o.dataDir <= q ==> !(o.backupPath <= q)
  {
    var D, B := o.dataDir, o.backupPath;
    if !Overlap(B, D) {
      OneTree(p.disk, B, Sub(p.disk, D), D, D);
      forall q | q in p.disk && D <= q
        ensures !(B <= q)
      {
        if B <= q {
          PrefixesMeet(B, D, q);
        }
      }
    } else {
      forall r: Path
        ensures r in Sub(Remove(p.disk, B), D) <==> r in Sub(p.disk, D) && !(B <= D + r)
        ensures r in Sub(Remove(p.disk, B), D) ==> Sub(Remove(p.disk, B), D)[r] == Sub(p.disk, D)[r]
      {
        SubAt(Remove(p.disk, B), D, r);
        SubAt(p.disk, D, r);
      }
      forall q | q in p.disk && D <= q
        ensures q[|D|..] in Sub(p.disk, D) && D + q[|D|..] == q
      {
        assert D + q[|D|..] == q;
        SubAt(p.disk, D, q[|D|..]);
      }
    }
  }

  /** With the backup path at or around the data directory, the second step deletes the cluster and
      fails, and the error says that the old cluster is intact. */
  lemma OverlappingBackupLosesData(disk: Tree, meaning: Tree -> string, o: Options, cs: seq<Choice>)
    requires o.dataDir != [] && |cs| == 8 && cs[0].ok && o.backupPath <= o.dataDir
    ensures var p := After(disk, meaning, o, cs, 8);
            && p.failed && p.taken == [Stop, Backup] && !AtOrAfterSwap(Last(p.taken))
            && Sub(p.disk, o.dataDir) == map[]
  {
    var p := After(disk, meaning, o, cs, 2);
    assert After(disk, meaning, o, cs, 1) == AfterStep(After(disk, meaning, o, cs, 0), meaning, o, Stop, cs[0]);
    assert p == AfterBackup(After(disk, meaning, o, cs, 1), o, cs[1]);
    FailedStays(disk, meaning, o, cs, 2, 8);
    forall r: Path
      ensures r !in Sub(p.disk, o.dataDir)
    {
      SubAt(p.disk, o.dataDir, r);
      assert o.backupPath <= o.dataDir + r;
    }
  }

  lemma TailOf(p: Path, y: Path)
    ensures p <= p + y && (p + y)[|p|..] == y
  {
  }

  lemma PlacedAt(disk: Tree, p: Path, t: Tree, y: Path)
    ensures var after := Retree(disk, p, t);
            (p + y in after <==> y in t) && (y in t ==> after[p + y] == t[y])
  {
    TailOf(p, y);
    RetreedAt(disk, p, t, p + y);
  }

  lemma InsideAt(after: Tree, t: Tree, q: Path, x: Path, r: Path)
    requires (q + r in after <==> x + r in t) && (x + r in t ==> after[q + r] == t[x + r])
    ensures (r in Sub(after, q) <==> r in Sub(t, x)) && (r in Sub(t, x) ==> Sub(after, q)[r] == Sub(t, x)[r])
  {
    SubAt(after, q, r);
    SubAt(t, x, r);
  }

  lemma Regrouped(p: Path, x: Path, r: Path)
    ensures p + x + r == p + (x + r)
  {
  }

  lemma SameTrees(a: Tree, b: Tree)
    requires forall r: Path :: r in a <==> r in b
    requires forall r: Path :: r in b ==> a[r] == b[r]
    ensures a == b
  {
  }

  lemma RetreedInside(disk: Tree, p: Path, t: Tree, x: Path)
    ensures Sub(Retree(disk, p, t), p + x) == Sub(t, x)
  {
    var a, b := Sub(Retree(disk, p, t), p + x), Sub(t, x);
    forall r: Path
      ensures r in a <==> r in b
      ensures r in b ==> a[r] == b[r]
    {
      PlacedAt(disk, p, t, x + r);
      Regrouped(p, x, r);
      InsideAt(Retree(disk, p, t), t, p + x, x, r);
    }
    SameTrees(a, b);
  }

  /** With the backup path in the scratch directory the fourth step clears the backup: what is at its
      path from then on is whatever the new cluster has there. The data directory is left alone. */
  lemma BackupInScratchIsCleared(p: Progress, meaning: Tree -> string, o: Options, c: Choice)
    requires o.dataDir != [] && ScratchFor(o.dataDir) <= o.backupPath
    ensures var S, after := ScratchFor(o.dataDir), AfterStep(p, meaning, o, InitdbNew, c).disk;
            && Sub(after, o.backupPath) == Sub(c.tree, o.backupPath[|S|..])
            && Sub(after, o.dataDir) == Sub(p.disk, o.dataDir)
  {
    var S := ScratchFor(o.dataDir);
    var x := o.backupPath[|S|..];
    assert o.backupPath == S + x;
    ScratchIsApart(o.dataDir);
    assert AfterStep(p, meaning, o, InitdbNew, c).disk == Retree(p.disk, S, c.tree);
    RetreedElsewhere(p.disk, S, c.tree, o.dataDir);
    RetreedInside(p.disk, S, c.tree, x);
  }
}
