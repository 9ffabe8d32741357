/** The migration runner (packages/db/src/migrate.ts) over a transactional database, with a crash
    possible at any point of any run. */
module DbMigrate {
  import opened Common

  /** Committed state: the schema, the bookkeeping table, and which files' SQL has committed, in order. */
  datatype Db<S> = Db(schema: S, book: set<string>, log: seq<string>)

  /** What a file's SQL makes of a schema, if it runs at all. */
  type Sql<!S> = (S, string) -> Option<S>

  /** One file's transaction: the SQL and the bookkeeping row commit together or not at all. An
      existing row is left as it is. */
  function Applied<S>(db: Db<S>, file: string, sql: Sql<S>): Option<Db<S>> {
    match sql(db.schema, file)
    case None => None
    case Some(schema) => Some(Db(schema, db.book + {file}, db.log + [file]))
  }

  datatype End = Finished | FileFailed(file: string) | Died

  datatype Ran<S> = Ran(db: Db<S>, end: End)

  /** A run over `files[n..]` that read the bookkeeping table as `snapshot` and gets as far as `budget`
      commits. */
  function RunFrom<S>(db: Db<S>, files: seq<string>, n: nat, snapshot: set<string>, sql: Sql<S>, budget: nat): Ran<S>
    requires n <= |files|
    decreases |files| - n
  {
    if n == |files| then Ran(db, Finished)
    else if files[n] in snapshot then RunFrom(db, files, n + 1, snapshot, sql, budget)
    else if budget == 0 then Ran(db, Died)
    else
      match Applied(db, files[n], sql)
      case None => Ran(db, FileFailed(files[n]))
      case Some(next) => RunFrom(next, files, n + 1, snapshot, sql, budget - 1)
  }

  class Database<S> {
    var committed: Db<S>
    /** How many more transactions commit before the process dies. */
    var budget: nat

    constructor (db: Db<S>, budget: nat)
      ensures committed == db && this.budget == budget
    {
      this.committed, this.budget := db, budget;
    }

    /** BEGIN, the file's SQL, the bookkeeping row, COMMIT; or ROLLBACK. */
    method ApplyMigrationFile(file: string, sql: Sql<S>) returns (end: End)
      modifies this
      ensures old(budget) == 0 ==> end == Died && committed == old(committed) && budget == 0
      ensures old(budget) > 0 ==>
        match sql(old(committed.schema), file)
        case None => end == FileFailed(file) && committed == old(committed) && budget == old(budget)
        case Some(schema) =>
          && end == Finished && budget == old(budget) - 1
          && committed == Db(schema, old(committed.book) + {file}, old(committed.log) + [file])
    {
      if budget == 0 {
        return Died;
      }
      var working := committed;
      var after := sql(working.schema, file);
      if after.None? {
        return FileFailed(file);
      }
      working := working.(schema := after.value, log := working.log + [file]);
      working := working.(book := working.book + {file});
      committed := working;
      budget := budget - 1;
      end := Finished;
    }

    method RunPendingMigrations(files: seq<string>, sql: Sql<S>) returns (end: End, appliedCount: nat)
      modifies this
      ensures Ran(committed, end) == RunFrom(old(committed), files, 0, old(committed).book, sql, old(budget))
      ensures |committed.log| == |old(committed).log| + appliedCount
    {
      var snapshot := committed.book;
      ghost var start, budgetAtStart := committed, budget;
      appliedCount := 0;
      for n := 0 to |files|
        invariant RunFrom(start, files, 0, snapshot, sql, budgetAtStart) == RunFrom(committed, files, n, snapshot, sql, budget)
        invariant |committed.log| == |start.log| + appliedCount
      {
        if files[n] in snapshot {
          continue;
        }
        end := ApplyMigrationFile(files[n], sql);
        if !end.Finished? {
          return;
        }
        appliedCount := appliedCount + 1;
      }
      end := Finished;
    }
  }

  // ---------------------------------------------------------------- one run

  predicate Distinct(names: seq<string>) {
    forall i, j :: 0 <= i < j < |names| ==> names[i] != names[j]
  }

  /** The bookkeeping table lists exactly what has committed, each file once. */
  ghost predicate Consistent<S>(db: Db<S>) {
    Distinct(db.log) && forall f :: f in db.book <==> f in db.log
  }

  /** The schema is what the committed files make of an empty one, in commit order. */
  predicate Replays<S(==)>(db: Db<S>, empty: S, sql: Sql<S>) {
    Replayed(empty, db.log, sql) == Some(db.schema)
  }

  function Replayed<S>(empty: S, log: seq<string>, sql: Sql<S>): Option<S> {
    if log == [] then Some(empty)
    else
      match Replayed(empty, log[..|log| - 1], sql)
      case None => None
      case Some(s) => sql(s, log[|log| - 1])
  }

  /** The files among `files[n..]` that a run with this snapshot applies. */
  function Pending(files: seq<string>, n: nat, snapshot: set<string>): seq<string>
    requires n <= |files|
    decreases |files| - n
  {
    if n == |files| then []
    else (if files[n] in snapshot then [] else [files[n]]) + Pending(files, n + 1, snapshot)
  }

  lemma {:induction false} PendingMembers(files: seq<string>, n: nat, snapshot: set<string>, f: string)
    requires n <= |files|
    ensures f in Pending(files, n, snapshot) <==> f in files[n..] && f !in snapshot
    decreases |files| - n
  {
    if n < |files| {
      PendingMembers(files, n + 1, snapshot, f);
      assert files[n..] == [files[n]] + files[n + 1..];
    }
  }

  /** However a run ends, what it committed is a first part of what was pending, in file order, and all
      of it if it finished. */
  lemma {:induction false} RunCommitsAPrefix<S>(db: Db<S>, files: seq<string>, n: nat, snapshot: set<string>, sql: Sql<S>, budget: nat)
    requires n <= |files|
    ensures var ran, pending := RunFrom(db, files, n, snapshot, sql, budget), Pending(files, n, snapshot);
            && db.log <= ran.db.log
            && |ran.db.log| - |db.log| <= |pending|
            && ran.db.log == db.log + pending[..|ran.db.log| - |db.log|]
            && (ran.end.Finished? ==> ran.db.log == db.log + pending)
    decreases |files| - n
  {
    var pending := Pending(files, n, snapshot);
    if n < |files| {
      if files[n] in snapshot {
        RunCommitsAPrefix(db, files, n + 1, snapshot, sql, budget);
      } else if budget > 0 && Applied(db, files[n], sql).Some? {
        var next := Applied(db, files[n], sql).value;
        RunCommitsAPrefix(next, files, n + 1, snapshot, sql, budget - 1);
        var rest := Pending(files, n + 1, snapshot);
        var ran := RunFrom(db, files, n, snapshot, sql, budget);
        var k := |ran.db.log| - |next.log|;
        assert pending[..k + 1] == [files[n]] + rest[..k];
      }
    }
  }

  /** And it ends for a reason: it dies only with its commits used up and files still pending, it fails
      only on the next pending file, when that file's SQL fails on the schema reached, and otherwise it
      finishes. */
  lemma {:induction false} RunStopsOnlyFor<S>(db: Db<S>, files: seq<string>, n: nat, snapshot: set<string>, sql: Sql<S>, budget: nat)
    requires n <= |files|
    ensures var ran, pending := RunFrom(db, files, n, snapshot, sql, budget), Pending(files, n, snapshot);
            var k := |ran.db.log| - |db.log|;
            && 0 <= k <= |pending| && k <= budget
            && (ran.end == Died ==> k == budget < |pending|)
            && (ran.end.FileFailed? ==> k < |pending| && k < budget && ran.end.file == pending[k] && sql(ran.db.schema, pending[k]) == None)
            && (ran.end == Finished ==> k == |pending|)
    decreases |files| - n
  {
    var pending := Pending(files, n, snapshot);
    if n < |files| {
      if files[n] in snapshot {
        RunStopsOnlyFor(db, files, n + 1, snapshot, sql, budget);
        assert pending == Pending(files, n + 1, snapshot);
      } else if budget > 0 && Applied(db, files[n], sql).Some? {
        RunStopsOnlyFor(Applied(db, files[n], sql).value, files, n + 1, snapshot, sql, budget - 1);
        assert pending == [files[n]] + Pending(files, n + 1, snapshot);
      }
    }
  }

  /** Each commit runs the SQL of the next pending file and books it. */
  lemma {:induction false} RunReplays<S>(db: Db<S>, files: seq<string>, n: nat, snapshot: set<string>, sql: Sql<S>, budget: nat, done: seq<string>)
    requires n <= |files|
    requires var ran := RunFrom(db, files, n, snapshot, sql, budget); ran.db.log == db.log + done
    ensures var ran := RunFrom(db, files, n, snapshot, sql, budget);
            && Replayed(db.schema, done, sql) == Some(ran.db.schema)
            && (forall f :: f in ran.db.book <==> f in db.book || f in done)
    decreases |files| - n
  {
    var ran := RunFrom(db, files, n, snapshot, sql, budget);
    if n < |files| && files[n] in snapshot {
      RunReplays(db, files, n + 1, snapshot, sql, budget, done);
    } else if n < |files| && budget > 0 && Applied(db, files[n], sql).Some? {
      var next := Applied(db, files[n], sql).value;
      RunCommitsAPrefix(next, files, n + 1, snapshot, sql, budget - 1);
      assert ran.db.log[..|next.log|] == next.log;
      assert done != [] && done[0] == files[n] by {
        assert ran.db.log[|db.log|] == files[n];
      }
      assert ran.db.log == next.log + done[1..];
      RunReplays(next, files, n + 1, snapshot, sql, budget - 1, done[1..]);
      assert done == [files[n]] + done[1..];
      ReplayedBehind(db.schema, files[n], done[1..], sql);
    } else {
      assert done == [];
    }
  }

  lemma {:induction false} ReplayedBehind<S>(schema: S, file: string, rest: seq<string>, sql: Sql<S>)
    requires sql(schema, file).Some?
    ensures Replayed(schema, [file] + rest, sql) == Replayed(sql(schema, file).value, rest, sql)
  {
    var all := [file] + rest;
    if rest == [] {
      assert all[..0] == [] && Replayed(schema, [], sql) == Some(schema);
    } else {
      assert all[..|all| - 1] == [file] + rest[..|rest| - 1];
      ReplayedBehind(schema, file, rest[..|rest| - 1], sql);
    }
  }

  lemma {:induction false} RunKeeps<S>(db: Db<S>, files: seq<string>, n: nat, snapshot: set<string>, sql: Sql<S>, budget: nat, empty: S)
    requires n <= |files| && Distinct(files)
    requires Consistent(db) && Replays(db, empty, sql)
    requires forall i :: n <= i < |files| ==> (files[i] in snapshot <==> files[i] in db.book)
    ensures var ran := RunFrom(db, files, n, snapshot, sql, budget);
            Consistent(ran.db) && Replays(ran.db, empty, sql)
    decreases |files| - n
  {
    if n < |files| {
      if files[n] in snapshot {
        RunKeeps(db, files, n + 1, snapshot, sql, budget, empty);
      } else if budget > 0 && Applied(db, files[n], sql).Some? {
        var next := Applied(db, files[n], sql).value;
        assert next.log[..|next.log| - 1] == db.log;
        RunKeeps(next, files, n + 1, snapshot, sql, budget - 1, empty);
      }
    }
  }

  // ---------------------------------------------------------------- many runs

  /** One boot: the files its release ships, in name order, and how far it gets. */
  datatype Boot = Boot(files: seq<string>, budget: nat)

  function AfterBoots<S>(start: Db<S>, boots: seq<Boot>, sql: Sql<S>): Db<S> {
    if boots == [] then start
    else
      var db, b := AfterBoots(start, boots[..|boots| - 1], sql), boots[|boots| - 1];
      RunFrom(db, b.files, 0, db.book, sql, b.budget).db
  }

  predicate WellNamed(boots: seq<Boot>) {
    forall i :: 0 <= i < |boots| ==> Distinct(boots[i].files)
  }

  function Fresh<S>(empty: S): Db<S> {
    Db(empty, {}, [])
  }

  /** Across any number of runs, one at a time and interrupted anywhere: each file's SQL commits at most
      once, the bookkeeping table is exactly the set of committed files, and the schema is what they
      make of an empty one. */
  lemma {:induction false} EachFileCommitsOnce<S>(empty: S, boots: seq<Boot>, sql: Sql<S>)
    requires WellNamed(boots)
    ensures var db := AfterBoots(Fresh(empty), boots, sql); Consistent(db) && Replays(db, empty, sql)
  {
    if boots != [] {
      var front, b := boots[..|boots| - 1], boots[|boots| - 1];
      EachFileCommitsOnce(empty, front, sql);
      var db := AfterBoots(Fresh(empty), front, sql);
      RunKeeps(db, b.files, 0, db.book, sql, b.budget, empty);
    }
  }

  /** Each release ships what the one before it shipped, with new names only at the end. */
  predicate AppendOnly(boots: seq<Boot>) {
    forall i :: 0 <= i < |boots| - 1 ==> boots[i].files <= boots[i + 1].files
  }

  lemma InPrefixIff(files: seq<string>, k: nat, n: nat)
    requires k <= |files| && n < |files| && Distinct(files)
    ensures files[n] in files[..k] <==> n < k
  {
    if n < k {
      assert files[..k][n] == files[n];
    }
  }

  lemma {:induction false} PendingAfterPrefix(files: seq<string>, n: nat, k: nat, snapshot: set<string>)
    requires n <= |files| && k <= |files| && Distinct(files)
    requires forall f :: f in snapshot <==> f in files[..k]
    ensures Pending(files, n, snapshot) == files[if n < k then k else n..]
    decreases |files| - n
  {
    if n < |files| {
      PendingAfterPrefix(files, n + 1, k, snapshot);
      InPrefixIff(files, k, n);
      assert files[n..] == [files[n]] + files[n + 1..];
    }
  }

  lemma RunInOrder<S>(db: Db<S>, files: seq<string>, sql: Sql<S>, budget: nat)
    requires Distinct(files) && Consistent(db) && db.log <= files
    ensures var ran := RunFrom(db, files, 0, db.book, sql, budget);
            ran.db.log <= files && (ran.end.Finished? ==> ran.db.log == files)
  {
    var k := |db.log|;
    assert files[..k] == db.log;
    PendingAfterPrefix(files, 0, k, db.book);
    RunCommitsAPrefix(db, files, 0, db.book, sql, budget);
    assert files == files[..k] + files[k..];
  }

  /** When releases only append names, the committed files are at every moment the first ones in name
      order, and a run that finishes has committed all of them in that order. */
  lemma {:induction false} SchemaFollowsNameOrder<S>(empty: S, boots: seq<Boot>, sql: Sql<S>)
    requires WellNamed(boots) && AppendOnly(boots) && boots != []
    ensures AfterBoots(Fresh(empty), boots, sql).log <= boots[|boots| - 1].files
    ensures var front, last := boots[..|boots| - 1], boots[|boots| - 1];
            var db := AfterBoots(Fresh(empty), front, sql);
            RunFrom(db, last.files, 0, db.book, sql, last.budget).end.Finished?
            ==> AfterBoots(Fresh(empty), boots, sql).log == last.files
  {
    var n := |boots| - 1;
    var front, last := boots[..n], boots[n];
    var db := AfterBoots(Fresh(empty), front, sql);
    EachFileCommitsOnce(empty, front, sql);
    if n > 0 {
      SchemaFollowsNameOrder(empty, front, sql);
      assert boots[n - 1].files <= boots[n].files;
      PrefixOfPrefix(db.log, boots[n - 1].files, last.files);
    }
    RunInOrder(db, last.files, sql, last.budget);
  }

  lemma PrefixOfPrefix(a: seq<string>, b: seq<string>, c: seq<string>)
    requires a <= b && b <= c
    ensures a <= c
  {
  }

  /** Name order is kept only by appending: a run that finishes leaves the files committed in name
      order exactly when those committed before it were the first ones. */
  lemma InOrderIffAppended<S>(db: Db<S>, files: seq<string>, sql: Sql<S>, budget: nat)
    requires Distinct(files) && Consistent(db) && RunFrom(db, files, 0, db.book, sql, budget).end.Finished?
    ensures RunFrom(db, files, 0, db.book, sql, budget).db.log == files <==> db.log <= files
  {
    RunCommitsAPrefix(db, files, 0, db.book, sql, budget);
    if db.log <= files {
      RunInOrder(db, files, sql, budget);
    }
  }

  // ---------------------------------------------------------------- names sort at the end

  predicate Sorted(names: seq<string>, rank: string -> int) {
    forall i, j :: 0 <= i < j < |names| ==> rank(names[i]) < rank(names[j])
  }

  /** Sorted file lists grow at the end when every new name sorts after every old one. */
  lemma LaterNamesAppend(earlier: seq<string>, later: seq<string>, rank: string -> int)
    requires Sorted(earlier, rank) && Sorted(later, rank)
    requires forall f :: f in earlier ==> f in later
    requires forall f, g :: f in earlier && g in later && g !in earlier ==> rank(f) < rank(g)
    ensures earlier <= later
  {
    forall i | 0 <= i < |earlier|
      ensures i < |later| && later[i] == earlier[i]
    {
      SamePlace(earlier, later, rank, i);
    }
    if earlier != [] {
      SamePlace(earlier, later, rank, |earlier| - 1);
    }
  }

  lemma {:induction false} SamePlace(earlier: seq<string>, later: seq<string>, rank: string -> int, i: nat)
    requires Sorted(earlier, rank) && Sorted(later, rank) && i < |earlier|
    requires forall f :: f in earlier ==> f in later
    requires forall f, g :: f in earlier && g in later && g !in earlier ==> rank(f) < rank(g)
    ensures i < |later| && later[i] == earlier[i]
  {
    if i > 0 {
      SamePlace(earlier, later, rank, i - 1);
    }
    assert earlier[i] in later;
    var j :| 0 <= j < |later| && later[j] == earlier[i];
    assert j >= i;
    if j > i {
      var g := later[i];
      assert rank(g) < rank(earlier[i]);
      assert g in earlier;
      var k :| 0 <= k < |earlier| && earlier[k] == g;
      assert k < i;
      SamePlace(earlier, later, rank, k);
    }
  }

  // ---------------------------------------------------------------- a snapshot that is out of date

  lemma {:induction false} CommittedStays<S>(db: Db<S>, files: seq<string>, n: nat, snapshot: set<string>, sql: Sql<S>, budget: nat)
    requires n <= |files|
    requires !Distinct(db.log)
    ensures !Distinct(RunFrom(db, files, n, snapshot, sql, budget).db.log)
  {
    var ran := RunFrom(db, files, n, snapshot, sql, budget);
    RunCommitsAPrefix(db, files, n, snapshot, sql, budget);
    var i, j :| 0 <= i < j < |db.log| && db.log[i] == db.log[j];
    assert ran.db.log[i] == ran.db.log[j];
  }

  /** A run that finishes leaves each file committed once exactly when the bookkeeping it read lists
      every one of its files that is committed. */
  lemma {:induction false} FinishedRunRepeatsIff<S>(db: Db<S>, files: seq<string>, n: nat, snapshot: set<string>, sql: Sql<S>, budget: nat)
    requires n <= |files| && Distinct(files) && Consistent(db) && snapshot <= db.book
    requires RunFrom(db, files, n, snapshot, sql, budget).end.Finished?
    ensures Distinct(RunFrom(db, files, n, snapshot, sql, budget).db.log)
       <==> forall i :: n <= i < |files| && files[i] in db.book ==> files[i] in snapshot
    decreases |files| - n
  {
    if n < |files| {
      if files[n] in snapshot {
        FinishedRunRepeatsIff(db, files, n + 1, snapshot, sql, budget);
      } else {
        var next := Applied(db, files[n], sql).value;
        if files[n] in db.book {
          var k :| 0 <= k < |db.log| && db.log[k] == files[n];
          assert next.log[k] == next.log[|db.log|];
          CommittedStays(next, files, n + 1, snapshot, sql, budget - 1);
        } else {
          FinishedRunRepeatsIff(next, files, n + 1, snapshot, sql, budget - 1);
        }
      }
    }
  }

  // ---------------------------------------------------------------- two runners at once

  /** A runner that has not read the bookkeeping table yet, or one that has and is at file `n`. */
  datatype Runner = Waiting | Running(snapshot: set<string>, n: nat)

  /** Two processes that run the same release's files. */
  datatype Pair<S> = Pair(db: Db<S>, a: Runner, b: Runner)

  /** `first` says which of the two acts. Each of its transactions commits on its own. */
  datatype Act = Reads(first: bool) | Passes(first: bool) | Commits(first: bool)

  function Actor<S>(w: Pair<S>, first: bool): Runner {
    if first then w.a else w.b
  }

  function WithActor<S>(w: Pair<S>, first: bool, r: Runner): Pair<S> {
    if first then w.(a := r) else w.(b := r)
  }

  predicate Able<S>(w: Pair<S>, files: seq<string>, sql: Sql<S>, act: Act) {
    var r := Actor(w, act.first);
    match act
    case Reads(_) => r.Waiting?
    case Passes(_) => r.Running? && r.n < |files| && files[r.n] in r.snapshot
    case Commits(_) => r.Running? && r.n < |files| && files[r.n] !in r.snapshot && Applied(w.db, files[r.n], sql).Some?
  }

  function Then<S>(w: Pair<S>, files: seq<string>, sql: Sql<S>, act: Act): Pair<S>
    requires Able(w, files, sql, act)
  {
    var r := Actor(w, act.first);
    match act
    case Reads(_) => WithActor(w, act.first, Running(w.db.book, 0))
    case Passes(_) => WithActor(w, act.first, r.(n := r.n + 1))
    case Commits(_) => WithActor(w.(db := Applied(w.db, files[r.n], sql).value), act.first, r.(n := r.n + 1))
  }

  predicate Interleaved<S>(w: Pair<S>, files: seq<string>, sql: Sql<S>, acts: seq<Act>)
    decreases |acts|
  {
    acts == [] || (Able(w, files, sql, acts[0]) && Interleaved(Then(w, files, sql, acts[0]), files, sql, acts[1..]))
  }

  function AfterActs<S>(w: Pair<S>, files: seq<string>, sql: Sql<S>, acts: seq<Act>): Pair<S>
    requires Interleaved(w, files, sql, acts)
    decreases |acts|
  {
    if acts == [] then w else AfterActs(Then(w, files, sql, acts[0]), files, sql, acts[1..])
  }

  /** The file is one this runner has committed. */
  predicate Did(r: Runner, files: seq<string>, f: string) {
    r.Running? && r.n <= |files| && f in files[..r.n] && f !in r.snapshot
  }

  function Once(b: bool): nat {
    if b then 1 else 0
  }

  /** Every file is in the log as often as the table listed it at first and the runners committed it. */
  ghost predicate Counted<S>(w: Pair<S>, files: seq<string>, start: set<string>) {
    forall f :: multiset(w.db.log)[f] == Once(f in start) + Once(Did(w.a, files, f)) + Once(Did(w.b, files, f))
  }

  /** A runner's snapshot was the table at some time. */
  ghost predicate Read<S>(w: Pair<S>, files: seq<string>, start: set<string>, r: Runner) {
    r.Running? ==> r.n <= |files| && start <= r.snapshot <= w.db.book
  }

  ghost predicate PairSound<S>(w: Pair<S>, files: seq<string>, start: set<string>) {
    && Counted(w, files, start) && Read(w, files, start, w.a) && Read(w, files, start, w.b)
    && (forall f :: f in w.db.book <==> f in w.db.log)
    && (w.a.Running? && w.b.Running? ==> w.a.snapshot <= w.b.snapshot || w.b.snapshot <= w.a.snapshot)
  }

  lemma DidOneMore(r: Runner, files: seq<string>, f: string)
    requires Distinct(files) && r.Running? && r.n < |files|
    ensures Did(r.(n := r.n + 1), files, f) <==> Did(r, files, f) || (f == files[r.n] && f !in r.snapshot)
    ensures f == files[r.n] ==> !Did(r, files, f)
  {
    assert files[..r.n + 1] == files[..r.n] + [files[r.n]];
  }

  lemma ActKeepsCounts<S>(w: Pair<S>, files: seq<string>, sql: Sql<S>, start: set<string>, act: Act, f: string)
    requires Distinct(files) && PairSound(w, files, start) && Able(w, files, sql, act)
    ensures var v := Then(w, files, sql, act);
            multiset(v.db.log)[f] == Once(f in start) + Once(Did(v.a, files, f)) + Once(Did(v.b, files, f))
  {
    var r := Actor(w, act.first);
    if !act.Reads? {
      DidOneMore(r, files, f);
    }
    if act.Commits? {
      assert multiset(w.db.log + [files[r.n]]) == multiset(w.db.log) + multiset{files[r.n]};
    }
  }

  lemma ActKeepsPair<S>(w: Pair<S>, files: seq<string>, sql: Sql<S>, start: set<string>, act: Act)
    requires Distinct(files) && PairSound(w, files, start) && Able(w, files, sql, act)
    ensures PairSound(Then(w, files, sql, act), files, start)
  {
    forall f
      ensures var v := Then(w, files, sql, act);
              multiset(v.db.log)[f] == Once(f in start) + Once(Did(v.a, files, f)) + Once(Did(v.b, files, f))
    {
      ActKeepsCounts(w, files, sql, start, act, f);
    }
  }

  lemma {:induction false} ActsKeepPair<S>(w: Pair<S>, files: seq<string>, sql: Sql<S>, start: set<string>, acts: seq<Act>)
    requires Distinct(files) && PairSound(w, files, start) && Interleaved(w, files, sql, acts)
    ensures PairSound(AfterActs(w, files, sql, acts), files, start)
    decreases |acts|
  {
    if acts != [] {
      ActKeepsPair(w, files, sql, start, acts[0]);
      ActsKeepPair(Then(w, files, sql, acts[0]), files, sql, start, acts[1..]);
    }
  }

  lemma {:induction false} DistinctIffCounts(log: seq<string>)
    ensures Distinct(log) <==> forall f :: multiset(log)[f] <= 1
  {
    if log != [] {
      var front, last := log[..|log| - 1], log[|log| - 1];
      DistinctIffCounts(front);
      assert log == front + [last];
      assert forall f :: multiset(log)[f] == multiset(front)[f] + (if f == last then 1 else 0);
      if last in front {
        var i :| 0 <= i < |front| && front[i] == last;
        assert log[i] == log[|log| - 1];
        assert multiset(front)[last] >= 1;
      }
    }
  }

  /** At every moment of every interleaving of two runners, no file is in the log twice exactly when
      there is none that both have committed. */
  lemma RepeatsIffBothCommit<S>(db: Db<S>, files: seq<string>, sql: Sql<S>, acts: seq<Act>)
    requires Distinct(files) && Consistent(db) && Interleaved(Pair(db, Waiting, Waiting), files, sql, acts)
    ensures var w := AfterActs(Pair(db, Waiting, Waiting), files, sql, acts);
            Consistent(w.db) <==> forall f :: !(Did(w.a, files, f) && Did(w.b, files, f))
  {
    var start := Pair(db, Waiting, Waiting);
    DistinctIffCounts(db.log);
    assert forall f :: multiset(db.log)[f] == Once(f in db.book);
    assert Counted(start, files, db.book);
    ActsKeepPair(start, files, sql, db.book, acts);
    var w := AfterActs(start, files, sql, acts);
    DistinctIffCounts(w.db.log);
    forall f
      ensures multiset(w.db.log)[f] <= 1 <==> !(Did(w.a, files, f) && Did(w.b, files, f))
    {
    }
  }

  predicate NothingToApply(r: Runner, files: seq<string>) {
    r.Running? && forall f :: f in files ==> f in r.snapshot
  }

  /** When both have finished, each file has committed once exactly when one of them found nothing to
      apply when it read the table: that is, when it read after the other's last commit, or there was
      nothing to apply in the first place. */
  lemma TwoRunnersCommitOnceIff<S>(db: Db<S>, files: seq<string>, sql: Sql<S>, acts: seq<Act>)
    requires Distinct(files) && Consistent(db) && Interleaved(Pair(db, Waiting, Waiting), files, sql, acts)
    requires var w := AfterActs(Pair(db, Waiting, Waiting), files, sql, acts);
             w.a.Running? && w.a.n == |files| && w.b.Running? && w.b.n == |files|
    ensures var w := AfterActs(Pair(db, Waiting, Waiting), files, sql, acts);
            Consistent(w.db) <==> NothingToApply(w.a, files) || NothingToApply(w.b, files)
  {
    var start := Pair(db, Waiting, Waiting);
    var w := AfterActs(start, files, sql, acts);
    DistinctIffCounts(db.log);
    assert Counted(start, files, db.book);
    ActsKeepPair(start, files, sql, db.book, acts);
    RepeatsIffBothCommit(db, files, sql, acts);
    assert files[..|files|] == files;
    if !NothingToApply(w.a, files) && !NothingToApply(w.b, files) {
      var f :| f in files && f !in w.a.snapshot;
      var g :| g in files && g !in w.b.snapshot;
      assert (Did(w.a, files, f) && Did(w.b, files, f)) || (Did(w.a, files, g) && Did(w.b, files, g));
    }
  }

  /** Nothing stops the second commit but the SQL itself: two runners that read the bookkeeping table
      before either commits both run a pending file's SQL, when it can run twice. The second
      bookkeeping row gives way without an error. */
  lemma ConcurrentRunnersApplyTwice<S>(db: Db<S>, file: string, sql: Sql<S>)
    requires Consistent(db) && file !in db.book
    requires Applied(db, file, sql).Some? && Applied(Applied(db, file, sql).value, file, sql).Some?
    ensures var first := RunFrom(db, [file], 0, db.book, sql, 1);
            var second := RunFrom(first.db, [file], 0, db.book, sql, 1);
            && second.end.Finished? && second.db.log == db.log + [file, file] && !Consistent(second.db)
  {
    var first := RunFrom(db, [file], 0, db.book, sql, 1);
    var one := Applied(db, file, sql).value;
    assert first == RunFrom(one, [file], 1, db.book, sql, 0) == Ran(one, Finished);
    var two := Applied(one, file, sql).value;
    var second := RunFrom(one, [file], 0, db.book, sql, 1);
    assert second == RunFrom(two, [file], 1, db.book, sql, 0) == Ran(two, Finished);
    assert two.log == db.log + [file, file];
    assert two.log[|db.log|] == two.log[|db.log| + 1];
  }
}
