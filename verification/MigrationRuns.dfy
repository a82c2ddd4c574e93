/**
 Running migrations against a database, over any number of runs that may fail anywhere.

 Each migration is one transaction: its SQL and its row in the migration table commit together
 or not at all, though the answer to a commit may be lost. Adopting an older database's
 history is not one transaction: every row it inserts commits by itself.
 */
module MigrationRuns {
  import opened Options
  import opened Migrations
  import Sequences

  const FLYWAY_TABLE: string := "flyway_schema_history"
  const USERS_TABLE: string := "users"

  /** A loaded migration, and which tables its SQL adds and takes away. */
  datatype Migration = Migration(file: MigrationFile, sql: string, checksum: string,
                                 creates: set<string>, drops: set<string>)

  datatype Row = Row(name: string, checksum: string)

  /** `executed` is the SQL committed so far, in order; `flyway` the successful versions of the old history. */
  datatype Database = Database(hasTable: bool, rows: map<string, Row>, tables: set<string>, flyway: seq<string>,
                               executed: seq<Migration>)

  const EMPTY_DATABASE: Database := Database(false, map[], {}, [], [])

  datatype Outcome = Commits | RollsBack | CommitsUnseen

  /** How far a run gets before anything is applied. */
  datatype Setup = Ready | NoTable | BaselineCut(inserted: nat) | NoRead

  /** What befalls one run; a migration without an outcome of its own commits. */
  datatype Attempt = Attempt(setup: Setup, outcomes: seq<Outcome>)

  function OutcomeAt(a: Attempt, i: nat): Outcome { if i < |a.outcomes| then a.outcomes[i] else Commits }

  // ---------- adopting an older database ----------

  function Versions(ms: seq<Migration>): (vs: seq<string>)
    ensures |vs| == |ms|
  {
    if ms == [] then [] else Versions(ms[..|ms| - 1]) + [ms[|ms| - 1].file.version]
  }

  function Find(ms: seq<Migration>, version: string): Option<Migration>
  {
    if ms == [] then None
    else if ms[0].file.version == version then Some(ms[0])
    else Find(ms[1..], version)
  }

  function BaselineRow(ms: seq<Migration>, version: string): Row
  {
    match Find(ms, version)
    case None => Row("baselined", "baselined")
    case Some(m) => Row(m.file.name, m.checksum)
  }

  function BaselineVersions(db: Database, ms: seq<Migration>): seq<string>
  {
    if db.rows != map[] then []
    else if FLYWAY_TABLE in db.tables then db.flyway
    else if USERS_TABLE in db.tables then Versions(ms)
    else []
  }

  /** A row already present is left as it is. */
  function Inserted(rows: map<string, Row>, versions: seq<string>, ms: seq<Migration>): map<string, Row>
  {
    if versions == [] then rows else
    var before, v := Inserted(rows, versions[..|versions| - 1], ms), versions[|versions| - 1];
    if v in before then before else before[v := BaselineRow(ms, v)]
  }

  function Baselined(db: Database, ms: seq<Migration>, inserted: nat): Database
  {
    var versions := BaselineVersions(db, ms);
    db.(rows := Inserted(db.rows, if inserted < |versions| then versions[..inserted] else versions, ms))
  }

  // ---------- applying ----------

  function Committed(db: Database, m: Migration): Database
  {
    db.(rows := db.rows[m.file.version := Row(m.file.name, m.checksum)],
        tables := db.tables - m.drops + m.creates,
        executed := db.executed + [m])
  }

  /** Migrations from the `i`th on, against the versions recorded when the run began. */
  function Apply(db: Database, ms: seq<Migration>, i: nat, applied: map<string, Row>, a: Attempt): (Database, bool)
    requires i <= |ms|
    decreases |ms| - i
  {
    if i == |ms| then (db, true)
    else if ms[i].file.version in applied then Apply(db, ms, i + 1, applied, a)
    else if ms[i].file.version in db.rows then (db, false)
    else match OutcomeAt(a, i)
         case RollsBack => (db, false)
         case CommitsUnseen => (Committed(db, ms[i]), false)
         case Commits => Apply(Committed(db, ms[i]), ms, i + 1, applied, a)
  }

  function RunOnce(db: Database, ms: seq<Migration>, a: Attempt): (Database, bool)
  {
    match a.setup
    case NoTable => (db, false)
    case BaselineCut(n) => (Baselined(db.(hasTable := true), ms, n), false)
    case NoRead => (Baselined(db.(hasTable := true), ms, |BaselineVersions(db, ms)|), false)
    case Ready =>
      var ready := Baselined(db.(hasTable := true), ms, |BaselineVersions(db, ms)|);
      Apply(ready, ms, 0, ready.rows, a)
  }

  function RunAll(db: Database, ms: seq<Migration>, runs: seq<Attempt>): Database
  {
    if runs == [] then db else RunOnce(RunAll(db, ms, runs[..|runs| - 1]), ms, runs[|runs| - 1]).0
  }

  /** The database as the runner changes it, one statement at a time. */
  class Connection {
    var db: Database

    constructor (db: Database)
      ensures this.db == db
    {
      this.db := db;
    }

    method EnsureMigrationTable()
      modifies this
      ensures db == old(db).(hasTable := true)
    {
      db := db.(hasTable := true);
    }

    method BaselineFromExistingDatabase(ms: seq<Migration>, stopAfter: nat)
      modifies this
      ensures db == Baselined(old(db), ms, stopAfter)
    {
      var versions := BaselineVersions(db, ms);
      var n := if stopAfter < |versions| then stopAfter else |versions|;
      assert versions[..|versions|] == versions;
      for i := 0 to n
        invariant db == old(db).(rows := Inserted(old(db).rows, versions[..i], ms))
      {
        assert versions[..i + 1][..i] == versions[..i];
        if versions[i] !in db.rows {
          db := db.(rows := db.rows[versions[i] := BaselineRow(ms, versions[i])]);
        }
      }
    }

    method Commit(m: Migration)
      modifies this
      ensures db == Committed(old(db), m)
    {
      db := Committed(db, m);
    }

    method RunMigrations(ms: seq<Migration>, a: Attempt) returns (ok: bool)
      modifies this
      ensures (db, ok) == RunOnce(old(db), ms, a)
    {
      if a.setup.NoTable? { return false; }
      EnsureMigrationTable();
      var before := BaselineVersions(db, ms);
      BaselineFromExistingDatabase(ms, if a.setup.BaselineCut? then a.setup.inserted else |before|);
      if !a.setup.Ready? { return false; }
      ok := ApplyPending(ms, db.rows, a);
    }

    method ApplyPending(ms: seq<Migration>, applied: map<string, Row>, a: Attempt) returns (ok: bool)
      modifies this
      ensures (db, ok) == Apply(old(db), ms, 0, applied, a)
    {
      var i := 0;
      while i < |ms|
        invariant 0 <= i <= |ms|
        invariant Apply(old(db), ms, 0, applied, a) == Apply(db, ms, i, applied, a)
      {
        if ms[i].file.version !in applied {
          if ms[i].file.version in db.rows { return false; }
          match OutcomeAt(a, i) {
            case RollsBack => return false;
            case CommitsUnseen =>
              Commit(ms[i]);
              return false;
            case Commits => Commit(ms[i]);
          }
        }
        i := i + 1;
      }
      return true;
    }
  }

  // ---------- the rows of a prefix ----------

  function RowsOf(ms: seq<Migration>): map<string, Row>
  {
    if ms == [] then map[] else
    var last := ms[|ms| - 1];
    RowsOf(ms[..|ms| - 1])[last.file.version := Row(last.file.name, last.checksum)]
  }

  ghost predicate Distinct(ms: seq<Migration>)
  {
    forall i, j :: 0 <= i < j < |ms| ==> ms[i].file.version != ms[j].file.version
  }

  lemma {:induction false} RowsOfMember(ms: seq<Migration>, v: string)
    ensures v in RowsOf(ms) <==> exists i :: 0 <= i < |ms| && ms[i].file.version == v
  {
    if ms != [] {
      var init := ms[..|ms| - 1];
      RowsOfMember(init, v);
      assert forall i :: 0 <= i < |init| ==> init[i] == ms[i];
    }
  }

  lemma PrefixMember(ms: seq<Migration>, k: nat, i: nat)
    requires Distinct(ms) && k <= |ms| && i < |ms|
    ensures ms[i].file.version in RowsOf(ms[..k]) <==> i < k
  {
    RowsOfMember(ms[..k], ms[i].file.version);
    if i < k { assert ms[..k][i] == ms[i]; }
  }

  lemma CommitExtends(db: Database, ms: seq<Migration>, from: nat, i: nat)
    requires from <= i < |ms| && db.rows == RowsOf(ms[..i])
    ensures Committed(db, ms[i]).rows == RowsOf(ms[..i + 1])
    ensures db.executed + [ms[i]] + ms[i + 1..] == db.executed + ms[i..]
  {
    assert ms[..i + 1][..i] == ms[..i];
    assert ms[i..] == [ms[i]] + ms[i + 1..];
  }

  // ---------- applying from a prefix ----------

  /** The database holds the rows of the first `k` migrations. */
  predicate AtPrefix(db: Database, ms: seq<Migration>, k: nat)
  {
    k <= |ms| && db.rows == RowsOf(ms[..k])
  }

  /** What a stretch of applying did: migrations `from` to `to` committed, in order, each once. */
  predicate Advanced(before: Database, after: Database, ms: seq<Migration>, from: nat, to: nat)
  {
    from <= to <= |ms| && after.rows == RowsOf(ms[..to]) && after.executed == before.executed + ms[from..to] &&
    (from == to ==> after == before) && after.hasTable == before.hasTable && after.flyway == before.flyway
  }

  lemma AdvanceOne(db: Database, after: Database, ms: seq<Migration>, i: nat, to: nat)
    requires i < |ms| && AtPrefix(db, ms, i) && Advanced(Committed(db, ms[i]), after, ms, i + 1, to)
    ensures Advanced(db, after, ms, i, to)
  {
    assert ms[i..to] == [ms[i]] + ms[i + 1..to];
    assert db.executed + [ms[i]] + ms[i + 1..to] == db.executed + ms[i..to];
  }

  /** Past the recorded prefix, applying commits a further stretch and stops where a step fails. */
  lemma {:induction false} ApplyAdvances(db: Database, ms: seq<Migration>, i: nat, k: nat, a: Attempt) returns (to: nat)
    requires Distinct(ms) && k <= i <= |ms| && AtPrefix(db, ms, i)
    ensures var (after, ok) := Apply(db, ms, i, RowsOf(ms[..k]), a);
            Advanced(db, after, ms, i, to) && (ok ==> to == |ms|)
    ensures a.outcomes == [] ==> Apply(db, ms, i, RowsOf(ms[..k]), a).1
    decreases |ms| - i
  {
    to := i;
    if i < |ms| {
      PrefixMember(ms, k, i);
      PrefixMember(ms, i, i);
      CommitExtends(db, ms, i, i);
      if OutcomeAt(a, i) == Commits {
        to := ApplyAdvances(Committed(db, ms[i]), ms, i + 1, k, a);
        AdvanceOne(db, Apply(db, ms, i, RowsOf(ms[..k]), a).0, ms, i, to);
      } else if OutcomeAt(a, i) == CommitsUnseen {
        to := i + 1;
        assert ms[i + 1..i + 1] == [];
        AdvanceOne(db, Committed(db, ms[i]), ms, i, i + 1);
      }
    }
  }

  /** Recorded migrations are passed over. */
  lemma {:induction false} ApplySkips(db: Database, ms: seq<Migration>, i: nat, k: nat, a: Attempt)
    requires Distinct(ms) && i <= k <= |ms|
    ensures Apply(db, ms, i, RowsOf(ms[..k]), a) == Apply(db, ms, k, RowsOf(ms[..k]), a)
    decreases k - i
  {
    if i < k {
      PrefixMember(ms, k, i);
      ApplySkips(db, ms, i + 1, k, a);
    }
  }

  // ---------- from an empty database ----------

  /** The recorded versions are a prefix of the list, and exactly that prefix has been executed;
      before anything is recorded there are no tables for a baseline to find. */
  ghost predicate Resumable(db: Database, ms: seq<Migration>, k: nat)
  {
    AtPrefix(db, ms, k) && db.executed == ms[..k] && (k == 0 ==> db.tables == {})
  }

  lemma {:induction false} PrefixRowsEmpty(ms: seq<Migration>, k: nat)
    requires k <= |ms|
    ensures RowsOf(ms[..k]) == map[] <==> k == 0
  {
    if k > 0 {
      assert ms[..k][k - 1].file.version in RowsOf(ms[..k]);
    }
  }

  /** So a baseline never fires on the way. */
  lemma NeverBaselined(db: Database, ms: seq<Migration>, k: nat)
    requires Resumable(db, ms, k)
    ensures BaselineVersions(db, ms) == []
    ensures forall n :: Baselined(db.(hasTable := true), ms, n) == db.(hasTable := true)
  {
    PrefixRowsEmpty(ms, k);
    var ready := db.(hasTable := true);
    forall n: nat ensures Baselined(ready, ms, n) == ready {
      assert BaselineVersions(ready, ms) == [];
    }
  }

  lemma RunResumes(db: Database, ms: seq<Migration>, k: nat, a: Attempt) returns (to: nat)
    requires Distinct(ms) && Resumable(db, ms, k)
    ensures k <= to && Resumable(RunOnce(db, ms, a).0, ms, to)
    ensures RunOnce(db, ms, a).1 ==> to == |ms| && RunOnce(db, ms, a).0.hasTable
    ensures k == |ms| && db.hasTable ==> RunOnce(db, ms, a).0 == db
    ensures a.setup.Ready? && a.outcomes == [] ==> RunOnce(db, ms, a).1
  {
    NeverBaselined(db, ms, k);
    to := k;
    if a.setup.Ready? {
      var ready := db.(hasTable := true);
      ApplySkips(ready, ms, 0, k, a);
      to := ApplyAdvances(ready, ms, k, k, a);
      assert ms[..k] + ms[k..to] == ms[..to];
    }
  }

  lemma {:induction false} RunsResume(ms: seq<Migration>, runs: seq<Attempt>) returns (k: nat)
    requires Distinct(ms)
    ensures Resumable(RunAll(EMPTY_DATABASE, ms, runs), ms, k)
  {
    if runs == [] {
      k := 0;
    } else {
      k := RunsResume(ms, runs[..|runs| - 1]);
      k := RunResumes(RunAll(EMPTY_DATABASE, ms, runs[..|runs| - 1]), ms, k, runs[|runs| - 1]);
    }
  }

  /** Resumable runs: from an empty database, after any runs failing anywhere, the recorded
      versions are a prefix of the ordered list, and each recorded file's SQL has committed exactly
      once, in order. A baseline would still adopt nothing, and one undisturbed run would finish. */
  lemma RunsAreResumable(ms: seq<Migration>, runs: seq<Attempt>) returns (k: nat)
    requires Distinct(ms)
    ensures var db := RunAll(EMPTY_DATABASE, ms, runs);
            k <= |ms| && db.rows == RowsOf(ms[..k]) && db.executed == ms[..k] &&
            BaselineVersions(db, ms) == [] && RunOnce(db, ms, Attempt(Ready, [])).1
  {
    k := RunsResume(ms, runs);
    var db := RunAll(EMPTY_DATABASE, ms, runs);
    NeverBaselined(db, ms, k);
    var to := RunResumes(db, ms, k, Attempt(Ready, []));
  }

  /** A run that succeeds leaves everything applied, and no later run changes anything. */
  lemma SuccessIsFinal(ms: seq<Migration>, runs: seq<Attempt>, a: Attempt, later: Attempt)
    requires Distinct(ms) && RunOnce(RunAll(EMPTY_DATABASE, ms, runs), ms, a).1
    ensures var db := RunAll(EMPTY_DATABASE, ms, runs + [a]);
            db.executed == ms && RunOnce(db, ms, later).0 == db
  {
    assert (runs + [a])[..|runs|] == runs;
    var k := RunsResume(ms, runs);
    var to := RunResumes(RunAll(EMPTY_DATABASE, ms, runs), ms, k, a);
    assert ms[..|ms|] == ms;
    to := RunResumes(RunAll(EMPTY_DATABASE, ms, runs + [a]), ms, to, later);
  }

  /** Loaded migrations, one per ordered file. */
  ghost predicate Loads(ms: seq<Migration>, files: seq<MigrationFile>)
  {
    |ms| == |files| && forall i :: 0 <= i < |ms| ==> ms[i].file == files[i]
  }

  /** What the ordering promises is what the runner needs: no version twice. */
  lemma OrderedAreDistinct(listing: seq<string>, ms: seq<Migration>)
    requires OrderFiles(listing).Ordered? && Loads(ms, OrderFiles(listing).files)
    ensures Distinct(ms)
  {
    OrderedIsIncreasing(listing);
    var files := OrderFiles(listing).files;
    forall i, j | 0 <= i < j < |ms| ensures ms[i].file.version != ms[j].file.version {
      assert Compare(files[i].version, files[j].version) < 0;
      CompareZero(files[i].version, files[i].version);
    }
  }

  // ---------- adopting an older database ----------

  /** A database this program has not touched: nothing recorded, nothing executed. */
  predicate Untouched(db: Database) { db.rows == map[] && db.executed == [] }

  /** The migrations whose version is not listed, in order. */
  function Unlisted(ms: seq<Migration>, listed: seq<string>): seq<Migration>
  {
    if ms == [] then []
    else if ms[0].file.version in listed then Unlisted(ms[1..], listed)
    else [ms[0]] + Unlisted(ms[1..], listed)
  }

  lemma {:induction false} UnlistedMembers(ms: seq<Migration>, listed: seq<string>)
    ensures forall m :: m in Unlisted(ms, listed) <==> m in ms && m.file.version !in listed
  {
    if ms != [] {
      UnlistedMembers(ms[1..], listed);
      assert ms == [ms[0]] + ms[1..];
    }
  }

  lemma UnlistedFrom(ms: seq<Migration>, i: nat, listed: seq<string>)
    requires i < |ms|
    ensures Unlisted(ms[i..], listed) ==
            if ms[i].file.version in listed then Unlisted(ms[i + 1..], listed)
            else [ms[i]] + Unlisted(ms[i + 1..], listed)
  {
    assert ms[i..][1..] == ms[i + 1..];
  }

  lemma {:induction false} InsertedKeys(rows: map<string, Row>, versions: seq<string>, ms: seq<Migration>, v: string)
    ensures v in Inserted(rows, versions, ms) <==> v in rows || v in versions
  {
    if versions != [] {
      var init, last := versions[..|versions| - 1], versions[|versions| - 1];
      assert versions == init + [last];
      InsertedKeys(rows, init, ms, v);
    }
  }

  /** Exactly the listed versions are recorded. */
  ghost predicate Records(rows: map<string, Row>, listed: seq<string>)
  {
    forall v :: v in rows <==> v in listed
  }

  lemma BaselineRecords(db: Database, ms: seq<Migration>, n: nat)
    requires Untouched(db)
    ensures var vs := BaselineVersions(db, ms);
            Records(Baselined(db, ms, n).rows, if n < |vs| then vs[..n] else vs)
  {
    var vs := BaselineVersions(db, ms);
    var listed := if n < |vs| then vs[..n] else vs;
    forall v ensures v in Inserted(db.rows, listed, ms) <==> v in listed {
      InsertedKeys(db.rows, listed, ms, v);
    }
  }

  /** With nothing going wrong, applying commits every migration from the `i`th on that was not
      recorded when the run began. */
  lemma {:induction false} ApplyCompletes(db: Database, ms: seq<Migration>, i: nat, applied: map<string, Row>,
                                          listed: seq<string>)
    requires Distinct(ms) && i <= |ms| && Records(applied, listed)
    requires forall j :: i <= j < |ms| && ms[j].file.version in db.rows ==> ms[j].file.version in applied
    ensures Apply(db, ms, i, applied, Attempt(Ready, [])).0.executed == db.executed + Unlisted(ms[i..], listed)
    ensures Apply(db, ms, i, applied, Attempt(Ready, [])).1
    decreases |ms| - i
  {
    if i < |ms| {
      var m := ms[i];
      UnlistedFrom(ms, i, listed);
      if m.file.version in applied {
        ApplyCompletes(db, ms, i + 1, applied, listed);
      } else {
        ApplyCompletes(Committed(db, m), ms, i + 1, applied, listed);
        Sequences.Regroup(db.executed, [m], Unlisted(ms[i + 1..], listed));
      }
    }
  }

  /** An undisturbed run adopts what the old database records and executes the rest. */
  lemma FirstRunAdopts(db: Database, ms: seq<Migration>)
    requires Distinct(ms) && Untouched(db)
    ensures RunOnce(db, ms, Attempt(Ready, [])).0.executed == Unlisted(ms, BaselineVersions(db, ms))
  {
    var vs, prepared := BaselineVersions(db, ms), db.(hasTable := true);
    var ready := Baselined(prepared, ms, |vs|);
    BaselineRecords(prepared, ms, |vs|);
    ApplyCompletes(ready, ms, 0, ready.rows, vs);
    assert ms[0..] == ms;
  }

  /** A run on a database that records something adopts nothing more. */
  lemma LaterRunCompletes(db: Database, ms: seq<Migration>, listed: seq<string>)
    requires Distinct(ms) && db.executed == [] && Records(db.rows, listed) && listed != []
    ensures RunOnce(db, ms, Attempt(Ready, [])).0.executed == Unlisted(ms, listed)
  {
    assert listed[0] in db.rows;
    var ready := db.(hasTable := true);
    assert Baselined(ready, ms, 0) == ready;
    ApplyCompletes(ready, ms, 0, ready.rows, listed);
    assert ms[0..] == ms;
  }

  /** What is taken for adopted after a first run whose baseline stopped after `n` rows. */
  function TakenForAdopted(vs: seq<string>, n: nat): seq<string>
    requires n <= |vs|
  {
    if n == 0 then vs else vs[..n]
  }

  lemma CutThenRun(db: Database, ms: seq<Migration>, n: nat)
    requires Distinct(ms) && Untouched(db) && n <= |BaselineVersions(db, ms)|
    ensures var cut := RunOnce(db, ms, Attempt(BaselineCut(n), [])).0;
            RunOnce(cut, ms, Attempt(Ready, [])).0.executed ==
            Unlisted(ms, TakenForAdopted(BaselineVersions(db, ms), n))
  {
    if n == 0 { CutAtOnce(db, ms); } else { CutLater(db, ms, n); }
  }

  lemma CutAtOnce(db: Database, ms: seq<Migration>)
    requires Distinct(ms) && Untouched(db)
    ensures var cut := RunOnce(db, ms, Attempt(BaselineCut(0), [])).0;
            RunOnce(cut, ms, Attempt(Ready, [])).0.executed == Unlisted(ms, BaselineVersions(db, ms))
  {
    var prepared := db.(hasTable := true);
    assert Inserted(map[], [], ms) == map[];
    assert RunOnce(db, ms, Attempt(BaselineCut(0), [])).0 == prepared;
    FirstRunAdopts(prepared, ms);
  }

  lemma CutLater(db: Database, ms: seq<Migration>, n: nat)
    requires Distinct(ms) && Untouched(db) && 0 < n <= |BaselineVersions(db, ms)|
    ensures var cut := RunOnce(db, ms, Attempt(BaselineCut(n), [])).0;
            RunOnce(cut, ms, Attempt(Ready, [])).0.executed == Unlisted(ms, BaselineVersions(db, ms)[..n])
  {
    var vs := BaselineVersions(db, ms);
    BaselineRecords(db.(hasTable := true), ms, n);
    assert vs[..|vs|] == vs;
    LaterRunCompletes(RunOnce(db, ms, Attempt(BaselineCut(n), [])).0, ms, vs[..n]);
  }

  /** A version the old database records that this program brings as a migration, cut off. */
  ghost predicate CutOff(ms: seq<Migration>, vs: seq<string>, n: nat, m: Migration)
    requires n <= |vs|
  {
    m in ms && m.file.version in vs[n..] && m.file.version !in vs[..n]
  }

  lemma SplitAt(vs: seq<string>, n: nat, v: string)
    requires n <= |vs|
    ensures v in vs <==> v in vs[..n] || v in vs[n..]
  {
    assert vs == vs[..n] + vs[n..];
  }

  lemma RunAllOne(db: Database, ms: seq<Migration>, a: Attempt)
    ensures RunAll(db, ms, [a]) == RunOnce(db, ms, a).0
  {
    assert [a][..0] == [];
  }

  lemma RunAllTwo(db: Database, ms: seq<Migration>, a: Attempt, b: Attempt)
    ensures RunAll(db, ms, [a, b]) == RunOnce(RunOnce(db, ms, a).0, ms, b).0
  {
    assert [a, b][..1] == [a];
    RunAllOne(db, ms, a);
  }

  /** An adoption that is cut short is not resumed. Whatever the old database records (a Flyway
      history of any extent, or a bare schema), and wherever the first run's baseline stops: the next
      run takes the rows inserted so far for the whole history, and executes every migration whose
      version is not among them. An adopted migration is executed again if and only if at least one
      row went in and some migration's version had yet to; otherwise the two runs execute just what
      an undisturbed one would. */
  lemma InterruptedAdoption(db: Database, ms: seq<Migration>, n: nat)
    requires Distinct(ms) && Untouched(db) && n <= |BaselineVersions(db, ms)|
    ensures var vs := BaselineVersions(db, ms);
            var after := RunAll(db, ms, [Attempt(BaselineCut(n), []), Attempt(Ready, [])]);
            after.executed == Unlisted(ms, if n == 0 then vs else vs[..n]) &&
            ((exists m :: m in after.executed && m.file.version in vs) <==>
             n > 0 && exists m :: CutOff(ms, vs, n, m)) &&
            (after.executed == RunAll(db, ms, [Attempt(Ready, [])]).executed <==>
             n == 0 || forall m :: !CutOff(ms, vs, n, m))
  {
    var vs := BaselineVersions(db, ms);
    RunAllOne(db, ms, Attempt(Ready, []));
    RunAllTwo(db, ms, Attempt(BaselineCut(n), []), Attempt(Ready, []));
    CutThenRun(db, ms, n);
    FirstRunAdopts(db, ms);
    CutOffIsExecuted(ms, vs, n);
  }

  lemma CutOffIsExecuted(ms: seq<Migration>, vs: seq<string>, n: nat)
    requires n <= |vs|
    ensures var executed := Unlisted(ms, if n == 0 then vs else vs[..n]);
            ((exists m :: m in executed && m.file.version in vs) <==> n > 0 && exists m :: CutOff(ms, vs, n, m)) &&
            (executed == Unlisted(ms, vs) <==> n == 0 || forall m :: !CutOff(ms, vs, n, m))
  {
    var executed := Unlisted(ms, if n == 0 then vs else vs[..n]);
    UnlistedMembers(ms, if n == 0 then vs else vs[..n]);
    UnlistedMembers(ms, vs);
    forall m: Migration ensures m in executed && m.file.version in vs <==> n > 0 && CutOff(ms, vs, n, m) {
      SplitAt(vs, n, m.file.version);
    }
    if n > 0 && (forall m :: !CutOff(ms, vs, n, m)) {
      forall m | m in ms ensures m.file.version in vs[..n] <==> m.file.version in vs {
        SplitAt(vs, n, m.file.version);
        assert !CutOff(ms, vs, n, m);
      }
      SameUnlisted(ms, vs[..n], vs);
    }
    if m :| n > 0 && CutOff(ms, vs, n, m) {
      SplitAt(vs, n, m.file.version);
      assert m in executed && m !in Unlisted(ms, vs);
    }
  }

  lemma {:induction false} SameUnlisted(ms: seq<Migration>, xs: seq<string>, ys: seq<string>)
    requires forall m :: m in ms ==> (m.file.version in xs <==> m.file.version in ys)
    ensures Unlisted(ms, xs) == Unlisted(ms, ys)
  {
    if ms != [] { SameUnlisted(ms[1..], xs, ys); }
  }
}
