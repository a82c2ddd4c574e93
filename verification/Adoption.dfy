/** What one undisturbed run of the migrations executes and records, from the tables it finds. */
module Adoption {
  import opened Options
  import opened Migrations
  import opened MigrationRuns

  /** Some migration has this version. */
  ghost predicate Brings(ms: seq<Migration>, v: string)
  {
    exists i :: 0 <= i < |ms| && ms[i].file.version == v
  }

  /** A database that records nothing yet is taken to have applied what its Flyway history lists; without that
      history but with users, everything. */
  ghost predicate Adopts(db: Database, ms: seq<Migration>, v: string)
  {
    db.rows == map[] &&
    if "flyway_schema_history" in db.tables then v in db.flyway else "users" in db.tables && Brings(ms, v)
  }

  lemma {:induction false} VersionsAre(ms: seq<Migration>, v: string)
    ensures v in Versions(ms) <==> Brings(ms, v)
  {
    if ms != [] {
      var init, last := ms[..|ms| - 1], ms[|ms| - 1];
      VersionsAre(init, v);
      if Brings(init, v) {
        var i :| 0 <= i < |init| && init[i].file.version == v;
        assert ms[i].file.version == v;
      }
      if Brings(ms, v) && last.file.version != v {
        var i :| 0 <= i < |ms| && ms[i].file.version == v;
        assert init[i].file.version == v;
      }
    }
  }

  lemma BaselineAdopts(db: Database, ms: seq<Migration>, v: string)
    ensures v in BaselineVersions(db, ms) <==> Adopts(db, ms, v)
  {
    VersionsAre(ms, v);
  }

  lemma {:induction false} FindFirst(ms: seq<Migration>, v: string)
    ensures match Find(ms, v)
            case None => !Brings(ms, v)
            case Some(m) => m in ms && m.file.version == v
  {
    if ms != [] && ms[0].file.version != v {
      FindFirst(ms[1..], v);
      if Brings(ms, v) {
        var i :| 0 <= i < |ms| && ms[i].file.version == v;
        assert ms[1..][i - 1].file.version == v;
      }
    }
  }

  /** The row an adopted version is given. */
  lemma BaselineRowIs(ms: seq<Migration>, v: string)
    requires Distinct(ms)
    ensures forall i :: 0 <= i < |ms| && ms[i].file.version == v ==>
              BaselineRow(ms, v) == Row(ms[i].file.name, ms[i].checksum)
    ensures !Brings(ms, v) ==> BaselineRow(ms, v) == Row("baselined", "baselined")
  {
    FindFirst(ms, v);
    forall i | 0 <= i < |ms| && ms[i].file.version == v ensures Find(ms, v) == Some(ms[i]) {
      assert Brings(ms, v);
      var j :| 0 <= j < |ms| && ms[j] == Find(ms, v).value;
    }
  }

  lemma {:induction false} InsertedRows(rows: map<string, Row>, versions: seq<string>, ms: seq<Migration>, v: string)
    ensures v in rows ==> v in Inserted(rows, versions, ms) && Inserted(rows, versions, ms)[v] == rows[v]
    ensures v !in rows && v in versions ==>
              v in Inserted(rows, versions, ms) && Inserted(rows, versions, ms)[v] == BaselineRow(ms, v)
  {
    if versions != [] {
      var init, last := versions[..|versions| - 1], versions[|versions| - 1];
      assert versions == init + [last];
      InsertedRows(rows, init, ms, v);
      InsertedKeys(rows, init, ms, v);
    }
  }

  /** The versions recorded when applying begins, and the rows they have. */
  lemma ReadyRows(db: Database, ms: seq<Migration>, v: string)
    ensures var rows := Baselined(db, ms, |BaselineVersions(db, ms)|).rows;
            (v in rows <==> v in db.rows || Adopts(db, ms, v)) &&
            (v in db.rows ==> rows[v] == db.rows[v]) &&
            (v !in db.rows && Adopts(db, ms, v) ==> rows[v] == BaselineRow(ms, v))
  {
    var vs := BaselineVersions(db, ms);
    InsertedKeys(db.rows, vs, ms, v);
    InsertedRows(db.rows, vs, ms, v);
    BaselineAdopts(db, ms, v);
  }

  // ---------- applying with nothing going wrong ----------

  ghost predicate NothingNew(db: Database, ms: seq<Migration>, i: nat, applied: map<string, Row>)
  {
    forall j :: i <= j < |ms| && ms[j].file.version in db.rows ==> ms[j].file.version in applied
  }

  /** Rows already there stay, and every migration from the `i`th on that was not recorded gets its own. */
  lemma {:induction false} ApplyRecords(db: Database, ms: seq<Migration>, i: nat, applied: map<string, Row>, v: string)
    requires Distinct(ms) && i <= |ms| && NothingNew(db, ms, i, applied)
    ensures var rows := Apply(db, ms, i, applied, Attempt(Ready, [])).0.rows;
            (v in db.rows ==> v in rows && rows[v] == db.rows[v]) &&
            (forall j :: i <= j < |ms| && ms[j].file.version == v && v !in applied ==>
               v in rows && rows[v] == Row(ms[j].file.name, ms[j].checksum)) &&
            (v in rows ==> v in db.rows || exists j :: i <= j < |ms| && ms[j].file.version == v)
    decreases |ms| - i
  {
    if i < |ms| {
      var m := ms[i];
      if m.file.version in applied {
        ApplyRecords(db, ms, i + 1, applied, v);
      } else {
        ApplyRecords(Committed(db, m), ms, i + 1, applied, v);
      }
    }
  }

  lemma {:induction false} Listing(rows: map<string, Row>) returns (listed: seq<string>)
    ensures Records(rows, listed)
    decreases |rows|
  {
    if rows == map[] {
      listed := [];
    } else {
      var k :| k in rows;
      var rest := map x | x in rows && x != k :: rows[x];
      assert rest.Keys == rows.Keys - {k};
      assert |rest| == |rest.Keys| && |rows| == |rows.Keys|;
      var others := Listing(rest);
      listed := [k] + others;
      forall x ensures x in rows <==> x in listed {
        assert x in rows <==> x == k || x in rest;
      }
    }
  }

  // ---------- main results ----------

  /** An undisturbed run on any database succeeds, and executes in order exactly the migrations that are
      neither recorded nor adopted. */
  lemma RunExecutes(db: Database, ms: seq<Migration>) returns (known: seq<string>)
    requires Distinct(ms)
    ensures forall v :: v in known <==> v in db.rows || Adopts(db, ms, v)
    ensures var (after, ok) := RunOnce(db, ms, Attempt(Ready, []));
            ok && after.executed == db.executed + Unlisted(ms, known)
  {
    var prepared := db.(hasTable := true);
    var ready := Baselined(prepared, ms, |BaselineVersions(db, ms)|);
    known := Listing(ready.rows);
    forall v ensures v in known <==> v in db.rows || Adopts(db, ms, v) {
      ReadyRows(prepared, ms, v);
      assert Adopts(prepared, ms, v) == Adopts(db, ms, v);
    }
    ApplyCompletes(ready, ms, 0, ready.rows, known);
    assert ms[0..] == ms;
  }

  /** What it leaves recorded of a version: the row that was there; else the name and checksum of the
      migration that has it, executed or adopted; else, if adopted all the same, a placeholder. */
  lemma RunRecords(db: Database, ms: seq<Migration>, v: string)
    requires Distinct(ms)
    ensures var rows := RunOnce(db, ms, Attempt(Ready, [])).0.rows;
            (v in rows <==> v in db.rows || Brings(ms, v) || Adopts(db, ms, v)) &&
            (v in db.rows ==> rows[v] == db.rows[v]) &&
            (forall i :: 0 <= i < |ms| && ms[i].file.version == v && v !in db.rows ==>
               rows[v] == Row(ms[i].file.name, ms[i].checksum)) &&
            (v !in db.rows && !Brings(ms, v) && Adopts(db, ms, v) ==> rows[v] == Row("baselined", "baselined"))
  {
    var prepared := db.(hasTable := true);
    var ready := Baselined(prepared, ms, |BaselineVersions(db, ms)|);
    ReadyRows(prepared, ms, v);
    assert Adopts(prepared, ms, v) == Adopts(db, ms, v);
    BaselineRowIs(ms, v);
    ApplyRecords(ready, ms, 0, ready.rows, v);
  }
}
