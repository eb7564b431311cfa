/** Copying one database into another (copy_database in backend/db_migrate.py): what
    is kept, when a second run changes nothing, and the next generated id. */
module DbMigrate {
  import opened Wrappers

  datatype Value = Null | Int(n: int) | Str(s: string)

  type Row = map<string, Value>

  datatype Kind = Sqlite | Postgres

  /** A target table: its columns with their defaults, its unique constraints, its
      rows, and the id it generates next. `serial`: it generates ids. */
  datatype Table = Table(defaults: map<string, Value>, uniques: set<set<string>>, serial: bool, rows: seq<Row>,
                         next: int)

  /** A source table: its columns and rows. */
  datatype Source = Source(cols: set<string>, rows: seq<Row>)

  function Get(r: Row, c: string): Value {
    if c in r then r[c] else Null
  }

  // --------------------------------------------------------------------------- one insert

  /** The constraint binds a row only when all its columns have a value. */
  predicate Binds(key: set<string>, r: Row) {
    forall c :: c in key ==> Get(r, c) != Null
  }

  predicate Same(key: set<string>, a: Row, b: Row) {
    Binds(key, b) && forall c :: c in key ==> Get(a, c) == Get(b, c)
  }

  predicate Conflicts(uniques: set<set<string>>, a: Row, b: Row) {
    exists key :: key in uniques && Same(key, a, b)
  }

  predicate ConflictsAny(uniques: set<set<string>>, rows: seq<Row>, r: Row) {
    exists i :: 0 <= i < |rows| && Conflicts(uniques, rows[i], r)
  }

  /** Some constraint binds the row. */
  predicate Guarded(uniques: set<set<string>>, r: Row) {
    exists key :: key in uniques && Binds(key, r)
  }

  function IdOf(r: Row): Option<int> {
    if Get(r, "id").Int? then Some(Get(r, "id").n) else None
  }

  /** INSERT ... ON CONFLICT DO NOTHING. SQLite moves its counter past the id it is
      given; PostgreSQL leaves its sequence alone. */
  function Insert(t: Table, r: Row, kind: Kind): Table {
    if ConflictsAny(t.uniques, t.rows, r) then t
    else
      var id := IdOf(r);
      var next := if kind.Sqlite? && id.Some? && id.value >= t.next then id.value + 1 else t.next;
      t.(rows := t.rows + [r], next := next)
  }

  function InsertAll(t: Table, rows: seq<Row>, kind: Kind): Table {
    if rows == [] then t else Insert(InsertAll(t, rows[..|rows| - 1], kind), rows[|rows| - 1], kind)
  }

  // ---------------------------------------------------------------------------- one table

  /** The row as the target will hold it: shared columns from the source, the
      others at their default. */
  function Projected(t: Table, s: Source, r: Row): Row {
    map c | c in t.defaults :: if c in s.cols then Get(r, c) else t.defaults[c]
  }

  function ProjectedRows(t: Table, s: Source): seq<Row> {
    seq(|s.rows|, i requires 0 <= i < |s.rows| => Projected(t, s, s.rows[i]))
  }

  predicate Shares(t: Table, s: Source) {
    exists c :: c in s.cols && c in t.defaults
  }

  /** The greatest id of the rows. */
  function MaxId(rows: seq<Row>): Option<int> {
    if rows == [] then None
    else
      var before, id := MaxId(rows[..|rows| - 1]), IdOf(rows[|rows| - 1]);
      if before.None? then id else if id.Some? && id.value > before.value then id else before
  }

  /** setval(..., MAX(id)); without an id or a sequence it does nothing. */
  function SetVal(t: Table): Table {
    if t.serial && MaxId(t.rows).Some? then t.(next := MaxId(t.rows).value + 1) else t
  }

  function Copied(t: Table, s: Source, wipe: bool, kind: Kind): Table {
    var start := if wipe then t.(rows := []) else t;
    var filled := InsertAll(start, ProjectedRows(t, s), kind);
    if kind.Postgres? && "id" in s.cols && "id" in t.defaults && s.rows != [] then SetVal(filled) else filled
  }

  // ------------------------------------------------------------------- what a copy promises

  lemma {:induction false} InsertAllGrows(t: Table, rows: seq<Row>, kind: Kind)
    ensures t.rows <= InsertAll(t, rows, kind).rows
    ensures InsertAll(t, rows, kind).uniques == t.uniques && InsertAll(t, rows, kind).defaults == t.defaults
    ensures InsertAll(t, rows, kind).serial == t.serial
    ensures forall r :: r in InsertAll(t, rows, kind).rows ==> r in t.rows || r in rows
    ensures forall r :: r in rows ==>
              r in InsertAll(t, rows, kind).rows || ConflictsAny(t.uniques, InsertAll(t, rows, kind).rows, r)
  {
    if rows == [] {
    } else {
      var init, last := rows[..|rows| - 1], rows[|rows| - 1];
      InsertAllGrows(t, init, kind);
      var before, after := InsertAll(t, init, kind), InsertAll(t, rows, kind);
      forall r | r in rows ensures r in after.rows || ConflictsAny(t.uniques, after.rows, r) {
        if r in init && r !in before.rows {
          ConflictsMore(t.uniques, before.rows, after.rows, r);
        }
        assert rows == init + [last];
      }
    }
  }

  lemma ConflictsMore(uniques: set<set<string>>, rows: seq<Row>, more: seq<Row>, r: Row)
    requires rows <= more && ConflictsAny(uniques, rows, r)
    ensures ConflictsAny(uniques, more, r)
  {
    var i :| 0 <= i < |rows| && Conflicts(uniques, rows[i], r);
    assert more[i] == rows[i];
  }

  /** Without wiping, no row of the target is changed or lost. */
  lemma CopyKeepsRows(t: Table, s: Source, kind: Kind)
    ensures t.rows <= Copied(t, s, false, kind).rows
  {
    InsertAllGrows(t, ProjectedRows(t, s), kind);
  }

  lemma {:induction false} NothingToInsert(t: Table, rows: seq<Row>, kind: Kind)
    requires forall i :: 0 <= i < |rows| ==> ConflictsAny(t.uniques, t.rows, rows[i])
    ensures InsertAll(t, rows, kind) == t
  {
    if rows == [] {
    } else {
      NothingToInsert(t, rows[..|rows| - 1], kind);
    }
  }

  lemma {:induction false} UnguardedIsAdded(t: Table, rows: seq<Row>, kind: Kind, k: nat)
    requires k < |rows| && !Guarded(t.uniques, rows[k])
    ensures |InsertAll(t, rows, kind).rows| > |t.rows|
  {
    var init, last := rows[..|rows| - 1], rows[|rows| - 1];
    InsertAllGrows(t, init, kind);
    if k < |init| {
      UnguardedIsAdded(t, init, kind, k);
    } else {
      assert forall r :: !Conflicts(t.uniques, r, last);
    }
  }

  lemma GuardedConflicts(uniques: set<set<string>>, rows: seq<Row>, r: Row)
    requires Guarded(uniques, r) && r in rows
    ensures ConflictsAny(uniques, rows, r)
  {
    var key :| key in uniques && Binds(key, r);
    assert Same(key, r, r);
    var i :| 0 <= i < |rows| && rows[i] == r;
    assert Conflicts(uniques, rows[i], r);
  }

  /** Inserting the same rows again changes nothing if and only if a unique constraint
      binds every one of them. */
  lemma SecondInsert(t: Table, rows: seq<Row>, kind: Kind)
    ensures InsertAll(InsertAll(t, rows, kind), rows, kind).rows == InsertAll(t, rows, kind).rows
            <==> forall i :: 0 <= i < |rows| ==> Guarded(t.uniques, rows[i])
  {
    var once := InsertAll(t, rows, kind);
    InsertAllGrows(t, rows, kind);
    if forall i :: 0 <= i < |rows| ==> Guarded(t.uniques, rows[i]) {
      forall i | 0 <= i < |rows| ensures ConflictsAny(once.uniques, once.rows, rows[i]) {
        assert rows[i] in rows;
        if rows[i] in once.rows { GuardedConflicts(t.uniques, once.rows, rows[i]); }
      }
      NothingToInsert(once, rows, kind);
    } else {
      var k :| 0 <= k < |rows| && !Guarded(t.uniques, rows[k]);
      UnguardedIsAdded(once, rows, kind, k);
    }
  }

  lemma CopiedRows(t: Table, s: Source, wipe: bool, kind: Kind)
    ensures Copied(t, s, wipe, kind).rows
         == InsertAll(if wipe then t.(rows := []) else t, ProjectedRows(t, s), kind).rows
    ensures Copied(t, s, wipe, kind).uniques == t.uniques && Copied(t, s, wipe, kind).defaults == t.defaults
    ensures InsertAll(if wipe then t.(rows := []) else t, ProjectedRows(t, s), kind).defaults == t.defaults
  {
    InsertAllGrows(if wipe then t.(rows := []) else t, ProjectedRows(t, s), kind);
  }

  lemma {:induction false} RowsOnly(a: Table, b: Table, rows: seq<Row>, kind: Kind)
    requires a.rows == b.rows && a.uniques == b.uniques
    ensures InsertAll(a, rows, kind).rows == InsertAll(b, rows, kind).rows
  {
    if rows == [] {
    } else {
      RowsOnly(a, b, rows[..|rows| - 1], kind);
      InsertAllGrows(a, rows[..|rows| - 1], kind);
      InsertAllGrows(b, rows[..|rows| - 1], kind);
    }
  }

  /** Without wiping, a second copy leaves the rows as they are if and only if every
      copied row is bound by some unique constraint of the target. */
  lemma CopyTwice(t: Table, s: Source, kind: Kind)
    ensures Copied(Copied(t, s, false, kind), s, false, kind).rows == Copied(t, s, false, kind).rows
            <==> forall i :: 0 <= i < |s.rows| ==> Guarded(t.uniques, Projected(t, s, s.rows[i]))
  {
    var rows := ProjectedRows(t, s);
    var once := Copied(t, s, false, kind);
    CopiedRows(t, s, false, kind);
    CopiedRows(once, s, false, kind);
    assert ProjectedRows(once, s) == rows;
    InsertAllGrows(t, rows, kind);
    RowsOnly(once, InsertAll(t, rows, kind), rows, kind);
    SecondInsert(t, rows, kind);
    assert forall i :: 0 <= i < |rows| ==> rows[i] == Projected(t, s, s.rows[i]);
  }

  ghost predicate Unique(uniques: set<set<string>>, rows: seq<Row>) {
    forall i, j :: 0 <= i < j < |rows| ==> !Conflicts(uniques, rows[i], rows[j])
  }

  lemma {:induction false} FillEmpty(t: Table, rows: seq<Row>, kind: Kind)
    requires t.rows == []
    ensures |InsertAll(t, rows, kind).rows| <= |rows|
    ensures InsertAll(t, rows, kind).rows == rows <==> Unique(t.uniques, rows)
  {
    if rows == [] {
    } else {
      var init, last := rows[..|rows| - 1], rows[|rows| - 1];
      var before := InsertAll(t, init, kind);
      FillEmpty(t, init, kind);
      InsertAllGrows(t, init, kind);
      if before.rows == init {
        assert rows == init + [last];
        assert Unique(t.uniques, rows) <==> !ConflictsAny(t.uniques, init, last);
      } else {
        assert InsertAll(t, rows, kind).rows != rows;
      }
    }
  }

  /** With wiping, the table ends as the projected source if and only if no two
      projected rows conflict. */
  lemma WipedCopyMirrors(t: Table, s: Source, kind: Kind)
    ensures Copied(t, s, true, kind).rows == ProjectedRows(t, s) <==> Unique(t.uniques, ProjectedRows(t, s))
  {
    CopiedRows(t, s, true, kind);
    FillEmpty(t.(rows := []), ProjectedRows(t, s), kind);
  }

  // ----------------------------------------------------- what a caller can check beforehand

  /** A copied row has the source's values in the columns both have, and the target's
      defaults in its others. */
  lemma ProjectedRow(t: Table, s: Source, r: Row, c: string)
    requires c in t.defaults
    ensures Projected(t, s, r).Keys == t.defaults.Keys
    ensures Projected(t, s, r)[c] == if c in s.cols then (if c in r then r[c] else Null) else t.defaults[c]
  {
  }

  lemma ProjectedGet(t: Table, s: Source, r: Row, c: string)
    requires c in t.defaults && c in s.cols
    ensures Get(Projected(t, s, r), c) == Get(r, c)
  {
  }

  /** With a key of shared columns that no source row leaves null, a second copy changes
      nothing. */
  lemma SharedKeyIsIdempotent(t: Table, s: Source, kind: Kind, key: set<string>)
    requires key in t.uniques && key <= s.cols && key <= t.defaults.Keys
    requires forall i :: 0 <= i < |s.rows| ==> Binds(key, s.rows[i])
    ensures Copied(Copied(t, s, false, kind), s, false, kind).rows == Copied(t, s, false, kind).rows
  {
    forall i | 0 <= i < |s.rows| ensures Guarded(t.uniques, Projected(t, s, s.rows[i])) {
      assert Binds(key, s.rows[i]);
      forall c | c in key ensures Get(Projected(t, s, s.rows[i]), c) != Null { ProjectedGet(t, s, s.rows[i], c); }
      assert Binds(key, Projected(t, s, s.rows[i]));
    }
    CopyTwice(t, s, kind);
  }

  /** If the source keeps every key of the target, that is, any two of its rows differ on
      it or the later leaves it null, a wiped copy mirrors it. */
  lemma SourceKeysMirror(t: Table, s: Source, kind: Kind)
    requires forall key :: key in t.uniques ==> key <= s.cols && key <= t.defaults.Keys
    requires forall key, i, j :: key in t.uniques && 0 <= i < j < |s.rows| ==>
               exists c :: c in key && (Get(s.rows[j], c) == Null || Get(s.rows[i], c) != Get(s.rows[j], c))
    ensures Copied(t, s, true, kind).rows == ProjectedRows(t, s)
  {
    var rows := ProjectedRows(t, s);
    forall i, j | 0 <= i < j < |rows| ensures !Conflicts(t.uniques, rows[i], rows[j]) {
      forall key | key in t.uniques ensures !Same(key, rows[i], rows[j]) {
        var d :| d in key && (Get(s.rows[j], d) == Null || Get(s.rows[i], d) != Get(s.rows[j], d));
        forall c | c in key
          ensures Get(rows[i], c) == Get(s.rows[i], c) && Get(rows[j], c) == Get(s.rows[j], c)
        {
          ProjectedGet(t, s, s.rows[i], c);
          ProjectedGet(t, s, s.rows[j], c);
        }
      }
    }
    WipedCopyMirrors(t, s, kind);
  }

  function Keyed(k: Value, v: string): Row {
    map["id" := k, "name" := Str(v)]
  }

  function KeyedTable(unique: string, next: int): Table {
    Table(map["id" := Null, "name" := Null], {{unique}}, false, [], next)
  }

  /** A row without its key, which SQLite allows in a text key, is copied twice. */
  lemma NullKeyCopiedTwice(v: string, next: int, kind: Kind)
    ensures var t, s := KeyedTable("id", next), Source({"id", "name"}, [Keyed(Null, v)]);
      Copied(t, s, false, kind).rows == [Keyed(Null, v)]
      && |Copied(Copied(t, s, false, kind), s, false, kind).rows| > 1
  {
    var t, s := KeyedTable("id", next), Source({"id", "name"}, [Keyed(Null, v)]);
    var r := Keyed(Null, v);
    assert Projected(t, s, r) == r;
    assert ProjectedRows(t, s) == [r] && [r][..0] == [];
    assert !Guarded(t.uniques, r) by {
      forall key | key in t.uniques ensures !Binds(key, r) { assert "id" in key && Get(r, "id") == Null; }
    }
    CopiedRows(t, s, false, kind);
    var once := Copied(t, s, false, kind);
    CopiedRows(once, s, false, kind);
    assert ProjectedRows(once, s) == [r];
    UnguardedIsAdded(once, [r], kind, 0);
  }

  /** Two rows that agree on a key the target has and the source lacks: a wiped copy
      keeps the first only. */
  lemma ConflictDropsRow(v: string, m: int, n: int, next: int, kind: Kind)
    ensures var t, s := KeyedTable("name", next), Source({"id", "name"}, [Keyed(Int(m), v), Keyed(Int(n), v)]);
      Copied(t, s, true, kind).rows != ProjectedRows(t, s)
  {
    var a, b := Keyed(Int(m), v), Keyed(Int(n), v);
    var t, s := KeyedTable("name", next), Source({"id", "name"}, [a, b]);
    assert Projected(t, s, a) == a && Projected(t, s, b) == b;
    assert ProjectedRows(t, s) == [a, b];
    assert Same({"name"}, a, b) by {
      assert Get(a, "name") == Get(b, "name") == Str(v);
    }
    assert {"name"} in t.uniques;
    assert Conflicts(t.uniques, [a, b][0], [a, b][1]);
    WipedCopyMirrors(t, s, kind);
  }

  /** No row has an id the table will generate. */
  ghost predicate IdsBelow(t: Table) {
    forall i :: 0 <= i < |t.rows| && IdOf(t.rows[i]).Some? ==> IdOf(t.rows[i]).value < t.next
  }

  lemma {:induction false} MaxIdIsGreatest(rows: seq<Row>, i: nat)
    requires i < |rows| && IdOf(rows[i]).Some?
    ensures MaxId(rows).Some? && IdOf(rows[i]).value <= MaxId(rows).value
  {
    if i == |rows| - 1 {
    } else {
      MaxIdIsGreatest(rows[..|rows| - 1], i);
    }
  }

  lemma {:induction false} SqliteIdsBelow(t: Table, rows: seq<Row>)
    requires IdsBelow(t)
    ensures IdsBelow(InsertAll(t, rows, Sqlite))
  {
    if rows == [] {
    } else {
      SqliteIdsBelow(t, rows[..|rows| - 1]);
    }
  }

  /** After a copy the next generated id exceeds every id in the table; on PostgreSQL
      even if it did not before, once a row was copied. */
  lemma NextIdIsFree(t: Table, s: Source, wipe: bool, kind: Kind)
    requires t.serial && "id" in s.cols && "id" in t.defaults
    requires !wipe && (kind.Sqlite? || s.rows == []) ==> IdsBelow(t)
    ensures IdsBelow(Copied(t, s, wipe, kind))
  {
    var start := if wipe then t.(rows := []) else t;
    var filled := InsertAll(start, ProjectedRows(t, s), kind);
    InsertAllGrows(start, ProjectedRows(t, s), kind);
    if kind.Sqlite? {
      SqliteIdsBelow(start, ProjectedRows(t, s));
    } else if s.rows != [] {
      forall i | 0 <= i < |filled.rows| && IdOf(filled.rows[i]).Some?
        ensures IdOf(filled.rows[i]).value < SetVal(filled).next
      {
        MaxIdIsGreatest(filled.rows, i);
      }
    }
  }

  // -------------------------------------------------------------------------- all the tables

  const SKIP := "schema_migrations"

  predicate Copies(target: map<string, Table>, source: map<string, Source>, name: string) {
    name in source && name != SKIP && name in target && Shares(target[name], source[name])
  }

  class Target {
    var tables: map<string, Table>
    const kind: Kind

    constructor (kind: Kind, tables: map<string, Table>)
      ensures this.kind == kind && this.tables == tables
    {
      this.kind, this.tables := kind, tables;
    }

    /** Copies the rows of one table, and moves its sequence past them. */
    method CopyTable(name: string, s: Source, wipe: bool)
      requires name in tables
      modifies this`tables
      ensures tables == old(tables)[name := Copied(old(tables)[name], s, wipe, kind)]
    {
      ghost var t := tables[name];
      CopyRows(name, s, wipe);
      CopiedRows(t, s, wipe, kind);
      if kind.Postgres? && "id" in s.cols && "id" in tables[name].defaults && s.rows != [] {
        tables := tables[name := SetVal(tables[name])];
      }
    }

    /** The inserts of one table. */
    method CopyRows(name: string, s: Source, wipe: bool)
      requires name in tables
      modifies this`tables
      ensures var t := old(tables)[name];
              tables == old(tables)[name := InsertAll(if wipe then t.(rows := []) else t, ProjectedRows(t, s), kind)]
    {
      ghost var was, rows := tables, ProjectedRows(tables[name], s);
      if wipe { tables := tables[name := tables[name].(rows := [])]; }
      ghost var start := tables[name];
      for i := 0 to |s.rows|
        invariant tables == was[name := InsertAll(start, rows[..i], kind)]
      {
        InsertAllGrows(start, rows[..i], kind);
        assert rows[..i + 1][..i] == rows[..i];
        InsertRow(name, s, s.rows[i]);
      }
      assert rows[..|rows|] == rows;
    }

    method InsertRow(name: string, s: Source, r: Row)
      requires name in tables
      modifies this`tables
      ensures tables == old(tables)[name := Insert(old(tables)[name], Projected(old(tables)[name], s, r), kind)]
    {
      tables := tables[name := Insert(tables[name], Projected(tables[name], s, r), kind)];
    }

    /** Copies every table both sides have, in any order. */
    method CopyDatabase(source: map<string, Source>, wipe: bool) returns (counts: map<string, nat>)
      modifies this`tables
      ensures tables.Keys == old(tables).Keys
      ensures forall name :: name in tables ==>
                tables[name] == if Copies(old(tables), source, name)
                                then Copied(old(tables)[name], source[name], wipe, kind) else old(tables)[name]
      ensures forall name :: name in counts <==>
                name in source && name != "schema_migrations" && name in old(tables)
                && exists c :: c in source[name].cols && c in old(tables)[name].defaults
      ensures forall name :: name in counts ==> name in source && counts[name] == |source[name].rows|
    {
      counts := map[];
      var left := set name | name in source && name != SKIP;
      while left != {}
        invariant forall name :: name in left ==> name in source && name != SKIP
        invariant tables.Keys == old(tables).Keys
        invariant forall name :: name in tables ==>
                    tables[name] == if Copies(old(tables), source, name) && name !in left
                                    then Copied(old(tables)[name], source[name], wipe, kind) else old(tables)[name]
        invariant forall name :: name in counts <==> Copies(old(tables), source, name) && name !in left
        invariant forall name :: name in counts ==> name in source && counts[name] == |source[name].rows|
        decreases left
      {
        var name :| name in left;
        left := left - {name};
        if name in tables && Shares(tables[name], source[name]) {
          CopyTable(name, source[name], wipe);
          counts := counts[name := |source[name].rows|];
        }
      }
    }
  }
}
