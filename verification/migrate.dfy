/** GeeORM's schema migration inside a transaction, over tables of named columns. */
module Migrate {
  import opened Wrappers

  datatype Cell = Null | Val(text: string)

  type Row = map<string, Cell>

  /** Columns in order, and the rows by column name. */
  datatype Table = Table(cols: seq<string>, rows: seq<Row>)

  type Db = map<string, Table>

  predicate DistinctNames(names: seq<string>) { forall i, j :: 0 <= i < j < |names| ==> names[i] != names[j] }

  ghost predicate Fills(row: Row, cols: seq<string>) { forall c :: c in row <==> c in cols }

  ghost predicate WellFormed(t: Table) {
    DistinctNames(t.cols) && forall i :: 0 <= i < |t.rows| ==> Fills(t.rows[i], t.cols)
  }

  // ---------------------------------------------------------------- statements

  /** The statements that Migrate issues. */
  datatype Stmt =
    | CreateTable(t: string, cols: seq<string>)
    | AddColumn(t: string, col: string)
    | CreateAsSelect(t: string, cols: seq<string>, from: string)
    | DropTable(t: string)
    | RenameTable(t: string, to: string)

  function WithColumn(row: Row, col: string): Row { row[col := Null] }

  function Project(row: Row, cols: seq<string>): Row { map c | c in cols && c in row :: row[c] }

  function Widen(t: Table, col: string): Table {
    Table(t.cols + [col], seq(|t.rows|, i requires 0 <= i < |t.rows| => WithColumn(t.rows[i], col)))
  }

  function Select(t: Table, cols: seq<string>): Table {
    Table(cols, seq(|t.rows|, i requires 0 <= i < |t.rows| => Project(t.rows[i], cols)))
  }

  /** The database after a statement; None if it is in error. */
  function Execute(db: Db, s: Stmt): Option<Db> {
    match s
    case CreateTable(t, cols) =>
      if t in db || cols == [] then None else Some(db[t := Table(cols, [])])
    case AddColumn(t, col) =>
      if t !in db || col in db[t].cols then None
      else Some(db[t := Widen(db[t], col)])
    case CreateAsSelect(t, cols, from) =>
      if t in db || cols == [] || from !in db || (exists c :: c in cols && c !in db[from].cols) then None
      else Some(db[t := Select(db[from], cols)])
    case DropTable(t) => if t in db then Some(db - {t}) else None
    case RenameTable(t, to) => if t !in db || to in db then None else Some((db - {t})[to := db[t]])
  }

  // ---------------------------------------------------------------- difference

  /** The names of `a` that are not in `b`, in the order of `a`. */
  function Minus(a: seq<string>, b: seq<string>): (d: seq<string>)
    ensures forall x :: x in d <==> x in a && x !in b
  {
    if a == [] then []
    else Minus(a[..|a| - 1], b) + if a[|a| - 1] in b then [] else [a[|a| - 1]]
  }

  /** `d` has what stands at the positions `at` of `a`, going up: all those whose name is not in `b`. */
  ghost predicate PickedInOrder(a: seq<string>, b: seq<string>, d: seq<string>, at: seq<nat>) {
    && |at| == |d|
    && (forall i :: 0 <= i < |at| ==> at[i] < |a| && d[i] == a[at[i]] && d[i] !in b)
    && (forall i, j :: 0 <= i < j < |at| ==> at[i] < at[j])
    && (forall k :: 0 <= k < |a| && a[k] !in b ==> k in at)
  }

  /** The difference keeps the order, and repetitions, of its first list. */
  lemma {:induction false} MinusKeepsOrder(a: seq<string>, b: seq<string>) returns (at: seq<nat>)
    ensures PickedInOrder(a, b, Minus(a, b), at)
  {
    at := [];
    if a != [] {
      var n := |a| - 1;
      at := MinusKeepsOrder(a[..n], b);
      OneMorePicked(a[..n], b, Minus(a[..n], b), at, a[n]);
      assert a == a[..n] + [a[n]];
      if a[n] !in b { at := at + [n]; }
    }
  }

  lemma OneMorePicked(a: seq<string>, b: seq<string>, d: seq<string>, at: seq<nat>, x: string)
    requires PickedInOrder(a, b, d, at)
    ensures x in b ==> PickedInOrder(a + [x], b, d, at)
    ensures x !in b ==> PickedInOrder(a + [x], b, d + [x], at + [|a|])
  {
    var at' := at + [|a|];
    assert at'[|at|] == |a| && forall k :: k in at ==> k in at';
  }

  /** `difference` */
  method Difference(a: seq<string>, b: seq<string>) returns (diff: seq<string>)
    ensures diff == Minus(a, b)
  {
    var mapB: map<string, bool> := map[];
    var k := 0;
    while k < |b|
      invariant 0 <= k <= |b| && forall x :: x in mapB <==> x in b[..k]
    {
      mapB := mapB[b[k] := true];
      k := k + 1;
    }
    assert b[..k] == b;
    diff, k := [], 0;
    while k < |a|
      invariant 0 <= k <= |a| && diff == Minus(a[..k], b)
    {
      assert a[..k + 1][..k] == a[..k];
      if a[k] !in mapB { diff := diff + [a[k]]; }
      k := k + 1;
    }
    assert a[..k] == a;
  }

  // ---------------------------------------------------------------- what a migration is

  /** In each of the columns, `row'` has the cell of `row`, or null if `row` has none. */
  ghost predicate Carries(row: Row, row': Row, cols: seq<string>) {
    forall c :: c in cols ==> c in row' && row'[c] == if c in row then row[c] else Null
  }

  ghost predicate RowsCarry(t: Table, t': Table, cols: seq<string>) {
    |t'.rows| == |t.rows| && forall i :: 0 <= i < |t.rows| ==> Carries(t.rows[i], t'.rows[i], cols)
  }

  /** `t'` is `t` migrated to `fields`: same rows, surviving cells as they were, new cells null. */
  ghost predicate MigratedTo(t: Table, fields: seq<string>, t': Table) {
    && WellFormed(t')
    && t'.cols == (if Minus(t.cols, fields) == [] then t.cols + Minus(fields, t.cols) else fields)
    && RowsCarry(t, t', fields)
  }

  function TmpName(name: string): string { "tmp_" + name }

  /** When a migration goes through, if nothing fails from outside. */
  predicate CanMigrate(db: Db, name: string, fields: seq<string>) {
    if name !in db then fields != []
    else Minus(db[name].cols, fields) == [] || (fields != [] && TmpName(name) !in db)
  }

  /** A migration in progress: the columns in `added` are there. */
  ghost predicate Widened(t: Table, added: seq<string>, t': Table) {
    && WellFormed(t')
    && t'.cols == t.cols + added
    && RowsCarry(t, t', t'.cols)
  }

  lemma WidenRow(row: Row, row': Row, before: seq<string>, cols: seq<string>, col: string)
    requires Carries(row, row', cols) && Fills(row, before) && Fills(row', cols) && col !in before
    ensures Carries(row, WithColumn(row', col), cols + [col]) && Fills(WithColumn(row', col), cols + [col])
  {
  }

  lemma WidenOne(db: Db, t: Table, added: seq<string>, name: string, col: string)
    requires name in db && WellFormed(t) && Widened(t, added, db[name]) && col !in db[name].cols
    ensures Execute(db, AddColumn(name, col)).Some?
    ensures Widened(t, added + [col], Execute(db, AddColumn(name, col)).value[name])
  {
    var t', was := Execute(db, AddColumn(name, col)).value[name], db[name];
    assert t'.cols == t.cols + (added + [col]);
    forall i | 0 <= i < |t.rows|
      ensures Carries(t.rows[i], t'.rows[i], t'.cols) && Fills(t'.rows[i], t'.cols)
    {
      assert Carries(t.rows[i], was.rows[i], was.cols) && Fills(was.rows[i], was.cols) && Fills(t.rows[i], t.cols);
      WidenRow(t.rows[i], was.rows[i], t.cols, was.cols, col);
    }
  }

  /** How a migration ends for its caller. */
  datatype Outcome = Succeeded | Failed | Panicked

  class Engine {
    /** What is committed. */
    var db: Db
    /** What the open transaction sees. */
    var tx: Db
    /** Whether the driver fails on its own, call by call; what is not listed works. */
    var faults: seq<bool>

    constructor (db: Db, faults: seq<bool>)
      ensures this.db == db && this.faults == faults
    {
      this.db, this.tx, this.faults := db, db, faults;
    }

    /** Whether the next call of the driver fails on its own. */
    method DriverFails() returns (fails: bool)
      modifies this`faults
      ensures fails ==> old(faults) != []
      ensures old(faults) == [] ==> faults == []
    {
      if faults == [] { return false; }
      fails, faults := faults[0], faults[1..];
    }

    /** One statement in the transaction. */
    method Exec(s: Stmt) returns (ok: bool)
      modifies this`tx, this`faults
      ensures ok ==> Execute(old(tx), s) == Some(tx)
      ensures old(faults) == [] ==> faults == [] && ok == Execute(old(tx), s).Some?
    {
      var fails := DriverFails();
      if fails { return false; }
      match Execute(tx, s) {
        case None => ok := false;
        case Some(after) => ok, tx := true, after;
      }
    }

    /** The loop that adds columns. */
    method AddColumns(name: string, cols: seq<string>) returns (ok: bool)
      requires name in tx && WellFormed(tx[name])
      requires DistinctNames(cols) && forall c :: c in cols ==> c !in tx[name].cols
      modifies this`tx, this`faults
      ensures ok ==> name in tx && tx == old(tx)[name := tx[name]] && Widened(old(tx)[name], cols, tx[name])
      ensures old(faults) == [] ==> faults == [] && ok
    {
      ghost var t := tx[name];
      ghost var start := tx;
      var k := 0;
      assert t.cols + [] == t.cols;
      while k < |cols|
        invariant 0 <= k <= |cols| && name in tx && tx == start[name := tx[name]]
        invariant Widened(t, cols[..k], tx[name])
        invariant old(faults) == [] ==> faults == []
      {
        assert cols[k] !in tx[name].cols;
        WidenOne(tx, t, cols[..k], name, cols[k]);
        assert cols[..k] + [cols[k]] == cols[..k + 1];
        ok := Exec(AddColumn(name, cols[k]));
        if !ok { return; }
        k := k + 1;
      }
      assert cols[..k] == cols;
      ok := true;
    }

    /** The last step: copy the wanted columns to a new table, drop the old one, rename. */
    method CopyOver(name: string, fields: seq<string>) returns (ok: bool)
      requires name in tx && WellFormed(tx[name])
      requires DistinctNames(fields) && forall c :: c in fields ==> c in tx[name].cols
      modifies this`tx, this`faults
      ensures ok ==> name in tx && tx == old(tx)[name := tx[name]] && tx[name].cols == fields && WellFormed(tx[name])
      ensures ok ==> |tx[name].rows| == |old(tx)[name].rows|
      ensures ok ==> forall i :: 0 <= i < |tx[name].rows| ==> tx[name].rows[i] == Project(old(tx)[name].rows[i], fields)
      ensures old(faults) == [] ==> faults == [] && ok == (fields != [] && TmpName(name) !in old(tx))
    {
      var tmp := TmpName(name);
      assert |tmp| == |name| + 4;
      ok := Exec(CreateAsSelect(tmp, fields, name));
      if !ok { return; }
      ok := Exec(DropTable(name));
      if !ok { return; }
      ok := Exec(RenameTable(tmp, name));
      if !ok { return; }
      assert tx == old(tx)[name := tx[name]];
    }

    /** The columns are compared, and the missing ones added; `drops` says whether there are too many. */
    method WidenTo(name: string, fields: seq<string>) returns (ok: bool, drops: bool)
      requires DistinctNames(fields) && name in tx && WellFormed(tx[name])
      modifies this`tx, this`faults
      ensures drops <==> Minus(old(tx)[name].cols, fields) != []
      ensures ok ==> name in tx && tx == old(tx)[name := tx[name]]
      ensures ok ==> Widened(old(tx)[name], Minus(fields, old(tx)[name].cols), tx[name])
      ensures old(faults) == [] ==> faults == [] && ok
    {
      var addCols := Difference(fields, tx[name].cols);
      var delCols := Difference(tx[name].cols, fields);
      drops := |delCols| != 0;
      MinusDistinct(fields, tx[name].cols);
      ok := AddColumns(name, addCols);
    }

    /** Once the table is known to exist and its columns are read. */
    method Reshape(name: string, fields: seq<string>) returns (ok: bool)
      requires DistinctNames(fields) && name in tx && WellFormed(tx[name])
      modifies this`tx, this`faults
      ensures ok ==> name in tx && tx == old(tx)[name := tx[name]] && MigratedTo(old(tx)[name], fields, tx[name])
      ensures old(faults) == [] ==> faults == [] && ok == CanMigrate(old(tx), name, fields)
    {
      ghost var start, t := tx, tx[name];
      var drops: bool;
      ok, drops := WidenTo(name, fields);
      if !ok { return; }
      ghost var wide := tx[name];
      if !drops {
        WidenedIsMigrated(t, fields, wide);
        return;
      }
      assert TmpName(name) in tx <==> TmpName(name) in start;
      ok := Narrow(name, fields, t);
      if ok { assert tx == start[name := wide][name := tx[name]]; }
    }

    /** The part of it that drops columns, once the new ones are there. */
    method Narrow(name: string, fields: seq<string>, ghost t: Table) returns (ok: bool)
      requires DistinctNames(fields) && name in tx
      requires Widened(t, Minus(fields, t.cols), tx[name]) && Minus(t.cols, fields) != []
      modifies this`tx, this`faults
      ensures ok ==> name in tx && tx == old(tx)[name := tx[name]] && MigratedTo(t, fields, tx[name])
      ensures old(faults) == [] ==> faults == [] && ok == (fields != [] && TmpName(name) !in old(tx))
    {
      ghost var wide := tx[name];
      WidenedHasFields(t, fields, wide);
      ok := CopyOver(name, fields);
      if ok { CopiedIsMigrated(t, fields, wide, tx[name]); }
    }

    /** The function that Migrate runs in the transaction. */
    method MigrateInTx(name: string, fields: seq<string>) returns (outcome: Outcome)
      requires DistinctNames(fields) && forall t :: t in tx ==> WellFormed(tx[t])
      modifies this`tx, this`faults
      ensures outcome.Succeeded? ==> name in tx && tx == old(tx)[name := tx[name]]
      ensures outcome.Succeeded? && name !in old(tx) ==> tx[name] == Table(fields, [])
      ensures outcome.Succeeded? && name in old(tx) ==> MigratedTo(old(tx)[name], fields, tx[name])
      ensures old(faults) == [] ==>
        faults == [] && outcome == if CanMigrate(old(tx), name, fields) then Succeeded else Failed
    {
      var ok: bool;
      var fails := DriverFails();
      // HasTable ignores the error of its query: a query that fails finds no table.
      if fails || name !in tx {
        ok := Exec(CreateTable(name, fields));
        return if ok then Succeeded else Failed;
      }
      fails := DriverFails();
      // The error of this query is ignored too; without rows, reading the columns panics.
      if fails { return Panicked; }
      ok := Reshape(name, fields);
      return if ok then Succeeded else Failed;
    }

    /**
     `Migrate` in `Transaction`: all or nothing. Unless it succeeds, the
     database is the one before; if it does, only this table has changed, and
     it is the old one migrated to the fields, or empty if there was none.
     Without driver faults it succeeds exactly when CanMigrate.
     */
    method Migrate(name: string, fields: seq<string>) returns (outcome: Outcome)
      requires DistinctNames(fields) && forall t :: t in db ==> WellFormed(db[t])
      modifies this
      ensures !outcome.Succeeded? ==> db == old(db)
      ensures outcome.Succeeded? ==> name in db && db == old(db)[name := db[name]]
      ensures outcome.Succeeded? && name !in old(db) ==> db[name] == Table(fields, [])
      ensures outcome.Succeeded? && name in old(db) ==> MigratedTo(old(db)[name], fields, db[name])
      ensures old(faults) == [] ==> outcome == if CanMigrate(old(db), name, fields) then Succeeded else Failed
    {
      var fails := DriverFails();
      if fails { return Failed; }
      tx := db;
      outcome := MigrateInTx(name, fields);
      if outcome.Succeeded? {
        fails := DriverFails();
        if fails { return Failed; }
        db := tx;
      }
    }
  }

  lemma {:induction false} MinusDistinct(a: seq<string>, b: seq<string>)
    requires DistinctNames(a)
    ensures DistinctNames(Minus(a, b))
  {
    if a != [] {
      var n := |a| - 1;
      MinusDistinct(a[..n], b);
      assert a[n] !in a[..n];
    }
  }

  lemma NoneLeft(a: seq<string>, b: seq<string>)
    ensures Minus(a, b) == [] <==> forall x :: x in a ==> x in b
  {
    assert forall x :: x in Minus(a, b) <==> x in a && x !in b;
    assert Minus(a, b) != [] ==> Minus(a, b)[0] in Minus(a, b);
  }

  lemma CarryFewer(t: Table, t': Table, cols: seq<string>, fields: seq<string>)
    requires RowsCarry(t, t', cols) && forall c :: c in fields ==> c in cols
    ensures RowsCarry(t, t', fields)
  {
    forall i | 0 <= i < |t.rows| ensures Carries(t.rows[i], t'.rows[i], fields) {
      assert Carries(t.rows[i], t'.rows[i], cols);
    }
  }

  lemma WidenedIsMigrated(t: Table, fields: seq<string>, t': Table)
    requires WellFormed(t) && Widened(t, Minus(fields, t.cols), t') && Minus(t.cols, fields) == []
    ensures MigratedTo(t, fields, t')
  {
    CarryFewer(t, t', t'.cols, fields);
  }

  lemma WidenedHasFields(t: Table, fields: seq<string>, t': Table)
    requires Widened(t, Minus(fields, t.cols), t')
    ensures forall c :: c in fields ==> c in t'.cols
  {
    forall c | c in fields ensures c in t'.cols {
      assert c in t.cols || c in Minus(fields, t.cols);
    }
  }

  lemma CopiedIsMigrated(t: Table, fields: seq<string>, wide: Table, t': Table)
    requires Widened(t, Minus(fields, t.cols), wide) && Minus(t.cols, fields) != []
    requires WellFormed(t') && t'.cols == fields && |t'.rows| == |wide.rows|
    requires forall i :: 0 <= i < |t'.rows| ==> t'.rows[i] == Project(wide.rows[i], fields)
    ensures MigratedTo(t, fields, t')
  {
    CarryFewer(t, wide, wide.cols, fields);
    forall i | 0 <= i < |t.rows| ensures Carries(t.rows[i], t'.rows[i], fields) {
      assert Carries(t.rows[i], wide.rows[i], fields) && t'.rows[i] == Project(wide.rows[i], fields);
    }
  }

  /** A migrated table has exactly the model's fields as columns, whether or not some were dropped. */
  lemma MigratedColumnsAreFields(t: Table, fields: seq<string>, t': Table)
    requires WellFormed(t) && MigratedTo(t, fields, t')
    ensures forall c :: c in t'.cols <==> c in fields
  {
    NoneLeft(t.cols, fields);
  }

  /** A table whose columns all stay can be migrated; to drop one, there must be fields and no table tmp_<name>. */
  lemma DroppingNeedsTheTmpName(db: Db, name: string, fields: seq<string>)
    requires name in db
    ensures CanMigrate(db, name, fields) <==>
      (forall c :: c in db[name].cols ==> c in fields) || (fields != [] && "tmp_" + name !in db)
  {
    NoneLeft(db[name].cols, fields);
  }

  /** Migrating again to the same fields is possible and changes nothing. */
  lemma MigrationIsStable(db: Db, t: Table, name: string, fields: seq<string>)
    requires name in db && WellFormed(t) && MigratedTo(t, fields, db[name])
    ensures CanMigrate(db, name, fields) && MigratedTo(db[name], fields, db[name])
  {
    MigratedColumnsAreFields(t, fields, db[name]);
    NoneLeft(db[name].cols, fields);
    NoneLeft(fields, db[name].cols);
    var t' := db[name];
    assert t'.cols + [] == t'.cols;
    forall i | 0 <= i < |t'.rows| ensures Carries(t'.rows[i], t'.rows[i], fields) {
      assert Fills(t'.rows[i], t'.cols);
    }
  }
}
