/** The generators of SQL clauses, each a text and the variables for its placeholders. */
module Generator {
  import opened Binding
  import opened Strings

  datatype Kind = INSERT | VALUES | SELECT | LIMIT | WHERE | ORDERBY | UPDATE | DELETE | COUNT

  /** A clause as it is asked for. */
  datatype Clause =
    | InsertInto(table: string, fields: seq<string>)
    | ValuesOf(rows: seq<seq<Value>>)
    | SelectFrom(table: string, fields: seq<string>)
    | LimitTo(values: seq<Value>)
    | Where(desc: string, args: seq<Value>)
    | OrderBy(desc: string)
    | UpdateSet(table: string, kv: map<string, Value>)
    | DeleteFrom(table: string)
    | CountOf(table: string)
  {
    function Kind(): Kind {
      match this
      case InsertInto(_, _) => INSERT
      case ValuesOf(_) => VALUES
      case SelectFrom(_, _) => SELECT
      case LimitTo(_) => LIMIT
      case Where(_, _) => WHERE
      case OrderBy(_) => ORDERBY
      case UpdateSet(_, _) => UPDATE
      case DeleteFrom(_) => DELETE
      case CountOf(_) => COUNT
    }
  }

  // ---------------------------------------------------------------- the generators

  function BindVars(num: nat): string { Join(seq(num, _ => "?"), ", ") }

  /** `genBindVars` */
  method GenBindVars(num: nat) returns (s: string)
    ensures s == BindVars(num)
  {
    var vars: seq<string> := [];
    while |vars| < num
      invariant |vars| <= num && vars == seq(|vars|, _ => "?")
    {
      vars := vars + ["?"];
    }
    s := Join(vars, ", ");
  }

  /** The width that the row's placeholders are written for: that of the first row with any values. */
  function BindWidth(rows: seq<seq<Value>>): nat {
    if rows == [] then 0 else if rows[0] != [] then |rows[0]| else BindWidth(rows[1..])
  }

  function RowText(width: nat): string { "(" + BindVars(width) + ")" }

  /** Each row's variables with the placeholders written for it. */
  function RowFragments(rows: seq<seq<Value>>): (fs: seq<Fragment>) {
    seq(|rows|, i requires 0 <= i < |rows| => Fragment(RowText(BindWidth(rows[..i + 1])), rows[i]))
  }

  function ValuesFragment(rows: seq<seq<Value>>): Fragment {
    Fragment(RowsText(rows), Vars(RowFragments(rows)))
  }

  lemma {:induction false} BindWidthSnoc(rows: seq<seq<Value>>, row: seq<Value>)
    ensures BindWidth(rows + [row]) == if BindWidth(rows) == 0 then |row| else BindWidth(rows)
  {
    if rows != [] {
      assert (rows + [row])[1..] == rows[1..] + [row];
      BindWidthSnoc(rows[1..], row);
    }
  }

  lemma BindVarsLength(num: nat)
    ensures |BindVars(num)| == if num == 0 then 0 else 3 * num - 2
    ensures ')' !in BindVars(num)
  {
    if num > 1 {
      BindVarsLength(num - 1);
      assert seq(num, _ => "?")[1..] == seq(num - 1, _ => "?");
      assert BindVars(num) == "?" + ", " + BindVars(num - 1);
    }
  }

  function RowsText(rows: seq<seq<Value>>): string { "VALUES " + Join(Sqls(RowFragments(rows)), ", ") }

  lemma RowFragmentsSnoc(rows: seq<seq<Value>>, row: seq<Value>)
    ensures RowFragments(rows + [row]) == RowFragments(rows) + [Fragment(RowText(BindWidth(rows + [row])), row)]
  {
    var all := rows + [row];
    forall i | 0 <= i < |rows| ensures RowFragments(all)[i] == RowFragments(rows)[i] {
      assert all[..i + 1] == rows[..i + 1];
    }
    assert all[..|all|] == all;
  }

  lemma RowsTextSnoc(rows: seq<seq<Value>>, row: seq<Value>)
    ensures RowsText(rows + [row]) ==
      RowsText(rows) + (if rows == [] then "" else ", ") + RowText(BindWidth(rows + [row]))
  {
    var fs, last := RowFragments(rows), Fragment(RowText(BindWidth(rows + [row])), row);
    RowFragmentsSnoc(rows, row);
    TextSnoc(fs, last, ", ");
  }

  lemma TextSnoc(fs: seq<Fragment>, last: Fragment, sep: string)
    ensures "VALUES " + Join(Sqls(fs + [last]), sep) ==
      "VALUES " + Join(Sqls(fs), sep) + (if fs == [] then "" else sep) + last.sql
  {
    assert Sqls(fs + [last]) == Sqls(fs) + [last.sql];
    JoinSnoc(Sqls(fs), last.sql, sep);
  }

  /** The loop of `_values`, one row further. */
  lemma OneMoreRow(rows: seq<seq<Value>>, row: seq<Value>)
    ensures BindVars(BindWidth(rows + [row])) ==
      if BindVars(BindWidth(rows)) == "" then BindVars(|row|) else BindVars(BindWidth(rows))
    ensures Vars(RowFragments(rows + [row])) == Vars(RowFragments(rows)) + row
    ensures RowsText(rows + [row]) ==
      RowsText(rows) + (if rows == [] then "" else ", ") + RowText(BindWidth(rows + [row]))
  {
    BindVarsLength(BindWidth(rows));
    BindWidthSnoc(rows, row);
    var fs, last := RowFragments(rows), Fragment(RowText(BindWidth(rows + [row])), row);
    RowFragmentsSnoc(rows, row);
    VarsSnoc(fs, last);
    RowsTextSnoc(rows, row);
  }

  /** `_values` */
  method GenValues(values: seq<seq<Value>>) returns (f: Fragment)
    ensures f == ValuesFragment(values)
  {
    var bindStr := "";
    var sql := "VALUES ";
    var vars: seq<Value> := [];
    var i := 0;
    while i < |values|
      invariant 0 <= i <= |values|
      invariant Written(values[..i], bindStr, sql, vars, 0 < i < |values|)
    {
      bindStr, sql, vars := WriteRow(values[..i], values[i], bindStr, sql, vars);
      assert values[..i + 1] == values[..i] + [values[i]];
      i := i + 1;
      if i != |values| { sql := sql + ", "; }
    }
    assert values[..i] == values;
    f := Fragment(sql, vars);
  }

  /** What the loop of `_values` has after these rows, with a separator at the end if another row follows. */
  ghost predicate Written(rows: seq<seq<Value>>, bindStr: string, sql: string, vars: seq<Value>, more: bool) {
    && bindStr == BindVars(BindWidth(rows))
    && sql == RowsText(rows) + (if more then ", " else "")
    && vars == Vars(RowFragments(rows))
  }

  /** The body of that loop, but for the separator. */
  method WriteRow(ghost rows: seq<seq<Value>>, v: seq<Value>, bindStr: string, sql: string, vars: seq<Value>)
    returns (bindStr': string, sql': string, vars': seq<Value>)
    requires Written(rows, bindStr, sql, vars, rows != [])
    ensures Written(rows + [v], bindStr', sql', vars', false)
  {
    OneMoreRow(rows, v);
    bindStr' := bindStr;
    if bindStr == "" { bindStr' := GenBindVars(|v|); }
    sql' := sql + ("(" + bindStr' + ")");
    vars' := vars + v;
  }

  ghost predicate Enumerates(keys: seq<string>, kv: map<string, Value>) {
    (forall i, j :: 0 <= i < j < |keys| ==> keys[i] != keys[j]) && forall k :: k in keys <==> k in kv
  }

  /** One assignment of an UPDATE. */
  function AssignFragments(kv: map<string, Value>, keys: seq<string>): seq<Fragment>
    requires forall k :: k in keys ==> k in kv
  {
    seq(|keys|, i requires 0 <= i < |keys| => Fragment(keys[i] + " = ?", [kv[keys[i]]]))
  }

  function UpdateFragment(table: string, kv: map<string, Value>, keys: seq<string>): Fragment
    requires forall k :: k in keys ==> k in kv
  {
    var fs := AssignFragments(kv, keys);
    Fragment("UPDATE " + table + " SET " + Join(Sqls(fs), ", "), Vars(fs))
  }

  /** `_update`; the map gives its entries in any order. */
  method GenUpdate(table: string, kv: map<string, Value>) returns (f: Fragment)
    ensures exists order :: Enumerates(order, kv) && f == UpdateFragment(table, kv, order)
  {
    var keys: seq<string>, vars: seq<Value> := [], [];
    var rest := kv.Keys;
    ghost var order: seq<string> := [];
    while rest != {}
      invariant rest <= kv.Keys
      invariant forall k :: k in kv ==> (k in order <==> k !in rest)
      invariant (forall k :: k in order ==> k in kv) && forall i, j :: 0 <= i < j < |order| ==> order[i] != order[j]
      invariant keys == Sqls(AssignFragments(kv, order)) && vars == Vars(AssignFragments(kv, order))
      decreases rest
    {
      var key :| key in rest;
      ghost var fs, last := AssignFragments(kv, order), Fragment(key + " = ?", [kv[key]]);
      assert AssignFragments(kv, order + [key]) == fs + [last];
      VarsSnoc(fs, last);
      assert Sqls(fs + [last]) == Sqls(fs) + [last.sql];
      keys, vars := keys + [key + " = ?"], vars + [kv[key]];
      order, rest := order + [key], rest - {key};
    }
    f := Fragment("UPDATE " + table + " SET " + Join(keys, ", "), vars);
    assert Enumerates(order, kv) && f == UpdateFragment(table, kv, order);
  }

  function InsertFragment(table: string, fields: seq<string>): Fragment {
    Fragment("INSERT INTO " + table + " (" + Join(fields, ", ") + ")", [])
  }

  const COUNT_ALL := "count(*)"

  function SelectFragment(table: string, fields: seq<string>): Fragment {
    Fragment("SELECT " + Join(fields, ",") + " FROM " + table, [])
  }

  /** What a generator may give: all but UPDATE are determined. */
  ghost predicate Generates(c: Clause, f: Fragment) {
    match c
    case InsertInto(table, fields) => f == InsertFragment(table, fields)
    case ValuesOf(rows) => f == ValuesFragment(rows)
    case SelectFrom(table, fields) => f == SelectFragment(table, fields)
    case LimitTo(values) => f == Fragment("LIMIT ?", values)
    case Where(desc, args) => f == Fragment("WHERE " + desc, args)
    case OrderBy(desc) => f == Fragment("ORDER BY " + desc, [])
    case UpdateSet(table, kv) => exists order :: Enumerates(order, kv) && f == UpdateFragment(table, kv, order)
    case DeleteFrom(table) => f == Fragment("DELETE FROM " + table, [])
    case CountOf(table) => f == SelectFragment(table, [COUNT_ALL])
  }

  /** `generators[name](vars...)` */
  method Generate(c: Clause) returns (f: Fragment)
    ensures Generates(c, f)
  {
    match c
    case InsertInto(table, fields) => f := InsertFragment(table, fields);
    case ValuesOf(rows) => f := GenValues(rows);
    case SelectFrom(table, fields) => f := SelectFragment(table, fields);
    case LimitTo(values) => f := Fragment("LIMIT ?", values);
    case Where(desc, args) => f := Fragment("WHERE " + desc, args);
    case OrderBy(desc) => f := Fragment("ORDER BY " + desc, []);
    case UpdateSet(table, kv) => f := GenUpdate(table, kv);
    case DeleteFrom(table) => f := Fragment("DELETE FROM " + table, []);
    case CountOf(table) => f := SelectFragment(table, [COUNT_ALL]);
  }

  /** How the clauses of each kind begin in SQL. */
  function Keyword(kind: Kind): string {
    match kind
    case INSERT => "INSERT INTO "
    case VALUES => "VALUES "
    case SELECT => "SELECT "
    case LIMIT => "LIMIT "
    case WHERE => "WHERE "
    case ORDERBY => "ORDER BY "
    case UPDATE => "UPDATE "
    case DELETE => "DELETE FROM "
    case COUNT => "SELECT count(*) FROM "
  }

  /** Each clause is kept under the kind whose keyword its text begins with. */
  lemma KeywordFirst(c: Clause, f: Fragment)
    requires Generates(c, f)
    ensures Keyword(c.Kind()) <= f.sql
  {
    if c.CountOf? {
      assert Join([COUNT_ALL], ",") == COUNT_ALL;
      CountKeyword();
    } else if c.LimitTo? {
      assert "LIMIT " + "?" == "LIMIT ?";
    }
  }

  lemma CountKeyword()
    ensures "SELECT " + COUNT_ALL + " FROM " == "SELECT count(*) FROM "
  {
  }

  // ---------------------------------------------------------------- examples

  lemma NamesExample()
    ensures InsertFragment("User", ["Name", "Age"]).sql == "INSERT INTO User (Name, Age)"
    ensures SelectFragment("User", ["Name", "Age"]).sql == "SELECT Name,Age FROM User"
  {
    assert ["Name", "Age"][1..] == ["Age"];
    assert Join(["Name", "Age"], ", ") == "Name" + ", " + "Age";
    assert Join(["Name", "Age"], ",") == "Name" + "," + "Age";
  }

  /** Two rows of two values each. */
  lemma ValuesExample(a: Value, b: Value, c: Value, d: Value)
    ensures ValuesFragment([[a, b], [c, d]]).sql == "VALUES " + ("(?, ?)" + ", " + "(?, ?)")
    ensures ValuesFragment([[a, b], [c, d]]).vars == [a, b, c, d]
  {
    var rows := [[a, b], [c, d]];
    TwoMarks();
    assert rows[..1] == [[a, b]] && rows[..2] == rows;
    var f, g := Fragment("(?, ?)", [a, b]), Fragment("(?, ?)", [c, d]);
    assert RowFragments(rows) == [f] + [g];
    VarsSnoc([f], g);
    assert Sqls([f] + [g]) == [f.sql] + [g.sql];
    JoinSnoc([f.sql], g.sql, ", ");
  }

  lemma TwoMarks()
    ensures RowText(2) == "(?, ?)"
  {
    assert seq(2, _ => "?") == ["?"] + ["?"];
    JoinSnoc(["?"], "?", ", ");
  }

  lemma UpdateExample(v: Value)
    ensures UpdateFragment("User", map["Age" := v], ["Age"]).sql == "UPDATE User SET " + "Age = ?"
    ensures UpdateFragment("User", map["Age" := v], ["Age"]).vars == [v]
  {
    var fs := AssignFragments(map["Age" := v], ["Age"]);
    assert fs == [Fragment("Age" + " = ?", [v])];
    assert Join(Sqls(fs), ", ") == Sqls(fs)[0] == "Age" + " = ?" == "Age = ?";
    assert "UPDATE " + "User" + " SET " == "UPDATE User SET ";
    assert fs[1..] == [] && Vars(fs) == [v] + Vars(fs[1..]);
  }

  // ---------------------------------------------------------------- what a clause means

  function RowTokens(row: seq<Value>): seq<Token> {
    Lit("(") + Join(seq(|row|, i requires 0 <= i < |row| => [Bound(row[i])]), Lit(", ")) + Lit(")")
  }

  function ValuesTokens(rows: seq<seq<Value>>): seq<Token> {
    Lit("VALUES ") + Join(seq(|rows|, i requires 0 <= i < |rows| => RowTokens(rows[i])), Lit(", "))
  }

  function UpdateTokens(table: string, kv: map<string, Value>, keys: seq<string>): seq<Token>
    requires forall k :: k in keys ==> k in kv
  {
    Lit("UPDATE " + table + " SET ")
    + Join(seq(|keys|, i requires 0 <= i < |keys| => Lit(keys[i] + " = ") + [Bound(kv[keys[i]])]), Lit(", "))
  }

  /** The tokens say what the clause asks for, each value in its place. */
  ghost predicate Means(c: Clause, tokens: seq<Token>) {
    match c
    case InsertInto(table, fields) => tokens == Lit("INSERT INTO " + table + " (" + Join(fields, ", ") + ")")
    case ValuesOf(rows) => tokens == ValuesTokens(rows)
    case SelectFrom(table, fields) => tokens == Lit("SELECT " + Join(fields, ",") + " FROM " + table)
    case LimitTo(values) => |values| == 1 && tokens == Lit("LIMIT ") + [Bound(values[0])]
    case Where(desc, args) => Marks(desc) == |args| && tokens == Lit("WHERE ") + Bind(desc, args)
    case OrderBy(desc) => tokens == Lit("ORDER BY " + desc)
    case UpdateSet(table, kv) => exists order :: Enumerates(order, kv) && tokens == UpdateTokens(table, kv, order)
    case DeleteFrom(table) => tokens == Lit("DELETE FROM " + table)
    case CountOf(table) => tokens == Lit("SELECT " + COUNT_ALL + " FROM " + table)
  }

  /** No row is of another width than a row with values before it. */
  predicate EqualWidth(rows: seq<seq<Value>>) {
    forall i, j :: 0 <= i <= j < |rows| && rows[i] != [] ==> |rows[j]| == |rows[i]|
  }

  /** What a caller must see to: plain names, one placeholder per argument of a condition, one limit, equal rows. */
  predicate Tidy(c: Clause) {
    match c
    case InsertInto(table, fields) => Plain(table) && AllPlain(fields)
    case ValuesOf(rows) => EqualWidth(rows)
    case SelectFrom(table, fields) => Plain(table) && AllPlain(fields)
    case LimitTo(values) => |values| == 1
    case Where(desc, args) => Marks(desc) == |args|
    case OrderBy(desc) => Plain(desc)
    case UpdateSet(table, kv) => Plain(table) && forall k :: k in kv ==> Plain(k)
    case DeleteFrom(table) => Plain(table)
    case CountOf(table) => Plain(table)
  }

  ghost predicate ReadsAs(c: Clause, f: Fragment) { f.Aligned() && Means(c, Bind(f.sql, f.vars)) }

  // ---------------------------------------------------------------- VALUES

  function CellFragments(row: seq<Value>): seq<Fragment> {
    seq(|row|, i requires 0 <= i < |row| => Fragment("?", [row[i]]))
  }

  lemma {:induction false} CellVars(row: seq<Value>)
    ensures Vars(CellFragments(row)) == row
  {
    if row != [] {
      CellVars(row[1..]);
      assert CellFragments(row)[1..] == CellFragments(row[1..]);
    }
  }

  lemma CellsRead(row: seq<Value>)
    ensures Marks(BindVars(|row|)) == |row|
    ensures Bind(BindVars(|row|), row) == Join(seq(|row|, i requires 0 <= i < |row| => [Bound(row[i])]), Lit(", "))
  {
    var fs := CellFragments(row);
    CellVars(row);
    assert Sqls(fs) == seq(|row|, _ => "?");
    forall i | 0 <= i < |row| ensures fs[i].Aligned() && Reads(fs)[i] == [Bound(row[i])] { MarkReads(row[i]); }
    assert Reads(fs) == seq(|row|, i requires 0 <= i < |row| => [Bound(row[i])]);
    BindJoin(fs, ", ");
  }

  lemma MarkReads(v: Value)
    ensures Marks("?") == 1 && Bind("?", [v]) == [Bound(v)]
  {
  }

  /** A row's own placeholders take its values. */
  lemma RowReads(row: seq<Value>)
    ensures Marks(RowText(|row|)) == |row| && Bind(RowText(|row|), row) == RowTokens(row)
  {
    CellsRead(row);
    BindEnclosed("(", BindVars(|row|), row, ")");
  }

  /** The text of a VALUES clause with placeholders for rows of these widths. */
  function RowTexts(widths: seq<nat>): seq<string> {
    seq(|widths|, i requires 0 <= i < |widths| => RowText(widths[i]))
  }

  function Widths(rows: seq<seq<Value>>): seq<nat> { seq(|rows|, i requires 0 <= i < |rows| => |rows[i]|) }

  function BindWidths(rows: seq<seq<Value>>): seq<nat> {
    seq(|rows|, i requires 0 <= i < |rows| => BindWidth(rows[..i + 1]))
  }

  /** Were the placeholders written for each row's own width, the clause would read row by row. */
  lemma OwnWidthsRead(rows: seq<seq<Value>>)
    ensures var text := "VALUES " + Join(RowTexts(Widths(rows)), ", ");
      Marks(text) == |Vars(RowFragments(rows))| && Bind(text, Vars(RowFragments(rows))) == ValuesTokens(rows)
  {
    var vars := Vars(RowFragments(rows));
    OwnRowsRead(rows, vars);
    BindAfterPlain("VALUES ", Join(RowTexts(Widths(rows)), ", "), vars);
  }

  lemma OwnRowsRead(rows: seq<seq<Value>>, vars: seq<Value>)
    requires vars == Vars(RowFragments(rows))
    ensures
      var text := Join(RowTexts(Widths(rows)), ", ");
      Marks(text) == |vars| &&
      Bind(text, vars) == Join(seq(|rows|, i requires 0 <= i < |rows| => RowTokens(rows[i])), Lit(", "))
  {
    var fs := seq(|rows|, i requires 0 <= i < |rows| => Fragment(RowText(|rows[i]|), rows[i]));
    OwnRowsAligned(rows, fs);
    BindJoin(fs, ", ");
    SameVars(fs, RowFragments(rows));
  }

  lemma OwnRowsAligned(rows: seq<seq<Value>>, fs: seq<Fragment>)
    requires fs == seq(|rows|, i requires 0 <= i < |rows| => Fragment(RowText(|rows[i]|), rows[i]))
    ensures forall i :: 0 <= i < |fs| ==> fs[i].Aligned()
    ensures Sqls(fs) == RowTexts(Widths(rows))
    ensures Reads(fs) == seq(|rows|, i requires 0 <= i < |rows| => RowTokens(rows[i]))
  {
    forall i | 0 <= i < |rows| ensures fs[i].Aligned() && Reads(fs)[i] == RowTokens(rows[i]) { RowReads(rows[i]); }
  }

  lemma {:induction false} SameVars(fs: seq<Fragment>, gs: seq<Fragment>)
    requires |fs| == |gs| && forall i :: 0 <= i < |fs| ==> fs[i].vars == gs[i].vars
    ensures Vars(fs) == Vars(gs)
  {
    if fs != [] { SameVars(fs[1..], gs[1..]); }
  }

  /** The widths can be read off the text. */
  lemma {:induction false} WidthsFromText(us: seq<nat>, ws: seq<nat>)
    requires |us| == |ws| && Join(RowTexts(us), ", ") == Join(RowTexts(ws), ", ")
    ensures us == ws
  {
    if us != [] {
      var a, b := RowTexts(us), RowTexts(ws);
      var s := Join(a, ", ");
      assert s[..|a[0]|] == a[0] && s[..|b[0]|] == b[0];
      SameFirstWidth(s, us[0], ws[0]);
      assert a[1..] == RowTexts(us[1..]) && b[1..] == RowTexts(ws[1..]);
      if |us| > 1 {
        assert Join(a[1..], ", ") == s[|a[0]| + 2..] && Join(b[1..], ", ") == s[|b[0]| + 2..];
        WidthsFromText(us[1..], ws[1..]);
      }
      assert us == [us[0]] + us[1..] && ws == [ws[0]] + ws[1..];
    }
  }

  lemma SameFirstWidth(s: string, u: nat, w: nat)
    requires RowText(u) <= s && RowText(w) <= s
    ensures u == w
  {
    ClosingBracket(u);
    ClosingBracket(w);
    var m, n := |RowText(u)|, |RowText(w)|;
    assert s[..m - 1] == RowText(u)[..m - 1] && s[..n - 1] == RowText(w)[..n - 1];
    assert s[m - 1] == ')' && s[n - 1] == ')';
    assert m == n;
  }

  /** A row's text ends at its first closing bracket, and its length tells the width. */
  lemma ClosingBracket(width: nat)
    ensures
      var s := RowText(width);
      |s| == (if width == 0 then 2 else 3 * width) && s[|s| - 1] == ')' && ')' !in s[..|s| - 1]
  {
    BindVarsLength(width);
    var s := RowText(width);
    assert s[..|s| - 1] == "(" + BindVars(width);
  }

  lemma {:induction false} BindWidthIsFirst(rows: seq<seq<Value>>)
    ensures BindWidth(rows) == 0 <==> forall i :: 0 <= i < |rows| ==> rows[i] == []
    ensures BindWidth(rows) != 0 ==>
      exists i :: 0 <= i < |rows| && |rows[i]| == BindWidth(rows) && forall k :: 0 <= k < i ==> rows[k] == []
  {
    if rows != [] && rows[0] == [] {
      BindWidthIsFirst(rows[1..]);
      if BindWidth(rows) != 0 {
        var i :|
          && 0 <= i < |rows[1..]| && |rows[1..][i]| == BindWidth(rows[1..])
          && forall k :: 0 <= k < i ==> rows[1..][k] == [];
        assert |rows[i + 1]| == BindWidth(rows) && forall k :: 0 <= k < i + 1 ==> k == 0 || rows[k] == rows[1..][k - 1];
      } else {
        assert forall i :: 0 < i < |rows| ==> rows[i] == rows[1..][i - 1];
      }
    }
  }

  lemma EqualWidthIff(rows: seq<seq<Value>>)
    ensures EqualWidth(rows) <==> BindWidths(rows) == Widths(rows)
  {
    var us, ws := BindWidths(rows), Widths(rows);
    if us == ws {
      forall i, j | 0 <= i <= j < |rows| && rows[i] != [] ensures |rows[j]| == |rows[i]| {
        assert us[i] == ws[i] && us[j] == ws[j];
        WidthStays(rows, i, j);
      }
    }
    if EqualWidth(rows) {
      forall j | 0 <= j < |rows| ensures us[j] == ws[j] { WidthIsOwn(rows, j); }
    }
  }

  lemma WidthIsOwn(rows: seq<seq<Value>>, j: nat)
    requires EqualWidth(rows) && j < |rows|
    ensures BindWidth(rows[..j + 1]) == |rows[j]|
  {
    var upTo := rows[..j + 1];
    BindWidthIsFirst(upTo);
    assert upTo[j] == rows[j];
    if BindWidth(upTo) != 0 {
      var i :| 0 <= i < |upTo| && |upTo[i]| == BindWidth(upTo) && forall k :: 0 <= k < i ==> upTo[k] == [];
      assert rows[i] != [];
    }
  }

  lemma {:induction false} WidthStays(rows: seq<seq<Value>>, i: nat, j: nat)
    requires i <= j < |rows| && BindWidth(rows[..i + 1]) != 0
    ensures BindWidth(rows[..j + 1]) == BindWidth(rows[..i + 1])
  {
    if i < j {
      WidthStays(rows, i, j - 1);
      BindWidthSnoc(rows[..j], rows[j]);
      assert rows[..j + 1] == rows[..j] + [rows[j]];
    }
  }

  /** A VALUES clause reads row by row exactly when the rows are alike. */
  lemma ValuesReadIff(rows: seq<seq<Value>>)
    ensures ReadsAs(ValuesOf(rows), ValuesFragment(rows)) <==> EqualWidth(rows)
  {
    var f, text := ValuesFragment(rows), "VALUES " + Join(RowTexts(Widths(rows)), ", ");
    assert Sqls(RowFragments(rows)) == RowTexts(BindWidths(rows));
    OwnWidthsRead(rows);
    EqualWidthIff(rows);
    if Bind(f.sql, f.vars) == ValuesTokens(rows) {
      BindInjective(f.sql, f.vars, text, f.vars);
      assert f.sql[7..] == Join(RowTexts(BindWidths(rows)), ", ") && text[7..] == Join(RowTexts(Widths(rows)), ", ");
      WidthsFromText(BindWidths(rows), Widths(rows));
    }
  }

  // ---------------------------------------------------------------- UPDATE

  lemma AssignReads(key: string, v: Value)
    ensures Marks(key + " = ?") == Marks(key) + 1
    ensures Plain(key) ==> Bind(key + " = ?", [v]) == Lit(key + " = ") + [Bound(v)]
  {
    assert key + " = " + "?" == key + " = ?";
    MarkReads(v);
    PlainIff(" = ");
    MarksConcat(key, " = ");
    MarksConcat(key + " = ", "?");
    if Plain(key) { BindAfterPlain(key + " = ", "?", [v]); }
  }

  lemma {:induction false} AssignMarks(kv: map<string, Value>, keys: seq<string>)
    requires forall k :: k in keys ==> k in kv
    ensures var fs := AssignFragments(kv, keys);
      AllMarks(Sqls(fs)) >= |Vars(fs)| && (AllMarks(Sqls(fs)) == |Vars(fs)| <==> AllPlain(keys))
  {
    if keys != [] {
      AssignMarks(kv, keys[1..]);
      var fs := AssignFragments(kv, keys);
      assert fs[1..] == AssignFragments(kv, keys[1..]);
      assert Sqls(fs)[1..] == Sqls(fs[1..]);
      AssignReads(keys[0], kv[keys[0]]);
      PlainIff(keys[0]);
      assert keys == [keys[0]] + keys[1..];
    }
  }

  lemma UpdateReads(table: string, kv: map<string, Value>, keys: seq<string>)
    requires (forall k :: k in keys ==> k in kv) && Plain(table) && AllPlain(keys)
    ensures
      var f := UpdateFragment(table, kv, keys);
      f.Aligned() && Bind(f.sql, f.vars) == UpdateTokens(table, kv, keys)
  {
    var fs := AssignFragments(kv, keys);
    var tokens := seq(|keys|, i requires 0 <= i < |keys| => Lit(keys[i] + " = ") + [Bound(kv[keys[i]])]);
    forall i | 0 <= i < |keys| ensures fs[i].Aligned() && Reads(fs)[i] == tokens[i] {
      AssignReads(keys[i], kv[keys[i]]);
      PlainIff(keys[i]);
    }
    assert Reads(fs) == tokens;
    BindJoin(fs, ", ");
    BindAfterPlain("UPDATE " + table + " SET ", Join(Sqls(fs), ", "), Vars(fs));
  }

  /** An UPDATE assigns each key its own value, in whatever order the map gives them, if and only if names are plain. */
  lemma UpdateReadIff(table: string, kv: map<string, Value>, order: seq<string>)
    requires Enumerates(order, kv)
    ensures ReadsAs(UpdateSet(table, kv), UpdateFragment(table, kv, order)) <==> Tidy(UpdateSet(table, kv))
  {
    var f, head := UpdateFragment(table, kv, order), "UPDATE " + table + " SET ";
    var fs := AssignFragments(kv, order);
    AssignMarks(kv, order);
    MarksJoin(Sqls(fs), ", ");
    MarksConcat(head, Join(Sqls(fs), ", "));
    PlainIff(head);
    assert Plain(head) <==> Plain(table);
    if Plain(table) && AllPlain(order) { UpdateReads(table, kv, order); }
  }

  // ---------------------------------------------------------------- the others

  lemma FixedReadsIff(sql: string)
    ensures Fragment(sql, []).Aligned() <==> Plain(sql)
    ensures Plain(sql) ==> Bind(sql, []) == Lit(sql)
  {
    PlainIff(sql);
    if Plain(sql) { BindPlain(sql); }
  }

  lemma InsertReadsIff(table: string, fields: seq<string>)
    ensures ReadsAs(InsertInto(table, fields), InsertFragment(table, fields)) <==> Tidy(InsertInto(table, fields))
  {
    FixedReadsIff(InsertFragment(table, fields).sql);
    JoinPlainIff(fields, ", ");
  }

  lemma SelectReadsIff(table: string, fields: seq<string>)
    ensures ReadsAs(SelectFrom(table, fields), SelectFragment(table, fields)) <==> Tidy(SelectFrom(table, fields))
  {
    FixedReadsIff(SelectFragment(table, fields).sql);
    JoinPlainIff(fields, ",");
  }

  lemma CountReadsIff(table: string)
    ensures ReadsAs(CountOf(table), SelectFragment(table, [COUNT_ALL])) <==> Tidy(CountOf(table))
  {
    FixedReadsIff(SelectFragment(table, [COUNT_ALL]).sql);
    PlainConcat("SELECT " + COUNT_ALL, " FROM ", table);
  }

  lemma WhereReadsIff(desc: string, args: seq<Value>)
    ensures ReadsAs(Where(desc, args), Fragment("WHERE " + desc, args)) <==> Tidy(Where(desc, args))
  {
    BindAfterPlain("WHERE ", desc, args);
  }

  lemma LimitReadsIff(values: seq<Value>)
    ensures ReadsAs(LimitTo(values), Fragment("LIMIT ?", values)) <==> Tidy(LimitTo(values))
  {
    assert "LIMIT " + "?" == "LIMIT ?";
    BindAfterPlain("LIMIT ", "?", values);
    if |values| == 1 {
      MarkReads(values[0]);
      assert values == [values[0]];
    }
  }

  /** Whatever a generator gives for a clause, it reads as the clause means exactly when the caller saw to it. */
  lemma FragmentReadsIff(c: Clause, f: Fragment)
    requires Generates(c, f)
    ensures ReadsAs(c, f) <==> Tidy(c)
  {
    match c
    case InsertInto(table, fields) => InsertReadsIff(table, fields);
    case ValuesOf(rows) => ValuesReadIff(rows);
    case SelectFrom(table, fields) => SelectReadsIff(table, fields);
    case LimitTo(values) => LimitReadsIff(values);
    case Where(desc, args) => WhereReadsIff(desc, args);
    case OrderBy(desc) => FixedReadsIff("ORDER BY " + desc);
    case UpdateSet(table, kv) =>
      var order :| Enumerates(order, kv) && f == UpdateFragment(table, kv, order);
      UpdateReadIff(table, kv, order);
    case DeleteFrom(table) => FixedReadsIff("DELETE FROM " + table);
    case CountOf(table) => CountReadsIff(table);
  }
}
