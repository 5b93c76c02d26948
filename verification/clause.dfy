/** The clause builder: clauses set in any order, built in the order asked for. */
module ClauseBuilder {
  import opened Wrappers
  import opened Strings
  import opened Binding
  import opened Generator

  /** The clause of this kind that was set last. */
  function LastSet(sets: seq<Clause>, kind: Kind): (last: Option<Clause>) {
    if sets == [] then None
    else if sets[|sets| - 1].Kind() == kind then Some(sets[|sets| - 1])
    else LastSet(sets[..|sets| - 1], kind)
  }

  /** The clauses that a statement built in this order is made of. */
  function Present(sets: seq<Clause>, orders: seq<Kind>): seq<Clause> {
    if orders == [] then []
    else
      var last := LastSet(sets, orders[|orders| - 1]);
      Present(sets, orders[..|orders| - 1]) + if last.Some? then [last.value] else []
  }

  ghost predicate GeneratesAll(clauses: seq<Clause>, fs: seq<Fragment>) {
    |fs| == |clauses| && forall i :: 0 <= i < |fs| ==> Generates(clauses[i], fs[i])
  }

  /** The tokens say what the clauses mean, one after the other. */
  ghost predicate MeansAll(clauses: seq<Clause>, tokens: seq<Token>) {
    exists parts: seq<seq<Token>> :: |parts| == |clauses| && tokens == Join(parts, Lit(" ")) &&
      forall i :: 0 <= i < |parts| ==> Means(clauses[i], parts[i])
  }

  /** What Build gives for these clauses. */
  ghost predicate Built(clauses: seq<Clause>, text: string, vars: seq<Value>) {
    exists fs :: GeneratesAll(clauses, fs) && text == Join(Sqls(fs), " ") && vars == Vars(fs)
  }

  /** `c` is the clause of its kind that was set last. */
  ghost predicate SetLast(sets: seq<Clause>, c: Clause) {
    exists p :: 0 <= p < |sets| && sets[p] == c && forall k :: p < k < |sets| ==> sets[k].Kind() != c.Kind()
  }

  predicate IsSet(sets: seq<Clause>, kind: Kind) { exists c :: c in sets && c.Kind() == kind }

  /**
   The clauses stand in the order asked for: clause i is the one that was set
   last for the kind at position at[i] of `orders`, the positions go up, and
   none is left out whose kind was set.
   */
  ghost predicate InOrder(sets: seq<Clause>, orders: seq<Kind>, clauses: seq<Clause>, at: seq<nat>) {
    && |at| == |clauses|
    && (forall i, j :: 0 <= i < j < |at| ==> at[i] < at[j])
    && (forall i :: 0 <= i < |at| ==>
          at[i] < |orders| && clauses[i].Kind() == orders[at[i]] && SetLast(sets, clauses[i]))
    && (forall k :: 0 <= k < |orders| && IsSet(sets, orders[k]) ==> k in at)
  }

  lemma {:induction false} LastSetIsSetLast(sets: seq<Clause>, kind: Kind)
    ensures LastSet(sets, kind).Some? <==> IsSet(sets, kind)
    ensures LastSet(sets, kind).Some? ==>
      LastSet(sets, kind).value.Kind() == kind && SetLast(sets, LastSet(sets, kind).value)
  {
    if sets != [] {
      var n := |sets| - 1;
      var before := sets[..n];
      assert sets == before + [sets[n]];
      if sets[n].Kind() == kind {
        assert sets[n] in sets;
      } else {
        LastSetIsSetLast(before, kind);
        assert IsSet(sets, kind) <==> IsSet(before, kind);
        if LastSet(before, kind).Some? {
          var c := LastSet(before, kind).value;
          var p :| 0 <= p < n && before[p] == c && forall k :: p < k < n ==> before[k].Kind() != c.Kind();
          assert sets[p] == c;
        }
      }
    }
  }

  /** Present keeps to the order asked for. */
  lemma {:induction false} PresentInOrder(sets: seq<Clause>, orders: seq<Kind>) returns (at: seq<nat>)
    ensures InOrder(sets, orders, Present(sets, orders), at)
  {
    if orders == [] {
      at := [];
    } else {
      var n := |orders| - 1;
      at := PresentInOrder(sets, orders[..n]);
      at := OneMoreInOrder(sets, orders[..n], orders[n], at);
      assert orders == orders[..n] + [orders[n]];
    }
  }

  lemma OneMoreInOrder(sets: seq<Clause>, orders: seq<Kind>, kind: Kind, at: seq<nat>) returns (at': seq<nat>)
    requires InOrder(sets, orders, Present(sets, orders), at)
    ensures InOrder(sets, orders + [kind], Present(sets, orders + [kind]), at')
  {
    var clauses := Present(sets, orders);
    assert (orders + [kind])[..|orders|] == orders;
    LastSetIsSetLast(sets, kind);
    if LastSet(sets, kind).Some? {
      var c := LastSet(sets, kind).value;
      at' := at + [|orders|];
      assert Present(sets, orders + [kind]) == clauses + [c];
      InOrderWith(sets, orders, kind, clauses, at, c);
    } else {
      at' := at;
      assert Present(sets, orders + [kind]) == clauses;
      InOrderWithout(sets, orders, kind, clauses, at);
    }
  }

  lemma InOrderWithout(sets: seq<Clause>, orders: seq<Kind>, kind: Kind, clauses: seq<Clause>, at: seq<nat>)
    requires InOrder(sets, orders, clauses, at) && !IsSet(sets, kind)
    ensures InOrder(sets, orders + [kind], clauses, at)
  {
  }

  lemma InOrderWith(
    sets: seq<Clause>, orders: seq<Kind>, kind: Kind, clauses: seq<Clause>, at: seq<nat>, c: Clause)
    requires InOrder(sets, orders, clauses, at) && c.Kind() == kind && SetLast(sets, c)
    ensures InOrder(sets, orders + [kind], clauses + [c], at + [|orders|])
  {
    var orders', at' := orders + [kind], at + [|orders|];
    forall k | 0 <= k < |orders'| && IsSet(sets, orders'[k]) ensures k in at' {
      if k < |orders| { assert k in at; } else { assert at'[|at|] == k; }
    }
  }

  /** What may be built from the clauses that were set, in the order asked for. */
  ghost predicate BuiltInOrder(sets: seq<Clause>, orders: seq<Kind>, text: string, vars: seq<Value>) {
    exists clauses, at :: InOrder(sets, orders, clauses, at) && Built(clauses, text, vars)
  }

  /** `Clause` of the source; a map that is not made yet reads as an empty one. */
  class Builder {
    var sql: map<Kind, string>
    var sqlVars: map<Kind, seq<Value>>
    /** Every clause that was set. */
    ghost var sets: seq<Clause>

    ghost predicate Holds(kind: Kind)
      reads this
    {
      match LastSet(sets, kind)
      case None => kind !in sql
      case Some(c) => kind in sql && kind in sqlVars && Generates(c, Fragment(sql[kind], sqlVars[kind]))
    }

    ghost predicate Valid()
      reads this
    {
      forall kind: Kind :: Holds(kind)
    }

    constructor ()
      ensures Valid() && sets == []
    {
      sql, sqlVars, sets := map[], map[], [];
    }

    method Set(c: Clause)
      requires Valid()
      modifies this
      ensures Valid() && sets == old(sets) + [c]
      ensures exists f ::
        Generates(c, f) && sql == old(sql)[c.Kind() := f.sql] && sqlVars == old(sqlVars)[c.Kind() := f.vars]
    {
      var f := Generate(c);
      sql, sqlVars := sql[c.Kind() := f.sql], sqlVars[c.Kind() := f.vars];
      sets := sets + [c];
      forall kind: Kind ensures Holds(kind) {
        assert old(Holds(kind));
        assert sets[..|sets| - 1] == old(sets);
      }
    }

    /**
     The text and variables of the clauses set last, in the order asked for;
     if each of them is tidy, the i-th placeholder has the i-th variable and
     the whole reads as the clauses mean.
     */
    method Build(orders: seq<Kind>) returns (text: string, vars: seq<Value>)
      requires Valid()
      ensures Built(Present(sets, orders), text, vars)
      ensures BuiltInOrder(sets, orders, text, vars)
      ensures (forall c :: c in Present(sets, orders) ==> Tidy(c)) ==>
        Marks(text) == |vars| && MeansAll(Present(sets, orders), Bind(text, vars))
    {
      var sqls: seq<string> := [];
      vars := [];
      ghost var fs: seq<Fragment> := [];
      var k := 0;
      while k < |orders|
        invariant 0 <= k <= |orders|
        invariant GeneratesAll(Present(sets, orders[..k]), fs) && sqls == Sqls(fs) && vars == Vars(fs)
      {
        assert orders[..k + 1][..k] == orders[..k];
        assert Holds(orders[k]);
        if orders[k] in sql {
          ghost var last := Fragment(sql[orders[k]], sqlVars[orders[k]]);
          OneMoreGenerated(Present(sets, orders[..k]), fs, LastSet(sets, orders[k]).value, last);
          fs := fs + [last];
          sqls := sqls + [sql[orders[k]]];
          vars := vars + sqlVars[orders[k]];
        }
        k := k + 1;
      }
      assert orders[..k] == orders;
      text := Join(sqls, " ");
      ghost var at := PresentInOrder(sets, orders);
      if forall c :: c in Present(sets, orders) ==> Tidy(c) { BuiltReads(Present(sets, orders), text, vars); }
    }
  }

  lemma OneMoreGenerated(clauses: seq<Clause>, fs: seq<Fragment>, c: Clause, f: Fragment)
    requires GeneratesAll(clauses, fs) && Generates(c, f)
    ensures GeneratesAll(clauses + [c], fs + [f])
    ensures Sqls(fs + [f]) == Sqls(fs) + [f.sql] && Vars(fs + [f]) == Vars(fs) + f.vars
  {
    VarsSnoc(fs, f);
  }

  /** Tidy clauses build a statement whose placeholders and variables correspond one to one, clause by clause. */
  lemma BuiltReads(clauses: seq<Clause>, text: string, vars: seq<Value>)
    requires Built(clauses, text, vars) && forall c :: c in clauses ==> Tidy(c)
    ensures Marks(text) == |vars| && MeansAll(clauses, Bind(text, vars))
  {
    var fs: seq<Fragment> :| GeneratesAll(clauses, fs) && text == Join(Sqls(fs), " ") && vars == Vars(fs);
    forall i | 0 <= i < |fs| ensures fs[i].Aligned() && Means(clauses[i], Reads(fs)[i]) {
      assert clauses[i] in clauses;
      FragmentReadsIff(clauses[i], fs[i]);
    }
    BindJoin(fs, " ");
  }

  /** The repository's own example of a statement. */
  lemma SelectExample(sets: seq<Clause>, text: string, vars: seq<Value>)
    requires sets ==
      [LimitTo([Number(3)]), SelectFrom("User", ["*"]), Where("Name = ?", [Text("Tom")]), OrderBy("Age ASC")]
    requires Built(Present(sets, [SELECT, WHERE, ORDERBY, LIMIT]), text, vars)
    ensures text == "SELECT * FROM User" + " " + "WHERE Name = ?" + " " + "ORDER BY Age ASC" + " " + "LIMIT ?"
    ensures vars == [Text("Tom"), Number(3)]
  {
    var limit, select, cond, order := sets[0], sets[1], sets[2], sets[3];
    LastOfFour(limit, select, cond, order);
    PresentOfFour(sets, select, cond, order, limit);
    BuiltExample([select, cond, order, limit], text, vars);
  }

  lemma BuiltExample(clauses: seq<Clause>, text: string, vars: seq<Value>)
    requires clauses ==
      [SelectFrom("User", ["*"]), Where("Name = ?", [Text("Tom")]), OrderBy("Age ASC"), LimitTo([Number(3)])]
    requires Built(clauses, text, vars)
    ensures text == "SELECT * FROM User" + " " + "WHERE Name = ?" + " " + "ORDER BY Age ASC" + " " + "LIMIT ?"
    ensures vars == [Text("Tom"), Number(3)]
  {
    var fs: seq<Fragment> :| GeneratesAll(clauses, fs) && text == Join(Sqls(fs), " ") && vars == Vars(fs);
    ExampleFragments(fs);
    JoinOfFour(fs[0], fs[1], fs[2], fs[3]);
  }

  lemma ExampleFragments(fs: seq<Fragment>)
    requires GeneratesAll(
      [SelectFrom("User", ["*"]), Where("Name = ?", [Text("Tom")]), OrderBy("Age ASC"), LimitTo([Number(3)])], fs)
    ensures fs == [fs[0], fs[1], fs[2], fs[3]]
    ensures fs[0] == Fragment("SELECT * FROM User", []) && fs[1] == Fragment("WHERE Name = ?", [Text("Tom")])
    ensures fs[2] == Fragment("ORDER BY Age ASC", []) && fs[3] == Fragment("LIMIT ?", [Number(3)])
  {
    ExampleTexts();
  }

  lemma ExampleTexts()
    ensures SelectFragment("User", ["*"]).sql == "SELECT * FROM User"
    ensures "WHERE " + "Name = ?" == "WHERE Name = ?" && "ORDER BY " + "Age ASC" == "ORDER BY Age ASC"
  {
    assert Join(["*"], ",") == "*";
  }

  lemma LastSetSnoc(sets: seq<Clause>, c: Clause, kind: Kind)
    ensures LastSet(sets + [c], kind) == if c.Kind() == kind then Some(c) else LastSet(sets, kind)
  {
    assert (sets + [c])[..|sets|] == sets;
  }

  lemma LastOfFour(a: Clause, b: Clause, c: Clause, d: Clause)
    requires a.Kind() != b.Kind() && a.Kind() != c.Kind() && a.Kind() != d.Kind()
    requires b.Kind() != c.Kind() && b.Kind() != d.Kind() && c.Kind() != d.Kind()
    ensures forall x :: x in [a, b, c, d] ==> LastSet([a, b, c, d], x.Kind()) == Some(x)
  {
    assert [a, b, c, d] == [] + [a] + [b] + [c] + [d];
    forall x | x in [a, b, c, d] ensures LastSet([a, b, c, d], x.Kind()) == Some(x) {
      LastSetSnoc([], a, x.Kind());
      LastSetSnoc([] + [a], b, x.Kind());
      LastSetSnoc([] + [a] + [b], c, x.Kind());
      LastSetSnoc([] + [a] + [b] + [c], d, x.Kind());
    }
  }

  lemma PresentSnoc(sets: seq<Clause>, orders: seq<Kind>, c: Clause)
    requires LastSet(sets, c.Kind()) == Some(c)
    ensures Present(sets, orders + [c.Kind()]) == Present(sets, orders) + [c]
  {
    assert (orders + [c.Kind()])[..|orders|] == orders;
  }

  lemma PresentOfFour(sets: seq<Clause>, a: Clause, b: Clause, c: Clause, d: Clause)
    requires forall x :: x in [a, b, c, d] ==> LastSet(sets, x.Kind()) == Some(x)
    ensures Present(sets, [a.Kind(), b.Kind(), c.Kind(), d.Kind()]) == [a, b, c, d]
  {
    PresentSnoc(sets, [], a);
    PresentSnoc(sets, [] + [a.Kind()], b);
    PresentSnoc(sets, [] + [a.Kind()] + [b.Kind()], c);
    PresentSnoc(sets, [] + [a.Kind()] + [b.Kind()] + [c.Kind()], d);
    assert [a.Kind(), b.Kind(), c.Kind(), d.Kind()] == [] + [a.Kind()] + [b.Kind()] + [c.Kind()] + [d.Kind()];
    assert [a, b, c, d] == [] + [a] + [b] + [c] + [d];
  }

  lemma JoinOfFour(a: Fragment, b: Fragment, c: Fragment, d: Fragment)
    ensures Join(Sqls([a, b, c, d]), " ") == a.sql + " " + b.sql + " " + c.sql + " " + d.sql
    ensures Vars([a, b, c, d]) == a.vars + b.vars + c.vars + d.vars
  {
    assert [a, b, c, d] == [a] + [b] + [c] + [d];
    VarsSnoc([a], b);
    VarsSnoc([a] + [b], c);
    VarsSnoc([a] + [b] + [c], d);
    assert Sqls([a, b, c, d]) == [a.sql] + [b.sql] + [c.sql] + [d.sql];
    JoinSnoc([a.sql], b.sql, " ");
    JoinSnoc([a.sql] + [b.sql], c.sql, " ");
    JoinSnoc([a.sql] + [b.sql] + [c.sql], d.sql, " ");
  }

  lemma {:induction false} LastSetAfter(before: seq<Clause>, after: seq<Clause>, kind: Kind)
    ensures LastSet(before + after, kind) ==
      if LastSet(after, kind).Some? then LastSet(after, kind) else LastSet(before, kind)
  {
    if after == [] {
      assert before + after == before;
    } else {
      var n := |after| - 1;
      assert (before + after)[..|before| + n] == before + after[..n];
      LastSetAfter(before, after[..n], kind);
    }
  }

  lemma {:induction false} SamePresent(sets: seq<Clause>, sets': seq<Clause>, orders: seq<Kind>)
    requires forall kind: Kind :: LastSet(sets, kind) == LastSet(sets', kind)
    ensures Present(sets, orders) == Present(sets', orders)
  {
    if orders != [] { SamePresent(sets, sets', orders[..|orders| - 1]); }
  }

  /** Setting clauses of two different kinds the other way round changes no statement, whatever else is set. */
  lemma SetsCommute(before: seq<Clause>, a: Clause, b: Clause, after: seq<Clause>, orders: seq<Kind>)
    requires a.Kind() != b.Kind()
    ensures Present(before + [a, b] + after, orders) == Present(before + [b, a] + after, orders)
  {
    forall kind: Kind ensures LastSet(before + [a, b] + after, kind) == LastSet(before + [b, a] + after, kind) {
      LastSetAfter(before + [a, b], after, kind);
      LastSetAfter(before + [b, a], after, kind);
      LastSetAfter(before, [a, b], kind);
      LastSetAfter(before, [b, a], kind);
      assert [a, b][..1] == [a] && [b, a][..1] == [b] && [a][..0] == [] && [b][..0] == [];
    }
    SamePresent(before + [a, b] + after, before + [b, a] + after, orders);
  }
}
