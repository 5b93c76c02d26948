/** How a driver reads a statement: its text with the i-th placeholder standing for the i-th variable. */
module Binding {
  import opened Strings

  /** What a caller binds. */
  datatype Value = Number(n: int) | Text(s: string)

  /** A character of the text, a placeholder's variable, or a placeholder that has none. */
  datatype Token = Char(c: char) | Bound(v: Value) | Unbound

  const MARK := '?'

  function Marks(s: string): nat {
    if s == "" then 0 else (if s[0] == MARK then 1 else 0) + Marks(s[1..])
  }

  function Bind(s: string, vars: seq<Value>): seq<Token> {
    if s == "" then []
    else if s[0] != MARK then [Char(s[0])] + Bind(s[1..], vars)
    else if vars == [] then [Unbound] + Bind(s[1..], vars)
    else [Bound(vars[0])] + Bind(s[1..], vars[1..])
  }

  /** Text without placeholders. */
  function Lit(s: string): (tokens: seq<Token>) { seq(|s|, i requires 0 <= i < |s| => Char(s[i])) }

  predicate Plain(s: string) { MARK !in s }

  /** The i-th placeholder binds the i-th variable, and only the surplus ones are unbound. */
  lemma {:induction false} BindAt(s: string, vars: seq<Value>, p: nat)
    requires p < |s|
    ensures |Bind(s, vars)| == |s|
    ensures Bind(s, vars)[p] ==
      if s[p] != MARK then Char(s[p]) else if Marks(s[..p]) < |vars| then Bound(vars[Marks(s[..p])]) else Unbound
  {
    var rest := if s[0] != MARK || vars == [] then vars else vars[1..];
    BindLength(s[1..], rest);
    if p > 0 {
      BindAt(s[1..], rest, p - 1);
      assert s[..p][1..] == s[1..][..p - 1];
    }
  }

  lemma {:induction false} BindLength(s: string, vars: seq<Value>)
    ensures |Bind(s, vars)| == |s|
  {
    if s != "" {
      BindLength(s[1..], if s[0] != MARK || vars == [] then vars else vars[1..]);
    }
  }

  /** What is read determines the text. */
  lemma {:induction false} BindInjective(s: string, vars: seq<Value>, s': string, vars': seq<Value>)
    requires Bind(s, vars) == Bind(s', vars')
    ensures s == s'
  {
    BindLength(s, vars);
    BindLength(s', vars');
    forall p | 0 <= p < |s| ensures s[p] == s'[p] {
      BindAt(s, vars, p);
      BindAt(s', vars', p);
    }
  }

  lemma {:induction false} MarksConcat(a: string, b: string)
    ensures Marks(a + b) == Marks(a) + Marks(b)
  {
    if a == "" {
      assert a + b == b;
    } else {
      MarksConcat(a[1..], b);
      assert (a + b)[1..] == a[1..] + b;
    }
  }

  lemma {:induction false} PlainIff(s: string)
    ensures Plain(s) <==> Marks(s) == 0
  {
    if s != "" {
      PlainIff(s[1..]);
      assert s == [s[0]] + s[1..];
    }
  }

  lemma {:induction false} BindPlain(s: string)
    requires Plain(s)
    ensures Bind(s, []) == Lit(s)
  {
    if s != "" {
      BindPlain(s[1..]);
      assert Lit(s) == [Char(s[0])] + Lit(s[1..]);
    }
  }

  /** A text whose placeholders its variables fill exactly leaves the next one to itself. */
  lemma {:induction false} BindConcat(a: string, va: seq<Value>, b: string, vb: seq<Value>)
    requires Marks(a) == |va|
    ensures Bind(a + b, va + vb) == Bind(a, va) + Bind(b, vb)
  {
    if a == "" {
      assert a + b == b && va + vb == vb;
    } else {
      assert (a + b)[1..] == a[1..] + b;
      if a[0] != MARK {
        BindConcat(a[1..], va, b, vb);
      } else {
        assert (va + vb)[1..] == va[1..] + vb;
        BindConcat(a[1..], va[1..], b, vb);
      }
    }
  }

  lemma BindAfterPlain(a: string, b: string, vars: seq<Value>)
    requires Plain(a)
    ensures Bind(a + b, vars) == Lit(a) + Bind(b, vars) && Marks(a + b) == Marks(b)
  {
    PlainIff(a);
    BindPlain(a);
    BindConcat(a, [], b, vars);
    MarksConcat(a, b);
    assert [] + vars == vars;
  }

  lemma BindBeforePlain(a: string, vars: seq<Value>, b: string)
    requires Plain(b) && Marks(a) == |vars|
    ensures Bind(a + b, vars) == Bind(a, vars) + Lit(b) && Marks(a + b) == Marks(a)
  {
    PlainIff(b);
    BindPlain(b);
    BindConcat(a, vars, b, []);
    MarksConcat(a, b);
    assert vars + [] == vars;
  }

  lemma BindEnclosed(before: string, s: string, vars: seq<Value>, after: string)
    requires Plain(before) && Plain(after) && Marks(s) == |vars|
    ensures Bind(before + s + after, vars) == Lit(before) + Bind(s, vars) + Lit(after)
    ensures Marks(before + s + after) == |vars|
  {
    BindAfterPlain(before, s, vars);
    BindBeforePlain(before + s, vars, after);
  }

  /** A piece of a statement and its own variables. */
  datatype Fragment = Fragment(sql: string, vars: seq<Value>) {
    predicate Aligned() { Marks(sql) == |vars| }
  }

  function Sqls(fs: seq<Fragment>): seq<string> { seq(|fs|, i requires 0 <= i < |fs| => fs[i].sql) }

  function Vars(fs: seq<Fragment>): seq<Value> { if fs == [] then [] else fs[0].vars + Vars(fs[1..]) }

  function Reads(fs: seq<Fragment>): seq<seq<Token>> {
    seq(|fs|, i requires 0 <= i < |fs| => Bind(fs[i].sql, fs[i].vars))
  }

  /** Aligned pieces joined by plain text are aligned, and each reads as it did on its own. */
  lemma {:induction false} BindJoin(fs: seq<Fragment>, sep: string)
    requires Plain(sep) && forall i :: 0 <= i < |fs| ==> fs[i].Aligned()
    ensures Marks(Join(Sqls(fs), sep)) == |Vars(fs)|
    ensures Bind(Join(Sqls(fs), sep), Vars(fs)) == Join(Reads(fs), Lit(sep))
  {
    if |fs| == 1 {
      assert fs[0].vars + [] == fs[0].vars;
    } else if |fs| > 1 {
      BindJoin(fs[1..], sep);
      var first, text := fs[0], Join(Sqls(fs[1..]), sep);
      assert Sqls(fs)[1..] == Sqls(fs[1..]) && Reads(fs)[1..] == Reads(fs[1..]);
      BindAfterPlain(sep, text, Vars(fs[1..]));
      BindConcat(first.sql, first.vars, sep + text, Vars(fs[1..]));
      MarksConcat(first.sql, sep + text);
      assert first.sql + sep + text == first.sql + (sep + text);
    }
  }

  /** The placeholders of all texts together. */
  function AllMarks(list: seq<string>): nat { if list == [] then 0 else Marks(list[0]) + AllMarks(list[1..]) }

  lemma {:induction false} MarksJoin(list: seq<string>, sep: string)
    requires Plain(sep)
    ensures Marks(Join(list, sep)) == AllMarks(list)
  {
    if |list| > 1 {
      MarksJoin(list[1..], sep);
      var text := Join(list[1..], sep);
      PlainIff(sep);
      MarksConcat(list[0] + sep, text);
      MarksConcat(list[0], sep);
    }
  }

  predicate AllPlain(list: seq<string>) { forall s :: s in list ==> Plain(s) }

  lemma PlainConcat(a: string, b: string, c: string)
    ensures Plain(a + b + c) <==> Plain(a) && Plain(b) && Plain(c)
  {
  }

  lemma {:induction false} JoinPlainIff(list: seq<string>, sep: string)
    requires Plain(sep)
    ensures Plain(Join(list, sep)) <==> AllPlain(list)
  {
    if list != [] {
      JoinPlainIff(list[1..], sep);
      assert list == [list[0]] + list[1..];
      assert AllPlain(list) <==> Plain(list[0]) && AllPlain(list[1..]);
      if |list| > 1 { PlainConcat(list[0], sep, Join(list[1..], sep)); }
    }
  }

  lemma {:induction false} VarsSnoc(fs: seq<Fragment>, last: Fragment)
    ensures Vars(fs + [last]) == Vars(fs) + last.vars
  {
    if fs == [] {
      assert last.vars + [] == last.vars;
    } else {
      assert (fs + [last])[1..] == fs[1..] + [last];
      VarsSnoc(fs[1..], last);
    }
  }

  /** Join, one more at the end. */
  lemma {:induction false} JoinSnoc<T>(list: seq<seq<T>>, last: seq<T>, sep: seq<T>)
    ensures Join(list + [last], sep) == if list == [] then last else Join(list, sep) + sep + last
  {
    if |list| > 0 {
      assert (list + [last])[1..] == list[1..] + [last];
      JoinSnoc(list[1..], last, sep);
    }
  }
}
