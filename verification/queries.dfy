/** The `Query` builder of grace/model.py over the in-memory table. A query
    names its model class and the engine `get_engine` returned when it was
    built, and accumulates WHERE conditions, ORDER BY columns and the LIMIT
    and OFFSET; the terminal operations read the class's table. */
module Queries {
  import opened Errors
  import opened Registry
  import opened Tables
  import Ordering

  /** A WHERE condition, evaluated on one row. */
  type Condition = Record -> bool

  /** An ORDER BY column: the value a row is ordered by. */
  type Column = Record -> int

  datatype Query = Query(model: string, engine: Engine, conditions: seq<Condition>,
                         columns: seq<Column>, limit: Option<nat>, offset: Option<nat>)

  /** `Query(model_class)`: ask the class for its engine, which fails when
      none is set, and start from an unrestricted SELECT. */
  function NewQuery(b: Bindings, model: string): (r: Result<Query>)
    ensures r.Ok? <==> GetEngine(b, model).Ok?
    ensures r.Err? ==> r.error == RuntimeError(NoSessionMessage(model))
    ensures r.Ok? ==> r.value.model == model && r.value.engine == Lookup(b, model).value
    ensures r.Ok? ==> r.value.conditions == [] && r.value.columns == []
    ensures r.Ok? ==> r.value.limit.None? && r.value.offset.None?
  {
    var engine :- GetEngine(b, model);
    Ok(Query(model, engine, [], [], None, None))
  }

  /** `where(*conditions)`: the conditions join those already given. */
  function Where(q: Query, conds: seq<Condition>): (r: Query)
    ensures r.conditions == q.conditions + conds
    ensures r.(conditions := q.conditions) == q
  {
    q.(conditions := q.conditions + conds)
  }

  /** `limit(count)`: a later limit replaces an earlier one. */
  function Limit(q: Query, count: nat): (r: Query)
    ensures r.limit == Some(count)
    ensures r.(limit := q.limit) == q
  {
    q.(limit := Some(count))
  }

  /** `offset(count)`: a later offset replaces an earlier one. */
  function Offset(q: Query, count: nat): (r: Query)
    ensures r.offset == Some(count)
    ensures r.(offset := q.offset) == q
  {
    q.(offset := Some(count))
  }

  /** `order_by(*columns)`: the columns follow those already given, as
      lower-priority keys. */
  function OrderBy(q: Query, cols: seq<Column>): (r: Query)
    ensures r.columns == q.columns + cols
    ensures r.(columns := q.columns) == q
  {
    q.(columns := q.columns + cols)
  }

  /** The row meets every condition. */
  predicate Satisfies(r: Record, conds: seq<Condition>) {
    forall i :: 0 <= i < |conds| ==> conds[i](r)
  }

  /** The rows meeting every condition, in scan order. */
  function Filter(rs: seq<Record>, conds: seq<Condition>): (f: seq<Record>)
    ensures forall x :: x in f <==> x in rs && Satisfies(x, conds)
    ensures multiset(f) <= multiset(rs)
  {
    if |rs| == 0 then []
    else
      assert rs == [rs[0]] + rs[1..];
      (if Satisfies(rs[0], conds) then [rs[0]] else []) + Filter(rs[1..], conds)
  }

  /** Number of rows meeting every condition: what `count()` computes over
      the subquery before the window is applied. */
  function CountMatching(rs: seq<Record>, conds: seq<Condition>): nat {
    if |rs| == 0 then 0
    else (if Satisfies(rs[0], conds) then 1 else 0) + CountMatching(rs[1..], conds)
  }

  lemma {:induction false} FilterCount(rs: seq<Record>, conds: seq<Condition>)
    ensures |Filter(rs, conds)| == CountMatching(rs, conds)
  {
    if |rs| > 0 {
      FilterCount(rs[1..], conds);
    }
  }

  /** A row's ORDER BY key vector. */
  function KeyOf(cols: seq<Column>, r: Record): (k: seq<int>)
    ensures |k| == |cols|
    ensures forall i :: 0 <= i < |cols| ==> k[i] == cols[i](r)
  {
    seq(|cols|, i requires 0 <= i < |cols| => cols[i](r))
  }

  function Key(cols: seq<Column>): Record -> seq<int> {
    r => KeyOf(cols, r)
  }

  /** The matching rows in ORDER BY order, before OFFSET and LIMIT. */
  function Ordered(q: Query, t: Table): (rs: seq<Record>)
    requires Valid(t)
    ensures multiset(rs) == multiset(Filter(Rows(t), q.conditions))
    ensures |rs| == |Filter(Rows(t), q.conditions)|
    ensures forall x :: x in rs <==> x in Rows(t) && Satisfies(x, q.conditions)
    ensures Ordering.SortedBy(rs, Key(q.columns))
  {
    Ordering.SortBy(Filter(Rows(t), q.conditions), Key(q.columns))
  }

  /** How many rows OFFSET skips out of n. */
  function Skipped(offset: Option<nat>, n: nat): (k: nat)
    ensures k <= n
  {
    match offset
    case None => 0
    case Some(o) => if o < n then o else n
  }

  /** How many rows remain out of n after OFFSET and LIMIT. */
  function Kept(offset: Option<nat>, limit: Option<nat>, n: nat): (m: nat)
    ensures Skipped(offset, n) + m <= n
  {
    var rest := n - Skipped(offset, n);
    match limit
    case None => rest
    case Some(l) => if l < rest then l else rest
  }

  /** OFFSET then LIMIT: the window of s that starts after the skipped
      elements and holds at most the limit. */
  function Window<T>(s: seq<T>, offset: Option<nat>, limit: Option<nat>): (w: seq<T>)
    ensures |w| == Kept(offset, limit, |s|)
    ensures forall i :: 0 <= i < |w| ==> w[i] == s[Skipped(offset, |s|) + i]
    ensures w == s[Skipped(offset, |s|)..Skipped(offset, |s|) + |w|]
    ensures forall x :: x in w ==> x in s
  {
    var k := Skipped(offset, |s|);
    s[k..k + Kept(offset, limit, |s|)]
  }

  /** `all()`: filter, order, skip the offset, take the limit. Every row
      returned is stored and meets every condition, and the rows come in
      ORDER BY order. */
  function All(q: Query, t: Table): (rs: seq<Record>)
    requires Valid(t)
    ensures forall x :: x in rs ==> x in Rows(t) && Satisfies(x, q.conditions)
    ensures Ordering.SortedBy(rs, Key(q.columns))
    ensures |rs| == Kept(q.offset, q.limit, |Filter(Rows(t), q.conditions)|)
  {
    Window(Ordered(q, t), q.offset, q.limit)
  }

  /** `count()`: the number of rows of the query's own statement, taken as
      a subquery, so it is the number `all()` returns, window included. */
  function Count(q: Query, t: Table): (n: nat)
    requires Valid(t)
    ensures n == |All(q, t)|
  {
    FilterCount(Rows(t), q.conditions);
    Kept(q.offset, q.limit, CountMatching(Rows(t), q.conditions))
  }

  /** `first()`: the first row `all()` would return, or None; never an
      error. */
  function First(q: Query, t: Table): (r: Option<Record>)
    requires Valid(t)
    ensures r.None? <==> |All(q, t)| == 0
    ensures r.Some? ==> r.value == All(q, t)[0]
  {
    var rs := All(q, t);
    if |rs| == 0 then None else Some(rs[0])
  }

  /** `one()`: the row when exactly one is returned; NoResultFound when
      none is, MultipleResultsFound when several are. */
  function One(q: Query, t: Table): (r: Result<Record>)
    requires Valid(t)
    ensures r.Ok? <==> Count(q, t) == 1
    ensures r.Ok? ==> Some(r.value) == First(q, t)
    ensures r == Err(NoResultFound) <==> Count(q, t) == 0
    ensures r == Err(MultipleResultsFound) <==> Count(q, t) > 1
  {
    var rs := All(q, t);
    if |rs| == 0 then Err(NoResultFound)
    else if |rs| == 1 then Ok(rs[0])
    else Err(MultipleResultsFound)
  }

  /** Without OFFSET and LIMIT, a row is returned exactly when it is stored
      and meets every condition given across all `where` calls. */
  lemma AllMembership(q: Query, t: Table, x: Record)
    requires Valid(t) && q.offset.None? && q.limit.None?
    ensures x in All(q, t) <==> x in Rows(t) && Satisfies(x, q.conditions)
  {
    var o := Ordered(q, t);
    assert All(q, t) == o;
    if x in Rows(t) && Satisfies(x, q.conditions) {
      assert x in multiset(Filter(Rows(t), q.conditions));
      assert x in multiset(o);
    }
  }

  /** Filtering depends only on which rows the conditions accept. */
  lemma {:induction false} FilterExtensional(rs: seq<Record>, c1: seq<Condition>, c2: seq<Condition>)
    requires forall x :: Satisfies(x, c1) == Satisfies(x, c2)
    ensures Filter(rs, c1) == Filter(rs, c2)
  {
    if |rs| > 0 {
      FilterExtensional(rs[1..], c1, c2);
    }
  }

  /** `where(a).where(b)` is `where(a, b)`. */
  lemma WhereComposes(q: Query, a: seq<Condition>, b: seq<Condition>)
    ensures Where(Where(q, a), b) == Where(q, a + b)
  {
    assert q.conditions + a + b == q.conditions + (a + b);
  }

  /** The order of `where` calls does not change the rows returned. */
  lemma WhereCommutes(q: Query, t: Table, a: seq<Condition>, b: seq<Condition>)
    requires Valid(t)
    ensures All(Where(Where(q, a), b), t) == All(Where(Where(q, b), a), t)
  {
    var c1, c2 := q.conditions + a + b, q.conditions + b + a;
    forall x ensures Satisfies(x, c1) == Satisfies(x, c2) {
      if Satisfies(x, c1) {
        forall i | 0 <= i < |c2| ensures c2[i](x) {
          if i < |q.conditions| { assert c2[i] == c1[i]; }
          else if i < |q.conditions| + |b| { assert c2[i] == c1[i + |a|]; }
          else { assert c2[i] == c1[i - |b|]; }
        }
      }
      if Satisfies(x, c2) {
        forall i | 0 <= i < |c1| ensures c1[i](x) {
          if i < |q.conditions| { assert c1[i] == c2[i]; }
          else if i < |q.conditions| + |a| { assert c1[i] == c2[i + |b|]; }
          else { assert c1[i] == c2[i - |a|]; }
        }
      }
    }
    FilterExtensional(Rows(t), c1, c2);
  }

  /** With `offset(k)` and `limit(n)`, `all()` is the stretch of the
      ordered matching rows that starts at position k and holds at most n of
      them, as the slice `[k:k + n]` would give: n of them when that many
      follow position k, and none when k is past the end. */
  lemma OffsetLimitSlices(q: Query, t: Table, k: nat, n: nat)
    requires Valid(t) && q.offset == Some(k) && q.limit == Some(n)
    ensures var o := Ordered(q, t);
      All(q, t) == o[Clamp(k, |o|)..Clamp(k + n, |o|)]
  {
    WindowOfOffsetLimit(Ordered(q, t), k, n);
  }

  /** An index cut down to a length, as slicing does. */
  function Clamp(i: nat, len: nat): (c: nat)
    ensures c <= len && c <= i
    ensures i <= len ==> c == i
  {
    if i <= len then i else len
  }

  /** The window of OFFSET k and LIMIT n over s, as a slice. */
  lemma WindowOfOffsetLimit<T>(s: seq<T>, k: nat, n: nat)
    ensures Window(s, Some(k), Some(n)) == s[Clamp(k, |s|)..Clamp(k + n, |s|)]
  {
    assert Skipped(Some(k), |s|) == Clamp(k, |s|);
  }

  /** Without an offset, `first()` is a matching row whose key is least
      among all matching rows, and it is None only when no row matches (or
      the limit is zero). */
  lemma FirstIsLeast(q: Query, t: Table, x: Record)
    requires Valid(t) && q.offset.None?
    requires x in Rows(t) && Satisfies(x, q.conditions)
    ensures q.limit != Some(0) ==> First(q, t).Some?
    ensures First(q, t).Some? ==> Ordering.LexLeq(KeyOf(q.columns, First(q, t).value), KeyOf(q.columns, x))
  {
    var o := Ordered(q, t);
    assert x in multiset(Filter(Rows(t), q.conditions));
    assert x in multiset(o);
    var j :| 0 <= j < |o| && o[j] == x;
    if First(q, t).Some? {
      assert First(q, t).value == o[0];
      if j > 0 {
        assert Ordering.LexLeq(Key(q.columns)(o[0]), Key(q.columns)(o[j]));
      } else {
        Ordering.LexTotal(KeyOf(q.columns, x), KeyOf(q.columns, x));
      }
    }
  }

  /** Without OFFSET and LIMIT, `one()` succeeds exactly when one stored
      row meets the conditions, and then returns it. */
  lemma OneIffUnique(q: Query, t: Table, x: Record)
    requires Valid(t) && q.offset.None? && q.limit.None?
    ensures One(q, t).Ok? <==> CountMatching(Rows(t), q.conditions) == 1
    ensures One(q, t) == Ok(x) <==> Filter(Rows(t), q.conditions) == [x]
  {
    var f := Filter(Rows(t), q.conditions);
    var o := Ordered(q, t);
    FilterCount(Rows(t), q.conditions);
    assert |o| == |f| by { assert |multiset(o)| == |multiset(f)|; }
    if |f| == 1 {
      assert multiset(o) == multiset{f[0]} by { assert f == [f[0]]; }
      assert o == [o[0]];
      assert o[0] in multiset(o);
    }
  }
}
