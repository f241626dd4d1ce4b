/** The active-record facade of grace/model.py: class-level `create`,
    `find`, `find_by`, `where`, `all`, `first` and `count`, and the instance
    methods `save`, `update` and `delete`, as functions from the state of
    the databases to a new state and a result. Each engine has its own
    database, which holds one table per model class. */
module ActiveRecord {
  import opened Errors
  import opened Registry
  import opened Tables
  import opened Queries

  /** A declared column other than `id`: the value an instance gets when
      the column is not passed, None for a field declared without a default,
      and whether the column is NOT NULL, as it is for every field whose type
      is not `Optional`. */
  datatype ColumnSpec = ColumnSpec(default: Option<Value>, notNull: bool)

  /** A model class: its name and its declared columns other than `id`. */
  datatype ModelClass = ModelClass(name: string, columns: map<string, ColumnSpec>)

  /** The value of a column that was not passed: its default, and NULL for
      a field without one, since table models skip validation. */
  function Default(m: ModelClass, c: string): Value
    requires c in m.columns
  {
    match m.columns[c].default
    case None => Null
    case Some(v) => v
  }

  /** Every NOT NULL column of the class holds a value in fields. */
  predicate NotNullHeld(m: ModelClass, fields: Fields) {
    forall c :: c in m.columns && m.columns[c].notNull ==> c in fields && fields[c] != Null
  }

  /** The class methods grace/model.py defines. `getattr(cls, key)` finds
      them, so `find_by` on such a key compares a method with a value. */
  const MethodNames: set<string> := {"set_engine", "get_engine", "create", "where", "all",
    "first", "find", "find_by", "count", "save", "delete", "update"}

  predicate IsColumn(m: ModelClass, key: string) {
    key == "id" || key in m.columns
  }

  /** `getattr(cls, key, None) is not None`, for the attributes the model
      knows of: the columns and the methods. */
  predicate HasAttribute(m: ModelClass, key: string) {
    IsColumn(m, key) || key in MethodNames
  }

  type Database = map<string, Table>

  datatype World = World(bindings: Bindings, databases: map<Engine, Database>)

  predicate WorldValid(w: World) {
    forall e, c :: e in w.databases && c in w.databases[e] ==> Valid(w.databases[e][c])
  }

  /** The table of class cls in the database of engine e; a table nothing
      was written to is empty. */
  function TableOf(w: World, e: Engine, cls: string): (t: Table)
    requires WorldValid(w)
    ensures Valid(t)
  {
    if e in w.databases && cls in w.databases[e] then w.databases[e][cls] else Empty
  }

  /** Replace the table of class cls in the database of engine e. */
  function PutTable(w: World, e: Engine, cls: string, t: Table): (r: World)
    requires WorldValid(w) && Valid(t)
    ensures WorldValid(r)
    ensures r.bindings == w.bindings
    ensures TableOf(r, e, cls) == t
    ensures forall e2, c2 :: (e2, c2) != (e, cls) ==> TableOf(r, e2, c2) == TableOf(w, e2, c2)
  {
    var db := if e in w.databases then w.databases[e] else map[];
    w.(databases := w.databases[e := db[cls := t]])
  }

  /** `cls.set_engine(engine)`. */
  function SetEngine(w: World, m: ModelClass, engine: Engine): (r: World)
    ensures r.databases == w.databases
    ensures GetEngine(r.bindings, m.name) == Ok(engine)
  {
    w.(bindings := Registry.SetEngine(w.bindings, m.name, Some(engine)))
  }

  /** The table of class m in the database of its engine. */
  function ClassTable(w: World, m: ModelClass): (t: Table)
    requires WorldValid(w) && GetEngine(w.bindings, m.name).Ok?
    ensures Valid(t)
  {
    TableOf(w, GetEngine(w.bindings, m.name).value, m.name)
  }

  /** The instance as it stands after a commit, and the state of the
      databases then. */
  datatype Committed = Committed(world: World, record: Record)

  /** The message of the InvalidRequestError `session.add` raises for an
      instance whose own `delete` removed its row. */
  const HasBeenDeleted :=
    "Instance has been deleted. Use the make_transient() function to send this object back to the transient state."

  /** The INSERT of a new instance would repeat a stored key. */
  predicate KeyTaken(t: Table, rec: Record) {
    rec.New? && rec.id.Some? && rec.id.value in t.rows
  }

  /** The UPDATE of a stored instance would match no row. */
  predicate RowGone(t: Table, rec: Record) {
    rec.Stored? && rec.key !in t.rows
  }

  /** `instance.save()`: `session.add`, `commit`, `refresh`. `session.add`
      refuses an instance its own `delete` removed. The flush binds the key
      and the values, and the driver refuses an integer beyond 64 bits. A
      new instance is INSERTed, under the key it was given or else under the
      next key; a key already stored, or NULL in a NOT NULL column, violates
      a constraint. A stored instance is UPDATEd in its row; a row deleted
      meanwhile matches nothing, and otherwise NULL in a NOT NULL column
      violates that constraint. The refreshed, now stored instance is
      returned. */
  function Save(w: World, m: ModelClass, rec: Record): (r: Result<Committed>)
    requires WorldValid(w)
    ensures GetEngine(w.bindings, m.name).Err? ==> r == Err(RuntimeError(NoSessionMessage(m.name)))
    ensures GetEngine(w.bindings, m.name).Ok? ==>
      (r == Err(InvalidRequestError(HasBeenDeleted)) <==> rec.Deleted?)
    ensures GetEngine(w.bindings, m.name).Ok? ==>
      (r == Err(OverflowError) <==> !rec.Deleted? && !BindsAll(rec))
    ensures GetEngine(w.bindings, m.name).Ok? ==>
      (r == Err(StaleDataError) <==> BindsAll(rec) && RowGone(ClassTable(w, m), rec))
    ensures GetEngine(w.bindings, m.name).Ok? ==>
      (r == Err(IntegrityError) <==>
        && !rec.Deleted? && BindsAll(rec) && !RowGone(ClassTable(w, m), rec)
        && (KeyTaken(ClassTable(w, m), rec) || !NotNullHeld(m, rec.fields)))
    ensures r.Err? ==> r.error in {RuntimeError(NoSessionMessage(m.name)), InvalidRequestError(HasBeenDeleted),
                                   OverflowError, StaleDataError, IntegrityError}
    ensures r.Ok? ==> WorldValid(r.value.world) && r.value.world.bindings == w.bindings
    ensures r.Ok? ==> r.value.record.Stored? && r.value.record.fields == rec.fields
    ensures r.Ok? ==> NotNullHeld(m, r.value.record.fields)
    ensures r.Ok? && Id(rec).Some? ==> r.value.record.key == Id(rec).value
    ensures r.Ok? && Id(rec).None? ==>
      var t, k := ClassTable(w, m), r.value.record.key;
      && (forall j :: j in t.rows ==> j < k)
      && (t.rows == map[] ==> k == 1)
      && (t.rows != map[] ==> k - 1 in t.rows)
    ensures r.Ok? ==> ClassTable(r.value.world, m).rows == ClassTable(w, m).rows[r.value.record.key := rec.fields]
    ensures r.Ok? ==> forall e, c :: (e, c) != (GetEngine(w.bindings, m.name).value, m.name) ==>
      TableOf(r.value.world, e, c) == TableOf(w, e, c)
  {
    var engine :- GetEngine(w.bindings, m.name);
    var t := TableOf(w, engine, m.name);
    match rec
    case Deleted(_, _) => Err(InvalidRequestError(HasBeenDeleted))
    case New(id, fields) =>
      if !BindsAll(rec) then Err(OverflowError)
      else if (id.Some? && id.value in t.rows) || !NotNullHeld(m, fields) then Err(IntegrityError)
      else
        var k := if id.Some? then id.value else NextKey(t);
        Ok(Committed(PutTable(w, engine, m.name, Put(t, k, fields)), Stored(k, fields)))
    case Stored(k, fields) =>
      if !BindsAll(rec) then Err(OverflowError)
      else if k !in t.rows then Err(StaleDataError)
      else if !NotNullHeld(m, fields) then Err(IntegrityError)
      else Ok(Committed(PutTable(w, engine, m.name, Put(t, k, fields)), Stored(k, fields)))
  }

  /** `id` passed to the constructor is an integer key or None. */
  predicate IdArgument(kw: Fields) {
    "id" in kw ==> kw["id"].IntVal? || kw["id"].Null?
  }

  /** `cls(**kwargs)`: a new instance; every declared column takes the value
      passed for it, or its default, and a field without a default that is
      not passed is NULL; the key is the `id` passed, if any. Keywords that
      are not columns are ignored. */
  function NewInstance(m: ModelClass, kw: Fields): (r: Record)
    requires IdArgument(kw)
    ensures r.New?
    ensures r.fields.Keys == m.columns.Keys
    ensures forall c :: c in m.columns ==> r.fields[c] == if c in kw then kw[c] else Default(m, c)
    ensures forall c :: c in m.columns && c !in kw && m.columns[c].default.None? ==> r.fields[c] == Null
    ensures r.id.Some? <==> "id" in kw && kw["id"].IntVal?
    ensures r.id.Some? ==> kw["id"] == IntVal(r.id.value)
  {
    New(if "id" in kw && kw["id"].IntVal? then Some(kw["id"].i) else None,
        map c | c in m.columns :: if c in kw then kw[c] else Default(m, c))
  }

  /** `cls.create(**kwargs)`: construct, then save, which INSERTs. */
  function Create(w: World, m: ModelClass, kw: Fields): (r: Result<Committed>)
    requires WorldValid(w) && IdArgument(kw)
    ensures GetEngine(w.bindings, m.name).Err? ==> r == Err(RuntimeError(NoSessionMessage(m.name)))
    ensures GetEngine(w.bindings, m.name).Ok? ==>
      (r == Err(OverflowError) <==> !BindsAll(NewInstance(m, kw)))
    ensures GetEngine(w.bindings, m.name).Ok? ==>
      (r == Err(IntegrityError) <==>
        && BindsAll(NewInstance(m, kw))
        && (("id" in kw && kw["id"].IntVal? && kw["id"].i in ClassTable(w, m).rows)
            || !NotNullHeld(m, NewInstance(m, kw).fields)))
    ensures GetEngine(w.bindings, m.name).Ok? ==> r.Ok? || r == Err(OverflowError) || r == Err(IntegrityError)
    ensures r.Ok? ==> WorldValid(r.value.world) && r.value.world.bindings == w.bindings
    ensures r.Ok? ==> r.value.record.Stored? && r.value.record.fields.Keys == m.columns.Keys
    ensures r.Ok? ==> forall c :: c in m.columns ==>
      r.value.record.fields[c] == if c in kw then kw[c] else Default(m, c)
    ensures r.Ok? && "id" in kw && kw["id"].IntVal? ==> r.value.record.key == kw["id"].i
    ensures r.Ok? && !("id" in kw && kw["id"].IntVal?) ==> r.value.record.key !in ClassTable(w, m).rows
    ensures r.Ok? ==>
      ClassTable(r.value.world, m).rows == ClassTable(w, m).rows[r.value.record.key := r.value.record.fields]
  {
    Save(w, m, NewInstance(m, kw))
  }

  /** `cls.find(id_)`: the row with that key, or None; a key beyond 64 bits
      cannot be bound. */
  function Find(w: World, m: ModelClass, id: int): (r: Result<Option<Record>>)
    requires WorldValid(w)
    ensures r.Ok? <==> GetEngine(w.bindings, m.name).Ok? && Int64(id)
    ensures GetEngine(w.bindings, m.name).Err? ==> r == Err(RuntimeError(NoSessionMessage(m.name)))
    ensures GetEngine(w.bindings, m.name).Ok? && !Int64(id) ==> r == Err(OverflowError)
    ensures r.Ok? ==> forall x ::
      r.value == Some(x) <==> x in Rows(ClassTable(w, m)) && x.Stored? && x.key == id
  {
    var engine :- GetEngine(w.bindings, m.name);
    var t := TableOf(w, engine, m.name);
    forall x ensures x in Rows(t) <==> x.Stored? && x.key in t.rows && x.fields == t.rows[x.key] {
      RowsAreStored(t, x);
    }
    if !Int64(id) then Err(OverflowError)
    else Ok(if id in t.rows then Some(RecordAt(t, id)) else None)
  }

  /** Row i of rs is the first whose column key holds value. */
  predicate FirstMatchAt(rs: seq<Record>, key: string, value: Value, i: int) {
    && 0 <= i < |rs|
    && FieldOf(rs[i], key) == value
    && forall j :: 0 <= j < i ==> FieldOf(rs[j], key) != value
  }

  /** The first row, in scan order, whose column key holds value. */
  function FirstWith(rs: seq<Record>, key: string, value: Value): (r: Option<Record>)
    ensures r.Some? ==> exists i :: FirstMatchAt(rs, key, value, i) && rs[i] == r.value
    ensures r.None? <==> forall x :: x in rs ==> FieldOf(x, key) != value
  {
    if |rs| == 0 then None
    else if FieldOf(rs[0], key) == value then
      assert FirstMatchAt(rs, key, value, 0);
      Some(rs[0])
    else
      assert rs == [rs[0]] + rs[1..];
      var r := FirstWith(rs[1..], key, value);
      assert r.Some? ==> exists i :: FirstMatchAt(rs, key, value, i) && rs[i] == r.value by {
        if r.Some? {
          var i :| FirstMatchAt(rs[1..], key, value, i) && rs[1..][i] == r.value;
          assert FirstMatchAt(rs, key, value, i + 1);
        }
      }
      r
  }

  /** The AttributeError message `find_by` raises for a key that is no
      attribute. */
  function NoColumnMessage(m: ModelClass, key: string): string {
    m.name + " has no column '" + key + "'"
  }

  /** `cls.find_by(key, value)`: the engine is asked for first; a key that
      is no attribute of the class raises AttributeError; a column gives
      the first row, in scan order, holding value (`== None` is `IS NULL`),
      once value is bound; a method never equals a value, so nothing is
      found. */
  function FindBy(w: World, m: ModelClass, key: string, value: Value): (r: Result<Option<Record>>)
    requires WorldValid(w)
    ensures GetEngine(w.bindings, m.name).Err? ==> r == Err(RuntimeError(NoSessionMessage(m.name)))
    ensures GetEngine(w.bindings, m.name).Ok? && !HasAttribute(m, key) ==>
      r == Err(AttributeError(NoColumnMessage(m, key)))
    ensures GetEngine(w.bindings, m.name).Ok? && IsColumn(m, key) && !Binds(value) ==> r == Err(OverflowError)
    ensures r.Ok? <==> GetEngine(w.bindings, m.name).Ok? && HasAttribute(m, key) && (IsColumn(m, key) ==> Binds(value))
    ensures r.Ok? && !IsColumn(m, key) ==> r.value.None?
    ensures r.Ok? && IsColumn(m, key) ==>
      (r.value.None? <==> forall x :: x in Rows(ClassTable(w, m)) ==> FieldOf(x, key) != value)
    ensures r.Ok? && r.value.Some? ==>
      exists i :: FirstMatchAt(Rows(ClassTable(w, m)), key, value, i) && Rows(ClassTable(w, m))[i] == r.value.value
  {
    var engine :- GetEngine(w.bindings, m.name);
    if !HasAttribute(m, key) then Err(AttributeError(NoColumnMessage(m, key)))
    else if !IsColumn(m, key) then Ok(None)
    else if !Binds(value) then Err(OverflowError)
    else Ok(FirstWith(Rows(TableOf(w, engine, m.name)), key, value))
  }

  /** The `setattr` loop of `update`: keywords that name columns are
      assigned, the rest are skipped; the instance's state and key stay. */
  function Assign(m: ModelClass, rec: Record, kw: Fields): (r: Record)
    ensures r.New? == rec.New? && r.Stored? == rec.Stored? && Id(r) == Id(rec)
    ensures forall c :: c in kw && c in m.columns ==> c in r.fields && r.fields[c] == kw[c]
    ensures forall c :: c in rec.fields && !(c in kw && c in m.columns) ==>
      c in r.fields && r.fields[c] == rec.fields[c]
    ensures forall c :: c in r.fields ==> c in rec.fields || (c in kw && c in m.columns)
  {
    rec.(fields := rec.fields + map c | c in kw && c in m.columns :: kw[c])
  }

  /** `instance.update(**kwargs)`: assign the keywords that name columns,
      skip the rest, then save. */
  function Update(w: World, m: ModelClass, rec: Record, kw: Fields): (r: Result<Committed>)
    requires WorldValid(w)
    requires "id" !in kw && forall k :: k in kw ==> k !in MethodNames
    ensures GetEngine(w.bindings, m.name).Err? ==> r == Err(RuntimeError(NoSessionMessage(m.name)))
    ensures GetEngine(w.bindings, m.name).Ok? ==>
      (r == Err(InvalidRequestError(HasBeenDeleted)) <==> rec.Deleted?)
    ensures GetEngine(w.bindings, m.name).Ok? ==>
      (r == Err(OverflowError) <==> !rec.Deleted? && !BindsAll(Assign(m, rec, kw)))
    ensures GetEngine(w.bindings, m.name).Ok? ==>
      (r == Err(StaleDataError) <==> BindsAll(Assign(m, rec, kw)) && RowGone(ClassTable(w, m), rec))
    ensures GetEngine(w.bindings, m.name).Ok? ==>
      (r == Err(IntegrityError) <==>
        && !rec.Deleted? && BindsAll(Assign(m, rec, kw)) && !RowGone(ClassTable(w, m), rec)
        && (KeyTaken(ClassTable(w, m), rec) || !NotNullHeld(m, Assign(m, rec, kw).fields)))
    ensures r.Ok? ==> WorldValid(r.value.world) && r.value.world.bindings == w.bindings
    ensures r.Ok? ==> r.value.record.Stored? && r.value.record.fields == Assign(m, rec, kw).fields
    ensures r.Ok? && Id(rec).Some? ==> r.value.record.key == Id(rec).value
    ensures r.Ok? ==>
      ClassTable(r.value.world, m).rows == ClassTable(w, m).rows[r.value.record.key := r.value.record.fields]
  {
    Save(w, m, Assign(m, rec, kw))
  }

  /** `instance.delete()`: `session.delete` refuses an instance that was
      never stored; otherwise its row is DELETEd, a row already gone only
      draws a warning, and the instance is marked deleted. */
  function Delete(w: World, m: ModelClass, rec: Record): (r: Result<Committed>)
    requires WorldValid(w)
    ensures GetEngine(w.bindings, m.name).Err? ==> r == Err(RuntimeError(NoSessionMessage(m.name)))
    ensures GetEngine(w.bindings, m.name).Ok? && rec.New? ==> r == Err(InvalidRequestError(NotPersisted))
    ensures GetEngine(w.bindings, m.name).Ok? && !rec.New? && !Int64(rec.key) ==> r == Err(OverflowError)
    ensures r.Ok? <==> GetEngine(w.bindings, m.name).Ok? && !rec.New? && Int64(rec.key)
    ensures r.Ok? ==> r.value.record == Deleted(rec.key, rec.fields)
    ensures r.Ok? ==> WorldValid(r.value.world) && r.value.world.bindings == w.bindings
    ensures r.Ok? ==> ClassTable(r.value.world, m).rows == ClassTable(w, m).rows - {rec.key}
    ensures r.Ok? ==> forall e, c :: (e, c) != (GetEngine(w.bindings, m.name).value, m.name) ==>
      TableOf(r.value.world, e, c) == TableOf(w, e, c)
  {
    var engine :- GetEngine(w.bindings, m.name);
    if rec.New? then Err(InvalidRequestError(NotPersisted))
    else if !Int64(rec.key) then Err(OverflowError)
    else
      var t := TableOf(w, engine, m.name);
      Ok(Committed(PutTable(w, engine, m.name, Remove(t, rec.key)), Deleted(rec.key, rec.fields)))
  }

  const NotPersisted := "Instance is not persisted"

  /** `cls.where(*conditions)`: a query over the class's table, built
      with the class's engine, holding exactly those conditions and no
      ORDER BY, LIMIT or OFFSET. */
  function ClassWhere(w: World, m: ModelClass, conds: seq<Condition>): (r: Result<Query>)
    ensures r.Ok? <==> GetEngine(w.bindings, m.name).Ok?
    ensures r.Err? ==> r.error == RuntimeError(NoSessionMessage(m.name))
    ensures r.Ok? ==> r.value.model == m.name && r.value.engine == GetEngine(w.bindings, m.name).value
    ensures r.Ok? ==> r.value.conditions == conds && r.value.columns == []
    ensures r.Ok? ==> r.value.limit.None? && r.value.offset.None?
  {
    var q :- NewQuery(w.bindings, m.name);
    Ok(Where(q, conds))
  }

  /** The table a query reads. */
  function QueryTable(w: World, q: Query): (t: Table)
    requires WorldValid(w)
    ensures Valid(t)
  {
    TableOf(w, q.engine, q.model)
  }

  /** `cls.where(*conditions).all()` is the class's rows that meet every
      condition, in scan order. */
  lemma ClassWhereAll(w: World, m: ModelClass, conds: seq<Condition>)
    requires WorldValid(w) && GetEngine(w.bindings, m.name).Ok?
    ensures var q := ClassWhere(w, m, conds).value;
      All(q, QueryTable(w, q)) == Filter(Rows(ClassTable(w, m)), conds)
  {
    var q := ClassWhere(w, m, conds).value;
    UnorderedAll(q, QueryTable(w, q));
  }

  /** `cls.all()`: every stored row, in scan order. */
  function ClassAll(w: World, m: ModelClass): (r: Result<seq<Record>>)
    requires WorldValid(w)
    ensures r.Ok? <==> GetEngine(w.bindings, m.name).Ok?
    ensures r.Err? ==> r.error == RuntimeError(NoSessionMessage(m.name))
    ensures r.Ok? ==> r.value == Rows(ClassTable(w, m))
  {
    var q :- NewQuery(w.bindings, m.name);
    var t := QueryTable(w, q);
    UnorderedAll(q, t);
    NoConditionsKeepAll(Rows(t));
    Ok(All(q, t))
  }

  /** `cls.first()`: the row with the least key, or None for an empty
      table. */
  function ClassFirst(w: World, m: ModelClass): (r: Result<Option<Record>>)
    requires WorldValid(w)
    ensures r.Ok? <==> GetEngine(w.bindings, m.name).Ok?
    ensures r.Err? ==> r.error == RuntimeError(NoSessionMessage(m.name))
    ensures r.Ok? ==> (r.value.None? <==> ClassTable(w, m).rows == map[])
    ensures r.Ok? && r.value.Some? ==> |Rows(ClassTable(w, m))| > 0 && r.value.value == Rows(ClassTable(w, m))[0]
    ensures r.Ok? && r.value.Some? ==>
      r.value.value.Stored? && forall x :: x in Rows(ClassTable(w, m)) ==> r.value.value.key <= x.key
  {
    var q :- NewQuery(w.bindings, m.name);
    var t := QueryTable(w, q);
    UnorderedAll(q, t);
    NoConditionsKeepAll(Rows(t));
    EmptyOrder(t);
    LeastKeyFirst(t);
    Ok(First(q, t))
  }

  /** `cls.count()`: the number of stored rows. */
  function ClassCount(w: World, m: ModelClass): (r: Result<nat>)
    requires WorldValid(w)
    ensures r.Ok? <==> GetEngine(w.bindings, m.name).Ok?
    ensures r.Err? ==> r.error == RuntimeError(NoSessionMessage(m.name))
    ensures r.Ok? ==> r.value == |ClassTable(w, m).rows|
  {
    var q :- NewQuery(w.bindings, m.name);
    var t := QueryTable(w, q);
    UnorderedAll(q, t);
    NoConditionsKeepAll(Rows(t));
    OrderSize(t);
    Ok(Count(q, t))
  }

  lemma {:induction false} NoConditionsKeepAll(rs: seq<Record>)
    ensures Filter(rs, []) == rs
  {
    if |rs| > 0 {
      NoConditionsKeepAll(rs[1..]);
      assert rs == [rs[0]] + rs[1..];
    }
  }

  /** A valid table has no rows exactly when its scan order is empty. */
  lemma EmptyOrder(t: Table)
    requires Valid(t)
    ensures t.rows == map[] <==> |t.order| == 0
  {
    if |t.order| > 0 {
      assert t.order[0] in t.order;
      assert t.order[0] in t.rows;
    } else {
      assert forall k :: k in t.rows ==> k in t.order;
    }
  }

  /** The first row of a scan has the least key. */
  lemma LeastKeyFirst(t: Table)
    requires Valid(t)
    ensures forall x :: x in Rows(t) ==> Rows(t)[0].key <= x.key
  {
    forall x | x in Rows(t) ensures Rows(t)[0].key <= x.key {
      var i :| 0 <= i < |Rows(t)| && Rows(t)[i] == x;
      if i > 0 { RowsInKeyOrder(t, 0, i); }
    }
  }

  /** The scan visits each stored row once, so its length is the number of
      stored rows. */
  lemma OrderSize(t: Table)
    requires Valid(t)
    ensures |t.rows| == |t.order|
  {
    forall k ensures k in t.rows.Keys <==> k in KeySet(t.order) {
    }
    assert t.rows.Keys == KeySet(t.order);
    KeySetSize(t.order);
  }

  function KeySet(s: seq<int>): set<int> {
    set x | x in s
  }

  lemma {:induction false} KeySetSize(s: seq<int>)
    requires Increasing(s)
    ensures |KeySet(s)| == |s|
  {
    if |s| > 0 {
      var tail := s[1..];
      assert Increasing(tail);
      KeySetSize(tail);
      assert s[0] !in tail;
      assert KeySet(s) == {s[0]} + KeySet(tail);
    }
  }

  /** A saved instance is found again under its key, when the key fits in
      64 bits; every other key of its table finds what it found before, and
      no other table changes. */
  lemma SaveThenFind(w: World, m: ModelClass, rec: Record, j: int, e: Engine, other: string)
    requires WorldValid(w) && Save(w, m, rec).Ok?
    ensures var s := Save(w, m, rec).value;
      s.record.Stored? && (Int64(s.record.key) ==> Find(s.world, m, s.record.key) == Ok(Some(s.record)))
    ensures var s := Save(w, m, rec).value;
      j != s.record.key ==> Find(s.world, m, j) == Find(w, m, j)
    ensures other != m.name ==> TableOf(Save(w, m, rec).value.world, e, other) == TableOf(w, e, other)
  {
    var s := Save(w, m, rec).value;
    assert ClassTable(s.world, m).rows == ClassTable(w, m).rows[s.record.key := rec.fields];
  }

  /** `create` stores the new instance under its key, where `find` returns
      it, and leaves every other row of the table as it was. */
  lemma CreateThenFind(w: World, m: ModelClass, kw: Fields, j: int)
    requires WorldValid(w) && IdArgument(kw) && Create(w, m, kw).Ok?
    ensures var s := Create(w, m, kw).value;
      s.record.Stored? && (Int64(s.record.key) ==> Find(s.world, m, s.record.key) == Ok(Some(s.record)))
    ensures var s := Create(w, m, kw).value;
      j != s.record.key ==> Find(s.world, m, j) == Find(w, m, j)
  {
    SaveThenFind(w, m, NewInstance(m, kw), j, Engine(""), m.name);
  }

  /** Saving a new instance adds exactly one row; saving a stored one adds
      none. */
  lemma SaveCounts(w: World, m: ModelClass, rec: Record)
    requires WorldValid(w) && Save(w, m, rec).Ok?
    ensures ClassCount(Save(w, m, rec).value.world, m).value ==
      ClassCount(w, m).value + (if rec.New? then 1 else 0)
  {
    var s := Save(w, m, rec).value;
    var before, after := ClassTable(w, m).rows, ClassTable(s.world, m).rows;
    assert after == before[s.record.key := rec.fields];
    if rec.New? {
      assert s.record.key !in before;
    } else {
      assert s.record.key in before;
      assert after.Keys == before.Keys;
    }
  }

  /** After `delete`, `find` with the deleted key returns None, and every
      other key finds what it found before. */
  lemma DeleteThenFind(w: World, m: ModelClass, rec: Record, j: int)
    requires WorldValid(w) && Delete(w, m, rec).Ok?
    ensures Find(Delete(w, m, rec).value.world, m, rec.key) == Ok(None)
    ensures j != rec.key ==> Find(Delete(w, m, rec).value.world, m, j) == Find(w, m, j)
  {
  }

  /** The instance `delete` leaves behind cannot be saved or updated again:
      `session.add` refuses it before any SQL runs. */
  lemma DeleteThenSave(w: World, m: ModelClass, rec: Record, kw: Fields)
    requires WorldValid(w) && Delete(w, m, rec).Ok?
    requires "id" !in kw && forall k :: k in kw ==> k !in MethodNames
    ensures var d := Delete(w, m, rec).value;
      Save(d.world, m, d.record) == Err(InvalidRequestError(HasBeenDeleted))
    ensures var d := Delete(w, m, rec).value;
      Update(d.world, m, d.record, kw) == Err(InvalidRequestError(HasBeenDeleted))
  {
  }

  /** After `update`, `find` shows the new values, and every other key finds
      what it found before. */
  lemma UpdateThenFind(w: World, m: ModelClass, rec: Record, kw: Fields, j: int)
    requires WorldValid(w)
    requires "id" !in kw && forall k :: k in kw ==> k !in MethodNames
    requires Update(w, m, rec, kw).Ok?
    ensures var s := Update(w, m, rec, kw).value;
      Int64(s.record.key) ==> Find(s.world, m, s.record.key) == Ok(Some(s.record))
    ensures var s := Update(w, m, rec, kw).value;
      j != s.record.key ==> Find(s.world, m, j) == Find(w, m, j)
  {
    SaveThenFind(w, m, Assign(m, rec, kw), j, Engine(""), m.name);
  }

  /** The test suite's `User`: `name`, `email` and `age` are declared
      without a default, and `active` defaults to True; none is `Optional`,
      so all four are NOT NULL. */
  const User := ModelClass("User", map[
    "name" := ColumnSpec(None, true),
    "email" := ColumnSpec(None, true),
    "age" := ColumnSpec(None, true),
    "active" := ColumnSpec(Some(BoolVal(true)), true)])

  /** `User.create(name="T")` leaves `email` and `age` NULL, and the INSERT
      violates their NOT NULL constraint. */
  lemma ExampleUnsetRequired(w: World)
    requires WorldValid(w) && GetEngine(w.bindings, "User").Ok?
    ensures Create(w, User, map["name" := StrVal("T")]) == Err(IntegrityError)
  {
    var kw := map["name" := StrVal("T")];
    var x := NewInstance(User, kw);
    assert "email" in User.columns && "email" !in kw;
    assert x.fields["email"] == Null;
    assert !NotNullHeld(User, x.fields);
    assert BindsAll(x);
  }

  /** A key beyond 64 bits passed to `create` is refused by the driver. */
  lemma ExampleKeyTooLarge(w: World)
    requires WorldValid(w) && GetEngine(w.bindings, "User").Ok?
    ensures Create(w, User, map["id" := IntVal(0x8000_0000_0000_0000), "name" := StrVal("T"),
      "email" := StrVal("t@example.com"), "age" := IntVal(30)]) == Err(OverflowError)
  {
  }

  /** The condition `column == value`. */
  function Equals(key: string, value: Value): Condition {
    r => FieldOf(r, key) == value
  }

  /** The first row holding value is the head of the rows the condition
      `column == value` keeps. */
  lemma {:induction false} FirstWithIsHead(rs: seq<Record>, key: string, value: Value)
    ensures var f := Filter(rs, [Equals(key, value)]);
      FirstWith(rs, key, value) == if |f| == 0 then None else Some(f[0])
  {
    if |rs| > 0 {
      FirstWithIsHead(rs[1..], key, value);
      SatisfiesEquals(rs[0], key, value);
    }
  }

  lemma SatisfiesEquals(x: Record, key: string, value: Value)
    ensures Satisfies(x, [Equals(key, value)]) <==> FieldOf(x, key) == value
  {
    var c := [Equals(key, value)];
    assert c[0] == Equals(key, value);
    assert c[0](x) <==> FieldOf(x, key) == value;
  }

  /** Without ORDER BY, OFFSET and LIMIT, `all()` is the filtered scan. */
  lemma UnorderedAll(q: Query, t: Table)
    requires Valid(t) && q.columns == [] && q.offset.None? && q.limit.None?
    ensures All(q, t) == Filter(Rows(t), q.conditions)
  {
    var f := Filter(Rows(t), q.conditions);
    assert forall x :: Key(q.columns)(x) == [];
    Ordering.NoKeysKeepsOrder(f, Key(q.columns));
  }

  /** `find_by(key, value)` on a column is
      `where(column == value).first()`. */
  lemma FindByIsFirstOfWhere(w: World, m: ModelClass, key: string, value: Value)
    requires WorldValid(w) && GetEngine(w.bindings, m.name).Ok? && IsColumn(m, key) && Binds(value)
    ensures var q := ClassWhere(w, m, [Equals(key, value)]).value;
      FindBy(w, m, key, value) == Ok(First(q, QueryTable(w, q)))
  {
    var q := ClassWhere(w, m, [Equals(key, value)]).value;
    var t := QueryTable(w, q);
    UnorderedAll(q, t);
    FirstWithIsHead(Rows(t), key, value);
  }
}
