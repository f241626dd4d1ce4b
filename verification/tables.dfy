/** The in-memory table that stands in for a model's database table. It
    follows SQLite, the default database: the table is a rowid table keyed by
    its integer primary key, a scan without ORDER BY returns the rows in key
    order, and a row inserted without a key gets one more than the largest
    key stored, or 1 in an empty table. */
module Tables {
  import opened Errors

  /** A column value. */
  datatype Value = Null | IntVal(i: int) | StrVal(s: string) | BoolVal(b: bool)

  /** The column values of one row, by column name. */
  type Fields = map<string, Value>

  /** SQLite stores an integer in at most 64 bits; the driver refuses to
      bind a larger one. */
  predicate Int64(i: int) {
    -0x8000_0000_0000_0000 <= i < 0x8000_0000_0000_0000
  }

  /** A value the driver can bind as a statement parameter. */
  predicate Binds(v: Value) {
    v.IntVal? ==> Int64(v.i)
  }

  /** A model instance. A New instance was built by the class and never
      stored; its `id` is the key passed to the constructor, if any. A
      Stored instance was saved or loaded and belongs to the row with its
      key. A Deleted instance is one whose own `delete` removed its row; it
      keeps its key and values. */
  datatype Record =
    | New(id: Option<int>, fields: Fields)
    | Stored(key: int, fields: Fields)
    | Deleted(key: int, fields: Fields)

  /** The instance's `id` attribute. */
  function Id(r: Record): Option<int> {
    match r
    case New(id, _) => id
    case Stored(k, _) => Some(k)
    case Deleted(k, _) => Some(k)
  }

  /** Every parameter a statement writing the instance binds fits. */
  predicate BindsAll(r: Record) {
    && (Id(r).Some? ==> Int64(Id(r).value))
    && forall c :: c in r.fields ==> Binds(r.fields[c])
  }

  /** The stored keys in scan order, and the rows by key. */
  datatype Table = Table(rows: map<int, Fields>, order: seq<int>)

  const Empty := Table(map[], [])

  /** Strictly increasing keys. */
  predicate Increasing(order: seq<int>) {
    forall i, j :: 0 <= i < j < |order| ==> order[i] < order[j]
  }

  /** The scan order lists the stored keys, each once, in increasing order. */
  predicate Valid(t: Table) {
    && Increasing(t.order)
    && (forall k :: k in t.rows ==> k in t.order)
    && (forall k :: k in t.order ==> k in t.rows)
  }

  /** The stored row with key k, as an instance. */
  function RecordAt(t: Table, k: int): (r: Record)
    requires k in t.rows
    ensures r.Stored? && r.key == k && r.fields == t.rows[k]
  {
    Stored(k, t.rows[k])
  }

  /** The rows in scan order, which is key order. */
  function Rows(t: Table): (rs: seq<Record>)
    requires Valid(t)
    ensures |rs| == |t.order|
    ensures forall i :: 0 <= i < |rs| ==> rs[i] == RecordAt(t, t.order[i])
  {
    seq(|t.order|, i requires 0 <= i < |t.order| => RecordAt(t, t.order[i]))
  }

  /** An instance's value for column key; `id` is the primary key, and an
      unset column reads as NULL. */
  function FieldOf(r: Record, key: string): Value {
    if key == "id" then (match Id(r) case None => Null case Some(k) => IntVal(k))
    else if key in r.fields then r.fields[key]
    else Null
  }

  /** Every row of a valid table is found by scanning, and a scan finds
      only stored rows. */
  lemma RowsAreStored(t: Table, r: Record)
    requires Valid(t)
    ensures r in Rows(t) <==> r.Stored? && r.key in t.rows && r.fields == t.rows[r.key]
  {
    if r.Stored? && r.key in t.rows && r.fields == t.rows[r.key] {
      var i :| 0 <= i < |t.order| && t.order[i] == r.key;
      assert Rows(t)[i] == r;
    }
  }

  /** A scan returns the rows in increasing key order. */
  lemma RowsInKeyOrder(t: Table, i: nat, j: nat)
    requires Valid(t) && i < j < |Rows(t)|
    ensures Rows(t)[i].key < Rows(t)[j].key
  {
  }

  /** The key SQLite gives a row inserted without one: one more than the
      largest stored key, or 1 when the table is empty. */
  function NextKey(t: Table): (k: int)
    requires Valid(t)
    ensures k !in t.rows
    ensures forall j :: j in t.rows ==> j < k
    ensures t.rows == map[] ==> k == 1
    ensures t.rows != map[] ==> k - 1 in t.rows
    ensures forall j :: j in t.rows ==> k - 1 in t.rows
  {
    if |t.order| == 0 then
      assert forall j :: j in t.rows ==> j in t.order;
      1
    else
      LastIsLargest(t);
      t.order[|t.order| - 1] + 1
  }

  /** The last key of the scan order is the largest stored key. */
  lemma LastIsLargest(t: Table)
    requires Valid(t) && |t.order| > 0
    ensures t.order[|t.order| - 1] in t.rows
    ensures forall j :: j in t.rows ==> j <= t.order[|t.order| - 1]
  {
    var last := t.order[|t.order| - 1];
    assert last in t.order;
    forall j | j in t.rows ensures j <= last {
      var i :| 0 <= i < |t.order| && t.order[i] == j;
    }
  }

  /** k placed into an increasing order of keys. */
  function InsertKey(order: seq<int>, k: int): (r: seq<int>)
    requires Increasing(order) && k !in order
    ensures Increasing(r)
    ensures forall x :: x in r <==> x in order || x == k
  {
    if |order| == 0 then [k]
    else if k < order[0] then
      PrependIncreasing(k, order);
      [k] + order
    else
      assert order == [order[0]] + order[1..];
      var rest := InsertKey(order[1..], k);
      PrependIncreasing(order[0], rest);
      [order[0]] + rest
  }

  lemma PrependIncreasing(x: int, s: seq<int>)
    requires Increasing(s) && forall y :: y in s ==> x < y
    ensures Increasing([x] + s)
  {
    var r := [x] + s;
    forall i, j | 0 <= i < j < |r| ensures r[i] < r[j] {
      assert r[j] == s[j - 1] && s[j - 1] in s;
      if i > 0 { assert r[i] == s[i - 1]; }
    }
  }

  /** Store fields under key k: an existing row is overwritten in place; a
      new key joins the scan order in its place. */
  function Put(t: Table, k: int, fields: Fields): (r: Table)
    requires Valid(t)
    ensures Valid(r)
    ensures r.rows == t.rows[k := fields]
  {
    if k in t.rows then Table(t.rows[k := fields], t.order)
    else Table(t.rows[k := fields], InsertKey(t.order, k))
  }

  /** An increasing order without k. */
  function Without(order: seq<int>, k: int): (r: seq<int>)
    requires Increasing(order)
    ensures forall x :: x in r <==> x in order && x != k
    ensures Increasing(r)
  {
    if |order| == 0 then []
    else
      assert order == [order[0]] + order[1..];
      var rest := Without(order[1..], k);
      if order[0] == k then rest
      else
        PrependIncreasing(order[0], rest);
        [order[0]] + rest
  }

  /** Remove the row with key k, if there is one. */
  function Remove(t: Table, k: int): (r: Table)
    requires Valid(t)
    ensures Valid(r)
    ensures r.rows == t.rows - {k}
  {
    Table(t.rows - {k}, Without(t.order, k))
  }

  /** After the row with the largest key is removed, a later insertion can
      get that key again: the table keeps no memory of keys handed out. */
  lemma RemovedLargestIsReused(t: Table, k: int)
    requires Valid(t) && k in t.rows && NextKey(t) == k + 1
    ensures forall j :: j in Remove(t, k).rows ==> NextKey(Remove(t, k)) <= k
    ensures k - 1 in t.rows ==> NextKey(Remove(t, k)) == k
  {
    var r := Remove(t, k);
    if k - 1 in t.rows {
      assert k - 1 in r.rows;
    }
  }
}
