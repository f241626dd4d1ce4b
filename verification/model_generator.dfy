/** The model generator (grace/generators/model_generator.py): the name
    check, the parsing of `name:Type` column parameters and the request that
    renders the model template into `bot/models`. */
module ModelGenerator {
  import opened Errors
  import opened Generators
  import PascalName

  const Name := "model"
  const OutputDir := "bot/models"

  /** A `name:Type` parameter, split. */
  datatype Column = Column(name: string, typ: string)

  /** The pair of lists `extract_columns` returns. */
  datatype Extraction = Extraction(columns: seq<Column>, types: seq<string>)

  /** Arguments Click passes to the command. */
  datatype Args = Args(name: string, params: seq<string>)

  /** Number of occurrences of c in s. */
  function Occurrences(s: string, c: char): nat {
    if |s| == 0 then 0 else (if s[0] == c then 1 else 0) + Occurrences(s[1..], c)
  }

  /** The pieces joined back with sep between consecutive ones. */
  function Join(pieces: seq<string>, sep: char): string
    requires |pieces| > 0
  {
    if |pieces| == 1 then pieces[0] else pieces[0] + [sep] + Join(pieces[1..], sep)
  }

  /** Python's `s.split(sep)` for a one-character separator: the maximal
      separator-free pieces, empty ones included. */
  function Split(s: string, sep: char): (pieces: seq<string>)
    ensures |pieces| == Occurrences(s, sep) + 1
    ensures forall i :: 0 <= i < |pieces| ==> sep !in pieces[i]
    ensures Join(pieces, sep) == s
  {
    if |s| == 0 then [""]
    else
      var rest := Split(s[1..], sep);
      if s[0] == sep then [""] + rest
      else
        assert s == [s[0]] + s[1..];
        [[s[0]] + rest[0]] + rest[1..]
  }

  /** Splitting undoes joining when no piece contains the separator, so
      Split and Join are inverse to each other. */
  lemma {:induction false} SplitJoin(pieces: seq<string>, sep: char)
    requires |pieces| > 0
    requires forall i :: 0 <= i < |pieces| ==> sep !in pieces[i]
    ensures Split(Join(pieces, sep), sep) == pieces
    decreases |pieces|, |pieces[0]|
  {
    var p := pieces[0];
    if |p| == 0 {
      if |pieces| > 1 {
        SplitJoin(pieces[1..], sep);
        assert Join(pieces, sep) == [sep] + Join(pieces[1..], sep);
        assert Join(pieces, sep)[1..] == Join(pieces[1..], sep);
      }
    } else {
      var shorter := [p[1..]] + pieces[1..];
      assert shorter[1..] == pieces[1..];
      SplitJoin(shorter, sep);
      var j := Join(pieces, sep);
      assert j == [p[0]] + Join(shorter, sep);
      assert j[1..] == Join(shorter, sep);
      assert [p[0]] + p[1..] == p;
    }
  }

  /** One parameter, unpacked into two names: `name, type = param.split(':')`.
      The unpacking fails unless the split gives exactly two pieces. */
  function ParseParam(param: string): (r: Result<Column>)
    ensures r.Ok? <==> Occurrences(param, ':') == 1
    ensures r.Ok? ==> r.value.name + ":" + r.value.typ == param
    ensures r.Ok? ==> ':' !in r.value.name && ':' !in r.value.typ
    ensures r.Err? ==> r.error.ValueError?
  {
    var pieces := Split(param, ':');
    if |pieces| < 2 then Err(ValueError("not enough values to unpack (expected 2, got 1)"))
    else if |pieces| > 2 then Err(ValueError("too many values to unpack (expected 2)"))
    else
      assert pieces[1..][1..] == [];
      assert Join(pieces, ':') == pieces[0] + [':'] + Join(pieces[1..], ':');
      Ok(Column(pieces[0], pieces[1]))
  }

  /** The column a well-formed parameter gives is the only split of it at a
      single colon. */
  lemma ParseParamUnique(n: string, t: string)
    requires ':' !in n && ':' !in t
    ensures ParseParam(n + ":" + t) == Ok(Column(n, t))
  {
    SplitJoin([n, t], ':');
    assert Join([n, t], ':') == n + ":" + t;
  }

  /** Index of the first column whose type is t, or the number of columns. */
  function FirstIndex(columns: seq<Column>, t: string): (i: nat)
    ensures i <= |columns|
    ensures i < |columns| ==> columns[i].typ == t
    ensures forall j :: 0 <= j < i ==> columns[j].typ != t
  {
    if |columns| == 0 then 0
    else if columns[0].typ == t then 0
    else 1 + FirstIndex(columns[1..], t)
  }

  predicate NoDuplicates(types: seq<string>) {
    forall a, b :: 0 <= a < b < |types| ==> types[a] != types[b]
  }

  /** Every type other than "Integer" of some column is listed. */
  predicate Covers(columns: seq<Column>, types: seq<string>) {
    forall i :: 0 <= i < |columns| && columns[i].typ != "Integer" ==> columns[i].typ in types
  }

  /** Every listed type is the type of some column, and is not "Integer". */
  predicate OnlyColumnTypes(columns: seq<Column>, types: seq<string>) {
    forall a :: 0 <= a < |types| ==> types[a] != "Integer" && FirstIndex(columns, types[a]) < |columns|
  }

  /** Types are listed in the order in which they first appear. */
  predicate FirstAppearanceOrder(columns: seq<Column>, types: seq<string>) {
    forall a, b :: 0 <= a < b < |types| ==> FirstIndex(columns, types[a]) < FirstIndex(columns, types[b])
  }

  /** What `extract_columns` promises of its types list: no duplicates, no
      "Integer", every other column type listed, nothing else listed, and
      types in the order in which they first appear among the columns. */
  predicate TypesSummarise(columns: seq<Column>, types: seq<string>) {
    && NoDuplicates(types)
    && Covers(columns, types)
    && OnlyColumnTypes(columns, types)
    && FirstAppearanceOrder(columns, types)
  }

  lemma FirstIndexAppend(columns: seq<Column>, c: Column, t: string)
    ensures FirstIndex(columns + [c], t) ==
      if FirstIndex(columns, t) < |columns| then FirstIndex(columns, t)
      else if c.typ == t then |columns| else |columns| + 1
  {
    var i := FirstIndex(columns + [c], t);
    var k := FirstIndex(columns, t);
    if k < |columns| {
      assert (columns + [c])[k] == columns[k];
    } else {
      if c.typ == t {
        assert (columns + [c])[|columns|] == c;
      }
    }
  }

  /** Every parameter has exactly one colon. */
  predicate AllWellFormed(params: seq<string>) {
    forall i :: 0 <= i < |params| ==> Occurrences(params[i], ':') == 1
  }

  /** columns[i] is params[i] split at its only colon, for every i. */
  predicate SplitsOf(params: seq<string>, columns: seq<Column>) {
    && |columns| == |params|
    && forall i :: 0 <= i < |params| ==>
         columns[i].name + ":" + columns[i].typ == params[i] &&
         ':' !in columns[i].name && ':' !in columns[i].typ
  }

  lemma SnocWellFormed(params: seq<string>)
    requires |params| > 0
    ensures AllWellFormed(params) <==>
      AllWellFormed(params[..|params| - 1]) && Occurrences(params[|params| - 1], ':') == 1
  {
    var init := params[..|params| - 1];
    if AllWellFormed(init) && Occurrences(params[|params| - 1], ':') == 1 {
      forall i | 0 <= i < |params| ensures Occurrences(params[i], ':') == 1 {
        if i < |init| { assert params[i] == init[i]; }
      }
    }
  }

  lemma SnocSplits(params: seq<string>, columns: seq<Column>, c: Column)
    requires |params| > 0
    requires SplitsOf(params[..|params| - 1], columns)
    requires c.name + ":" + c.typ == params[|params| - 1] && ':' !in c.name && ':' !in c.typ
    ensures SplitsOf(params, columns + [c])
  {
    var init := params[..|params| - 1];
    var columns' := columns + [c];
    forall i | 0 <= i < |params|
      ensures columns'[i].name + ":" + columns'[i].typ == params[i] &&
              ':' !in columns'[i].name && ':' !in columns'[i].typ
    {
      if i < |init| { assert params[i] == init[i] && columns'[i] == columns[i]; }
    }
  }

  /** `extract_columns`: the loop over the parameters, in order. The first
      malformed parameter raises ValueError; otherwise one column per
      parameter, split at its colon, and the list of distinct non-Integer
      types. */
  function ExtractColumns(params: seq<string>): (r: Result<Extraction>)
    ensures r.Ok? <==> AllWellFormed(params)
    ensures r.Err? ==> r.error.ValueError?
    ensures r.Ok? ==> SplitsOf(params, r.value.columns)
    ensures r.Ok? ==> |r.value.types| <= |params|
    ensures r.Ok? ==> TypesSummarise(r.value.columns, r.value.types)
    decreases |params|
  {
    if |params| == 0 then Ok(Extraction([], []))
    else
      var init := params[..|params| - 1];
      var last := params[|params| - 1];
      SnocWellFormed(params);
      match ExtractColumns(init)
      case Err(e) => Err(e)
      case Ok(done) =>
        match ParseParam(last)
        case Err(e) => Err(e)
        case Ok(c) =>
          AppendKeepsSummary(done.columns, done.types, c);
          SnocSplits(params, done.columns, c);
          Ok(Extraction(done.columns + [c], AddType(done.types, c)))
  }

  /** The new types list after handling column c. */
  function AddType(types: seq<string>, c: Column): seq<string> {
    if c.typ !in types && c.typ != "Integer" then types + [c.typ] else types
  }

  lemma AppendKeepsSummary(columns: seq<Column>, types: seq<string>, c: Column)
    requires TypesSummarise(columns, types)
    ensures TypesSummarise(columns + [c], AddType(types, c))
  {
    var columns' := columns + [c];
    var types' := AddType(types, c);
    forall a | 0 <= a < |types|
      ensures FirstIndex(columns', types[a]) == FirstIndex(columns, types[a])
    {
      FirstIndexAppend(columns, c, types[a]);
    }
    if types' != types {
      FirstIndexAppend(columns, c, c.typ);
      assert FirstIndex(columns, c.typ) == |columns|;
      AppendedTypeFacts(columns, types, c);
    }
    forall i | 0 <= i < |columns'| && columns'[i].typ != "Integer"
      ensures columns'[i].typ in types'
    {
      if i < |columns| {
        assert columns'[i] == columns[i];
      }
    }
  }

  lemma AppendedTypeFacts(columns: seq<Column>, types: seq<string>, c: Column)
    requires TypesSummarise(columns, types)
    requires c.typ !in types && c.typ != "Integer"
    requires forall a :: 0 <= a < |types| ==> FirstIndex(columns + [c], types[a]) == FirstIndex(columns, types[a])
    requires FirstIndex(columns + [c], c.typ) == |columns|
    ensures NoDuplicates(types + [c.typ])
    ensures OnlyColumnTypes(columns + [c], types + [c.typ])
    ensures FirstAppearanceOrder(columns + [c], types + [c.typ])
  {
    AppendedNoDuplicates(types, c.typ);
    AppendedOnlyColumnTypes(columns, types, c);
    AppendedOrder(columns, types, c);
  }

  lemma AppendedNoDuplicates(types: seq<string>, t: string)
    requires NoDuplicates(types) && t !in types
    ensures NoDuplicates(types + [t])
  {
    var types' := types + [t];
    forall a, b | 0 <= a < b < |types'|
      ensures types'[a] != types'[b]
    {
      assert types'[a] == types[a];
      if b < |types| {
        assert types'[b] == types[b];
      }
    }
  }

  lemma AppendedOnlyColumnTypes(columns: seq<Column>, types: seq<string>, c: Column)
    requires OnlyColumnTypes(columns, types)
    requires c.typ != "Integer"
    requires forall a :: 0 <= a < |types| ==> FirstIndex(columns + [c], types[a]) == FirstIndex(columns, types[a])
    requires FirstIndex(columns + [c], c.typ) == |columns|
    ensures OnlyColumnTypes(columns + [c], types + [c.typ])
  {
    var types' := types + [c.typ];
    forall a | 0 <= a < |types'|
      ensures types'[a] != "Integer" && FirstIndex(columns + [c], types'[a]) < |columns + [c]|
    {
      if a < |types| {
        assert types'[a] == types[a];
      }
    }
  }

  lemma AppendedOrder(columns: seq<Column>, types: seq<string>, c: Column)
    requires OnlyColumnTypes(columns, types) && FirstAppearanceOrder(columns, types)
    requires forall a :: 0 <= a < |types| ==> FirstIndex(columns + [c], types[a]) == FirstIndex(columns, types[a])
    requires FirstIndex(columns + [c], c.typ) == |columns|
    ensures FirstAppearanceOrder(columns + [c], types + [c.typ])
  {
    var types' := types + [c.typ];
    var columns' := columns + [c];
    forall a, b | 0 <= a < b < |types|
      ensures FirstIndex(columns', types'[a]) < FirstIndex(columns', types'[b])
    {
      assert types'[a] == types[a] && types'[b] == types[b];
    }
    forall a | 0 <= a < |types|
      ensures FirstIndex(columns', types'[a]) < FirstIndex(columns', types'[|types|])
    {
      assert types'[a] == types[a];
    }
  }

  /** The line a column becomes in the model template. */
  function ColumnLine(c: Column): string {
    c.name + " = Column(" + c.typ + ")"
  }

  /** `validate`: the PascalCase name check. */
  function Validate(args: Args): (r: Result<bool>)
    ensures r.Ok?
    ensures r.value <==> PascalName.IsPascalName(args.name)
  {
    Ok(PascalName.Matches(args.name))
  }

  /** `generate`: extract the columns, then render the `model` template into
      `bot/models` with the name, one line per column and the types list. */
  function Generate(args: Args): (r: Result<Request>)
    ensures r.Ok? <==> ExtractColumns(args.params).Ok?
    ensures r.Err? ==> r.error.ValueError?
    ensures r.Ok? ==> r.value.RenderFile? && r.value.template == Name && r.value.outputDir == OutputDir
    ensures r.Ok? ==> "model_name" in r.value.variables && r.value.variables["model_name"] == Text(args.name)
    ensures r.Ok? ==> "model_columns" in r.value.variables && r.value.variables["model_columns"].TextList?
    ensures r.Ok? ==> |r.value.variables["model_columns"].items| == |args.params|
    ensures r.Ok? ==> "model_column_types" in r.value.variables && r.value.variables["model_column_types"].TextList?
    ensures r.Ok? ==> TypesSummarise(ExtractColumns(args.params).value.columns, r.value.variables["model_column_types"].items)
    ensures r.Ok? ==> r.value.variables.Keys == {"model_name", "model_columns", "model_column_types"}
  {
    var extraction :- ExtractColumns(args.params);
    var lines := seq(|extraction.columns|, i requires 0 <= i < |extraction.columns| => ColumnLine(extraction.columns[i]));
    Ok(RenderFile(Name, map[
      "model_name" := Text(args.name),
      "model_columns" := TextList(lines),
      "model_column_types" := TextList(extraction.types)
    ], OutputDir))
  }

  /** Each parameter `n:T` becomes the line `n = Column(T)`, at its own
      position. */
  lemma GenerateRendersColumns(args: Args, i: nat, n: string, t: string)
    requires Generate(args).Ok?
    requires i < |args.params| && args.params[i] == n + ":" + t
    ensures Generate(args).value.variables["model_columns"].items[i] == n + " = Column(" + t + ")"
  {
    var extraction := ExtractColumns(args.params).value;
    var c := extraction.columns[i];
    ParseParamUnique(c.name, c.typ);
    assert ':' !in n && ':' !in t by {
      assert Occurrences(args.params[i], ':') == 1;
      ParseParamUnique(c.name, c.typ);
      assert ParseParam(n + ":" + t) == Ok(c);
      SplitOneColon(n, t);
    }
    ParseParamUnique(n, t);
  }

  /** A string with one colon that is `n:t` has no colon in n or t. */
  lemma SplitOneColon(n: string, t: string)
    requires Occurrences(n + ":" + t, ':') == 1
    ensures ':' !in n && ':' !in t
  {
    OccurrencesConcat(n, ":" + t, ':');
    OccurrencesConcat(":", t, ':');
    assert n + ":" + t == n + (":" + t);
    if ':' in n {
      OccurrencesPositive(n, ':');
    }
    if ':' in t {
      OccurrencesPositive(t, ':');
    }
  }

  lemma {:induction false} OccurrencesConcat(a: string, b: string, c: char)
    ensures Occurrences(a + b, c) == Occurrences(a, c) + Occurrences(b, c)
    decreases |a|
  {
    if |a| == 0 {
      assert a + b == b;
    } else {
      assert (a + b)[1..] == a[1..] + b;
      OccurrencesConcat(a[1..], b, c);
    }
  }

  lemma {:induction false} OccurrencesPositive(s: string, c: char)
    requires c in s
    ensures Occurrences(s, c) > 0
    decreases |s|
  {
    if s[0] != c {
      assert c in s[1..];
      OccurrencesPositive(s[1..], c);
    }
  }

  /** The command: validate the name first, then generate. A bad name is
      reported as ValidationError even when the parameters are malformed. */
  function RunCommand(args: Args): (r: Result<Request>)
    ensures !PascalName.IsPascalName(args.name) ==> r == Err(ValidationError(ValidationFailed))
    ensures PascalName.IsPascalName(args.name) ==> r == Generate(args)
    ensures r.Ok? <==> PascalName.IsPascalName(args.name) && ExtractColumns(args.params).Ok?
  {
    Run(Validate, Generate, args)
  }

  /** One more parameter: the loop body of `extract_columns`. */
  lemma ExtractAppend(init: seq<string>, param: string, n: string, t: string, done: Extraction)
    requires ExtractColumns(init) == Ok(done)
    requires ':' !in n && ':' !in t && param == n + ":" + t
    ensures ExtractColumns(init + [param]) ==
      Ok(Extraction(done.columns + [Column(n, t)], AddType(done.types, Column(n, t))))
  {
    ParseParamUnique(n, t);
    assert (init + [param])[..|init|] == init;
  }

  /** A repeated type is listed once, while both parameters keep their
      columns (as `name:String email:String` gives the one type String). */
  lemma ExampleRepeatedType(n1: string, n2: string, t: string)
    requires ':' !in n1 && ':' !in n2 && ':' !in t && t != "Integer"
    ensures ExtractColumns([n1 + ":" + t, n2 + ":" + t]) == Ok(Extraction([Column(n1, t), Column(n2, t)], [t]))
  {
    var p1, p2 := n1 + ":" + t, n2 + ":" + t;
    var c1, c2 := Column(n1, t), Column(n2, t);
    ExtractAppend([], p1, n1, t, Extraction([], []));
    assert [] + [p1] == [p1] && [] + [c1] == [c1];
    assert AddType([], c1) == [t];
    ExtractAppend([p1], p2, n2, t, Extraction([c1], [t]));
    assert [p1] + [p2] == [p1, p2] && [c1] + [c2] == [c1, c2];
  }

  /** An "Integer" column is kept but its type is not listed (as in
      `age:Integer`). */
  lemma ExampleInteger(n: string)
    requires ':' !in n
    ensures ExtractColumns([n + ":Integer"]) == Ok(Extraction([Column(n, "Integer")], []))
  {
    ExtractAppend([], n + ":Integer", n, "Integer", Extraction([], []));
    assert [] + [n + ":Integer"] == [n + ":Integer"];
    assert AddType([], Column(n, "Integer")) == [];
    assert [] + [Column(n, "Integer")] == [Column(n, "Integer")];
  }

  /** A parameter without a colon, or with two, is refused. */
  lemma ExampleMalformed()
    ensures ExtractColumns(["name"]).Err?
    ensures ExtractColumns(["a:b:c"]).Err?
  {
    assert Occurrences("name", ':') == 0;
    assert Occurrences("a:b:c", ':') == 2;
  }
}
