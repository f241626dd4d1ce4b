/** The project generator (grace/generators/project_generator.py): the
    `lower-case-with-hyphens` name check and the cookiecutter request for
    the `project` template. */
module ProjectGenerator {
  import opened Errors
  import opened Generators
  import opened Chars

  const Name := "project"
  const InvalidName := "Invalid name format. Name must be in lower case and separated by '-'"
  const UnexpectedValues := "Generator.generate_template() got an unexpected keyword argument 'values'"

  /** Arguments of `generate`; `database` defaults to True. */
  datatype Args = Args(name: string, database: Option<bool>)

  predicate HasLower(s: string) {
    exists i :: 0 <= i < |s| && IsLower(s[i])
  }

  predicate NoUpper(s: string) {
    forall i :: 0 <= i < |s| ==> !IsUpper(s[i])
  }

  /** Python's `str.islower()`, scanning left to right: an uppercase letter
      refuses at once; otherwise the answer is whether a lowercase letter
      was seen, given that `cased` says whether one was seen before s. */
  function IsLowerFrom(cased: bool, s: string): (r: bool)
    ensures r <==> (cased || HasLower(s)) && NoUpper(s)
    decreases |s|
  {
    if |s| == 0 then cased
    else if IsUpper(s[0]) then false
    else
      var r := IsLowerFrom(cased || IsLower(s[0]), s[1..]);
      assert forall i :: 1 <= i < |s| ==> s[i] == s[1..][i - 1];
      assert HasLower(s[1..]) ==> HasLower(s) by {
        if HasLower(s[1..]) {
          var j :| 0 <= j < |s[1..]| && IsLower(s[1..][j]);
          assert IsLower(s[j + 1]);
        }
      }
      r
  }

  /** `str.islower()`: at least one cased character, and every cased
      character lowercase. */
  function IsLowerPy(s: string): (r: bool)
    ensures r <==> HasLower(s) && NoUpper(s)
  {
    IsLowerFrom(false, s)
  }

  /** `validate`: a lower-case name containing a hyphen is accepted; any
      other name raises ValueError. A false verdict is never returned. */
  function Validate(args: Args): (r: Result<bool>)
    ensures r.Ok? <==> HasLower(args.name) && NoUpper(args.name) && '-' in args.name
    ensures r.Ok? ==> r.value
    ensures r.Err? ==> r.error == ValueError(InvalidName)
  {
    if !IsLowerPy(args.name) || '-' !in args.name then Err(ValueError(InvalidName))
    else Ok(true)
  }

  /** The values the `project` template receives. */
  function Variables(args: Args): (v: map<string, string>)
    ensures v.Keys == {"project_name", "project_description", "database"}
    ensures v["project_name"] == args.name && v["project_description"] == ""
    ensures v["database"] == "yes" <==> args.database != Some(false)
    ensures v["database"] == "no" <==> args.database == Some(false)
  {
    var database := match args.database case None => true case Some(b) => b;
    map["project_name" := args.name, "project_description" := "",
        "database" := if database then "yes" else "no"]
  }

  /** `generate` as written: it passes the values under the keyword
      `values`, which `generate_template` does not accept, so the call
      raises TypeError before any template is rendered. */
  function GenerateAsWritten(args: Args): (r: Result<Request>)
    ensures r == Err(TypeError(UnexpectedValues))
  {
    Err(TypeError(UnexpectedValues))
  }

  /** `generate` as intended: the values go to `generate_template` as its
      `variables`, that is, as cookiecutter's extra context. */
  function Generate(args: Args): (r: Result<Request>)
    ensures r.Ok? && r.value.RenderProject? && r.value.template == Name
    ensures r.value.context == Variables(args)
  {
    Ok(RenderProject(Name, Variables(args)))
  }

  function RunCommandAsWritten(args: Args): (r: Result<Request>)
    ensures r.Err?
    ensures Validate(args).Ok? ==> r.error == TypeError(UnexpectedValues)
    ensures Validate(args).Err? ==> r.error == ValueError(InvalidName)
  {
    Run(Validate, GenerateAsWritten, args)
  }

  /** The command with the corrected `generate`: a valid name is rendered,
      any other fails with the ValueError `validate` raises, never with the
      base class's ValidationError. */
  function RunCommand(args: Args): (r: Result<Request>)
    ensures r.Ok? <==> Validate(args).Ok?
    ensures r.Ok? ==> r.value == RenderProject(Name, Variables(args))
    ensures r.Err? ==> r.error == ValueError(InvalidName)
  {
    Run(Validate, Generate, args)
  }

  /** As written, no project is ever generated: every name ends in an
      exception, a valid one in the TypeError. */
  lemma NoProjectAsWritten(args: Args)
    ensures !RunCommandAsWritten(args).Ok?
    ensures Validate(args).Ok? ==> RunCommandAsWritten(args) != RunCommand(args)
  {
  }

  /** Leaving `database` out is the same as passing True. */
  lemma DatabaseDefault(name: string)
    ensures RunCommand(Args(name, None)) == RunCommand(Args(name, Some(true)))
  {
  }

  /** A name made of lowercase letters and hyphens, with at least one of
      each, is accepted (as `example-project` is). */
  lemma AcceptsHyphenated(args: Args, i: nat, j: nat)
    requires forall k :: 0 <= k < |args.name| ==> IsLower(args.name[k]) || args.name[k] == '-'
    requires i < |args.name| && IsLower(args.name[i])
    requires j < |args.name| && args.name[j] == '-'
    ensures Validate(args) == Ok(true)
  {
  }

  /** A capital anywhere (`Example-Project`), a missing hyphen
      (`ExampleProject`, `example`) or no letter at all (`-`, `1-2`) makes
      `validate` raise. */
  lemma Refusals(args: Args, i: nat)
    ensures i < |args.name| && IsUpper(args.name[i]) ==> Validate(args).Err?
    ensures '-' !in args.name ==> Validate(args).Err?
    ensures (forall k :: 0 <= k < |args.name| ==> !IsLower(args.name[k])) ==> Validate(args).Err?
  {
  }

  lemma ExampleName()
    ensures Validate(Args("example-project", None)) == Ok(true)
  {
    var s := "example-project";
    AcceptsHyphenated(Args(s, None), 0, 7);
  }
}
