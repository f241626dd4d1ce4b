/** The cog generator (grace/generators/cog_generator.py): the PascalCase
    name check and the request that renders the `cog` template into
    `bot/extensions`. */
module CogGenerator {
  import opened Errors
  import opened Generators
  import PascalName

  const Name := "cog"
  const OutputDir := "bot/extensions"

  /** Arguments Click passes to the command; the description is optional. */
  datatype Args = Args(name: string, description: Option<string>)

  /** `validate`: the PascalCase name check; it never raises. */
  function Validate(args: Args): (r: Result<bool>)
    ensures r.Ok?
    ensures r.value <==> PascalName.IsPascalName(args.name)
  {
    Ok(PascalName.Matches(args.name))
  }

  /** The description the template receives: the one given, or "". */
  function Description(args: Args): (d: string)
    ensures args.description.Some? ==> d == args.description.value
    ensures args.description.None? ==> d == ""
  {
    match args.description
    case None => ""
    case Some(d) => d
  }

  /** `generate`: render the `cog` template into `bot/extensions` with the
      name and the description, and nothing else. */
  function Generate(args: Args): (r: Result<Request>)
    ensures r.Ok? && r.value.RenderFile?
    ensures r.value.template == Name && r.value.outputDir == OutputDir
    ensures r.value.variables.Keys == {"cog_name", "cog_description"}
    ensures r.value.variables["cog_name"] == Text(args.name)
    ensures r.value.variables["cog_description"] == Text(Description(args))
  {
    Ok(RenderFile(Name, map["cog_name" := Text(args.name), "cog_description" := Text(Description(args))], OutputDir))
  }

  /** The command: a PascalCase name is rendered, any other is refused with
      ValidationError before anything is rendered. */
  function RunCommand(args: Args): (r: Result<Request>)
    ensures r.Ok? <==> PascalName.IsPascalName(args.name)
    ensures r.Ok? ==> r == Generate(args)
    ensures r.Err? ==> r.error == ValidationError(ValidationFailed)
  {
    Run(Validate, Generate, args)
  }

  /** Leaving the description out renders the same file as passing "". */
  lemma DefaultDescription(name: string)
    ensures RunCommand(Args(name, None)) == RunCommand(Args(name, Some("")))
  {
  }

  /** The names the command accepts and refuses in the cog generator's own
      usage: `CogExample` is a cog name; hyphens and underscores are not
      allowed, whatever the case. */
  lemma ExampleNames()
    ensures Validate(Args("CogExample", None)) == Ok(true)
    ensures Validate(Args("cog-example", None)) == Ok(false)
    ensures Validate(Args("cog_example", None)) == Ok(false)
    ensures Validate(Args("Cog-Example", None)) == Ok(false)
    ensures Validate(Args("Cog_Example", None)) == Ok(false)
  {
    PascalName.Refusals("Cog-Example", 3);
    PascalName.Refusals("Cog_Example", 3);
    PascalName.Refusals("cog-example", 0);
    PascalName.Refusals("cog_example", 0);
    PascalName.Accepts("CogExample");
  }
}
