/** The base generator command of grace/generator.py: the NAME check made
    when a generator is constructed, the validate-then-generate dispatch
    Click calls, and the default `validate` and `generate`. What a concrete
    generator would write is described by a `Request` to the template layer,
    which itself (cookiecutter, jinja2, file writes) is outside the model. */
module Generators {
  import opened Errors

  /** A constructed generator command, identified by its NAME. */
  datatype Generator = Generator(name: string)

  /** A value handed to a template. */
  datatype TemplateValue = Text(text: string) | TextList(items: seq<string>)

  /** A call into the template layer. */
  datatype Request =
    | RenderFile(template: string, variables: map<string, TemplateValue>, outputDir: string)
    | RenderProject(template: string, context: map<string, string>)

  const NameMissing := "Generator name must be defined."
  const ValidationFailed := "Validation failed."

  /** `Generator.__init__`: a NAME that is None or empty is refused. */
  function NewGenerator(name: Option<string>): (r: Result<Generator>)
    ensures r.Ok? <==> name.Some? && |name.value| > 0
    ensures r.Ok? ==> r.value.name == name.value
    ensures r.Err? ==> r.error == GeneratorError(NameMissing)
  {
    if name.None? || name.value == "" then Err(GeneratorError(NameMissing))
    else Ok(Generator(name.value))
  }

  /** `Generator._generate`: the command's callback. A failing `validate`
      stops before `generate`: a false verdict raises ValidationError and an
      exception raised by `validate` itself propagates unchanged. */
  function Run<A>(validate: A -> Result<bool>, generate: A -> Result<Request>, args: A): (r: Result<Request>)
    ensures r.Ok? ==> validate(args) == Ok(true) && r == generate(args)
    ensures validate(args) == Ok(true) ==> r == generate(args)
    ensures validate(args) == Ok(false) ==> r == Err(ValidationError(ValidationFailed))
    ensures validate(args).Err? ==> r == Err(validate(args).error)
  {
    match validate(args)
    case Err(e) => Err(e)
    case Ok(valid) => if valid then generate(args) else Err(ValidationError(ValidationFailed))
  }

  /** The default `validate`: every argument list is accepted. */
  function DefaultValidate<A>(args: A): Result<bool> {
    Ok(true)
  }

  /** The base `generate`, left to subclasses. */
  function DefaultGenerate<A>(args: A): Result<Request> {
    Err(NotImplementedError)
  }

  /** A generator that overrides neither method validates everything and
      then fails with NotImplementedError, whatever the arguments. */
  lemma BaseGeneratorNotImplemented<A>(args: A)
    ensures DefaultValidate(args) == Ok(true)
    ensures Run(DefaultValidate, DefaultGenerate, args) == Err(NotImplementedError)
  {
  }

  /** When validation refuses, the result does not depend on `generate`:
      any two generate functions give the same ValidationError. */
  lemma RefusalIgnoresGenerate<A>(validate: A -> Result<bool>, g1: A -> Result<Request>,
                                  g2: A -> Result<Request>, args: A)
    requires validate(args) == Ok(false)
    ensures Run(validate, g1, args) == Run(validate, g2, args) == Err(ValidationError(ValidationFailed))
  {
  }

  /** The concrete generators' NAMEs are all accepted by the NAME check. */
  lemma ConcreteNamesAccepted()
    ensures NewGenerator(Some("model")) == Ok(Generator("model"))
    ensures NewGenerator(Some("cog")) == Ok(Generator("cog"))
    ensures NewGenerator(Some("project")) == Ok(Generator("project"))
    ensures NewGenerator(Some("migration")) == Ok(Generator("migration"))
    ensures NewGenerator(None) == Err(GeneratorError(NameMissing))
    ensures NewGenerator(Some("")) == Err(GeneratorError(NameMissing))
  {
  }
}
