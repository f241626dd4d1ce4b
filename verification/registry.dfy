/** The engine registry of grace/model.py: `Model.set_engine` stores an
    engine as a class attribute and `Model.get_engine` reads it back.
    Python looks a class attribute up on the class itself first and then on
    its base, so an engine set on `Model` serves every model class that has
    none of its own. Model classes derive directly from `Model`. */
module Registry {
  import opened Errors

  /** A database engine, identified by its URL. */
  datatype Engine = Engine(url: string)

  /** The `_engine` attributes that have been assigned, by class name; None
      is an explicit `None`, which hides the base class's engine. */
  type Bindings = map<string, Option<Engine>>

  const BaseClass := "Model"

  /** The RuntimeError message `get_engine` raises. */
  function NoSessionMessage(cls: string): string {
    "No session set for " + cls + ". Call Model.set_engine() first."
  }

  /** `cls.set_engine(engine)`: assign the attribute on cls itself. */
  function SetEngine(b: Bindings, cls: string, engine: Option<Engine>): (r: Bindings)
    ensures r.Keys == b.Keys + {cls}
    ensures r[cls] == engine
    ensures forall c :: c in b && c != cls ==> r[c] == b[c]
  {
    b[cls := engine]
  }

  /** The value `cls._engine` evaluates to: the class's own attribute, else
      the base class's, else the declared default None. */
  function Lookup(b: Bindings, cls: string): Option<Engine> {
    if cls in b then b[cls] else if BaseClass in b then b[BaseClass] else None
  }

  /** `cls.get_engine()`: the engine, or RuntimeError when it is None. */
  function GetEngine(b: Bindings, cls: string): (r: Result<Engine>)
    ensures r.Ok? <==> Lookup(b, cls).Some?
    ensures r.Ok? ==> r.value == Lookup(b, cls).value
    ensures r.Err? ==> r.error == RuntimeError(NoSessionMessage(cls))
  {
    match Lookup(b, cls)
    case None => Err(RuntimeError(NoSessionMessage(cls)))
    case Some(e) => Ok(e)
  }

  /** Before any `set_engine`, every class fails. */
  lemma NothingSet(cls: string)
    ensures GetEngine(map[], cls) == Err(RuntimeError(NoSessionMessage(cls)))
  {
  }

  /** `get_engine` returns the engine last passed to `set_engine` on the
      same class, and fails after `set_engine(None)`. */
  lemma GetAfterSet(b: Bindings, cls: string, engine: Option<Engine>)
    ensures engine.Some? ==> GetEngine(SetEngine(b, cls, engine), cls) == Ok(engine.value)
    ensures engine.None? ==> GetEngine(SetEngine(b, cls, engine), cls).Err?
  {
  }

  /** An engine set on `Model` reaches every class without one of its own. */
  lemma BaseServesUnbound(b: Bindings, engine: Engine, cls: string)
    requires cls !in b
    ensures GetEngine(SetEngine(b, BaseClass, Some(engine)), cls) == Ok(engine)
  {
  }

  /** Setting the engine of one model class leaves every other class's
      engine as it was. */
  lemma SetIsLocal(b: Bindings, cls: string, engine: Option<Engine>, other: string)
    requires cls != BaseClass && other != cls
    ensures GetEngine(SetEngine(b, cls, engine), other) == GetEngine(b, other)
  {
  }
}
