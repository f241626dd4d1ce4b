# grace-framework core in Dafny

A Dafny model of two parts of the grace framework, a toolkit for Discord
bots, with proofs about both.

The first part is the active-record layer of `grace/model.py`:
- the engine registry (`set_engine` / `get_engine`);
- the `Query` builder (`where`, `limit`, `offset`, `order_by`) and its
  terminal operations (`all`, `first`, `one`, `count`);
- the class and instance operations `create`, `find`, `find_by`, `save`,
  `update` and `delete`.

An in-memory table stands in for the database. Each engine has its own
database, which holds one table per model class. The table behaves as
SQLite, the default adapter (grace/config.py:104), does for a table with an
integer primary key:
- its rows are keyed by primary key;
- a scan without ORDER BY returns them in increasing key order;
- a row inserted without a key gets one more than the largest stored key,
  or 1 in an empty table, so a key freed by deleting the largest row can be
  handed out again.

A model class declares its columns. Each has a default, or none (a field
declared without one, which an instance that is not given it holds as
NULL), and is NOT NULL unless its type is `Optional`.

An instance is in one of three states:
- new: built by the class and never stored, perhaps with an `id` given to
  the constructor;
- stored: saved or loaded, and tied to the row with its key;
- deleted: its own `delete` removed its row.

Saving binds the key and the values as statement parameters, and the driver
refuses an integer beyond SQLite's 64 bits (OverflowError). Saving a new
instance INSERTs it; a key that is already stored, or NULL in a NOT NULL
column, violates a constraint (IntegrityError). Saving a stored instance
UPDATEs its row; a row deleted meanwhile matches nothing (StaleDataError).
Saving a deleted instance is refused before any SQL runs
(InvalidRequestError).

WHERE conditions are functions from a row to a boolean. ORDER BY columns are
functions from a row to an integer; rows compare column by column, and a
descending column is a negated key. The façade operations are pure
functions from a state to a new state and a result.

The second part is the command-line generators (`grace/generator.py` and
`grace/generators/*.py`):
- the `camel_case_to_space` template filter;
- the NAME check and the validate-then-generate dispatch of the base
  `Generator`;
- the PascalCase name regex shared by the model and cog generators;
- `extract_columns` and the column lines of the model generator;
- the project-name rule and the project template's variables;
- the migration-message rule.

What a generator would render is described by a `Request` value (template,
variables, output directory). Rendering it is not part of the model.

Modules, one per file: `Errors` (exceptions, `Option`, `Result`), `Chars`,
`CamelCase`, `Generators`, `PascalName`, `ModelGenerator`, `CogGenerator`,
`ProjectGenerator`, `MigrationGenerator`, `Registry`, `Tables`, `Ordering`,
`Queries`, `ActiveRecord`.

Where the code and its tests disagree, the model follows the code:
- `ProjectGenerator.validate` raises ValueError for a bad name. Its tests
  expect a false return value.
- The project tests call `generate_template(..., variables=...)`. The code
  passes `values=`; see Findings.

## Model

| member | source | states |
|---|---|---|
| CamelCase.CharacterPositions | grace/generator.py:48-58 | output length is input length plus the number of lowercase→capital pairs; input character i sits at position i + (pairs up to i), with the inserted space just before it when i is a pair, so deleting the inserted spaces gives the input back in order |
| CamelCase.Concatenation | grace/generator.py:58 | converting a + b converts each half and adds one space between them exactly when a ends in a lowercase letter and b starts with a capital |
| CamelCase.NoBoundaryInOutput | grace/generator.py:58 | the output never has a lowercase letter directly followed by a capital |
| CamelCase.FixedPointIff | grace/generator.py:58 | the input comes back unchanged if and only if it has no lowercase→capital pair |
| CamelCase.UnchangedWithoutBoundary | grace/generator.py:58 | an input without a lowercase→capital pair is returned unchanged |
| CamelCase.Idempotent | grace/generator.py:58 | applying the filter twice equals applying it once |
| CamelCase.CamelCaseToSpace | grace/generator.py:48-58 | the filter lengthens its input by exactly one space per lowercase→capital pair |
| CamelCase.ConvertLength | grace/generator.py:58 | the scan adds exactly one character per substitution |
| CamelCase.ExampleTwoWords | grace/generator.py:58 | "HelloWorld" becomes "Hello World" |
| CamelCase.ExampleUnchanged | grace/generator.py:58 | "HTTP" and "" are unchanged |
| CamelCase.ExampleAcronymInside | grace/generator.py:58 | "getURL" becomes "get URL": only the first capital of a run follows a lowercase letter |
| Generators.NewGenerator | grace/generator.py:77-86 | construction succeeds iff NAME is present and non-empty; otherwise GeneratorError "Generator name must be defined." |
| Generators.Run | grace/generator.py:102-105 | a false verdict gives ValidationError "Validation failed." without generating; a true verdict gives exactly what generate gives for the same arguments; an exception from validate propagates |
| Generators.RefusalIgnoresGenerate | grace/generator.py:102-104 | after a refusal the outcome does not depend on generate at all |
| Generators.BaseGeneratorNotImplemented | grace/generator.py:92-109 | the default validate accepts every argument list and the base generate then raises NotImplementedError |
| Generators.ConcreteNamesAccepted | grace/generator.py:83-84 | the four concrete NAMEs pass the check; None and "" fail with GeneratorError |
| PascalName.Matches | grace/generators/model_generator.py:42 | the regex match holds iff, after dropping one trailing newline, the name is an ASCII capital followed by ASCII letters and digits |
| PascalName.GreedyRunDecides | grace/generators/model_generator.py:42 | the greedy `[a-zA-Z0-9]*` run followed by `$` decides the match, so backtracking is never needed |
| PascalName.Refusals | grace/generators/model_generator.py:42 | the empty name, a lowercase or digit first character, and any '-', '_' or ' ' are refused |
| PascalName.Accepts | grace/generators/model_generator.py:42 | an ASCII capital followed by ASCII letters and digits is accepted |
| PascalName.TrailingNewline | grace/generators/model_generator.py:42 | one trailing newline is accepted by `$`; two are not |
| ModelGenerator.Split | grace/generators/model_generator.py:49 | `split(':')` gives one more piece than there are colons; no piece has a colon; joining the pieces gives the input |
| ModelGenerator.SplitJoin | grace/generators/model_generator.py:49 | splitting a join of colon-free pieces gives the pieces back |
| ModelGenerator.ParseParam | grace/generators/model_generator.py:49 | the unpacking succeeds iff the parameter has exactly one colon, giving the colon-free name and type around it; otherwise ValueError |
| ModelGenerator.ParseParamUnique | grace/generators/model_generator.py:49 | `n:t` with colon-free n and t unpacks to exactly (n, t) |
| ModelGenerator.ExtractColumns | grace/generators/model_generator.py:44-56 | succeeds iff every parameter has exactly one colon; then one column per parameter, in order, with `name:type == param`; the types have no duplicates, never "Integer", include every other parameter type, in order of first appearance, and there are at most as many types as parameters |
| ModelGenerator.AppendKeepsSummary | grace/generators/model_generator.py:51-54 | one loop iteration keeps the summary of the types list: no duplicates, no "Integer", every type present, first-appearance order |
| ModelGenerator.ExtractAppend | grace/generators/model_generator.py:48-54 | one more well-formed parameter appends its column and updates the types as the loop body does |
| ModelGenerator.ExampleRepeatedType | grace/generators/model_generator.py:51-52 | two parameters of one type (not "Integer") give two columns and that type listed once |
| ModelGenerator.ExampleInteger | grace/generators/model_generator.py:51-52 | an "Integer" parameter gives its column but no listed type |
| ModelGenerator.ExampleMalformed | grace/generators/model_generator.py:49 | "name" (no colon) and "a:b:c" (two colons) make extraction fail |
| ModelGenerator.Validate | grace/generators/model_generator.py:32-42 | never raises; true iff the name is a PascalCase name |
| ModelGenerator.Generate | grace/generators/model_generator.py:16-30 | succeeds iff extraction does (otherwise ValueError); renders template "model" into "bot/models" with exactly the variables model_name, model_columns (one column line per parameter) and model_column_types (each parameter type once, in order of first appearance, without "Integer") |
| ModelGenerator.GenerateRendersColumns | grace/generators/model_generator.py:20 | parameter i, `n:T`, becomes the line `n = Column(T)` at position i |
| ModelGenerator.RunCommand | grace/generators/model_generator.py:32-56 | a non-PascalCase name gives ValidationError before any parameter is parsed; the command succeeds iff the name is valid and every parameter has one colon |
| CogGenerator.Validate | grace/generators/cog_generator.py:28-38 | never raises; true iff the name is a PascalCase name |
| CogGenerator.Generate | grace/generators/cog_generator.py:16-26 | renders template "cog" into "bot/extensions" with exactly the variables cog_name and cog_description |
| CogGenerator.Description | grace/generators/cog_generator.py:12-16 | an omitted description is "" |
| CogGenerator.RunCommand | grace/generators/cog_generator.py:16-38 | renders exactly when the name is PascalCase, otherwise ValidationError |
| CogGenerator.DefaultDescription | grace/generators/cog_generator.py:12-16 | omitting the description renders the same as passing "" |
| CogGenerator.ExampleNames | grace/generators/cog_generator.py:38 | "CogExample" is accepted; "cog-example", "cog_example", "Cog-Example" and "Cog_Example" are refused |
| ProjectGenerator.IsLowerPy | grace/generators/project_generator.py:35 | `str.islower()` holds iff there is a lowercase letter and no capital |
| ProjectGenerator.Validate | grace/generators/project_generator.py:27-37 | Ok iff the name is lower-case and contains '-', and then true; otherwise ValueError with the source's message; never false |
| ProjectGenerator.Variables | grace/generators/project_generator.py:21-25 | exactly project_name = name, project_description = "", and database "yes" unless database is False, in which case "no" |
| ProjectGenerator.AcceptsHyphenated | grace/generators/project_generator.py:35-37 | lowercase letters and hyphens, with at least one of each, are accepted (as "example-project" is) |
| ProjectGenerator.Refusals | grace/generators/project_generator.py:35-36 | a capital anywhere, no hyphen, or no lowercase letter at all ("-", "1-2") makes validate raise |
| ProjectGenerator.ExampleName | grace/generators/project_generator.py:35-37 | "example-project" is accepted |
| ProjectGenerator.GenerateAsWritten | grace/generators/project_generator.py:21 | the call with `values=` raises TypeError, since generate_template takes `variables` |
| ProjectGenerator.RunCommandAsWritten | grace/generators/project_generator.py:10-37 | as written the command always fails: ValueError for a bad name, TypeError for a good one |
| ProjectGenerator.NoProjectAsWritten | grace/generators/project_generator.py:21 | as written no name ever yields a project, and for every valid name the outcome differs from the corrected one |
| ProjectGenerator.Generate | grace/generators/project_generator.py:21-25 | corrected generate: one cookiecutter request for template "project" whose context is the variables mapping |
| ProjectGenerator.RunCommand | grace/generators/project_generator.py:10-37 | with the corrected generate, a valid name renders the project; any other fails with the ValueError validate raises, never ValidationError |
| ProjectGenerator.DatabaseDefault | grace/generators/project_generator.py:10 | omitting database is the same as passing True |
| MigrationGenerator.Strip | grace/generators/migration_generator.py:36 | `strip()` leaves a slice of the input with no whitespace at either end and only whitespace cut away around it |
| MigrationGenerator.StripUnique | grace/generators/migration_generator.py:36 | padding a trimmed string with whitespace on both sides and stripping gives it back |
| MigrationGenerator.StripIdempotent | grace/generators/migration_generator.py:36 | stripping twice equals stripping once |
| MigrationGenerator.StripParts | grace/generators/migration_generator.py:36 | every message is its stripped form with whitespace, and only whitespace, on either side |
| MigrationGenerator.StripIgnoresPadding | grace/generators/migration_generator.py:36 | leading and trailing whitespace never change the stripped message, hence never the verdict |
| MigrationGenerator.Validate | grace/generators/migration_generator.py:26-36 | never raises; true iff the message has a character that is not whitespace |
| MigrationGenerator.RefusesBlank | grace/generators/migration_generator.py:36 | the empty message and whitespace-only messages are refused |
| Registry.SetEngine | grace/model.py:70-72 | the engine is assigned on the class itself; every other class's assignment is kept |
| Registry.GetEngine | grace/model.py:74-81 | the class's engine, found on the class or else on Model; RuntimeError "No session set for <cls>. Call Model.set_engine() first." when it is None |
| Registry.NothingSet | grace/model.py:74-81 | before any set_engine every class fails with RuntimeError |
| Registry.GetAfterSet | grace/model.py:70-81 | get_engine returns the engine last set on the same class, and fails after set_engine(None) |
| Registry.BaseServesUnbound | grace/model.py:70-81 | an engine set on Model serves every class without one of its own |
| Registry.SetIsLocal | grace/model.py:70-72 | setting a model class's engine leaves every other class's engine unchanged |
| Tables.RowsAreStored | grace/model.py:47-49 | a scan returns exactly the stored rows, each with its key |
| Tables.RowsInKeyOrder | grace/model.py:47-49 | a scan without ORDER BY returns the rows in strictly increasing key order, as SQLite scans a rowid table |
| Tables.NextKey | grace/model.py:119-124 | the key SQLite gives a row inserted without one is not stored, exceeds every stored key, is 1 in an empty table and otherwise is one more than a stored key, hence than the largest |
| Tables.Put | grace/model.py:119-124 | storing a row sets exactly that key's fields and keeps the table well formed |
| Tables.Remove | grace/model.py:126-129 | deleting a row removes exactly that key and keeps the table well formed |
| Tables.RemovedLargestIsReused | grace/model.py:119-129 | after the row with the largest key is deleted, the next insertion without a key gets a key no larger than it when any row is left, and exactly that key again when the key below it is stored |
| Queries.NewQuery | grace/model.py:25-28 | building a query fails with get_engine's RuntimeError when no engine is set; otherwise it starts with no conditions, columns, limit or offset |
| Queries.Where | grace/model.py:30-33 | the conditions join those already given; nothing else changes |
| Queries.Limit | grace/model.py:35-37 | the limit is replaced; nothing else changes |
| Queries.Offset | grace/model.py:39-41 | the offset is replaced; nothing else changes |
| Queries.OrderBy | grace/model.py:43-45 | the columns follow those already given; nothing else changes |
| Queries.Filter | grace/model.py:30-33 | a row is kept iff it is in the input and meets every condition |
| Queries.All | grace/model.py:47-49 | every row returned is stored and meets every condition; the rows are in ORDER BY order; their number is what OFFSET and LIMIT leave of the matching rows |
| Queries.Count | grace/model.py:59-64 | count, computed independently by counting matching rows and applying offset and limit, equals the length of all() |
| Queries.First | grace/model.py:51-53 | None iff all() is empty, otherwise its first row; never an error |
| Queries.One | grace/model.py:55-57 | the row iff exactly one is returned; NoResultFound on none, MultipleResultsFound on two or more |
| Queries.AllMembership | grace/model.py:30-49 | without offset and limit, a row is returned iff it is stored and meets every condition given across all where calls |
| Queries.WhereComposes | grace/model.py:30-33 | where(a).where(b) is where(a, b) |
| Queries.WhereCommutes | grace/model.py:30-33 | the order of where calls does not change the rows returned |
| Queries.OffsetLimitSlices | grace/model.py:35-49 | offset(k).limit(n).all() is the slice [k:k+n] of the ordered matching rows, cut to their number: exactly n rows when that many follow position k, and none when k is past the end |
| Queries.FirstIsLeast | grace/model.py:51-53 | without an offset, first() is a matching row whose key is least among all matching rows, and it exists whenever a row matches (and the limit is not 0) |
| Queries.OneIffUnique | grace/model.py:55-57 | without offset and limit, one() succeeds iff exactly one stored row matches, and returns that row |
| Ordering.SortBy | grace/model.py:43-49 | ORDER BY yields a permutation of the rows ordered by their key vectors |
| Ordering.NoKeysKeepsOrder | grace/model.py:47-49 | with no ORDER BY columns the scan order is kept |
| ActiveRecord.SetEngine | grace/model.py:70-72 | after set_engine the class's get_engine returns that engine; the data is untouched |
| ActiveRecord.Save | grace/model.py:119-124 | RuntimeError without an engine; InvalidRequestError "has been deleted" iff the instance was deleted; OverflowError iff a key or value does not fit in 64 bits; StaleDataError iff a stored instance's row is gone; IntegrityError iff a new instance repeats a stored key or a NOT NULL column holds NULL; no other error; otherwise the returned instance is stored with the saved values, which meet every NOT NULL constraint, keeps the key it had, or else gets one more than the largest stored key (1 in an empty table); exactly that row of the class's table changes and every other table is untouched |
| ActiveRecord.NewInstance | grace/model.py:85 | a new, unstored instance; every declared column takes the value passed or its default, and a field without a default that is not passed is NULL; keywords that are not columns are ignored; the key is the integer id passed, if any |
| ActiveRecord.Create | grace/model.py:83-86 | RuntimeError without an engine; OverflowError iff the id or a value does not fit in 64 bits; IntegrityError iff the id passed is already stored or a NOT NULL column is left NULL (a required field not passed); no other error; otherwise the record is stored under the id passed or under a fresh key, holds exactly the declared columns with the value passed or the default, and exactly that row of the table changes |
| ActiveRecord.Find | grace/model.py:100-103 | find(id) returns the stored row with that key, or None when there is none; RuntimeError without an engine; OverflowError for a key beyond 64 bits |
| ActiveRecord.FindBy | grace/model.py:105-113 | RuntimeError without an engine; AttributeError "<cls> has no column '<key>'" for a key that is no attribute; a method name finds nothing; for a column, OverflowError for an integer beyond 64 bits, and otherwise None iff no stored row holds value there, else the first such row in scan order |
| ActiveRecord.FirstWith | grace/model.py:113 | the row found is the first one holding the value, and None iff no row holds it |
| ActiveRecord.FindByIsFirstOfWhere | grace/model.py:105-113 | find_by(key, value) on a column is where(column == value).first() |
| ActiveRecord.Update | grace/model.py:131-135 | the instance is saved after the keywords naming columns are assigned: the same errors as save, judged on the assigned values (InvalidRequestError for a deleted instance, OverflowError, StaleDataError, IntegrityError for a NULL in a NOT NULL column); on success the stored values are the assigned ones, the key is kept, and exactly its row of the table changes |
| ActiveRecord.Delete | grace/model.py:126-129 | RuntimeError without an engine; InvalidRequestError "Instance is not persisted" for an instance never stored; OverflowError for a key beyond 64 bits; otherwise exactly its key leaves the class's table (a row already gone is no error), every other table is untouched, and the instance comes back marked deleted with its key and values |
| ActiveRecord.ClassWhere | grace/model.py:88-90 | cls.where(...) is a query on the class with the class's engine, exactly those conditions and no ORDER BY, LIMIT or OFFSET; RuntimeError without an engine |
| ActiveRecord.ClassWhereAll | grace/model.py:88-94 | cls.where(...).all() is the class's stored rows that meet every condition, in scan order |
| ActiveRecord.ClassAll | grace/model.py:92-94 | cls.all() is exactly the stored rows in scan order |
| ActiveRecord.ClassFirst | grace/model.py:96-98 | cls.first() is None iff the table is empty, and otherwise the first row of the scan, which has the least key |
| ActiveRecord.ClassCount | grace/model.py:115-117 | cls.count() is the number of stored keys |
| ActiveRecord.SaveThenFind | grace/model.py:100-124 | a saved instance is found again under its key (a key within 64 bits), every other key finds what it found before, and no other class's table changes |
| ActiveRecord.CreateThenFind | grace/model.py:83-103 | after create, find with the new key (within 64 bits) returns the created record and every other key finds what it found before |
| ActiveRecord.SaveCounts | grace/model.py:115-124 | saving a new instance adds exactly one row; saving a stored one adds none |
| ActiveRecord.Assign | grace/model.py:132-134 | the setattr loop: every keyword naming a column is assigned, every other value is kept, no other field appears, and the instance's state and key are unchanged |
| ActiveRecord.DeleteThenFind | grace/model.py:100-129 | after delete, find with the deleted key gives None, and every other key finds what it found before |
| ActiveRecord.DeleteThenSave | grace/model.py:119-135 | the instance delete leaves behind cannot be saved or updated again: InvalidRequestError "has been deleted" before any SQL runs |
| ActiveRecord.ExampleUnsetRequired | grace/model.py:83-86 | for the test suite's User (name, email and age required, active defaulting to True), create(name="T") fails with IntegrityError, since email and age are NULL |
| ActiveRecord.ExampleKeyTooLarge | grace/model.py:83-86 | create with id 2^63 fails with OverflowError |
| ActiveRecord.UpdateThenFind | grace/model.py:100-135 | after update, find shows the updated record (under a key within 64 bits), and every other key finds what it found before |

## Left out

- Session handling, SQL compilation and the `_ModelMeta` metaclass that makes `table=True` the default (grace/model.py:14-21). These are SQLAlchemy and SQLModel behaviour; the in-memory table replaces them.
- Conditions and ORDER BY columns are opaque functions. Building them from column expressions and comparison operators is SQLAlchemy's work. Descending order is a negated key.
- Ordering.SortBy: the order of rows with equal keys is not stated, because SQL does not define it. The insertion sort is one admissible choice.
- Tables: only SQLite's behaviour is modelled: key-order scans and largest-plus-one keys. Other adapters (a PostgreSQL sequence that never reuses a key, a scan order the server chooses) are not. SQLite's choice of a random unused key once the largest key reaches 2^63 - 1 is left out, as is a scan through an index, which can return the rows of `where` and `find_by` in another order.
- Queries.Limit, Queries.Offset: only non-negative counts are modelled. SQLite reads a negative LIMIT as no limit and a negative OFFSET as 0.
- Queries.Where: `where`, `limit`, `offset` and `order_by` change the Query object in place and return it (grace/model.py:30-45). The model returns a new query value, so a call whose result is dropped (`q.limit(1)` without `q = ...`) has no effect here, where in the source it changes `q`.
- Ordering.SortBy: ORDER BY columns map a row to an integer. Ordering by a text, boolean or NULL column (SQLite's type order and collation) is not modelled.
- ActiveRecord.HasAttribute: only the columns, `id` and the methods defined in grace/model.py are attributes. The many attributes inherited from SQLModel and pydantic are not listed.
- ActiveRecord.NewInstance: requires any `id` passed to be an integer or None. SQLite converts a text key such as '5' to the integer 5 and refuses other text keys; neither is modelled.
- ActiveRecord.FindBy: values are assumed to carry their column's type, and a column matches by plain equality of values. SQLite compares with column affinity, so in the source `find_by("age", "30")` finds a row with age 30 and `find_by("active", 1)` finds a row saved with active=True (SQLAlchemy binds True as 1); the model finds neither. Column types are not part of the model, so Create and Update also store any value in any column, as SQLite's affinity-based columns mostly do.
- ActiveRecord.Save: when the largest stored key is 2^63 - 1, SQLite picks an unused key at random; the model hands out 2^63, which `find` cannot bind, so SaveThenFind, CreateThenFind and UpdateThenFind promise the round trip only for keys within 64 bits.
- ActiveRecord.Save: NOT NULL is the only column constraint modelled; UNIQUE, CHECK, foreign keys and server-side defaults are not.
- ActiveRecord.Update: requires the keywords not to include `id` or a method name. Reassigning the primary key of a stored instance, and pydantic's refusal to set a method, are not modelled.
- ActiveRecord.Save: a stored instance is written whole; SQLAlchemy UPDATEs only the attributes changed since the instance was loaded, so a column changed meanwhile by another session keeps that value in the source. For the same reason, a stored instance with no changed attribute whose row is gone fails in the source only at the refresh, with InvalidRequestError, where the model gives StaleDataError.
- ActiveRecord.Save, ActiveRecord.Create: the messages of IntegrityError and StaleDataError, which come from the database and from SQLAlchemy, are left out.
- ActiveRecord.Delete: the messages of SQLAlchemy's InvalidRequestError ("is not persisted", "has been deleted") also name the instance, which is left out.
- ActiveRecord.FindByIsFirstOfWhere: conditions are opaque functions, so the query side binds no parameters; the lemma is stated for values that fit in 64 bits, where neither side raises OverflowError.
- Registry.GetEngine: follows grace/model.py:77-80 as written: an unset engine raises RuntimeError. The repository's own test of that case (tests/test_model.py:63-66) is skipped because the metaclass `__getattr__` interferes with reading an unset `_engine`; that pydantic behaviour is not modelled.
- Model classes derive directly from `Model`. Deeper class hierarchies are not modelled.
- The database and migration generators, `register_generators`, and `generate_template` / `generate_file` are not part of this model (cookiecutter, jinja2, file writes).
- MigrationGenerator.generate: it calls Alembic through `self.app`, which is not set anywhere in the code shown. It is not modelled.
- ProjectGenerator.IsLowerPy: only ASCII letters are cased. Python's `islower` also counts non-ASCII cased letters.
- MigrationGenerator.Strip: uses Python's full `str.isspace` set, including the non-ASCII spaces, not only ASCII whitespace.
- Logging, `print` and `info` calls are left out.

## Findings

| source | as written | input that shows it | evidently intended | confidence | as-written member | corrected member |
|---|---|---|---|---|---|---|
| grace/generators/project_generator.py:21 | `generate` calls `generate_template(self.NAME, values={...})`, but `generate_template` (grace/generator.py:111) has no `values` parameter, so the call raises TypeError | any valid name, e.g. `example-project` | pass the mapping as `variables`, so cookiecutter receives project_name, project_description and database as extra context | not executed | ProjectGenerator.NoProjectAsWritten | ProjectGenerator.RunCommand |
