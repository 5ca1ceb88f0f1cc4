# instant-xml serializer core, modelled in Dafny

This project models the `Serializer` of the instant-xml crate
(`instant-xml/src/ser.rs`). `Serializer` is the namespace-aware XML writer that
every generated `ToXml` implementation drives. It holds four things:

- a text sink;
- a table from namespace URI to prefix;
- the current default namespace;
- a three-valued state (`Element`, `Attribute`, `Scalar`) that says which
  token may come next.

Nested elements open a namespace scope with `push(Context<N>)`. That call
returns an undo frame of the same size, and `pop` of that frame closes the scope
again.

The project has five modules:

- `Types` (types.dfy): the shared values. These are the error, `Option`,
  `Result`, `State`, `Prefix`, `Context<N>` (its N slots as a sequence) and
  `Context::default`.
- `Scope` (scope.dfy): the algebra of namespace tables behind `push` and `pop`:
  - which bindings a push declares (`Installed`);
  - the text it writes (`Declarations`);
  - the undo frame it returns (`UndoSlots`);
  - what `pop` does with an undo frame (`Restore`);
  - when `pop` reaches its `unreachable!()` (`PopDefined` fails);
  - scope balance for one frame.
- `Model` (model.dfy): the writer as a value (`Writer`), with one function per
  operation from the old writer to the result and the new writer. The
  properties of single calls are proved here.
- `Ser` (serializer.dfy): `class Serializer` with the source's four fields.
  Its methods update those fields in place. `Push` is a loop that fills an
  array of N undo slots. `Pop` is a loop over the undo slots. Each method
  states the new state in full and is proved equal to the matching `Model`
  function.
- `Trace` (trace.dfy): call sequences as a caller issues them, with
  arbitrarily nested `push … pop` scopes. It proves scope balance at every
  depth, and proves that `pop` never reaches its `unreachable!()`.

Four facts about the code shape the model:

- **The `Entry::Occupied` arm of `push` is dead.** `push` skips an entry whose
  URI the table already binds (ser.rs:139). So when it reaches the `entry()`
  match (ser.rs:146), the entry is always vacant. Every undo slot therefore
  records the URI with the previous prefix `""`, and `pop` always removes such
  entries and never puts a prefix back. The model has only the branch that can
  run (`Scope.Removals`).
- **Bindings to the empty URI leak.** A frame entry with a non-empty prefix
  and the empty URI (`Prefix { prefix: "p", ns: "" }`) is declared and
  inserted by `push`. Its undo slot, however, is `Prefix { prefix: "", ns: "" }`,
  which `pop` takes for an unused slot and skips (ser.rs:167). The binding
  therefore survives the scope. `Scope.EmptyUriBindingLeaks` and
  `Model.PushPopLeaksEmptyUri` prove this. The balance theorems take as a
  hypothesis that no frame binds a prefix to `""` (`NoEmptyUri`). Freedom
  from the `unreachable!()` of `pop` needs no such hypothesis
  (`Trace.RunNeverPanics`). `xmlns:p=""` is not a legal declaration under the
  Namespaces in XML 1.0 recommendation, so this is recorded as behaviour rather
  than as a defect.
- **First entry wins.** A frame that names one URI twice with two prefixes
  declares only the first: inserting it makes the URI bound, so the loop skips
  the second (`Scope.FirstWins`, `Scope.InstalledBindsFirst`).
- **Error from a missing attribute prefix.** `write_attr` in a namespace that
  is neither the default namespace nor bound in the table fails with
  `UnexpectedState`. Nothing has been written at that point.

## Model

| member | source | states |
|---|---|---|
| Types.DefaultContext | instant-xml/src/ser.rs:202-209 | `Context::default()` has an empty default namespace and exactly N slots, all of them the empty sentinel `Prefix("", "")`; `push` starts its undo frame from it |
| Ser.Serializer.constructor | instant-xml/src/ser.rs:22-29 | a new serializer keeps the sink's text, has an empty table, an empty default namespace and state `Element`, matching `Model.New` |
| Model.WriteStart | instant-xml/src/ser.rs:31-64 | succeeds exactly in state `Element`; on success the state is `Attribute`, the scope is untouched and the output only grows |
| Ser.Serializer.WriteStart | instant-xml/src/ser.rs:31-64 | wrong state: `UnexpectedState` and nothing changes; in the default namespace `<name` and no prefix; a scalar in a bound namespace `<prefix:name` and that prefix; otherwise `<name xmlns="ns"` and no prefix; the new state is `Attribute` and the scope is unchanged |
| Model.DefaultNamespaceShortCircuit | instant-xml/src/ser.rs:41-45 | an element in the default namespace is written as `<name` with no namespace token and no prefix, whatever `scalar` is |
| Model.ScalarUsesBoundPrefix | instant-xml/src/ser.rs:49-58 | a scalar element in a non-default namespace that has a prefix is written `<prefix:name`, and that prefix is returned for the end tag |
| Model.WriteAttr | instant-xml/src/ser.rs:66-89 | succeeds exactly in state `Attribute` when the namespace is the default one or has a prefix; on success the state is `Attribute` again, the scope is untouched and the output only grows |
| Ser.Serializer.WriteAttr | instant-xml/src/ser.rs:66-89 | fails with `UnexpectedState`, changing nothing, outside `Attribute` or for an unbound non-default namespace; otherwise writes ` name="value"` or ` prefix:name="value"`, the value going through `WriteStr` in state `Scalar`, and ends in `Attribute` |
| Model.WriteStr | instant-xml/src/ser.rs:91-99 | succeeds exactly in states `Element` and `Scalar`; on success the state is `Element`, the scope is untouched and the output only grows |
| Ser.Serializer.WriteStr | instant-xml/src/ser.rs:91-99 | wrong state: `UnexpectedState` and nothing changes; otherwise the value's text is appended verbatim and the state becomes `Element` |
| Model.EndStart | instant-xml/src/ser.rs:101-109 | succeeds exactly in state `Attribute`; on success the state is `Element`, the scope is untouched and the output only grows |
| Ser.Serializer.EndStart | instant-xml/src/ser.rs:101-109 | wrong state: `UnexpectedState` and nothing changes; otherwise `>` is appended and the state becomes `Element` |
| Model.WriteClose | instant-xml/src/ser.rs:111-122 | succeeds exactly in state `Element`, which it keeps; the scope is untouched and the output only grows |
| Ser.Serializer.WriteClose | instant-xml/src/ser.rs:111-122 | wrong state: `UnexpectedState` and nothing changes; otherwise `</prefix:name>` or `</name>` is appended and the state stays `Element` |
| Scope.InstallFrom | instant-xml/src/ser.rs:134-159 | the loop of `push` from a given slot on declares at most as many bindings as there are slots left |
| Scope.InstallFromEntries | instant-xml/src/ser.rs:134-141 | every binding the loop declares comes from the frame, has a non-empty prefix and a URI the table did not bind |
| Scope.InstallFromDistinct | instant-xml/src/ser.rs:139-149 | the loop never declares the same URI twice, because the entry it inserts makes later entries for that URI bound |
| Scope.InstallFromBinds | instant-xml/src/ser.rs:134-152 | after the loop every frame entry with a prefix has its URI bound, by the old table or by a declaration |
| Scope.FirstWins | instant-xml/src/ser.rs:134-152 | the first prefixed entry of the frame for a URI the table did not bind is itself declared; later entries for the same URI are the ones skipped |
| Scope.InstalledFacts | instant-xml/src/ser.rs:134-159 | the facts of `InstallFromEntries`, `InstallFromDistinct` and `InstallFromBinds` for a whole push, from the first slot |
| Scope.InstalledBindsFirst | instant-xml/src/ser.rs:134-159 | after a push the table's URIs are exactly the old ones plus every URI the frame gives a prefix, and a URI that was unbound maps to the prefix of the first frame entry naming it |
| Scope.InstallFromNothingWhenBound | instant-xml/src/ser.rs:135-141 | a frame whose prefixed URIs are all bound already declares nothing |
| Scope.BindFacts | instant-xml/src/ser.rs:146-152 | inserting bindings adds exactly their URIs to the table, leaves every other URI's prefix alone, and for distinct URIs binds each to its prefix |
| Scope.PushLoopDeclaresInstalled | instant-xml/src/ser.rs:133-159 | the loop's accumulated table, output and declared list are the old table with the declared bindings inserted, the old output plus their ` xmlns:prefix="ns"` declarations in order, and the declared list itself |
| Model.Push | instant-xml/src/ser.rs:124-162 | succeeds exactly in state `Attribute`; on success it installs the frame's default namespace, returns the old one in the undo frame, returns N undo slots all with prefix `""`, keeps every existing binding, makes the table's URIs exactly the old ones plus the frame's prefixed URIs, and binds each newly bound URI to the prefix of the first frame entry naming it |
| Ser.Serializer.Push | instant-xml/src/ser.rs:124-162 | wrong state: `UnexpectedState` and nothing changes; otherwise the table gains exactly the installed bindings, the output gains their declarations, the default namespace is the frame's, and the undo frame holds the old default namespace, one `("", ns)` slot per installed binding in order and sentinels after them |
| Model.PushReusesBoundPrefix | instant-xml/src/ser.rs:139-141 | a URI that already has a prefix is not redeclared and keeps its prefix after a push |
| Model.PushOfBoundUrisWritesNothing | instant-xml/src/ser.rs:134-141 | a push whose prefixed URIs are all bound writes nothing and leaves the table as it was |
| Scope.RestoreRemovals | instant-xml/src/ser.rs:164-185 | popping the `("", ns)` slots of distinct bound URIs never hits `unreachable!()` and removes exactly those URIs except the empty one, whose slot looks unused and is skipped |
| Scope.PopStep | instant-xml/src/ser.rs:166-183 | one turn of the loop of `pop` folds slot `i` onto the table the earlier slots left, and that table binds the slot's URI unless the slot is unused |
| Scope.RemoveInstalled | instant-xml/src/ser.rs:139-152 | the URIs a push declares are distinct, were not bound before, and removing them from the new table gives back the old one |
| Scope.InstalledNonEmpty | instant-xml/src/ser.rs:134-152 | when no frame entry binds a prefix to the empty URI, no declared binding is for it |
| Scope.PopAfterPushDefined | instant-xml/src/ser.rs:124-185 | whatever the body does to the table between a push and its pop, provided it removes no binding, the pop never hits `unreachable!()` and every URI bound before the push is still bound after the pop |
| Model.Pop | instant-xml/src/ser.rs:164-185 | `pop` restores the recorded default namespace and leaves the output and the state alone |
| Ser.Serializer.Pop | instant-xml/src/ser.rs:164-185 | the table becomes the fold of the undo slots over it (skip a sentinel, remove on prefix `""`, otherwise restore the prefix); the default namespace is the recorded one; output and state are unchanged |
| Scope.PushPopRestoresTable | instant-xml/src/ser.rs:124-185 | popping the undo frame of a push never hits `unreachable!()` and gives back exactly the original table, for frames with no prefix bound to the empty URI |
| Model.PushPopRestoresScope | instant-xml/src/ser.rs:124-185 | push then pop of its undo frame gives back the table and the default namespace, for frames with no prefix bound to the empty URI |
| Scope.EmptyUriBindingLeaks | instant-xml/src/ser.rs:135-185 | a frame binding a non-empty prefix to `""` installs that binding, and the following pop skips its slot and leaves the binding in the table |
| Model.PushPopLeaksEmptyUri | instant-xml/src/ser.rs:135-185 | push then pop of such a frame ends with a table that differs from the original |
| Trace.Token | instant-xml/src/ser.rs:31-122 | a token operation that succeeds does not change the scope and only appends to the output |
| Trace.RunNeverPanics | instant-xml/src/ser.rs:164-185 | for every nesting of calls, whatever the frames bind, `pop` never reaches `unreachable!()`, and a run that completes keeps every URI bound at its start |
| Trace.RunKeepsScope | instant-xml/src/ser.rs:124-185 | for arbitrarily nested calls whose frames bind no prefix to the empty URI, a run that completes leaves the table and the default namespace as they were |
| Ser.Serializer.PrefixFor | instant-xml/src/ser.rs:187-189 | the result is a prefix exactly when the URI is bound, and then it is the bound prefix |
| Ser.Serializer.DefaultNs | instant-xml/src/ser.rs:191-193 | the result is the current default namespace |

## Left out

- Sink failures: the `?` after each `write_fmt`/`write_char` can return a
  `fmt::Error`, possibly after part of a token has been written. The sink here
  is a string that only grows, so appending always succeeds. The error variant
  that wraps `fmt::Error` is not part of this model.
- `value.serialize(self)` in `write_attr` calls into a `ToXml` implementation.
  The model shows the value as text written through `write_str` in state
  `Scalar`, which is what the scalar implementations do. Implementations that
  fail, or that do anything else, are not part of this model.
- `dbg!` in `write_attr`: `ok_or` takes its argument by value, so the `dbg!`
  runs, and prints to standard error, on every attribute in a non-default
  namespace, found or not. The printing is left out; it does not change the
  result.
- Lifetimes, `&'static str` and `HashMap` hashing: strings are values and the
  table is a `map`. Iteration order of the map is never observed by the source.
- `const N`: a frame's N is the length of its slot sequence. The model does not
  enforce that a pop receives a frame of the same N as its push; `Trace` pairs
  them by construction.
- Ser.Serializer.Pop and Model.Pop: the `unreachable!()` panic is the
  precondition `PopDefined`. `Trace` models it as the outcome `Panicked` and
  proves that outcome unreachable for every nesting of calls.
- The `Entry::Occupied` arm of `push` (ser.rs:147) is not modelled, because it
  cannot run (see above).
- Escaping of text and attribute values, and the rest of the crate: `ToXml`
  implementations, the derive macro, deserialization and the end-to-end tests.
