# Dynamic health-check configuration manager, modelled in Dafny

This project models `ConfigurationManager`, the resolution layer of a .NET
dynamic health-check library. A health-check kind (an implementation type)
is registered with the context type it expects. The manager then reads a
hierarchical configuration laid out as

```
<ConfigSection>:
  HealthChecks:
    - HealthCheckName: <kind name>
      ServiceName: <service>
      Context: <kind-specific settings>
    - ...
```

and resolves, for a kind, either one bound context (selected by service
name), all bound contexts in document order, or one raw per-service record.
The two context lookups never read an entry's `HealthCheckName`: an entry
configured for another kind is selected and bound into this kind's context
type just the same (`Scenarios.ContextLookupIgnoresKindName`). Only the
raw-record lookup filters by kind name.

Files, one module each:

- `wrappers.dfy`: `Option` (a nullable reference) and `Result` (return or throw).
- `enumerable.dfy`: the LINQ pipelines the manager uses. `FirstIndex` and
  `FirstOrNone` model `FirstOrDefault(p)`, `Where` models `Where(p)`, and
  `Choose` models `Select(f).OfType<U>()`. The module also holds their laws.
- `constants.dfy`: the well-known section names.
- `config_tree.dfy`: the configuration tree (`Section`: key, nullable value,
  ordered children) and `GetSection`.
- `configuration_manager.dfy`: the registry, navigation, the two context
  lookups, the raw-record lookup, and their properties.
- `scenarios.dfy`: concrete trees with three services, a missing Context, an
  empty list and an entry with no children.

Modelling decisions:

- The manager's static state becomes the value `Manager(registry, configSection)`.
  Registration is a function from one manager to the next.
- Kinds are `HealthCheckKind(id, name)`. `id` is the type's full identity
  (its assembly-qualified name), which keys the registry as `Type` does at
  lines 10, 20 and 30. `name` is the short `Type.Name` that the raw-record
  lookup matches on at line 79. Context types are opaque `ContextShape`
  identifiers standing for `typeof(TContext)`.
- Binding a section into a typed value (`Get<T>`) is library code, so it is
  passed in as a function parameter:
  - `bind: (Section, ContextShape) -> Option<V>` binds a context.
  - `bindConfigs` binds the HealthChecks list into records.
  - `bindRoot` binds the whole root section.
- Every thrown `ArgumentException` is the single error
  `NotWellConfigured(kind)`.
- A null `serviceName` is `None`.

One point where the code does something other than what its own words
suggest; the model follows the code:

- The comment at line 34 says a null service name selects "the first context
  as default". The predicate at lines 37-40 is `Any` over the entry's
  children, so it selects the first entry that has at least one child. An
  entry with no children is passed over. See
  `DefaultSelectsFirstEntryWithChildren` and `EmptyNameSkipsChildlessEntry`.

## Model

| member | source | states |
|---|---|---|
| `ConfigurationManager.SetHealthCheckContext` | src/DynamicHealthCheck/ConfigurationManager.cs:16-22 | The registry's keys grow by exactly `kind`. Every kind already present keeps its shape, so the first writer wins. A new kind maps to `shape`. The root-section name is unchanged. |
| `ConfigurationManager.RegisterIdempotent` | src/DynamicHealthCheck/ConfigurationManager.cs:20-21 | Registering the same pair twice leaves the same state as registering it once. |
| `ConfigurationManager.RegisterFirstWriterWins` | src/DynamicHealthCheck/ConfigurationManager.cs:20-21 | A second registration of a kind, with any shape, changes nothing. |
| `ConfigurationManager.RegisterCommutes` | src/DynamicHealthCheck/ConfigurationManager.cs:20-21 | Registrations of two different kinds give the same state in either order. |
| `ConfigurationManager.RegisteredShapeIsTheFirst` | src/DynamicHealthCheck/ConfigurationManager.cs:20-31 | Register a kind with `first` and then with `second`. The lookup guard then accepts a shape exactly when it is `first`. |
| `ConfigurationManager.RootSection` | src/DynamicHealthCheck/ConfigurationManager.cs:84-87 | The root carries the current `configSection` as its key. When the configuration has a child with that key, the root is the first such child. Otherwise it is the empty section of that name. |
| `ConfigurationManager.HealthCheckConfigSection` | src/DynamicHealthCheck/ConfigurationManager.cs:89-92 | When the root has a HealthChecks child, this is the first such child. Otherwise it is the empty section of that name. |
| `ConfigurationManager.Get` | src/DynamicHealthCheck/ConfigurationManager.cs:69-72 | The result is the binding of the first child named by the current `configSection`, or the binding of the empty section of that name when there is none. No registry check is made. |
| `ConfigurationManager.GetHealthCheckContext` | src/DynamicHealthCheck/ConfigurationManager.cs:25-46 | The guard `WellConfigured` (lines 30-31) holds when the kind is registered with exactly this shape. When it does not hold, the call fails with the kind's error, whatever the tree. A success is the Context binding of the first selectable entry. A failure past the guard means that no entry is selectable or that the first selectable entry's binding is null. |
| `ConfigurationManager.ContextIsBindingOfFirstMatch` | src/DynamicHealthCheck/ConfigurationManager.cs:35-45 | Once the guard passes, the first selectable entry alone decides the result. Its binding is returned. If that binding is null the call fails, even when a later entry would bind. |
| `ConfigurationManager.ContextFailsWithoutMatch` | src/DynamicHealthCheck/ConfigurationManager.cs:35-45 | When no entry is selectable the call fails. |
| `ConfigurationManager.DefaultSelectsFirstEntryWithChildren` | src/DynamicHealthCheck/ConfigurationManager.cs:37-40 | With a null or empty service name, the selected entry is the first one with at least one child, and every earlier entry has none. |
| `ConfigurationManager.NamedSelection` | src/DynamicHealthCheck/ConfigurationManager.cs:38-40 | With a non-empty service name, an entry is selectable exactly when it has a `ServiceName` child whose value is that name. |
| `ConfigurationManager.GetHealthCheckContexts` | src/DynamicHealthCheck/ConfigurationManager.cs:49-66 | The call succeeds exactly when the guard passes, so the `??` on the list never fires. The list is no longer than the entries. It is empty when no entry binds, including for an empty section. When every entry binds, it is their bindings in order. |
| `ConfigurationManager.ContextsAreOrderedSelection` | src/DynamicHealthCheck/ConfigurationManager.cs:57-62 | The contexts are the non-null Context bindings taken at strictly increasing entry positions, and no bindable entry is missed. |
| `ConfigurationManager.ContextsSkipUnbindable` | src/DynamicHealthCheck/ConfigurationManager.cs:59-61 | An entry whose Context binds to null is dropped silently. The list equals the one for the entries without it. |
| `ConfigurationManager.GetHealthCheckConfigsByHealthCheckName` | src/DynamicHealthCheck/ConfigurationManager.cs:94-100 | The result is null exactly when the HealthChecks list does not bind. Otherwise it is the records with the given kind name, taken at strictly increasing positions of the bound list, each once, with none missed. |
| `ConfigurationManager.RequestedRecord` | src/DynamicHealthCheck/ConfigurationManager.cs:79-80 | Filtering by kind name and then taking the first record with the service name finds a record exactly when one matches both. That record is the first one in the whole list that matches both. |
| `ConfigurationManager.GetHealthCheckConfig` | src/DynamicHealthCheck/ConfigurationManager.cs:75-82 | The call succeeds exactly when the list binds and some record has the kind's short name and the service name. It then returns the first such record, and no registry check is made. Otherwise it fails with the kind's error. |
| `ConfigurationManager.ConfigIgnoresRegistry` | src/DynamicHealthCheck/ConfigurationManager.cs:75-82 | The raw-record lookup gives the same result for every registry. |
| `ConfigurationManager.ConfigMatchesByShortName` | src/DynamicHealthCheck/ConfigurationManager.cs:79 | Two kinds with the same short name, for example in different namespaces, resolve to the same record. |
| `ConfigurationManager.ReadsDependOnlyOnRootSection` | src/DynamicHealthCheck/ConfigurationManager.cs:69-92 | `Get` and the three lookups depend on the configuration only through the section named by the current `configSection`. |
| `ConfigurationManager.OtherRootsAreInvisible` | src/DynamicHealthCheck/ConfigurationManager.cs:84-87 | Adding or removing a top-level section under any other name changes no read. So trees kept under different root names are independent. |
| `ConfigTree.GetSection` | src/DynamicHealthCheck/ConfigurationManager.cs:91 | Child lookup returns the first child with the key. When there is none it returns the empty section with that key, never null. |
| `ConfigTree.GetSectionIgnoresOtherKeys` | src/DynamicHealthCheck/ConfigurationManager.cs:86 | Removing a child with a different key does not change the lookup. |
| `Enumerable.FirstIndex` | src/DynamicHealthCheck/ConfigurationManager.cs:37-40 | The position returned satisfies the predicate and no earlier one does. None means no element does. |
| `Enumerable.FirstOrNone` | src/DynamicHealthCheck/ConfigurationManager.cs:37-40 | `FirstOrDefault(p)`: the result is null exactly when no element satisfies `p`. Otherwise it is the element at the first position that does. |
| `Enumerable.Where` | src/DynamicHealthCheck/ConfigurationManager.cs:98-99 | Every kept element satisfies the predicate, and the result is no longer than the input. |
| `Enumerable.WhereIsChoose` | src/DynamicHealthCheck/ConfigurationManager.cs:98-99 | `Where(p)` equals the filter-map that keeps an element when `p` holds and drops it otherwise. |
| `Enumerable.WhereIsOrderedSelection` | src/DynamicHealthCheck/ConfigurationManager.cs:98-99 | `Where(p)` keeps the elements satisfying `p` at strictly increasing positions, each once, and misses none of them. |
| `Enumerable.WhereMembers` | src/DynamicHealthCheck/ConfigurationManager.cs:98-99 | Every element that satisfies the predicate is kept, and every kept element comes from the input. |
| `Enumerable.FirstOfWhere` | src/DynamicHealthCheck/ConfigurationManager.cs:79-80 | Filtering by kind name and then taking the first record with the service name gives the first record of the whole list that matches both. |
| `Enumerable.Choose` | src/DynamicHealthCheck/ConfigurationManager.cs:59-62 | The filter-map is no longer than its input. It is empty when every image is null. It is the images in order when none is null. |
| `Enumerable.ChooseAppend` | src/DynamicHealthCheck/ConfigurationManager.cs:59-62 | The filter-map of a concatenation is the concatenation of the filter-maps. |
| `Enumerable.ChooseIsOrderedSelection` | src/DynamicHealthCheck/ConfigurationManager.cs:59-62 | The filter-map is the images at increasing positions, covering every position whose image is not null. |
| `Scenarios.EmptyNamePicksFirstService` | src/DynamicHealthCheck/ConfigurationManager.cs:34-42 | Three services svcA, svcB, svcC are configured. A null or empty name returns svcA's context. |
| `Scenarios.NamePicksThatService` | src/DynamicHealthCheck/ConfigurationManager.cs:35-42 | In the same tree, "svcB" returns svcB's context. |
| `Scenarios.UnknownNameFails` | src/DynamicHealthCheck/ConfigurationManager.cs:35-45 | In the same tree, "svcD" fails. |
| `Scenarios.AllThreeContextsInOrder` | src/DynamicHealthCheck/ConfigurationManager.cs:57-62 | In the same tree, all three contexts come back in document order. |
| `Scenarios.MissingContextIsSkipped` | src/DynamicHealthCheck/ConfigurationManager.cs:57-65 | The middle entry has no Context. The other two contexts come back and the call succeeds. |
| `Scenarios.EmptyListGivesNoContexts` | src/DynamicHealthCheck/ConfigurationManager.cs:57-65 | An empty HealthChecks list gives an empty list, not an error. |
| `Scenarios.EmptyNameSkipsChildlessEntry` | src/DynamicHealthCheck/ConfigurationManager.cs:37-40 | The first entry has no children. The empty-name lookup then returns the second entry's context. |
| `Scenarios.SameNameTypesRegisterSeparately` | src/DynamicHealthCheck/ConfigurationManager.cs:10-31 | Two distinct types with the same short name register separately. Each passes the guard with its own context type. |
| `Scenarios.ContextLookupIgnoresKindName` | src/DynamicHealthCheck/ConfigurationManager.cs:35-42 | An earlier entry configured for another kind ("Http") with the same service name is the one the Ping lookup binds and returns. |
| `Scenarios.RawRecordWithoutRegistration` | src/DynamicHealthCheck/ConfigurationManager.cs:75-82 | With nothing registered, svcB's raw record is found and an unknown service fails. |

## Left out

- Concurrency: the registry is a plain unsynchronised `Dictionary`, with no locking to model. Registration is a sequential state transition.
- Exception message text and the generic constraints (`class`, `IHealthCheck`). A type is reduced to its identity and short name, and every exception is the one error value.
- The binder internals (`Get<T>`): which sections bind and into what, and conversion exceptions. Binders are function parameters. The scenarios assume three things of them. The empty section binds to null. A Context section holding a setting binds to a non-null value. The three-entry HealthChecks list binds to the three records that match its leaves.
- Configuration key semantics: keys are compared case-sensitively. Colon-separated paths in `ConfigSection` are not split. Children are taken in the order given, with no numeric sorting of array keys and no merging of several providers. Where keys repeat, `GetSection` takes the first child.
- The `Constants` class is not part of this model. Its four names, used at lines 13, 40, 41, 60 and 91, become string constants named after them. Their values are assumed, and only their distinctness is used.
- The `DynamicHealthCheckConfig` and `DynamicHealthCheckRoot` models are not part of this model. A record keeps only the kind name, the service name and an enabled flag, and the root is a type parameter.
- Setting `ConfigSection` is a field update of `Manager`. Reads take the current value, and there is no separate operation for it.
- Enumerable.Where: its own contract states only that kept elements satisfy the predicate. Order, multiplicity and completeness are stated by `WhereIsChoose` and `WhereIsOrderedSelection`, because putting them on the function makes every proof that uses it too costly.
- ConfigurationManager.Get: its contract says which section is bound but nothing about the bound value, which is the binder's business. Its dependence on the root section is stated by `ReadsDependOnlyOnRootSection` and `OtherRootsAreInvisible`.
