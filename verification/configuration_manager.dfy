/** The configuration manager of the dynamic health-check library: a
    registry from health-check kind to the context shape it expects, and the
    lookups that walk root section -> HealthChecks -> per-service entries to
    bind one context, all contexts, or a raw per-service record. */
module ConfigurationManager {
  import opened Wrappers
  import opened ConfigTree
  import opened Constants
  import Enumerable

  /** A health-check implementation type: `id` is its full identity (the
      assembly-qualified name, which distinguishes nested and same-named
      types) and `name` its short `Type.Name`, the only part the raw-record
      lookup matches on. Two kinds are the same registry key exactly when
      both parts agree. */
  datatype HealthCheckKind = HealthCheckKind(id: string, name: string)

  /** Identity of the context type a health-check kind is bound into. */
  datatype ContextShape = ContextShape(typeName: string)

  /** The single error every lookup raises: the kind "has not been well
      configured". */
  datatype ConfigError = NotWellConfigured(kind: HealthCheckKind)

  /** One bound record of the HealthChecks list, reduced to the fields the
      manager compares plus the enabled flag. */
  datatype HealthCheckConfig = HealthCheckConfig(healthCheckName: Option<string>, serviceName: Option<string>, enabled: bool)

  type Registry = map<HealthCheckKind, ContextShape>

  /** The manager's process-wide state: the kind -> shape registry and the
      name of the root configuration section. */
  datatype Manager = Manager(registry: Registry, configSection: string)

  /** Empty registry, default root section. */
  const Initial: Manager := Manager(map[], DefaultConfigSectionName)

  // ---------------------------------------------------------------------
  // Type registry

  /** Registration is first-writer-wins: a kind already present keeps its
      shape, a new kind is added with `shape`, and nothing else changes. */
  function SetHealthCheckContext(m: Manager, kind: HealthCheckKind, shape: ContextShape): (r: Manager)
    ensures r.configSection == m.configSection
    ensures r.registry.Keys == m.registry.Keys + {kind}
    ensures forall k :: k in m.registry ==> r.registry[k] == m.registry[k]
    ensures kind !in m.registry ==> r.registry[kind] == shape
  {
    if kind in m.registry then m else m.(registry := m.registry[kind := shape])
  }

  /** Registering the same pair twice is the same as registering it once. */
  lemma RegisterIdempotent(m: Manager, kind: HealthCheckKind, shape: ContextShape)
    ensures SetHealthCheckContext(SetHealthCheckContext(m, kind, shape), kind, shape) == SetHealthCheckContext(m, kind, shape)
  {
  }

  /** A later registration of the same kind, whatever its shape, is ignored. */
  lemma RegisterFirstWriterWins(m: Manager, kind: HealthCheckKind, first: ContextShape, second: ContextShape)
    ensures SetHealthCheckContext(SetHealthCheckContext(m, kind, first), kind, second) == SetHealthCheckContext(m, kind, first)
  {
  }

  /** Registrations of different kinds do not interfere: their order is irrelevant. */
  lemma RegisterCommutes(m: Manager, k1: HealthCheckKind, s1: ContextShape, k2: HealthCheckKind, s2: ContextShape)
    requires k1 != k2
    ensures SetHealthCheckContext(SetHealthCheckContext(m, k1, s1), k2, s2)
         == SetHealthCheckContext(SetHealthCheckContext(m, k2, s2), k1, s1)
  {
  }

  /** The guard both context lookups start with: `kind` is registered, and
      registered with exactly `shape`. */
  predicate WellConfigured(registry: Registry, kind: HealthCheckKind, shape: ContextShape) {
    kind in registry && registry[kind] == shape
  }

  /** After a kind's first registration with `first`, the guard accepts
      `first` and rejects every other shape, including one registered later. */
  lemma RegisteredShapeIsTheFirst(m: Manager, kind: HealthCheckKind, first: ContextShape, second: ContextShape, asked: ContextShape)
    requires kind !in m.registry
    ensures var r := SetHealthCheckContext(SetHealthCheckContext(m, kind, first), kind, second);
      WellConfigured(r.registry, kind, asked) <==> asked == first
  {
  }

  // ---------------------------------------------------------------------
  // Tree navigation

  /** The root section named by the current `configSection`: a child of the
      configuration, or the empty section if there is none. */
  function RootSection(m: Manager, config: Section): (r: Section)
    ensures r.key == m.configSection
    ensures r == Missing(m.configSection) || r in config.children
    ensures (exists j :: 0 <= j < |config.children| && config.children[j].key == m.configSection) ==>
      exists i :: IsFirstChildWithKey(config, m.configSection, i) && r == config.children[i]
  {
    GetSection(config, m.configSection)
  }

  /** The HealthChecks child of the root section (possibly empty). */
  function HealthCheckConfigSection(m: Manager, config: Section): (r: Section)
    ensures r.key == HealthChecksKey
    ensures r == Missing(HealthChecksKey) || r in RootSection(m, config).children
    ensures var root := RootSection(m, config);
      (exists j :: 0 <= j < |root.children| && root.children[j].key == HealthChecksKey) ==>
        exists i :: IsFirstChildWithKey(root, HealthChecksKey, i) && r == root.children[i]
  {
    GetSection(RootSection(m, config), HealthChecksKey)
  }

  /** The per-service entries, in document order. */
  function Entries(m: Manager, config: Section): seq<Section> {
    HealthCheckConfigSection(m, config).children
  }

  /** `Get`: the binding of the whole root section, with no registry check. */
  function Get<R>(m: Manager, bindRoot: Section -> Option<R>, config: Section): (r: Option<R>)
    ensures (exists j :: 0 <= j < |config.children| && config.children[j].key == m.configSection) ==>
      exists i :: IsFirstChildWithKey(config, m.configSection, i) && r == bindRoot(config.children[i])
    ensures (forall j :: 0 <= j < |config.children| ==> config.children[j].key != m.configSection) ==>
      r == bindRoot(Missing(m.configSection))
  {
    bindRoot(RootSection(m, config))
  }

  // ---------------------------------------------------------------------
  // Single-context resolution

  /** `string.IsNullOrEmpty`, with None standing for null. */
  predicate IsNullOrEmpty(s: Option<string>) {
    s.None? || s.value == ""
  }

  /** The per-child test of the selection: true for every child when the
      service name is null or empty, else only for a ServiceName child
      whose value is that name. */
  predicate ChildMatches(c: Section, serviceName: Option<string>) {
    IsNullOrEmpty(serviceName) || (c.key == ServiceNameKey && c.value == serviceName)
  }

  /** An entry is selectable when ANY of its children matches; so with an
      empty service name an entry without children is never selected. */
  predicate Selects(entry: Section, serviceName: Option<string>) {
    exists i :: 0 <= i < |entry.children| && ChildMatches(entry.children[i], serviceName)
  }

  /** Entry `i` is the one `FirstOrDefault` picks. */
  ghost predicate IsSelectedEntry(entries: seq<Section>, serviceName: Option<string>, i: int) {
    0 <= i < |entries| && Selects(entries[i], serviceName)
    && forall j :: 0 <= j < i ==> !Selects(entries[j], serviceName)
  }

  /** The Context child of an entry (possibly empty). */
  function ContextOf(entry: Section): Section {
    GetSection(entry, ContextKey)
  }

  /** `GetHealthCheckContext`: after the registry guard, bind the Context of
      the first selectable entry; fail if there is none or if that one
      binding is null. */
  function GetHealthCheckContext<V>(m: Manager, bind: (Section, ContextShape) -> Option<V>, kind: HealthCheckKind,
                                    shape: ContextShape, config: Section, serviceName: Option<string>): (r: Result<V, ConfigError>)
    ensures r.Failure? ==> r.error == NotWellConfigured(kind)
    ensures !WellConfigured(m.registry, kind, shape) ==> r.Failure?
    ensures var es := Entries(m, config);
      r.Success? ==> exists i :: 0 <= i < |es| && IsSelectedEntry(es, serviceName, i) && bind(ContextOf(es[i]), shape) == Some(r.value)
    ensures var es := Entries(m, config);
      r.Failure? && WellConfigured(m.registry, kind, shape) ==>
        forall i :: 0 <= i < |es| && IsSelectedEntry(es, serviceName, i) ==> bind(ContextOf(es[i]), shape).None?
  {
    if !WellConfigured(m.registry, kind, shape) then Failure(NotWellConfigured(kind))
    else
      var es := Entries(m, config);
      match Enumerable.FirstIndex(es, (e: Section) => Selects(e, serviceName))
      case None => Failure(NotWellConfigured(kind))
      case Some(i) =>
        match bind(ContextOf(es[i]), shape)
        case None => Failure(NotWellConfigured(kind))
        case Some(v) => Success(v)
  }

  /** The first selectable entry decides the outcome on its own: its binding
      is returned, and if that binding is null the call fails even when a
      later selectable entry would bind. */
  lemma ContextIsBindingOfFirstMatch<V>(m: Manager, bind: (Section, ContextShape) -> Option<V>, kind: HealthCheckKind,
                                        shape: ContextShape, config: Section, serviceName: Option<string>, i: int)
    requires WellConfigured(m.registry, kind, shape)
    requires IsSelectedEntry(Entries(m, config), serviceName, i)
    ensures var b := bind(ContextOf(Entries(m, config)[i]), shape);
      b.Some? ==> GetHealthCheckContext(m, bind, kind, shape, config, serviceName) == Success(b.value)
    ensures var b := bind(ContextOf(Entries(m, config)[i]), shape);
      b.None? ==> GetHealthCheckContext(m, bind, kind, shape, config, serviceName) == Failure(NotWellConfigured(kind))
  {
    var es := Entries(m, config);
    var r := GetHealthCheckContext(m, bind, kind, shape, config, serviceName);
    if r.Success? {
      var k :| 0 <= k < |es| && IsSelectedEntry(es, serviceName, k) && bind(ContextOf(es[k]), shape) == Some(r.value);
      SelectedEntryIsUnique(es, serviceName, k, i);
    }
  }

  lemma SelectedEntryIsUnique(es: seq<Section>, serviceName: Option<string>, i: int, j: int)
    requires IsSelectedEntry(es, serviceName, i) && IsSelectedEntry(es, serviceName, j)
    ensures i == j
  {
  }

  /** With no selectable entry the single-context lookup fails. */
  lemma ContextFailsWithoutMatch<V>(m: Manager, bind: (Section, ContextShape) -> Option<V>, kind: HealthCheckKind,
                                    shape: ContextShape, config: Section, serviceName: Option<string>)
    requires forall i :: 0 <= i < |Entries(m, config)| ==> !Selects(Entries(m, config)[i], serviceName)
    ensures GetHealthCheckContext(m, bind, kind, shape, config, serviceName) == Failure(NotWellConfigured(kind))
  {
  }

  /** With a null or empty service name the selected entry is the first one
      that has at least one child; every earlier entry has none. */
  lemma {:induction false} DefaultSelectsFirstEntryWithChildren(es: seq<Section>, serviceName: Option<string>, i: int)
    requires IsNullOrEmpty(serviceName)
    ensures IsSelectedEntry(es, serviceName, i) <==>
      0 <= i < |es| && es[i].children != [] && forall j :: 0 <= j < i ==> es[j].children == []
  {
    assert forall e: Section :: Selects(e, serviceName) <==> e.children != [] by {
      forall e: Section
        ensures Selects(e, serviceName) <==> e.children != []
      {
        if e.children != [] {
          assert ChildMatches(e.children[0], serviceName);
        }
      }
    }
  }

  /** With a non-empty service name an entry is selectable exactly when it
      has a ServiceName child whose value is that name. */
  lemma NamedSelection(entry: Section, serviceName: string)
    requires serviceName != ""
    ensures Selects(entry, Some(serviceName)) <==>
      exists c :: c in entry.children && c.key == ServiceNameKey && c.value == Some(serviceName)
  {
  }

  // ---------------------------------------------------------------------
  // All-contexts resolution

  /** Binding of an entry's Context child into `shape`. */
  function ContextBinder<V>(bind: (Section, ContextShape) -> Option<V>, shape: ContextShape): Section -> Option<V> {
    (e: Section) => bind(ContextOf(e), shape)
  }

  /** `GetHealthCheckContexts`: after the registry guard, the non-null
      Context bindings of all entries, in document order. The trailing
      null check on the list can never fire, so past the guard the call
      never fails. */
  function GetHealthCheckContexts<V>(m: Manager, bind: (Section, ContextShape) -> Option<V>, kind: HealthCheckKind,
                                     shape: ContextShape, config: Section): (r: Result<seq<V>, ConfigError>)
    ensures r.Success? <==> WellConfigured(m.registry, kind, shape)
    ensures r.Failure? ==> r.error == NotWellConfigured(kind)
    ensures r.Success? ==> |r.value| <= |Entries(m, config)|
    ensures var es := Entries(m, config);
      r.Success? && (forall i :: 0 <= i < |es| ==> bind(ContextOf(es[i]), shape).None?) ==> r.value == []
    ensures var es := Entries(m, config);
      r.Success? && (forall i :: 0 <= i < |es| ==> bind(ContextOf(es[i]), shape).Some?) ==>
        |r.value| == |es| && forall i :: 0 <= i < |es| ==> bind(ContextOf(es[i]), shape) == Some(r.value[i])
  {
    if !WellConfigured(m.registry, kind, shape) then Failure(NotWellConfigured(kind))
    else Success(Enumerable.Choose(Entries(m, config), ContextBinder(bind, shape)))
  }

  /** The contexts are exactly the non-null Context bindings, taken at
      strictly increasing entry positions, with no bindable entry missed. */
  lemma ContextsAreOrderedSelection<V>(m: Manager, bind: (Section, ContextShape) -> Option<V>, kind: HealthCheckKind,
                                       shape: ContextShape, config: Section)
    requires WellConfigured(m.registry, kind, shape)
    ensures var r := GetHealthCheckContexts(m, bind, kind, shape, config);
      r.Success? && exists idx :: Enumerable.IsOrderedSelection(Entries(m, config), ContextBinder(bind, shape), idx, r.value)
  {
    Enumerable.ChooseIsOrderedSelection(Entries(m, config), ContextBinder(bind, shape));
  }

  /** An entry whose Context does not bind is dropped silently: the result
      is the one for the entries without it. */
  lemma ContextsSkipUnbindable<V>(bind: (Section, ContextShape) -> Option<V>, shape: ContextShape, es: seq<Section>, i: int)
    requires 0 <= i < |es| && bind(ContextOf(es[i]), shape).None?
    ensures Enumerable.Choose(es, ContextBinder(bind, shape)) == Enumerable.Choose(es[..i] + es[i + 1..], ContextBinder(bind, shape))
  {
    Enumerable.ChooseSkipsNone(es, ContextBinder(bind, shape), i);
  }

  // ---------------------------------------------------------------------
  // Raw-record resolution

  /** The record asked for: kind name and service name both equal. */
  predicate IsRequested(c: HealthCheckConfig, healthCheckName: string, serviceName: Option<string>) {
    c.healthCheckName == Some(healthCheckName) && c.serviceName == serviceName
  }

  /** `i` is the first record of `list` that is the one asked for. */
  ghost predicate IsFirstRequested(list: seq<HealthCheckConfig>, healthCheckName: string, serviceName: Option<string>, i: int) {
    0 <= i < |list| && IsRequested(list[i], healthCheckName, serviceName)
    && forall j :: 0 <= j < i ==> !IsRequested(list[j], healthCheckName, serviceName)
  }

  function HasName(healthCheckName: string): HealthCheckConfig -> bool {
    (c: HealthCheckConfig) => c.healthCheckName == Some(healthCheckName)
  }

  function HasServiceName(serviceName: Option<string>): HealthCheckConfig -> bool {
    (c: HealthCheckConfig) => c.serviceName == serviceName
  }

  /** `GetHealthCheckConfigsByHealthCheckName`: the HealthChecks list bound
      as records (null when it does not bind), filtered by kind name in order. */
  function GetHealthCheckConfigsByHealthCheckName(m: Manager, bindConfigs: Section -> Option<seq<HealthCheckConfig>>,
                                                  config: Section, healthCheckName: string): (r: Option<seq<HealthCheckConfig>>)
    ensures var bound := bindConfigs(HealthCheckConfigSection(m, config));
      r.Some? <==> bound.Some?
    ensures var bound := bindConfigs(HealthCheckConfigSection(m, config));
      r.Some? ==> (|r.value| <= |bound.value|
                   && forall i :: 0 <= i < |r.value| ==> r.value[i].healthCheckName == Some(healthCheckName))
    ensures var bound := bindConfigs(HealthCheckConfigSection(m, config));
      r.Some? ==> exists idx :: Enumerable.IsOrderedSelection(bound.value, Enumerable.KeepIf(HasName(healthCheckName)), idx, r.value)
  {
    match bindConfigs(HealthCheckConfigSection(m, config))
    case None => None
    case Some(list) =>
      Enumerable.WhereIsOrderedSelection(list, HasName(healthCheckName));
      Some(Enumerable.Where(list, HasName(healthCheckName)))
  }

  /** `GetHealthCheckConfig`: the first record whose kind name is the
      kind's short name and whose service name is `serviceName`; fails when
      the list does not bind or has no such record. The registry is not
      consulted. */
  function GetHealthCheckConfig(m: Manager, bindConfigs: Section -> Option<seq<HealthCheckConfig>>, kind: HealthCheckKind,
                                config: Section, serviceName: Option<string>): (r: Result<HealthCheckConfig, ConfigError>)
    ensures r.Failure? ==> r.error == NotWellConfigured(kind)
    ensures var bound := bindConfigs(HealthCheckConfigSection(m, config));
      r.Success? <==> bound.Some? && exists i :: 0 <= i < |bound.value| && IsRequested(bound.value[i], kind.name, serviceName)
    ensures var bound := bindConfigs(HealthCheckConfigSection(m, config));
      r.Success? ==> exists i :: IsFirstRequested(bound.value, kind.name, serviceName, i) && r.value == bound.value[i]
  {
    match GetHealthCheckConfigsByHealthCheckName(m, bindConfigs, config, kind.name)
    case None => Failure(NotWellConfigured(kind))
    case Some(named) =>
      RequestedRecord(bindConfigs(HealthCheckConfigSection(m, config)).value, kind.name, serviceName);
      match Enumerable.FirstOrNone(named, HasServiceName(serviceName))
      case None => Failure(NotWellConfigured(kind))
      case Some(c) => Success(c)
  }

  /** Filtering by kind name and then by service name picks the first
      requested record of the whole list. */
  lemma RequestedRecord(list: seq<HealthCheckConfig>, healthCheckName: string, serviceName: Option<string>)
    ensures var r := Enumerable.FirstOrNone(Enumerable.Where(list, HasName(healthCheckName)), HasServiceName(serviceName));
      && (r.Some? <==> exists i :: 0 <= i < |list| && IsRequested(list[i], healthCheckName, serviceName))
      && (r.Some? ==> exists i :: IsFirstRequested(list, healthCheckName, serviceName, i) && r.value == list[i])
  {
    Enumerable.FirstOfWhere(list, HasName(healthCheckName), HasServiceName(serviceName));
  }

  /** The raw-record lookup does not depend on the registry. */
  lemma ConfigIgnoresRegistry(m: Manager, registry: Registry, bindConfigs: Section -> Option<seq<HealthCheckConfig>>,
                              kind: HealthCheckKind, config: Section, serviceName: Option<string>)
    ensures GetHealthCheckConfig(m.(registry := registry), bindConfigs, kind, config, serviceName)
         == GetHealthCheckConfig(m, bindConfigs, kind, config, serviceName)
  {
  }

  /** Two kinds with the same short name (say, in different namespaces or
      nested in different types) resolve to the same raw record. */
  lemma ConfigMatchesByShortName(m: Manager, bindConfigs: Section -> Option<seq<HealthCheckConfig>>,
                                 k1: HealthCheckKind, k2: HealthCheckKind, config: Section, serviceName: Option<string>)
    requires k1.name == k2.name
    ensures var r1 := GetHealthCheckConfig(m, bindConfigs, k1, config, serviceName);
      var r2 := GetHealthCheckConfig(m, bindConfigs, k2, config, serviceName);
      r1.Success? == r2.Success? && (r1.Success? ==> r1.value == r2.value)
  {
  }

  // ---------------------------------------------------------------------
  // Navigation is relative to the current root section

  /** Every read depends on the configuration only through the section the
      current `configSection` names: two configurations that agree there
      give the same answers. */
  lemma ReadsDependOnlyOnRootSection<V, R>(m: Manager, c1: Section, c2: Section,
                                           bind: (Section, ContextShape) -> Option<V>, bindConfigs: Section -> Option<seq<HealthCheckConfig>>,
                                           bindRoot: Section -> Option<R>, kind: HealthCheckKind, shape: ContextShape, serviceName: Option<string>)
    requires GetSection(c1, m.configSection) == GetSection(c2, m.configSection)
    ensures Get(m, bindRoot, c1) == Get(m, bindRoot, c2)
    ensures GetHealthCheckContext(m, bind, kind, shape, c1, serviceName) == GetHealthCheckContext(m, bind, kind, shape, c2, serviceName)
    ensures GetHealthCheckContexts(m, bind, kind, shape, c1) == GetHealthCheckContexts(m, bind, kind, shape, c2)
    ensures GetHealthCheckConfig(m, bindConfigs, kind, c1, serviceName) == GetHealthCheckConfig(m, bindConfigs, kind, c2, serviceName)
  {
    assert RootSection(m, c1) == RootSection(m, c2);
    assert HealthCheckConfigSection(m, c1) == HealthCheckConfigSection(m, c2);
    assert Entries(m, c1) == Entries(m, c2);
  }

  /** A top-level section under any other name is invisible to every read,
      so trees kept under different root names are independent. */
  lemma OtherRootsAreInvisible<V, R>(m: Manager, key: string, value: Option<string>, before: seq<Section>, other: Section, after: seq<Section>,
                                     bind: (Section, ContextShape) -> Option<V>, bindConfigs: Section -> Option<seq<HealthCheckConfig>>,
                                     bindRoot: Section -> Option<R>, kind: HealthCheckKind, shape: ContextShape, serviceName: Option<string>)
    requires other.key != m.configSection
    ensures var c1 := Section(key, value, before + [other] + after);
      var c2 := Section(key, value, before + after);
      && Get(m, bindRoot, c1) == Get(m, bindRoot, c2)
      && GetHealthCheckContext(m, bind, kind, shape, c1, serviceName) == GetHealthCheckContext(m, bind, kind, shape, c2, serviceName)
      && GetHealthCheckContexts(m, bind, kind, shape, c1) == GetHealthCheckContexts(m, bind, kind, shape, c2)
      && GetHealthCheckConfig(m, bindConfigs, kind, c1, serviceName) == GetHealthCheckConfig(m, bindConfigs, kind, c2, serviceName)
  {
    GetSectionIgnoresOtherKeys(key, value, before, other, after, m.configSection);
    ReadsDependOnlyOnRootSection(m, Section(key, value, before + [other] + after), Section(key, value, before + after),
                                 bind, bindConfigs, bindRoot, kind, shape, serviceName);
  }
}
