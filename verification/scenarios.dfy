/** Concrete configurations: three services of one kind, one entry without
    a Context, an empty list, and an entry with no children in front. They
    pin down first-match, document order and silent skipping on real trees. */
module Scenarios {
  import opened Wrappers
  import opened ConfigTree
  import opened Constants
  import opened ConfigurationManager

  function Leaf(key: string, value: string): Section {
    Section(key, Some(value), [])
  }

  /** A Context section carrying one setting. */
  function Payload(url: string): Section {
    Section(ContextKey, None, [Leaf("Url", url)])
  }

  /** The entry at array position `index` for `service`, with its context. */
  function Entry(index: string, service: string, context: Section): Section {
    Section(index, None, [Leaf("HealthCheckName", "Ping"), Leaf(ServiceNameKey, service), context])
  }

  /** The same entry with no Context child. */
  function BareEntry(index: string, service: string): Section {
    Section(index, None, [Leaf("HealthCheckName", "Ping"), Leaf(ServiceNameKey, service)])
  }

  /** A configuration holding `entries` under the default root section. */
  function Tree(entries: seq<Section>): Section {
    Section("", None, [Section(DefaultConfigSectionName, None, [Section(HealthChecksKey, None, entries)])])
  }

  const Ping: HealthCheckKind := HealthCheckKind("Probes.Ping, Probes", "Ping")
  const PingContext: ContextShape := ContextShape("PingContext")

  /** The manager after `Ping` was registered with `PingContext`. */
  const Registered: Manager := SetHealthCheckContext(Initial, Ping, PingContext)

  const ThreeServices: seq<Section> :=
    [Entry("0", "svcA", Payload("a")), Entry("1", "svcB", Payload("b")), Entry("2", "svcC", Payload("c"))]

  lemma EntriesOfTree(m: Manager, entries: seq<Section>)
    requires m.configSection == DefaultConfigSectionName
    ensures Entries(m, Tree(entries)) == entries
  {
  }

  lemma ContextOfEntry(index: string, service: string, url: string)
    ensures ContextOf(Entry(index, service, Payload(url))) == Payload(url)
    ensures ContextOf(BareEntry(index, service)) == Missing(ContextKey)
  {
    var e := Entry(index, service, Payload(url));
    assert "HealthCheckName" != ContextKey;
    assert ServiceNameKey != ContextKey;
    assert IsFirstChildWithKey(e, ContextKey, 2);
  }

  /** A named lookup selects an entry exactly when it is that service's. */
  lemma EntrySelection(index: string, service: string, context: Section, name: string)
    requires name != "" && context.key == ContextKey
    ensures Selects(Entry(index, service, context), Some(name)) <==> service == name
  {
    var e := Entry(index, service, context);
    assert "HealthCheckName" != ServiceNameKey;
    assert ContextKey != ServiceNameKey;
    if service == name {
      assert ChildMatches(e.children[1], Some(name));
    } else {
      assert !ChildMatches(e.children[0], Some(name));
      assert !ChildMatches(e.children[1], Some(name));
      assert !ChildMatches(e.children[2], Some(name));
    }
  }

  /** Entry contexts of the three-service tree. */
  lemma ThreeServiceFacts()
    ensures Entries(Registered, Tree(ThreeServices)) == ThreeServices
    ensures ContextOf(ThreeServices[0]) == Payload("a")
    ensures ContextOf(ThreeServices[1]) == Payload("b")
    ensures ContextOf(ThreeServices[2]) == Payload("c")
    ensures WellConfigured(Registered.registry, Ping, PingContext)
  {
    EntriesOfTree(Registered, ThreeServices);
    ContextOfEntry("0", "svcA", "a");
    ContextOfEntry("1", "svcB", "b");
    ContextOfEntry("2", "svcC", "c");
  }

  /** With three services, a null or empty name picks the first. */
  lemma EmptyNamePicksFirstService<V>(bind: (Section, ContextShape) -> Option<V>, a: V, serviceName: Option<string>)
    requires bind(Payload("a"), PingContext) == Some(a)
    requires IsNullOrEmpty(serviceName)
    ensures GetHealthCheckContext(Registered, bind, Ping, PingContext, Tree(ThreeServices), serviceName) == Success(a)
  {
    ThreeServiceFacts();
    assert ChildMatches(ThreeServices[0].children[0], serviceName);
    assert IsSelectedEntry(ThreeServices, serviceName, 0);
    ContextIsBindingOfFirstMatch(Registered, bind, Ping, PingContext, Tree(ThreeServices), serviceName, 0);
  }

  /** With three services, "svcB" picks the second. */
  lemma NamePicksThatService<V>(bind: (Section, ContextShape) -> Option<V>, b: V)
    requires bind(Payload("b"), PingContext) == Some(b)
    ensures GetHealthCheckContext(Registered, bind, Ping, PingContext, Tree(ThreeServices), Some("svcB")) == Success(b)
  {
    ThreeServiceFacts();
    var es := ThreeServices;
    EntrySelection("0", "svcA", Payload("a"), "svcB");
    EntrySelection("1", "svcB", Payload("b"), "svcB");
    assert IsSelectedEntry(es, Some("svcB"), 1);
    ContextIsBindingOfFirstMatch(Registered, bind, Ping, PingContext, Tree(es), Some("svcB"), 1);
  }

  /** With three services, an unknown name fails. */
  lemma UnknownNameFails<V>(bind: (Section, ContextShape) -> Option<V>)
    ensures GetHealthCheckContext(Registered, bind, Ping, PingContext, Tree(ThreeServices), Some("svcD")) == Failure(NotWellConfigured(Ping))
  {
    ThreeServiceFacts();
    EntrySelection("0", "svcA", Payload("a"), "svcD");
    EntrySelection("1", "svcB", Payload("b"), "svcD");
    EntrySelection("2", "svcC", Payload("c"), "svcD");
    forall i | 0 <= i < |ThreeServices|
      ensures !Selects(ThreeServices[i], Some("svcD"))
    {
      if i == 0 {} else if i == 1 {} else { assert i == 2; }
    }
    ContextFailsWithoutMatch(Registered, bind, Ping, PingContext, Tree(ThreeServices), Some("svcD"));
  }

  /** With three bindable services, all three contexts come back in
      document order. */
  lemma AllThreeContextsInOrder<V>(bind: (Section, ContextShape) -> Option<V>, a: V, b: V, c: V)
    requires bind(Payload("a"), PingContext) == Some(a)
    requires bind(Payload("b"), PingContext) == Some(b)
    requires bind(Payload("c"), PingContext) == Some(c)
    ensures GetHealthCheckContexts(Registered, bind, Ping, PingContext, Tree(ThreeServices)) == Success([a, b, c])
  {
    ThreeServiceFacts();
    var f := ContextBinder(bind, PingContext);
    var vs := [a, b, c];
    forall i | 0 <= i < |ThreeServices|
      ensures f(ThreeServices[i]) == Some(vs[i])
    {
      if i == 0 {} else if i == 1 {} else { assert i == 2; }
    }
    Enumerable.ChooseAllSome(ThreeServices, f, vs);
  }

  /** When the middle entry has no Context (which binds to null) the list has
      the two other contexts and the call still succeeds. */
  lemma MissingContextIsSkipped<V>(bind: (Section, ContextShape) -> Option<V>, a: V, c: V)
    requires bind(Payload("a"), PingContext) == Some(a)
    requires bind(Payload("c"), PingContext) == Some(c)
    requires bind(Missing(ContextKey), PingContext) == None
    ensures GetHealthCheckContexts(Registered, bind, Ping, PingContext,
                                   Tree([Entry("0", "svcA", Payload("a")), BareEntry("1", "svcB"), Entry("2", "svcC", Payload("c"))]))
         == Success([a, c])
  {
    var es := [Entry("0", "svcA", Payload("a")), BareEntry("1", "svcB"), Entry("2", "svcC", Payload("c"))];
    var kept := [es[0], es[2]];
    var f := ContextBinder(bind, PingContext);
    EntriesOfTree(Registered, es);
    ContextOfEntry("0", "svcA", "a");
    ContextOfEntry("1", "svcB", "b");
    ContextOfEntry("2", "svcC", "c");
    ContextsSkipUnbindable(bind, PingContext, es, 1);
    assert es[..1] + es[2..] == kept;
    forall i | 0 <= i < |kept|
      ensures f(kept[i]) == Some([a, c][i])
    {
      if i == 0 {} else { assert i == 1; }
    }
    Enumerable.ChooseAllSome(kept, f, [a, c]);
  }

  /** An empty HealthChecks list gives an empty list of contexts, not an error. */
  lemma EmptyListGivesNoContexts<V>(bind: (Section, ContextShape) -> Option<V>)
    ensures GetHealthCheckContexts(Registered, bind, Ping, PingContext, Tree([])) == Success([])
  {
    EntriesOfTree(Registered, []);
  }

  /** An entry with no children is passed over by the empty-name lookup: the
      next entry is selected, not the first one in the list. */
  lemma EmptyNameSkipsChildlessEntry<V>(bind: (Section, ContextShape) -> Option<V>, b: V)
    requires bind(Payload("b"), PingContext) == Some(b)
    ensures GetHealthCheckContext(Registered, bind, Ping, PingContext,
                                  Tree([Section("0", None, []), Entry("1", "svcB", Payload("b"))]), None)
         == Success(b)
  {
    var es := [Section("0", None, []), Entry("1", "svcB", Payload("b"))];
    EntriesOfTree(Registered, es);
    ContextOfEntry("1", "svcB", "b");
    assert ChildMatches(es[1].children[0], None);
    assert IsSelectedEntry(es, None, 1);
    ContextIsBindingOfFirstMatch(Registered, bind, Ping, PingContext, Tree(es), None, 1);
  }

  /** The raw record for svcB is found without any registration. */
  lemma RawRecordWithoutRegistration(bindConfigs: Section -> Option<seq<HealthCheckConfig>>)
    requires bindConfigs(Section(HealthChecksKey, None, ThreeServices)) == Some([
      HealthCheckConfig(Some("Ping"), Some("svcA"), true),
      HealthCheckConfig(Some("Ping"), Some("svcB"), false),
      HealthCheckConfig(Some("Ping"), Some("svcC"), true)])
    ensures GetHealthCheckConfig(Initial, bindConfigs, Ping, Tree(ThreeServices), Some("svcB"))
         == Success(HealthCheckConfig(Some("Ping"), Some("svcB"), false))
    ensures GetHealthCheckConfig(Initial, bindConfigs, Ping, Tree(ThreeServices), Some("svcD"))
         == Failure(NotWellConfigured(Ping))
  {
    assert HealthCheckConfigSection(Initial, Tree(ThreeServices)) == Section(HealthChecksKey, None, ThreeServices);
    assert "svcA" != "svcB" && "svcA" != "svcD" && "svcB" != "svcD" && "svcC" != "svcD";
  }

  /** Two distinct types with the same short name (nested in different
      outer types, say) are separate registry keys: registering each with
      its own context type keeps both, and each guard accepts its own. */
  lemma SameNameTypesRegisterSeparately(outerA: HealthCheckKind, outerB: HealthCheckKind, ctxA: ContextShape, ctxB: ContextShape)
    requires outerA.name == outerB.name && outerA.id != outerB.id
    ensures var m := SetHealthCheckContext(SetHealthCheckContext(Initial, outerA, ctxA), outerB, ctxB);
      WellConfigured(m.registry, outerA, ctxA) && WellConfigured(m.registry, outerB, ctxB)
  {
  }

  /** An entry configured for another kind, at position `index`. */
  function ForeignEntry(index: string, kindName: string, service: string, context: Section): Section {
    Section(index, None, [Leaf("HealthCheckName", kindName), Leaf(ServiceNameKey, service), context])
  }

  /** The context lookups never read HealthCheckName: an earlier "Http"
      entry for svcB is what the Ping lookup for svcB binds and returns. */
  lemma ContextLookupIgnoresKindName<V>(bind: (Section, ContextShape) -> Option<V>, h: V)
    requires bind(Payload("h"), PingContext) == Some(h)
    ensures GetHealthCheckContext(Registered, bind, Ping, PingContext,
                                  Tree([ForeignEntry("0", "Http", "svcB", Payload("h")), Entry("1", "svcB", Payload("b"))]), Some("svcB"))
         == Success(h)
  {
    var es := [ForeignEntry("0", "Http", "svcB", Payload("h")), Entry("1", "svcB", Payload("b"))];
    EntriesOfTree(Registered, es);
    assert "HealthCheckName" != ContextKey && ServiceNameKey != ContextKey;
    assert IsFirstChildWithKey(es[0], ContextKey, 2);
    assert ContextOf(es[0]) == Payload("h");
    assert ChildMatches(es[0].children[1], Some("svcB"));
    assert IsSelectedEntry(es, Some("svcB"), 0);
    ContextIsBindingOfFirstMatch(Registered, bind, Ping, PingContext, Tree(es), Some("svcB"), 0);
  }
}
