/** An already-parsed hierarchical configuration tree, standing for the
    `IConfiguration` / `IConfigurationSection` abstraction the manager reads.
    Only the three operations the manager uses are modelled: the key and
    value of a node, its ordered children (`GetChildren`) and child lookup by
    key (`GetSection`). Binding a section into a typed value (`Get<T>`) is
    supplied to each operation as a function parameter. */
module ConfigTree {
  import opened Wrappers
  import Enumerable

  /** A configuration node: its key (the last path segment), its value
      (null for a node that has children) and its children in order. An
      array such as the list of health checks is a node whose children are
      keyed "0", "1", ... */
  datatype Section = Section(key: string, value: Option<string>, children: seq<Section>)

  /** The section `GetSection` returns for a key that has no node: it never
      returns null, it returns an empty section that does not exist. */
  function Missing(key: string): Section {
    Section(key, None, [])
  }

  /** `i` is the position of the first child of `s` whose key is `key`. */
  ghost predicate IsFirstChildWithKey(s: Section, key: string, i: int) {
    0 <= i < |s.children| && s.children[i].key == key
    && forall j :: 0 <= j < i ==> s.children[j].key != key
  }

  /** `GetSection(key)`: the child of `s` with that key, or the empty
      section when there is none. */
  function GetSection(s: Section, key: string): (r: Section)
    ensures r.key == key
    ensures (forall j :: 0 <= j < |s.children| ==> s.children[j].key != key) ==> r == Missing(key)
    ensures (exists j :: 0 <= j < |s.children| && s.children[j].key == key) ==>
      exists i :: IsFirstChildWithKey(s, key, i) && r == s.children[i]
  {
    match Enumerable.FirstOrNone(s.children, (c: Section) => c.key == key)
    case None => Missing(key)
    case Some(c) => c
  }

  /** Lookup by key only looks at children with that key: removing a child
      with another key changes nothing. */
  lemma GetSectionIgnoresOtherKeys(key: string, v: Option<string>, before: seq<Section>, other: Section, after: seq<Section>, name: string)
    requires other.key != name
    ensures GetSection(Section(key, v, before + [other] + after), name) == GetSection(Section(key, v, before + after), name)
  {
    Enumerable.FirstOrNoneSkips(before, other, after, (c: Section) => c.key == name);
  }
}
