/** The entity registry: the global list of provider classes the decorator
    fills, the registry's provider instances, and its entry list, which is
    cleared and then appended to node by node. */
module Registry {
  import opened Homee
  import opened Entries
  import Providers

  /** The provider classes: the base class, the light provider, and any
      other class handed to the decorator. */
  datatype ClassRef = EntityProviderBase | LightProviderClass | UnrelatedClass(name: string)

  /** issubclass(c, HomeeEntityProvider). */
  predicate IsProviderSubclass(c: ClassRef) {
    c.EntityProviderBase? || c.LightProviderClass?
  }

  /** provide(node) of an instance of a provider class: the base class
      provides nothing. */
  function Provide(c: ClassRef, node: Node): (r: seq<EntityEntry>)
    requires IsProviderSubclass(c)
    ensures c == EntityProviderBase ==> r == []
    ensures c == LightProviderClass ==> r == Providers.LightProvide(node)
  {
    match c
    case EntityProviderBase => []
    case LightProviderClass => Providers.LightProvide(node)
  }

  /** The class-level list HomeeEntityProvider._providers. */
  class ProviderList {
    var classes: seq<ClassRef>

    constructor ()
      ensures classes == []
    {
      classes := [];
    }

    /** register_provider: append the class. */
    method RegisterProvider(c: ClassRef)
      modifies this
      ensures classes == old(classes) + [c]
    {
      classes := classes + [c];
    }

    /** homee_entity_provider: register the class if it is a provider
        subclass, and hand it back unchanged. */
    method Decorate(c: ClassRef) returns (r: ClassRef)
      modifies this
      ensures r == c
      ensures classes == old(classes) + if IsProviderSubclass(c) then [c] else []
    {
      if IsProviderSubclass(c) {
        RegisterProvider(c);
      }
      return c;
    }
  }

  /** The entries a node yields: the output of the last provider only,
      since each provider's result replaces the previous one. */
  function LastProviderOutput(providers: seq<ClassRef>, node: Node): (r: seq<EntityEntry>)
    requires forall c :: c in providers ==> IsProviderSubclass(c)
    ensures |providers| == 0 ==> r == []
    ensures |providers| > 0 ==> r == Provide(providers[|providers| - 1], node)
  {
    if |providers| == 0 then [] else Provide(providers[|providers| - 1], node)
  }

  /** The entries of a component, in list order. */
  function Filter(entries: seq<EntityEntry>, component: string): (r: seq<EntityEntry>)
    ensures |r| <= |entries|
  {
    if |entries| == 0 then []
    else
      var front := entries[..|entries| - 1];
      var last := entries[|entries| - 1];
      Filter(front, component) + if last.component == component then [last] else []
  }

  /** An entry is in the filtered list exactly when it is in the list and
      belongs to the component. */
  lemma {:induction false} FilterMembers(entries: seq<EntityEntry>, component: string)
    ensures forall e :: e in Filter(entries, component) <==> e in entries && e.component == component
  {
    if |entries| > 0 {
      var front := entries[..|entries| - 1];
      var last := entries[|entries| - 1];
      FilterMembers(front, component);
      assert forall e :: e in entries <==> e in front || e == last;
    }
  }

  /** HomeeEntityRegistry. */
  class HomeeEntityRegistry {
    var entries: seq<EntityEntry>
    var providers: seq<ClassRef>

    ghost predicate Valid()
      reads this
    {
      forall c :: c in providers ==> IsProviderSubclass(c)
    }

    /** An empty entry list and one provider instance per registered class,
        in registration order. The class list only ever holds provider
        subclasses when the decorator filled it. */
    constructor (registered: ProviderList)
      requires forall c :: c in registered.classes ==> IsProviderSubclass(c)
      ensures Valid()
      ensures entries == [] && providers == registered.classes
    {
      entries := [];
      providers := registered.classes;
    }

    /** clear: drop every entry. */
    method Clear()
      modifies this
      ensures entries == [] && providers == old(providers)
    {
      entries := [];
    }

    /** _extract_entities: ask the providers in order, keeping each result. */
    method ExtractEntities(node: Node) returns (result: seq<EntityEntry>)
      requires Valid()
      ensures result == LastProviderOutput(providers, node)
    {
      result := [];
      for i := 0 to |providers|
        invariant result == LastProviderOutput(providers[..i], node)
      {
        result := Provide(providers[i], node);
        assert providers[..i + 1][i] == providers[i];
      }
      assert providers[..|providers|] == providers;
    }

    /** register: append the node's extracted entries. */
    method Register(node: Node)
      requires Valid()
      modifies this
      ensures Valid()
      ensures providers == old(providers)
      ensures entries == old(entries) + LastProviderOutput(providers, node)
    {
      var newEntries := ExtractEntities(node);
      entries := entries + newEntries;
    }

    /** get_component_entries. */
    function GetComponentEntries(component: string): (r: seq<EntityEntry>)
      reads this
      ensures forall e :: e in r <==> e in entries && e.component == component
    {
      FilterMembers(entries, component);
      Filter(entries, component)
    }
  }

  /** Filtering distributes over appending, so registering a node keeps the
      earlier entries of every component first and in order. */
  lemma {:induction false} FilterAppend(a: seq<EntityEntry>, b: seq<EntityEntry>, component: string)
    ensures Filter(a + b, component) == Filter(a, component) + Filter(b, component)
    decreases |b|
  {
    if |b| == 0 {
      assert a + b == a;
    } else {
      var b' := b[..|b| - 1];
      var x := b[|b| - 1];
      assert (a + b)[..|a + b| - 1] == a + b';
      assert (a + b)[|a + b| - 1] == x;
      FilterAppend(a, b', component);
      var tail := if x.component == component then [x] else [];
      assert Filter(a + b, component) == Filter(a + b', component) + tail;
      assert Filter(b, component) == Filter(b', component) + tail;
    }
  }

  /** The whole registry after clear and one register per node: the
      component entries of each node in node order. */
  function RegisteredEntries(providers: seq<ClassRef>, nodes: seq<Node>): seq<EntityEntry>
    requires forall c :: c in providers ==> IsProviderSubclass(c)
  {
    if |nodes| == 0 then []
    else RegisteredEntries(providers, nodes[..|nodes| - 1]) + LastProviderOutput(providers, nodes[|nodes| - 1])
  }

  /** The node-list handler of the hub connection: clear, then register
      every node. */
  method RefreshRegistry(registry: HomeeEntityRegistry, nodes: seq<Node>)
    requires registry.Valid()
    modifies registry
    ensures registry.Valid() && registry.providers == old(registry.providers)
    ensures registry.entries == RegisteredEntries(registry.providers, nodes)
  {
    registry.Clear();
    for i := 0 to |nodes|
      invariant registry.Valid() && registry.providers == old(registry.providers)
      invariant registry.entries == RegisteredEntries(registry.providers, nodes[..i])
    {
      registry.Register(nodes[i]);
      assert nodes[..i + 1][..i] == nodes[..i];
    }
    assert nodes[..|nodes|] == nodes;
  }

  /** A list whose entries all belong to one component is its own filter. */
  lemma {:induction false} FilterOfOneComponent(entries: seq<EntityEntry>, component: string)
    requires forall i :: 0 <= i < |entries| ==> entries[i].component == component
    ensures Filter(entries, component) == entries
  {
    if |entries| > 0 {
      var front := entries[..|entries| - 1];
      FilterOfOneComponent(front, component);
      assert entries == front + [entries[|entries| - 1]];
    }
  }

  /** With the light provider as the only registered class, every entry of
      the registry is a light entry of a node the light provider accepts,
      so the light component gets all of them. */
  lemma {:induction false} LightEntriesOfLightProvider(nodes: seq<Node>)
    ensures forall e :: e in RegisteredEntries([LightProviderClass], nodes) ==>
              e.component == "light" && e.node in nodes && |Providers.LightProvide(e.node)| == 1
    ensures Filter(RegisteredEntries([LightProviderClass], nodes), "light") ==
              RegisteredEntries([LightProviderClass], nodes)
  {
    var r := RegisteredEntries([LightProviderClass], nodes);
    if |nodes| > 0 {
      var front := nodes[..|nodes| - 1];
      var last := nodes[|nodes| - 1];
      LightEntriesOfLightProvider(front);
      var out := Providers.LightProvide(last);
      assert r == RegisteredEntries([LightProviderClass], front) + out;
      assert forall e :: e in out ==> e == EntityEntry("light", last);
      assert forall n :: n in front ==> n in nodes;
    }
    forall i | 0 <= i < |r|
      ensures r[i].component == "light"
    {
      assert r[i] in r;
    }
    FilterOfOneComponent(r, "light");
  }

  /** Any provider registered after the light provider discards its
      entries: with the base class last, no node yields an entry. */
  lemma LaterProviderDiscardsLights(node: Node)
    ensures LastProviderOutput([LightProviderClass, EntityProviderBase], node) == []
  {
  }
}
