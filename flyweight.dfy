/** The group cache: `Group` and its static `create` (index.js lines 100-113).
    `create(name)` hands out one shared `Group` per name, building it on the
    first request and returning the stored one afterwards. The static field
    `#groups` is modelled by an explicit `GroupRegistry` object. */
module Flyweight {

  /** A `Group` object: just its name, fixed at construction. */
  class Group {
    const name: string

    constructor (name: string)
      ensures this.name == name
    {
      this.name := name;
    }
  }

  /** The properties every plain object `{}` inherits from `Object.prototype`.
      Reading one of them from the cache yields a function or object, which is
      truthy, even though no group of that name was ever stored. */
  const ObjectPrototypeKeys: set<string> :=
    {"constructor", "hasOwnProperty", "isPrototypeOf", "propertyIsEnumerable",
     "toLocaleString", "toString", "valueOf", "__proto__",
     "__defineGetter__", "__defineSetter__", "__lookupGetter__", "__lookupSetter__"}

  /** What reading `#groups[name]` yields: a stored group, an inherited
      property of `Object.prototype`, or `undefined`. */
  datatype Property = OwnGroup(group: Group) | Inherited(key: string) | Undefined

  /** JavaScript property lookup on the cache object: its own entries first,
      then the prototype's. */
  function Lookup(groups: map<string, Group>, name: string): (p: Property)
    ensures p.OwnGroup? <==> name in groups
    ensures p.OwnGroup? ==> p.group == groups[name]
    ensures p.Inherited? <==> name !in groups && name in ObjectPrototypeKeys
    ensures p.Inherited? ==> p.key == name
  {
    if name in groups then OwnGroup(groups[name])
    else if name in ObjectPrototypeKeys then Inherited(name)
    else Undefined
  }

  /** The cache. */
  class GroupRegistry {
    var groups: map<string, Group>

    /** Every cached group is stored under its own name. */
    ghost predicate Valid()
      reads this
    {
      forall n :: n in groups ==> groups[n].name == n
    }

    /** `static #groups = {}`. */
    constructor ()
      ensures Valid() && groups == map[]
    {
      groups := map[];
    }

    /** `Group.create(name)` with the check the source intends: build and store
        a group only when the cache has no entry of its own for `name`. Every
        call returns a group of that name, the same one on every later call,
        and leaves the entries of other names as they were. */
    method Create(name: string) returns (group: Group)
      requires Valid()
      modifies this
      ensures Valid()
      ensures name in groups && group == groups[name] && group.name == name
      ensures name in old(groups) ==> groups == old(groups) && group == old(groups[name])
      ensures name !in old(groups) ==> fresh(group) && groups == old(groups)[name := group]
    {
      if name !in groups {
        var g := new Group(name);
        groups := groups[name := g];
      }
      group := groups[name];
    }

    /** `Group.create(name)` as written: the cache is tested with
        `!#groups[name]`, which also sees the properties `{}` inherits. For such
        a name nothing is stored and the inherited property is returned in
        place of a group. */
    method CreateAsWritten(name: string) returns (p: Property)
      requires Valid()
      modifies this
      ensures Valid()
      ensures p == Lookup(groups, name)
      ensures Lookup(old(groups), name).Undefined? ==>
                p.OwnGroup? && fresh(p.group) && p.group.name == name &&
                groups == old(groups)[name := p.group]
      ensures !Lookup(old(groups), name).Undefined? ==> groups == old(groups)
    {
      if Lookup(groups, name).Undefined? {
        var g := new Group(name);
        groups := groups[name := g];
      }
      p := Lookup(groups, name);
    }
  }

  /** Two requests for one name return one and the same group. */
  method CreateTwice(registry: GroupRegistry, name: string) returns (first: Group, second: Group)
    requires registry.Valid()
    modifies registry
    ensures registry.Valid()
    ensures first == second && first.name == name
  {
    first := registry.Create(name);
    second := registry.Create(name);
  }

  /** As written, a name the prototype supplies is never cached: two requests
      for it both yield the inherited property, never a group, and the cache
      stays as it was. */
  method CreateAsWrittenTwice(registry: GroupRegistry, name: string) returns (first: Property, second: Property)
    requires registry.Valid()
    requires name in ObjectPrototypeKeys && name !in registry.groups
    modifies registry
    ensures first == Inherited(name) && second == Inherited(name)
    ensures registry.groups == old(registry.groups)
  {
    first := registry.CreateAsWritten(name);
    second := registry.CreateAsWritten(name);
  }

  /** `Group.create("toString")` on a fresh cache: as written it returns the
      inherited `toString` function and stores nothing; the corrected `Create`
      returns a group named "toString". */
  method ToStringCounterexample()
  {
    var asWritten := new GroupRegistry();
    var p := asWritten.CreateAsWritten("toString");
    assert p == Inherited("toString");
    assert "toString" !in asWritten.groups;

    var corrected := new GroupRegistry();
    var g := corrected.Create("toString");
    assert g.name == "toString";
  }
}
