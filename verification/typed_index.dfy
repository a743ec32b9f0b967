/**
  The two-level registry `Map<string, Map<string, handle>>` that `Devices`
  and `Zones` in class.ts keep: entity type -> (entity id -> SDK object).

  Both `addDevice` and `addZone` guard with `x in map.keys()`. In JavaScript
  `in` asks whether a PROPERTY of that name exists on the object `keys()`
  returns, a Map Iterator; it never consults the map's entries. The test is
  modelled as exactly that, `InKeysIterator`, next to the guard a reader
  would expect (`Registered`, i.e. `Map.has`), so that the difference shows
  in the contracts.
 */
module TypedIndex {
  import opened Common

  type Index = map<string, map<string, Handle>>

  /**
    String-named properties reachable from a Map Iterator object: `next` on
    %MapIteratorPrototype%, the iterator helpers and `constructor` on
    %IteratorPrototype% (ECMAScript 2025), and the members of
    Object.prototype. Symbol-keyed members cannot equal a string key.
   */
  const IteratorMembers: set<string> := {
    "next",
    "constructor", "map", "filter", "take", "drop", "flatMap", "reduce",
    "toArray", "forEach", "some", "every", "find",
    "toString", "toLocaleString", "valueOf", "hasOwnProperty", "isPrototypeOf",
    "propertyIsEnumerable", "__proto__", "__defineGetter__", "__defineSetter__",
    "__lookupGetter__", "__lookupSetter__"
  }

  /** A name that is not a property of an iterator object: every real id or type in practice. */
  predicate Ordinary(name: string)
  {
    name !in IteratorMembers
  }

  /**
    `name in m.keys()`: true only for the iterator's own property names,
    whatever `m` holds.
   */
  predicate InKeysIterator<V>(m: map<string, V>, name: string)
  {
    name in IteratorMembers
  }

  /** `index.get(t)?.has(id)`: the (type, id) pair has an entry. */
  predicate Registered(index: Index, t: string, id: string)
  {
    t in index && id in index[t]
  }

  /** `index.get(t)?.get(id)`. */
  function Find(index: Index, t: string, id: string): (r: Option<Handle>)
    ensures r.Some? <==> Registered(index, t, id)
    ensures r.Some? ==> r.value == index[t][id]
  {
    if t in index && id in index[t] then Some(index[t][id]) else None
  }

  /** Every handle `index.get(t).values()` yields; empty for an unknown type. */
  function Bucket(index: Index, t: string): (r: set<Handle>)
    ensures forall id | Registered(index, t, id) :: index[t][id] in r
    ensures forall h | h in r :: exists id :: Registered(index, t, id) && index[t][id] == h
  {
    if t in index then index[t].Values else {}
  }

  /** Every handle the registry holds names an object in `store`. */
  ghost predicate IndexedIn<V>(index: Index, store: map<Handle, V>)
  {
    forall t, id | t in index && id in index[t] :: index[t][id] in store
  }

  /** What the add guard decides, with the registry as it stands after the guard. */
  datatype Admission =
    | Threw                              // `.keys()` called on `undefined`
    | AlreadyRegistered(index: Index)    // the early `return`
    | Create(index: Index)               // go on to create and register an object

  /**
    The guard of `addDevice`/`addZone` as written: a type whose name is not an
    iterator property always gets a fresh empty bucket, and an id is reported
    registered only when its name is an iterator property.
   */
  function AdmitAsWritten(index: Index, t: string, id: string): (r: Admission)
    ensures r.Threw? <==> !Ordinary(t) && t !in index
    ensures !r.Threw? ==> t in r.index && r.index - {t} == index - {t}
    ensures Ordinary(t) ==> !r.Threw? && r.index[t] == map[]
    ensures !Ordinary(t) && t in index ==> !r.Threw? && r.index == index
    ensures r.AlreadyRegistered? <==> !r.Threw? && !Ordinary(id)
  {
    var index1 := if !InKeysIterator(index, t) then index[t := map[]] else index;
    if t !in index1 then Threw
    else if InKeysIterator(index1[t], id) then AlreadyRegistered(index1)
    else Create(index1)
  }

  /**
    The two guards part ways on the case that matters: a registered pair of
    ordinary names. `in` on the iterator misses the key, empties the bucket
    and creates again; `Map.has` finds it and returns early.
   */
  lemma GuardMissesRegisteredPair(index: Index, t: string, id: string)
    requires Ordinary(t) && Ordinary(id) && Registered(index, t, id)
    ensures !InKeysIterator(index, t) && !InKeysIterator(index[t], id)
    ensures AdmitAsWritten(index, t, id).Create? && !Registered(AdmitAsWritten(index, t, id).index, t, id)
    ensures AdmitIntended(index, t, id).AlreadyRegistered?
  {
  }

  /** The guard as `Map.has` would make it: skip exactly the registered pairs. */
  function AdmitIntended(index: Index, t: string, id: string): (r: Admission)
    ensures !r.Threw?
    ensures r.AlreadyRegistered? <==> Registered(index, t, id)
    ensures r.AlreadyRegistered? ==> r.index == index
    ensures r.Create? ==> t in r.index && !Registered(r.index, t, id)
    ensures r.Create? ==> r.index - {t} == index - {t}
    ensures r.Create? ==> forall j | Registered(index, t, j) :: Registered(r.index, t, j) && r.index[t][j] == index[t][j]
    ensures r.Create? ==> forall j | Registered(r.index, t, j) :: Registered(index, t, j)
  {
    if t in index && id in index[t] then AlreadyRegistered(index)
    else if t in index then Create(index)
    else Create(index[t := map[]])
  }

  /** `index.get(t)?.set(id, h)` on a registry whose bucket for `t` exists. */
  function Register(index: Index, t: string, id: string, h: Handle): (r: Index)
    requires t in index
    ensures Find(r, t, id) == Some(h)
    ensures forall u, j | u != t || j != id :: Find(r, u, j) == Find(index, u, j)
    ensures r.Keys == index.Keys
    ensures forall u, j | Registered(r, u, j) :: r[u][j] == h || (Registered(index, u, j) && r[u][j] == index[u][j])
  {
    var bucket: map<string, Handle> := index[t][id := h];
    index[t := bucket]
  }
}
