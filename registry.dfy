/** The type registry (`typesMap`): non-primitive types are stored under
    their name, first write wins, and at the end the names are flushed in
    sorted order. */
module Registry {
  import opened Wrappers
  import opened Smi
  import opened Ordering

  /** The type names that are always inlined where they are used. */
  const PrimitiveTypeNames: set<string> :=
    {"Integer32", "OctetString", "ObjectIdentifier", "Unsigned32",
     "Integer64", "Unsigned64", "Enumeration", "Bits"}

  predicate IsPrimitive(name: string)
  {
    name in PrimitiveTypeNames
  }

  /** The map after registering `t`: insert when absent, never overwrite,
      never store a primitive. */
  function Registered(types: map<string, Type>, t: Type): map<string, Type>
  {
    if IsPrimitive(t.name) || t.name in types then types else types[t.name := t]
  }

  /** Every stored type is non-primitive, has a name, and is stored under it. */
  predicate ValidTypes(types: map<string, Type>)
  {
    forall k :: k in types ==> k != "" && !IsPrimitive(k) && types[k].name == k
  }

  /** Registering a primitive changes nothing; registering any other name
      adds exactly that key, leaves every existing entry as it was, and
      stores `t` only when the name was absent. */
  lemma RegisteredChanges(types: map<string, Type>, t: Type)
    ensures IsPrimitive(t.name) ==> Registered(types, t) == types
    ensures !IsPrimitive(t.name) ==> Registered(types, t).Keys == types.Keys + {t.name}
    ensures forall k :: k in types ==> Registered(types, t)[k] == types[k]
    ensures !IsPrimitive(t.name) && t.name !in types ==> Registered(types, t)[t.name] == t
  {
  }

  /** A later type with an already registered name is ignored. */
  lemma RegisteredFirstWins(types: map<string, Type>, t: Type, u: Type)
    requires u.name == t.name
    ensures Registered(Registered(types, t), u) == Registered(types, t)
  {
  }

  /** Registering the types of a sequence of uses, in order. */
  function RegisterAll(types: map<string, Type>, ts: seq<Type>): map<string, Type>
    decreases ts
  {
    if ts == [] then types else RegisterAll(Registered(types, ts[0]), ts[1..])
  }

  lemma {:induction false} RegisterAllAppend(types: map<string, Type>, a: seq<Type>, b: seq<Type>)
    ensures RegisterAll(types, a + b) == RegisterAll(RegisterAll(types, a), b)
    decreases a
  {
    if a == [] {
      assert a + b == b;
    } else {
      assert (a + b)[0] == a[0] && (a + b)[1..] == a[1..] + b;
      RegisterAllAppend(Registered(types, a[0]), a[1..], b);
    }
  }

  /** The first type in `ts` named `name`. */
  function FirstNamed(ts: seq<Type>, name: string): (r: Option<Type>)
    ensures r.None? <==> forall i :: 0 <= i < |ts| ==> ts[i].name != name
    ensures r.Some? ==> r.value in ts && r.value.name == name
  {
    if ts == [] then None
    else if ts[0].name == name then Some(ts[0])
    else FirstNamed(ts[1..], name)
  }

  /** After any sequence of uses, a non-primitive name is registered exactly
      when it was already present or some use carries it, and it is bound
      to what was there before or else to its first use. */
  lemma {:induction false} RegisterAllFirstWins(types: map<string, Type>, ts: seq<Type>, name: string)
    requires !IsPrimitive(name)
    ensures name in RegisterAll(types, ts) <==> name in types || FirstNamed(ts, name).Some?
    ensures name in types ==> RegisterAll(types, ts)[name] == types[name]
    ensures name !in types && FirstNamed(ts, name).Some? ==>
      RegisterAll(types, ts)[name] == FirstNamed(ts, name).value
    decreases ts
  {
    if ts != [] {
      RegisterAllFirstWins(Registered(types, ts[0]), ts[1..], name);
    }
  }

  /** Primitive names never enter the registry, and its keys only grow. */
  lemma {:induction false} RegisterAllValid(types: map<string, Type>, ts: seq<Type>)
    requires ValidTypes(types)
    requires forall i :: 0 <= i < |ts| ==> ts[i].name != ""
    ensures ValidTypes(RegisterAll(types, ts))
    ensures types.Keys <= RegisterAll(types, ts).Keys
    ensures forall k :: k in RegisterAll(types, ts) ==> !IsPrimitive(k)
    decreases ts
  {
    if ts != [] {
      RegisterAllValid(Registered(types, ts[0]), ts[1..]);
    }
  }

  class TypeRegistry {
    var types: map<string, Type>

    ghost predicate Valid()
      reads this
    {
      ValidTypes(types)
    }

    constructor ()
      ensures Valid() && types == map[]
    {
      types := map[];
    }

    /** The insert-if-absent of `generateNodePartScalar` for a
        non-primitive type. */
    method Register(t: Type)
      requires Valid() && t.name != "" && !IsPrimitive(t.name)
      modifies this
      ensures Valid()
      ensures types == Registered(old(types), t)
    {
      if t.name !in types {
        types := types[t.name := t];
      }
    }

    /** The keys gathered into `typeKeys` through the `typeIndex` counter,
        then sorted: each registered name exactly once, in order. */
    method Flush() returns (keys: seq<string>)
      requires Valid()
      ensures StrictlySorted(keys)
      ensures |keys| == |types|
      ensures forall k :: k in keys <==> k in types
      ensures keys == SortedKeys(types.Keys)
    {
      var typeKeys := new string[|types|];
      var typeIndex := 0;
      var remaining := types.Keys;
      while remaining != {}
        invariant remaining <= types.Keys
        invariant typeIndex + |remaining| == typeKeys.Length
        invariant Distinct(typeKeys[..typeIndex])
        invariant forall k :: k in typeKeys[..typeIndex] <==> k in types && k !in remaining
        decreases remaining
      {
        var key :| key in remaining;
        ghost var gathered := typeKeys[..typeIndex];
        typeKeys[typeIndex] := key;
        assert typeKeys[..typeIndex + 1] == gathered + [key];
        typeIndex := typeIndex + 1;
        remaining := remaining - {key};
      }
      assert typeKeys[..] == typeKeys[..typeIndex];
      keys := Sort(typeKeys[..]);
      SortedUnique(keys, SortedKeys(types.Keys));
    }
  }
}
