/** The `If` predicate library: boolean tests over a type's metadata, used
    as type filters for registration rules. Each is a function of the type
    value alone, so it gives the same answer however often and in whatever
    order the engine evaluates it. */
module If {
  import opened TypeUniverse
  import Enumerable

  /** `DecoratedWith<TAttr>`: some attribute on the type is exactly of class
      `attr` (a subclass of `attr` does not count). */
  predicate DecoratedWith(t: TypeInfo, attr: TypeInfo)
    ensures DecoratedWith(t, attr) <==> attr in t.attributes
  {
    Enumerable.Any(t.attributes, (a: TypeInfo) => a == attr)
  }

  /** `Implements<TContract>`: `contract` is among the type's interfaces. */
  predicate Implements(t: TypeInfo, contract: TypeInfo)
    ensures Implements(t, contract) <==> contract in t.interfaces
  {
    Enumerable.Any(t.interfaces, (i: TypeInfo) => i == contract)
  }

  /** `String.TrimStart(c)`: drops every leading occurrence of `c`. */
  function TrimStart(s: string, c: char): (r: string)
    ensures |r| <= |s| && r == s[|s| - |r|..]
    ensures forall i :: 0 <= i < |s| - |r| ==> s[i] == c
    ensures |r| == 0 || r[0] != c
  {
    if |s| > 0 && s[0] == c then TrimStart(s[1..], c) else s
  }

  /** `ImplementsITypeName` as written: some interface name, once every
      leading 'I' is trimmed, equals the type's name. */
  predicate ImplementsITypeName(t: TypeInfo)
    ensures ImplementsITypeName(t) <==>
      exists i :: 0 <= i < |t.interfaces| && TrimStart(t.interfaces[i].name, 'I') == t.name
  {
    Enumerable.Any(t.interfaces, (i: TypeInfo) => TrimStart(i.name, 'I') == t.name)
  }

  /** The naming convention `ImplementsITypeName` is meant to test: the type
      implements an interface named "I" followed by the type's own name. */
  predicate ImplementsITypeNameIntended(t: TypeInfo)
    ensures ImplementsITypeNameIntended(t) <==>
      exists i :: 0 <= i < |t.interfaces| && t.interfaces[i].name == "I" + t.name
  {
    Enumerable.Any(t.interfaces, (i: TypeInfo) => |i.name| > 0 && i.name[0] == 'I' && i.name[1..] == t.name)
  }

  /** `ImplementsSingleInterface`: the type has exactly one interface. */
  predicate ImplementsSingleInterface(t: TypeInfo)
    ensures ImplementsSingleInterface(t) <==> exists c :: t.interfaces == [c]
  {
    assert |t.interfaces| == 1 ==> t.interfaces == [t.interfaces[0]];
    |t.interfaces| == 1
  }

  /** `AnyType`: matches every type. */
  predicate AnyType(t: TypeInfo)
    ensures AnyType(t)
  {
    true
  }

  /** Trimming a single 'I' off a name that does not itself start with 'I'
      recovers the name, so the as-written test accepts every type the
      convention accepts, as long as the type's name does not start with 'I'
      (the empty name included). */
  lemma {:induction false} IntendedImpliesAsWritten(t: TypeInfo)
    requires |t.name| == 0 || t.name[0] != 'I'
    ensures ImplementsITypeNameIntended(t) ==> ImplementsITypeName(t)
  {
    if ImplementsITypeNameIntended(t) {
      var i :| 0 <= i < |t.interfaces| && t.interfaces[i].name == "I" + t.name;
      var n := t.interfaces[i].name;
      assert n[0] == 'I' && n[1..] == t.name;
      assert TrimStart(t.name, 'I') == t.name;
      assert TrimStart(n, 'I') == TrimStart(n[1..], 'I');
      assert TrimStart(t.interfaces[i].name, 'I') == t.name;
    }
  }

  /** The converse fails: the as-written test also accepts an interface
      named exactly like the type, with no 'I' in front, which the
      convention rejects. */
  lemma {:induction false} AsWrittenAcceptsSameName(t: TypeInfo, i: nat)
    requires i < |t.interfaces| && t.interfaces[i].name == t.name
    requires |t.name| == 0 || t.name[0] != 'I'
    ensures ImplementsITypeName(t)
  {
    assert TrimStart(t.interfaces[i].name, 'I') == t.name;
  }
}
