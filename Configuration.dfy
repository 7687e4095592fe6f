/** Configuration: a set of named properties kept in a TreeSet ordered by name.
    Adding a property whose name is present replaces the old one, and every
    merge is built from that replace step. */
module Config {
  import opened JavaLang
  import opened SortedSets

  /** A property's raw value: null, a string, or any other Java object, which
      the model knows only by an identity. */
  datatype Value = Null | Text(text: string) | Other(id: nat)

  /** A property: its name (null until set), raw value and optional type hint. */
  datatype Property = Property(name: Option<string>, value: Value, typ: Option<string>)

  /** The exceptions the Configuration operations throw. */
  datatype Failure =
    | IllegalArgument
    | NullPointer
    | UnsupportedOperation
    | InvalidProperty(property: Property)  // thrown by Property.validate

  /** The key properties are ordered and identified by. Only named properties
      ever reach the set, so the fallback for a null name is never used there. */
  function NameKey(p: Property): string
  {
    if p.name.Some? then p.name.value else ""
  }

  /** The index of the first unnamed property, or |ps| when all are named. */
  function NamedPrefix(ps: seq<Property>): (n: nat)
    ensures n <= |ps|
    ensures forall i :: 0 <= i < n ==> ps[i].name.Some?
    ensures n < |ps| ==> ps[n].name.None?
  {
    if ps == [] || ps[0].name.None? then 0 else 1 + NamedPrefix(ps[1..])
  }

  /** A Java int sum wraps around at 32 bits. */
  function Int32(x: int): int
  {
    (x + 0x8000_0000) % 0x1_0000_0000 - 0x8000_0000
  }

  /** AbstractSet.hashCode before wrap-around: the sum of the elements' hashes. */
  function HashSum(s: seq<Property>, hash: Property -> int): int
  {
    if s == [] then 0 else hash(s[0]) + HashSum(s[1..], hash)
  }

  /** A property hash that looks only at the name, as Property's ordering does. */
  ghost predicate NameOnlyHash(hash: Property -> int)
  {
    forall p: Property, q: Property :: p.name == q.name ==> hash(p) == hash(q)
  }

  lemma {:induction false} HashSumByNames(s: seq<Property>, t: seq<Property>, hash: Property -> int)
    requires NameOnlyHash(hash) && |s| == |t|
    requires forall i :: 0 <= i < |s| ==> s[i].name == t[i].name
    ensures HashSum(s, hash) == HashSum(t, hash)
  {
    if s != [] {
      HashSumByNames(s[1..], t[1..], hash);
    }
  }

  lemma UnionUpdate<V>(a: map<string, V>, b: map<string, V>, k: string, v: V)
    ensures (a + b)[k := v] == a + (b + map[k := v])
  {
  }

  class Configuration {
    /** The TreeSet: properties in strictly ascending name order. */
    var properties: seq<Property>

    ghost predicate Valid()
      reads this
    {
      && (forall p :: p in properties ==> p.name.Some?)
      && Sorted(properties, NameKey)
    }

    /** The abstract state: each name to the property that holds it. */
    ghost function Contents(): map<string, Property>
      reads this
    {
      ByKey(properties, NameKey)
    }

    constructor ()
      ensures Valid() && Contents() == map[]
    {
      properties := [];
    }

    /** addProperty: reject an unnamed property, else replace any property of
        the same name by `p`. */
    method AddProperty(p: Property) returns (r: Outcome<Failure>)
      requires Valid()
      modifies this
      ensures Valid()
      ensures p.name.None? ==> r == Fail(IllegalArgument) && properties == old(properties)
      ensures p.name.Some? ==> r == Pass && Contents() == old(Contents())[p.name.value := p]
    {
      if p.name.None? {
        return Fail(IllegalArgument);
      }
      PutSpec(properties, p, NameKey);
      properties := Put(properties, p, NameKey);
      r := Pass;
    }

    /** removeProperty(Property): TreeSet.remove matches by name alone. */
    method RemoveProperty(p: Property) returns (removed: bool)
      requires Valid() && p.name.Some?
      modifies this
      ensures Valid()
      ensures removed <==> p.name.value in old(Contents())
      ensures Contents() == old(Contents()) - {p.name.value}
    {
      removed := NameKey(p) in ByKey(properties, NameKey);
      RemoveSpec(properties, NameKey(p), NameKey);
      properties := Remove(properties, NameKey(p), NameKey);
    }

    /** setProperty: a null name throws; otherwise add a fresh, untyped property. */
    method SetProperty(name: Option<string>, value: Value) returns (r: Outcome<Failure>)
      requires Valid()
      modifies this
      ensures Valid()
      ensures name.None? ==> r == Fail(NullPointer) && properties == old(properties)
      ensures name.Some? ==> r == Pass && Contents() == old(Contents())[name.value := Property(name, value, None)]
    {
      if name.None? {
        return Fail(NullPointer);
      }
      r := AddProperty(Property(name, value, None));
    }

    /** removeProperty(String) as written: the property found by getProperty,
        null when the name is absent, goes straight to TreeSet.remove, which
        throws on null. So an absent name throws instead of returning false. */
    method RemovePropertyNamed(name: Option<string>) returns (r: Result<bool, Failure>)
      requires Valid()
      modifies this
      ensures Valid()
      ensures r == if name.Some? && name.value in old(Contents()) then Ok(true) else Err(NullPointer)
      ensures Contents() == if name.Some? && r.Ok? then old(Contents()) - {name.value} else old(Contents())
    {
      var found := GetProperty(name);
      if found.Err? {
        return Err(found.error);
      }
      if found.value.None? {
        return Err(NullPointer);
      }
      var removed := RemoveProperty(found.value.value);
      r := Ok(removed);
    }

    /** removeProperty(String) as evidently intended: false for an absent name. */
    method RemovePropertyNamedIntended(name: Option<string>) returns (r: Result<bool, Failure>)
      requires Valid()
      modifies this
      ensures Valid()
      ensures name.None? ==> r == (if old(properties) == [] then Ok(false) else Err(NullPointer))
      ensures name.Some? ==> r == Ok(name.value in old(Contents()))
      ensures Contents() == if name.Some? then old(Contents()) - {name.value} else old(Contents())
    {
      var found := GetProperty(name);
      if found.Err? {
        return Err(found.error);
      }
      if found.value.None? {
        if name.Some? {
          assert Contents() - {name.value} == Contents();
        }
        return Ok(false);
      }
      var removed := RemoveProperty(found.value.value);
      r := Ok(removed);
    }

    method HasProperties() returns (b: bool)
      requires Valid()
      ensures b <==> Contents() != map[]
    {
      b := properties != [];
      if b {
        ByKeyAt(properties, 0, NameKey);
      }
    }

    /** getProperty: scan in name order; `name.equals(...)` throws on a null
        name as soon as there is a property to compare with. */
    method GetProperty(name: Option<string>) returns (r: Result<Option<Property>, Failure>)
      requires Valid()
      ensures name.None? ==> r == if properties == [] then Ok(None) else Err(NullPointer)
      ensures name.Some? ==> r == Ok(if name.value in Contents() then Some(Contents()[name.value]) else None)
      ensures r.Ok? && r.value.Some? ==> r.value.value.name == name
    {
      var i := 0;
      while i < |properties|
        invariant 0 <= i <= |properties|
        invariant name.None? ==> i == 0
        invariant forall j :: 0 <= j < i ==> properties[j].name != name
      {
        if name.None? {
          return Err(NullPointer);
        }
        if name == properties[i].name {
          ByKeyAt(properties, i, NameKey);
          return Ok(Some(properties[i]));
        }
        i := i + 1;
      }
      if name.Some? {
        assert forall j :: 0 <= j < |properties| ==> properties[j] in properties;
        ByKeyMissing(properties, name.value, NameKey);
      }
      return Ok(None);
    }

    /** getProperties: a snapshot, in ascending name order, one per name. */
    method GetProperties() returns (ps: seq<Property>)
      requires Valid()
      ensures Sorted(ps, NameKey) && forall i :: 0 <= i < |ps| ==> ps[i].name.Some?
      ensures ByKey(ps, NameKey) == Contents()
    {
      ps := properties;
    }

    /** getPropertyMap: each name to its property's converted value. */
    method GetPropertyMap(convert: Property -> Value) returns (m: map<string, Value>)
      requires Valid()
      ensures m.Keys == Contents().Keys
      ensures forall n :: n in m ==> m[n] == convert(Contents()[n])
    {
      m := map[];
      var i := 0;
      while i < |properties|
        invariant 0 <= i <= |properties|
        invariant m.Keys == ByKey(properties[..i], NameKey).Keys
        invariant forall n :: n in m ==> m[n] == convert(ByKey(properties[..i], NameKey)[n])
      {
        var prop := properties[i];
        ByKeyConcat(properties[..i], [prop], NameKey);
        assert properties[..i + 1] == properties[..i] + [prop];
        assert ByKey([prop], NameKey) == map[prop.name.value := prop];
        m := m[prop.name.value := convert(prop)];
        i := i + 1;
      }
      assert properties[..i] == properties;
    }

    /** setProperties: addProperty each in turn; an unnamed one throws and
        leaves the earlier ones added. */
    method SetProperties(ps: seq<Property>) returns (r: Outcome<Failure>)
      requires Valid()
      modifies this
      ensures Valid()
      ensures r == if NamedPrefix(ps) == |ps| then Pass else Fail(IllegalArgument)
      ensures Contents() == old(Contents()) + ByKey(ps[..NamedPrefix(ps)], NameKey)
    {
      var i := 0;
      while i < |ps|
        invariant 0 <= i <= NamedPrefix(ps)
        invariant Valid()
        invariant Contents() == old(Contents()) + ByKey(ps[..i], NameKey)
      {
        var prop := ps[i];
        r := AddProperty(prop);
        if r.Fail? {
          assert i == NamedPrefix(ps);
          return;
        }
        ByKeyConcat(ps[..i], [prop], NameKey);
        assert ps[..i + 1] == ps[..i] + [prop];
        assert ByKey([prop], NameKey) == map[prop.name.value := prop];
        UnionUpdate(old(Contents()), ByKey(ps[..i], NameKey), prop.name.value, prop);
        i := i + 1;
      }
      r := Pass;
    }

    /** addConfiguration: replace-merge of `other`'s properties; on a clash the
        incoming property wins. */
    method AddConfiguration(other: Configuration) returns ()
      requires Valid() && other.Valid()
      modifies this
      ensures Valid()
      ensures Contents() == old(Contents()) + old(other.Contents())
    {
      var ps := other.GetProperties();
      assert NamedPrefix(ps) == |ps|;
      assert ps[..|ps|] == ps;
      var _ := SetProperties(ps);
    }

    /** validate: validate every property in name order; the first failure is
        thrown. Property.validate itself is the parameter `valid`. */
    method Validate(valid: Property -> bool) returns (r: Outcome<Failure>)
      requires Valid()
      ensures r.Pass? <==> forall p :: p in properties ==> valid(p)
      ensures r.Fail? ==> exists i :: 0 <= i < |properties| && !valid(properties[i])
                            && r.error == InvalidProperty(properties[i])
                            && forall j :: 0 <= j < i ==> valid(properties[j])
    {
      var i := 0;
      while i < |properties|
        invariant 0 <= i <= |properties|
        invariant forall j :: 0 <= j < i ==> valid(properties[j])
      {
        if !valid(properties[i]) {
          return Fail(InvalidProperty(properties[i]));
        }
        i := i + 1;
      }
      return Pass;
    }

    /** The base type has no order: compareTo always throws. */
    function CompareTo(other: Configuration): (r: Result<int, Failure>)
      ensures r == Err(UnsupportedOperation)
    {
      Err(UnsupportedOperation)
    }

    /** equals: true for the same object, false for null or a non-Configuration
        (None), otherwise TreeSet.equals, which finds elements by name. */
    function Equals(obj: Option<Configuration>): (r: bool)
      requires Valid() && (obj.Some? ==> obj.value.Valid())
      reads this, if obj.Some? then {obj.value} else {}
      ensures r <==> obj.Some? && Contents().Keys == obj.value.Contents().Keys
    {
      if obj.None? then false
      else if obj.value == this then true
      else
        var that := obj.value.properties;
        SizeAndContainsAll(properties, that, NameKey, NameKey);
        |properties| == |that| && forall i :: 0 <= i < |that| ==> NameKey(that[i]) in ByKey(properties, NameKey)
    }

    /** hashCode: TreeSet's sum of element hashes, wrapped to a Java int;
        Property.hashCode is the parameter `hash`. */
    function HashCode(hash: Property -> int): (r: int)
      reads this
      ensures -0x8000_0000 <= r < 0x8000_0000
    {
      Int32(HashSum(properties, hash))
    }
  }

  /** removeProperty("missing") as written on a configuration holding only
      property "a": it throws a NullPointerException rather than returning false. */
  method RemoveMissingAsWritten() returns (r: Result<bool, Failure>)
    ensures r == Err(NullPointer)
  {
    var c := new Configuration();
    var _ := c.SetProperty(Some("a"), Text("1"));
    r := c.RemovePropertyNamed(Some("missing"));
  }

  /** The same call on the corrected operation returns false and changes nothing. */
  method RemoveMissingIntended() returns (r: Result<bool, Failure>, after: map<string, Value>)
    ensures r == Ok(false) && after == map["a" := Text("1")]
  {
    var c := new Configuration();
    var _ := c.SetProperty(Some("a"), Text("1"));
    r := c.RemovePropertyNamedIntended(Some("missing"));
    after := c.GetPropertyMap((p: Property) => p.value);
  }

  /** Equal configurations have equal hash codes, provided Property.hashCode
      depends on the name alone, as its ordering does. */
  lemma EqualsHashCode(a: Configuration, b: Configuration, hash: Property -> int)
    requires a.Valid() && b.Valid() && NameOnlyHash(hash)
    requires a.Equals(Some(b))
    ensures a.HashCode(hash) == b.HashCode(hash)
  {
    SameKeysSameOrder(a.properties, b.properties, NameKey, NameKey);
    forall i | 0 <= i < |a.properties| ensures a.properties[i].name == b.properties[i].name {
      assert a.properties[i] in a.properties && b.properties[i] in b.properties;
    }
    HashSumByNames(a.properties, b.properties, hash);
  }
}
