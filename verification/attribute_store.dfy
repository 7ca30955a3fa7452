/**
 * AttributeStore (multiplenetwork/include/datastructures.h, lines 430-565): a
 * registry of named, typed attributes whose values can be set and read for any
 * object identifier. Objects are never registered: an object with no value for
 * a registered attribute reads as the store's default value.
 *
 * Only the declaration and its documentation belong to the library's header;
 * the operations below follow that documentation over the private state the
 * header declares (the attribute vector, the name index and the two value maps).
 */
module Attributes {
  import opened Errors

  /** attribute_type: STRING_TYPE = 0, NUMERIC_TYPE = 1. */
  datatype AttributeType = StringType | NumericType

  /** The numeric code of an attribute type in the library's enumeration. */
  function TypeCode(t: AttributeType): (c: int)
    ensures c == 0 <==> t == StringType
    ensures c == 1 <==> t == NumericType
  {
    match t
    case StringType => 0
    case NumericType => 1
  }

  /** The metadata of one attribute: its name and its type. */
  datatype Attribute = Attribute(name: string, atype: AttributeType)

  /** Attribute names along a vector are pairwise distinct. */
  ghost predicate DistinctNames(v: seq<Attribute>)
  {
    forall i, j :: 0 <= i < j < |v| ==> v[i].name != v[j].name
  }

  /** As many distinct names as attributes. */
  lemma {:induction false} NamesCard(v: seq<Attribute>)
    requires DistinctNames(v)
    ensures |set i | 0 <= i < |v| :: v[i].name| == |v|
  {
    if v != [] {
      var init := v[..|v| - 1];
      NamesCard(init);
      var names := set i | 0 <= i < |v| :: v[i].name;
      var initNames := set i | 0 <= i < |init| :: init[i].name;
      assert names == initNames + {v[|v| - 1].name} by {
        forall n | n in names
          ensures n in initNames + {v[|v| - 1].name}
        {
          var i :| 0 <= i < |v| && v[i].name == n;
          if i < |v| - 1 {
            assert init[i].name == n;
          }
        }
      }
      assert v[|v| - 1].name !in initNames;
    }
  }

  /**
   * The metadata vector v, the name index ids and the two value maps, sa for
   * string and na for numeric attributes, agree with one another.
   */
  ghost predicate Consistent<S, R>(v: seq<Attribute>, ids: map<string, int>, sa: map<string, S>, na: map<string, R>)
  {
    && (forall i :: 0 <= i < |v| ==> v[i].name in ids && ids[v[i].name] == i)
    && (forall n :: n in ids ==> 0 <= ids[n] < |v| && v[ids[n]].name == n)
    && (forall n :: n in sa ==> n in ids && v[ids[n]].atype == StringType)
    && (forall n :: n in na ==> n in ids && v[ids[n]].atype == NumericType)
    && (forall n :: n in ids ==> if v[ids[n]].atype == StringType then n in sa else n in na)
  }

  /** The type under which n is registered, if it is. */
  ghost function RegisteredType(v: seq<Attribute>, ids: map<string, int>, n: string): Option<AttributeType>
  {
    if n in ids && 0 <= ids[n] < |v| then Some(v[ids[n]].atype) else None
  }

  /** The value read from value map m for object oid and attribute n, with default d. */
  ghost function ReadValue<S>(m: map<string, map<int, S>>, d: S, oid: int, n: string): Result<S>
  {
    if n in m then Success(if oid in m[n] then m[n][oid] else d) else Failure(ElementNotFound)
  }

  /** The value map m with every value of object oid dropped. */
  function Forget<S>(m: map<string, map<int, S>>, oid: int): (r: map<string, map<int, S>>)
    ensures r.Keys == m.Keys
  {
    map n | n in m :: m[n] - {oid}
  }

  /** After Forget, oid reads the default under every attribute of the map, and nothing else moves. */
  lemma ForgetReads<S>(m: map<string, map<int, S>>, d: S, oid: int)
    ensures forall o, n :: ReadValue(Forget(m, oid), d, o, n) ==
              if o == oid && n in m then Success(d) else ReadValue(m, d, o, n)
  {
  }

  /** Dropping values leaves the value maps' keys, and so the registry's consistency, as they were. */
  lemma ForgetKeeps<S, R>(v: seq<Attribute>, ids: map<string, int>, sa: map<string, map<int, S>>,
                          na: map<string, map<int, R>>, oid: int)
    requires Consistent(v, ids, sa, na)
    ensures Consistent(v, ids, Forget(sa, oid), Forget(na, oid))
  {
  }

  /** A new attribute's empty value map: every object reads the default under it, and nothing else moves. */
  lemma FreshReads<S>(m: map<string, map<int, S>>, d: S, name: string)
    ensures forall o, n :: ReadValue(m[name := map[]], d, o, n) ==
              if n == name then Success(d) else ReadValue(m, d, o, n)
  {
    forall o, n
      ensures ReadValue(m[name := map[]], d, o, n) == if n == name then Success(d) else ReadValue(m, d, o, n)
    {
      if n == name {
        assert o !in m[name := map[]][n];
      }
    }
  }

  /** Registering a fresh string attribute with an empty value map. */
  lemma {:induction false} StringRegistered<R>(v: seq<Attribute>, ids: map<string, int>, sa: map<string, map<int, string>>,
                                             na: map<string, R>, name: string)
    requires Consistent(v, ids, sa, na) && name !in ids
    ensures Consistent(v + [Attribute(name, StringType)], ids[name := |v|], sa[name := map[]], na)
  {
    var v' := v + [Attribute(name, StringType)];
    assert forall i :: 0 <= i < |v| ==> v'[i] == v[i];
  }

  /** Registering a fresh numeric attribute with an empty value map. */
  lemma {:induction false} NumericRegistered<S>(v: seq<Attribute>, ids: map<string, int>, sa: map<string, S>,
                                              na: map<string, map<int, real>>, name: string)
    requires Consistent(v, ids, sa, na) && name !in ids
    ensures Consistent(v + [Attribute(name, NumericType)], ids[name := |v|], sa, na[name := map[]])
  {
    var v' := v + [Attribute(name, NumericType)];
    assert forall i :: 0 <= i < |v| ==> v'[i] == v[i];
  }

  /** Registering name at the end of the vector leaves every other name's type as it was. */
  lemma {:induction false} OthersKept(v: seq<Attribute>, ids: map<string, int>, name: string, t: AttributeType)
    requires name !in ids && forall n :: n in ids ==> 0 <= ids[n] < |v|
    ensures forall n :: n != name ==> RegisteredType(v + [Attribute(name, t)], ids[name := |v|], n) == RegisteredType(v, ids, n)
  {
    forall n | n != name
      ensures RegisteredType(v + [Attribute(name, t)], ids[name := |v|], n) == RegisteredType(v, ids, n)
    {
      if n in ids && 0 <= ids[n] < |v| {
        assert (v + [Attribute(name, t)])[ids[n]] == v[ids[n]];
      }
    }
  }

  class AttributeStore {
    /** Metadata of the registered attributes, in the order they were added. */
    var attributeVector: seq<Attribute>
    /** Position of each registered name in attributeVector. */
    var attributeIds: map<string, int>
    /** Values of the string attributes: attribute name, then object identifier. */
    var stringAttribute: map<string, map<int, string>>
    /** Values of the numeric attributes (C++ double): attribute name, then object identifier. */
    var numericAttribute: map<string, map<int, real>>
    /** Value read for an object with no numeric value set. */
    var defaultNumeric: real
    /** Value read for an object with no string value set. */
    var defaultString: string

    /**
     * The name index and the vector agree, and each registered attribute has a
     * value map of its own type and none of the other.
     */
    ghost predicate Valid()
      reads this
    {
      Consistent(attributeVector, attributeIds, stringAttribute, numericAttribute)
    }

    /** The registered type of attribute n, if n is registered. */
    ghost function TypeOf(n: string): Option<AttributeType>
      reads this
    {
      RegisteredType(attributeVector, attributeIds, n)
    }

    /** What getString reads for object oid and attribute n. */
    ghost function StringValue(oid: int, n: string): Result<string>
      reads this
    {
      ReadValue(stringAttribute, defaultString, oid, n)
    }

    /** What getNumeric reads for object oid and attribute n. */
    ghost function NumericValue(oid: int, n: string): Result<real>
      reads this
    {
      ReadValue(numericAttribute, defaultNumeric, oid, n)
    }

    /** An empty store with defaults 0.0 and "". */
    constructor ()
      ensures Valid() && attributeVector == [] && attributeIds == map[]
      ensures defaultNumeric == 0.0 && defaultString == ""
      ensures forall oid, n :: StringValue(oid, n) == Failure(ElementNotFound)
      ensures forall oid, n :: NumericValue(oid, n) == Failure(ElementNotFound)
    {
      attributeVector := [];
      attributeIds := map[];
      stringAttribute := map[];
      numericAttribute := map[];
      defaultNumeric := 0.0;
      defaultString := "";
    }

    /** The registered names are exactly as many as the attributes. */
    lemma RegisteredCount()
      requires Valid()
      ensures |attributeIds| == |attributeVector|
    {
      assert DistinctNames(attributeVector) by {
        forall i, j | 0 <= i < j < |attributeVector|
          ensures attributeVector[i].name != attributeVector[j].name
        {
          assert attributeIds[attributeVector[i].name] == i;
        }
      }
      NamesCard(attributeVector);
      var names := set i | 0 <= i < |attributeVector| :: attributeVector[i].name;
      assert attributeIds.Keys == names by {
        forall n | n in attributeIds
          ensures n in names
        {
          assert attributeVector[attributeIds[n]].name == n;
        }
      }
    }

    /** numAttributes: the number of registered attributes, of all types. */
    method NumAttributes() returns (r: int)
      requires Valid()
      ensures r == |attributeIds| && r == |attributeVector|
    {
      RegisteredCount();
      r := |attributeVector|;
    }

    /** attributes: the metadata of every registered attribute, in the order of registration. */
    method Attributes() returns (r: seq<Attribute>)
      requires Valid()
      ensures |r| == |attributeIds|
      ensures forall i :: 0 <= i < |r| ==> TypeOf(r[i].name) == Some(r[i].atype) && attributeIds[r[i].name] == i
    {
      RegisteredCount();
      r := attributeVector;
    }

    /** attribute(idx): the idx-th registered attribute, or None (NULL) when there is none. */
    method AttributeAt(idx: int) returns (r: Option<Attribute>)
      requires Valid()
      ensures 0 <= idx < |attributeVector| ==> r.Some? && r.value.name in attributeIds && attributeIds[r.value.name] == idx
      ensures 0 <= idx < |attributeVector| ==> TypeOf(r.value.name) == Some(r.value.atype)
      ensures (idx < 0 || |attributeVector| <= idx) ==> r == None
    {
      if 0 <= idx < |attributeVector| {
        r := Some(attributeVector[idx]);
      } else {
        r := None;
      }
    }

    /** attribute(name): the attribute registered under name, or None (NULL) when there is none. */
    method AttributeNamed(name: string) returns (r: Option<Attribute>)
      requires Valid()
      ensures r.Some? <==> TypeOf(name).Some?
      ensures r.Some? ==> r.value.name == name && TypeOf(name) == Some(r.value.atype)
    {
      if name in attributeIds {
        r := Some(attributeVector[attributeIds[name]]);
      } else {
        r := None;
      }
    }

    /**
     * add: registers a new attribute at the end of the vector; every object
     * reads the default value for it. A name already registered, of either
     * type, is a DuplicateElement and changes nothing.
     */
    method Add(name: string, t: AttributeType) returns (o: Outcome)
      requires Valid()
      modifies this
      ensures Valid()
      ensures old(TypeOf(name)).Some? ==> o == Fail(DuplicateElement) && unchanged(this)
      ensures old(TypeOf(name)).None? ==> o == Pass && attributeVector == old(attributeVector) + [Attribute(name, t)]
      ensures old(TypeOf(name)).None? ==> TypeOf(name) == Some(t)
      ensures forall n :: n != name ==> TypeOf(n) == old(TypeOf(n))
      ensures old(TypeOf(name)).None? && t == StringType ==> forall oid :: StringValue(oid, name) == Success(defaultString)
      ensures old(TypeOf(name)).None? && t == NumericType ==> forall oid :: NumericValue(oid, name) == Success(defaultNumeric)
      ensures forall oid, n :: n != name ==> StringValue(oid, n) == old(StringValue(oid, n))
      ensures forall oid, n :: n != name ==> NumericValue(oid, n) == old(NumericValue(oid, n))
      ensures defaultString == old(defaultString) && defaultNumeric == old(defaultNumeric)
    {
      if name in attributeIds {
        return Fail(DuplicateElement);
      }
      if t == StringType {
        RegisterString(name);
      } else {
        RegisterNumeric(name);
      }
      o := Pass;
    }

    /** The registering half of add for a string attribute not yet registered. */
    method RegisterString(name: string)
      requires Valid() && name !in attributeIds
      modifies this
      ensures Valid()
      ensures attributeVector == old(attributeVector) + [Attribute(name, StringType)]
      ensures TypeOf(name) == Some(StringType)
      ensures forall n :: n != name ==> TypeOf(n) == old(TypeOf(n))
      ensures forall oid :: StringValue(oid, name) == Success(defaultString)
      ensures forall oid, n :: n != name ==> StringValue(oid, n) == old(StringValue(oid, n))
      ensures numericAttribute == old(numericAttribute)
      ensures defaultString == old(defaultString) && defaultNumeric == old(defaultNumeric)
    {
      StringRegistered(attributeVector, attributeIds, stringAttribute, numericAttribute, name);
      FreshReads(stringAttribute, defaultString, name);
      OthersKept(attributeVector, attributeIds, name, StringType);
      stringAttribute := stringAttribute[name := map[]];
      attributeIds := attributeIds[name := |attributeVector|];
      attributeVector := attributeVector + [Attribute(name, StringType)];
    }

    /** The registering half of add for a numeric attribute not yet registered. */
    method RegisterNumeric(name: string)
      requires Valid() && name !in attributeIds
      modifies this
      ensures Valid()
      ensures attributeVector == old(attributeVector) + [Attribute(name, NumericType)]
      ensures TypeOf(name) == Some(NumericType)
      ensures forall n :: n != name ==> TypeOf(n) == old(TypeOf(n))
      ensures forall oid :: NumericValue(oid, name) == Success(defaultNumeric)
      ensures forall oid, n :: n != name ==> NumericValue(oid, n) == old(NumericValue(oid, n))
      ensures stringAttribute == old(stringAttribute)
      ensures defaultString == old(defaultString) && defaultNumeric == old(defaultNumeric)
    {
      NumericRegistered(attributeVector, attributeIds, stringAttribute, numericAttribute, name);
      FreshReads(numericAttribute, defaultNumeric, name);
      OthersKept(attributeVector, attributeIds, name, NumericType);
      numericAttribute := numericAttribute[name := map[]];
      attributeIds := attributeIds[name := |attributeVector|];
      attributeVector := attributeVector + [Attribute(name, NumericType)];
    }

    /**
     * setString: the value of attribute name for object oid becomes value, and
     * nothing else changes. An unregistered name is ElementNotFound, a numeric
     * attribute OperationNotSupported; both leave the store unchanged.
     */
    method SetString(oid: int, name: string, value: string) returns (o: Outcome)
      requires Valid()
      modifies this
      ensures Valid()
      ensures old(TypeOf(name)).None? ==> o == Fail(ElementNotFound) && unchanged(this)
      ensures old(TypeOf(name)) == Some(NumericType) ==> o == Fail(OperationNotSupported) && unchanged(this)
      ensures old(TypeOf(name)) == Some(StringType) ==> o == Pass && StringValue(oid, name) == Success(value)
      ensures forall oid', n :: (oid', n) != (oid, name) ==> StringValue(oid', n) == old(StringValue(oid', n))
      ensures forall oid', n :: NumericValue(oid', n) == old(NumericValue(oid', n))
      ensures attributeVector == old(attributeVector) && attributeIds == old(attributeIds)
      ensures defaultString == old(defaultString) && defaultNumeric == old(defaultNumeric)
    {
      if name !in attributeIds {
        return Fail(ElementNotFound);
      }
      if attributeVector[attributeIds[name]].atype != StringType {
        return Fail(OperationNotSupported);
      }
      stringAttribute := stringAttribute[name := stringAttribute[name][oid := value]];
      o := Pass;
    }

    /**
     * setNumeric: the value of attribute name for object oid becomes value, and
     * nothing else changes. An unregistered name is ElementNotFound, a string
     * attribute OperationNotSupported; both leave the store unchanged.
     */
    method SetNumeric(oid: int, name: string, value: real) returns (o: Outcome)
      requires Valid()
      modifies this
      ensures Valid()
      ensures old(TypeOf(name)).None? ==> o == Fail(ElementNotFound) && unchanged(this)
      ensures old(TypeOf(name)) == Some(StringType) ==> o == Fail(OperationNotSupported) && unchanged(this)
      ensures old(TypeOf(name)) == Some(NumericType) ==> o == Pass && NumericValue(oid, name) == Success(value)
      ensures forall oid', n :: (oid', n) != (oid, name) ==> NumericValue(oid', n) == old(NumericValue(oid', n))
      ensures forall oid', n :: StringValue(oid', n) == old(StringValue(oid', n))
      ensures attributeVector == old(attributeVector) && attributeIds == old(attributeIds)
      ensures defaultString == old(defaultString) && defaultNumeric == old(defaultNumeric)
    {
      if name !in attributeIds {
        return Fail(ElementNotFound);
      }
      if attributeVector[attributeIds[name]].atype != NumericType {
        return Fail(OperationNotSupported);
      }
      numericAttribute := numericAttribute[name := numericAttribute[name][oid := value]];
      o := Pass;
    }

    /**
     * getString: the value set for oid, or the default string when oid has
     * none. A name not registered as a string attribute is ElementNotFound.
     */
    method GetString(oid: int, name: string) returns (r: Result<string>)
      requires Valid()
      ensures TypeOf(name) != Some(StringType) ==> r == Failure(ElementNotFound)
      ensures TypeOf(name) == Some(StringType) ==> r.Success?
      ensures r.Success? && oid !in stringAttribute[name] ==> r.value == defaultString
      ensures r.Success? && oid in stringAttribute[name] ==> r.value == stringAttribute[name][oid]
      ensures r == StringValue(oid, name)
    {
      if name !in stringAttribute {
        return Failure(ElementNotFound);
      }
      if oid in stringAttribute[name] {
        r := Success(stringAttribute[name][oid]);
      } else {
        r := Success(defaultString);
      }
    }

    /**
     * getNumeric: the value set for oid, or the default number when oid has
     * none. A name not registered as a numeric attribute is ElementNotFound.
     */
    method GetNumeric(oid: int, name: string) returns (r: Result<real>)
      requires Valid()
      ensures TypeOf(name) != Some(NumericType) ==> r == Failure(ElementNotFound)
      ensures TypeOf(name) == Some(NumericType) ==> r.Success?
      ensures r.Success? && oid !in numericAttribute[name] ==> r.value == defaultNumeric
      ensures r.Success? && oid in numericAttribute[name] ==> r.value == numericAttribute[name][oid]
      ensures r == NumericValue(oid, name)
    {
      if name !in numericAttribute {
        return Failure(ElementNotFound);
      }
      if oid in numericAttribute[name] {
        r := Success(numericAttribute[name][oid]);
      } else {
        r := Success(defaultNumeric);
      }
    }

    /**
     * remove: every attribute of oid reads its default again; the values of
     * other objects and the registered attributes are unchanged.
     */
    method Remove(oid: int)
      requires Valid()
      modifies this
      ensures Valid()
      ensures forall n :: TypeOf(n) == Some(StringType) ==> StringValue(oid, n) == Success(defaultString)
      ensures forall n :: TypeOf(n) == Some(NumericType) ==> NumericValue(oid, n) == Success(defaultNumeric)
      ensures forall oid', n :: oid' != oid ==> StringValue(oid', n) == old(StringValue(oid', n))
      ensures forall oid', n :: oid' != oid ==> NumericValue(oid', n) == old(NumericValue(oid', n))
      ensures forall n :: StringValue(oid, n).Failure? == old(StringValue(oid, n)).Failure?
      ensures forall n :: NumericValue(oid, n).Failure? == old(NumericValue(oid, n)).Failure?
      ensures attributeVector == old(attributeVector) && attributeIds == old(attributeIds)
      ensures defaultString == old(defaultString) && defaultNumeric == old(defaultNumeric)
      ensures stringAttribute == Forget(old(stringAttribute), oid) && numericAttribute == Forget(old(numericAttribute), oid)
    {
      ForgetKeeps(attributeVector, attributeIds, stringAttribute, numericAttribute, oid);
      ForgetReads(stringAttribute, defaultString, oid);
      ForgetReads(numericAttribute, defaultNumeric, oid);
      stringAttribute := Forget(stringAttribute, oid);
      numericAttribute := Forget(numericAttribute, oid);
    }
  }
}
