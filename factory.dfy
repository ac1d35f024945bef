/**
 * ExpressionFactory of 8.cpp: builds and shares Constant and Variable leaves.
 *
 * A `std::weak_ptr` is modelled by the object it was made from; whether it can still
 * be locked depends on whether some owner outside the factory still holds that
 * object, which the factory cannot see. The caller therefore passes `live`, the set
 * of objects that are still owned: lock() succeeds exactly when the cached object is
 * in `live`, and an entry whose object is not in `live` is expired.
 */
module Factory {
  import opened Expressions

  const MinPredefined: int := -5
  const MaxPredefined: int := 256

  /** The values for which the factory owns one permanent Constant. */
  predicate InPredefinedRange(v: int) {
    MinPredefined <= v <= MaxPredefined
  }

  class ExpressionFactory {
    /** Owned constants, one per value of the predefined range. */
    var predefinedConstants: map<int, Constant>
    /** Non-owning cache of constants outside the predefined range. */
    var dynamicConstants: map<int, Constant>
    /** Non-owning cache of variables by name. */
    var variables: map<string, Variable>

    ghost predicate Valid()
      reads this
    {
      && (forall v :: v in predefinedConstants <==> InPredefinedRange(v))
      && (forall v :: v in predefinedConstants ==> predefinedConstants[v].value == v)
      && (forall v :: v in dynamicConstants ==> !InPredefinedRange(v) && dynamicConstants[v].value == v)
      && (forall n :: n in variables ==> variables[n].name == n)
    }

    /** A new factory owns a fresh Constant for every predefined value and caches nothing else. */
    constructor ()
      ensures Valid()
      ensures dynamicConstants == map[] && variables == map[]
      ensures forall v :: v in predefinedConstants ==> fresh(predefinedConstants[v])
    {
      predefinedConstants := map[];
      dynamicConstants := map[];
      variables := map[];
      new;
      InitPredefined();
    }

    /** Stores a fresh Constant(i) under every key i of the predefined range. */
    method InitPredefined()
      modifies this
      ensures dynamicConstants == old(dynamicConstants) && variables == old(variables)
      ensures forall v :: v in predefinedConstants <==> v in old(predefinedConstants) || InPredefinedRange(v)
      ensures forall v :: InPredefinedRange(v) ==>
                predefinedConstants[v].value == v && fresh(predefinedConstants[v])
      ensures forall v :: v in old(predefinedConstants) && !InPredefinedRange(v) ==>
                predefinedConstants[v] == old(predefinedConstants)[v]
    {
      var i := MinPredefined;
      while i <= MaxPredefined
        invariant MinPredefined <= i <= MaxPredefined + 1
        invariant dynamicConstants == old(dynamicConstants) && variables == old(variables)
        invariant forall v :: v in predefinedConstants <==> v in old(predefinedConstants) || MinPredefined <= v < i
        invariant forall v :: MinPredefined <= v < i ==>
                    predefinedConstants[v].value == v && fresh(predefinedConstants[v])
        invariant forall v :: v in old(predefinedConstants) && !(MinPredefined <= v < i) ==>
                    predefinedConstants[v] == old(predefinedConstants)[v]
      {
        var c := new Constant(i);
        predefinedConstants := predefinedConstants[i := c];
        i := i + 1;
      }
    }

    /** `createConstant`: the owned instance for a predefined value; otherwise the cached
        instance while it is live, or a fresh one recorded under its value. */
    method CreateConstant(value: int, live: set<object>) returns (c: Constant)
      requires Valid()
      modifies this
      ensures Valid()
      ensures c.value == value
      ensures predefinedConstants == old(predefinedConstants) && variables == old(variables)
      ensures InPredefinedRange(value) ==>
                c == predefinedConstants[value] && dynamicConstants == old(dynamicConstants)
      ensures !InPredefinedRange(value) && value in old(dynamicConstants) && old(dynamicConstants)[value] in live ==>
                c == old(dynamicConstants)[value] && dynamicConstants == old(dynamicConstants)
      ensures !InPredefinedRange(value) && !(value in old(dynamicConstants) && old(dynamicConstants)[value] in live) ==>
                fresh(c) && dynamicConstants == old(dynamicConstants)[value := c]
    {
      if MinPredefined <= value <= MaxPredefined {
        return predefinedConstants[value];
      }
      if value in dynamicConstants && dynamicConstants[value] in live {
        return dynamicConstants[value];
      }
      c := new Constant(value);
      dynamicConstants := dynamicConstants[value := c];
    }

    /** `createVariable`: an expired entry for the name is erased first; then the cached
        instance is returned while it is live, or a fresh one is recorded under the name. */
    method CreateVariable(name: string, live: set<object>) returns (v: Variable)
      requires Valid()
      modifies this
      ensures Valid()
      ensures v.name == name
      ensures predefinedConstants == old(predefinedConstants) && dynamicConstants == old(dynamicConstants)
      ensures name in old(variables) && old(variables)[name] in live ==>
                v == old(variables)[name] && variables == old(variables)
      ensures !(name in old(variables) && old(variables)[name] in live) ==>
                fresh(v) && variables == old(variables)[name := v]
    {
      if name in variables && variables[name] !in live {
        variables := variables - {name};
      }
      if name in variables && variables[name] in live {
        return variables[name];
      }
      v := new Variable(name);
      variables := variables[name := v];
    }
  }
}
