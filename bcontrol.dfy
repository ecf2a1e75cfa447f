/**
  BControl: boolean votes in four key-spaces (numeric, text, component,
  object), reduced to one boolean. `avoidTrue` is both the value an unset
  key reads as and the vote that "does not count"; a single vote that
  differs from it flips the result.
*/
module BoolControls {
  import opened Primitives
  import opened Dictionaries

  /** Some entry of `d` votes differently from `avoidTrue`. */
  ghost predicate Differs<K>(d: Dict<K, bool>, avoidTrue: bool) {
    exists k :: k in d.vals && d.vals[k] != avoidTrue
  }

  /**
    One `foreach` of the conversion to bool: true as soon as an entry
    votes differently from `avoidTrue`.
  */
  method AnyDiffers<K>(d: Dict<K, bool>, avoidTrue: bool) returns (found: bool)
    requires d.Valid()
    ensures found <==> Differs(d, avoidTrue)
  {
    var i := 0;
    while i < |d.keys|
      invariant 0 <= i <= |d.keys|
      invariant forall j :: 0 <= j < i ==> d.vals[d.keys[j]] == avoidTrue
    {
      if d.vals[d.keys[i]] != avoidTrue {
        return true;
      }
      i := i + 1;
    }
    forall k | k in d.vals ensures d.vals[k] == avoidTrue {
      var j :| 0 <= j < |d.keys| && d.keys[j] == k;
    }
    return false;
  }

  class BControl {
    var avoidTrue: bool
    var intControls: Dict<Int32, bool>
    var useStringControls: bool
    var stringControls: Dict<string, bool>
    var useComponentControls: bool
    var componentControls: Dict<Component, bool>
    var useNullableControls: bool
    var objectControls: Dict<ObjectKey, bool>

    /** How many times `OnBoolAssigned` has been raised. */
    ghost var assignedEvents: nat

    ghost predicate Valid()
      reads this
    {
      intControls.Valid() && stringControls.Valid() &&
      componentControls.Valid() && objectControls.Valid()
    }

    /**
      The votes the conversion to bool consults: every numeric entry, and
      the text and component entries once those key-spaces are in use.
      Object entries are never consulted.
    */
    ghost predicate Overridden()
      reads this
    {
      Differs(intControls, avoidTrue) ||
      (useStringControls && Differs(stringControls, avoidTrue)) ||
      (useComponentControls && Differs(componentControls, avoidTrue))
    }

    /** `new BControl()`: nothing stored, polarity false, no lazy key-space in use. */
    constructor ()
      ensures Valid() && !avoidTrue && assignedEvents == 0
      ensures intControls == Empty() && stringControls == Empty()
      ensures componentControls == Empty() && objectControls == Empty()
      ensures !useStringControls && !useComponentControls && !useNullableControls
      ensures !Overridden()
    {
      avoidTrue := false;
      intControls := Empty();
      useStringControls := false;
      stringControls := Empty();
      useComponentControls := false;
      componentControls := Empty();
      useNullableControls := false;
      objectControls := Empty();
      assignedEvents := 0;
    }

    /**
      The conversion from bool: one numeric vote `b` at key 0, and `b` as
      the polarity, so that the control converts back to `b`.
    */
    constructor FromBool(b: bool)
      ensures Valid() && avoidTrue == b && assignedEvents == 0
      ensures intControls.vals == map[0 := b] && intControls.keys == [0]
      ensures stringControls == Empty() && componentControls == Empty() && objectControls == Empty()
      ensures !useStringControls && !useComponentControls && !useNullableControls
      ensures !Overridden()
    {
      avoidTrue := b;
      intControls := Empty<Int32, bool>().Put(0, b);
      useStringControls := false;
      stringControls := Empty();
      useComponentControls := false;
      componentControls := Empty();
      useNullableControls := false;
      objectControls := Empty();
      assignedEvents := 0;
    }

    function GetInt(key: Int32): (v: bool)
      reads this
      ensures key in intControls.vals ==> v == intControls.vals[key]
      ensures v != avoidTrue ==> key in intControls.vals
    {
      if key in intControls.vals then intControls.vals[key] else avoidTrue
    }

    function GetString(key: string): (v: bool)
      reads this
      ensures useStringControls && key in stringControls.vals ==> v == stringControls.vals[key]
      ensures v != avoidTrue ==> useStringControls && key in stringControls.vals
    {
      if !useStringControls || key !in stringControls.vals then avoidTrue else stringControls.vals[key]
    }

    function GetComponent(key: Component): (v: bool)
      reads this
      ensures useComponentControls && key in componentControls.vals ==> v == componentControls.vals[key]
      ensures v != avoidTrue ==> useComponentControls && key in componentControls.vals
    {
      if !useComponentControls || key !in componentControls.vals then avoidTrue else componentControls.vals[key]
    }

    function GetObject(key: ObjectKey): (v: bool)
      reads this
      ensures useNullableControls && key in objectControls.vals ==> v == objectControls.vals[key]
      ensures v != avoidTrue ==> useNullableControls && key in objectControls.vals
    {
      if !useNullableControls || key !in objectControls.vals then avoidTrue else objectControls.vals[key]
    }

    method SetInt(key: Int32, value: bool)
      requires Valid()
      modifies this
      ensures Valid()
      ensures intControls == old(intControls).Put(key, value)
      ensures GetInt(key) == value
      ensures forall k :: k != key ==> GetInt(k) == old(GetInt(k))
      ensures avoidTrue == old(avoidTrue)
      ensures useStringControls == old(useStringControls) && stringControls == old(stringControls)
      ensures useComponentControls == old(useComponentControls) && componentControls == old(componentControls)
      ensures useNullableControls == old(useNullableControls) && objectControls == old(objectControls)
      ensures assignedEvents == old(assignedEvents) + 1
    {
      intControls := intControls.Put(key, value);
      assignedEvents := assignedEvents + 1;
    }

    /** The first write discards whatever the text dictionary held and puts the key-space in use. */
    method SetString(key: string, value: bool)
      requires Valid()
      modifies this
      ensures Valid()
      ensures useStringControls
      ensures stringControls == (if old(useStringControls) then old(stringControls) else Empty()).Put(key, value)
      ensures GetString(key) == value
      ensures forall k :: k != key ==> GetString(k) == old(GetString(k))
      ensures avoidTrue == old(avoidTrue) && intControls == old(intControls)
      ensures useComponentControls == old(useComponentControls) && componentControls == old(componentControls)
      ensures useNullableControls == old(useNullableControls) && objectControls == old(objectControls)
      ensures assignedEvents == old(assignedEvents) + 1
    {
      if !useStringControls {
        stringControls := Empty<string, bool>().Put(key, value);
        useStringControls := true;
      } else {
        stringControls := stringControls.Put(key, value);
      }
      assignedEvents := assignedEvents + 1;
    }

    /** The first write discards whatever the component dictionary held and puts the key-space in use. */
    method SetComponent(key: Component, value: bool)
      requires Valid()
      modifies this
      ensures Valid()
      ensures useComponentControls
      ensures componentControls == (if old(useComponentControls) then old(componentControls) else Empty()).Put(key, value)
      ensures GetComponent(key) == value
      ensures forall k :: k != key ==> GetComponent(k) == old(GetComponent(k))
      ensures avoidTrue == old(avoidTrue) && intControls == old(intControls)
      ensures useStringControls == old(useStringControls) && stringControls == old(stringControls)
      ensures useNullableControls == old(useNullableControls) && objectControls == old(objectControls)
      ensures assignedEvents == old(assignedEvents) + 1
    {
      if !useComponentControls {
        componentControls := Empty<Component, bool>().Put(key, value);
        useComponentControls := true;
      } else {
        componentControls := componentControls.Put(key, value);
      }
      assignedEvents := assignedEvents + 1;
    }

    /**
      The first write discards whatever the object dictionary held and puts
      the key-space in use. Unlike the other three setters, this one raises
      no `OnBoolAssigned`.
    */
    method SetObject(key: ObjectKey, value: bool)
      requires Valid()
      modifies this
      ensures Valid()
      ensures useNullableControls
      ensures objectControls == (if old(useNullableControls) then old(objectControls) else Empty()).Put(key, value)
      ensures GetObject(key) == value
      ensures forall k :: k != key ==> GetObject(k) == old(GetObject(k))
      ensures avoidTrue == old(avoidTrue) && intControls == old(intControls)
      ensures useStringControls == old(useStringControls) && stringControls == old(stringControls)
      ensures useComponentControls == old(useComponentControls) && componentControls == old(componentControls)
      ensures Overridden() == old(Overridden())
      ensures assignedEvents == old(assignedEvents)
    {
      if !useNullableControls {
        objectControls := Empty<ObjectKey, bool>().Put(key, value);
        useNullableControls := true;
      } else {
        objectControls := objectControls.Put(key, value);
      }
    }

    /**
      The conversion to bool: `!avoidTrue` as soon as a consulted vote
      differs from `avoidTrue`, `avoidTrue` when none does.
    */
    method ToBool() returns (r: bool)
      requires Valid()
      ensures r != avoidTrue <==> Overridden()
    {
      var found := AnyDiffers(intControls, avoidTrue);
      if found {
        return !avoidTrue;
      }
      if useStringControls {
        found := AnyDiffers(stringControls, avoidTrue);
        if found {
          return !avoidTrue;
        }
      }
      if useComponentControls {
        found := AnyDiffers(componentControls, avoidTrue);
        if found {
          return !avoidTrue;
        }
      }
      return avoidTrue;
    }
  }
}
