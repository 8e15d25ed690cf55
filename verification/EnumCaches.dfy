/**
 The enum values of a field definition in the Python dictionary, with two caches that are filled on
 the first lookup: one from names to values, one from values to names. Where a name or a value
 occurs twice, the last occurrence counts.
 */
module EnumCaches {
  import opened Wrappers

  datatype EnumValue = EnumValue(value: string, name: string)

  /** What the last value of that name is. */
  function ByName(values: seq<EnumValue>, name: string): Option<string> {
    if values == [] then None
    else
      var last := values[|values| - 1];
      if last.name == name then Some(last.value) else ByName(values[..|values| - 1], name)
  }

  /** What the last name of that value is. */
  function ByValue(values: seq<EnumValue>, value: string): Option<string> {
    if values == [] then None
    else
      var last := values[|values| - 1];
      if last.value == value then Some(last.name) else ByValue(values[..|values| - 1], value)
  }

  function Lookup(cache: map<string, string>, key: string): Option<string> {
    if key in cache then Some(cache[key]) else None
  }

  /** The cache answers every name as a scan of the values would. */
  ghost predicate FilledByName(cache: map<string, string>, values: seq<EnumValue>) {
    forall key :: Lookup(cache, key) == ByName(values, key)
  }

  ghost predicate FilledByValue(cache: map<string, string>, values: seq<EnumValue>) {
    forall key :: Lookup(cache, key) == ByValue(values, key)
  }

  lemma {:induction false} ByNameAppend(values: seq<EnumValue>, v: EnumValue, name: string)
    ensures ByName(values + [v], name) == if v.name == name then Some(v.value) else ByName(values, name)
    ensures ByValue(values + [v], name) == if v.value == name then Some(v.name) else ByValue(values, name)
  {
    assert (values + [v])[..|values|] == values;
  }

  lemma {:induction false} ByNameSome(values: seq<EnumValue>, name: string)
    ensures ByName(values, name).Some? <==> exists i :: 0 <= i < |values| && values[i].name == name
    ensures ByValue(values, name).Some? <==> exists i :: 0 <= i < |values| && values[i].value == name
  {
    if values == [] {
    } else {
      ByNameSome(values[..|values| - 1], name);
      assert forall i :: 0 <= i < |values| - 1 ==> values[..|values| - 1][i] == values[i];
    }
  }

  /** A name stands for the value of its last occurrence, and a value for the name of its last. */
  lemma {:induction false} LastOccurrence(values: seq<EnumValue>, k: nat)
    requires k < |values|
    ensures (forall j :: k < j < |values| ==> values[j].name != values[k].name) ==>
      ByName(values, values[k].name) == Some(values[k].value)
    ensures (forall j :: k < j < |values| ==> values[j].value != values[k].value) ==>
      ByValue(values, values[k].value) == Some(values[k].name)
  {
    var last := |values| - 1;
    if k < last {
      LastOccurrence(values[..last], k);
      assert forall j :: 0 <= j < last ==> values[..last][j] == values[j];
    }
  }

  /** The values that stay when one name, or one value, is taken out. */
  function Without(values: seq<EnumValue>, byName: bool, key: string): seq<EnumValue> {
    if values == [] then []
    else
      var rest, last := Without(values[..|values| - 1], byName, key), values[|values| - 1];
      if (if byName then last.name else last.value) == key then rest else rest + [last]
  }

  /** Taking a name out makes that name unknown and leaves all other names as they were. */
  lemma {:induction false} WithoutName(values: seq<EnumValue>, name: string, other: string)
    ensures ByName(Without(values, true, name), other) == if other == name then None else ByName(values, other)
  {
    if values == [] {
    } else {
      WithoutName(values[..|values| - 1], name, other);
      ByNameAppend(Without(values[..|values| - 1], true, name), values[|values| - 1], other);
    }
  }

  /** Taking a value out makes that value unknown and leaves all other values as they were. */
  lemma {:induction false} WithoutValue(values: seq<EnumValue>, value: string, other: string)
    ensures ByValue(Without(values, false, value), other) == if other == value then None else ByValue(values, other)
  {
    if values == [] {
    } else {
      WithoutValue(values[..|values| - 1], value, other);
      ByNameAppend(Without(values[..|values| - 1], false, value), values[|values| - 1], other);
    }
  }

  /** What stays is every pair with another name, or with another value. */
  lemma {:induction false} WithoutKeeps(values: seq<EnumValue>, byName: bool, key: string, v: EnumValue)
    ensures v in Without(values, byName, key) <==>
      v in values && (if byName then v.name != key else v.value != key)
    decreases |values|
  {
    if values != [] {
      var init, last := values[..|values| - 1], values[|values| - 1];
      WithoutKeeps(init, byName, key, v);
      assert values == init + [last];
      assert v in values <==> v in init || v == last;
    }
  }

  datatype Outcome = Done | TypeError | KeyError | ValueError

  /** The truth value of an optional string argument. */
  predicate Given(s: Option<string>) {
    s.Some? && s.value != ""
  }

  /** What del_enum_value does, from the values and the answer that the name cache gives without being filled. */
  function Deletion(values: seq<EnumValue>, cached: Option<string>, name: Option<string>,
                    value: Option<string>): Outcome {
    if name.None? && value.None? then TypeError
    else if Given(name) && Given(value) && cached.None? then KeyError
    else if Given(name) && Given(value) && cached != value then ValueError
    else if Given(name) then if ByName(values, name.value).Some? then Done else KeyError
    else if value.Some? && ByValue(values, value.value).Some? then Done
    else KeyError
  }

  function ValuesAfter(values: seq<EnumValue>, outcome: Outcome, name: Option<string>,
                       value: Option<string>): seq<EnumValue> {
    if outcome != Done then values
    else if Given(name) then Without(values, true, name.value)
    else if value.Some? then Without(values, false, value.value)
    else values
  }

  class FixTag {
    var values: seq<EnumValue>
    var valByName: map<string, string>
    var valByVal: map<string, string>

    constructor (values: seq<EnumValue>)
      ensures this.values == values && Valid()
    {
      this.values, valByName, valByVal := values, map[], map[];
    }

    /** Each cache is empty, or answers as a scan would. */
    ghost predicate Valid()
      reads this
    {
      && (valByName == map[] || FilledByName(valByName, values))
      && (valByVal == map[] || FilledByValue(valByVal, values))
    }

    /** enum_by_name; absent for a KeyError. */
    method EnumByName(name: string) returns (value: Option<string>)
      requires Valid()
      modifies this`valByName
      ensures Valid()
      ensures value == ByName(values, name)
    {
      if valByName == map[] {
        FillByName();
      }
      return Lookup(valByName, name);
    }

    method FillByName()
      requires valByName == map[]
      modifies this`valByName
      ensures FilledByName(valByName, values)
    {
      for i := 0 to |values|
        invariant FilledByName(valByName, values[..i])
      {
        forall key ensures ByName(values[..i + 1], key) ==
          if values[i].name == key then Some(values[i].value) else ByName(values[..i], key)
        {
          assert values[..i + 1] == values[..i] + [values[i]];
          ByNameAppend(values[..i], values[i], key);
        }
        valByName := valByName[values[i].name := values[i].value];
      }
      assert values[..|values|] == values;
    }

    /** enum_by_value; absent for a KeyError. */
    method EnumByValue(value: string) returns (name: Option<string>)
      requires Valid()
      modifies this`valByVal
      ensures Valid()
      ensures name == ByValue(values, value)
    {
      if valByVal == map[] {
        FillByValue();
      }
      return Lookup(valByVal, value);
    }

    method FillByValue()
      requires valByVal == map[]
      modifies this`valByVal
      ensures FilledByValue(valByVal, values)
    {
      for i := 0 to |values|
        invariant FilledByValue(valByVal, values[..i])
      {
        forall key ensures ByValue(values[..i + 1], key) ==
          if values[i].value == key then Some(values[i].name) else ByValue(values[..i], key)
        {
          assert values[..i + 1] == values[..i] + [values[i]];
          ByNameAppend(values[..i], values[i], key);
        }
        valByVal := valByVal[values[i].value := values[i].name];
      }
      assert values[..|values|] == values;
    }

    /**
     add_enum_value: a known name is refused; otherwise the pair goes to the end, and into the caches
     that are filled.
     */
    method AddEnumValue(name: string, value: string) returns (outcome: Outcome)
      requires Valid()
      modifies this
      ensures Valid()
      ensures outcome == if ByName(old(values), name).Some? then KeyError else Done
      ensures values == if outcome == Done then old(values) + [EnumValue(value, name)] else old(values)
    {
      ByNameSome(values, name);
      if exists i :: 0 <= i < |values| && values[i].name == name {
        return KeyError;
      }
      forall key
        ensures ByName(values + [EnumValue(value, name)], key) ==
          if name == key then Some(value) else ByName(values, key)
        ensures ByValue(values + [EnumValue(value, name)], key) ==
          if value == key then Some(name) else ByValue(values, key)
      {
        ByNameAppend(values, EnumValue(value, name), key);
      }
      values := values + [EnumValue(value, name)];
      if valByName != map[] {
        valByName := valByName[name := value];
      }
      if valByVal != map[] {
        valByVal := valByVal[value := name];
      }
      return Done;
    }

    /**
     del_enum_value: deletes every pair of that name or value and empties both caches, or fails and
     changes nothing.
     */
    method DelEnumValue(name: Option<string>, value: Option<string>) returns (outcome: Outcome)
      requires Valid()
      modifies this
      ensures Valid()
      ensures var cached := if Given(name) then Lookup(old(valByName), name.value) else None;
        outcome == Deletion(old(values), cached, name, value)
      ensures values == ValuesAfter(old(values), outcome, name, value)
    {
      if name.None? && value.None? {
        return TypeError;
      }
      if Given(name) && Given(value) {
        if name.value !in valByName {
          return KeyError;
        }
        if valByName[name.value] != value.value {
          return ValueError;
        }
      }
      if Given(name) {
        ByNameSome(values, name.value);
        if !exists i :: 0 <= i < |values| && values[i].name == name.value {
          return KeyError;
        }
        values := Without(values, true, name.value);
      } else {
        if value.None? {
          return KeyError;
        }
        ByNameSome(values, value.value);
        if !exists i :: 0 <= i < |values| && values[i].value == value.value {
          return KeyError;
        }
        values := Without(values, false, value.value);
      }
      valByName, valByVal := map[], map[];
      return Done;
    }
  }

  /** What deletion by name and value should answer: both must be known, and belong together. */
  function Wanted(values: seq<EnumValue>, name: string, value: string): Outcome {
    match ByName(values, name)
    case None => KeyError
    case Some(known) => if known == value then Done else ValueError
  }

  /**
   Deletion by name and value answers from the values exactly when the name cache is filled, or the
   name is unknown.
   */
  lemma {:induction false} DeletionIff(values: seq<EnumValue>, cache: map<string, string>, name: string, value: string)
    requires cache == map[] || FilledByName(cache, values)
    requires name != "" && value != ""
    ensures Deletion(values, Lookup(cache, name), Some(name), Some(value)) == Wanted(values, name, value) <==>
      cache != map[] || ByName(values, name).None?
  {
  }

  /** A definition that was never looked up refuses to delete the pair it holds. */
  lemma {:induction false} DeletionExample()
    ensures var values := [EnumValue("1", "BUY")];
      && Wanted(values, "BUY", "1") == Done
      && Deletion(values, Lookup(map[], "BUY"), Some("BUY"), Some("1")) == KeyError
      && Deletion(values, Lookup(map["BUY" := "1"], "BUY"), Some("BUY"), Some("1")) == Done
  {
  }
}
