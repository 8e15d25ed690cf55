/** ValidateMessage: mandatory tags, then required tags, data types and enums at every nesting level. */
module Validator {
  import opened Wrappers
  import opened ByteStrings
  import opened Collections
  import opened Tags
  import opened Fragments
  import opened Specs

  /** The library parsers the type checks rely on: strconv.ParseFloat, and time.Parse with a layout. */
  datatype Library = Library(parsesFloat: bytes -> bool, parsesTime: (string, bytes) -> bool)

  /** validateDataType */
  predicate DataTypeOk(lib: Library, fieldType: string, value: bytes) {
    if fieldType in ["INT", "LENGTH", "NUMINGROUP", "SEQNUM"] then Atoi(value).Some?
    else if fieldType in ["FLOAT", "QTY", "PRICE", "PRICEOFFSET", "AMT", "PERCENTAGE"] then lib.parsesFloat(value)
    else if fieldType == "UTCTIMESTAMP" then |value| >= 17 && lib.parsesTime(TimestampLayout(value), value)
    else if fieldType == "UTCDATEONLY" then lib.parsesTime("20060102", value)
    else if fieldType == "UTCTIMEONLY" then lib.parsesTime(if |value| == 12 then "15:04:05.000" else "15:04:05", value)
    else if fieldType == "BOOLEAN" then value == [89] || value == [78]
    else true
  }

  function TimestampLayout(value: bytes): string {
    if |value| == 21 then "20060102-15:04:05.000"
    else if |value| == 24 then "20060102-15:04:05.000000"
    else "20060102-15:04:05"
  }

  /** A string field against its definition; a tag without one passes. */
  predicate TextOk(lib: Library, s: FixSpec, tag: int, text: bytes) {
    tag in s.tagDefs ==>
      && DataTypeOk(lib, s.tagDefs[tag].fieldType, text)
      && (s.tagDefs[tag].values != {} ==> text in s.tagDefs[tag].values)
  }

  // ---- validity ----

  /** What a message type or a group asks of the fields on its level. */
  datatype Scope = Scope(requiredTags: set<int>, groups: map<int, GroupSpec>)

  function ScopeOf(spec: GroupSpec): Scope {
    Scope(spec.requiredTags, spec.nestedGroups)
  }

  /** The fields of one level, leaving out what is inside its groups. */
  ghost predicate LevelOk(lib: Library, s: FixSpec, f: Fragment, scope: Scope) {
    && (forall t :: t in scope.requiredTags ==> t in f.fields)
    && (forall t :: t in f.fields && f.fields[t].Text? ==> TextOk(lib, s, t, f.fields[t].text))
  }

  /** A level and, through the groups that the specification knows, every level below it. */
  ghost predicate Conforms(lib: Library, s: FixSpec, f: Fragment, scope: Scope)
    decreases f, 2
  {
    && (forall t :: t in scope.requiredTags ==> t in f.fields)
    && (forall t :: t in f.fields ==> FieldConforms(lib, s, f, scope, t))
  }

  ghost predicate FieldConforms(lib: Library, s: FixSpec, f: Fragment, scope: Scope, tag: int)
    requires tag in f.fields
    decreases f, 1
  {
    match f.fields[tag]
    case Text(text) => TextOk(lib, s, tag, text)
    case Group(_, _, members) =>
      tag in scope.groups ==>
        forall i :: 0 <= i < |members| ==> Conforms(lib, s, members[i], ScopeOf(scope.groups[tag]))
  }

  const MANDATORY: seq<int> :=
    [BEGIN_STRING, BODY_LENGTH, MSG_TYPE, SENDER_COMP_ID, TARGET_COMP_ID, MSG_SEQ_NUM, SENDING_TIME, CHECK_SUM]

  /** The declarative reading of ValidateMessage. */
  ghost predicate IsValid(lib: Library, m: Fragment, s: Option<FixSpec>) {
    && (forall i :: 0 <= i < |MANDATORY| ==> m.Contains(MANDATORY[i]))
    && (s.Some? ==>
      var msgType := m.GetOrEmpty(MSG_TYPE);
      && msgType in s.value.messagesByType
      && var spec := s.value.messagesByType[msgType];
         Conforms(lib, s.value, m, Scope(spec.requiredTags, spec.groups)))
  }

  // ---- the checks ----

  /** The loop over the required tags, in any order. */
  method HasAll(f: Fragment, tags: set<int>) returns (ok: bool)
    ensures ok == forall t :: t in tags ==> t in f.fields
  {
    var left := tags;
    while left != {}
      invariant left <= tags
      invariant forall t :: t in tags && t !in left ==> t in f.fields
      decreases left
    {
      var t := AnyElement(left);
      if !f.Contains(t) {
        return false;
      }
      left := left - {t};
    }
    return true;
  }

  method CheckText(lib: Library, s: FixSpec, tag: int, text: bytes) returns (ok: bool)
    ensures ok == TextOk(lib, s, tag, text)
  {
    if tag !in s.tagDefs {
      return true;
    }
    if !DataTypeOk(lib, s.tagDefs[tag].fieldType, text) {
      return false;
    }
    if s.tagDefs[tag].values != {} {
      return text in s.tagDefs[tag].values;
    }
    return true;
  }

  /** One message or member: the required tags, then every field, both in any order; stops at the first fault. */
  method CheckLevel(lib: Library, s: FixSpec, f: Fragment, scope: Scope) returns (ok: bool)
    ensures ok == Conforms(lib, s, f, scope)
    decreases f, 2
  {
    ok := HasAll(f, scope.requiredTags);
    if !ok {
      return;
    }
    var left := f.fields.Keys;
    while left != {}
      invariant left <= f.fields.Keys
      invariant forall t :: t in f.fields && t !in left ==> FieldConforms(lib, s, f, scope, t)
      decreases left
    {
      var t := AnyElement(left);
      ok := CheckField(lib, s, f, scope, t);
      if !ok {
        return;
      }
      left := left - {t};
    }
    return true;
  }

  method CheckField(lib: Library, s: FixSpec, f: Fragment, scope: Scope, tag: int) returns (ok: bool)
    requires tag in f.fields
    ensures ok == FieldConforms(lib, s, f, scope, tag)
    decreases f, 1
  {
    match f.fields[tag] {
      case Text(text) =>
        ok := CheckText(lib, s, tag, text);
      case Group(_, _, members) =>
        ok := ValidateRepeatingGroup(lib, s, members, if tag in scope.groups then Some(scope.groups[tag]) else None);
    }
  }

  /** validateRepeatingGroup; a group without a specification passes. */
  method ValidateRepeatingGroup(lib: Library, s: FixSpec, members: seq<Fragment>,
                                spec: Option<GroupSpec>) returns (ok: bool)
    ensures ok == (spec.Some? ==> forall i :: 0 <= i < |members| ==> Conforms(lib, s, members[i], ScopeOf(spec.value)))
    decreases members, 0
  {
    if spec.None? {
      return true;
    }
    for i := 0 to |members|
      invariant forall k :: 0 <= k < i ==> Conforms(lib, s, members[k], ScopeOf(spec.value))
    {
      ok := CheckLevel(lib, s, members[i], ScopeOf(spec.value));
      if !ok {
        return;
      }
    }
    return true;
  }

  /** ValidateMessage returns nil exactly on valid messages, whatever order the maps are ranged over in. */
  method ValidateMessage(lib: Library, m: Fragment, s: Option<FixSpec>) returns (ok: bool)
    ensures ok == IsValid(lib, m, s)
  {
    for i := 0 to |MANDATORY|
      invariant forall k :: 0 <= k < i ==> m.Contains(MANDATORY[k])
    {
      if !m.Contains(MANDATORY[i]) {
        return false;
      }
    }
    if s.None? {
      return true;
    }
    var msgType := m.GetOrEmpty(MSG_TYPE);
    if msgType !in s.value.messagesByType {
      return false;
    }
    var spec := s.value.messagesByType[msgType];
    ok := CheckLevel(lib, s.value, m, Scope(spec.requiredTags, spec.groups));
  }

  /**
   BeginString, BodyLength, MsgType, both CompIDs, MsgSeqNum, SendingTime and CheckSum are always needed;
   without a specification nothing else is.
   */
  lemma {:induction false} NeedsTheHeader(lib: Library, m: Fragment, s: Option<FixSpec>)
    ensures IsValid(lib, m, s) ==> {8, 9, 35, 49, 56, 34, 52, 10} <= m.fields.Keys
    ensures s.None? && {8, 9, 35, 49, 56, 34, 52, 10} <= m.fields.Keys ==> IsValid(lib, m, s)
  {
    assert MANDATORY == [8, 9, 35, 49, 56, 34, 52, 10];
    if IsValid(lib, m, s) {
      assert forall i :: 0 <= i < 8 ==> m.Contains(MANDATORY[i]);
      assert m.Contains(MANDATORY[0]) && m.Contains(MANDATORY[1]) && m.Contains(MANDATORY[2]);
      assert m.Contains(MANDATORY[3]) && m.Contains(MANDATORY[4]) && m.Contains(MANDATORY[5]);
      assert m.Contains(MANDATORY[6]) && m.Contains(MANDATORY[7]);
    }
  }

  ghost predicate FieldOk(lib: Library, s: FixSpec, m: Fragment, tag: int) {
    tag in m.fields && m.fields[tag].Text? && tag in s.tagDefs ==>
      && DataTypeOk(lib, s.tagDefs[tag].fieldType, m.fields[tag].text)
      && (s.tagDefs[tag].values == {} || m.fields[tag].text in s.tagDefs[tag].values)
  }

  /** With a specification, a message without groups needs a known type, its required tags, and proper values. */
  lemma {:induction false} FlatValidIff(lib: Library, m: Fragment, s: FixSpec)
    requires forall t :: t in m.fields ==> m.fields[t].Text?
    requires {8, 9, 35, 49, 56, 34, 52, 10} <= m.fields.Keys
    ensures IsValid(lib, m, Some(s)) <==>
      && m.fields[35].text in s.messagesByType
      && s.messagesByType[m.fields[35].text].requiredTags <= m.fields.Keys
      && forall t :: FieldOk(lib, s, m, t)
  {
    NeedsTheHeader(lib, m, None);
    assert m.GetOrEmpty(MSG_TYPE) == m.fields[35].text;
    if m.fields[35].text in s.messagesByType {
      var spec := s.messagesByType[m.fields[35].text];
      var scope := Scope(spec.requiredTags, spec.groups);
      forall t | t in m.fields ensures FieldConforms(lib, s, m, scope, t) <==> FieldOk(lib, s, m, t) {}
      if Conforms(lib, s, m, scope) {
        assert forall t :: t in scope.requiredTags ==> t in m.fields.Keys;
        forall t ensures FieldOk(lib, s, m, t) {
          if t in m.fields {
            assert FieldConforms(lib, s, m, scope, t);
          }
        }
      }
    }
  }

  // ---- data types ----

  /** A whole number with or without a sign is accepted as INT, LENGTH, NUMINGROUP and SEQNUM if it fits 64 bits. */
  lemma {:induction false} WholeNumbers(lib: Library, name: string, n: int, junk: bytes)
    requires name in {"INT", "LENGTH", "NUMINGROUP", "SEQNUM"} && MIN_INT64 <= n <= MAX_INT64
    requires exists i :: 0 <= i < |junk| && !IsDigit(junk[i]) && !IsSign(junk[i])
    ensures DataTypeOk(lib, name, Itoa(n)) && !DataTypeOk(lib, name, []) && !DataTypeOk(lib, name, junk)
  {
    AtoiItoa(n);
    var i :| 0 <= i < |junk| && !IsDigit(junk[i]) && !IsSign(junk[i]);
    if IsSign(junk[0]) {
      assert junk[1..][i - 1] == junk[i];
    }
  }

  /** Six types are floating-point numbers, a Boolean is Y or N, and of any other name every text is accepted. */
  lemma {:induction false} OtherTypes(lib: Library, name: string, value: bytes)
    ensures name in {"FLOAT", "QTY", "PRICE", "PRICEOFFSET", "AMT", "PERCENTAGE"} ==>
      (DataTypeOk(lib, name, value) <==> lib.parsesFloat(value))
    ensures name == "BOOLEAN" ==> (DataTypeOk(lib, name, value) <==> value in {[89], [78]})
    ensures name in {"STRING", "CHAR", "CURRENCY", "DATA", ""} ==> DataTypeOk(lib, name, value)
  {
  }

  /** A date or a time is what the library parser accepts under the layout of its length. */
  lemma {:induction false} TimeTypes(lib: Library, value: bytes)
    ensures DataTypeOk(lib, "UTCDATEONLY", value) <==> lib.parsesTime("20060102", value)
    ensures var ok := DataTypeOk(lib, "UTCTIMESTAMP", value);
      if |value| < 17 then !ok
      else if |value| == 21 then ok <==> lib.parsesTime("20060102-15:04:05.000", value)
      else if |value| == 24 then ok <==> lib.parsesTime("20060102-15:04:05.000000", value)
      else ok <==> lib.parsesTime("20060102-15:04:05", value)
    ensures |value| == 8 ==> (DataTypeOk(lib, "UTCTIMEONLY", value) <==> lib.parsesTime("15:04:05", value))
    ensures |value| == 12 ==> (DataTypeOk(lib, "UTCTIMEONLY", value) <==> lib.parsesTime("15:04:05.000", value))
  {
  }

  // ---- validity, place by place ----

  /** Where a path of count tags and member indices leads, in the message and in its specification at once. */
  function Reach(f: Fragment, scope: Scope, path: seq<int>): Option<(Fragment, Scope)>
    decreases |path|
  {
    if path == [] then Some((f, scope))
    else if |path| >= 2 && path[0] in f.fields && f.fields[path[0]].Group? && path[0] in scope.groups
            && 0 <= path[1] < |f.fields[path[0]].members|
      then Reach(f.fields[path[0]].members[path[1]], ScopeOf(scope.groups[path[0]]), path[2..])
    else None
  }

  ghost predicate LevelAt(lib: Library, s: FixSpec, f: Fragment, scope: Scope, path: seq<int>) {
    var place := Reach(f, scope, path);
    place.Some? ==> LevelOk(lib, s, place.value.0, place.value.1)
  }

  lemma {:induction false} ReachBelow(f: Fragment, scope: Scope, n: int, i: int, path: seq<int>)
    requires n in f.fields && f.fields[n].Group? && n in scope.groups && 0 <= i < |f.fields[n].members|
    ensures Reach(f, scope, [n, i] + path) == Reach(f.fields[n].members[i], ScopeOf(scope.groups[n]), path)
  {
    assert ([n, i] + path)[2..] == path;
  }

  lemma {:induction false} ConformsAt(lib: Library, s: FixSpec, f: Fragment, scope: Scope, path: seq<int>)
    requires Conforms(lib, s, f, scope)
    ensures LevelAt(lib, s, f, scope, path)
    decreases |path|
  {
    if path == [] {
      assert forall t :: t in f.fields && f.fields[t].Text? ==> FieldConforms(lib, s, f, scope, t);
    } else if Reach(f, scope, path).Some? {
      assert FieldConforms(lib, s, f, scope, path[0]);
      ConformsAt(lib, s, f.fields[path[0]].members[path[1]], ScopeOf(scope.groups[path[0]]), path[2..]);
    }
  }

  /**
   A message conforms exactly when every level that can be reached along groups known to the
   specification is in order.
   */
  lemma {:induction false} ConformsIffEveryLevel(lib: Library, s: FixSpec, f: Fragment, scope: Scope)
    ensures Conforms(lib, s, f, scope) <==> forall path :: LevelAt(lib, s, f, scope, path)
    decreases f
  {
    if Conforms(lib, s, f, scope) {
      forall path ensures LevelAt(lib, s, f, scope, path) {
        ConformsAt(lib, s, f, scope, path);
      }
    }
    if forall path :: LevelAt(lib, s, f, scope, path) {
      assert LevelAt(lib, s, f, scope, []);
      forall t | t in f.fields ensures FieldConforms(lib, s, f, scope, t) {
        if f.fields[t].Group? && t in scope.groups {
          forall i | 0 <= i < |f.fields[t].members|
            ensures Conforms(lib, s, f.fields[t].members[i], ScopeOf(scope.groups[t]))
          {
            var member, inner := f.fields[t].members[i], ScopeOf(scope.groups[t]);
            forall path ensures LevelAt(lib, s, member, inner, path) {
              ReachBelow(f, scope, t, i, path);
              assert LevelAt(lib, s, f, scope, [t, i] + path);
            }
            ConformsIffEveryLevel(lib, s, member, inner);
          }
        }
      }
    }
  }
}
