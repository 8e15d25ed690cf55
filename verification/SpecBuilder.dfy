/** Building a dictionary: collecting the fields and groups of a message through component references. */
module SpecBuilder {
  import opened Collections
  import opened Specs
  import opened Wrappers

  // ---- the XML, as far as it is read ----

  datatype FieldRef = FieldRef(name: string, required: bool)

  datatype XmlGroup = XmlGroup(name: string, required: bool, body: Body)

  /** What a message, a component and a group have in common. */
  datatype Body = Body(fields: seq<FieldRef>, groups: seq<XmlGroup>, components: seq<string>)

  /** The field numbers and the components by name. */
  datatype Names = Names(numbers: map<string, int>, components: map<string, Body>)

  predicate FieldIs(names: Names, f: FieldRef, t: int) {
    f.name in names.numbers && names.numbers[f.name] == t
  }

  predicate GroupIs(names: Names, g: XmlGroup, t: int) {
    g.name in names.numbers && names.numbers[g.name] == t
  }

  // ---- what is reachable ----

  /** The body a path of component references leads to; references to unknown components lead nowhere. */
  predicate Leads(names: Names, body: Body, path: seq<string>, target: Body)
    decreases |path|
  {
    if path == [] then body == target
    else
      && path[0] in body.components && path[0] in names.components
      && Leads(names, names.components[path[0]], path[1..], target)
  }

  /** The three collections that are filled: all tags, required tags, and group count tags. */
  datatype Kind = AnyTag | RequiredTag | GroupTag

  predicate FieldListed(names: Names, kind: Kind, f: FieldRef, t: int) {
    FieldIs(names, f, t) && kind != GroupTag && (kind == RequiredTag ==> f.required)
  }

  predicate GroupListed(names: Names, kind: Kind, g: XmlGroup, t: int) {
    GroupIs(names, g, t) && (kind == RequiredTag ==> g.required)
  }

  /** The body itself lists the tag, among its first fields and groups. */
  predicate ListedAmong(names: Names, kind: Kind, body: Body, t: int, fields: nat, groups: nat)
    requires fields <= |body.fields| && groups <= |body.groups|
  {
    || (exists i :: 0 <= i < fields && FieldListed(names, kind, body.fields[i], t))
    || (exists i :: 0 <= i < groups && GroupListed(names, kind, body.groups[i], t))
  }

  predicate Listed(names: Names, kind: Kind, body: Body, t: int) {
    ListedAmong(names, kind, body, t, |body.fields|, |body.groups|)
  }

  /** Some body reachable through component references lists the tag. */
  ghost predicate Reaches(names: Names, kind: Kind, body: Body, t: int) {
    exists path, target :: Leads(names, body, path, target) && Listed(names, kind, target, t)
  }

  ghost predicate ReachesThrough(names: Names, kind: Kind, body: Body, t: int, count: nat)
    requires count <= |body.components|
  {
    exists i :: 0 <= i < count && body.components[i] in names.components &&
      Reaches(names, kind, names.components[body.components[i]], t)
  }

  lemma {:induction false} ReachesIff(names: Names, kind: Kind, body: Body, t: int)
    ensures Reaches(names, kind, body, t) <==>
      Listed(names, kind, body, t) || ReachesThrough(names, kind, body, t, |body.components|)
  {
    if Reaches(names, kind, body, t) {
      var path, target :| Leads(names, body, path, target) && Listed(names, kind, target, t);
      if path != [] {
        var i :| 0 <= i < |body.components| && body.components[i] == path[0];
        assert Leads(names, names.components[body.components[i]], path[1..], target);
      }
    }
    if Listed(names, kind, body, t) {
      assert Leads(names, body, [], body);
    }
    if ReachesThrough(names, kind, body, t, |body.components|) {
      var i :| 0 <= i < |body.components| && body.components[i] in names.components
               && Reaches(names, kind, names.components[body.components[i]], t);
      var path, target :| Leads(names, names.components[body.components[i]], path, target) &&
        Listed(names, kind, target, t);
      LeadsOn(names, body, i, path, target);
    }
  }

  lemma {:induction false} LeadsOn(names: Names, body: Body, i: nat, path: seq<string>, target: Body)
    requires i < |body.components| && body.components[i] in names.components
    requires Leads(names, names.components[body.components[i]], path, target)
    ensures Leads(names, body, [body.components[i]] + path, target)
  {
    FirstAndRest(body.components[i], path);
  }

  // ---- acyclic references ----

  /** Every component the body refers to, from inside its groups with a known name as well, has a rank below r. */
  ghost predicate Ranked(names: Names, ranks: map<string, nat>, body: Body, r: nat)
    decreases body
  {
    && (forall i :: 0 <= i < |body.components| && body.components[i] in names.components ==>
          body.components[i] in ranks && ranks[body.components[i]] < r)
    && (forall i :: 0 <= i < |body.groups| && body.groups[i].name in names.numbers ==>
          Ranked(names, ranks, body.groups[i].body, r))
  }

  /** References go from a component to components of lower rank only. */
  ghost predicate Acyclic(names: Names, ranks: map<string, nat>) {
    forall c :: c in names.components && c in ranks ==> Ranked(names, ranks, names.components[c], ranks[c])
  }

  // ---- do the calls end? ----

  /** The calls of collectFields and buildGroupSpec for the body follow references no deeper than that. */
  ghost predicate EndsWithin(names: Names, body: Body, depth: nat)
    decreases depth, body
  {
    && (forall i :: 0 <= i < |body.components| && body.components[i] in names.components ==>
          depth > 0 && EndsWithin(names, names.components[body.components[i]], depth - 1))
    && (forall i :: 0 <= i < |body.groups| && body.groups[i].name in names.numbers ==>
          EndsWithin(names, body.groups[i].body, depth))
  }

  lemma {:induction false} EndsDeeper(names: Names, body: Body, depth: nat, more: nat)
    requires EndsWithin(names, body, depth) && depth <= more
    ensures EndsWithin(names, body, more)
    decreases depth, body
  {
    forall i | 0 <= i < |body.components| && body.components[i] in names.components
      ensures more > 0 && EndsWithin(names, names.components[body.components[i]], more - 1)
    {
      EndsDeeper(names, names.components[body.components[i]], depth - 1, more - 1);
    }
    forall i | 0 <= i < |body.groups| && body.groups[i].name in names.numbers
      ensures EndsWithin(names, body.groups[i].body, more)
    {
      EndsDeeper(names, body.groups[i].body, depth, more);
    }
  }

  lemma {:induction false} RankedEnds(names: Names, ranks: map<string, nat>, body: Body, r: nat)
    requires Acyclic(names, ranks) && Ranked(names, ranks, body, r)
    ensures EndsWithin(names, body, r)
    decreases r, body
  {
    forall i | 0 <= i < |body.components| && body.components[i] in names.components
      ensures r > 0 && EndsWithin(names, names.components[body.components[i]], r - 1)
    {
      var c := body.components[i];
      RankedEnds(names, ranks, names.components[c], ranks[c]);
      EndsDeeper(names, names.components[c], ranks[c], r - 1);
    }
    forall i | 0 <= i < |body.groups| && body.groups[i].name in names.numbers
      ensures EndsWithin(names, body.groups[i].body, r)
    {
      RankedEnds(names, ranks, body.groups[i].body, r);
    }
  }

  ghost predicate Ends(names: Names, body: Body) {
    exists depth: nat :: EndsWithin(names, body, depth)
  }

  /** The smallest depth, up to one that is known to do. */
  ghost function LeastDepth(names: Names, body: Body, depth: nat): (least: nat)
    requires EndsWithin(names, body, depth)
    ensures EndsWithin(names, body, least)
    ensures least == 0 || !EndsWithin(names, body, least - 1)
  {
    if depth > 0 && EndsWithin(names, body, depth - 1) then LeastDepth(names, body, depth - 1) else depth
  }

  ghost function Depth(names: Names, body: Body): (least: nat)
    requires Ends(names, body)
    ensures EndsWithin(names, body, least)
    ensures least == 0 || !EndsWithin(names, body, least - 1)
  {
    var depth: nat :| EndsWithin(names, body, depth);
    LeastDepth(names, body, depth)
  }

  lemma {:induction false} DepthIsLeast(names: Names, body: Body, depth: nat)
    requires EndsWithin(names, body, depth)
    ensures Ends(names, body) && Depth(names, body) <= depth
  {
    if Depth(names, body) > depth {
      EndsDeeper(names, body, depth, Depth(names, body) - 1);
    }
  }

  /** Each component whose calls end, with its depth. */
  ghost function Depths(names: Names): map<string, nat> {
    map c | c in names.components && Ends(names, names.components[c]) :: Depth(names, names.components[c])
  }

  lemma {:induction false} EndingIsRanked(names: Names, body: Body, depth: nat)
    requires EndsWithin(names, body, depth)
    ensures Ranked(names, Depths(names), body, depth)
    decreases body
  {
    forall i | 0 <= i < |body.components| && body.components[i] in names.components
      ensures body.components[i] in Depths(names) && Depths(names)[body.components[i]] < depth
    {
      DepthIsLeast(names, names.components[body.components[i]], depth - 1);
    }
    forall i | 0 <= i < |body.groups| && body.groups[i].name in names.numbers
      ensures Ranked(names, Depths(names), body.groups[i].body, depth)
    {
      EndingIsRanked(names, body.groups[i].body, depth);
    }
  }

  ghost predicate RankedSomehow(names: Names, body: Body) {
    exists ranks: map<string, nat>, r: nat :: Acyclic(names, ranks) && Ranked(names, ranks, body, r)
  }

  /** The depth of the calls is bounded exactly if the references can be ranked, that is, if they are acyclic. */
  lemma {:induction false} EndsIff(names: Names, body: Body)
    ensures Ends(names, body) <==> RankedSomehow(names, body)
  {
    if Ends(names, body) {
      var depth: nat :| EndsWithin(names, body, depth);
      EndingIsRanked(names, body, depth);
      forall c | c in names.components && c in Depths(names)
        ensures Ranked(names, Depths(names), names.components[c], Depths(names)[c])
      {
        EndingIsRanked(names, names.components[c], Depth(names, names.components[c]));
      }
    }
    if RankedSomehow(names, body) {
      var ranks: map<string, nat>, r: nat :| Acyclic(names, ranks) && Ranked(names, ranks, body, r);
      RankedEnds(names, ranks, body, r);
    }
  }

  /** A component that refers to itself: no depth will do. */
  lemma {:induction false} CycleExample(depth: nat)
    ensures var body := Body([], [], ["C"]);
      !EndsWithin(Names(map[], map["C" := body]), body, depth)
    decreases depth
  {
    var body := Body([], [], ["C"]);
    var names := Names(map[], map["C" := body]);
    assert body.components[0] in names.components && names.components[body.components[0]] == body;
    if depth == 0 {
    } else {
      CycleExample(depth - 1);
    }
  }

  // ---- the first tag ----

  /** The first field with a known name. */
  function FirstField(names: Names, fields: seq<FieldRef>): Option<int> {
    if fields == [] then None
    else
      var before, last := FirstField(names, fields[..|fields| - 1]), fields[|fields| - 1];
      if before.Some? then before
      else if last.name in names.numbers then Some(names.numbers[last.name])
      else None
  }

  /** The first group with a known name. */
  function FirstGroup(names: Names, groups: seq<XmlGroup>): Option<int> {
    if groups == [] then None
    else
      var before, last := FirstGroup(names, groups[..|groups| - 1]), groups[|groups| - 1];
      if before.Some? then before
      else if last.name in names.numbers then Some(names.numbers[last.name])
      else None
  }

  /** The first tag that the body lists itself: its fields come before its groups. */
  function OwnFirst(names: Names, body: Body): Option<int> {
    var field := FirstField(names, body.fields);
    if field.Some? then field else FirstGroup(names, body.groups)
  }

  function Else(o: Option<int>, otherwise: int): int {
    match o
    case None => otherwise
    case Some(t) => t
  }

  /** The FirstTag after the body and everything it refers to has been added, from the FirstTag before. */
  ghost function FirstTagOf(names: Names, ranks: map<string, nat>, body: Body, r: nat, before: int): int
    requires Acyclic(names, ranks) && Ranked(names, ranks, body, r)
    decreases r, 1, 0
  {
    AfterComponents(names, ranks, body, r, Else(OwnFirst(names, body), before), |body.components|)
  }

  ghost function AfterComponents(names: Names, ranks: map<string, nat>, body: Body, r: nat, first: int,
                                 count: nat): int
    requires Acyclic(names, ranks) && Ranked(names, ranks, body, r) && count <= |body.components|
    decreases r, 0, count
  {
    if count == 0 then first
    else
      var before := AfterComponents(names, ranks, body, r, first, count - 1);
      var c := body.components[count - 1];
      if c in names.components then FirstTagOf(names, ranks, names.components[c], ranks[c], before) else before
  }

  lemma {:induction false} FirstFieldIs(names: Names, fields: seq<FieldRef>)
    ensures FirstField(names, fields).Some? <==> exists i, t :: 0 <= i < |fields| && FieldIs(names, fields[i], t)
    ensures FirstField(names, fields).Some? ==>
      exists i :: 0 <= i < |fields| && FieldIs(names, fields[i], FirstField(names, fields).value)
  {
    if fields == [] {
    } else {
      var k := |fields| - 1;
      FirstFieldIs(names, fields[..k]);
      if fields[k].name in names.numbers {
        assert FieldIs(names, fields[k], names.numbers[fields[k].name]);
      }
      assert forall i :: 0 <= i < k ==> fields[..k][i] == fields[i];
    }
  }

  lemma {:induction false} FirstGroupIs(names: Names, groups: seq<XmlGroup>)
    ensures FirstGroup(names, groups).Some? <==> exists i, t :: 0 <= i < |groups| && GroupIs(names, groups[i], t)
    ensures FirstGroup(names, groups).Some? ==>
      exists i :: 0 <= i < |groups| && GroupIs(names, groups[i], FirstGroup(names, groups).value)
  {
    if groups == [] {
    } else {
      var k := |groups| - 1;
      FirstGroupIs(names, groups[..k]);
      if groups[k].name in names.numbers {
        assert GroupIs(names, groups[k], names.numbers[groups[k].name]);
      }
      assert forall i :: 0 <= i < k ==> groups[..k][i] == groups[i];
    }
  }

  lemma {:induction false} OwnFirstIs(names: Names, body: Body)
    ensures OwnFirst(names, body).Some? <==> exists t :: Listed(names, AnyTag, body, t)
    ensures OwnFirst(names, body).Some? ==> Listed(names, AnyTag, body, OwnFirst(names, body).value)
  {
    FirstFieldIs(names, body.fields);
    FirstGroupIs(names, body.groups);
    if FirstField(names, body.fields).Some? {
      var i :| 0 <= i < |body.fields| && FieldIs(names, body.fields[i], FirstField(names, body.fields).value);
      assert FieldListed(names, AnyTag, body.fields[i], OwnFirst(names, body).value);
      assert Listed(names, AnyTag, body, OwnFirst(names, body).value);
    } else if FirstGroup(names, body.groups).Some? {
      var i :| 0 <= i < |body.groups| && GroupIs(names, body.groups[i], FirstGroup(names, body.groups).value);
      assert GroupListed(names, AnyTag, body.groups[i], OwnFirst(names, body).value);
      assert Listed(names, AnyTag, body, OwnFirst(names, body).value);
    }
    if exists t :: Listed(names, AnyTag, body, t) {
      var t :| Listed(names, AnyTag, body, t);
      ListedHere(names, body, t);
      assert FirstField(names, body.fields).Some? || FirstGroup(names, body.groups).Some?;
    }
  }

  lemma {:induction false} ListedHere(names: Names, body: Body, t: int)
    requires Listed(names, AnyTag, body, t)
    ensures (exists i, u :: 0 <= i < |body.fields| && FieldIs(names, body.fields[i], u)) ||
            (exists i, u :: 0 <= i < |body.groups| && GroupIs(names, body.groups[i], u))
  {
    if i :| 0 <= i < |body.fields| && FieldListed(names, AnyTag, body.fields[i], t) {
      assert FieldIs(names, body.fields[i], t);
    } else {
      var i :| 0 <= i < |body.groups| && GroupListed(names, AnyTag, body.groups[i], t);
      assert GroupIs(names, body.groups[i], t);
    }
  }

  ghost predicate ReachesSome(names: Names, body: Body) {
    exists t :: Reaches(names, AnyTag, body, t)
  }

  /** The component at that place is known, and some tag is reachable through it. */
  ghost predicate Supplies(names: Names, body: Body, i: nat)
    requires i < |body.components|
  {
    body.components[i] in names.components && ReachesSome(names, names.components[body.components[i]])
  }

  /** The last of the first component references that supplies a tag. */
  ghost function LastSupplier(names: Names, body: Body, count: nat): (last: Option<nat>)
    requires count <= |body.components|
    ensures last.Some? ==> last.value < count && Supplies(names, body, last.value)
  {
    if count == 0 then None
    else if Supplies(names, body, count - 1) then Some(count - 1)
    else LastSupplier(names, body, count - 1)
  }

  lemma {:induction false} LastSupplierIs(names: Names, body: Body, count: nat)
    requires count <= |body.components|
    ensures var last := LastSupplier(names, body, count);
      && (last.None? <==> forall i: nat :: i < count ==> !Supplies(names, body, i))
      && (last.Some? ==> forall i: nat :: last.value < i < count ==> !Supplies(names, body, i))
  {
    if count == 0 {
    } else {
      LastSupplierIs(names, body, count - 1);
    }
  }

  lemma {:induction false} ReachesSomeIff(names: Names, body: Body)
    ensures ReachesSome(names, body) <==>
      OwnFirst(names, body).Some? || LastSupplier(names, body, |body.components|).Some?
  {
    OwnFirstIs(names, body);
    LastSupplierIs(names, body, |body.components|);
    if ReachesSome(names, body) {
      var t :| Reaches(names, AnyTag, body, t);
      ReachesIff(names, AnyTag, body, t);
      if ReachesThrough(names, AnyTag, body, t, |body.components|) {
        var i :| 0 <= i < |body.components| && body.components[i] in names.components
                 && Reaches(names, AnyTag, names.components[body.components[i]], t);
        assert Supplies(names, body, i);
      }
    }
    if OwnFirst(names, body).Some? {
      ReachesIff(names, AnyTag, body, OwnFirst(names, body).value);
    }
    if LastSupplier(names, body, |body.components|).Some? {
      var i := LastSupplier(names, body, |body.components|).value;
      var t :| Reaches(names, AnyTag, names.components[body.components[i]], t);
      ThroughComponent(names, body, i, t);
    }
  }

  lemma {:induction false} ThroughComponent(names: Names, body: Body, i: nat, t: int)
    requires i < |body.components| && body.components[i] in names.components
    requires Reaches(names, AnyTag, names.components[body.components[i]], t)
    ensures Reaches(names, AnyTag, body, t)
  {
    ReachesIff(names, AnyTag, body, t);
  }

  /** The FirstTag that a component reference supplies. */
  ghost function Supplied(names: Names, ranks: map<string, nat>, body: Body, r: nat, i: nat): int
    requires Acyclic(names, ranks) && Ranked(names, ranks, body, r)
    requires i < |body.components| && body.components[i] in names.components
  {
    FirstTagOf(names, ranks, names.components[body.components[i]], ranks[body.components[i]], 0)
  }

  lemma {:induction false} AfterComponent(names: Names, ranks: map<string, nat>, body: Body, r: nat, first: int,
                                          count: nat)
    requires Acyclic(names, ranks) && Ranked(names, ranks, body, r) && 0 < count <= |body.components|
    ensures var c, before := body.components[count - 1], AfterComponents(names, ranks, body, r, first, count - 1);
      AfterComponents(names, ranks, body, r, first, count) ==
        if c in names.components then FirstTagOf(names, ranks, names.components[c], ranks[c], before) else before
  {
  }

  /** The last component reference that supplies a tag decides on FirstTag; without one it stays as it is. */
  lemma {:induction false} AfterComponentsIs(names: Names, ranks: map<string, nat>, body: Body, r: nat, first: int,
                                             count: nat)
    requires Acyclic(names, ranks) && Ranked(names, ranks, body, r) && count <= |body.components|
    ensures AfterComponents(names, ranks, body, r, first, count) ==
      match LastSupplier(names, body, count)
      case None => first
      case Some(i) => Supplied(names, ranks, body, r, i)
    decreases r, 0, count
  {
    if count == 0 {
    } else {
      AfterComponentsIs(names, ranks, body, r, first, count - 1);
      var c := body.components[count - 1];
      AfterComponent(names, ranks, body, r, first, count);
      if c in names.components {
        var before := AfterComponents(names, ranks, body, r, first, count - 1);
        FirstTagFrom(names, ranks, names.components[c], ranks[c], before);
      }
    }
  }

  /** FirstTag does not depend on what it was before, unless no tag is reachable at all: then it stays as it was. */
  lemma {:induction false} FirstTagFrom(names: Names, ranks: map<string, nat>, body: Body, r: nat, before: int)
    requires Acyclic(names, ranks) && Ranked(names, ranks, body, r)
    ensures FirstTagOf(names, ranks, body, r, before) ==
      if ReachesSome(names, body) then FirstTagOf(names, ranks, body, r, 0) else before
    decreases r, 1, 0
  {
    var own := OwnFirst(names, body);
    ReachesSomeIff(names, body);
    AfterComponentsIs(names, ranks, body, r, Else(own, before), |body.components|);
    AfterComponentsIs(names, ranks, body, r, Else(own, 0), |body.components|);
  }

  /**
   FirstTag is what the last component reference that supplies a tag makes it; only where no
   reference does is it the first tag that the group lists itself.
   */
  lemma {:induction false} FirstTagIs(names: Names, ranks: map<string, nat>, body: Body, r: nat)
    requires Acyclic(names, ranks) && Ranked(names, ranks, body, r)
    ensures FirstTagOf(names, ranks, body, r, 0) ==
      match LastSupplier(names, body, |body.components|)
      case None => Else(OwnFirst(names, body), 0)
      case Some(i) => Supplied(names, ranks, body, r, i)
  {
    AfterComponentsIs(names, ranks, body, r, Else(OwnFirst(names, body), 0), |body.components|);
  }

  /**
   A group that lists a tag itself has its first one as FirstTag exactly if no component reference
   supplies a tag, or the last one that does supplies the same.
   */
  lemma {:induction false} FirstTagIsOwnIff(names: Names, ranks: map<string, nat>, body: Body, r: nat)
    requires Acyclic(names, ranks) && Ranked(names, ranks, body, r) && OwnFirst(names, body).Some?
    ensures FirstTagOf(names, ranks, body, r, 0) == OwnFirst(names, body).value <==>
      match LastSupplier(names, body, |body.components|)
      case None => true
      case Some(i) => Supplied(names, ranks, body, r, i) == OwnFirst(names, body).value
  {
    FirstTagIs(names, ranks, body, r);
  }

  /** As soon as any tag is reachable, FirstTag is one of the reachable tags. */
  lemma {:induction false} FirstTagIsReachable(names: Names, ranks: map<string, nat>, body: Body, r: nat)
    requires Acyclic(names, ranks) && Ranked(names, ranks, body, r) && ReachesSome(names, body)
    ensures Reaches(names, AnyTag, body, FirstTagOf(names, ranks, body, r, 0))
    decreases r
  {
    FirstTagIs(names, ranks, body, r);
    ReachesSomeIff(names, body);
    match LastSupplier(names, body, |body.components|) {
      case None =>
        OwnFirstIs(names, body);
        ReachesIff(names, AnyTag, body, OwnFirst(names, body).value);
      case Some(i) =>
        var c := body.components[i];
        FirstTagIsReachable(names, ranks, names.components[c], ranks[c]);
        ThroughComponent(names, body, i, Supplied(names, ranks, body, r, i));
    }
  }

  /** A group that lists field 1 and refers to a component that lists field 2 has FirstTag 2. */
  lemma {:induction false} OverwrittenExample()
    ensures var names := Names(map["A" := 1, "B" := 2], map["C" := Body([FieldRef("B", false)], [], [])]);
      var body := Body([FieldRef("A", false)], [], ["C"]);
      && Acyclic(names, map["C" := 0]) && Ranked(names, map["C" := 0], body, 1)
      && OwnFirst(names, body) == Some(1) && FirstTagOf(names, map["C" := 0], body, 1, 0) == 2
  {
    var inner := Body([FieldRef("B", false)], [], []);
    var names := Names(map["A" := 1, "B" := 2], map["C" := inner]);
    var body := Body([FieldRef("A", false)], [], ["C"]);
    var ranks: map<string, nat> := map["C" := 0];
    assert Acyclic(names, ranks) && Ranked(names, ranks, body, 1);
    assert FirstField(names, inner.fields) == Some(2);
    assert FirstField(names, body.fields) == Some(1);
    assert FirstTagOf(names, ranks, inner, 0, 1) == 2;
    assert AfterComponents(names, ranks, body, 1, 1, 1) == 2;
  }

  // ---- what a group specification should say ----

  /** The group stands in a body reachable from the given one. */
  ghost predicate Holds(names: Names, body: Body, g: XmlGroup) {
    exists path, target :: Leads(names, body, path, target) && g in target.groups
  }

  /** The FirstTag of the specification is that of the group. */
  ghost predicate FirstTagFits(names: Names, ranks: map<string, nat>, spec: GroupSpec, g: XmlGroup)
    requires Acyclic(names, ranks)
  {
    exists r :: Ranked(names, ranks, g.body, r) && spec.firstTag == FirstTagOf(names, ranks, g.body, r, 0)
  }

  /**
   The specification lists exactly what is reachable inside the group, has its FirstTag, and its nested
   groups describe nested groups.
   */
  ghost predicate Describes(names: Names, ranks: map<string, nat>, spec: GroupSpec, g: XmlGroup)
    requires Acyclic(names, ranks)
    decreases spec
  {
    && FirstTagFits(names, ranks, spec, g)
    && (forall t :: t in spec.tags <==> Reaches(names, AnyTag, g.body, t))
    && (forall t :: t in spec.requiredTags <==> Reaches(names, RequiredTag, g.body, t))
    && (forall t :: t in spec.nestedGroups <==> Reaches(names, GroupTag, g.body, t))
    && (forall t :: t in spec.nestedGroups ==>
          exists inner :: Holds(names, g.body, inner) && GroupIs(names, inner, t) &&
            Describes(names, ranks, spec.nestedGroups[t], inner))
  }

  ghost predicate DescribesSome(names: Names, ranks: map<string, nat>, spec: GroupSpec, body: Body, t: int)
    requires Acyclic(names, ranks)
  {
    exists g :: Holds(names, body, g) && GroupIs(names, g, t) && Describes(names, ranks, spec, g)
  }

  lemma {:induction false} HoldsOn(names: Names, ranks: map<string, nat>, body: Body, i: nat, spec: GroupSpec, t: int)
    requires i < |body.components| && body.components[i] in names.components
    requires Acyclic(names, ranks) && DescribesSome(names, ranks, spec, names.components[body.components[i]], t)
    ensures DescribesSome(names, ranks, spec, body, t)
  {
    var inner := names.components[body.components[i]];
    var g :| Holds(names, inner, g) && GroupIs(names, g, t) && Describes(names, ranks, spec, g);
    var path, target :| Leads(names, inner, path, target) && g in target.groups;
    LeadsOn(names, body, i, path, target);
  }

  // ---- collectFields and populateGroupSpec ----

  /** The maps that are filled for one message or one group. */
  class Destination {
    var tags: set<int>
    var required: set<int>
    var groups: map<int, GroupSpec>
    var firstTag: int

    constructor ()
      ensures tags == {} && required == {} && groups == map[] && firstTag == 0
    {
      tags, required, groups, firstTag := {}, {}, map[], 0;
    }

    function Holding(kind: Kind): set<int>
      reads this
    {
      match kind
      case AnyTag => tags
      case RequiredTag => required
      case GroupTag => groups.Keys
    }

    /** One field with a known name. */
    method AddField(names: Names, f: FieldRef)
      requires f.name in names.numbers
      modifies this`tags, this`required
      ensures forall kind, t :: t in Holding(kind) <==> t in old(Holding(kind)) || FieldListed(names, kind, f, t)
    {
      var num := names.numbers[f.name];
      tags := tags + {num};
      if f.required {
        required := required + {num};
      }
    }

    /** The loop over the fields. */
    method AddFields(names: Names, body: Body) returns (firstSet: bool)
      modifies this`tags, this`required, this`firstTag
      ensures forall kind, t :: t in Holding(kind) <==>
        t in old(Holding(kind)) || ListedAmong(names, kind, body, t, |body.fields|, 0)
      ensures firstSet == FirstField(names, body.fields).Some?
      ensures firstTag == Else(FirstField(names, body.fields), old(firstTag))
    {
      firstSet := false;
      assert body.fields[..|body.fields|] == body.fields;
      for i := 0 to |body.fields|
        invariant forall kind, t :: t in Holding(kind) <==>
          t in old(Holding(kind)) || ListedAmong(names, kind, body, t, i, 0)
        invariant firstSet == FirstField(names, body.fields[..i]).Some?
        invariant firstTag == Else(FirstField(names, body.fields[..i]), old(firstTag))
      {
        InitOf(body.fields, i);
        if body.fields[i].name in names.numbers {
          AddField(names, body.fields[i]);
          if !firstSet {
            firstTag, firstSet := names.numbers[body.fields[i].name], true;
          }
        }
      }
    }

    /** A value of groups that was there before, or that describes a group reachable from the body. */
    ghost predicate Described(names: Names, ranks: map<string, nat>, body: Body, before: map<int, GroupSpec>)
      requires Acyclic(names, ranks)
      reads this
    {
      forall t :: t in groups ==>
        (t in before && groups[t] == before[t]) || DescribesSome(names, ranks, groups[t], body, t)
    }

    /** One group with a known name; a group that appears twice keeps its last specification. */
    method AddGroup(names: Names, ghost ranks: map<string, nat>, body: Body, ghost r: nat, i: nat)
      requires Acyclic(names, ranks) && Ranked(names, ranks, body, r)
      requires i < |body.groups| && body.groups[i].name in names.numbers
      modifies this`tags, this`required, this`groups
      ensures forall kind, t :: t in Holding(kind) <==>
        t in old(Holding(kind)) || GroupListed(names, kind, body.groups[i], t)
      ensures Described(names, ranks, body, old(groups))
      decreases r, body, 0
    {
      var g := body.groups[i];
      var num := names.numbers[g.name];
      tags := tags + {num};
      if g.required {
        required := required + {num};
      }
      var spec := BuildGroupSpec(names, ranks, g, r);
      HeldHere(names, ranks, body, i, spec, num);
      groups := groups[num := spec];
    }

    /** The loop over the groups. */
    method AddGroups(names: Names, ghost ranks: map<string, nat>, body: Body, ghost r: nat, fieldFirst: bool)
      requires Acyclic(names, ranks) && Ranked(names, ranks, body, r)
      modifies this
      ensures forall kind, t :: t in Holding(kind) <==>
        t in old(Holding(kind)) || ListedAmong(names, kind, body, t, 0, |body.groups|)
      ensures Described(names, ranks, body, old(groups))
      ensures firstTag == if fieldFirst then old(firstTag) else Else(FirstGroup(names, body.groups), old(firstTag))
      decreases r, body, 1
    {
      var firstSet := fieldFirst;
      assert body.groups[..|body.groups|] == body.groups;
      for i := 0 to |body.groups|
        invariant forall kind, t :: t in Holding(kind) <==>
          t in old(Holding(kind)) || ListedAmong(names, kind, body, t, 0, i)
        invariant Described(names, ranks, body, old(groups))
        invariant firstSet == (fieldFirst || FirstGroup(names, body.groups[..i]).Some?)
        invariant firstTag ==
          if fieldFirst then old(firstTag) else Else(FirstGroup(names, body.groups[..i]), old(firstTag))
      {
        InitOf(body.groups, i);
        if body.groups[i].name in names.numbers {
          AddGroup(names, ranks, body, r, i);
          if !firstSet {
            firstTag, firstSet := names.numbers[body.groups[i].name], true;
          }
        }
      }
    }

    /** The loop over the component references. */
    method AddComponents(names: Names, ghost ranks: map<string, nat>, body: Body, ghost r: nat)
      requires Acyclic(names, ranks) && Ranked(names, ranks, body, r)
      modifies this
      ensures forall kind, t :: t in Holding(kind) <==>
        t in old(Holding(kind)) || ReachesThrough(names, kind, body, t, |body.components|)
      ensures Described(names, ranks, body, old(groups))
      ensures firstTag == AfterComponents(names, ranks, body, r, old(firstTag), |body.components|)
      decreases r, body, 1
    {
      for i := 0 to |body.components|
        invariant forall kind, t :: t in Holding(kind) <==>
          t in old(Holding(kind)) || ReachesThrough(names, kind, body, t, i)
        invariant Described(names, ranks, body, old(groups))
        invariant firstTag == AfterComponents(names, ranks, body, r, old(firstTag), i)
      {
        if body.components[i] in names.components {
          AddComponent(names, ranks, body, r, i);
        }
      }
    }

    method AddComponent(names: Names, ghost ranks: map<string, nat>, body: Body, ghost r: nat, i: nat)
      requires Acyclic(names, ranks) && Ranked(names, ranks, body, r)
      requires i < |body.components| && body.components[i] in names.components
      modifies this
      ensures forall kind, t :: t in Holding(kind) <==>
        t in old(Holding(kind)) || Reaches(names, kind, names.components[body.components[i]], t)
      ensures Described(names, ranks, body, old(groups))
      ensures firstTag ==
        FirstTagOf(names, ranks, names.components[body.components[i]], ranks[body.components[i]], old(firstTag))
      decreases r, body, 0
    {
      var inner := names.components[body.components[i]];
      Collect(names, ranks, inner, ranks[body.components[i]]);
      forall t | t in groups && !(t in old(groups) && groups[t] == old(groups)[t])
        ensures DescribesSome(names, ranks, groups[t], body, t)
      {
        HoldsOn(names, ranks, body, i, groups[t], t);
      }
    }

    /**
     collectFields for a message, populateGroupSpec for a group. On acyclic references it ends,
     and what it adds to each of the three collections is exactly what is reachable.
     */
    method Collect(names: Names, ghost ranks: map<string, nat>, body: Body, ghost r: nat)
      requires Acyclic(names, ranks) && Ranked(names, ranks, body, r)
      modifies this
      ensures forall kind, t :: t in Holding(kind) <==> t in old(Holding(kind)) || Reaches(names, kind, body, t)
      ensures Described(names, ranks, body, old(groups))
      ensures firstTag == FirstTagOf(names, ranks, body, r, old(firstTag))
      decreases r, body, 2
    {
      var firstSet := AddFields(names, body);
      AddGroups(names, ranks, body, r, firstSet);
      AddComponents(names, ranks, body, r);
      forall kind, t ensures t in Holding(kind) <==> t in old(Holding(kind)) || Reaches(names, kind, body, t) {
        ReachesIff(names, kind, body, t);
        ListedSplit(names, kind, body, t);
      }
    }
  }

  /** buildGroupSpec */
  method BuildGroupSpec(names: Names, ghost ranks: map<string, nat>, g: XmlGroup,
                        ghost r: nat) returns (spec: GroupSpec)
    requires Acyclic(names, ranks) && Ranked(names, ranks, g.body, r)
    ensures Describes(names, ranks, spec, g)
    ensures spec.firstTag == FirstTagOf(names, ranks, g.body, r, 0)
    decreases r, g.body, 3
  {
    var inside := new Destination();
    inside.Collect(names, ranks, g.body, r);
    spec := GroupSpec(inside.firstTag, inside.required, inside.tags, inside.groups);
    forall t ensures t in spec.tags <==> Reaches(names, AnyTag, g.body, t) {
      assert t in inside.Holding(AnyTag) <==> Reaches(names, AnyTag, g.body, t);
    }
    forall t ensures t in spec.requiredTags <==> Reaches(names, RequiredTag, g.body, t) {
      assert t in inside.Holding(RequiredTag) <==> Reaches(names, RequiredTag, g.body, t);
    }
    forall t ensures t in spec.nestedGroups <==> Reaches(names, GroupTag, g.body, t) {
      assert t in inside.Holding(GroupTag) <==> Reaches(names, GroupTag, g.body, t);
    }
    forall t | t in spec.nestedGroups
      ensures (exists inner :: Holds(names, g.body, inner) && GroupIs(names, inner, t) &&
                               Describes(names, ranks, spec.nestedGroups[t], inner))
    {
      assert DescribesSome(names, ranks, spec.nestedGroups[t], g.body, t);
    }
  }

  lemma {:induction false} InitOf<T>(s: seq<T>, i: nat)
    requires i < |s|
    ensures s[..i + 1][..i] == s[..i] && s[..i + 1][i] == s[i]
  {
  }

  lemma {:induction false} ListedSplit(names: Names, kind: Kind, body: Body, t: int)
    ensures Listed(names, kind, body, t) <==>
      ListedAmong(names, kind, body, t, |body.fields|, 0) || ListedAmong(names, kind, body, t, 0, |body.groups|)
  {
  }

  lemma {:induction false} HeldHere(names: Names, ranks: map<string, nat>, body: Body, i: nat, spec: GroupSpec, t: int)
    requires i < |body.groups| && GroupIs(names, body.groups[i], t)
    requires Acyclic(names, ranks) && Describes(names, ranks, spec, body.groups[i])
    ensures DescribesSome(names, ranks, spec, body, t)
  {
    assert Leads(names, body, [], body);
    assert Holds(names, body, body.groups[i]);
  }
}
