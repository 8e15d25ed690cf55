/** A message is read back as it was exactly if FirstTag comes first in every member of every group. */
module FirstTags {
  import opened Wrappers
  import opened ByteStrings
  import opened Collections
  import opened Fragments
  import opened Specs
  import opened Codecs
  import opened RoundTrips

  ghost predicate AllShaped(members: seq<Fragment>, spec: GroupSpec, sep: byte) {
    forall i :: 0 <= i < |members| ==> MemberShape(members[i], spec, sep)
  }

  /** A member of the right shape that has its FirstTag. */
  ghost predicate Headed(f: Fragment, spec: GroupSpec, sep: byte) {
    spec.firstTag in f.fields && MemberShape(f, spec, sep)
  }

  ghost predicate AllHeaded(members: seq<Fragment>, spec: GroupSpec, sep: byte) {
    forall i :: 0 <= i < |members| ==> Headed(members[i], spec, sep)
  }

  // ---- what the group loop never gives up ----

  /** The members read so far stay, and the current member only gains tags. */
  lemma {:induction false} LoopExtends(pairs: seq<Pair>, spec: GroupSpec, count: int, members: seq<Fragment>,
                                       current: Option<Fragment>)
    ensures var r := GroupLoop(pairs, spec, count, members, current);
      r.Some? ==>
        && members <= r.value.members
        && (current.Some? ==>
              && |r.value.members| > |members|
              && forall t :: t in current.value.fields ==> t in r.value.members[|members|].fields)
    decreases |pairs|
  {
    if pairs == [] || |members| >= count || Atoi(pairs[0].tag).None? {
    } else {
      var tag, value := Atoi(pairs[0].tag).value, pairs[0].value;
      if tag == spec.firstTag {
        LoopExtends(pairs[1..], spec, count, Close(members, current), Some(EMPTY.Set(tag, value)));
      } else if current.None? || tag !in spec.tags {
      } else if tag in spec.nestedGroups {
        var sub := ParseCounted(pairs[1..], spec.nestedGroups[tag], value);
        if sub.Some? {
          var group := Group(tag, spec.nestedGroups[tag].firstTag, sub.value.members);
          LoopExtends(sub.value.rest, spec, count, members, Some(current.value.SetGroup(tag, group)));
        }
      } else {
        LoopExtends(pairs[1..], spec, count, members, Some(current.value.Set(tag, value)));
      }
    }
  }

  /** If the loop succeeds, it leaves x from place j on, and all of tail. */
  predicate StopsAt(r: Option<GroupResult>, x: seq<Pair>, j: nat, tail: seq<Pair>) {
    j <= |x| && (r.Some? ==> r.value.rest == x[j..] + tail)
  }

  lemma {:induction false} StopsLater(r: Option<GroupResult>, x: seq<Pair>, i: nat, j: nat, tail: seq<Pair>)
    requires i <= |x| && StopsAt(r, x[i..], j, tail)
    ensures StopsAt(r, x, i + j, tail)
  {
    assert x[i..][j..] == x[i + j..];
  }

  /** Reading a group never goes past a pair that belongs to what surrounds it. */
  lemma {:induction false} LoopStops(x: seq<Pair>, tail: seq<Pair>, spec: GroupSpec, count: int, members: seq<Fragment>,
                                     current: Option<Fragment>, outer: set<int>)
    returns (j: nat)
    requires Separate(spec, outer) && Follows(tail, outer)
    ensures StopsAt(GroupLoop(x + tail, spec, count, members, current), x, j, tail)
    decreases |x|, 3
  {
    j := 0;
    assert x[0..] + tail == x + tail && (x + tail)[0..] == x + tail;
    if GroupStops(x + tail, 0, spec, count, members, current) {
      GroupStop(x + tail, 0, spec, count, members, current);
    } else {
      j := LoopGoesOn(x, tail, spec, count, members, current, outer);
    }
  }

  lemma {:induction false} LoopGoesOn(x: seq<Pair>, tail: seq<Pair>, spec: GroupSpec, count: int,
                                      members: seq<Fragment>, current: Option<Fragment>, outer: set<int>)
    returns (j: nat)
    requires Separate(spec, outer) && Follows(tail, outer)
    requires !GroupStops(x + tail, 0, spec, count, members, current)
    ensures StopsAt(GroupLoop(x + tail, spec, count, members, current), x, j, tail)
    decreases |x|, 2
  {
    InsideX(x, tail, spec, count, members, current, outer);
    var tag := Atoi(x[0].tag).value;
    if tag == spec.firstTag || tag !in spec.nestedGroups {
      var next := AfterPair(x[0], spec, members, current, tag);
      PlainStep(x, tail, spec, count, members, current, tag);
      j := LoopStops(x[1..], tail, spec, count, next.0, next.1, outer);
      StopsLater(GroupLoop(x + tail, spec, count, members, current), x, 1, j, tail);
      j := 1 + j;
    } else {
      j := NestedStops(x, tail, spec, count, members, current.value, tag, outer);
    }
  }

  lemma {:induction false} InsideX(x: seq<Pair>, tail: seq<Pair>, spec: GroupSpec, count: int, members: seq<Fragment>,
                                   current: Option<Fragment>, outer: set<int>)
    requires Separate(spec, outer) && Follows(tail, outer)
    requires !GroupStops(x + tail, 0, spec, count, members, current)
    ensures x != [] && !GroupStops(x, 0, spec, count, members, current)
  {
    assert x == [] ==> x + tail == tail;
    assert x != [] ==> (x + tail)[0] == x[0];
  }

  /** The members and the current member after a pair that starts a member or holds a string. */
  function AfterPair(pair: Pair, spec: GroupSpec, members: seq<Fragment>, current: Option<Fragment>, tag: int)
    : (seq<Fragment>, Option<Fragment>)
    requires tag == spec.firstTag || current.Some?
  {
    if tag == spec.firstTag then (Close(members, current), Some(EMPTY.Set(tag, pair.value)))
    else (members, Some(current.value.Set(tag, pair.value)))
  }

  lemma {:induction false} PlainStep(x: seq<Pair>, tail: seq<Pair>, spec: GroupSpec, count: int, members: seq<Fragment>,
                                     current: Option<Fragment>, tag: int)
    requires x != [] && |members| < count && Atoi(x[0].tag) == Some(tag)
    requires tag == spec.firstTag || (current.Some? && tag in spec.tags && tag !in spec.nestedGroups)
    ensures var next := AfterPair(x[0], spec, members, current, tag);
      GroupLoop(x + tail, spec, count, members, current) == GroupLoop(x[1..] + tail, spec, count, next.0, next.1)
  {
    var pairs := x + tail;
    assert pairs[0..] == pairs && pairs[1..] == x[1..] + tail && pairs[0] == x[0];
    GroupStep(pairs, 0, spec, count, members, current, tag);
  }

  /** y is what is left of x from place k on. */
  predicate IsRest(y: seq<Pair>, x: seq<Pair>, k: nat) {
    k <= |x| && y == x[k..]
  }

  lemma {:induction false} StopsBehind(r: Option<GroupResult>, x: seq<Pair>, y: seq<Pair>, k: nat, j: nat,
                                       tail: seq<Pair>)
    returns (l: nat)
    requires IsRest(y, x, k) && StopsAt(r, y, j, tail)
    ensures StopsAt(r, x, l, tail)
  {
    l := k + j;
    StopsLater(r, x, k, j, tail);
  }

  lemma {:induction false} NestedStops(x: seq<Pair>, tail: seq<Pair>, spec: GroupSpec, count: int,
                                       members: seq<Fragment>, current: Fragment, tag: int, outer: set<int>)
    returns (j: nat)
    requires Separate(spec, outer) && Follows(tail, outer)
    requires x != [] && |members| < count && Atoi(x[0].tag) == Some(tag)
    requires tag != spec.firstTag && tag in spec.tags && tag in spec.nestedGroups
    ensures StopsAt(GroupLoop(x + tail, spec, count, members, Some(current)), x, j, tail)
    decreases |x|, 1
  {
    var ok, next, y, k := NestedBehind(x, tail, spec, count, members, current, tag, outer);
    if ok {
      j := LoopStops(y, tail, spec, count, members, Some(next), outer);
      j := StopsBehind(GroupLoop(y + tail, spec, count, members, Some(next)), x, y, k, j, tail);
    } else {
      j := 0;
    }
  }

  /** The loop goes on behind a nested group, or fails in it. */
  lemma {:induction false} NestedBehind(x: seq<Pair>, tail: seq<Pair>, spec: GroupSpec, count: int,
                                        members: seq<Fragment>, current: Fragment, tag: int, outer: set<int>)
    returns (ok: bool, next: Fragment, y: seq<Pair>, k: nat)
    requires Separate(spec, outer) && Follows(tail, outer)
    requires x != [] && |members| < count && Atoi(x[0].tag) == Some(tag)
    requires tag != spec.firstTag && tag in spec.tags && tag in spec.nestedGroups
    ensures IsRest(y, x, k) && |y| < |x|
    ensures GroupLoop(x + tail, spec, count, members, Some(current)) ==
      if ok then GroupLoop(y + tail, spec, count, members, Some(next)) else None
    decreases |x|, 0
  {
    var sub := ParseCounted(x[1..] + tail, spec.nestedGroups[tag], x[0].value);
    var i := CountedStops(x[1..], tail, spec.nestedGroups[tag], x[0].value, outer + Own(spec));
    ok, next, k := sub.Some?, current, 1 + i;
    y := x[k..];
    NestedPairStep(x, tail, spec, count, members, current, tag);
    BehindPair(x, i);
    if ok {
      next := current.SetGroup(tag, Group(tag, spec.nestedGroups[tag].firstTag, sub.value.members));
    }
  }

  lemma {:induction false} BehindPair<T>(x: seq<T>, i: nat)
    requires 1 + i <= |x|
    ensures x[1..][i..] == x[1 + i..]
  {
  }

  lemma {:induction false} NestedPairStep(x: seq<Pair>, tail: seq<Pair>, spec: GroupSpec, count: int,
                                          members: seq<Fragment>, current: Fragment, tag: int)
    requires x != [] && |members| < count && Atoi(x[0].tag) == Some(tag)
    requires tag != spec.firstTag && tag in spec.tags && tag in spec.nestedGroups
    ensures var sub := ParseCounted(x[1..] + tail, spec.nestedGroups[tag], x[0].value);
      GroupLoop(x + tail, spec, count, members, Some(current)) ==
        if sub.None? then None
        else GroupLoop(sub.value.rest, spec, count, members,
                       Some(current.SetGroup(tag, Group(tag, spec.nestedGroups[tag].firstTag, sub.value.members))))
  {
    var pairs := x + tail;
    assert pairs[0..] == pairs && pairs[1..] == x[1..] + tail && pairs[0] == x[0];
    GroupStepNested(pairs, 0, spec, count, members, current, tag,
                    ParseCounted(x[1..] + tail, spec.nestedGroups[tag], x[0].value));
  }

  lemma {:induction false} CountedStops(x: seq<Pair>, tail: seq<Pair>, spec: GroupSpec, count: bytes, outer: set<int>)
    returns (j: nat)
    requires Separate(spec, outer) && Follows(tail, outer)
    ensures StopsAt(ParseCounted(x + tail, spec, count), x, j, tail)
    decreases |x|, 4
  {
    j := 0;
    assert x[0..] == x;
    if Atoi(count).Some? && Atoi(count).value != 0 {
      j := LoopStops(x, tail, spec, Atoi(count).value, [], None, outer);
    }
  }

  // ---- where a nested group ends ----

  /** Every pair has a tag that is not among the given ones. */
  predicate Inside(pairs: seq<Pair>, outer: set<int>) {
    forall i :: 0 <= i < |pairs| ==> Atoi(pairs[i].tag).Some? && Atoi(pairs[i].tag).value !in outer
  }

  lemma {:induction false} InsideConcat(a: seq<Pair>, b: seq<Pair>, outer: set<int>)
    requires Inside(a, outer) && Inside(b, outer)
    ensures Inside(a + b, outer)
  {
  }

  lemma {:induction false} InsideShrinks(pairs: seq<Pair>, outer: set<int>, more: set<int>)
    requires Inside(pairs, outer + more)
    ensures Inside(pairs, outer)
  {
  }

  lemma {:induction false} MembersInside(members: seq<Fragment>, spec: GroupSpec, sep: byte, outer: set<int>)
    requires AllShaped(members, spec, sep)
    requires Separate(spec, outer)
    ensures Inside(PairsFor(MembersFields(members)), outer)
    decreases members, 0, 0
  {
    if members == [] {
    } else {
      var f := members[0];
      FieldsInside(SortedTags(f.fields.Keys), f, spec, sep, outer);
      MembersInside(members[1..], spec, sep, outer);
      PairsForConcat(FragmentFields(f), MembersFields(members[1..]));
      InsideConcat(PairsFor(FragmentFields(f)), PairsFor(MembersFields(members[1..])), outer);
    }
  }

  lemma {:induction false} FieldsInside(order: seq<int>, f: Fragment, spec: GroupSpec, sep: byte, outer: set<int>)
    requires forall t :: t in order ==> t in f.fields
    requires MemberShape(f, spec, sep) && Separate(spec, outer)
    ensures Inside(PairsFor(OrderFields(order, f)), outer)
    decreases f, 0, |order|
  {
    if order == [] {
    } else {
      var t := order[0];
      assert t in order;
      ValueInside(t, f, spec, sep, outer);
      FieldsInside(order[1..], f, spec, sep, outer);
      PairsForConcat(ValueFields(t, f.fields[t]), OrderFields(order[1..], f));
      InsideConcat(PairsFor(ValueFields(t, f.fields[t])), PairsFor(OrderFields(order[1..], f)), outer);
    }
  }

  lemma {:induction false} ValueInside(t: int, f: Fragment, spec: GroupSpec, sep: byte, outer: set<int>)
    requires t in f.fields && MemberShape(f, spec, sep) && Separate(spec, outer)
    ensures Inside(PairsFor(ValueFields(t, f.fields[t])), outer)
    decreases f, 0, 0
  {
    assert t in Own(spec) && t !in outer;
    AtoiItoa(t);
    var v := f.fields[t];
    if t != spec.firstTag && t in spec.nestedGroups {
      var count := [Field(t, Itoa(|v.members|))];
      MembersInside(v.members, spec.nestedGroups[t], sep, outer + Own(spec));
      InsideShrinks(PairsFor(MembersFields(v.members)), outer, Own(spec));
      PairsForConcat(count, MembersFields(v.members));
      InsideConcat(PairsFor(count), PairsFor(MembersFields(v.members)), outer);
    }
  }

  /** Reading a printed group ends exactly behind it, or at a pair that does not belong to what surrounds it. */
  lemma {:induction false} CountedEnds(v: Value, tag: int, spec: GroupSpec, post: seq<Pair>, outer: set<int>, sep: byte)
    requires GroupShape(v, tag, spec, sep) && Separate(spec, outer) && Follows(post, outer)
    ensures var r := ParseCounted(PairsFor(MembersFields(v.members)) + post, spec, Itoa(|v.members|));
      r.Some? ==> r.value.rest == post || Foreign(r.value.rest, outer)
  {
    var x := PairsFor(MembersFields(v.members));
    MembersInside(v.members, spec, sep, outer);
    var j := CountedStops(x, post, spec, Itoa(|v.members|), outer);
    if j == |x| {
      assert x[j..] + post == post;
    } else {
      assert (x[j..] + post)[0] == x[j];
    }
  }

  /** The first pair has a tag, and it is not among the given ones. */
  predicate Foreign(pairs: seq<Pair>, outer: set<int>) {
    pairs != [] && Atoi(pairs[0].tag).Some? && Atoi(pairs[0].tag).value !in outer
  }

  // ---- members without FirstTag ----

  /** How many pairs have FirstTag. */
  function Heads(pairs: seq<Pair>, first: int): nat {
    if pairs == [] then 0 else (if Atoi(pairs[0].tag) == Some(first) then 1 else 0) + Heads(pairs[1..], first)
  }

  lemma {:induction false} HeadsConcat(a: seq<Pair>, b: seq<Pair>, first: int)
    ensures Heads(a + b, first) == Heads(a, first) + Heads(b, first)
  {
    if a == [] {
      assert a + b == b;
    } else {
      assert (a + b)[1..] == a[1..] + b;
      HeadsConcat(a[1..], b, first);
    }
  }

  lemma {:induction false} HeadsBehind(pairs: seq<Pair>, i: nat, first: int)
    requires i <= |pairs|
    ensures Heads(pairs[i..], first) <= Heads(pairs, first)
  {
    TakeAndDrop(pairs, i);
    HeadsConcat(pairs[..i], pairs[i..], first);
  }

  lemma {:induction false} NoHeads(pairs: seq<Pair>, outer: set<int>, first: int)
    requires Inside(pairs, outer) && first in outer
    ensures Heads(pairs, first) == 0
  {
    if pairs == [] {
    } else {
      NoHeads(pairs[1..], outer, first);
    }
  }

  /** A string or a group shows the FirstTag of the surrounding group only if it is the string under it. */
  lemma {:induction false} ValueHeads(t: int, f: Fragment, spec: GroupSpec, sep: byte, outer: set<int>)
    requires t in f.fields && MemberShape(f, spec, sep) && Separate(spec, outer)
    ensures Heads(PairsFor(ValueFields(t, f.fields[t])), spec.firstTag) == if t == spec.firstTag then 1 else 0
  {
    var v := f.fields[t];
    AtoiItoa(t);
    if t != spec.firstTag && t in spec.nestedGroups {
      var count := [Field(t, Itoa(|v.members|))];
      MembersInside(v.members, spec.nestedGroups[t], sep, outer + Own(spec));
      NoHeads(PairsFor(MembersFields(v.members)), outer + Own(spec), spec.firstTag);
      PairsForConcat(count, MembersFields(v.members));
      HeadsConcat(PairsFor(count), PairsFor(MembersFields(v.members)), spec.firstTag);
    }
  }

  lemma {:induction false} FieldsHeads(order: seq<int>, f: Fragment, spec: GroupSpec, sep: byte, outer: set<int>)
    requires Ordered(order) && forall t :: t in order ==> t in f.fields
    requires MemberShape(f, spec, sep) && Separate(spec, outer)
    ensures Heads(PairsFor(OrderFields(order, f)), spec.firstTag) == if spec.firstTag in order then 1 else 0
  {
    if order == [] {
    } else {
      var t := order[0];
      assert t in order;
      NotBehind(order);
      ValueHeads(t, f, spec, sep, outer);
      FieldsHeads(order[1..], f, spec, sep, outer);
      PairsForConcat(ValueFields(t, f.fields[t]), OrderFields(order[1..], f));
      HeadsConcat(PairsFor(ValueFields(t, f.fields[t])), PairsFor(OrderFields(order[1..], f)), spec.firstTag);
    }
  }

  lemma {:induction false} NotBehind(order: seq<int>)
    requires Ordered(order) && order != []
    ensures order[0] !in order[1..]
  {
    forall j | 0 <= j < |order[1..]| ensures order[1..][j] != order[0] {
      assert Before(order[0], order[j + 1]);
    }
  }

  predicate AllHave(members: seq<Fragment>, tag: int) {
    forall i :: 0 <= i < |members| ==> tag in members[i].fields
  }

  /** Printed members show FirstTag once for each member that has it. */
  lemma {:induction false} MembersHeads(members: seq<Fragment>, spec: GroupSpec, sep: byte, outer: set<int>)
    requires AllShaped(members, spec, sep) && Separate(spec, outer)
    ensures var heads := Heads(PairsFor(MembersFields(members)), spec.firstTag);
      heads <= |members| && (!AllHave(members, spec.firstTag) ==> heads < |members|)
  {
    if members == [] {
    } else {
      var f := members[0];
      SortedTagsListTags(f.fields.Keys);
      FieldsHeads(SortedTags(f.fields.Keys), f, spec, sep, outer);
      MembersHeads(members[1..], spec, sep, outer);
      PairsForConcat(FragmentFields(f), MembersFields(members[1..]));
      HeadsConcat(PairsFor(FragmentFields(f)), PairsFor(MembersFields(members[1..])), spec.firstTag);
    }
  }

  /** The loop reads no more members than it started with and has pairs with FirstTag in x for. */
  lemma {:induction false} LoopHeads(x: seq<Pair>, tail: seq<Pair>, spec: GroupSpec, count: int, members: seq<Fragment>,
                                     current: Option<Fragment>, outer: set<int>)
    requires Separate(spec, outer) && Follows(tail, outer)
    ensures var r := GroupLoop(x + tail, spec, count, members, current);
      r.Some? ==> |r.value.members| <= |Close(members, current)| + Heads(x, spec.firstTag)
    decreases |x|
  {
    if GroupStops(x + tail, 0, spec, count, members, current) {
      assert (x + tail)[0..] == x + tail;
      GroupStop(x + tail, 0, spec, count, members, current);
    } else {
      InsideX(x, tail, spec, count, members, current, outer);
      var tag := Atoi(x[0].tag).value;
      if tag == spec.firstTag || tag !in spec.nestedGroups {
        var next := AfterPair(x[0], spec, members, current, tag);
        PlainStep(x, tail, spec, count, members, current, tag);
        LoopHeads(x[1..], tail, spec, count, next.0, next.1, outer);
      } else {
        NestedHeads(x, tail, spec, count, members, current.value, tag, outer);
      }
    }
  }

  lemma {:induction false} NestedHeads(x: seq<Pair>, tail: seq<Pair>, spec: GroupSpec, count: int,
                                       members: seq<Fragment>, current: Fragment, tag: int, outer: set<int>)
    requires Separate(spec, outer) && Follows(tail, outer)
    requires x != [] && |members| < count && Atoi(x[0].tag) == Some(tag)
    requires tag != spec.firstTag && tag in spec.tags && tag in spec.nestedGroups
    ensures var r := GroupLoop(x + tail, spec, count, members, Some(current));
      r.Some? ==> |r.value.members| <= |members| + 1 + Heads(x, spec.firstTag)
    decreases |x|, 0
  {
    var ok, next, y, k := NestedBehind(x, tail, spec, count, members, current, tag, outer);
    if ok {
      LoopHeads(y, tail, spec, count, members, Some(next), outer);
      HeadsBehind(x, k, spec.firstTag);
    }
  }

  /** A group with a member that lacks FirstTag comes back with fewer members. */
  lemma {:induction false} HeadlessDiffers(v: Value, tag: int, spec: GroupSpec, post: seq<Pair>, outer: set<int>,
                                           sep: byte)
    requires GroupShape(v, tag, spec, sep) && !AllHave(v.members, spec.firstTag)
    requires Separate(spec, outer) && Follows(post, outer)
    ensures var r := ParseCounted(PairsFor(MembersFields(v.members)) + post, spec, Itoa(|v.members|));
      r.Some? ==> |r.value.members| < |v.members|
  {
    AtoiItoa(|v.members|);
    MembersHeads(v.members, spec, sep, outer);
    LoopHeads(PairsFor(MembersFields(v.members)), post, spec, |v.members|, [], None, outer);
  }

  // ---- a wrong value stays wrong ----

  /** If the loop succeeds, member k shows value x under tag t. */
  predicate Shows(r: Option<GroupResult>, k: nat, t: int, x: Value) {
    r.Some? ==> k < |r.value.members| && t in r.value.members[k].fields && r.value.members[k].fields[t] == x
  }

  /** However the current member goes on, what follows leaves its value under t alone. */
  ghost predicate Leaves(post: seq<Pair>, spec: GroupSpec, count: int, members: seq<Fragment>, t: int, x: Value) {
    forall c: Fragment :: t in c.fields && c.fields[t] == x ==>
      Shows(GroupLoop(post, spec, count, members, Some(c)), |members|, t, x)
  }

  lemma {:induction false} StopShows(pairs: seq<Pair>, spec: GroupSpec, count: int, members: seq<Fragment>,
                                     current: Fragment, t: int, x: Value)
    requires GroupStops(pairs, 0, spec, count, members, Some(current))
    requires t in current.fields && current.fields[t] == x
    ensures Shows(GroupLoop(pairs, spec, count, members, Some(current)), |members|, t, x)
  {
    assert pairs[0..] == pairs;
    GroupStop(pairs, 0, spec, count, members, Some(current));
  }

  /** Other fields of the member leave the value alone. */
  lemma {:induction false} FieldsLeave(order: seq<int>, f: Fragment, spec: GroupSpec, count: int,
                                       members: seq<Fragment>, current: Fragment, post: seq<Pair>, outer: set<int>,
                                       sep: byte, t: int, x: Value)
    requires forall u :: u in order ==> u in f.fields && u != spec.firstTag && u != t
    requires MemberShape(f, spec, sep) && Separate(spec, outer) && Follows(post, outer + Own(spec))
    requires |members| < count && t in current.fields && current.fields[t] == x
    requires Leaves(post, spec, count, members, t, x)
    ensures Shows(GroupLoop(PairsFor(OrderFields(order, f)) + post, spec, count, members, Some(current)),
                  |members|, t, x)
    decreases |order|
  {
    if order == [] {
      assert PairsFor([]) + post == post;
    } else {
      var u := order[0];
      assert u in order;
      if u in spec.nestedGroups {
        var v, sub, tail := f.fields[u], spec.nestedGroups[u], PairsFor(OrderFields(order[1..], f)) + post;
        FieldsFollow(order[1..], f, post, outer + Own(spec));
        NestedStep(order, f, spec, count, members, current, post);
        CountedEnds(v, u, sub, tail, outer + Own(spec), sep);
        var r := ParseCounted(PairsFor(MembersFields(v.members)) + tail, sub, Itoa(|v.members|));
        if r.Some? {
          var next := current.SetGroup(u, Group(u, sub.firstTag, r.value.members));
          if r.value.rest == tail {
            FieldsLeave(order[1..], f, spec, count, members, next, post, outer, sep, t, x);
          } else {
            StopShows(r.value.rest, spec, count, members, next, t, x);
          }
        }
      } else {
        TextStep(order, f, spec, count, members, current, post);
        FieldsLeave(order[1..], f, spec, count, members, current.Set(u, f.fields[u].text), post, outer, sep, t, x);
      }
    }
  }

  // ---- the tags in front of FirstTag ----

  /** The fields of a member, cut at FirstTag: all in front of it come before it in canonical order. */
  lemma {:induction false} CutAtFirst(f: Fragment, spec: GroupSpec, sep: byte)
    returns (lead: seq<int>, rest: seq<int>)
    requires Headed(f, spec, sep)
    ensures (forall t :: t in lead ==> t in f.fields && t != spec.firstTag && Before(t, spec.firstTag))
    ensures (forall t :: t in rest ==> t in f.fields && t != spec.firstTag) && Ordered(rest)
    ensures forall t :: t in f.fields ==> t == spec.firstTag || t in lead || t in rest
    ensures lead == [] <==> Leads(f, spec.firstTag)
    ensures FragmentFields(f) == OrderFields(lead, f) + OrderFields([spec.firstTag] + rest, f)
  {
    var order, first := SortedTags(f.fields.Keys), spec.firstTag;
    SortedTagsListTags(f.fields.Keys);
    assert first in order;
    var i :| 0 <= i < |order| && order[i] == first;
    lead, rest := order[..i], order[i + 1..];
    CutOrder(order, i);
    OrderFieldsConcat(lead, [first] + rest, f);
    LeadsIff(f, first, lead, rest);
  }

  lemma {:induction false} CutOrder(order: seq<int>, i: nat)
    requires Ordered(order) && i < |order|
    ensures order == order[..i] + ([order[i]] + order[i + 1..])
    ensures forall t :: t in order[..i] ==> t in order && t != order[i] && Before(t, order[i])
    ensures forall t :: t in order[i + 1..] ==> t in order && t != order[i] && Before(order[i], t)
    ensures Ordered(order[i + 1..])
    ensures forall t :: t in order ==> t == order[i] || t in order[..i] || t in order[i + 1..]
  {
    forall t | t in order[..i] ensures t in order && t != order[i] && Before(t, order[i]) {
      var j :| 0 <= j < i && order[j] == t;
    }
    forall t | t in order[i + 1..] ensures t in order && t != order[i] && Before(order[i], t) {
      var j :| i < j < |order| && order[j] == t;
    }
  }

  lemma {:induction false} LeadsIff(f: Fragment, first: int, lead: seq<int>, rest: seq<int>)
    requires forall t :: t in f.fields ==> t == first || t in lead || t in rest
    requires forall t :: t in lead ==> t in f.fields && t != first && Before(t, first)
    requires forall t :: t in rest ==> Before(first, t)
    ensures lead == [] <==> Leads(f, first)
  {
    if lead != [] {
      var t := lead[0];
      assert t in lead && !Before(first, t);
    }
  }

  /** The pair of FirstTag closes the member in front of it. */
  lemma {:induction false} FirstCloses(rest: seq<int>, f: Fragment, spec: GroupSpec, count: int, members: seq<Fragment>,
                                       current: Fragment, post: seq<Pair>, sep: byte)
    requires forall t :: t in [spec.firstTag] + rest ==> t in f.fields
    requires Headed(f, spec, sep) && |members| < count
    ensures var pairs := PairsFor(OrderFields([spec.firstTag] + rest, f)) + post;
      var r := GroupLoop(pairs, spec, count, members, Some(current));
      r.Some? ==> |r.value.members| > |members| && r.value.members[|members|] == current
  {
    var first := spec.firstTag;
    var pairs := PairsFor(OrderFields([first] + rest, f)) + post;
    assert pairs[0..] == pairs;
    AtoiItoa(first);
    FirstAndRest(first, rest);
    TextFieldsSplit([first] + rest, f, post);
    GroupStep(pairs, 0, spec, count, members, Some(current), first);
    LoopExtends(pairs[1..], spec, count, members + [current], Some(EMPTY.Set(first, pairs[0].value)));
  }

  /** The members behind the current one leave a value under a tag behind FirstTag alone. */
  lemma {:induction false} MembersLeave(rest: seq<Fragment>, spec: GroupSpec, count: int, members: seq<Fragment>,
                                        current: Fragment, post: seq<Pair>, outer: set<int>, sep: byte, t: int,
                                        x: Value)
    requires AllHeaded(rest, spec, sep)
    requires Separate(spec, outer) && Follows(post, outer)
    requires |members| < count && t in current.fields && current.fields[t] == x
    requires Before(spec.firstTag, t)
    ensures Shows(GroupLoop(PairsFor(MembersFields(rest)) + post, spec, count, members, Some(current)), |members|, t, x)
  {
    if rest == [] {
      assert PairsFor([]) + post == post;
      StopShows(post, spec, count, members, current, t, x);
    } else {
      var f, behind := rest[0], PairsFor(MembersFields(rest[1..])) + post;
      var lead, others := CutAtFirst(f, spec, sep);
      var closing := PairsFor(OrderFields([spec.firstTag] + others, f)) + behind;
      MembersSplit(rest, post);
      PairsForConcat(OrderFields(lead, f), OrderFields([spec.firstTag] + others, f));
      ConcatAssociative(PairsFor(OrderFields(lead, f)), PairsFor(OrderFields([spec.firstTag] + others, f)), behind);
      forall c: Fragment | t in c.fields && c.fields[t] == x
        ensures Shows(GroupLoop(closing, spec, count, members, Some(c)), |members|, t, x)
      {
        FirstCloses(others, f, spec, count, members, c, behind, sep);
      }
      FirstFollows(others, f, spec, behind, outer, sep);
      FieldsLeave(lead, f, spec, count, members, current, closing, outer, sep, t, x);
    }
  }

  lemma {:induction false} FirstFollows(rest: seq<int>, f: Fragment, spec: GroupSpec, post: seq<Pair>, outer: set<int>,
                                        sep: byte)
    requires forall t :: t in [spec.firstTag] + rest ==> t in f.fields
    requires Headed(f, spec, sep)
    ensures Follows(PairsFor(OrderFields([spec.firstTag] + rest, f)) + post, outer + Own(spec))
  {
    AtoiItoa(spec.firstTag);
    FirstAndRest(spec.firstTag, rest);
    TextFieldsSplit([spec.firstTag] + rest, f, post);
  }

  /** A tag printed before FirstTag ends up in the member in front, or ends the group if there is none. */
  lemma {:induction false} LeadSpoils(f: Fragment, spec: GroupSpec, count: int, members: seq<Fragment>,
                                      current: Option<Fragment>, post: seq<Pair>, sep: byte)
    requires Headed(f, spec, sep) && !Leads(f, spec.firstTag)
    requires |members| < count
    ensures var r := GroupLoop(PairsFor(FragmentFields(f)) + post, spec, count, members, current);
      r.Some? ==>
        if current.None? then r.value.members == members
        else |r.value.members| > |members| && !Leads(r.value.members[|members|], spec.firstTag)
  {
    var lead, rest := CutAtFirst(f, spec, sep);
    var a := lead[0];
    assert a in lead;
    var order := lead + ([spec.firstTag] + rest);
    OrderFieldsConcat(lead, [spec.firstTag] + rest, f);
    assert order[0] == a;
    var pairs := PairsFor(FragmentFields(f)) + post;
    FirstPair(order, f, post);
    AtoiItoa(a);
    if current.Some? {
      LoopTakes(pairs, spec, count, members, current.value, a);
    }
  }

  lemma {:induction false} FirstPair(order: seq<int>, f: Fragment, post: seq<Pair>)
    requires (forall t :: t in order ==> t in f.fields) && order != []
    ensures var pairs := PairsFor(OrderFields(order, f)) + post;
      pairs != [] && pairs[0].tag == Itoa(order[0])
  {
    PairsForConcat(ValueFields(order[0], f.fields[order[0]]), OrderFields(order[1..], f));
  }

  /** A tag of the group that comes next becomes a tag of the current member. */
  lemma {:induction false} LoopTakes(pairs: seq<Pair>, spec: GroupSpec, count: int, members: seq<Fragment>,
                                     current: Fragment, a: int)
    requires pairs != [] && Atoi(pairs[0].tag) == Some(a)
    requires a != spec.firstTag && a in spec.tags && |members| < count
    ensures var r := GroupLoop(pairs, spec, count, members, Some(current));
      r.Some? ==> |r.value.members| > |members| && a in r.value.members[|members|].fields
  {
    var value := pairs[0].value;
    assert pairs[0..] == pairs;
    if a in spec.nestedGroups {
      var sub := ParseCounted(pairs[1..], spec.nestedGroups[a], value);
      GroupStepNested(pairs, 0, spec, count, members, current, a, sub);
      if sub.Some? {
        var next := current.SetGroup(a, Group(a, spec.nestedGroups[a].firstTag, sub.value.members));
        LoopExtends(sub.value.rest, spec, count, members, Some(next));
      }
    } else {
      GroupStep(pairs, 0, spec, count, members, Some(current), a);
      LoopExtends(pairs[1..], spec, count, members, Some(current.Set(a, value)));
    }
  }

  // ---- groups in which FirstTag does not lead everywhere ----

  /** The groups under the listed tags lead. */
  ghost predicate FieldsLead(order: seq<int>, f: Fragment, spec: GroupSpec)
    requires forall t :: t in order ==> t in f.fields
  {
    forall t :: t in order && t in spec.nestedGroups && f.fields[t].Group? ==>
      GroupLeads(f.fields[t], spec.nestedGroups[t])
  }

  lemma {:induction false} ShapesFollow(members: seq<Fragment>, spec: GroupSpec, post: seq<Pair>, outer: set<int>,
                                        sep: byte)
    requires AllHeaded(members, spec, sep)
    requires Follows(post, outer)
    ensures Follows(PairsFor(MembersFields(members)) + post, outer + Own(spec))
  {
    if members == [] {
      assert PairsFor([]) + post == post;
    } else {
      var f := members[0];
      var order := SortedTags(f.fields.Keys);
      assert spec.firstTag in order;
      MembersSplit(members, post);
      FirstPair(order, f, PairsFor(MembersFields(members[1..])) + post);
      assert order[0] in order;
      AtoiItoa(order[0]);
    }
  }

  /** A group in which FirstTag does not lead at some depth is not read back. */
  lemma {:induction false} CountedDiffers(v: Value, tag: int, spec: GroupSpec, post: seq<Pair>, outer: set<int>,
                                          sep: byte)
    requires GroupShape(v, tag, spec, sep) && !GroupLeads(v, spec)
    requires Separate(spec, outer) && Follows(post, outer)
    ensures var r := ParseCounted(PairsFor(MembersFields(v.members)) + post, spec, Itoa(|v.members|));
      r.Some? ==> r.value.members != v.members
    decreases v, 0, 0
  {
    if AllHave(v.members, spec.firstTag) {
      AtoiItoa(|v.members|);
      MembersDiffer(v.members, spec, |v.members|, [], None, post, outer, sep);
      assert Close([], None) + v.members == v.members;
    } else {
      HeadlessDiffers(v, tag, spec, post, outer, sep);
    }
  }

  lemma {:induction false} MembersDiffer(members: seq<Fragment>, spec: GroupSpec, count: int, done: seq<Fragment>,
                                         current: Option<Fragment>, post: seq<Pair>, outer: set<int>, sep: byte)
    requires AllHeaded(members, spec, sep)
    requires exists i :: 0 <= i < |members| && !MemberLeads(members[i], spec)
    requires Separate(spec, outer) && Follows(post, outer)
    requires |Close(done, current)| + |members| == count
    requires current.Some? ==> Leads(current.value, spec.firstTag)
    ensures var r := GroupLoop(PairsFor(MembersFields(members)) + post, spec, count, done, current);
      r.Some? ==> r.value.members != Close(done, current) + members
    decreases members, 0, 0
  {
    var f, behind := members[0], PairsFor(MembersFields(members[1..])) + post;
    MembersSplit(members, post);
    if !Leads(f, spec.firstTag) {
      LeadSpoils(f, spec, count, done, current, behind, sep);
    } else if !MemberLeads(f, spec) {
      MemberDiffers(f, spec, count, done, current, members[1..], post, outer, sep);
      assert (Close(done, current) + members)[|Close(done, current)|] == f;
    } else {
      MemberConformsIff(f, spec, sep);
      ShapesFollow(members[1..], spec, post, outer, sep);
      ParseMember(f, spec, count, done, current, behind, outer, sep);
      MembersDiffer(members[1..], spec, count, Close(done, current), Some(f), post, outer, sep);
      FirstMember(Close(done, current), members);
    }
  }

  /** If the loop succeeds, its member k is not f. */
  predicate Differs(r: Option<GroupResult>, k: nat, f: Fragment) {
    r.Some? ==> k < |r.value.members| && r.value.members[k] != f
  }

  /** The trouble lies in a group inside the first member. */
  lemma {:induction false} MemberDiffers(f: Fragment, spec: GroupSpec, count: int, done: seq<Fragment>,
                                         current: Option<Fragment>, rest: seq<Fragment>, post: seq<Pair>,
                                         outer: set<int>, sep: byte)
    requires Headed(f, spec, sep) && Leads(f, spec.firstTag) && !MemberLeads(f, spec)
    requires AllHeaded(rest, spec, sep)
    requires Separate(spec, outer) && Follows(post, outer)
    requires |Close(done, current)| < count
    ensures var pairs := PairsFor(FragmentFields(f)) + (PairsFor(MembersFields(rest)) + post);
      Differs(GroupLoop(pairs, spec, count, done, current), |Close(done, current)|, f)
    decreases f, 1, 0
  {
    var behind := PairsFor(MembersFields(rest)) + post;
    var order, start := HeadStep(f, spec, count, done, current, behind, sep);
    assert !FieldsLead(order, f, spec);
    FieldsDiffer(order, f, spec, count, Close(done, current), start, rest, post, outer, sep);
  }

  /** FirstTag, which comes first, starts the member; the other fields follow. */
  lemma {:induction false} HeadStep(f: Fragment, spec: GroupSpec, count: int, done: seq<Fragment>,
                                    current: Option<Fragment>, behind: seq<Pair>, sep: byte)
    returns (order: seq<int>, start: Fragment)
    requires Headed(f, spec, sep) && Leads(f, spec.firstTag) && |done| < count
    ensures (forall t :: t in order ==> t in f.fields && t != spec.firstTag) && Ordered(order)
    ensures forall t :: t in f.fields ==> t == spec.firstTag || t in order
    ensures GroupLoop(PairsFor(FragmentFields(f)) + behind, spec, count, done, current) ==
      GroupLoop(PairsFor(OrderFields(order, f)) + behind, spec, count, Close(done, current), Some(start))
  {
    var first := spec.firstTag;
    var lead;
    lead, order := CutAtFirst(f, spec, sep);
    assert OrderFields(lead, f) == [] && [] + OrderFields([first] + order, f) == OrderFields([first] + order, f);
    var pairs := PairsFor(FragmentFields(f)) + behind;
    start := EMPTY.Set(first, pairs[0].value);
    assert pairs[0..] == pairs;
    AtoiItoa(first);
    FirstAndRest(first, order);
    TextFieldsSplit([first] + order, f, behind);
    GroupStep(pairs, 0, spec, count, done, current, first);
  }

  lemma {:induction false} FieldsDiffer(order: seq<int>, f: Fragment, spec: GroupSpec, count: int,
                                        members: seq<Fragment>, current: Fragment, rest: seq<Fragment>, post: seq<Pair>,
                                        outer: set<int>, sep: byte)
    requires (forall t :: t in order ==> t in f.fields && t != spec.firstTag) && Ordered(order)
    requires Headed(f, spec, sep) && Leads(f, spec.firstTag) && !FieldsLead(order, f, spec)
    requires AllHeaded(rest, spec, sep)
    requires Separate(spec, outer) && Follows(post, outer)
    requires |members| < count
    ensures var pairs := PairsFor(OrderFields(order, f)) + (PairsFor(MembersFields(rest)) + post);
      Differs(GroupLoop(pairs, spec, count, members, Some(current)), |members|, f)
    decreases f, 0, |order|
  {
    var t, behind := order[0], PairsFor(MembersFields(rest)) + post;
    assert t in order;
    FieldShape(t, f, spec, sep);
    var v := f.fields[t];
    if t !in spec.nestedGroups {
      TextStep(order, f, spec, count, members, current, behind);
      FieldsDiffer(order[1..], f, spec, count, members, current.Set(t, v.text), rest, post, outer, sep);
    } else if GroupLeads(v, spec.nestedGroups[t]) {
      ShapesFollow(rest, spec, post, outer, sep);
      LeadingStep(order, f, spec, count, members, current, behind, outer, sep);
      FieldsDiffer(order[1..], f, spec, count, members, current.SetGroup(t, v), rest, post, outer, sep);
    } else {
      NestedFieldDiffers(order, f, spec, count, members, current, rest, post, outer, sep);
    }
  }

  /** What a member holds under a tag that is not FirstTag. */
  lemma {:induction false} FieldShape(t: int, f: Fragment, spec: GroupSpec, sep: byte)
    requires MemberShape(f, spec, sep) && t in f.fields && t != spec.firstTag
    ensures t in spec.tags && MIN_INT64 <= t <= MAX_INT64
    ensures if t in spec.nestedGroups then GroupShape(f.fields[t], t, spec.nestedGroups[t], sep) && f.fields[t].Group?
            else f.fields[t].Text?
  {
  }

  /** A group that leads is read back inside the member. */
  lemma {:induction false} LeadingStep(order: seq<int>, f: Fragment, spec: GroupSpec, count: int,
                                       members: seq<Fragment>, current: Fragment, behind: seq<Pair>,
                                       outer: set<int>, sep: byte)
    requires order != [] && (forall t :: t in order ==> t in f.fields)
    requires order[0] != spec.firstTag && order[0] in f.fields
    requires MemberShape(f, spec, sep) && order[0] in spec.nestedGroups && f.fields[order[0]].Group?
    requires GroupLeads(f.fields[order[0]], spec.nestedGroups[order[0]])
    requires Separate(spec, outer) && Follows(behind, outer + Own(spec)) && |members| < count
    ensures GroupLoop(PairsFor(OrderFields(order, f)) + behind, spec, count, members, Some(current)) ==
      GroupLoop(PairsFor(OrderFields(order[1..], f)) + behind, spec, count, members,
                Some(current.SetGroup(order[0], f.fields[order[0]])))
  {
    var t := order[0];
    FieldsFollow(order[1..], f, behind, outer + Own(spec));
    NestedStep(order, f, spec, count, members, current, behind);
    LeadingGroup(f.fields[t], t, spec.nestedGroups[t], PairsFor(OrderFields(order[1..], f)) + behind,
                 outer + Own(spec), sep);
  }

  /** The group that is not read back comes next. */
  lemma {:induction false} NestedFieldDiffers(order: seq<int>, f: Fragment, spec: GroupSpec, count: int,
                                              members: seq<Fragment>, current: Fragment, rest: seq<Fragment>,
                                              post: seq<Pair>, outer: set<int>, sep: byte)
    requires order != [] && (forall t :: t in order ==> t in f.fields && t != spec.firstTag) && Ordered(order)
    requires Headed(f, spec, sep) && Leads(f, spec.firstTag) && order[0] in spec.nestedGroups
    requires AllHeaded(rest, spec, sep) && order[0] in order && f.fields[order[0]].Group?
    requires !GroupLeads(f.fields[order[0]], spec.nestedGroups[order[0]])
    requires Separate(spec, outer) && Follows(post, outer)
    requires |members| < count
    ensures var pairs := PairsFor(OrderFields(order, f)) + (PairsFor(MembersFields(rest)) + post);
      Differs(GroupLoop(pairs, spec, count, members, Some(current)), |members|, f)
    decreases f, 0, 0
  {
    var t, behind := order[0], PairsFor(MembersFields(rest)) + post;
    ShapesFollow(rest, spec, post, outer, sep);
    FieldsFollow(order[1..], f, behind, outer + Own(spec));
    NestedStep(order, f, spec, count, members, current, behind);
    var v, tail := f.fields[t], PairsFor(OrderFields(order[1..], f)) + behind;
    CountedDiffers(v, t, spec.nestedGroups[t], tail, outer + Own(spec), sep);
    CountedEnds(v, t, spec.nestedGroups[t], tail, outer + Own(spec), sep);
    var r := ParseCounted(PairsFor(MembersFields(v.members)) + tail, spec.nestedGroups[t], Itoa(|v.members|));
    if r.Some? {
      WrongStays(order, f, spec, count, members, current, r.value, rest, post, outer, sep);
    }
  }

  lemma {:induction false} LeadingGroup(v: Value, tag: int, spec: GroupSpec, post: seq<Pair>, outer: set<int>,
                                        sep: byte)
    requires GroupShape(v, tag, spec, sep) && GroupLeads(v, spec)
    requires Separate(spec, outer) && Follows(post, outer)
    ensures ParseCounted(PairsFor(MembersFields(v.members)) + post, spec, Itoa(|v.members|)) ==
      Some(GroupResult(post, v.members))
    ensures v == Group(tag, spec.firstTag, v.members)
  {
    GroupConformsIff(v, tag, spec, sep);
    ParseNested(v, tag, spec, post, outer, sep);
  }

  /** A nested group that was read wrongly shows in the member that holds it. */
  lemma {:induction false} WrongStays(order: seq<int>, f: Fragment, spec: GroupSpec, count: int, members: seq<Fragment>,
                                      current: Fragment, sub: GroupResult, rest: seq<Fragment>, post: seq<Pair>,
                                      outer: set<int>, sep: byte)
    requires order != [] && (forall t :: t in order ==> t in f.fields && t != spec.firstTag) && Ordered(order)
    requires Headed(f, spec, sep) && Leads(f, spec.firstTag) && order[0] in spec.nestedGroups
    requires AllHeaded(rest, spec, sep)
    requires Separate(spec, outer) && Follows(post, outer)
    requires |members| < count
    requires var tail := PairsFor(OrderFields(order[1..], f)) + (PairsFor(MembersFields(rest)) + post);
      sub.rest == tail || Foreign(sub.rest, outer + Own(spec))
    requires order[0] in order && f.fields[order[0]].Group? && sub.members != f.fields[order[0]].members
    ensures var t := order[0];
      var next := current.SetGroup(t, Group(t, spec.nestedGroups[t].firstTag, sub.members));
      Differs(GroupLoop(sub.rest, spec, count, members, Some(next)), |members|, f)
  {
    var t, behind := order[0], PairsFor(MembersFields(rest)) + post;
    var x := Group(t, spec.nestedGroups[t].firstTag, sub.members);
    var next := current.SetGroup(t, x);
    if Foreign(sub.rest, outer + Own(spec)) {
      StopShows(sub.rest, spec, count, members, next, t, x);
    } else {
      forall c: Fragment | t in c.fields && c.fields[t] == x
        ensures Shows(GroupLoop(behind, spec, count, members, Some(c)), |members|, t, x)
      {
        MembersLeave(rest, spec, count, members, c, post, outer, sep, t, x);
      }
      forall u | u in order[1..] ensures u in f.fields && u != spec.firstTag && u != t {
        var j :| 0 <= j < |order[1..]| && order[1..][j] == u;
        assert order[j + 1] in order && Before(order[0], order[j + 1]);
      }
      ShapesFollow(rest, spec, post, outer, sep);
      FieldsLeave(order[1..], f, spec, count, members, next, behind, outer, sep, t, x);
    }
  }

  /**
   A printed group is read back exactly if FirstTag leads in each of its members and in the
   members of all groups inside it.
   */
  lemma {:induction false} GroupReadBackIff(v: Value, tag: int, spec: GroupSpec, post: seq<Pair>, outer: set<int>,
                                            sep: byte)
    requires GroupShape(v, tag, spec, sep) && Separate(spec, outer) && Follows(post, outer)
    ensures ParseCounted(PairsFor(MembersFields(v.members)) + post, spec, Itoa(|v.members|)) ==
              Some(GroupResult(post, v.members))
            <==> GroupLeads(v, spec)
  {
    if GroupLeads(v, spec) {
      LeadingGroup(v, tag, spec, post, outer, sep);
    } else {
      CountedDiffers(v, tag, spec, post, outer, sep);
    }
  }

  /** Three fields in two members: FirstTag 6 comes behind tag 5 in the second one, and 5 ends up in the first one. */
  lemma {:induction false} GarbledExample(a: bytes, b: bytes, x: bytes)
    ensures var spec := GroupSpec(6, {}, {5, 6}, map[]);
      var pairs := [Pair(Itoa(6), a), Pair(Itoa(5), x), Pair(Itoa(6), b)];
      ParseCounted(pairs, spec, Itoa(2)) ==
        Some(GroupResult([], [EMPTY.Set(6, a).Set(5, x), EMPTY.Set(6, b)]))
  {
    var spec := GroupSpec(6, {}, {5, 6}, map[]);
    var pairs := [Pair(Itoa(6), a), Pair(Itoa(5), x), Pair(Itoa(6), b)];
    AtoiItoa(2);
    AtoiItoa(5);
    AtoiItoa(6);
    assert pairs[0..] == pairs && pairs[3..] == [];
    var first, second := EMPTY.Set(6, a), EMPTY.Set(6, b);
    GroupStep(pairs, 0, spec, 2, [], None, 6);
    assert 5 in spec.tags - spec.nestedGroups.Keys;
    GroupStep(pairs, 1, spec, 2, [], Some(first), 5);
    GroupStep(pairs, 2, spec, 2, [], Some(first.Set(5, x)), 6);
    assert Close([], Some(first.Set(5, x))) == [first.Set(5, x)];
    GroupStop(pairs, 3, spec, 2, [first.Set(5, x)], Some(second));
    assert [first.Set(5, x)] + [second] == [first.Set(5, x), second];
  }

  // ---- whole messages ----

  /** Tags that were stored stay. */
  lemma {:induction false} MessageExtends(pairs: seq<Pair>, spec: MessageSpec, msg: Fragment)
    ensures var r := MessageLoop(pairs, spec, msg);
      r.Some? ==> forall t :: t in msg.fields ==> t in r.value.fields
    decreases |pairs|
  {
    if pairs == [] {
    } else {
      var tag, value := Atoi(pairs[0].tag), pairs[0].value;
      if tag.None? {
        MessageExtends(pairs[1..], spec, msg);
      } else if tag.value in spec.groups {
        var group := spec.groups[tag.value];
        var r := ParseCounted(pairs[1..], group, value);
        if r.Some? {
          MessageExtends(r.value.rest, spec,
                         msg.SetGroup(tag.value, Group(tag.value, group.firstTag, r.value.members)));
        }
      } else {
        MessageExtends(pairs[1..], spec, msg.Set(tag.value, value));
      }
    }
  }

  /** The tag of the next pair is stored. */
  lemma {:induction false} MessageTakes(pairs: seq<Pair>, spec: MessageSpec, msg: Fragment, tag: int)
    requires pairs != [] && Atoi(pairs[0].tag) == Some(tag)
    ensures var r := MessageLoop(pairs, spec, msg);
      r.Some? ==> tag in r.value.fields
  {
    if tag in spec.groups {
      var group := spec.groups[tag];
      var r := ParseCounted(pairs[1..], group, pairs[0].value);
      if r.Some? {
        MessageExtends(r.value.rest, spec, msg.SetGroup(tag, Group(tag, group.firstTag, r.value.members)));
      }
    } else {
      MessageExtends(pairs[1..], spec, msg.Set(tag, pairs[0].value));
    }
  }

  lemma {:induction false} TextTurn(order: seq<int>, m: Fragment, spec: MessageSpec, msg: Fragment)
    requires order != [] && (forall t :: t in order ==> t in m.fields) && m.Get(order[0]).Some?
    requires MIN_INT64 <= order[0] <= MAX_INT64 && order[0] !in spec.groups
    ensures MessageLoop(PairsFor(OrderFields(order, m)), spec, msg) ==
      MessageLoop(PairsFor(OrderFields(order[1..], m)), spec, msg.Set(order[0], m.fields[order[0]].text))
  {
    var pairs, tail := PairsFor(OrderFields(order, m)), PairsFor(OrderFields(order[1..], m));
    assert pairs + [] == pairs && tail + [] == tail;
    AtoiItoa(order[0]);
    TextFieldsSplit(order, m, []);
  }

  lemma {:induction false} GroupTurn(order: seq<int>, m: Fragment, spec: MessageSpec, msg: Fragment)
    requires order != [] && (forall t :: t in order ==> t in m.fields)
    requires order[0] in m.fields && m.fields[order[0]].Group?
    requires MIN_INT64 <= order[0] <= MAX_INT64 && order[0] in spec.groups
    ensures var t, v := order[0], m.fields[order[0]];
      var r := ParseCounted(PairsFor(MembersFields(v.members)) + PairsFor(OrderFields(order[1..], m)), spec.groups[t],
                            Itoa(|v.members|));
      MessageLoop(PairsFor(OrderFields(order, m)), spec, msg) ==
        if r.None? then None
        else MessageLoop(r.value.rest, spec, msg.SetGroup(t, Group(t, spec.groups[t].firstTag, r.value.members)))
  {
    var pairs, tail := PairsFor(OrderFields(order, m)), PairsFor(OrderFields(order[1..], m));
    assert pairs + [] == pairs && tail + [] == tail;
    AtoiItoa(order[0]);
    GroupFieldsSplit(order, m, []);
  }

  /** The message read so far has a tag that m has not, or another value under it. */
  predicate WrongAt(msg: Fragment, m: Fragment, t: int) {
    t in msg.fields && !(t in m.fields && msg.fields[t] == m.fields[t])
  }

  /** What a nested group leaves over becomes a tag that the message does not have. */
  lemma {:induction false} LeftoverDiffers(pairs: seq<Pair>, m: Fragment, spec: MessageSpec, msg: Fragment)
    requires Foreign(pairs, m.fields.Keys)
    ensures MessageLoop(pairs, spec, msg) != Some(m)
  {
    MessageTakes(pairs, spec, msg, Atoi(pairs[0].tag).value);
  }

  lemma {:induction false} WrongTagStays(order: seq<int>, m: Fragment, spec: MessageSpec, msg: Fragment, t: int,
                                         sep: byte)
    requires (forall u :: u in order ==> u in m.fields) && t !in order
    requires MessageShape(m, spec, sep) && WrongAt(msg, m, t)
    ensures MessageLoop(PairsFor(OrderFields(order, m)), spec, msg) != Some(m)
    decreases |order|
  {
    if order == [] {
    } else {
      var u := order[0];
      assert u in order && u != t;
      if u in spec.groups {
        var v, group, tail := m.fields[u], spec.groups[u], PairsFor(OrderFields(order[1..], m));
        var r := ParseCounted(PairsFor(MembersFields(v.members)) + tail, group, Itoa(|v.members|));
        GroupTurn(order, m, spec, msg);
        TailFollows(order[1..], m);
        CountedEnds(v, u, group, tail, m.fields.Keys, sep);
        if r.Some? {
          var next := msg.SetGroup(u, Group(u, group.firstTag, r.value.members));
          if r.value.rest == tail {
            WrongTagStays(order[1..], m, spec, next, t, sep);
          } else {
            LeftoverDiffers(r.value.rest, m, spec, next);
          }
        }
      } else {
        TextTurn(order, m, spec, msg);
        WrongTagStays(order[1..], m, spec, msg.Set(u, m.fields[u].text), t, sep);
      }
    }
  }

  lemma {:induction false} TailFollows(order: seq<int>, m: Fragment)
    requires (forall u :: u in order ==> u in m.fields) && TagsFitInt(m)
    ensures Follows(PairsFor(OrderFields(order, m)), m.fields.Keys)
  {
    FieldsFollow(order, m, [], m.fields.Keys);
    var pairs := PairsFor(OrderFields(order, m));
    assert pairs + [] == pairs;
  }

  /** The groups of m under the listed tags lead. */
  ghost predicate GroupsLead(order: seq<int>, m: Fragment, spec: MessageSpec)
    requires forall t :: t in order ==> t in m.fields
  {
    forall t :: t in order && t in spec.groups && m.fields[t].Group? ==> GroupLeads(m.fields[t], spec.groups[t])
  }

  lemma {:induction false} MessageDiffers(order: seq<int>, m: Fragment, spec: MessageSpec, msg: Fragment, sep: byte)
    requires (forall t :: t in order ==> t in m.fields) && Ordered(order)
    requires MessageShape(m, spec, sep) && !GroupsLead(order, m, spec)
    ensures MessageLoop(PairsFor(OrderFields(order, m)), spec, msg) != Some(m)
    decreases |order|
  {
    var t := order[0];
    assert t in order;
    if t !in spec.groups {
      TextTurn(order, m, spec, msg);
      MessageDiffers(order[1..], m, spec, msg.Set(t, m.fields[t].text), sep);
    } else if GroupLeads(m.fields[t], spec.groups[t]) {
      LeadingTurn(order, m, spec, msg, sep);
      MessageDiffers(order[1..], m, spec, msg.SetGroup(t, m.fields[t]), sep);
    } else {
      WrongGroup(order, m, spec, msg, sep);
    }
  }

  /** A group that leads is read back inside the message. */
  lemma {:induction false} LeadingTurn(order: seq<int>, m: Fragment, spec: MessageSpec, msg: Fragment, sep: byte)
    requires order != [] && (forall t :: t in order ==> t in m.fields) && order[0] in m.fields
    requires MessageShape(m, spec, sep) && order[0] in spec.groups
    requires m.fields[order[0]].Group? && GroupLeads(m.fields[order[0]], spec.groups[order[0]])
    ensures MessageLoop(PairsFor(OrderFields(order, m)), spec, msg) ==
      MessageLoop(PairsFor(OrderFields(order[1..], m)), spec, msg.SetGroup(order[0], m.fields[order[0]]))
  {
    var t := order[0];
    GroupTurn(order, m, spec, msg);
    TailFollows(order[1..], m);
    LeadingGroup(m.fields[t], t, spec.groups[t], PairsFor(OrderFields(order[1..], m)), m.fields.Keys, sep);
  }

  lemma {:induction false} WrongGroup(order: seq<int>, m: Fragment, spec: MessageSpec, msg: Fragment, sep: byte)
    requires order != [] && (forall t :: t in order ==> t in m.fields) && Ordered(order) && order[0] in m.fields
    requires MessageShape(m, spec, sep) && order[0] in spec.groups
    requires m.fields[order[0]].Group? && !GroupLeads(m.fields[order[0]], spec.groups[order[0]])
    ensures MessageLoop(PairsFor(OrderFields(order, m)), spec, msg) != Some(m)
  {
    var t, tail := order[0], PairsFor(OrderFields(order[1..], m));
    var v, group := m.fields[t], spec.groups[t];
    GroupTurn(order, m, spec, msg);
    TailFollows(order[1..], m);
    CountedDiffers(v, t, group, tail, m.fields.Keys, sep);
    CountedEnds(v, t, group, tail, m.fields.Keys, sep);
    var r := ParseCounted(PairsFor(MembersFields(v.members)) + tail, group, Itoa(|v.members|));
    if r.Some? {
      var next := msg.SetGroup(t, Group(t, group.firstTag, r.value.members));
      if r.value.rest == tail {
        NotBehind(order);
        WrongTagStays(order[1..], m, spec, next, t, sep);
      } else {
        LeftoverDiffers(r.value.rest, m, spec, next);
      }
    }
  }

  /**
   The exact condition of the nested round trip: a message of the right shape is parsed back
   into itself if and only if FirstTag leads in every member of every group, at every depth.
   */
  lemma {:induction false} RoundTripIff(codec: Codec, m: Fragment, spec: MessageSpec)
    requires GoodSeparator(codec.Sep()) && MessageShape(m, spec, codec.Sep())
    requires codec.MessageSpecFor(PairsFor(FragmentFields(m))) == Some(spec)
    ensures codec.Parsed(Render(FragmentFields(m), codec.Sep())) == Some(m) <==> MessageLeads(m, spec)
  {
    if MessageLeads(m, spec) {
      ConformsIff(m, spec, codec.Sep());
      NestedRoundTrip(codec, m, spec);
    } else {
      var order := SortedTags(m.fields.Keys);
      SortedTagsListTags(m.fields.Keys);
      MessageFieldsClean(order, m, spec, codec.Sep());
      TokensOfRender(FragmentFields(m), codec.Sep());
      ParsedNested(codec, Render(FragmentFields(m), codec.Sep()), PairsFor(FragmentFields(m)), spec);
      MessageDiffers(order, m, spec, EMPTY, codec.Sep());
    }
  }
}
