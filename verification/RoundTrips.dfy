/** Parsing undoes printing: flat messages under any codec, nested ones under a codec that knows their groups. */
module RoundTrips {
  import opened Wrappers
  import opened ByteStrings
  import opened Collections
  import opened Tags
  import opened Fragments
  import opened Specs
  import opened Codecs

  // ---- tokens ----

  /** The pairs that stand for a list of fields. */
  function PairsFor(fields: seq<Field>): (pairs: seq<Pair>)
    ensures |pairs| == |fields|
  {
    seq(|fields|, i requires 0 <= i < |fields| => Pair(Itoa(fields[i].tag), fields[i].text))
  }

  lemma {:induction false} PairsForConcat(a: seq<Field>, b: seq<Field>)
    ensures PairsFor(a + b) == PairsFor(a) + PairsFor(b)
  {
  }

  /** A separator that cannot occur in a printed tag or count. */
  predicate GoodSeparator(sep: byte) {
    !IsDigit(sep) && sep != MINUS && sep != EQUALS
  }

  predicate CleanFields(fields: seq<Field>, sep: byte) {
    forall i :: 0 <= i < |fields| ==> sep !in fields[i].text
  }

  /** Tokenising what was rendered gives the fields back, whatever '=' signs the values hold. */
  lemma {:induction false} TokensOfRender(fields: seq<Field>, sep: byte)
    requires GoodSeparator(sep) && CleanFields(fields, sep)
    ensures Tokens(Render(fields, sep), sep) == Some(PairsFor(fields))
  {
    if fields == [] {
      assert Split([], sep) == [[]];
      assert PairsOf([[]]) == Some([]);
    } else {
      TokensOfRender(fields[1..], sep);
      FirstToken(fields, sep);
    }
  }

  lemma {:induction false} FirstToken(fields: seq<Field>, sep: byte)
    requires GoodSeparator(sep) && CleanFields(fields, sep) && fields != []
    requires Tokens(Render(fields[1..], sep), sep) == Some(PairsFor(fields[1..]))
    ensures Tokens(Render(fields, sep), sep) == Some(PairsFor(fields))
  {
    var field := fields[0];
    var text, rest := Itoa(field.tag) + [EQUALS] + field.text, Render(fields[1..], sep);
    assert sep !in text;
    assert Render(fields, sep) == text + [sep] + rest;
    SplitCons(text, sep, rest);
    FirstAndRest(text, Split(rest, sep));
    PairOfField(field);
    PairsForCons(fields);
  }

  lemma {:induction false} PairsForCons(fields: seq<Field>)
    requires fields != []
    ensures PairsFor(fields) == [Pair(Itoa(fields[0].tag), fields[0].text)] + PairsFor(fields[1..])
  {
  }

  lemma {:induction false} PairOfField(field: Field)
    ensures PairOf(Itoa(field.tag) + [EQUALS] + field.text) == Some(Pair(Itoa(field.tag), field.text))
  {
    var text := Itoa(field.tag) + [EQUALS] + field.text;
    IndexByteAt(Itoa(field.tag), EQUALS, field.text);
    assert text[..|Itoa(field.tag)|] == Itoa(field.tag);
    assert text[|Itoa(field.tag)| + 1..] == field.text;
  }

  // ---- flat messages ----

  predicate TagsFitInt(f: Fragment) {
    forall t :: t in f.fields ==> MIN_INT64 <= t <= MAX_INT64
  }

  predicate CleanText(v: Value, sep: byte) {
    v.Text? && sep !in v.text
  }

  /** Every value is a string without the separator. */
  predicate FlatAndClean(f: Fragment, sep: byte) {
    TagsFitInt(f) && forall t :: t in f.fields ==> CleanText(f.fields[t], sep)
  }

  lemma {:induction false} FlatFieldsClean(order: seq<int>, f: Fragment, sep: byte)
    requires forall t :: t in order ==> t in f.fields && FlatAndClean(f, sep)
    ensures CleanFields(OrderFields(order, f), sep)
  {
    if order == [] {
    } else {
      FlatFieldsClean(order[1..], f, sep);
    }
  }

  lemma {:induction false} ParseFlatOrder(order: seq<int>, f: Fragment, sep: byte, msg: Fragment)
    requires forall t :: t in order ==> t in f.fields && FlatAndClean(f, sep)
    ensures ParseFlat(PairsFor(OrderFields(order, f)), msg).fields == Copy(msg.fields, order, f.fields)
  {
    if order == [] {
    } else {
      var t := order[0];
      var field := Field(t, f.fields[t].text);
      var rest := OrderFields(order[1..], f);
      assert OrderFields(order, f) == [field] + rest;
      PairsForConcat([field], rest);
      AtoiItoa(t);
      assert (PairsFor([field]) + PairsFor(rest))[1..] == PairsFor(rest);
      ParseFlatOrder(order[1..], f, sep, msg.Set(t, field.text));
    }
  }

  lemma {:induction false} ParsedFlat(codec: Codec, buf: bytes, pairs: seq<Pair>)
    requires Tokens(buf, codec.Sep()) == Some(pairs)
    requires codec.MessageSpecFor(pairs).None?
    ensures codec.Parsed(buf) == Some(ParseFlat(pairs, EMPTY))
  {
  }

  /** Any codec that knows no groups for the message gives a flat message back. */
  lemma {:induction false} FlatRoundTrip(codec: Codec, f: Fragment)
    requires GoodSeparator(codec.Sep()) && FlatAndClean(f, codec.Sep())
    requires codec.MessageSpecFor(PairsFor(FragmentFields(f))).None?
    ensures codec.Parsed(Render(FragmentFields(f), codec.Sep())) == Some(f)
  {
    var order := SortedTags(f.fields.Keys);
    FlatFieldsClean(order, f, codec.Sep());
    TokensOfRender(FragmentFields(f), codec.Sep());
    ParsedFlat(codec, Render(FragmentFields(f), codec.Sep()), PairsFor(FragmentFields(f)));
    ParseFlatOrder(order, f, codec.Sep(), EMPTY);
    CopyWhole(f.fields, order);
  }

  // ---- nested groups ----

  /** The tags that belong to a member of a group itself. */
  function Own(spec: GroupSpec): set<int> {
    spec.tags + {spec.firstTag}
  }

  /** No tag of the group, or of a group inside it, is among the tags that may follow it. */
  ghost predicate Separate(spec: GroupSpec, outer: set<int>)
    decreases spec
  {
    && Own(spec) !! outer
    && forall n :: n in spec.nestedGroups ==> Separate(spec.nestedGroups[n], outer + Own(spec))
  }

  /** A member starts with its FirstTag, and holds strings and groups where its spec says so. */
  ghost predicate MemberConforms(f: Fragment, spec: GroupSpec, sep: byte)
    decreases f, 0
  {
    && f.Get(spec.firstTag).Some?
    && TagsFitInt(f)
    && forall t :: t in f.fields ==>
      && (t == spec.firstTag || (t in spec.tags && Before(spec.firstTag, t)))
      && if t != spec.firstTag && t in spec.nestedGroups
         then GroupConforms(f.fields[t], t, spec.nestedGroups[t], sep)
         else CleanText(f.fields[t], sep)
  }

  ghost predicate GroupConforms(v: Value, tag: int, spec: GroupSpec, sep: byte)
    decreases v, 0
  {
    && v.Group?
    && v.numberTag == tag
    && v.firstTag == spec.firstTag
    && |v.members| <= MAX_INT64
    && forall i :: 0 <= i < |v.members| ==> MemberConforms(v.members[i], spec, sep)
  }

  /** A member with strings and groups where its spec says so, with or without FirstTag, printed in whatever order. */
  ghost predicate MemberShape(f: Fragment, spec: GroupSpec, sep: byte)
    decreases f, 0
  {
    && TagsFitInt(f)
    && forall t :: t in f.fields ==>
      && (t == spec.firstTag || t in spec.tags)
      && if t != spec.firstTag && t in spec.nestedGroups
         then GroupShape(f.fields[t], t, spec.nestedGroups[t], sep)
         else CleanText(f.fields[t], sep)
  }

  ghost predicate GroupShape(v: Value, tag: int, spec: GroupSpec, sep: byte)
    decreases v, 0
  {
    && v.Group?
    && v.numberTag == tag
    && v.firstTag == spec.firstTag
    && |v.members| <= MAX_INT64
    && forall i :: 0 <= i < |v.members| ==> MemberShape(v.members[i], spec, sep)
  }

  /** No tag of the member is printed before FirstTag. */
  ghost predicate Leads(f: Fragment, first: int) {
    forall t :: t in f.fields && t != first ==> Before(first, t)
  }

  /** The member has FirstTag and prints it first, and so do the members of its groups at every depth. */
  ghost predicate MemberLeads(f: Fragment, spec: GroupSpec)
    decreases f, 0
  {
    && spec.firstTag in f.fields
    && Leads(f, spec.firstTag)
    && forall t :: t in f.fields && t != spec.firstTag && t in spec.nestedGroups && f.fields[t].Group? ==>
         GroupLeads(f.fields[t], spec.nestedGroups[t])
  }

  ghost predicate GroupLeads(v: Value, spec: GroupSpec)
    requires v.Group?
    decreases v, 0
  {
    forall i :: 0 <= i < |v.members| ==> MemberLeads(v.members[i], spec)
  }

  lemma {:induction false} MemberConformsIff(f: Fragment, spec: GroupSpec, sep: byte)
    ensures MemberConforms(f, spec, sep) <==> MemberShape(f, spec, sep) && MemberLeads(f, spec)
    decreases f, 0
  {
    forall t | t in f.fields && t != spec.firstTag && t in spec.nestedGroups && f.fields[t].Group?
      ensures GroupConforms(f.fields[t], t, spec.nestedGroups[t], sep) <==>
        GroupShape(f.fields[t], t, spec.nestedGroups[t], sep) && GroupLeads(f.fields[t], spec.nestedGroups[t])
    {
      GroupConformsIff(f.fields[t], t, spec.nestedGroups[t], sep);
    }
  }

  lemma {:induction false} GroupConformsIff(v: Value, tag: int, spec: GroupSpec, sep: byte)
    requires v.Group?
    ensures GroupConforms(v, tag, spec, sep) <==> GroupShape(v, tag, spec, sep) && GroupLeads(v, spec)
    decreases v, 0
  {
    forall i | 0 <= i < |v.members|
      ensures MemberConforms(v.members[i], spec, sep) <==>
        MemberShape(v.members[i], spec, sep) && MemberLeads(v.members[i], spec)
    {
      MemberConformsIff(v.members[i], spec, sep);
    }
  }

  /** Nothing follows, or a pair with one of the given tags does. */
  predicate Follows(post: seq<Pair>, outer: set<int>) {
    post == [] || (Atoi(post[0].tag).Some? && Atoi(post[0].tag).value in outer)
  }

  lemma {:induction false} FieldsFollow(order: seq<int>, f: Fragment, post: seq<Pair>, outer: set<int>)
    requires forall t :: t in order ==> t in f.fields
    requires TagsFitInt(f) && (forall t :: t in f.fields ==> t in outer) && Follows(post, outer)
    ensures Follows(PairsFor(OrderFields(order, f)) + post, outer)
  {
    if order == [] {
      assert PairsFor([]) + post == post;
    } else {
      var t := order[0];
      assert t in order;
      AtoiItoa(t);
    }
  }

  lemma {:induction false} MembersFollow(members: seq<Fragment>, spec: GroupSpec, post: seq<Pair>,
                                         outer: set<int>, sep: byte)
    requires forall i :: 0 <= i < |members| ==> MemberConforms(members[i], spec, sep)
    requires Follows(post, outer)
    ensures Follows(PairsFor(MembersFields(members)) + post, outer + Own(spec))
  {
    if members == [] {
      assert PairsFor([]) + post == post;
    } else {
      var f := members[0];
      var rest := PairsFor(MembersFields(members[1..])) + post;
      PairsForConcat(FragmentFields(f), MembersFields(members[1..]));
      FirstTagLeads(f, spec, sep);
      AtoiItoa(spec.firstTag);
    }
  }

  lemma {:induction false} FirstTagLeads(f: Fragment, spec: GroupSpec, sep: byte)
    requires MemberConforms(f, spec, sep)
    ensures spec.firstTag in f.fields
    ensures SortedTags(f.fields.Keys) == [spec.firstTag] + SortedTags(f.fields.Keys - {spec.firstTag})
    ensures FragmentFields(f) == [Field(spec.firstTag, f.fields[spec.firstTag].text)]
                                 + OrderFields(SortedTags(f.fields.Keys - {spec.firstTag}), f)
  {
    var first, keys := spec.firstTag, f.fields.Keys;
    var rest := SortedTags(keys - {first});
    SortedTagsListTags(keys - {first});
    assert forall t :: t in rest ==> Before(first, t);
    assert Ordered([first] + rest);
    assert Elements([first] + rest) == keys;
    SortedTagsAre(keys, [first] + rest);
    assert ([first] + rest)[1..] == rest;
    assert ValueFields(first, f.fields[first]) == [Field(first, f.fields[first].text)];
  }

  lemma {:induction false} TextStep(order: seq<int>, f: Fragment, spec: GroupSpec, count: int, members: seq<Fragment>,
                                    current: Fragment, post: seq<Pair>)
    requires order != [] && (forall t :: t in order ==> t in f.fields) && f.Get(order[0]).Some?
    requires MIN_INT64 <= order[0] <= MAX_INT64 && |members| < count
    requires order[0] != spec.firstTag && order[0] in spec.tags && order[0] !in spec.nestedGroups
    ensures GroupLoop(PairsFor(OrderFields(order, f)) + post, spec, count, members, Some(current)) ==
      GroupLoop(PairsFor(OrderFields(order[1..], f)) + post, spec, count, members,
                Some(current.Set(order[0], f.fields[order[0]].text)))
  {
    var pairs := PairsFor(OrderFields(order, f)) + post;
    assert pairs[0..] == pairs;
    AtoiItoa(order[0]);
    TextFieldsSplit(order, f, post);
    GroupStep(pairs, 0, spec, count, members, Some(current), order[0]);
  }

  lemma {:induction false} NestedStep(order: seq<int>, f: Fragment, spec: GroupSpec, count: int, members: seq<Fragment>,
                                      current: Fragment, post: seq<Pair>)
    requires order != [] && (forall t :: t in order ==> t in f.fields)
    requires order[0] in f.fields && f.fields[order[0]].Group?
    requires MIN_INT64 <= order[0] <= MAX_INT64 && |members| < count
    requires order[0] != spec.firstTag && order[0] in spec.tags && order[0] in spec.nestedGroups
    ensures var t, v := order[0], f.fields[order[0]];
      var r := ParseCounted(PairsFor(MembersFields(v.members)) + (PairsFor(OrderFields(order[1..], f)) + post),
                            spec.nestedGroups[t], Itoa(|v.members|));
      GroupLoop(PairsFor(OrderFields(order, f)) + post, spec, count, members, Some(current)) ==
        if r.None? then None
        else GroupLoop(r.value.rest, spec, count, members,
                       Some(current.SetGroup(t, Group(t, spec.nestedGroups[t].firstTag, r.value.members))))
  {
    var t, v := order[0], f.fields[order[0]];
    var pairs := PairsFor(OrderFields(order, f)) + post;
    assert pairs[0..] == pairs;
    AtoiItoa(t);
    GroupFieldsSplit(order, f, post);
    var r := ParseCounted(PairsFor(MembersFields(v.members)) + (PairsFor(OrderFields(order[1..], f)) + post),
                          spec.nestedGroups[t], Itoa(|v.members|));
    GroupStepNested(pairs, 0, spec, count, members, current, t, r);
  }

  /** Reading the rest of a member behind its FirstTag. */
  lemma {:induction false} ParseRest(order: seq<int>, f: Fragment, spec: GroupSpec, count: int, members: seq<Fragment>,
                                     current: Fragment, post: seq<Pair>, outer: set<int>, sep: byte)
    requires forall t :: t in order ==> t in f.fields && t != spec.firstTag
    requires MemberConforms(f, spec, sep) && Separate(spec, outer) && Follows(post, outer + Own(spec))
    requires |members| < count
    ensures GroupLoop(PairsFor(OrderFields(order, f)) + post, spec, count, members, Some(current))
         == GroupLoop(post, spec, count, members, Some(Fragment(Copy(current.fields, order, f.fields))))
    decreases f, 0, |order|
  {
    if order == [] {
      assert PairsFor([]) + post == post;
    } else {
      var t := order[0];
      assert t in order;
      var v := f.fields[t];
      if t in spec.nestedGroups {
        FieldsFollow(order[1..], f, post, outer + Own(spec));
        NestedStep(order, f, spec, count, members, current, post);
        ParseNested(v, t, spec.nestedGroups[t], PairsFor(OrderFields(order[1..], f)) + post, outer + Own(spec), sep);
      } else {
        TextStep(order, f, spec, count, members, current, post);
      }
      ParseRest(order[1..], f, spec, count, members, Fragment(current.fields[t := v]), post, outer, sep);
    }
  }

  lemma {:induction false} TextFieldsSplit(order: seq<int>, f: Fragment, post: seq<Pair>)
    requires (forall t :: t in order ==> t in f.fields) && order != [] && f.Get(order[0]).Some?
    ensures var pairs := PairsFor(OrderFields(order, f)) + post;
      && pairs[0] == Pair(Itoa(order[0]), f.fields[order[0]].text)
      && pairs[1..] == PairsFor(OrderFields(order[1..], f)) + post
  {
    var first, rest := [Field(order[0], f.fields[order[0]].text)], OrderFields(order[1..], f);
    PairsForConcat(first, rest);
    ConcatAssociative(PairsFor(first), PairsFor(rest), post);
    assert PairsFor(first) == [Pair(Itoa(order[0]), f.fields[order[0]].text)];
    FirstAndRest(Pair(Itoa(order[0]), f.fields[order[0]].text), PairsFor(rest) + post);
  }

  lemma {:induction false} GroupFieldsSplit(order: seq<int>, f: Fragment, post: seq<Pair>)
    requires (forall t :: t in order ==>
      t in f.fields) && order != [] && order[0] in f.fields && f.fields[order[0]].Group?
    ensures var pairs, members := PairsFor(OrderFields(order, f)) + post, f.fields[order[0]].members;
      && pairs[0] == Pair(Itoa(order[0]), Itoa(|members|))
      && pairs[1..] == PairsFor(MembersFields(members)) + (PairsFor(OrderFields(order[1..], f)) + post)
  {
    var members, rest := f.fields[order[0]].members, OrderFields(order[1..], f);
    var count := [Field(order[0], Itoa(|members|))];
    var inner := PairsFor(MembersFields(members));
    PairsForConcat(count + MembersFields(members), rest);
    PairsForConcat(count, MembersFields(members));
    ConcatAssociative(PairsFor(count) + inner, PairsFor(rest), post);
    ConcatAssociative(PairsFor(count), inner, PairsFor(rest) + post);
    assert PairsFor(count) == [Pair(Itoa(order[0]), Itoa(|members|))];
    FirstAndRest(Pair(Itoa(order[0]), Itoa(|members|)), inner + (PairsFor(rest) + post));
  }

  /** A count and the members behind it give the group back. */
  lemma {:induction false} ParseNested(v: Value, tag: int, spec: GroupSpec, post: seq<Pair>, outer: set<int>, sep: byte)
    requires GroupConforms(v, tag, spec, sep) && Separate(spec, outer) && Follows(post, outer)
    ensures ParseCounted(PairsFor(MembersFields(v.members)) + post, spec, Itoa(|v.members|))
         == Some(GroupResult(post, v.members))
    decreases v, 0, 0
  {
    AtoiItoa(|v.members|);
    if v.members == [] {
      assert PairsFor([]) + post == post;
    } else {
      ParseMembers(v.members, spec, |v.members|, [], None, post, outer, sep);
      assert Close([], None) + v.members == v.members;
    }
  }

  /** Reading whole members; current is the member whose end has not been seen yet. */
  lemma {:induction false} ParseMembers(members: seq<Fragment>, spec: GroupSpec, count: int, done: seq<Fragment>,
                                        current: Option<Fragment>, post: seq<Pair>, outer: set<int>, sep: byte)
    requires forall i :: 0 <= i < |members| ==> MemberConforms(members[i], spec, sep)
    requires Separate(spec, outer) && Follows(post, outer)
    requires |Close(done, current)| + |members| == count
    ensures GroupLoop(PairsFor(MembersFields(members)) + post, spec, count, done, current)
         == Some(GroupResult(post, Close(done, current) + members))
    decreases members, 0, 0
  {
    if members == [] {
      assert PairsFor([]) + post == post && post[0..] == post;
      assert Close(done, current) + members == Close(done, current);
      GroupStop(post, 0, spec, count, done, current);
    } else {
      var f := members[0];
      MembersSplit(members, post);
      MembersFollow(members[1..], spec, post, outer, sep);
      ParseMember(f, spec, count, done, current, PairsFor(MembersFields(members[1..])) + post, outer, sep);
      ParseMembers(members[1..], spec, count, Close(done, current), Some(f), post, outer, sep);
      FirstMember(Close(done, current), members);
    }
  }

  lemma {:induction false} MembersSplit(members: seq<Fragment>, post: seq<Pair>)
    requires members != []
    ensures PairsFor(MembersFields(members)) + post ==
      PairsFor(FragmentFields(members[0])) + (PairsFor(MembersFields(members[1..])) + post)
  {
    PairsForConcat(FragmentFields(members[0]), MembersFields(members[1..]));
    ConcatAssociative(PairsFor(FragmentFields(members[0])), PairsFor(MembersFields(members[1..])), post);
  }

  lemma {:induction false} FirstMember(done: seq<Fragment>, members: seq<Fragment>)
    requires members != []
    ensures Close(done, Some(members[0])) + members[1..] == done + members
  {
    ConcatAssociative(done, [members[0]], members[1..]);
    assert [members[0]] + members[1..] == members;
  }

  /** Reading one member: the member before it is closed, and the new one is whole. */
  lemma {:induction false} ParseMember(f: Fragment, spec: GroupSpec, count: int, done: seq<Fragment>,
                                       current: Option<Fragment>, post: seq<Pair>, outer: set<int>, sep: byte)
    requires MemberConforms(f, spec, sep) && Separate(spec, outer) && Follows(post, outer + Own(spec))
    requires |Close(done, current)| < count
    ensures GroupLoop(PairsFor(FragmentFields(f)) + post, spec, count, done, current)
         == GroupLoop(post, spec, count, Close(done, current), Some(f))
    decreases f, 1, 0
  {
    var first := spec.firstTag;
    var rest := SortedTags(f.fields.Keys - {first});
    FirstTagLeads(f, spec, sep);
    var field := Field(first, f.fields[first].text);
    var tail := PairsFor(OrderFields(rest, f)) + post;
    var pairs := PairsFor(FragmentFields(f)) + post;
    PairsForConcat([field], OrderFields(rest, f));
    assert PairsFor([field]) == [Pair(Itoa(first), field.text)];
    ConcatAssociative(PairsFor([field]), PairsFor(OrderFields(rest, f)), post);
    assert pairs[1..] == tail;
    AtoiItoa(first);
    var start := EMPTY.Set(first, field.text);
    assert pairs[0..] == pairs;
    GroupStep(pairs, 0, spec, count, done, current, first);
    ParseRest(rest, f, spec, count, Close(done, current), start, post, outer, sep);
    CopyWhole(f.fields, [first] + rest);
    assert ([first] + rest)[1..] == rest;
    assert map[][first := f.fields[first]] == start.fields;
  }

  /**
   FirstTag must come first: when the first member of a group prints another tag before it,
   the group is read back empty and all its fields are left to the caller.
   */
  lemma {:induction false} FirstTagMustLead(members: seq<Fragment>, spec: GroupSpec, post: seq<Pair>, sep: byte)
    requires 0 < |members| <= MAX_INT64
    requires FragmentFields(members[0]) != [] && FragmentFields(members[0])[0].tag != spec.firstTag
    requires MIN_INT64 <= FragmentFields(members[0])[0].tag <= MAX_INT64
    ensures var pairs := PairsFor(MembersFields(members)) + post;
      ParseCounted(pairs, spec, Itoa(|members|)) == Some(GroupResult(pairs, []))
  {
    var pairs := PairsFor(MembersFields(members)) + post;
    AtoiItoa(|members|);
    AtoiItoa(FragmentFields(members[0])[0].tag);
    assert pairs[0..] == pairs;
    GroupStop(pairs, 0, spec, |members|, [], None);
  }

  // ---- nested messages ----

  /** A message whose groups are the ones its spec knows, none of them holding a tag the message holds itself. */
  ghost predicate Conforms(m: Fragment, spec: MessageSpec, sep: byte) {
    && TagsFitInt(m)
    && forall t :: t in m.fields ==>
      if t in spec.groups
      then GroupConforms(m.fields[t], t, spec.groups[t], sep) && Separate(spec.groups[t], m.fields.Keys)
      else CleanText(m.fields[t], sep)
  }

  /** The same with members printed in any order. */
  ghost predicate MessageShape(m: Fragment, spec: MessageSpec, sep: byte) {
    && TagsFitInt(m)
    && forall t :: t in m.fields ==>
      if t in spec.groups
      then GroupShape(m.fields[t], t, spec.groups[t], sep) && Separate(spec.groups[t], m.fields.Keys)
      else CleanText(m.fields[t], sep)
  }

  /** FirstTag leads in every member of every group, at every depth. */
  ghost predicate MessageLeads(m: Fragment, spec: MessageSpec) {
    forall t :: t in m.fields && t in spec.groups && m.fields[t].Group? ==> GroupLeads(m.fields[t], spec.groups[t])
  }

  lemma {:induction false} ConformsIff(m: Fragment, spec: MessageSpec, sep: byte)
    ensures Conforms(m, spec, sep) <==> MessageShape(m, spec, sep) && MessageLeads(m, spec)
  {
    forall t | t in m.fields && t in spec.groups && m.fields[t].Group?
      ensures GroupConforms(m.fields[t], t, spec.groups[t], sep) <==>
        GroupShape(m.fields[t], t, spec.groups[t], sep) && GroupLeads(m.fields[t], spec.groups[t])
    {
      GroupConformsIff(m.fields[t], t, spec.groups[t], sep);
    }
  }

  lemma {:induction false} ParseOrder(order: seq<int>, m: Fragment, spec: MessageSpec, msg: Fragment, sep: byte)
    requires forall t :: t in order ==> t in m.fields
    requires Conforms(m, spec, sep)
    ensures MessageLoop(PairsFor(OrderFields(order, m)), spec, msg) == Some(Fragment(Copy(msg.fields, order, m.fields)))
    decreases |order|
  {
    if order == [] {
    } else {
      var t := order[0];
      assert t in order;
      var v := m.fields[t];
      var pairs, tail := PairsFor(OrderFields(order, m)), PairsFor(OrderFields(order[1..], m));
      assert pairs + [] == pairs && tail + [] == tail;
      AtoiItoa(t);
      if t in spec.groups {
        FieldsFollow(order[1..], m, [], m.fields.Keys);
        GroupFieldsSplit(order, m, []);
        ParseNested(v, t, spec.groups[t], tail, m.fields.Keys, sep);
      } else {
        TextFieldsSplit(order, m, []);
      }
      ParseOrder(order[1..], m, spec, Fragment(msg.fields[t := v]), sep);
    }
  }

  lemma {:induction false} ParsedNested(codec: Codec, buf: bytes, pairs: seq<Pair>, spec: MessageSpec)
    requires Tokens(buf, codec.Sep()) == Some(pairs)
    requires codec.MessageSpecFor(pairs) == Some(spec)
    ensures codec.Parsed(buf) == MessageLoop(pairs, spec, EMPTY)
  {
  }

  // No printed field holds the separator, at any depth.

  lemma {:induction false} MessageFieldsClean(order: seq<int>, m: Fragment, spec: MessageSpec, sep: byte)
    requires forall t :: t in order ==> t in m.fields
    requires GoodSeparator(sep) && MessageShape(m, spec, sep)
    ensures CleanFields(OrderFields(order, m), sep)
    decreases |order|
  {
    if order == [] {
    } else {
      var t := order[0];
      assert t in order;
      if t in spec.groups {
        GroupFieldsClean(m.fields[t], t, spec.groups[t], sep);
      }
      MessageFieldsClean(order[1..], m, spec, sep);
    }
  }

  lemma {:induction false} GroupFieldsClean(v: Value, tag: int, spec: GroupSpec, sep: byte)
    requires GoodSeparator(sep) && GroupShape(v, tag, spec, sep)
    ensures CleanFields(ValueFields(tag, v), sep)
    decreases v, 0, 0
  {
    MembersFieldsClean(v.members, spec, sep);
  }

  lemma {:induction false} MembersFieldsClean(members: seq<Fragment>, spec: GroupSpec, sep: byte)
    requires GoodSeparator(sep) && forall i :: 0 <= i < |members| ==> MemberShape(members[i], spec, sep)
    ensures CleanFields(MembersFields(members), sep)
    decreases members, 0, 0
  {
    if members == [] {
    } else {
      MemberFieldsClean(SortedTags(members[0].fields.Keys), members[0], spec, sep);
      MembersFieldsClean(members[1..], spec, sep);
    }
  }

  lemma {:induction false} MemberFieldsClean(order: seq<int>, f: Fragment, spec: GroupSpec, sep: byte)
    requires forall t :: t in order ==> t in f.fields
    requires GoodSeparator(sep) && MemberShape(f, spec, sep)
    ensures CleanFields(OrderFields(order, f), sep)
    decreases f, 0, |order|
  {
    if order == [] {
    } else {
      var t := order[0];
      assert t in order;
      if t != spec.firstTag && t in spec.nestedGroups {
        GroupFieldsClean(f.fields[t], t, spec.nestedGroups[t], sep);
      }
      MemberFieldsClean(order[1..], f, spec, sep);
    }
  }

  // Where the message type is printed.

  /** The tags that are printed before tag 35. */
  function Lead(tags: set<int>): seq<int> {
    (if BEGIN_STRING in tags then [BEGIN_STRING] else []) + (if BODY_LENGTH in tags then [BODY_LENGTH] else [])
  }

  lemma {:induction false} TypeOrder(tags: set<int>)
    requires MSG_TYPE in tags && forall t :: t in tags ==> InRange(t)
    ensures SortedTags(tags) == Lead(tags) + [MSG_TYPE] + SortedTags(tags - {BEGIN_STRING, BODY_LENGTH, MSG_TYPE})
  {
    var others := tags - {BEGIN_STRING, BODY_LENGTH, MSG_TYPE};
    var rest := SortedTags(others);
    SortedTagsListTags(others);
    forall t | t in rest ensures Before(BEGIN_STRING, t) && Before(BODY_LENGTH, t) && Before(MSG_TYPE, t) {
      assert t in others && InRange(t);
    }
    var order := Lead(tags) + [MSG_TYPE] + rest;
    assert Ordered(order);
    assert Elements(order) == tags;
    SortedTagsAre(tags, order);
  }

  lemma {:induction false} FirstMsgTypeAt(pairs: seq<Pair>, i: nat)
    requires i < |pairs| && pairs[i].tag == MSG_TYPE_TEXT
    requires forall j :: 0 <= j < i ==> pairs[j].tag != MSG_TYPE_TEXT
    ensures FirstMsgType(pairs) == Some(pairs[i].value)
  {
    if i == 0 {
    } else {
      FirstMsgTypeAt(pairs[1..], i - 1);
    }
  }

  lemma {:induction false} TypeIsEarly(m: Fragment) returns (i: nat)
    requires m.Get(MSG_TYPE).Some? && forall t :: t in m.fields ==> InRange(t)
    requires forall t :: t in m.fields && (t == BEGIN_STRING || t == BODY_LENGTH) ==> m.fields[t].Text?
    ensures i <= 2 && i < |FragmentFields(m)| && FragmentFields(m)[i] == Field(MSG_TYPE, m.GetOrEmpty(MSG_TYPE))
    ensures forall j :: 0 <= j < i ==> Itoa(FragmentFields(m)[j].tag) != MSG_TYPE_TEXT
  {
    var keys := m.fields.Keys;
    TypeOrder(keys);
    var lead, rest := Lead(keys), SortedTags(keys - {BEGIN_STRING, BODY_LENGTH, MSG_TYPE});
    LeadFields(m);
    OrderFieldsConcat(lead + [MSG_TYPE], rest, m);
    OrderFieldsConcat(lead, [MSG_TYPE], m);
    TextField(MSG_TYPE, m);
    i := |lead|;
    assert forall j :: 0 <= j < i ==> FragmentFields(m)[j] == OrderFields(lead, m)[j];
  }

  lemma {:induction false} LeadFields(m: Fragment)
    requires forall t :: t in m.fields && (t == BEGIN_STRING || t == BODY_LENGTH) ==> m.fields[t].Text?
    ensures forall t :: t in Lead(m.fields.Keys) ==> t in m.fields
    ensures var fields := OrderFields(Lead(m.fields.Keys), m);
      |fields| == |Lead(m.fields.Keys)| && forall j :: 0 <= j < |fields| ==> Itoa(fields[j].tag) != MSG_TYPE_TEXT
  {
    var keys := m.fields.Keys;
    var begin: seq<int> := if BEGIN_STRING in keys then [BEGIN_STRING] else [];
    var length: seq<int> := if BODY_LENGTH in keys then [BODY_LENGTH] else [];
    OrderFieldsConcat(begin, length, m);
    if BEGIN_STRING in keys {
      TextField(BEGIN_STRING, m);
    }
    if BODY_LENGTH in keys {
      TextField(BODY_LENGTH, m);
    }
  }

  /** Parse finds the spec of the message type, which is always among the first three pairs printed. */
  lemma {:induction false} TypeIsFound(codec: Codec, m: Fragment, msgType: bytes)
    requires m.Get(MSG_TYPE) == Some(msgType) && forall t :: t in m.fields ==> InRange(t)
    requires forall t :: t in m.fields && (t == BEGIN_STRING || t == BODY_LENGTH) ==> m.fields[t].Text?
    requires !codec.noGroups && codec.spec.Some?
    ensures codec.MessageSpecFor(PairsFor(FragmentFields(m))) ==
      var specs := codec.spec.value.messagesByType;
      if msgType in specs then Some(specs[msgType]) else None
  {
    var pairs := PairsFor(FragmentFields(m));
    var i := TypeIsEarly(m);
    assert Digits(3) == [51] && Itoa(MSG_TYPE) == MSG_TYPE_TEXT;
    var limit := if |pairs| > TYPE_LOOKUP_LIMIT then TYPE_LOOKUP_LIMIT else |pairs|;
    assert i < limit && pairs[..limit][i] == pairs[i] == Pair(MSG_TYPE_TEXT, msgType);
    FirstMsgTypeAt(pairs[..limit], i);
  }

  /**
   The codec parses what it printed back into the same message, groups at every depth
   included, whenever its dictionary knows the message's type.
   */
  lemma {:induction false} MessageRoundTrip(codec: Codec, m: Fragment, msgType: bytes)
    requires !codec.noGroups && codec.spec.Some? && msgType in codec.spec.value.messagesByType
    requires m.Get(MSG_TYPE) == Some(msgType) && forall t :: t in m.fields ==> InRange(t)
    requires GoodSeparator(codec.Sep()) && Conforms(m, codec.spec.value.messagesByType[msgType], codec.Sep())
    requires forall t :: t in m.fields && (t == BEGIN_STRING || t == BODY_LENGTH) ==> m.fields[t].Text?
    ensures codec.Parsed(Render(FragmentFields(m), codec.Sep())) == Some(m)
  {
    TypeIsFound(codec, m, msgType);
    NestedRoundTrip(codec, m, codec.spec.value.messagesByType[msgType]);
  }

  /** The same for a message spec that is known to be found. */
  lemma {:induction false} NestedRoundTrip(codec: Codec, m: Fragment, spec: MessageSpec)
    requires GoodSeparator(codec.Sep()) && Conforms(m, spec, codec.Sep())
    requires codec.MessageSpecFor(PairsFor(FragmentFields(m))) == Some(spec)
    ensures codec.Parsed(Render(FragmentFields(m), codec.Sep())) == Some(m)
  {
    var order := SortedTags(m.fields.Keys);
    ConformsIff(m, spec, codec.Sep());
    MessageFieldsClean(order, m, spec, codec.Sep());
    TokensOfRender(FragmentFields(m), codec.Sep());
    ParsedNested(codec, Render(FragmentFields(m), codec.Sep()), PairsFor(FragmentFields(m)), spec);
    ParseOrder(order, m, spec, EMPTY, codec.Sep());
    CopyWhole(m.fields, order);
  }
}
