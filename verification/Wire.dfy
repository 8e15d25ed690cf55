/**
 Printing messages: the two serialisers, and the BodyLength and CheckSum that
 ToWire computes before it prints.
 */
module Wire {
  import opened ByteStrings
  import opened Collections
  import opened Tags
  import opened Fragments

  /** strings.Builder */
  class Builder {
    var content: bytes

    constructor ()
      ensures content == []
    {
      content := [];
    }

    method WriteString(s: bytes)
      modifies this
      ensures content == old(content) + s
    {
      content := content + s;
    }

    method WriteByte(b: byte)
      modifies this
      ensures content == old(content) + [b]
    {
      content := content + [b];
    }
  }

  /** sortedTags, with insertion sort for the library sort; the map is ranged over in any order. */
  method SortTags(f: Fragment) returns (order: seq<int>)
    ensures order == SortedTags(f.fields.Keys)
  {
    var left := f.fields.Keys;
    ghost var done: set<int> := {};
    order := [];
    while left != {}
      invariant done + left == f.fields.Keys && done !! left
      invariant Lists(order, done)
      decreases left
    {
      var t := AnyElement(left);
      InsertLists(t, order, done);
      order := Insert(t, order);
      left, done := left - {t}, done + {t};
    }
    assert done == f.fields.Keys;
    SortedTagsAre(f.fields.Keys, order);
  }

  lemma {:induction false} RenderOrderStep(order: seq<int>, i: nat, f: Fragment, sep: byte)
    requires i < |order| && forall t :: t in order ==> t in f.fields
    ensures Render(OrderFields(order[i..], f), sep)
         == Render(ValueFields(order[i], f.fields[order[i]]), sep) + Render(OrderFields(order[i + 1..], f), sep)
  {
    assert order[i..][1..] == order[i + 1..];
    RenderConcat(ValueFields(order[i], f.fields[order[i]]), OrderFields(order[i + 1..], f), sep);
  }

  lemma {:induction false} RenderMembersStep(members: seq<Fragment>, i: nat, sep: byte)
    requires i < |members|
    ensures Render(MembersFields(members[i..]), sep)
         == Render(FragmentFields(members[i]), sep) + Render(MembersFields(members[i + 1..]), sep)
  {
    assert members[i..][1..] == members[i + 1..];
    RenderConcat(FragmentFields(members[i]), MembersFields(members[i + 1..]), sep);
  }

  // ---- the codec's serialiser ----

  /** The loop over the sorted tags of a map, for messages and for group members. */
  method WriteFragment(buf: Builder, f: Fragment, sep: byte)
    modifies buf
    ensures buf.content == old(buf.content) + Render(FragmentFields(f), sep)
    decreases f, 1
  {
    var order := SortTags(f);
    ghost var goal := old(buf.content) + Render(FragmentFields(f), sep);
    for i := 0 to |order|
      invariant buf.content + Render(OrderFields(order[i..], f), sep) == goal
    {
      RenderOrderStep(order, i, f, sep);
      ConcatAssociative(buf.content, Render(ValueFields(order[i], f.fields[order[i]]), sep),
                        Render(OrderFields(order[i + 1..], f), sep));
      WriteVal(buf, order[i], f.fields[order[i]], sep);
    }
  }

  /** writeVal */
  method WriteVal(buf: Builder, tag: int, v: Value, sep: byte)
    modifies buf
    ensures buf.content == old(buf.content) + Render(ValueFields(tag, v), sep)
    decreases v, 0
  {
    match v {
      case Text(text) =>
        WriteField(buf, Field(tag, text), sep);
        assert Render(ValueFields(tag, v), sep) == RenderField(Field(tag, text), sep);
      case Group(_, _, members) =>
        WriteField(buf, Field(tag, Itoa(|members|)), sep);
        ghost var goal := old(buf.content) + Render(ValueFields(tag, v), sep);
        RenderConcat([Field(tag, Itoa(|members|))], MembersFields(members), sep);
        ConcatAssociative(old(buf.content), RenderField(Field(tag, Itoa(|members|)), sep),
                          Render(MembersFields(members), sep));
        assert members[0..] == members;
        for i := 0 to |members|
          invariant buf.content + Render(MembersFields(members[i..]), sep) == goal
        {
          RenderMembersStep(members, i, sep);
          ConcatAssociative(buf.content, Render(FragmentFields(members[i]), sep),
                            Render(MembersFields(members[i + 1..]), sep));
          WriteFragment(buf, members[i], sep);
        }
    }
  }

  /** The four writes that both serialisers use for a tag, '=', a text and a separator. */
  method WriteField(buf: Builder, field: Field, sep: byte)
    modifies buf
    ensures buf.content == old(buf.content) + RenderField(field, sep)
  {
    buf.WriteString(Itoa(field.tag));
    buf.WriteByte(EQUALS);
    buf.WriteString(field.text);
    buf.WriteByte(sep);
  }

  // ---- the built-in serialiser ----

  /** The loop of defaultSerialise. */
  method DefaultWriteFragment(buf: Builder, f: Fragment)
    modifies buf
    ensures buf.content == old(buf.content) + Render(FragmentFields(f), SOH)
    decreases f, 1
  {
    var order := SortTags(f);
    ghost var goal := old(buf.content) + Render(FragmentFields(f), SOH);
    for i := 0 to |order|
      invariant buf.content + Render(OrderFields(order[i..], f), SOH) == goal
    {
      RenderOrderStep(order, i, f, SOH);
      ConcatAssociative(buf.content, Render(ValueFields(order[i], f.fields[order[i]]), SOH),
                        Render(OrderFields(order[i + 1..], f), SOH));
      DefaultWriteField(buf, order[i], f.fields[order[i]]);
    }
  }

  /** writeField, which always separates with SOH. */
  method DefaultWriteField(buf: Builder, tag: int, v: Value)
    modifies buf
    ensures buf.content == old(buf.content) + Render(ValueFields(tag, v), SOH)
    decreases v, 0
  {
    match v {
      case Text(text) =>
        WriteField(buf, Field(tag, text), SOH);
        assert Render(ValueFields(tag, v), SOH) == RenderField(Field(tag, text), SOH);
      case Group(_, _, members) =>
        WriteField(buf, Field(tag, Itoa(|members|)), SOH);
        ghost var goal := old(buf.content) + Render(ValueFields(tag, v), SOH);
        RenderConcat([Field(tag, Itoa(|members|))], MembersFields(members), SOH);
        ConcatAssociative(old(buf.content), RenderField(Field(tag, Itoa(|members|)), SOH),
                          Render(MembersFields(members), SOH));
        assert members[0..] == members;
        for i := 0 to |members|
          invariant buf.content + Render(MembersFields(members[i..]), SOH) == goal
        {
          RenderMembersStep(members, i, SOH);
          ConcatAssociative(buf.content, Render(FragmentFields(members[i]), SOH),
                            Render(MembersFields(members[i + 1..]), SOH));
          DefaultWriteFragment(buf, members[i]);
        }
    }
  }

  // ---- BodyLength and CheckSum ----

  /** The three tags that do not count towards BodyLength. */
  predicate Framing(t: int) {
    t == BEGIN_STRING || t == BODY_LENGTH || t == CHECK_SUM
  }

  const FRAMING: set<int> := {BEGIN_STRING, BODY_LENGTH, CHECK_SUM}

  function WithoutFraming(order: seq<int>): (r: seq<int>)
    ensures forall t :: t in r <==> t in order && !Framing(t)
  {
    if order == [] then []
    else if Framing(order[0]) then WithoutFraming(order[1..])
    else [order[0]] + WithoutFraming(order[1..])
  }

  lemma {:induction false} WithoutFramingOrdered(order: seq<int>)
    requires Ordered(order)
    ensures Ordered(WithoutFraming(order))
  {
    if order == [] {
    } else {
      WithoutFramingOrdered(order[1..]);
      var rest := WithoutFraming(order[1..]);
      forall x | x in rest ensures Before(order[0], x) {
        var j :| 0 <= j < |order[1..]| && order[1..][j] == x;
        assert order[j + 1] == x;
      }
    }
  }

  /** The body fields of a message in canonical order. */
  ghost function BodyFields(f: Fragment): seq<Field> {
    OrderFields(SortedTags(f.fields.Keys - FRAMING), f)
  }

  ghost function Body(f: Fragment): bytes {
    Render(BodyFields(f), SOH)
  }

  lemma {:induction false} BodyOrder(f: Fragment)
    ensures WithoutFraming(SortedTags(f.fields.Keys)) == SortedTags(f.fields.Keys - FRAMING)
  {
    var tags := f.fields.Keys;
    SortedTagsListTags(tags);
    WithoutFramingOrdered(SortedTags(tags));
    assert Elements(WithoutFraming(SortedTags(tags))) == tags - FRAMING;
    SortedTagsAre(tags - FRAMING, WithoutFraming(SortedTags(tags)));
  }

  /** The two fields in front of the body. */
  ghost function Prefix(f: Fragment): bytes {
    Render([Field(BEGIN_STRING, f.GetOrEmpty(BEGIN_STRING)), Field(BODY_LENGTH, Itoa(|Body(f)|))], SOH)
  }

  /** The %03d verb of fmt.Sprintf. */
  function ThreeDigits(n: nat): (s: bytes)
    requires n < 1000
    ensures |s| == 3 && AllDigits(s)
  {
    [ZERO + n / 100, ZERO + n / 10 % 10, ZERO + n % 10]
  }

  lemma {:induction false} ThreeDigitsValue(n: nat)
    requires n < 1000
    ensures DigitsValue(ThreeDigits(n)) == n
  {
    var s := ThreeDigits(n);
    assert s[..2] == [s[0], s[1]] && [s[0], s[1]][..1] == [s[0]] && [s[0]][..0] == [];
    assert DigitsValue([s[0]]) == n / 100;
    assert DigitsValue([s[0], s[1]]) == n / 10;
  }

  ghost function CheckSum(f: Fragment): bytes {
    ThreeDigits(Sum(Prefix(f) + Body(f)) % 256)
  }

  /** The message that SetLenAndChecksum leaves. */
  ghost function Stamped(f: Fragment): Fragment {
    f.Set(BODY_LENGTH, Itoa(|Body(f)|)).Set(CHECK_SUM, CheckSum(f))
  }

  /** The bytes ToWire returns without a codec. */
  ghost function WireBytes(f: Fragment): bytes {
    Render(FragmentFields(Stamped(f)), SOH)
  }

  /** A message whose fields fall in canonical order around BeginString, BodyLength and CheckSum. */
  ghost predicate Framable(f: Fragment) {
    && f.Get(BEGIN_STRING).Some?
    && forall t :: t in f.fields ==> InRange(t)
  }

  /** The body fields that the tags from place i on stand for. */
  ghost function BodyFrom(order: seq<int>, i: nat, f: Fragment): bytes
    requires i <= |order| && forall t :: t in order ==> t in f.fields
  {
    Render(OrderFields(WithoutFraming(order[i..]), f), SOH)
  }

  lemma {:induction false} BodyFromStep(order: seq<int>, i: nat, f: Fragment)
    requires i < |order| && forall t :: t in order ==> t in f.fields
    ensures BodyFrom(order, i, f) ==
      (if Framing(order[i]) then [] else Render(ValueFields(order[i], f.fields[order[i]]), SOH))
      + BodyFrom(order, i + 1, f)
  {
    assert order[i..][1..] == order[i + 1..];
    if !Framing(order[i]) {
      var rest := WithoutFraming(order[i + 1..]);
      FirstAndRest(order[i], rest);
      RenderConcat(ValueFields(order[i], f.fields[order[i]]), OrderFields(rest, f), SOH);
    }
  }

  /** One turn of the loop of buildBody. */
  method WriteBodyField(buf: Builder, ghost order: seq<int>, ghost i: nat, f: Fragment, tag: int)
    requires i < |order| && (forall t :: t in order ==> t in f.fields) && tag == order[i]
    modifies buf
    ensures buf.content + BodyFrom(order, i + 1, f) == old(buf.content) + BodyFrom(order, i, f)
  {
    BodyFromStep(order, i, f);
    if Framing(tag) {
      return;
    }
    ConcatAssociative(buf.content, Render(ValueFields(tag, f.fields[tag]), SOH), BodyFrom(order, i + 1, f));
    DefaultWriteField(buf, tag, f.fields[tag]);
  }

  /** buildBody */
  method BuildBody(f: Fragment) returns (body: bytes)
    ensures body == Body(f)
  {
    var buf := new Builder();
    var order := SortTags(f);
    BodyOrder(f);
    assert order[0..] == order;
    for i := 0 to |order|
      invariant buf.content + BodyFrom(order, i, f) == Body(f)
    {
      WriteBodyField(buf, order, i, f, order[i]);
    }
    body := buf.content;
  }

  method AddBytes(start: nat, s: bytes) returns (chk: nat)
    ensures chk == start + Sum(s)
  {
    chk := start;
    for i := 0 to |s|
      invariant chk == start + Sum(s[..i])
    {
      assert s[..i + 1][..i] == s[..i];
      chk := chk + s[i];
    }
    assert s[..|s|] == s;
  }

  /** SetLenAndChecksum */
  method SetLenAndChecksum(f: Fragment) returns (r: Fragment)
    ensures r == Stamped(f)
  {
    var body := BuildBody(f);
    var beginString := f.GetOrEmpty(BEGIN_STRING);
    var prefix := Render([Field(BEGIN_STRING, beginString), Field(BODY_LENGTH, Itoa(|body|))], SOH);
    assert prefix == Prefix(f);
    var chk := AddBytes(0, prefix);
    chk := AddBytes(chk, body);
    SumConcat(prefix, body);
    r := f.Set(BODY_LENGTH, Itoa(|body|)).Set(CHECK_SUM, ThreeDigits(chk % 256));
  }

  // ---- what ToWire prints ----

  function IfIn(tag: int, tags: set<int>): seq<int> {
    if tag in tags then [tag] else []
  }

  /** Tag 8 comes first, tag 9 behind it and tag 10 last, each of them when it is present. */
  lemma {:induction false} CanonicalOrder(tags: set<int>)
    requires forall t :: t in tags ==> InRange(t)
    ensures SortedTags(tags) == IfIn(BEGIN_STRING, tags) + IfIn(BODY_LENGTH, tags)
                                + SortedTags(tags - FRAMING) + IfIn(CHECK_SUM, tags)
  {
    var middle := SortedTags(tags - FRAMING);
    SortedTagsListTags(tags - FRAMING);
    var begin, length, sum := IfIn(BEGIN_STRING, tags), IfIn(BODY_LENGTH, tags), IfIn(CHECK_SUM, tags);
    forall t | t in middle ensures Before(BEGIN_STRING, t) && Before(BODY_LENGTH, t) && Before(t, CHECK_SUM) {
      assert InRange(t) && !Framing(t);
    }
    OrderedConcat(begin, length);
    OrderedConcat(begin + length, middle);
    OrderedConcat(begin + length + middle, sum);
    assert Elements(begin + length + middle + sum) == tags;
    SortedTagsAre(tags, begin + length + middle + sum);
  }

  lemma {:induction false} OrderedConcat(a: seq<int>, b: seq<int>)
    requires Ordered(a) && Ordered(b) && forall s, t :: s in a && t in b ==> Before(s, t)
    ensures Ordered(a + b)
  {
    forall i, j | 0 <= i < j < |a + b| ensures Before((a + b)[i], (a + b)[j]) {
      if i < |a| <= j {
        assert a[i] in a && b[j - |a|] in b;
      }
    }
  }

  lemma {:induction false} FramedOrder(tags: set<int>)
    requires (forall t :: t in tags ==> InRange(t)) && FRAMING <= tags
    ensures SortedTags(tags) == [BEGIN_STRING, BODY_LENGTH] + SortedTags(tags - FRAMING) + [CHECK_SUM]
  {
    CanonicalOrder(tags);
  }

  lemma {:induction false} BeginStringLeads(tags: set<int>)
    requires (forall t :: t in tags ==> InRange(t)) && BEGIN_STRING in tags
    ensures SortedTags(tags) == [BEGIN_STRING] + SortedTags(tags - {BEGIN_STRING})
  {
    var others := tags - {BEGIN_STRING};
    CanonicalOrder(tags);
    CanonicalOrder(others);
    assert others - FRAMING == tags - FRAMING;
  }

  lemma {:induction false} CheckSumTrails(tags: set<int>)
    requires (forall t :: t in tags ==> InRange(t)) && CHECK_SUM in tags
    ensures SortedTags(tags) == SortedTags(tags - {CHECK_SUM}) + [CHECK_SUM]
  {
    var others := tags - {CHECK_SUM};
    CanonicalOrder(tags);
    CanonicalOrder(others);
    assert others - FRAMING == tags - FRAMING;
  }

  /** Tags 8, 9 and 10 do not feed into the body. */
  lemma {:induction false} BodyOfStamped(f: Fragment)
    ensures Stamped(f).fields.Keys == f.fields.Keys + {BODY_LENGTH, CHECK_SUM}
    ensures BodyFields(Stamped(f)) == BodyFields(f)
  {
    var s := Stamped(f);
    assert s.fields.Keys - FRAMING == f.fields.Keys - FRAMING;
    OrderFieldsFrame(SortedTags(f.fields.Keys - FRAMING), s, f);
  }

  lemma {:induction false} FirstTwoFields(s: Fragment, begin: bytes, length: bytes)
    requires s.Contains(BEGIN_STRING) && s.fields[BEGIN_STRING] == Text(begin)
    requires s.Contains(BODY_LENGTH) && s.fields[BODY_LENGTH] == Text(length)
    ensures OrderFields([BEGIN_STRING, BODY_LENGTH], s) == [Field(BEGIN_STRING, begin), Field(BODY_LENGTH, length)]
  {
    assert [BEGIN_STRING, BODY_LENGTH] == [BEGIN_STRING] + [BODY_LENGTH];
    OrderFieldsConcat([BEGIN_STRING], [BODY_LENGTH], s);
    TextField(BEGIN_STRING, s);
    TextField(BODY_LENGTH, s);
  }

  lemma {:induction false} StampedFields(f: Fragment)
    requires Framable(f)
    ensures FragmentFields(Stamped(f))
         == [Field(BEGIN_STRING, f.GetOrEmpty(BEGIN_STRING)), Field(BODY_LENGTH, Itoa(|Body(f)|))]
            + BodyFields(f) + [Field(CHECK_SUM, CheckSum(f))]
  {
    var s := Stamped(f);
    BodyOfStamped(f);
    FramedOrder(s.fields.Keys);
    var first, middle := [BEGIN_STRING, BODY_LENGTH], SortedTags(s.fields.Keys - FRAMING);
    OrderFieldsConcat(first + middle, [CHECK_SUM], s);
    OrderFieldsConcat(first, middle, s);
    FirstTwoFields(s, f.GetOrEmpty(BEGIN_STRING), Itoa(|Body(f)|));
    TextField(CHECK_SUM, s);
  }

  /**
   ToWire prints BeginString, the true body byte count, the body, and the true byte sum
   modulo 256 in three digits.
   */
  lemma {:induction false} WireShape(f: Fragment)
    requires Framable(f)
    ensures WireBytes(f) == Prefix(f) + Body(f) + RenderField(Field(CHECK_SUM, CheckSum(f)), SOH)
  {
    StampedFields(f);
    var first := [Field(BEGIN_STRING, f.GetOrEmpty(BEGIN_STRING)), Field(BODY_LENGTH, Itoa(|Body(f)|))];
    var last := [Field(CHECK_SUM, CheckSum(f))];
    RenderConcat(first + BodyFields(f), last, SOH);
    RenderConcat(first, BodyFields(f), SOH);
    assert Render(last, SOH) == RenderField(last[0], SOH);
  }

  lemma {:induction false} RenderTwo(a: Field, b: Field)
    ensures Render([a, b], SOH) == RenderField(a, SOH) + RenderField(b, SOH)
  {
    RenderConcat([a], [b], SOH);
    assert [a] + [b] == [a, b];
    assert Render([a], SOH) == RenderField(a, SOH) && Render([b], SOH) == RenderField(b, SOH);
  }

  lemma {:induction false} RenderFraming(text: bytes)
    ensures RenderField(Field(BEGIN_STRING, text), SOH) == [56, 61] + text + [1]
    ensures RenderField(Field(BODY_LENGTH, text), SOH) == [57, 61] + text + [1]
    ensures RenderField(Field(CHECK_SUM, text), SOH) == [49, 48, 61] + text + [1]
  {
    assert Itoa(8) == [56] && Itoa(9) == [57] && Digits(10) == Digits(1) + [48];
  }

  lemma {:induction false} PrefixIs(f: Fragment) returns (number: bytes)
    requires Framable(f)
    ensures AllDigits(number) && DigitsValue(number) == |Body(f)|
    ensures Prefix(f) == [56, 61] + f.fields[8].text + [1] + ([57, 61] + number + [1])
  {
    number := Itoa(|Body(f)|);
    DigitsRoundTrip(|Body(f)|);
    RenderTwo(Field(BEGIN_STRING, f.fields[8].text), Field(BODY_LENGTH, number));
    RenderFraming(f.fields[8].text);
    RenderFraming(number);
  }

  /**
   The bytes themselves: "8=", BeginString, SOH, "9=", a number, SOH, a body of that many bytes, "10=",
   three digits, SOH; the digits stand for the sum of all bytes in front of "10=", modulo 256.
   */
  lemma {:induction false} WireIs(f: Fragment) returns (front: bytes, number: bytes, sum: bytes)
    requires Framable(f)
    ensures front == [56, 61] + f.fields[8].text + [1] + ([57, 61] + number + [1]) + Body(f)
    ensures WireBytes(f) == front + ([49, 48, 61] + sum + [1])
    ensures AllDigits(number) && DigitsValue(number) == |Body(f)|
    ensures |sum| == 3 && AllDigits(sum) && DigitsValue(sum) == Sum(front) % 256
  {
    WireShape(f);
    number := PrefixIs(f);
    front, sum := Prefix(f) + Body(f), CheckSum(f);
    ThreeDigitsValue(Sum(front) % 256);
    RenderFraming(sum);
  }

  /** Stamping twice is stamping once, so ToWire can be called again on what it left behind. */
  lemma {:induction false} StampedIdempotent(f: Fragment)
    ensures Stamped(Stamped(f)) == Stamped(f)
  {
    BodyOfStamped(f);
    var s := Stamped(f);
    assert Prefix(s) == Prefix(f);
    assert s.Set(BODY_LENGTH, s.fields[BODY_LENGTH].text).fields == s.fields;
    assert s.Set(CHECK_SUM, s.fields[CHECK_SUM].text).fields == s.fields;
  }
}
