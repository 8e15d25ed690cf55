/**
 Field maps and repeating groups as values, the canonical order of a map's tags, and
 the sequence of (tag, value) fields that a map stands for on the wire.
 */
module Fragments {
  import opened Wrappers
  import opened ByteStrings
  import opened Collections
  import opened Tags

  datatype Value =
    | Text(text: bytes)
    | Group(numberTag: int, firstTag: int, members: seq<Fragment>)

  datatype Fragment = Fragment(fields: map<int, Value>) {

    /** Get: the string under a tag; absent for a missing tag or a group. */
    function Get(tag: int): Option<bytes> {
      if tag in fields && fields[tag].Text? then Some(fields[tag].text) else None
    }

    function GetOrEmpty(tag: int): bytes {
      match Get(tag)
      case Some(text) => text
      case None => []
    }

    predicate Contains(tag: int) {
      tag in fields
    }

    function Set(tag: int, text: bytes): Fragment {
      Fragment(fields[tag := Text(text)])
    }

    function SetGroup(tag: int, group: Value): Fragment {
      Fragment(fields[tag := group])
    }
  }

  const EMPTY: Fragment := Fragment(map[])

  // ---- canonical order ----

  /** The canonical order; tags whose sort keys collide, which sort.Slice may put either way, go by number. */
  predicate Before(a: int, b: int) {
    TagSortKey(a) < TagSortKey(b) || (TagSortKey(a) == TagSortKey(b) && a < b)
  }

  ghost predicate Ordered(order: seq<int>) {
    forall i, j :: 0 <= i < j < |order| ==> Before(order[i], order[j])
  }

  function Elements(order: seq<int>): (tags: set<int>)
    ensures forall t :: t in tags <==> t in order
  {
    set t | t in order
  }

  /** order lists each tag of the set once, in canonical order. */
  ghost predicate Lists(order: seq<int>, tags: set<int>) {
    Ordered(order) && Elements(order) == tags
  }

  /** A listing that respects the sort keys alone, as sort.Slice guarantees. */
  ghost predicate KeySorted(order: seq<int>, tags: set<int>) {
    && (forall i, j :: 0 <= i < j < |order| ==> order[i] != order[j] && TagSortKey(order[i]) <= TagSortKey(order[j]))
    && Elements(order) == tags
  }

  /** Inserts t into an ordered list. */
  function Insert(t: int, order: seq<int>): (r: seq<int>)
    ensures |r| == |order| + 1
    ensures forall x :: x in r <==> x == t || x in order
  {
    if order == [] then [t]
    else if Before(t, order[0]) then [t] + order
    else [order[0]] + Insert(t, order[1..])
  }

  lemma {:induction false} InsertOrdered(t: int, order: seq<int>)
    requires Ordered(order) && t !in order
    ensures Ordered(Insert(t, order))
  {
    if order == [] {
    } else if !Before(t, order[0]) {
      InsertOrdered(t, order[1..]);
      var r := Insert(t, order[1..]);
      forall x | x in r ensures Before(order[0], x) {
        if x != t {
          var j :| 0 <= j < |order[1..]| && order[1..][j] == x;
          assert x == order[j + 1];
        }
      }
      assert Insert(t, order) == [order[0]] + r;
    } else {
      forall j | 0 <= j < |order| ensures Before(t, order[j]) {
        assert j > 0 ==> Before(order[0], order[j]);
      }
    }
  }

  lemma {:induction false} InsertLists(t: int, order: seq<int>, tags: set<int>)
    requires Lists(order, tags) && t !in tags
    ensures Lists(Insert(t, order), tags + {t})
  {
    assert t !in Elements(order);
    InsertOrdered(t, order);
    assert Elements(Insert(t, order)) == tags + {t};
  }

  lemma {:induction false} OrderUnique(a: seq<int>, b: seq<int>)
    requires Ordered(a) && Ordered(b)
    requires Elements(a) == Elements(b)
    ensures a == b
  {
    assert b != [] ==> b[0] in Elements(b);
    assert a != [] ==> a[0] in Elements(a);
    if a == [] {
    } else {
      assert a[0] == b[0];
      forall x ensures x in a[1..] <==> x in b[1..] {
        assert x in a[1..] <==> x in Elements(a) && x != a[0];
        assert x in b[1..] <==> x in Elements(b) && x != b[0];
      }
      OrderUnique(a[1..], b[1..]);
    }
  }

  lemma {:induction false} OrderExists(tags: set<int>)
    ensures exists order :: Lists(order, tags)
  {
    if tags == {} {
      assert Lists([], tags);
    } else {
      var t := SomeElement(tags);
      OrderExists(tags - {t});
      var rest :| Lists(rest, tags - {t});
      InsertLists(t, rest, tags - {t});
      assert tags - {t} + {t} == tags;
      assert Lists(Insert(t, rest), tags);
    }
  }

  /** sortedTags: the tags of a map in canonical order. */
  ghost function SortedTags(tags: set<int>): (order: seq<int>)
    ensures forall t :: t in order <==> t in tags
  {
    OrderExists(tags);
    var order :| Lists(order, tags);
    assert forall t :: t in order <==> t in Elements(order);
    order
  }

  lemma {:induction false} SortedTagsListTags(tags: set<int>)
    ensures Lists(SortedTags(tags), tags)
  {
    OrderExists(tags);
  }

  lemma {:induction false} SortedTagsAre(tags: set<int>, order: seq<int>)
    requires Lists(order, tags)
    ensures SortedTags(tags) == order
  {
    SortedTagsListTags(tags);
    OrderUnique(SortedTags(tags), order);
  }

  // ---- when is the order determined? ----

  predicate KeysDiffer(tags: set<int>) {
    forall a, b :: a in tags && b in tags && TagSortKey(a) == TagSortKey(b) ==> a == b
  }

  lemma {:induction false} InTags(order: seq<int>, tags: set<int>, i: nat)
    requires Elements(order) == tags && i < |order|
    ensures order[i] in tags
  {
    assert order[i] in Elements(order);
  }

  lemma {:induction false} KeySortedIsOrdered(order: seq<int>, tags: set<int>)
    requires KeySorted(order, tags) && KeysDiffer(tags)
    ensures order == SortedTags(tags)
  {
    forall i, j | 0 <= i < j < |order| ensures Before(order[i], order[j]) {
      InTags(order, tags, i);
      InTags(order, tags, j);
    }
    SortedTagsAre(tags, order);
  }

  function SwapAt(order: seq<int>, i: nat): (r: seq<int>)
    requires i + 1 < |order|
    ensures |r| == |order|
  {
    order[i := order[i + 1]][i + 1 := order[i]]
  }

  lemma {:induction false} SwapKeepsElements(order: seq<int>, i: nat)
    requires i + 1 < |order|
    ensures forall t :: t in SwapAt(order, i) <==> t in order
  {
    var r := SwapAt(order, i);
    forall k | 0 <= k < |order| ensures order[k] in r && r[k] in order {
      assert order[k] == r[if k == i then i + 1 else if k == i + 1 then i else k];
    }
  }

  /** Swapping neighbours with equal keys gives another listing that sort.Slice may return. */
  lemma {:induction false} SwapKeepsKeySorted(order: seq<int>, tags: set<int>, i: nat)
    requires KeySorted(order, tags) && i + 1 < |order| && TagSortKey(order[i]) == TagSortKey(order[i + 1])
    ensures KeySorted(SwapAt(order, i), tags) && SwapAt(order, i) != order
  {
    var r := SwapAt(order, i);
    SwapKeepsElements(order, i);
    assert Elements(r) == Elements(order);
    assert r[i] != order[i];
  }

  lemma {:induction false} OrderedIsKeySorted(order: seq<int>, tags: set<int>)
    requires Lists(order, tags)
    ensures KeySorted(order, tags)
  {
  }

  /** Two tags with one key stand next to tags with that key. */
  lemma {:induction false} EqualNeighbours(order: seq<int>, tags: set<int>, a: int, b: int) returns (i: nat)
    requires Lists(order, tags)
    requires a in tags && b in tags && a != b && TagSortKey(a) == TagSortKey(b)
    ensures i + 1 < |order| && TagSortKey(order[i]) == TagSortKey(order[i + 1])
  {
    assert a in Elements(order) && b in Elements(order);
    var j :| 0 <= j < |order| && order[j] == a;
    var k :| 0 <= k < |order| && order[k] == b;
    i := if j < k then j else k;
    var other := if j < k then k else j;
    assert i + 1 < other ==> Before(order[i + 1], order[other]);
    assert Before(order[i], order[i + 1]);
  }

  /**
   The sort key alone fixes the order, and with it the printed bytes, whatever order the map
   was ranged over in, exactly when no two of the tags share a key.
   */
  lemma {:induction false} OrderDeterminedIff(tags: set<int>)
    ensures (forall order :: KeySorted(order, tags) ==> order == SortedTags(tags)) <==> KeysDiffer(tags)
  {
    if KeysDiffer(tags) {
      forall order | KeySorted(order, tags) ensures order == SortedTags(tags) {
        KeySortedIsOrdered(order, tags);
      }
    } else {
      var a, b :| a in tags && b in tags && TagSortKey(a) == TagSortKey(b) && a != b;
      var order := SortedTags(tags);
      SortedTagsListTags(tags);
      OrderedIsKeySorted(order, tags);
      var i := EqualNeighbours(order, tags, a, b);
      SwapKeepsKeySorted(order, tags, i);
    }
  }

  /** The body tag 2^30-31 has the key of tag 10, so sort.Slice may return either order. */
  lemma {:induction false} TwoOrdersExample()
    ensures KeySorted([CHECK_SUM, MAX_TAG + 3], {CHECK_SUM, MAX_TAG + 3})
    ensures KeySorted([MAX_TAG + 3, CHECK_SUM], {CHECK_SUM, MAX_TAG + 3})
  {
    var order := [CHECK_SUM, MAX_TAG + 3];
    assert Elements(order) == {CHECK_SUM, MAX_TAG + 3};
    SwapKeepsKeySorted(order, {CHECK_SUM, MAX_TAG + 3}, 0);
    assert SwapAt(order, 0) == [MAX_TAG + 3, CHECK_SUM];
  }

  /** On tags 1..2^30-34 the order is always determined. */
  lemma {:induction false} OrderInRange(tags: set<int>, order: seq<int>)
    requires KeySorted(order, tags) && forall t :: t in tags ==> InRange(t)
    ensures order == SortedTags(tags)
  {
    forall a, b | a in tags && b in tags && TagSortKey(a) == TagSortKey(b) ensures a == b {
      SortKeyInjective(a, b);
    }
    KeySortedIsOrdered(order, tags);
  }

  // ---- the fields a map stands for ----

  /** One "tag=text" field. */
  datatype Field = Field(tag: int, text: bytes)

  /** A string is one field; a group is its count followed by the fields of its members. */
  ghost function ValueFields(tag: int, v: Value): (fields: seq<Field>)
    ensures |fields| >= 1 && fields[0].tag == tag
    decreases v, 0
  {
    match v
    case Text(text) => [Field(tag, text)]
    case Group(_, _, members) => [Field(tag, Itoa(|members|))] + MembersFields(members)
  }

  ghost function MembersFields(members: seq<Fragment>): seq<Field>
    decreases members, 0
  {
    if members == [] then [] else FragmentFields(members[0]) + MembersFields(members[1..])
  }

  ghost function OrderFields(order: seq<int>, f: Fragment): seq<Field>
    requires forall t :: t in order ==> t in f.fields
    decreases f, 0, |order|
  {
    if order == [] then [] else ValueFields(order[0], f.fields[order[0]]) + OrderFields(order[1..], f)
  }

  ghost function FragmentFields(f: Fragment): seq<Field>
    decreases f, 1
  {
    OrderFields(SortedTags(f.fields.Keys), f)
  }

  lemma {:induction false} OrderFieldsConcat(a: seq<int>, b: seq<int>, f: Fragment)
    requires forall t :: t in a + b ==> t in f.fields
    ensures OrderFields(a + b, f) == OrderFields(a, f) + OrderFields(b, f)
  {
    if a == [] {
      assert a + b == b;
    } else {
      assert (a + b)[1..] == a[1..] + b;
      OrderFieldsConcat(a[1..], b, f);
    }
  }

  lemma {:induction false} TextField(tag: int, f: Fragment)
    requires f.Get(tag).Some?
    ensures OrderFields([tag], f) == [Field(tag, f.GetOrEmpty(tag))]
  {
    assert [tag][1..] == [];
  }

  /** Fields depend only on the values under the listed tags. */
  lemma {:induction false} OrderFieldsFrame(order: seq<int>, f: Fragment, g: Fragment)
    requires forall t :: t in order ==> t in f.fields && t in g.fields && f.fields[t] == g.fields[t]
    ensures OrderFields(order, f) == OrderFields(order, g)
  {
    if order == [] {
    } else {
      OrderFieldsFrame(order[1..], f, g);
    }
  }

  function RenderField(field: Field, sep: byte): bytes {
    Itoa(field.tag) + [EQUALS] + field.text + [sep]
  }

  function Render(fields: seq<Field>, sep: byte): bytes {
    if fields == [] then [] else RenderField(fields[0], sep) + Render(fields[1..], sep)
  }

  lemma {:induction false} RenderConcat(a: seq<Field>, b: seq<Field>, sep: byte)
    ensures Render(a + b, sep) == Render(a, sep) + Render(b, sep)
  {
    if a == [] {
      assert a + b == b;
    } else {
      assert (a + b)[1..] == a[1..] + b;
      RenderConcat(a[1..], b, sep);
    }
  }
}
