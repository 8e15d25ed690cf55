/**
 Finding a tag in a message and in the groups nested in it: the search for all paths to a
 tag, the search for any occurrence, and the collection of all tags that occur. What a path
 leads to is defined first; the three searches are then compared with it.
 */
module PathSearch {
  import opened Collections
  import opened Fragments

  /** A path alternates count tags and member indices, and ends with the tag that is looked for. */
  type Path = seq<int>

  /** The path leads from f to a fragment that holds the tag. */
  predicate Resolves(f: Fragment, path: Path, tag: int)
    decreases |path|
  {
    if |path| == 0 then false
    else if |path| == 1 then path[0] == tag && tag in f.fields
    else path[0] in f.fields && f.fields[path[0]].Group? && ResolvesIn(f.fields[path[0]].members, path[1..], tag)
  }

  /** The same from a list of members, beginning with an index. */
  predicate ResolvesIn(members: seq<Fragment>, path: Path, tag: int)
    decreases |path|
  {
    |path| > 1 && 0 <= path[0] < |members| && Resolves(members[path[0]], path[1..], tag)
  }

  /** The tag is present at some path. */
  ghost predicate Occurs(f: Fragment, tag: int) {
    exists path :: Resolves(f, path, tag)
  }

  ghost predicate OccursIn(members: seq<Fragment>, tag: int) {
    exists path :: ResolvesIn(members, path, tag)
  }

  // ---- one level down ----

  lemma {:induction false} ResolvesHere(f: Fragment, tag: int)
    ensures Resolves(f, [tag], tag) <==> tag in f.fields
  {
  }

  lemma {:induction false} ResolvesBelow(f: Fragment, number: int, path: Path, tag: int)
    requires |path| > 0
    ensures Resolves(f, [number] + path, tag) <==>
      number in f.fields && f.fields[number].Group? && ResolvesIn(f.fields[number].members, path, tag)
  {
    FirstAndRest(number, path);
  }

  lemma {:induction false} ResolvesAtMember(members: seq<Fragment>, i: int, path: Path, tag: int)
    requires |path| > 0
    ensures ResolvesIn(members, [i] + path, tag) <==> 0 <= i < |members| && Resolves(members[i], path, tag)
  {
    FirstAndRest(i, path);
  }

  lemma {:induction false} Taken(path: Path)
    requires |path| > 0
    ensures path == [path[0]] + path[1..]
  {
  }

  // ---- FindAll ----

  ghost predicate Distinct(paths: seq<Path>) {
    forall i, j :: 0 <= i < j < |paths| ==> paths[i] != paths[j]
  }

  /** The paths are exactly the wanted ones, each once. */
  ghost predicate Exactly(paths: seq<Path>, wanted: Path -> bool) {
    Distinct(paths) && forall p :: p in paths <==> wanted(p)
  }

  /** The given paths with one number in front. */
  function Prefixed(head: int, paths: seq<Path>): (r: seq<Path>)
    ensures |r| == |paths| && forall i :: 0 <= i < |r| ==> r[i] == [head] + paths[i]
  {
    seq(|paths|, i requires 0 <= i < |paths| => [head] + paths[i])
  }

  lemma {:induction false} PrefixedExactly(head: int, paths: seq<Path>, below: Path -> bool)
    requires Exactly(paths, below)
    requires forall p :: below(p) ==> |p| > 0
    ensures Exactly(Prefixed(head, paths), p => |p| > 1 && p[0] == head && below(p[1..]))
  {
    var r := Prefixed(head, paths);
    forall i, j | 0 <= i < j < |r| ensures r[i] != r[j] {
      assert r[i][1..] == paths[i] && r[j][1..] == paths[j];
    }
    forall p ensures p in r <==> |p| > 1 && p[0] == head && below(p[1..]) {
      if p in r {
        var i :| 0 <= i < |r| && r[i] == p;
        assert p[1..] == paths[i] && paths[i] in paths;
      }
      if |p| > 1 && p[0] == head && below(p[1..]) {
        Taken(p);
        var i :| 0 <= i < |paths| && paths[i] == p[1..];
        assert r[i] == p;
      }
    }
  }

  lemma {:induction false} Joined(a: seq<Path>, b: seq<Path>, inA: Path -> bool, inB: Path -> bool)
    requires Exactly(a, inA) && Exactly(b, inB)
    requires forall p :: !(inA(p) && inB(p))
    ensures Exactly(a + b, p => inA(p) || inB(p))
  {
    var r := a + b;
    forall i, j | 0 <= i < j < |r| ensures r[i] != r[j] {
      if i < |a| <= j {
        assert a[i] in a && b[j - |a|] in b;
      }
    }
  }

  lemma {:induction false} SameWanted(paths: seq<Path>, a: Path -> bool, b: Path -> bool)
    requires Exactly(paths, a) && forall p :: a(p) <==> b(p)
    ensures Exactly(paths, b)
  {
  }

  ghost function PathsOf(f: Fragment, tag: int): Path -> bool {
    p => Resolves(f, p, tag)
  }

  /** The paths that are found once the numbers in left are the only ones not visited. */
  ghost function PathsWithout(f: Fragment, tag: int, left: set<int>): Path -> bool {
    p => Resolves(f, p, tag) && (|p| == 1 || p[0] !in left)
  }

  /** The paths into the first k members. */
  ghost function PathsBefore(members: seq<Fragment>, tag: int, k: int): Path -> bool {
    p => ResolvesIn(members, p, tag) && p[0] < k
  }

  lemma {:induction false} NextMember(members: seq<Fragment>, tag: int, k: nat, paths: seq<Path>, sub: seq<Path>)
    requires k < |members|
    requires Exactly(paths, PathsBefore(members, tag, k)) && Exactly(sub, PathsOf(members[k], tag))
    ensures Exactly(paths + Prefixed(k, sub), PathsBefore(members, tag, k + 1))
  {
    var below := PathsOf(members[k], tag);
    PrefixedExactly(k, sub, below);
    Joined(paths, Prefixed(k, sub), PathsBefore(members, tag, k), p => |p| > 1 && p[0] == k && below(p[1..]));
    SameWanted(paths + Prefixed(k, sub),
               p => PathsBefore(members, tag, k)(p) || (|p| > 1 && p[0] == k && below(p[1..])),
               PathsBefore(members, tag, k + 1));
  }

  lemma {:induction false} NextGroup(f: Fragment, tag: int, left: set<int>, n: int, paths: seq<Path>, sub: seq<Path>)
    requires n in left && n in f.fields && f.fields[n].Group?
    requires Exactly(paths, PathsWithout(f, tag, left))
    requires Exactly(sub, PathsBefore(f.fields[n].members, tag, |f.fields[n].members|))
    ensures Exactly(paths + Prefixed(n, sub), PathsWithout(f, tag, left - {n}))
  {
    var below := PathsBefore(f.fields[n].members, tag, |f.fields[n].members|);
    PrefixedExactly(n, sub, below);
    Joined(paths, Prefixed(n, sub), PathsWithout(f, tag, left), p => |p| > 1 && p[0] == n && below(p[1..]));
    forall p
      ensures PathsWithout(f, tag, left - {n})(p) <==>
        PathsWithout(f, tag, left)(p) || (|p| > 1 && p[0] == n && below(p[1..]))
    {
      if |p| > 1 && p[0] == n {
        assert Resolves(f, p, tag) <==> ResolvesIn(f.fields[n].members, p[1..], tag);
      }
    }
    SameWanted(paths + Prefixed(n, sub),
               p => PathsWithout(f, tag, left)(p) || (|p| > 1 && p[0] == n && below(p[1..])),
               PathsWithout(f, tag, left - {n}));
  }

  lemma {:induction false} NextText(f: Fragment, tag: int, left: set<int>, n: int, paths: seq<Path>)
    requires n in left && n in f.fields && f.fields[n].Text?
    requires Exactly(paths, PathsWithout(f, tag, left))
    ensures Exactly(paths, PathsWithout(f, tag, left - {n}))
  {
    SameWanted(paths, PathsWithout(f, tag, left), PathsWithout(f, tag, left - {n}));
  }

  /** RepeatingGroup.FindAll */
  method FindAllIn(members: seq<Fragment>, tag: int) returns (paths: seq<Path>)
    ensures Exactly(paths, PathsBefore(members, tag, |members|))
    decreases members, 0
  {
    paths := [];
    for i := 0 to |members|
      invariant Exactly(paths, PathsBefore(members, tag, i))
    {
      var sub := FindAll(members[i], tag);
      NextMember(members, tag, i, paths, sub);
      paths := paths + Prefixed(i, sub);
    }
  }

  /** FixFragment.FindAll: every occurrence exactly once, whatever order the map is ranged over in. */
  method FindAll(f: Fragment, tag: int) returns (paths: seq<Path>)
    ensures Exactly(paths, PathsOf(f, tag))
    decreases f, 1
  {
    paths := if tag in f.fields then [[tag]] else [];
    var left := f.fields.Keys;
    StartOfSearch(f, tag);
    while left != {}
      invariant left <= f.fields.Keys
      invariant Exactly(paths, PathsWithout(f, tag, left))
      decreases left
    {
      var n := AnyElement(left);
      if f.fields[n].Group? {
        var sub := FindAllIn(f.fields[n].members, tag);
        NextGroup(f, tag, left, n, paths, sub);
        paths := paths + Prefixed(n, sub);
      } else {
        NextText(f, tag, left, n, paths);
      }
      left := left - {n};
    }
    SameWanted(paths, PathsWithout(f, tag, left), PathsOf(f, tag));
  }

  lemma {:induction false} StartOfSearch(f: Fragment, tag: int)
    ensures Exactly(if tag in f.fields then [[tag]] else [], PathsWithout(f, tag, f.fields.Keys))
  {
    forall p ensures PathsWithout(f, tag, f.fields.Keys)(p) <==> tag in f.fields && p == [tag] {
      if |p| == 1 {
        assert p == [p[0]];
      }
    }
  }

  // ---- Anywhere and AllTagsDeep ----

  lemma {:induction false} OccursBelow(f: Fragment, tag: int, n: int)
    requires n in f.fields && f.fields[n].Group? && OccursIn(f.fields[n].members, tag)
    ensures Occurs(f, tag)
  {
    var path :| ResolvesIn(f.fields[n].members, path, tag);
    ResolvesBelow(f, n, path, tag);
    assert Resolves(f, [n] + path, tag);
  }

  lemma {:induction false} SomePath(f: Fragment, tag: int) returns (path: Path)
    requires Occurs(f, tag)
    ensures Resolves(f, path, tag)
  {
    path :| Resolves(f, path, tag);
  }

  lemma {:induction false} OccursAtMember(members: seq<Fragment>, tag: int, i: nat)
    requires i < |members| && Occurs(members[i], tag)
    ensures OccursIn(members, tag)
  {
    var path := SomePath(members[i], tag);
    ResolvesAtMember(members, i, path, tag);
    assert ResolvesIn(members, [i] + path, tag);
  }

  /** A tag occurs here, or in a member of a group. */
  lemma {:induction false} OccursWhere(f: Fragment, tag: int) returns (n: int)
    requires Occurs(f, tag)
    ensures tag in f.fields || (n in f.fields && f.fields[n].Group? && OccursIn(f.fields[n].members, tag))
  {
    var path := SomePath(f, tag);
    n := path[0];
    if |path| > 1 {
      assert ResolvesIn(f.fields[n].members, path[1..], tag);
    }
  }

  lemma {:induction false} OccursInWhere(members: seq<Fragment>, tag: int) returns (i: int)
    requires OccursIn(members, tag)
    ensures 0 <= i < |members| && Occurs(members[i], tag)
  {
    var path :| ResolvesIn(members, path, tag);
    i := path[0];
    assert Resolves(members[i], path[1..], tag);
  }

  /** FixFragment.Anywhere */
  method Anywhere(f: Fragment, tag: int) returns (found: bool)
    ensures found == Occurs(f, tag)
    decreases f, 1
  {
    if tag in f.fields {
      ResolvesHere(f, tag);
      return true;
    }
    var left := f.fields.Keys;
    while left != {}
      invariant left <= f.fields.Keys
      invariant forall n :: n in f.fields && n !in left ==> !OccursUnder(f, n, tag)
      decreases left
    {
      var n := AnyElement(left);
      if f.fields[n].Group? {
        found := AnywhereIn(f.fields[n].members, tag);
        if found {
          OccursBelow(f, tag, n);
          return;
        }
      }
      left := left - {n};
    }
    if Occurs(f, tag) {
      var n := OccursWhere(f, tag);
      assert OccursUnder(f, n, tag);
    }
    return false;
  }

  ghost predicate OccursUnder(f: Fragment, n: int, tag: int)
    requires n in f.fields
  {
    f.fields[n].Group? && OccursIn(f.fields[n].members, tag)
  }

  method AnywhereIn(members: seq<Fragment>, tag: int) returns (found: bool)
    ensures found == OccursIn(members, tag)
    decreases members, 0
  {
    for i := 0 to |members|
      invariant forall k :: 0 <= k < i ==> !Occurs(members[k], tag)
    {
      found := Anywhere(members[i], tag);
      if found {
        OccursAtMember(members, tag, i);
        return;
      }
    }
    if OccursIn(members, tag) {
      var i := OccursInWhere(members, tag);
    }
    return false;
  }

  ghost function TagsUnder(f: Fragment, left: set<int>): int -> bool {
    t => (t in f.fields && t !in left) ||
         exists n :: n in f.fields && n !in left && OccursUnder(f, n, t)
  }

  lemma {:induction false} OccursIff(f: Fragment, tag: int)
    ensures Occurs(f, tag) <==> tag in f.fields || exists n :: n in f.fields && OccursUnder(f, n, tag)
  {
    if Occurs(f, tag) {
      var n := OccursWhere(f, tag);
      assert tag in f.fields || OccursUnder(f, n, tag);
    }
    if tag in f.fields {
      ResolvesHere(f, tag);
    }
    if n :| n in f.fields && OccursUnder(f, n, tag) {
      OccursBelow(f, tag, n);
    }
  }

  /** collectTags: adds every tag of f and of its groups to the tags already seen. */
  method CollectTags(f: Fragment, seen: set<int>) returns (tags: set<int>)
    ensures forall t :: t in tags <==> t in seen || Occurs(f, t)
    decreases f, 1
  {
    tags := seen;
    var left := f.fields.Keys;
    while left != {}
      invariant left <= f.fields.Keys
      invariant forall t :: t in tags <==> t in seen || TagsUnder(f, left)(t)
      decreases left
    {
      var n := AnyElement(left);
      tags := tags + {n};
      if f.fields[n].Group? {
        tags := CollectTagsIn(f.fields[n].members, tags);
      }
      left := left - {n};
    }
    forall t ensures t in tags <==> t in seen || Occurs(f, t) {
      OccursIff(f, t);
    }
  }

  method CollectTagsIn(members: seq<Fragment>, seen: set<int>) returns (tags: set<int>)
    ensures forall t :: t in tags <==> t in seen || OccursIn(members, t)
    decreases members, 0
  {
    tags := seen;
    for i := 0 to |members|
      invariant forall t :: t in tags <==> t in seen || OccursBefore(members, t, i)
    {
      tags := CollectTags(members[i], tags);
    }
    forall t ensures OccursIn(members, t) <==> OccursBefore(members, t, |members|) {
      if OccursIn(members, t) {
        var i := OccursInWhere(members, t);
      }
      if i :| 0 <= i < |members| && Occurs(members[i], t) {
        OccursAtMember(members, t, i);
      }
    }
  }

  ghost predicate OccursBefore(members: seq<Fragment>, tag: int, k: int)
    requires k <= |members|
  {
    exists i :: 0 <= i < k && Occurs(members[i], tag)
  }

  /** The three searches agree: Anywhere, a non-empty FindAll, and membership in AllTagsDeep. */
  lemma {:induction false} SearchesAgree(f: Fragment, tag: int, paths: seq<Path>, tags: set<int>)
    requires Exactly(paths, PathsOf(f, tag))
    requires forall t :: t in tags <==> Occurs(f, t)
    ensures Occurs(f, tag) <==> paths != []
    ensures Occurs(f, tag) <==> tag in tags
  {
    if Occurs(f, tag) {
      var path := SomePath(f, tag);
      assert PathsOf(f, tag)(path) && path in paths;
    }
    if paths != [] {
      assert paths[0] in paths;
      assert PathsOf(f, tag)(paths[0]);
    }
  }

  /** AllTagsDeep: every tag at any depth, once. */
  method AllTagsDeep(f: Fragment) returns (tags: seq<int>)
    ensures forall t :: t in tags <==> Occurs(f, t)
    ensures forall i, j :: 0 <= i < j < |tags| ==> tags[i] != tags[j]
  {
    var left := CollectTags(f, {});
    ghost var all := left;
    tags := [];
    while left != {}
      invariant forall t :: t in all <==> t in tags || t in left
      invariant forall t :: t in tags ==> t !in left
      invariant forall i, j :: 0 <= i < j < |tags| ==> tags[i] != tags[j]
      decreases left
    {
      var t := AnyElement(left);
      assert forall i :: 0 <= i < |tags| ==> tags[i] in tags;
      tags, left := tags + [t], left - {t};
    }
  }
}
