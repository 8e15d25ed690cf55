/** Sets, maps and sequences: choosing from a set, and rebuilding a map key by key. */
module Collections {

  lemma {:induction false} ConcatAssociative<T>(a: seq<T>, b: seq<T>, c: seq<T>)
    ensures (a + b) + c == a + (b + c)
  {
  }

  lemma {:induction false} TakeAndDrop<T>(s: seq<T>, k: nat)
    requires k <= |s|
    ensures s[..k] + s[k..] == s
  {
  }

  lemma {:induction false} TakeBeyond<T>(a: seq<T>, b: seq<T>, k: nat)
    requires |a| <= k <= |a| + |b|
    ensures (a + b)[..k] == a + b[..k - |a|]
  {
  }

  lemma {:induction false} FirstAndRest<T>(first: T, rest: seq<T>)
    ensures ([first] + rest)[0] == first && ([first] + rest)[1..] == rest
  {
  }

  lemma {:induction false} InitAndLast<T>(s: seq<T>)
    requires s != []
    ensures s == s[..|s| - 1] + [s[|s| - 1]]
  {
  }

  lemma {:induction false} ThreeParts<T>(s: seq<T>, i: nat, j: nat)
    requires i <= j <= |s|
    ensures s == s[..i] + (s[i..j] + s[j..])
    ensures forall x :: x in s ==> x in s[..i] || x in s[i..j] || x in s[j..]
  {
  }

  lemma {:induction false} SomeElement<T>(s: set<T>) returns (x: T)
    requires s != {}
    ensures x in s
  {
    x :| x in s;
  }

  /** The next key of a range loop over a Go map: any key not visited yet. */
  method AnyElement<T>(s: set<T>) returns (x: T)
    requires s != {}
    ensures x in s
  {
    x :| x in s;
  }

  /** m after storing the source's values under the listed keys, one by one. */
  ghost function Copy<K, V>(m: map<K, V>, order: seq<K>, source: map<K, V>): map<K, V>
    requires forall k :: k in order ==> k in source
    decreases |order|
  {
    if order == [] then m
    else
      var k := order[0];
      assert k in order;
      Copy(m[k := source[k]], order[1..], source)
  }

  lemma {:induction false} CopyFields<K, V>(m: map<K, V>, order: seq<K>, source: map<K, V>)
    requires forall k :: k in order ==> k in source
    ensures forall k :: k in Copy(m, order, source) <==> k in m || k in order
    ensures forall k :: k in order ==> Copy(m, order, source)[k] == source[k]
    ensures forall k :: k in m && k !in order ==> Copy(m, order, source)[k] == m[k]
    decreases |order|
  {
    if order == [] {
    } else {
      var k := order[0];
      assert k in order;
      CopyFields(m[k := source[k]], order[1..], source);
    }
  }

  lemma {:induction false} CopyIsSource<K, V>(source: map<K, V>, order: seq<K>, copy: map<K, V>)
    requires forall k :: k in order <==> k in source
    requires copy == Copy(map[], order, source)
    ensures copy == source
  {
    CopyFields(map[], order, source);
    forall k | k in copy ensures k in source && copy[k] == source[k] {}
    forall k | k in source ensures k in copy {}
  }

  /** Copying all keys, in any order, rebuilds the map. */
  lemma {:induction false} CopyWhole<K, V>(source: map<K, V>, order: seq<K>)
    requires forall k :: k in order <==> k in source
    ensures Copy(map[], order, source) == source
  {
    CopyIsSource(source, order, Copy(map[], order, source));
  }

  /** ys lists f of each element of xs and its position. */
  ghost predicate Images<T(!new), U(!new)>(f: (T, nat) -> U, xs: seq<T>, ys: seq<U>) {
    |ys| == |xs| && forall k :: 0 <= k < |xs| ==> ys[k] == f(xs[k], k)
  }

  lemma {:induction false} ImagesAppend<T(!new), U(!new)>(f: (T, nat) -> U, xs: seq<T>, ys: seq<U>, x: T)
    requires Images(f, xs, ys)
    ensures Images(f, xs + [x], ys + [f(x, |xs|)])
  {
  }

  lemma {:induction false} AddToEmpty<K, V>(m: map<K, V>)
    ensures map[] + m == m
  {
  }
}
