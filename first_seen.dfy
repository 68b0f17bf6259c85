/** Dense positions assigned in first-seen order. Both stages give every id a
    position equal to the number of distinct ids seen before it; this module
    defines that order once and the maps that index it. */
module FirstSeenOrder {

  ghost predicate NoDuplicates<T>(s: seq<T>) {
    forall i, j :: 0 <= i < j < |s| ==> s[i] != s[j]
  }

  /** The distinct elements of `s`, each once, in the order of their first occurrence. */
  function FirstSeen<T(==)>(s: seq<T>): (order: seq<T>)
    decreases |s|
  {
    if s == [] then []
    else
      var seen := FirstSeen(s[..|s| - 1]);
      if s[|s| - 1] in seen then seen else seen + [s[|s| - 1]]
  }

  /** The first-seen order lists every element of `s` exactly once and nothing else. */
  lemma {:induction false} FirstSeenSpec<T(!new)>(s: seq<T>)
    ensures NoDuplicates(FirstSeen(s))
    ensures forall x :: x in FirstSeen(s) <==> x in s
    ensures |FirstSeen(s)| <= |s|
    decreases |s|
  {
    if s != [] {
      var init, last := s[..|s| - 1], s[|s| - 1];
      assert s == init + [last];
      FirstSeenSpec(init);
    }
  }

  /** One more element extends the first-seen order by that element exactly when it is new. */
  lemma FirstSeenSnoc<T(!new)>(s: seq<T>, x: T)
    ensures FirstSeen(s + [x]) == if x in s then FirstSeen(s) else FirstSeen(s) + [x]
  {
    assert (s + [x])[..|s|] == s;
    FirstSeenSpec(s);
  }

  /** Positions never move: the first-seen order of a prefix is a prefix of the
      first-seen order of the whole sequence. */
  lemma {:induction false} FirstSeenPrefix<T(!new)>(s: seq<T>, t: seq<T>)
    ensures FirstSeen(s) <= FirstSeen(s + t)
    decreases |t|
  {
    if t == [] {
      assert s + t == s;
    } else {
      var t', y := t[..|t| - 1], t[|t| - 1];
      assert s + t == (s + t') + [y];
      FirstSeenPrefix(s, t');
      FirstSeenSnoc(s + t', y);
      var before := FirstSeen(s + t');
      assert before <= before + [y];
    }
  }

  /** `m` gives each element of `order` its position in `order`, and has no other keys. */
  ghost predicate IndexesOrder<K(!new)>(m: map<K, nat>, order: seq<K>) {
    && (forall k :: k in m <==> k in order)
    && (forall k :: k in m ==> m[k] < |order|)
    && (forall i :: 0 <= i < |order| ==> m[order[i]] == i)
  }

  /** A map that indexes a duplicate-free order is a bijection between its keys
      and the positions `0 .. |order| - 1`: every key maps into range, and
      `order` is its inverse. */
  lemma IndexesOrderIsBijection<K(!new)>(m: map<K, nat>, order: seq<K>)
    requires NoDuplicates(order) && IndexesOrder(m, order)
    ensures forall k :: k in m ==> order[m[k]] == k
    ensures forall k, k' :: k in m && k' in m && m[k] == m[k'] ==> k == k'
  {
    forall k | k in m
      ensures order[m[k]] == k
    {
      var i :| 0 <= i < |order| && order[i] == k;
      assert m[order[i]] == i;
    }
  }

  /** Appending a new element at position `|order|` keeps the map an index of the order. */
  lemma IndexesOrderSnoc<K(!new)>(m: map<K, nat>, order: seq<K>, x: K)
    requires IndexesOrder(m, order) && x !in order
    ensures IndexesOrder(m[x := |order|], order + [x])
  {
    var m', order' := m[x := |order|], order + [x];
    forall i | 0 <= i < |order'|
      ensures m'[order'[i]] == i
    {
      if i < |order| {
        assert order'[i] == order[i] && order[i] != x;
      }
    }
  }
}
