/**
 * The MongoDB query stages the routes use (`$match`/`find`, `$sort` on a
 * numeric key descending, `$group` with `$first`, `$group` with
 * `$sum: 1`), over a collection given as a sequence of documents.
 */
module Query {

  /** Sorted by `key`, largest first. */
  predicate NonIncreasing<X>(s: seq<X>, key: X -> int) {
    forall i, j :: 0 <= i < j < |s| ==> key(s[i]) >= key(s[j])
  }

  /** No document of `s` has a key above `t`. */
  predicate AtMost<X>(s: seq<X>, key: X -> int, t: int) {
    forall i :: 0 <= i < |s| ==> key(s[i]) <= t
  }

  lemma PrependKeepsOrder<X>(x: X, s: seq<X>, key: X -> int)
    requires NonIncreasing(s, key) && AtMost(s, key, key(x))
    ensures NonIncreasing([x] + s, key)
  {
  }

  /** `$match`: the documents satisfying `p`, in collection order. */
  function Select<X(==,!new)>(s: seq<X>, p: X -> bool): (r: seq<X>)
    ensures forall x :: multiset(r)[x] == if p(x) then multiset(s)[x] else 0
    ensures forall x :: x in r <==> x in s && p(x)
    ensures forall i :: 0 <= i < |r| ==> p(r[i])
    decreases |s|
  {
    if s == [] then []
    else
      var rest := Select(s[1..], p);
      assert s == [s[0]] + s[1..];
      assert multiset(s) == multiset{s[0]} + multiset(s[1..]);
      if p(s[0]) then
        assert multiset([s[0]] + rest) == multiset{s[0]} + multiset(rest);
        [s[0]] + rest
      else
        rest
  }

  /** Filtering keeps the order of a sorted collection. */
  lemma {:induction false} SelectKeepsOrder<X(!new)>(s: seq<X>, p: X -> bool, key: X -> int)
    requires NonIncreasing(s, key)
    ensures NonIncreasing(Select(s, p), key)
    decreases |s|
  {
    if s != [] {
      var rest := Select(s[1..], p);
      SelectKeepsOrder(s[1..], p, key);
      if p(s[0]) {
        forall i | 0 <= i < |rest| ensures key(rest[i]) <= key(s[0]) {
          assert rest[i] in s[1..];
        }
        PrependKeepsOrder(s[0], rest, key);
      }
    }
  }

  function InsertDesc<X(==)>(x: X, s: seq<X>, key: X -> int): (r: seq<X>)
    requires NonIncreasing(s, key)
    ensures NonIncreasing(r, key)
    ensures multiset(r) == multiset(s) + multiset{x}
    ensures forall t :: AtMost(s, key, t) && key(x) <= t ==> AtMost(r, key, t)
    decreases |s|
  {
    if s == [] || key(s[0]) <= key(x) then
      [x] + s
    else
      var rest := InsertDesc(x, s[1..], key);
      assert s == [s[0]] + s[1..];
      PrependKeepsOrder(s[0], rest, key);
      [s[0]] + rest
  }

  /** `$sort: {key: -1}`; the order among equal keys is not promised. */
  function SortDesc<X(==)>(s: seq<X>, key: X -> int): (r: seq<X>)
    ensures NonIncreasing(r, key)
    ensures multiset(r) == multiset(s)
    decreases |s|
  {
    if s == [] then []
    else
      assert s == [s[0]] + s[1..];
      InsertDesc(s[0], SortDesc(s[1..], key), key)
  }

  /** The distinct group keys of a collection. */
  function GroupsOf<X, K(!new)>(s: seq<X>, group: X -> K): (r: set<K>)
    ensures forall g :: g in r <==> exists i :: 0 <= i < |s| && group(s[i]) == g
    decreases |s|
  {
    if s == [] then {}
    else
      assert forall i :: 1 <= i < |s| ==> s[i] == s[1..][i - 1];
      {group(s[0])} + GroupsOf(s[1..], group)
  }

  /**
   * `$group: {_id: group, first: {$first: "$$ROOT"}}`: the first document of
   * each group not in `seen`, in order of first appearance.
   */
  function FirstPerGroup<X(==), K(==,!new)>(s: seq<X>, group: X -> K, seen: set<K>): (r: seq<X>)
    ensures forall k :: 0 <= k < |r| ==> r[k] in s
    ensures forall k, l :: 0 <= k < l < |r| ==> group(r[k]) != group(r[l])
    ensures GroupsOf(r, group) == GroupsOf(s, group) - seen
    decreases |s|
  {
    if s == [] then []
    else if group(s[0]) in seen then
      assert GroupsOf(s, group) == {group(s[0])} + GroupsOf(s[1..], group);
      FirstPerGroup(s[1..], group, seen)
    else
      var rest := FirstPerGroup(s[1..], group, seen + {group(s[0])});
      var r := [s[0]] + rest;
      assert r[1..] == rest;
      assert GroupsOf(s, group) == {group(s[0])} + GroupsOf(s[1..], group);
      assert GroupsOf(r, group) == {group(s[0])} + GroupsOf(rest, group);
      assert forall l :: 0 <= l < |rest| ==> group(rest[l]) in GroupsOf(rest, group);
      r
  }

  /** Every group not in `seen` has a first document. */
  lemma GroupHasFirst<X, K(!new)>(s: seq<X>, group: X -> K, seen: set<K>, j: nat) returns (k: nat)
    requires j < |s| && group(s[j]) !in seen
    ensures k < |FirstPerGroup(s, group, seen)| && group(FirstPerGroup(s, group, seen)[k]) == group(s[j])
  {
    var r := FirstPerGroup(s, group, seen);
    assert group(s[j]) in GroupsOf(s, group);
    assert group(s[j]) in GroupsOf(r, group);
    k :| 0 <= k < |r| && group(r[k]) == group(s[j]);
  }

  /** No document before position `j` shares the group of `s[j]`. */
  predicate FirstOfGroupAt<X, K(==)>(s: seq<X>, group: X -> K, j: nat)
    requires j < |s|
  {
    forall i :: 0 <= i < j ==> group(s[i]) != group(s[j])
  }

  lemma FirstOfGroupShift<X, K>(s: seq<X>, group: X -> K, j: nat)
    requires 0 < j < |s| && FirstOfGroupAt(s[1..], group, j - 1) && group(s[0]) != group(s[j])
    ensures FirstOfGroupAt(s, group, j)
  {
    forall i | 0 < i < j ensures group(s[i]) != group(s[j]) {
      assert s[i] == s[1..][i - 1] && s[j] == s[1..][j - 1];
    }
  }

  /**
   * Each entry of the `$first` result is the first document of its group:
   * it sits at some position `j` of the input, its group is not in `seen`
   * and no earlier document shares its group.
   */
  lemma {:induction false} FirstPerGroupIsFirst<X, K(!new)>(s: seq<X>, group: X -> K, seen: set<K>, k: nat)
    returns (j: nat)
    requires k < |FirstPerGroup(s, group, seen)|
    ensures j < |s| && s[j] == FirstPerGroup(s, group, seen)[k]
    ensures group(s[j]) !in seen && FirstOfGroupAt(s, group, j)
    decreases |s|
  {
    assert s != [];
    if group(s[0]) in seen {
      var j' := FirstPerGroupIsFirst(s[1..], group, seen, k);
      j := j' + 1;
      FirstOfGroupShift(s, group, j);
    } else if k == 0 {
      j := 0;
    } else {
      var rest := FirstPerGroup(s[1..], group, seen + {group(s[0])});
      assert FirstPerGroup(s, group, seen) == [s[0]] + rest;
      var j' := FirstPerGroupIsFirst(s[1..], group, seen + {group(s[0])}, k - 1);
      j := j' + 1;
      FirstOfGroupShift(s, group, j);
    }
  }

  /** No document of group `g` in `s` has a key above `t`. */
  predicate GroupAtMost<X, K(==)>(s: seq<X>, group: X -> K, g: K, key: X -> int, t: int) {
    forall i :: 0 <= i < |s| && group(s[i]) == g ==> key(s[i]) <= t
  }

  lemma GroupAtMostCons<X, K>(s: seq<X>, group: X -> K, g: K, key: X -> int, t: int)
    requires s != [] && GroupAtMost(s[1..], group, g, key, t)
    requires group(s[0]) == g ==> key(s[0]) <= t
    ensures GroupAtMost(s, group, g, key, t)
  {
    forall i | 0 <= i < |s| && group(s[i]) == g ensures key(s[i]) <= t {
      if i > 0 {
        assert s[i] == s[1..][i - 1];
      }
    }
  }

  /** On a collection sorted by `key`, the first document of a group has the group's largest key. */
  lemma {:induction false} FirstPerGroupIsLargest<X, K(!new)>(
    s: seq<X>, group: X -> K, seen: set<K>, key: X -> int)
    requires NonIncreasing(s, key)
    ensures forall k :: 0 <= k < |FirstPerGroup(s, group, seen)| ==>
              var first := FirstPerGroup(s, group, seen)[k];
              GroupAtMost(s, group, group(first), key, key(first))
    decreases |s|
  {
    if s == [] {
    } else {
      var seen' := if group(s[0]) in seen then seen else seen + {group(s[0])};
      var rest := FirstPerGroup(s[1..], group, seen');
      FirstPerGroupIsLargest(s[1..], group, seen', key);
      forall k | 0 <= k < |rest| ensures GroupAtMost(s, group, group(rest[k]), key, key(rest[k])) {
        assert group(rest[k]) in GroupsOf(rest, group);
        assert GroupAtMost(s[1..], group, group(rest[k]), key, key(rest[k]));
        GroupAtMostCons(s, group, group(rest[k]), key, key(rest[k]));
      }
      if group(s[0]) !in seen {
        assert GroupAtMost(s, group, group(s[0]), key, key(s[0]));
      }
    }
  }

  /** The number of documents of group `g` that satisfy `p`. */
  function CountIn<X, K(==)>(s: seq<X>, p: X -> bool, group: X -> K, g: K): (n: nat)
    ensures n <= |s|
    ensures n >= 1 <==> exists i :: 0 <= i < |s| && group(s[i]) == g && p(s[i])
    decreases |s|
  {
    if s == [] then 0
    else
      var rest := CountIn(s[1..], p, group, g);
      assert forall i :: 1 <= i < |s| ==> s[i] == s[1..][i - 1];
      (if group(s[0]) == g && p(s[0]) then 1 else 0) + rest
  }

  /** Appending one document changes only its own group's count, by one if it matches. */
  lemma {:induction false} CountInAppend<X, K>(s: seq<X>, x: X, p: X -> bool, group: X -> K, g: K)
    ensures CountIn(s + [x], p, group, g) == CountIn(s, p, group, g) + (if group(x) == g && p(x) then 1 else 0)
    decreases |s|
  {
    if s != [] {
      assert (s + [x])[1..] == s[1..] + [x];
      CountInAppend(s[1..], x, p, group, g);
    }
  }

  /**
   * `$match: p` then `$group: {_id: group, count: {$sum: 1}}`: one entry per
   * group with at least one matching document.
   */
  function GroupCounts<X, K(==,!new)>(s: seq<X>, p: X -> bool, group: X -> K): (r: map<K, nat>)
    ensures forall g :: g in r <==> CountIn(s, p, group, g) >= 1
    ensures forall g :: g in r ==> r[g] == CountIn(s, p, group, g)
  {
    map g | g in (set i | 0 <= i < |s| && p(s[i]) :: group(s[i])) :: CountIn(s, p, group, g)
  }

  /** Appending a document adds one to its group's entry when it matches, and changes nothing else. */
  lemma GroupCountsAppend<X, K(!new)>(s: seq<X>, x: X, p: X -> bool, group: X -> K)
    ensures var before := GroupCounts(s, p, group);
            GroupCounts(s + [x], p, group)
            == if p(x) then before[group(x) := (if group(x) in before then before[group(x)] else 0) + 1]
               else before
  {
    var before := GroupCounts(s, p, group);
    var after := GroupCounts(s + [x], p, group);
    var expected := if p(x) then before[group(x) := (if group(x) in before then before[group(x)] else 0) + 1]
                    else before;
    forall g ensures (g in after <==> g in expected) && (g in after ==> after[g] == expected[g]) {
      CountInAppend(s, x, p, group, g);
    }
  }

  /** Two collections whose counts agree except that group `h` has none in `t` differ only by `h`'s entry. */
  lemma GroupCountsWithout<X, K(!new)>(s: seq<X>, t: seq<X>, p: X -> bool, group: X -> K, h: K)
    requires forall g :: CountIn(t, p, group, g) == if g == h then 0 else CountIn(s, p, group, g)
    ensures GroupCounts(t, p, group) == GroupCounts(s, p, group) - {h}
  {
  }
}
