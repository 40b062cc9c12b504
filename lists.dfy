/** The Python list methods the core relies on: list.index and list.remove. */
module Lists {

  /** No element occurs twice in s. */
  predicate Distinct<T(==)>(s: seq<T>) {
    forall i, j :: 0 <= i < j < |s| ==> s[i] != s[j]
  }

  /** list.index(x): the position of the first occurrence of x, or |s| when x does not occur
      (where Python raises ValueError; callers decide what that means). */
  function FirstIndex<T(==)>(s: seq<T>, x: T): (i: nat)
    ensures i <= |s|
    ensures i < |s| <==> x in s
    ensures i < |s| ==> s[i] == x
    ensures x !in s[..i]
  {
    if s == [] then 0
    else if s[0] == x then 0
    else
      assert s[1..][..FirstIndex(s[1..], x)] == s[1..1 + FirstIndex(s[1..], x)];
      1 + FirstIndex(s[1..], x)
  }

  /** list.remove(x): s without its first occurrence of x; s itself when x does not occur
      (where Python raises ValueError). */
  function RemoveFirst<T(==)>(s: seq<T>, x: T): (r: seq<T>)
    ensures x in s ==> |r| == |s| - 1 && multiset(r) == multiset(s) - multiset{x}
    ensures x !in s ==> r == s
  {
    var i := FirstIndex(s, x);
    if i < |s| then
      assert s == s[..i] + [x] + s[i + 1..];
      s[..i] + s[i + 1..]
    else s
  }

  /** Removal deletes the first occurrence only: everything before it stays in place and
      everything after it moves one slot to the left. */
  lemma RemoveFirstKeepsOrder<T>(s: seq<T>, x: T)
    requires x in s
    ensures var i := FirstIndex(s, x);
      && s[i] == x && x !in s[..i]
      && (forall k :: 0 <= k < i ==> RemoveFirst(s, x)[k] == s[k])
      && (forall k :: i <= k < |s| - 1 ==> RemoveFirst(s, x)[k] == s[k + 1])
  {
  }

  /** When x is not the head of s, removing it keeps the head and takes every other survivor from s's tail. */
  lemma RemoveFirstKeepsHead<T>(s: seq<T>, x: T)
    requires |s| > 0 && s[0] != x
    ensures |RemoveFirst(s, x)| > 0 && RemoveFirst(s, x)[0] == s[0]
    ensures forall k :: 1 <= k < |RemoveFirst(s, x)| ==> RemoveFirst(s, x)[k] in s[1..]
  {
    var r := RemoveFirst(s, x);
    if x in s {
      var i := FirstIndex(s, x);
      assert 1 <= i;
      forall k | 1 <= k < |r| ensures r[k] in s[1..] {
        if k < i { assert r[k] == s[1..][k - 1]; } else { assert r[k] == s[1..][k]; }
      }
    } else {
      forall k | 1 <= k < |r| ensures r[k] in s[1..] { assert r[k] == s[1..][k - 1]; }
    }
  }

  /** Removing an element keeps a list free of duplicates. */
  lemma RemoveFirstKeepsDistinct<T>(s: seq<T>, x: T)
    requires Distinct(s)
    ensures Distinct(RemoveFirst(s, x))
  {
    if x in s {
      var i := FirstIndex(s, x);
      var r := RemoveFirst(s, x);
      forall a, b | 0 <= a < b < |r| ensures r[a] != r[b] {
        var a' := if a < i then a else a + 1;
        var b' := if b < i then b else b + 1;
        assert r[a] == s[a'] && r[b] == s[b'] && a' < b';
      }
    }
  }

  /** Appending an element that is absent keeps a list free of duplicates. */
  lemma AppendKeepsDistinct<T>(s: seq<T>, x: T)
    requires Distinct(s) && x !in s
    ensures Distinct(s + [x])
  {
  }

  /** Two permutations of each other stay permutations once the head of the first and an equal
      element of the second are taken out. */
  lemma PermutationWithoutHead<T>(a: seq<T>, b: seq<T>, j: nat)
    requires multiset(a) == multiset(b) && |a| > 0 && j < |b| && b[j] == a[0]
    ensures multiset(a[1..]) == multiset(b[..j] + b[j + 1..])
  {
    assert a == [a[0]] + a[1..];
    assert b == b[..j] + [b[j]] + b[j + 1..];
    assert multiset(b) == multiset(b[..j]) + multiset([b[j]]) + multiset(b[j + 1..]);
    assert multiset(b[..j] + b[j + 1..]) == multiset(b[..j]) + multiset(b[j + 1..]);
    assert multiset(a) == multiset([a[0]]) + multiset(a[1..]);
    assert multiset(a[1..]) == multiset(a) - multiset([a[0]]);
    assert multiset(b[..j] + b[j + 1..]) == multiset(b) - multiset([b[j]]);
  }
}
