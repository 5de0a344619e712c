/** Sequences without duplicates, as the kernel's lists are. */
module SeqSets {
  ghost predicate NoDup<T>(s: seq<T>) {
    forall i, j :: 0 <= i < j < |s| ==> s[i] != s[j]
  }

  /** Index of the first x, or the length of s. */
  function IndexOf<T(==)>(s: seq<T>, x: T): (k: int)
    ensures 0 <= k <= |s|
    ensures k < |s| <==> x in s
    ensures k < |s| ==> s[k] == x
  {
    if s == [] then 0 else if s[0] == x then 0 else 1 + IndexOf(s[1..], x)
  }

  function RemovedAt<T>(s: seq<T>, k: int): seq<T>
    requires 0 <= k < |s|
  {
    s[..k] + s[k + 1..]
  }

  function InsertedAt<T>(s: seq<T>, k: int, x: T): seq<T>
    requires 0 <= k <= |s|
  {
    s[..k] + [x] + s[k..]
  }

  /** s without the first occurrence of x. */
  function Without<T(==)>(s: seq<T>, x: T): seq<T> {
    if IndexOf(s, x) < |s| then RemovedAt(s, IndexOf(s, x)) else s
  }

  /** Position in s of what stands at position i of Without(s, x). */
  function Before<T(==)>(s: seq<T>, x: T, i: int): int {
    if i < IndexOf(s, x) then i else i + 1
  }

  lemma WithoutAt<T>(s: seq<T>, x: T)
    requires x in s
    ensures |Without(s, x)| == |s| - 1
    ensures forall i :: 0 <= i < |Without(s, x)| ==> Before(s, x, i) < |s| && Without(s, x)[i] == s[Before(s, x, i)]
  {
    hide IndexOf;
  }

  lemma WithoutMembers<T>(s: seq<T>, x: T)
    requires NoDup(s)
    ensures NoDup(Without(s, x))
    ensures forall y :: y in Without(s, x) <==> y in s && y != x
    ensures x in s ==> |Without(s, x)| == |s| - 1
  {
    hide IndexOf;
    var k, w := IndexOf(s, x), Without(s, x);
    if x in s {
      forall y ensures y in w <==> y in s && y != x {
        if y in s && y != x {
          var i :| 0 <= i < |s| && s[i] == y;
          assert y == w[if i < k then i else i - 1];
        }
      }
    }
  }

  lemma SnocMembers<T>(s: seq<T>, x: T)
    requires NoDup(s) && x !in s
    ensures NoDup(s + [x])
    ensures forall y :: y in s + [x] <==> y in s || y == x
  {
  }

  lemma InsertedMembers<T>(s: seq<T>, k: int, x: T)
    requires NoDup(s) && x !in s && 0 <= k <= |s|
    ensures NoDup(InsertedAt(s, k, x))
    ensures forall y :: y in InsertedAt(s, k, x) <==> y in s || y == x
  {
    var t := InsertedAt(s, k, x);
    forall i, j | 0 <= i < j < |t| ensures t[i] != t[j] {
      var i0, j0 := if i < k then i else i - 1, if j < k then j else j - 1;
      assert i != k ==> t[i] == s[i0];
      assert j != k ==> t[j] == s[j0];
    }
    assert s == s[..k] + s[k..];
  }
}
