/** The Python list operations the launcher relies on, over `seq`. */
module PyList {

  /** Index of the first `x` in `s` (Python `s.index(x)`). */
  function FirstIndexOf<T(==)>(s: seq<T>, x: T): (i: nat)
    requires x in s
    ensures i < |s| && s[i] == x && x !in s[..i]
  {
    if s[0] == x then 0 else 1 + FirstIndexOf(s[1..], x)
  }

  /** `list.remove(x)`: drop the first occurrence of `x`. */
  function RemoveFirst<T(==)>(s: seq<T>, x: T): (r: seq<T>)
    requires x in s
    ensures |r| == |s| - 1
    ensures forall y :: y in r ==> y in s
  {
    var i := FirstIndexOf(s, x);
    s[..i] + s[i + 1..]
  }

  /** The first occurrence is the one with no equal element before it. */
  lemma {:induction false} FirstIndexOfAt<T>(s: seq<T>, x: T, i: nat)
    requires i < |s| && s[i] == x && x !in s[..i]
    ensures FirstIndexOf(s, x) == i
  {
    if i > 0 {
      assert s[0] == s[..i][0];
      assert s[1..][..i - 1] == s[..i][1..];
      FirstIndexOfAt(s[1..], x, i - 1);
    }
  }

  /** Dropping index `i` shifts the entries after it down by one. */
  lemma DropAt<T>(s: seq<T>, i: nat, k: nat)
    requires i < |s| && k < |s| - 1
    ensures (s[..i] + s[i + 1..])[k] == if k < i then s[k] else s[k + 1]
  {
  }

  /** `list.remove(x)` takes away one `x` and nothing else. */
  lemma RemoveFirstMultiset<T>(s: seq<T>, x: T)
    requires x in s
    ensures multiset(RemoveFirst(s, x)) == multiset(s) - multiset{x}
  {
    var i := FirstIndexOf(s, x);
    assert s == s[..i] + [x] + s[i + 1..];
  }

  predicate NoDuplicates<T(==)>(s: seq<T>)
  {
    forall i, j :: 0 <= i < j < |s| ==> s[i] != s[j]
  }
}
