/** Facts about sequences shared by the rest of the model. */
module Seqs {

  /** No element occurs twice. */
  predicate Distinct<T(==)>(s: seq<T>)
  {
    forall i, j | 0 <= i < j < |s| :: s[i] != s[j]
  }

  /** The elements of `s`, each at its first occurrence: the order in which a Python
      dict or an offset table first sees its keys. */
  function FirstOccurrences<T(==)>(s: seq<T>): (r: seq<T>)
    ensures Distinct(r)
    ensures forall x | x in r :: x in s
    ensures forall x | x in s :: x in r
  {
    if s == [] then []
    else
      var p := FirstOccurrences(s[..|s| - 1]);
      assert forall x | x in s :: x in s[..|s| - 1] || x == s[|s| - 1];
      if s[|s| - 1] in p then p else p + [s[|s| - 1]]
  }

  /** Position of the first occurrence of `x` in `s`. */
  function IndexOf<T(==)>(s: seq<T>, x: T): (k: nat)
    requires x in s
    ensures k < |s| && s[k] == x && x !in s[..k]
  {
    if s[0] == x then 0
    else
      assert x in s[1..];
      var k := IndexOf(s[1..], x);
      assert s[..k + 1] == [s[0]] + s[1..][..k];
      k + 1
  }

  /** In a sequence without repetitions the first occurrence is the only one. */
  lemma IndexOfDistinct<T>(s: seq<T>, k: nat)
    requires Distinct(s) && k < |s|
    ensures IndexOf(s, s[k]) == k
  {
  }

  /** The set of the elements of `s`. */
  function Elems<T>(s: seq<T>): set<T>
  {
    if s == [] then {} else Elems(s[..|s| - 1]) + {s[|s| - 1]}
  }

  /** `Elems` holds exactly the members of the sequence. */
  lemma {:induction false} ElemsMembers<T>(s: seq<T>)
    ensures forall x | x in Elems(s) :: x in s
    ensures forall x | x in s :: x in Elems(s)
  {
    if s != [] {
      var p := s[..|s| - 1];
      ElemsMembers(p);
      assert s == p + [s[|s| - 1]];
    }
  }

  /** Appending one element adds it to the set. */
  lemma ElemsSnoc<T>(s: seq<T>, x: T)
    ensures Elems(s + [x]) == Elems(s) + {x}
  {
    assert (s + [x])[..|s|] == s;
  }

  /** A sequence without repetitions has as many elements as its set. */
  lemma {:induction false} DistinctElems<T>(s: seq<T>)
    requires Distinct(s)
    ensures |Elems(s)| == |s|
  {
    if s != [] {
      var p := s[..|s| - 1];
      assert Distinct(p);
      DistinctElems(p);
      ElemsMembers(p);
      assert s[|s| - 1] !in p;
    }
  }

  /** A subset as large as its superset is the whole superset. */
  lemma {:induction false} SubsetSameSize<T>(a: set<T>, b: set<T>)
    requires a <= b && |a| == |b|
    ensures a == b
  {
    if a != b {
      var x :| x in b && x !in a;
      assert a <= b - {x};
      SubsetSize(a, b - {x});
      assert false;
    }
  }

  /** A subset is no larger than its superset. */
  lemma {:induction false} SubsetSize<T>(a: set<T>, b: set<T>)
    requires a <= b
    ensures |a| <= |b|
  {
    if a != {} {
      var x :| x in a;
      SubsetSize(a - {x}, b - {x});
    }
  }

  /** Membership in a prefix one longer. */
  lemma PrefixSnoc<T>(s: seq<T>, x: T, k: nat)
    requires k < |s|
    ensures x in s[..k + 1] <==> x in s[..k] || x == s[k]
  {
    assert s[..k + 1] == s[..k] + [s[k]];
  }

  /** A prefix is the prefix one shorter and its last element. */
  lemma PrefixLast<T>(s: seq<T>, m: nat)
    requires 0 < m <= |s|
    ensures s[..m] == s[..m - 1] + [s[m - 1]]
  {
  }

  /** `FirstOccurrences` has the members of its argument, as a fact about terms. */
  lemma FirstOccurrencesMembers<T>(s: seq<T>)
    ensures forall x :: x in FirstOccurrences(s) <==> x in s
  {
  }

  /** A prefix one longer is the prefix and the next element. */
  lemma PrefixNext<T>(s: seq<T>, n: nat)
    requires n < |s|
    ensures s[..n + 1] == s[..n] + [s[n]]
  {
  }

  /** One more element adds itself to the first occurrences, unless it was seen. */
  lemma FirstOccurrencesNext<T>(s: seq<T>, k: nat)
    requires k < |s|
    ensures FirstOccurrences(s[..k + 1])
            == if s[k] in FirstOccurrences(s[..k]) then FirstOccurrences(s[..k])
               else FirstOccurrences(s[..k]) + [s[k]]
  {
    assert s[..k + 1][..k] == s[..k];
  }

  /** The first occurrences of a prefix are a prefix of the first occurrences. */
  lemma {:induction false} FirstOccurrencesPrefix<T>(s: seq<T>, k: nat)
    requires k <= |s|
    ensures var p := FirstOccurrences(s[..k]);
            |p| <= |FirstOccurrences(s)| && p == FirstOccurrences(s)[..|p|]
  {
    if k < |s| {
      var init := s[..|s| - 1];
      FirstOccurrencesPrefix(init, k);
      assert init[..k] == s[..k];
    } else {
      assert s[..k] == s;
    }
  }

  /** Distinct sequences that agree on a prefix place its elements alike. */
  lemma IndexOfPrefix<T>(p: seq<T>, q: seq<T>, x: T)
    requires Distinct(q) && |p| <= |q| && p == q[..|p|] && x in p
    ensures IndexOf(p, x) == IndexOf(q, x)
  {
    var i := IndexOf(p, x);
    IndexOfDistinct(q, i);
  }

  /** Taking the `j`-th element out of a distinct sequence leaves a distinct sequence
      holding every other element and not that one. */
  lemma DistinctRemove<T>(s: seq<T>, j: nat)
    requires Distinct(s) && j < |s|
    ensures Distinct(s[..j] + s[j + 1..])
    ensures forall x :: x in s[..j] + s[j + 1..] <==> x in s && x != s[j]
  {
    var r := s[..j] + s[j + 1..];
    assert forall k | 0 <= k < |r| :: r[k] == s[if k < j then k else k + 1];
    forall x | x in s && x != s[j] ensures x in r {
      var k :| 0 <= k < |s| && s[k] == x;
      assert r[if k < j then k else k - 1] == x;
    }
  }
}
