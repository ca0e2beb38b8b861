/** `sorted(keys, key=lambda k: score[k], reverse=True)[:n]`. Python's sort is stable,
    also with `reverse=True`, so keys of equal score keep their order in `keys`. */
module TopK {
  import opened Seqs
  import opened Dicts

  ghost predicate Scored<K>(s: seq<K>, score: map<K, real>)
  {
    forall x | x in s :: x in score
  }

  /** Non-increasing score along `s`. */
  ghost predicate SortedDesc<K>(s: seq<K>, score: map<K, real>)
    requires Scored(s, score)
  {
    forall i, j | 0 <= i < j < |s| :: score[s[i]] >= score[s[j]]
  }

  /** The keys of `s` whose score is `v`, in their order in `s`. */
  function Tied<K>(s: seq<K>, score: map<K, real>, v: real): seq<K>
    requires Scored(s, score)
  {
    if s == [] then [] else (if score[s[0]] == v then [s[0]] else []) + Tied(s[1..], score, v)
  }

  /** Places `k` after the keys of `s` with a strictly higher score and before the rest. */
  function Insert<K>(k: K, s: seq<K>, score: map<K, real>): (r: seq<K>)
    requires k in score && Scored(s, score)
    ensures |r| == |s| + 1
    ensures forall x | x in r :: x == k || x in s
    ensures forall x | x in s :: x in r
    ensures k in r
  {
    if s == [] || score[s[0]] <= score[k] then [k] + s
    else [s[0]] + Insert(k, s[1..], score)
  }

  /** Stable sort by non-increasing score. */
  function SortDesc<K>(ks: seq<K>, score: map<K, real>): (r: seq<K>)
    requires Scored(ks, score)
    ensures |r| == |ks|
    ensures forall x | x in r :: x in ks
    ensures forall x | x in ks :: x in r
  {
    if ks == [] then [] else Insert(ks[0], SortDesc(ks[1..], score), score)
  }

  /** The `n` best keys, best first: a prefix of the stable descending sort. */
  function Top<K>(ks: seq<K>, score: map<K, real>, n: nat): (r: seq<K>)
    requires Scored(ks, score)
    ensures |r| == if |ks| <= n then |ks| else n
    ensures forall x | x in r :: x in ks
    ensures Scored(r, score) && SortedDesc(r, score)
    ensures Distinct(ks) ==> Distinct(r)
    ensures forall x, y | x in ks && x !in r && y in r :: score[y] >= score[x]
  {
    TopFacts(ks, score, n);
    var s := SortDesc(ks, score);
    if |s| <= n then s else s[..n]
  }

  lemma TopFacts<K>(ks: seq<K>, score: map<K, real>, n: nat)
    requires Scored(ks, score)
    ensures var s := SortDesc(ks, score);
            var r := if |s| <= n then s else s[..n];
            && Scored(r, score) && SortedDesc(r, score)
            && (Distinct(ks) ==> Distinct(r))
            && forall x, y | x in ks && x !in r && y in r :: score[y] >= score[x]
  {
    var s := SortDesc(ks, score);
    SortDescSorted(ks, score);
    if Distinct(ks) {
      SortDescDistinct(ks, score);
    }
    var r := if |s| <= n then s else s[..n];
    assert forall i | 0 <= i < |r| :: r[i] == s[i];
    forall x, y | x in ks && x !in r && y in r
      ensures score[y] >= score[x]
    {
      var i :| 0 <= i < |s| && s[i] == x;
      var j :| 0 <= j < |r| && r[j] == y;
      assert i >= |r| > j;
    }
  }

  /** `sorted(d.keys(), key=lambda k: d[k], reverse=True)[:n]` for a score table `d`. */
  function TopKeys<K>(d: Dict<K, real>, n: nat): (r: seq<K>)
    requires d.Valid()
    ensures |r| == if |d.vals| <= n then |d.vals| else n
    ensures Distinct(r)
    ensures forall x | x in r :: x in d.vals
    ensures Scored(r, d.vals) && SortedDesc(r, d.vals)
    ensures forall x, y | x in d.vals && x !in r && y in r :: d.vals[y] >= d.vals[x]
  {
    ValidKeys(d);
    Top(d.keys, d.vals, n)
  }

  lemma {:induction false} InsertSorted<K>(k: K, s: seq<K>, score: map<K, real>)
    requires k in score && Scored(s, score) && SortedDesc(s, score)
    ensures SortedDesc(Insert(k, s, score), score)
  {
    if s != [] && score[s[0]] > score[k] {
      InsertSorted(k, s[1..], score);
      var t := Insert(k, s[1..], score);
      assert forall x | x in t :: score[s[0]] >= score[x] by {
        forall x | x in t ensures score[s[0]] >= score[x] {
          if x != k {
            var j :| 0 <= j < |s[1..]| && s[1..][j] == x;
            assert s[j + 1] == x;
          }
        }
      }
      assert forall j | 0 < j < |[s[0]] + t| :: ([s[0]] + t)[j] == t[j - 1];
    }
  }

  /** The descending sort is ordered by non-increasing score. */
  lemma {:induction false} SortDescSorted<K>(ks: seq<K>, score: map<K, real>)
    requires Scored(ks, score)
    ensures SortedDesc(SortDesc(ks, score), score)
  {
    if ks != [] {
      SortDescSorted(ks[1..], score);
      InsertSorted(ks[0], SortDesc(ks[1..], score), score);
    }
  }

  lemma {:induction false} InsertDistinct<K>(k: K, s: seq<K>, score: map<K, real>)
    requires k in score && Scored(s, score) && Distinct(s) && k !in s
    ensures Distinct(Insert(k, s, score))
  {
    if s != [] && score[s[0]] > score[k] {
      InsertDistinct(k, s[1..], score);
      assert s[0] !in s[1..];
    }
  }

  lemma {:induction false} SortDescDistinct<K>(ks: seq<K>, score: map<K, real>)
    requires Scored(ks, score) && Distinct(ks)
    ensures Distinct(SortDesc(ks, score))
  {
    if ks != [] {
      SortDescDistinct(ks[1..], score);
      assert ks[0] !in ks[1..];
      InsertDistinct(ks[0], SortDesc(ks[1..], score), score);
    }
  }

  lemma {:induction false} InsertPermutes<K>(k: K, s: seq<K>, score: map<K, real>)
    requires k in score && Scored(s, score)
    ensures multiset(Insert(k, s, score)) == multiset(s) + multiset{k}
  {
    if s != [] && score[s[0]] > score[k] {
      InsertPermutes(k, s[1..], score);
      assert s == [s[0]] + s[1..];
    }
  }

  /** The descending sort is a permutation of its input. */
  lemma {:induction false} SortDescPermutes<K>(ks: seq<K>, score: map<K, real>)
    requires Scored(ks, score)
    ensures multiset(SortDesc(ks, score)) == multiset(ks)
  {
    if ks != [] {
      SortDescPermutes(ks[1..], score);
      InsertPermutes(ks[0], SortDesc(ks[1..], score), score);
      assert ks == [ks[0]] + ks[1..];
    }
  }

  lemma {:induction false} InsertTied<K>(k: K, s: seq<K>, score: map<K, real>, v: real)
    requires k in score && Scored(s, score)
    ensures Tied(Insert(k, s, score), score, v)
         == (if score[k] == v then [k] else []) + Tied(s, score, v)
  {
    var kt := if score[k] == v then [k] else [];
    if s != [] && score[s[0]] > score[k] {
      var t := Insert(k, s[1..], score);
      InsertTied(k, s[1..], score, v);
      var st := if score[s[0]] == v then [s[0]] else [];
      assert ([s[0]] + t)[1..] == t;
      assert Tied([s[0]] + t, score, v) == st + Tied(t, score, v);
      assert st == [] || kt == [];
      assert st + (kt + Tied(s[1..], score, v)) == kt + (st + Tied(s[1..], score, v));
    } else {
      assert ([k] + s)[1..] == s;
      assert Tied([k] + s, score, v) == kt + Tied(s, score, v);
    }
  }

  /** Stability: for every score value, the keys having it appear in the sorted output
      in the same relative order as in the input. */
  lemma {:induction false} SortDescStable<K>(ks: seq<K>, score: map<K, real>, v: real)
    requires Scored(ks, score)
    ensures Tied(SortDesc(ks, score), score, v) == Tied(ks, score, v)
  {
    if ks != [] {
      SortDescStable(ks[1..], score, v);
      InsertTied(ks[0], SortDesc(ks[1..], score), score, v);
    }
  }

  /** The top-n list is the start of the stable descending sort, which is a sorted
      permutation of the keys whose ties keep the input order. */
  lemma TopIsStableSortPrefix<K>(ks: seq<K>, score: map<K, real>, n: nat)
    requires Scored(ks, score)
    ensures var s := SortDesc(ks, score);
            && Top(ks, score, n) == s[..|Top(ks, score, n)|]
            && multiset(s) == multiset(ks)
            && SortedDesc(s, score)
            && forall v :: Tied(s, score, v) == Tied(ks, score, v)
  {
    SortDescPermutes(ks, score);
    SortDescSorted(ks, score);
    forall v ensures Tied(SortDesc(ks, score), score, v) == Tied(ks, score, v) {
      SortDescStable(ks, score, v);
    }
  }

  /** When the table has no more than `n` keys, every key makes the cut. */
  lemma TopKeysAll<K>(d: Dict<K, real>, n: nat)
    requires d.Valid() && |d.vals| <= n
    ensures forall x | x in d.vals :: x in TopKeys(d, n)
  {
    var r := TopKeys(d, n);
    ElemsMembers(r);
    DistinctElems(r);
    SubsetSameSize(Elems(r), d.vals.Keys);
  }
}
