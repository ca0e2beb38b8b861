/** Python's dict as the modelled code uses it: an insertion-ordered table (iteration
    visits keys in the order they were first inserted; assigning to an existing key keeps
    its place), with the `defaultdict` reading that yields a default for a missing key. */
module Dicts {
  import opened Seqs

  datatype Dict<K, V> = Dict(keys: seq<K>, vals: map<K, V>)
  {
    /** `keys` lists every key of `vals` exactly once. */
    ghost predicate Valid()
    {
      Distinct(keys) && (forall i | 0 <= i < |keys| :: keys[i] in vals) && |vals| == |keys|
    }

    /** `d[k] = v`: a new key goes to the end, an existing one keeps its position. */
    function Put(k: K, v: V): (d: Dict<K, V>)
      requires Valid()
      ensures d.Valid()
      ensures d.vals == vals[k := v]
      ensures d.keys == if k in vals then keys else keys + [k]
    {
      if k in vals then Dict(keys, vals[k := v])
      else Dict(keys + [k], vals[k := v])
    }
  }

  /** In a valid table a key is listed exactly when it has a value. */
  lemma ValidKeys<K, V>(d: Dict<K, V>)
    requires d.Valid()
    ensures forall k :: k in d.keys <==> k in d.vals
  {
    var ks := d.keys;
    ElemsMembers(ks);
    DistinctElems(ks);
    forall k | k in Elems(ks) ensures k in d.vals {
      var i :| 0 <= i < |ks| && ks[i] == k;
    }
    SubsetSameSize(Elems(ks), d.vals.Keys);
  }

  function Empty<K, V>(): (d: Dict<K, V>)
    ensures d.Valid() && d.keys == [] && d.vals == map[]
  {
    Dict([], map[])
  }

  /** Reading `d[k]` on a defaultdict without inserting: the value, or `dflt` when absent. */
  function GetOr<K, V>(d: Dict<K, V>, k: K, dflt: V): V
  {
    if k in d.vals then d.vals[k] else dflt
  }

  /** `d[k] += x` on a `defaultdict(float)`. */
  function AddTo<K>(d: Dict<K, real>, k: K, x: real): (r: Dict<K, real>)
    requires d.Valid()
    ensures r.Valid()
  {
    d.Put(k, GetOr(d, k, 0.0) + x)
  }

  /** `if c in own: continue` followed by `scores[c] += x`: one candidate item `c` of
      weight `x` is scored unless the user's own profile `own` already has it. */
  function AddUnowned<K>(scores: Dict<K, real>, own: Dict<K, real>, c: K, x: real): (r: Dict<K, real>)
    requires scores.Valid()
    ensures r.Valid()
    ensures c in own.vals ==> r == scores
    ensures c !in own.vals ==> r.vals == scores.vals[c := GetOr(scores, c, 0.0) + x]
    ensures c !in own.vals ==> r.keys == if c in scores.vals then scores.keys else scores.keys + [c]
  {
    if c in own.vals then scores else AddTo(scores, c, x)
  }

  /** The keys of a sequence of score contributions, in order. */
  function Firsts<K>(cs: seq<(K, real)>): (ks: seq<K>)
    ensures |ks| == |cs|
    ensures forall j | 0 <= j < |cs| :: ks[j] == cs[j].0
  {
    if cs == [] then [] else Firsts(cs[..|cs| - 1]) + [cs[|cs| - 1].0]
  }

  /** The table `d` becomes after `d[k] += x` for each (k, x) of `cs`, in order. */
  function AddAll<K>(d: Dict<K, real>, cs: seq<(K, real)>): (r: Dict<K, real>)
    requires d.Valid()
    ensures r.Valid()
  {
    if cs == [] then d else AddTo(AddAll(d, cs[..|cs| - 1]), cs[|cs| - 1].0, cs[|cs| - 1].1)
  }

  /** The table a fresh `defaultdict(float)` holds after the contributions `cs`. */
  function Accumulate<K>(cs: seq<(K, real)>): (d: Dict<K, real>)
    ensures d.Valid()
  {
    AddAll(Empty(), cs)
  }

  /** One more contribution is one more `+=`. */
  lemma AddAllSnoc<K>(d: Dict<K, real>, cs: seq<(K, real)>, k: K, x: real)
    requires d.Valid()
    ensures AddAll(d, cs + [(k, x)]) == AddTo(AddAll(d, cs), k, x)
  {
    assert (cs + [(k, x)])[..|cs|] == cs;
  }

  /** Adding two runs of contributions one after the other is adding their concatenation. */
  lemma {:induction false} AddAllConcat<K>(d: Dict<K, real>, a: seq<(K, real)>, b: seq<(K, real)>)
    requires d.Valid()
    ensures AddAll(d, a + b) == AddAll(AddAll(d, a), b)
  {
    if b == [] {
      assert a + b == a;
    } else {
      var p, l := b[..|b| - 1], b[|b| - 1];
      assert b == p + [l];
      assert a + b == (a + p) + [l];
      AddAllConcat(d, a, p);
      AddAllSnoc(d, a + p, l.0, l.1);
      AddAllSnoc(AddAll(d, a), p, l.0, l.1);
    }
  }

  /** Total of the contributions made to key `k`. */
  function SumFor<K(==)>(cs: seq<(K, real)>, k: K): real
  {
    if cs == [] then 0.0
    else SumFor(cs[..|cs| - 1], k) + (if cs[|cs| - 1].0 == k then cs[|cs| - 1].1 else 0.0)
  }

  /** Each key's accumulated score is the sum of its contributions (zero for keys that
      received none). */
  lemma {:induction false} AccumulateValue<K>(cs: seq<(K, real)>, k: K)
    ensures GetOr(Accumulate(cs), k, 0.0) == SumFor(cs, k)
  {
    if cs != [] {
      AccumulateValue(cs[..|cs| - 1], k);
    }
  }

  /** The score table holds the keys in the order in which they first received a
      contribution: exactly the keys that received one. */
  lemma {:induction false} AccumulateKeys<K>(cs: seq<(K, real)>)
    ensures Accumulate(cs).keys == FirstOccurrences(Firsts(cs))
    ensures forall k | k in Firsts(cs) :: k in Accumulate(cs).vals
    ensures forall k | k in Accumulate(cs).vals :: k in Firsts(cs)
  {
    if cs != [] {
      var p := cs[..|cs| - 1];
      AccumulateKeys(p);
      assert Firsts(cs)[..|cs| - 1] == Firsts(p);
    }
  }

  /** Contributions split at any point add up. */
  lemma {:induction false} SumForConcat<K>(a: seq<(K, real)>, b: seq<(K, real)>, k: K)
    ensures SumFor(a + b, k) == SumFor(a, k) + SumFor(b, k)
  {
    if b != [] {
      SumForConcat(a, b[..|b| - 1], k);
      assert (a + b)[..|a + b| - 1] == a + b[..|b| - 1];
    } else {
      assert a + b == a;
    }
  }

  /** A single contribution counts only for its own key. */
  lemma SumForOne<K>(k: K, x: real, c: K)
    ensures SumFor([(k, x)], c) == if k == c then x else 0.0
  {
    assert [(k, x)][..0] == [];
  }

  /** Firsts distributes over concatenation. */
  lemma FirstsConcat<K>(a: seq<(K, real)>, b: seq<(K, real)>)
    ensures Firsts(a + b) == Firsts(a) + Firsts(b)
  {
    assert forall j | 0 <= j < |a + b| :: Firsts(a + b)[j] == (Firsts(a) + Firsts(b))[j];
  }

  /** Assigning a key twice leaves the second value. */
  lemma PutPut<K, V>(d: Dict<K, V>, k: K, a: V, b: V)
    requires d.Valid()
    ensures d.Put(k, a).Put(k, b) == d.Put(k, b)
  {
  }

  /** Assigning a key the value it already holds changes nothing. */
  lemma PutSame<K, V>(d: Dict<K, V>, k: K)
    requires d.Valid() && k in d.vals
    ensures d.Put(k, d.vals[k]) == d
  {
  }
}
