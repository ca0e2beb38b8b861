/** The recommender that first detects, for every user, up to 50 most similar users
    (cosine similarity of the profiles, among up to 1000 candidates sharing items) and
    then scores the items of those neighbours by similarity times weight. */
module UserNeighbours {
  import opened Seqs
  import opened Dicts
  import opened TopK
  import opened GraphStore
  import opened Reals

  /** `profile_b[i]` on a `defaultdict(float)`: reading a missing key inserts it with
      0.0. The table after the read. */
  function Touch(b: Dict<ItemId, real>, i: ItemId): (r: Dict<ItemId, real>)
    requires b.Valid()
    ensures r.Valid()
    ensures i in r.vals && r.vals == if i in b.vals then b.vals else b.vals[i := 0.0]
    ensures r.keys == if i in b.vals then b.keys else b.keys + [i]
  {
    if i in b.vals then b else b.Put(i, 0.0)
  }

  /** `profile_b` after the first `m` turns of the loop of `get_similarity`, which reads
      `profile_b[i]` for each key `i` of `profile_a`. */
  function Padded(a: Dict<ItemId, real>, b: Dict<ItemId, real>, m: nat): (r: Dict<ItemId, real>)
    requires a.Valid() && b.Valid() && m <= |a.keys|
    ensures r.Valid()
  {
    if m == 0 then b else Touch(Padded(a, b, m - 1), a.keys[m - 1])
  }

  /** `q` is `p` with extra keys appended, each holding 0.0; no entry of `p` changes. */
  ghost predicate Extends(p: Dict<ItemId, real>, q: Dict<ItemId, real>)
  {
    && |p.keys| <= |q.keys| && q.keys[..|p.keys|] == p.keys
    && (forall k | k in p.vals :: k in q.vals && q.vals[k] == p.vals[k])
    && (forall k | k in q.vals && k !in p.vals :: q.vals[k] == 0.0)
  }

  lemma ExtendsTrans(p: Dict<ItemId, real>, q: Dict<ItemId, real>, r: Dict<ItemId, real>)
    requires Extends(p, q) && Extends(q, r)
    ensures Extends(p, r)
  {
    assert r.keys[..|p.keys|] == r.keys[..|q.keys|][..|p.keys|];
  }

  lemma TouchExtends(p: Dict<ItemId, real>, i: ItemId)
    requires p.Valid()
    ensures Extends(p, Touch(p, i))
  {
    assert Touch(p, i).keys[..|p.keys|] == p.keys;
  }

  /** `get_similarity` pads `profile_b`: no existing entry changes and every added entry
      holds 0.0 ... */
  lemma PaddedExtends(a: Dict<ItemId, real>, b: Dict<ItemId, real>, m: nat)
    requires a.Valid() && b.Valid() && m <= |a.keys|
    ensures Extends(b, Padded(a, b, m))
  {
    var k := 0;
    assert b.keys[..|b.keys|] == b.keys;
    while k < m
      invariant k <= m
      invariant Extends(b, Padded(a, b, k))
    {
      var p := Padded(a, b, k);
      TouchExtends(p, a.keys[k]);
      ExtendsTrans(b, p, Touch(p, a.keys[k]));
      k := k + 1;
    }
  }

  /** ... and the added keys are the keys of `profile_a` it lacked. */
  lemma PaddedKeys(a: Dict<ItemId, real>, b: Dict<ItemId, real>, m: nat)
    requires a.Valid() && b.Valid() && m <= |a.keys|
    ensures forall k | k in Padded(a, b, m).vals :: k in b.vals || k in a.vals
  {
    var k := 0;
    while k < m
      invariant k <= m
      invariant forall x | x in Padded(a, b, k).vals :: x in b.vals || x in a.vals
    {
      k := k + 1;
    }
  }

  /** A padded entry reads as the entry it replaced: reading with get-or-zero is unchanged. */
  lemma ExtendsReads(p: Dict<ItemId, real>, q: Dict<ItemId, real>)
    requires Extends(p, q)
    ensures forall k :: GetOr(q, k, 0.0) == GetOr(p, k, 0.0)
  {
  }

  /** Σ over the first `m` keys `i` of `a` of `a[i] * b[i]`, a missing `b[i]` reading 0.0. */
  function Dot(a: Dict<ItemId, real>, b: Dict<ItemId, real>, m: nat): real
    requires a.Valid() && m <= |a.keys|
  {
    if m == 0 then 0.0 else Dot(a, b, m - 1) + Term(a, b, m - 1)
  }

  /** `profile_a[i] * profile_b[i]` for the `j`-th key `i` of `profile_a`. */
  function Term(a: Dict<ItemId, real>, b: Dict<ItemId, real>, j: nat): real
    requires a.Valid() && j < |a.keys|
  {
    a.vals[a.keys[j]] * GetOr(b, a.keys[j], 0.0)
  }

  /** The cosine similarity `get_similarity` returns: the dot product of the two
      profiles over the keys of `a`, divided by the product of the norms. */
  function Similarity(a: Dict<ItemId, real>, na: real, b: Dict<ItemId, real>, nb: real): real
    requires a.Valid() && na != 0.0 && nb != 0.0
  {
    Dot(a, b, |a.keys|) / (na * nb)
  }

  /** One turn of the loop of `get_similarity`: the read of `profile_b[i]` returns the
      entry of the original `profile_b` (0.0 when absent), however many keys the loop has
      inserted before it. */
  lemma PaddedRead(a: Dict<ItemId, real>, b: Dict<ItemId, real>, j: nat)
    requires a.Valid() && b.Valid() && j < |a.keys|
    ensures GetOr(Padded(a, b, j), a.keys[j], 0.0) == GetOr(b, a.keys[j], 0.0)
  {
    PaddedExtends(a, b, j);
    ExtendsReads(b, Padded(a, b, j));
  }

  /** Padding `profile_b` does not change its similarity to `profile_a`: the added
      entries read as the missing ones did. */
  lemma {:induction false} DotExtends(a: Dict<ItemId, real>, p: Dict<ItemId, real>, q: Dict<ItemId, real>, m: nat)
    requires a.Valid() && m <= |a.keys| && Extends(p, q)
    ensures Dot(a, q, m) == Dot(a, p, m)
  {
    if m > 0 {
      var k: nat := m - 1;
      DotExtends(a, p, q, k);
      ExtendsReads(p, q);
      assert Term(a, q, k) == Term(a, p, k);
      assert k + 1 == m;
    }
  }

  /** One turn of the loop of `get_similarity` in terms of the padded table it reads. */
  lemma DotStep(a: Dict<ItemId, real>, b: Dict<ItemId, real>, k: nat)
    requires a.Valid() && b.Valid() && k < |a.keys|
    ensures Dot(a, b, k + 1) == Dot(a, b, k) + Term(a, Padded(a, b, k), k)
  {
    PaddedRead(a, b, k);
  }

  /** `get_similarity(profile_a, norm_a, profile_b, norm_b)`: returns the similarity and
      `profile_b` as the loop leaves it. Python raises `ZeroDivisionError` when a norm is
      0.0. */
  method GetSimilarity(profileA: Dict<ItemId, real>, normA: real, profileB: Dict<ItemId, real>, normB: real)
    returns (similarity: real, paddedB: Dict<ItemId, real>)
    requires profileA.Valid() && profileB.Valid() && normA != 0.0 && normB != 0.0
    ensures similarity == Similarity(profileA, normA, profileB, normB)
    ensures paddedB == Padded(profileA, profileB, |profileA.keys|)
  {
    similarity := 0.0;
    paddedB := profileB;
    var k := 0;
    while k < |profileA.keys|
      invariant 0 <= k <= |profileA.keys|
      invariant similarity == Dot(profileA, profileB, k)
      invariant paddedB == Padded(profileA, profileB, k)
    {
      DotStep(profileA, profileB, k);
      similarity := similarity + Term(profileA, paddedB, k);
      paddedB := Touch(paddedB, profileA.keys[k]);
      k := k + 1;
    }
    similarity := similarity / (normA * normB);
  }

  /** `profile_a[i] * profile_b[i]` with both reads defaulting to 0.0: nonzero only on
      keys the two profiles share. */
  function Product(a: Dict<ItemId, real>, b: Dict<ItemId, real>, i: ItemId): real
  {
    GetOr(a, i, 0.0) * GetOr(b, i, 0.0)
  }

  /** Σ of `Product(a, b, i)` over the keys `ks`, in order. */
  function ProductSum(a: Dict<ItemId, real>, b: Dict<ItemId, real>, ks: seq<ItemId>): real
  {
    if ks == [] then 0.0 else ProductSum(a, b, ks[..|ks| - 1]) + Product(a, b, ks[|ks| - 1])
  }

  /** The dot product `get_similarity` accumulates over the keys of `a` is the sum of
      the products over those keys. */
  lemma {:induction false} DotIsProductSum(a: Dict<ItemId, real>, b: Dict<ItemId, real>, m: nat)
    requires a.Valid() && m <= |a.keys|
    ensures Dot(a, b, m) == ProductSum(a, b, a.keys[..m])
  {
    if m > 0 {
      DotIsProductSum(a, b, m - 1);
      assert a.keys[..m][..m - 1] == a.keys[..m - 1];
    }
  }

  /** Swapping the two profiles swaps the factors of every product. */
  lemma {:induction false} ProductSumSwap(a: Dict<ItemId, real>, b: Dict<ItemId, real>, ks: seq<ItemId>)
    ensures ProductSum(a, b, ks) == ProductSum(b, a, ks)
  {
    if ks != [] {
      ProductSumSwap(a, b, ks[..|ks| - 1]);
    }
  }

  lemma {:induction false} ProductSumConcat(a: Dict<ItemId, real>, b: Dict<ItemId, real>, s: seq<ItemId>, t: seq<ItemId>)
    ensures ProductSum(a, b, s + t) == ProductSum(a, b, s) + ProductSum(a, b, t)
  {
    if t != [] {
      ProductSumConcat(a, b, s, t[..|t| - 1]);
      assert (s + t)[..|s + t| - 1] == s + t[..|t| - 1];
    } else {
      assert s + t == s;
    }
  }

  lemma {:induction false} ProductSumZero(a: Dict<ItemId, real>, b: Dict<ItemId, real>, ks: seq<ItemId>)
    requires forall j | 0 <= j < |ks| :: Product(a, b, ks[j]) == 0.0
    ensures ProductSum(a, b, ks) == 0.0
  {
    if ks != [] {
      ProductSumZero(a, b, ks[..|ks| - 1]);
    }
  }

  /** Taking the `j`-th key out of the sum. */
  lemma ProductSumRemove(a: Dict<ItemId, real>, b: Dict<ItemId, real>, t: seq<ItemId>, j: nat)
    requires j < |t|
    ensures ProductSum(a, b, t) == ProductSum(a, b, t[..j] + t[j + 1..]) + Product(a, b, t[j])
  {
    var u, w := t[..j], t[j + 1..];
    assert t == (u + [t[j]]) + w;
    ProductSumConcat(a, b, u + [t[j]], w);
    assert (u + [t[j]])[..|u + [t[j]]| - 1] == u;
    ProductSumConcat(a, b, u, w);
  }

  /** The sum over distinct keys depends only on which keys with a nonzero product are
      listed, not on the order or on the keys whose product is zero. */
  lemma {:induction false} ProductSumSupport(a: Dict<ItemId, real>, b: Dict<ItemId, real>, s: seq<ItemId>, t: seq<ItemId>)
    requires Distinct(s) && Distinct(t)
    requires forall i | Product(a, b, i) != 0.0 :: i in s <==> i in t
    ensures ProductSum(a, b, s) == ProductSum(a, b, t)
  {
    if s == [] {
      ProductSumZero(a, b, t);
    } else {
      var s', x := s[..|s| - 1], s[|s| - 1];
      DistinctRemove(s, |s| - 1);
      assert s[..|s| - 1] + s[|s|..] == s';
      if x in t {
        var j :| 0 <= j < |t| && t[j] == x;
        var t' := t[..j] + t[j + 1..];
        DistinctRemove(t, j);
        ProductSumRemove(a, b, t, j);
        ProductSumSupport(a, b, s', t');
      } else {
        assert Product(a, b, x) == 0.0;
        ProductSumSupport(a, b, s', t);
      }
    }
  }

  /** The dot product of two profiles does not depend on which one drives the loop:
      both sides add up the products over the keys the profiles share. */
  lemma DotSymmetric(a: Dict<ItemId, real>, b: Dict<ItemId, real>)
    requires a.Valid() && b.Valid()
    ensures Dot(a, b, |a.keys|) == Dot(b, a, |b.keys|)
  {
    DotIsProductSum(a, b, |a.keys|);
    DotIsProductSum(b, a, |b.keys|);
    assert a.keys[..|a.keys|] == a.keys && b.keys[..|b.keys|] == b.keys;
    ProductSumSwap(b, a, b.keys);
    ValidKeys(a);
    ValidKeys(b);
    ProductSumSupport(a, b, a.keys, b.keys);
  }

  /** Padding either profile with 0.0 entries, as later turns of `detect_user_neighbours`
      do, leaves the similarity of the two profiles unchanged. */
  lemma SimilarityPadded(p: Dict<ItemId, real>, p': Dict<ItemId, real>, na: real,
                         q: Dict<ItemId, real>, q': Dict<ItemId, real>, nb: real)
    requires p.Valid() && p'.Valid() && q.Valid() && q'.Valid() && na != 0.0 && nb != 0.0
    requires Extends(p, p') && Extends(q, q')
    ensures Similarity(p', na, q', nb) == Similarity(p, na, q, nb)
  {
    DotSymmetric(p', q');
    DotExtends(q', p, p', |q'.keys|);
    DotSymmetric(p, q');
    DotExtends(p, q, q', |p.keys|);
  }

  /** `get_similarity` is symmetric: swapping the two users gives the same similarity. */
  lemma SimilaritySymmetric(a: Dict<ItemId, real>, na: real, b: Dict<ItemId, real>, nb: real)
    requires a.Valid() && b.Valid() && na != 0.0 && nb != 0.0
    ensures Similarity(a, na, b, nb) == Similarity(b, nb, a, na)
  {
    DotSymmetric(a, b);
    assert na * nb == nb * na;
  }

  /** An item's user profile `ip` can be walked by `get_neighbours_candidates`: each of
      its users is a node with a nonzero norm. */
  ghost predicate ItemUsersReady(users: Users, ip: Dict<UserId, real>)
  {
    ip.Valid() && forall n | n in ip.vals :: n in users.vals && users.vals[n].norm != 0.0
  }

  /** The lookups and divisions of `get_neighbours_candidates(p)` succeed: every item of
      `p` is a node whose users can be walked. Python raises `KeyError` or
      `ZeroDivisionError` otherwise. */
  ghost predicate CandidatesReady(users: Users, items: Items, p: Dict<ItemId, real>)
  {
    p.Valid() && forall i | i in p.vals :: i in items.vals && ItemUsersReady(users, items.vals[i].profile)
  }

  /** `1 / norm(n)`, the amount one shared item adds to the candidate score of `n`. */
  function Share(users: Users, n: UserId): real
    requires n in users.vals && users.vals[n].norm != 0.0
  {
    1.0 / users.vals[n].norm
  }

  /** The contributions `neighbour_candidates[n] += 1 / norm(n)` of the inner loop, over
      the first `m` users `n` of the profile `ip` of one item: one per user, in order. */
  function ItemUsers(users: Users, ip: Dict<UserId, real>, m: nat): (cs: seq<(UserId, real)>)
    requires ItemUsersReady(users, ip) && m <= |ip.keys|
    ensures Firsts(cs) == ip.keys[..m]
  {
    if m == 0 then []
    else
      var n := ip.keys[m - 1];
      var cs := ItemUsers(users, ip, m - 1) + [(n, Share(users, n))];
      FirstsConcat(ItemUsers(users, ip, m - 1), [(n, Share(users, n))]);
      assert ip.keys[..m] == ip.keys[..m - 1] + [n];
      cs
  }

  /** The contributions of the outer loop over the first `m` items of the profile `p`. */
  function CandidateContribs(users: Users, items: Items, p: Dict<ItemId, real>, m: nat): seq<(UserId, real)>
    requires CandidatesReady(users, items, p) && m <= |p.keys|
  {
    if m == 0 then []
    else
      var ip := items.vals[p.keys[m - 1]].profile;
      CandidateContribs(users, items, p, m - 1) + ItemUsers(users, ip, |ip.keys|)
  }

  /** The `neighbour_candidates` table for the profile `p`. */
  function CandidateScores(users: Users, items: Items, p: Dict<ItemId, real>): (d: Dict<UserId, real>)
    requires CandidatesReady(users, items, p)
    ensures d.Valid()
  {
    Accumulate(CandidateContribs(users, items, p, |p.keys|))
  }

  /** `get_neighbours_candidates(p)`: the 1000 users of highest candidate score. */
  function Candidates(users: Users, items: Items, p: Dict<ItemId, real>): (r: seq<UserId>)
    requires CandidatesReady(users, items, p)
    ensures |r| <= 1000 && Distinct(r)
    ensures forall n | n in r :: n in users.vals && users.vals[n].norm != 0.0
  {
    var d := CandidateScores(users, items, p);
    CandidatesAreUsers(users, items, p);
    TopKeys(d, 1000)
  }

  lemma CandidateContribsStep(users: Users, items: Items, p: Dict<ItemId, real>, a: nat)
    requires CandidatesReady(users, items, p) && a < |p.keys|
    ensures p.keys[a] in items.vals && ItemUsersReady(users, items.vals[p.keys[a]].profile)
    ensures var ip := items.vals[p.keys[a]].profile;
            CandidateContribs(users, items, p, a + 1)
            == CandidateContribs(users, items, p, a) + ItemUsers(users, ip, |ip.keys|)
  {
    assert p.keys[a] in p.vals;
  }

  /** How many of the first `m` items of the profile `p` list user `n` in their own
      profile: the items `n` shares with `p`. */
  function Shared(items: Items, p: Dict<ItemId, real>, n: UserId, m: nat): nat
    requires m <= |p.keys|
  {
    if m == 0 then 0
    else Shared(items, p, n, m - 1) + (if n in ItemProfile(items, p.keys[m - 1]).vals then 1 else 0)
  }

  lemma {:induction false} SharedWitness(items: Items, p: Dict<ItemId, real>, n: UserId, m: nat)
    returns (j: nat)
    requires m <= |p.keys| && Shared(items, p, n, m) > 0
    ensures j < m && n in ItemProfile(items, p.keys[j]).vals
  {
    var k: nat := m - 1;
    if n in ItemProfile(items, p.keys[k]).vals {
      j := k;
    } else {
      j := SharedWitness(items, p, n, k);
    }
  }

  lemma ItemUsersSumStep(users: Users, ip: Dict<UserId, real>, n: UserId, b: nat)
    requires ItemUsersReady(users, ip) && b < |ip.keys|
    requires SumFor(ItemUsers(users, ip, b), n) == if n in ip.keys[..b] then Ratio(1.0, Norm(users, n)) else 0.0
    ensures SumFor(ItemUsers(users, ip, b + 1), n) == if n in ip.keys[..b + 1] then Ratio(1.0, Norm(users, n)) else 0.0
  {
    var m := ip.keys[b];
    ItemUsersStep(users, ip, b);
    SumForConcat(ItemUsers(users, ip, b), [(m, Share(users, m))], n);
    SumForOne(m, Share(users, m), n);
    assert ip.keys[..b + 1] == ip.keys[..b] + [m];
    assert m !in ip.keys[..b] by {
      forall j | 0 <= j < b ensures ip.keys[..b][j] != m {
        assert ip.keys[j] != ip.keys[b];
      }
    }
  }

  lemma {:induction false} ItemUsersSumUpTo(users: Users, ip: Dict<UserId, real>, n: UserId, b: nat)
    requires ItemUsersReady(users, ip) && b <= |ip.keys|
    ensures SumFor(ItemUsers(users, ip, b), n) == if n in ip.keys[..b] then Ratio(1.0, Norm(users, n)) else 0.0
  {
    if b > 0 {
      var k: nat := b - 1;
      ItemUsersSumUpTo(users, ip, n, k);
      ItemUsersSumStep(users, ip, n, k);
      assert k + 1 == b;
    }
  }

  /** One item adds `1 / norm(n)` to the score of each of its users `n`, once. */
  lemma ItemUsersSum(users: Users, ip: Dict<UserId, real>, n: UserId)
    requires ItemUsersReady(users, ip)
    ensures SumFor(ItemUsers(users, ip, |ip.keys|), n)
         == if n in ip.vals then Ratio(1.0, Norm(users, n)) else 0.0
  {
    ItemUsersSumUpTo(users, ip, n, |ip.keys|);
    assert ip.keys[..|ip.keys|] == ip.keys;
    ValidKeys(ip);
  }

  /** One more item of the profile names its users, in order. */
  lemma ContribsFirstsStep(users: Users, items: Items, p: Dict<ItemId, real>, k: nat)
    requires CandidatesReady(users, items, p) && k < |p.keys|
    ensures p.keys[k] in items.vals
    ensures Firsts(CandidateContribs(users, items, p, k + 1))
         == Firsts(CandidateContribs(users, items, p, k)) + items.vals[p.keys[k]].profile.keys
  {
    CandidateContribsStep(users, items, p, k);
    var ip := items.vals[p.keys[k]].profile;
    FirstsConcat(CandidateContribs(users, items, p, k), ItemUsers(users, ip, |ip.keys|));
    assert ip.keys[..|ip.keys|] == ip.keys;
  }

  lemma ContribsKeysStep(users: Users, items: Items, p: Dict<ItemId, real>, n: UserId, k: nat)
    requires CandidatesReady(users, items, p) && k < |p.keys|
    requires n in Firsts(CandidateContribs(users, items, p, k)) <==> Shared(items, p, n, k) > 0
    ensures n in Firsts(CandidateContribs(users, items, p, k + 1)) <==> Shared(items, p, n, k + 1) > 0
  {
    ContribsFirstsStep(users, items, p, k);
    ValidKeys(items.vals[p.keys[k]].profile);
  }

  /** The users the contributions name are exactly those sharing an item with `p`. */
  lemma {:induction false} ContribsKeys(users: Users, items: Items, p: Dict<ItemId, real>, n: UserId, m: nat)
    requires CandidatesReady(users, items, p) && m <= |p.keys|
    ensures n in Firsts(CandidateContribs(users, items, p, m)) <==> Shared(items, p, n, m) > 0
  {
    if m > 0 {
      var k: nat := m - 1;
      ContribsKeys(users, items, p, n, k);
      ContribsKeysStep(users, items, p, n, k);
      assert k + 1 == m;
    }
  }

  /** Every user that has an edge has a nonzero norm (as after `update_norm`, which sums
      a positive term per edge). */
  ghost predicate NormsSet(users: Users)
  {
    forall u, i | u in users.vals && i in users.vals[u].profile.vals :: users.vals[u].norm != 0.0
  }

  /** In a graph whose users with edges have nonzero norms, `get_neighbours_candidates`
      succeeds on the profile of any user. */
  lemma CandidatesReadyFor(users: Users, items: Items, u: UserId)
    requires Invariant(users, items) && NormsSet(users) && u in users.vals
    ensures CandidatesReady(users, items, users.vals[u].profile)
  {
    var p := users.vals[u].profile;
    forall i | i in p.vals
      ensures i in items.vals && ItemUsersReady(users, items.vals[i].profile)
    {
      assert i in items.vals;
      forall n | n in items.vals[i].profile.vals
        ensures n in users.vals && users.vals[n].norm != 0.0
      {
        assert i in users.vals[n].profile.vals;
      }
    }
  }

  lemma {:induction false} SharedAt(items: Items, p: Dict<ItemId, real>, n: UserId, j: nat, m: nat)
    requires j < m <= |p.keys| && n in ItemProfile(items, p.keys[j]).vals
    ensures Shared(items, p, n, m) > 0
  {
    var k: nat := m - 1;
    if j < k {
      SharedAt(items, p, n, j, k);
    }
  }

  /** In a graph built only by interactions every user with an edge is among its own
      candidates, which is why `detect_user_neighbours` skips the user itself. */
  lemma SelfCandidate(users: Users, items: Items, u: UserId)
    requires Invariant(users, items) && Mirrored(users, items) && NormsSet(users)
    requires u in users.vals && users.vals[u].profile.keys != []
    ensures CandidatesReady(users, items, users.vals[u].profile)
    ensures u in CandidateScores(users, items, users.vals[u].profile).vals
  {
    var p := users.vals[u].profile;
    CandidatesReadyFor(users, items, u);
    assert p.keys[0] in p.vals;
    SharedAt(items, p, u, 0, |p.keys|);
    CandidateScore(users, items, p, u);
  }

  /** `k` times `x`. */
  function Multiple(k: nat, x: real): real
  {
    k as real * x
  }

  lemma MultipleSucc(k: nat, x: real)
    ensures Multiple(k + 1, x) == Multiple(k, x) + x
  {
  }

  lemma ContribsSumStep(users: Users, items: Items, p: Dict<ItemId, real>, n: UserId, k: nat)
    requires CandidatesReady(users, items, p) && k < |p.keys|
    requires SumFor(CandidateContribs(users, items, p, k), n)
          == Multiple(Shared(items, p, n, k), Ratio(1.0, Norm(users, n)))
    ensures SumFor(CandidateContribs(users, items, p, k + 1), n)
         == Multiple(Shared(items, p, n, k + 1), Ratio(1.0, Norm(users, n)))
  {
    CandidateContribsStep(users, items, p, k);
    var ip := items.vals[p.keys[k]].profile;
    SumForConcat(CandidateContribs(users, items, p, k), ItemUsers(users, ip, |ip.keys|), n);
    ItemUsersSum(users, ip, n);
    MultipleSucc(Shared(items, p, n, k), Ratio(1.0, Norm(users, n)));
  }

  /** The contributions to user `n` add up to `1 / norm(n)` per shared item. */
  lemma {:induction false} ContribsSum(users: Users, items: Items, p: Dict<ItemId, real>, n: UserId, m: nat)
    requires CandidatesReady(users, items, p) && m <= |p.keys|
    ensures SumFor(CandidateContribs(users, items, p, m), n)
         == Multiple(Shared(items, p, n, m), Ratio(1.0, Norm(users, n)))
  {
    if m > 0 {
      var k: nat := m - 1;
      ContribsSum(users, items, p, n, k);
      ContribsSumStep(users, items, p, n, k);
      assert k + 1 == m;
    }
  }

  /** The candidate score of user `n` is `1 / norm(n)` times the number of items it
      shares with the profile, and the users holding a score are exactly those sharing
      at least one item. */
  lemma CandidateScore(users: Users, items: Items, p: Dict<ItemId, real>, n: UserId)
    requires CandidatesReady(users, items, p)
    ensures n in CandidateScores(users, items, p).vals <==> Shared(items, p, n, |p.keys|) > 0
    ensures GetOr(CandidateScores(users, items, p), n, 0.0)
         == Multiple(Shared(items, p, n, |p.keys|), Ratio(1.0, Norm(users, n)))
  {
    AccumulateKeys(CandidateContribs(users, items, p, |p.keys|));
    AccumulateValue(CandidateContribs(users, items, p, |p.keys|), n);
    ContribsKeys(users, items, p, n, |p.keys|);
    ContribsSum(users, items, p, n, |p.keys|);
  }

  /** Every user holding a candidate score is a node with a nonzero norm. */
  lemma CandidatesAreUsers(users: Users, items: Items, p: Dict<ItemId, real>)
    requires CandidatesReady(users, items, p)
    ensures forall n | n in CandidateScores(users, items, p).vals :: n in users.vals && users.vals[n].norm != 0.0
  {
    forall n | n in CandidateScores(users, items, p).vals
      ensures n in users.vals && users.vals[n].norm != 0.0
    {
      AccumulateKeys(CandidateContribs(users, items, p, |p.keys|));
      ContribsKeys(users, items, p, n, |p.keys|);
      var j := SharedWitness(items, p, n, |p.keys|);
      assert p.keys[j] in p.vals;
    }
  }

  lemma ItemUsersStep(users: Users, ip: Dict<UserId, real>, b: nat)
    requires ItemUsersReady(users, ip) && b < |ip.keys|
    ensures ip.keys[b] in users.vals && users.vals[ip.keys[b]].norm != 0.0
    ensures ItemUsers(users, ip, b + 1) == ItemUsers(users, ip, b) + [(ip.keys[b], Share(users, ip.keys[b]))]
  {
  }

  /** The inner loop of `get_neighbours_candidates`, over the users of one item. */
  method AddItemUsers(scores: Dict<UserId, real>, users: Users, ip: Dict<UserId, real>)
    returns (s: Dict<UserId, real>)
    requires scores.Valid() && ItemUsersReady(users, ip)
    ensures s == AddAll(scores, ItemUsers(users, ip, |ip.keys|))
  {
    s := scores;
    var b := 0;
    while b < |ip.keys|
      invariant 0 <= b <= |ip.keys|
      invariant s == AddAll(scores, ItemUsers(users, ip, b))
    {
      var userId := ip.keys[b];
      ItemUsersStep(users, ip, b);
      AddAllSnoc(scores, ItemUsers(users, ip, b), userId, Share(users, userId));
      s := AddTo(s, userId, Share(users, userId));
      b := b + 1;
    }
  }

  /** `get_neighbours_candidates(user_profile)`: scores every user sharing an item with
      the profile by the sum of `1 / norm` over the shared items, and returns the 1000
      best, best first. The graph is only read. */
  method GetNeighboursCandidates(users: Users, items: Items, userProfile: Dict<ItemId, real>)
    returns (r: seq<UserId>)
    requires CandidatesReady(users, items, userProfile)
    ensures r == Candidates(users, items, userProfile)
  {
    var scores: Dict<UserId, real> := Empty();
    var a := 0;
    while a < |userProfile.keys|
      invariant 0 <= a <= |userProfile.keys|
      invariant scores == Accumulate(CandidateContribs(users, items, userProfile, a))
    {
      var itemId := userProfile.keys[a];
      CandidateContribsStep(users, items, userProfile, a);
      var ip := items.vals[itemId].profile;
      AddAllConcat(Empty(), CandidateContribs(users, items, userProfile, a), ItemUsers(users, ip, |ip.keys|));
      scores := AddItemUsers(scores, users, ip);
      a := a + 1;
    }
    r := TopKeys(scores, 1000);
  }
}
