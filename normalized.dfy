/** The recommender that follows the same length-3 paths as `ExcludedHistory` but
    attenuates each path by the norms of the two users on it: the path u → i → n → c
    weighs `w(u, i) / norm(u) * w(n, i) / norm(n) * w(n, c)`, where the middle weight is
    read from the neighbour's own profile. */
module Normalized {
  import opened Seqs
  import opened Dicts
  import opened TopK
  import opened GraphStore
  import opened Reals

  /** The weight of one path, as Python evaluates it: left to right. */
  function NormPathWeight(wi: real, nu: real, wn: real, nn: real, wc: real): real
    requires nu != 0.0 && nn != 0.0
  {
    wi / nu * wn / nn * wc
  }

  /** Some item of `ks` (the keys of a neighbour's profile) is not in the user's profile
      `own`, so the innermost loop reaches its division for that neighbour. */
  ghost predicate Reaches(own: Dict<ItemId, real>, ks: seq<ItemId>)
  {
    ReachesBefore(own, ks, |ks|)
  }

  /** Some of the first `m` items of `ks` is not in `own`. */
  ghost predicate ReachesBefore(own: Dict<ItemId, real>, ks: seq<ItemId>, m: nat)
    requires m <= |ks|
  {
    m > 0 && (ks[m - 1] !in own.vals || ReachesBefore(own, ks, m - 1))
  }

  /** An item the user does not have makes the loop reach its division ... */
  lemma ReachesAt(own: Dict<ItemId, real>, ks: seq<ItemId>, j: nat)
    requires j < |ks| && ks[j] !in own.vals
    ensures Reaches(own, ks)
  {
    ReachesBeforeAt(own, ks, j, |ks|);
  }

  lemma {:induction false} ReachesBeforeAt(own: Dict<ItemId, real>, ks: seq<ItemId>, j: nat, m: nat)
    requires j < m <= |ks| && ks[j] !in own.vals
    ensures ReachesBefore(own, ks, m)
  {
    if j < m - 1 {
      ReachesBeforeAt(own, ks, j, m - 1);
    }
  }

  /** ... and only such an item does. */
  lemma ReachesWitness(own: Dict<ItemId, real>, ks: seq<ItemId>) returns (j: nat)
    requires Reaches(own, ks)
    ensures j < |ks| && ks[j] !in own.vals
  {
    j := ReachesBeforeWitness(own, ks, |ks|);
  }

  lemma {:induction false} ReachesBeforeWitness(own: Dict<ItemId, real>, ks: seq<ItemId>, m: nat) returns (j: nat)
    requires m <= |ks| && ReachesBefore(own, ks, m)
    ensures j < m && ks[j] !in own.vals
  {
    if ks[m - 1] !in own.vals {
      j := m - 1;
    } else {
      j := ReachesBeforeWitness(own, ks, m - 1);
    }
  }

  /** Python raises `ZeroDivisionError` at the first path u → i → n → c, with `c` not in
      the user's profile, on which `norm(u)` or `norm(n)` is 0.0; `recommend` is defined
      when there is no such path. */
  ghost predicate DivisorsNonzero(users: Users, items: Items, u: UserId)
  {
    forall i | i in Profile(users, u).vals ::
      forall n | n in ItemProfile(items, i).vals ::
        forall c | c in Profile(users, n).vals && c !in Profile(users, u).vals ::
          Norm(users, u) != 0.0 && Norm(users, n) != 0.0
  }

  /** What the loops need of a neighbour `n` reached through item `i`: its node exists,
      its profile holds `i` (so the `defaultdict` read inserts nothing), and its division
      has a nonzero divisor whenever it is reached. */
  ghost predicate NeighbourReady(users: Users, own: Dict<ItemId, real>, i: ItemId, nu: real, n: UserId)
  {
    && n in users.vals && users.vals[n].profile.Valid() && i in users.vals[n].profile.vals
    && (Reaches(own, users.vals[n].profile.keys) ==> nu != 0.0 && users.vals[n].norm != 0.0)
  }

  /** Every lookup and every division `recommend(u)` performs is defined. */
  ghost predicate PathsReady(users: Users, items: Items, u: UserId)
  {
    && u in users.vals && users.vals[u].profile.Valid()
    && forall i | i in users.vals[u].profile.vals ::
         && i in items.vals && items.vals[i].profile.Valid()
         && forall n | n in items.vals[i].profile.vals ::
              NeighbourReady(users, users.vals[u].profile, i, users.vals[u].norm, n)
  }

  /** A neighbour reached through an item of the user is ready for the innermost loop. */
  lemma NeighbourIsReady(users: Users, items: Items, u: UserId, i: ItemId, n: UserId)
    requires NodesValid(users, items) && ItemEdgesMirrored(users, items) && DivisorsNonzero(users, items, u)
    requires u in users.vals && i in users.vals[u].profile.vals
    requires i in items.vals && n in items.vals[i].profile.vals
    ensures NeighbourReady(users, users.vals[u].profile, i, users.vals[u].norm, n)
  {
    var own := users.vals[u].profile;
    assert n in users.vals && i in users.vals[n].profile.vals;
    var np := users.vals[n].profile;
    assert np.Valid();
    if Reaches(own, np.keys) {
      var k := ReachesWitness(own, np.keys);
      var c := np.keys[k];
      assert c in np.vals;
      assert i in Profile(users, u).vals && n in ItemProfile(items, i).vals
             && c in Profile(users, n).vals && c !in Profile(users, u).vals;
      assert Norm(users, u) != 0.0 && Norm(users, n) != 0.0;
    }
  }

  /** The graph invariant and nonzero divisors on the executed paths make every lookup
      and division of `recommend` defined. */
  lemma LookupsSucceed(users: Users, items: Items, u: UserId)
    requires Invariant(users, items) && u in users.vals && DivisorsNonzero(users, items, u)
    ensures PathsReady(users, items, u)
  {
    var own := users.vals[u].profile;
    forall i | i in own.vals
      ensures i in items.vals && items.vals[i].profile.Valid()
      ensures forall n | n in items.vals[i].profile.vals :: NeighbourReady(users, own, i, users.vals[u].norm, n)
    {
      assert ItemsKnown(users, items);
      assert i in items.vals;
      forall n | n in items.vals[i].profile.vals
        ensures NeighbourReady(users, own, i, users.vals[u].norm, n)
      {
        NeighbourIsReady(users, items, u, i, n);
      }
    }
  }

  /** Contributions of the innermost loop for the neighbour whose profile is `np`, over
      its first `m` items: `(c, NormPathWeight(wi, nu, wn, nn, np[c]))` for every item `c`
      not in the user's profile `own`. */
  function CandidatePaths(own: Dict<ItemId, real>, np: Dict<ItemId, real>,
                          wi: real, nu: real, wn: real, nn: real, m: nat)
    : (ps: seq<(ItemId, real)>)
    requires np.Valid() && m <= |np.keys|
    requires Reaches(own, np.keys) ==> nu != 0.0 && nn != 0.0
    ensures forall j | 0 <= j < |ps| :: ps[j].0 !in own.vals
  {
    if m == 0 then []
    else
      var c := np.keys[m - 1];
      CandidatePaths(own, np, wi, nu, wn, nn, m - 1)
      + (if c in own.vals then []
         else ReachesAt(own, np.keys, m - 1); [(c, NormPathWeight(wi, nu, wn, nn, np.vals[c]))])
  }

  /** Contributions through the first `m` users of the profile `ip` of item `i`, reached
      from the user with weight `wi`; the user's norm is `nu`. */
  function NeighbourPaths(users: Users, own: Dict<ItemId, real>, i: ItemId, ip: Dict<UserId, real>,
                          wi: real, nu: real, m: nat)
    : (ps: seq<(ItemId, real)>)
    requires ip.Valid() && m <= |ip.keys|
    requires forall n | n in ip.vals :: NeighbourReady(users, own, i, nu, n)
    ensures forall j | 0 <= j < |ps| :: ps[j].0 !in own.vals
  {
    if m == 0 then []
    else
      var n := ip.keys[m - 1];
      assert NeighbourReady(users, own, i, nu, n);
      var np := users.vals[n].profile;
      NeighbourPaths(users, own, i, ip, wi, nu, m - 1)
      + CandidatePaths(own, np, wi, nu, np.vals[i], users.vals[n].norm, |np.keys|)
  }

  /** Contributions through the first `m` items of user `u`'s profile, in loop order. */
  function UserItemPaths(users: Users, items: Items, u: UserId, m: nat): (ps: seq<(ItemId, real)>)
    requires PathsReady(users, items, u) && m <= |users.vals[u].profile.keys|
    ensures forall j | 0 <= j < |ps| :: ps[j].0 !in users.vals[u].profile.vals
  {
    if m == 0 then []
    else
      var own := users.vals[u].profile;
      var i := own.keys[m - 1];
      var ip := items.vals[i].profile;
      UserItemPaths(users, items, u, m - 1)
      + NeighbourPaths(users, own, i, ip, own.vals[i], users.vals[u].norm, |ip.keys|)
  }

  /** The `scores` table `recommend(u)` builds. */
  function Scores(users: Users, items: Items, u: UserId): (d: Dict<ItemId, real>)
    requires Invariant(users, items) && u in users.vals && DivisorsNonzero(users, items, u)
    ensures d.Valid()
  {
    LookupsSucceed(users, items, u);
    Accumulate(UserItemPaths(users, items, u, |users.vals[u].profile.keys|))
  }

  lemma CandidatePathsStep(own: Dict<ItemId, real>, np: Dict<ItemId, real>,
                           wi: real, nu: real, wn: real, nn: real, c: nat)
    requires np.Valid() && c < |np.keys|
    requires Reaches(own, np.keys) ==> nu != 0.0 && nn != 0.0
    ensures var k := np.keys[c];
            CandidatePaths(own, np, wi, nu, wn, nn, c + 1)
            == CandidatePaths(own, np, wi, nu, wn, nn, c)
               + (if k in own.vals then []
                  else ReachesAt(own, np.keys, c); [(k, NormPathWeight(wi, nu, wn, nn, np.vals[k]))])
  {
  }

  lemma NeighbourPathsStep(users: Users, own: Dict<ItemId, real>, i: ItemId, ip: Dict<UserId, real>,
                           wi: real, nu: real, b: nat)
    requires ip.Valid() && b < |ip.keys|
    requires forall n | n in ip.vals :: NeighbourReady(users, own, i, nu, n)
    ensures var n := ip.keys[b];
            assert NeighbourReady(users, own, i, nu, n);
            var np := users.vals[n].profile;
            NeighbourPaths(users, own, i, ip, wi, nu, b + 1)
            == NeighbourPaths(users, own, i, ip, wi, nu, b)
               + CandidatePaths(own, np, wi, nu, np.vals[i], users.vals[n].norm, |np.keys|)
  {
  }

  lemma UserItemPathsStep(users: Users, items: Items, u: UserId, a: nat)
    requires PathsReady(users, items, u) && a < |users.vals[u].profile.keys|
    ensures var own := users.vals[u].profile;
            var i := own.keys[a];
            var ip := items.vals[i].profile;
            UserItemPaths(users, items, u, a + 1)
            == UserItemPaths(users, items, u, a)
               + NeighbourPaths(users, own, i, ip, own.vals[i], users.vals[u].norm, |ip.keys|)
  {
  }

  /** One turn of the innermost loop: `continue` for an item the user has, otherwise
      `scores[c] += wi / nu * wn / nn * wc`, whose divisions are then defined. */
  lemma AddCandidateStep(scores: Dict<ItemId, real>, own: Dict<ItemId, real>, np: Dict<ItemId, real>,
                         wi: real, nu: real, wn: real, nn: real, c: nat)
    requires scores.Valid() && np.Valid() && c < |np.keys|
    requires Reaches(own, np.keys) ==> nu != 0.0 && nn != 0.0
    ensures var k := np.keys[c];
            && (k !in own.vals ==> nu != 0.0 && nn != 0.0)
            && (k in own.vals ==> AddAll(scores, CandidatePaths(own, np, wi, nu, wn, nn, c + 1))
                                  == AddAll(scores, CandidatePaths(own, np, wi, nu, wn, nn, c)))
            && (k !in own.vals ==> AddAll(scores, CandidatePaths(own, np, wi, nu, wn, nn, c + 1))
                                   == AddTo(AddAll(scores, CandidatePaths(own, np, wi, nu, wn, nn, c)), k,
                                            NormPathWeight(wi, nu, wn, nn, np.vals[k])))
  {
    var k := np.keys[c];
    CandidatePathsStep(own, np, wi, nu, wn, nn, c);
    if k !in own.vals {
      ReachesAt(own, np.keys, c);
      AddAllSnoc(scores, CandidatePaths(own, np, wi, nu, wn, nn, c), k, NormPathWeight(wi, nu, wn, nn, np.vals[k]));
    } else {
      assert CandidatePaths(own, np, wi, nu, wn, nn, c + 1) == CandidatePaths(own, np, wi, nu, wn, nn, c);
    }
  }

  /** The innermost loop of `recommend`: the paths that continue through the neighbour
      whose profile is `np`, weight `wn` towards the item and norm `nn`. */
  method AddCandidates(scores: Dict<ItemId, real>, own: Dict<ItemId, real>, np: Dict<ItemId, real>,
                       wi: real, nu: real, wn: real, nn: real)
    returns (s: Dict<ItemId, real>)
    requires scores.Valid() && np.Valid()
    requires Reaches(own, np.keys) ==> nu != 0.0 && nn != 0.0
    ensures s == AddAll(scores, CandidatePaths(own, np, wi, nu, wn, nn, |np.keys|))
  {
    s := scores;
    var c := 0;
    while c < |np.keys|
      invariant 0 <= c <= |np.keys|
      invariant s == AddAll(scores, CandidatePaths(own, np, wi, nu, wn, nn, c))
    {
      var candidateId := np.keys[c];
      var candidateRelevance := np.vals[candidateId];
      AddCandidateStep(scores, own, np, wi, nu, wn, nn, c);
      if candidateId !in own.vals {
        s := AddTo(s, candidateId, NormPathWeight(wi, nu, wn, nn, candidateRelevance));
      } else {
        assert s == AddAll(scores, CandidatePaths(own, np, wi, nu, wn, nn, c + 1));
      }
      c := c + 1;
    }
  }

  /** One turn of the middle loop adds the paths through the next neighbour. */
  lemma AddNeighbourStep(scores: Dict<ItemId, real>, users: Users, own: Dict<ItemId, real>, i: ItemId,
                         ip: Dict<UserId, real>, wi: real, nu: real, b: nat)
    requires scores.Valid() && ip.Valid() && b < |ip.keys|
    requires forall n | n in ip.vals :: NeighbourReady(users, own, i, nu, n)
    ensures var n := ip.keys[b];
            assert NeighbourReady(users, own, i, nu, n);
            var np := users.vals[n].profile;
            AddAll(scores, NeighbourPaths(users, own, i, ip, wi, nu, b + 1))
            == AddAll(AddAll(scores, NeighbourPaths(users, own, i, ip, wi, nu, b)),
                      CandidatePaths(own, np, wi, nu, np.vals[i], users.vals[n].norm, |np.keys|))
  {
    var n := ip.keys[b];
    var np := users.vals[n].profile;
    NeighbourPathsStep(users, own, i, ip, wi, nu, b);
    AddAllConcat(scores, NeighbourPaths(users, own, i, ip, wi, nu, b),
                 CandidatePaths(own, np, wi, nu, np.vals[i], users.vals[n].norm, |np.keys|));
  }

  /** The middle loop of `recommend`: the paths through every user of item `i`, whose
      profile is `ip`. */
  method AddNeighbours(scores: Dict<ItemId, real>, users: Users, own: Dict<ItemId, real>, i: ItemId,
                       ip: Dict<UserId, real>, wi: real, nu: real)
    returns (s: Dict<ItemId, real>)
    requires scores.Valid() && ip.Valid()
    requires forall n | n in ip.vals :: NeighbourReady(users, own, i, nu, n)
    ensures s == AddAll(scores, NeighbourPaths(users, own, i, ip, wi, nu, |ip.keys|))
  {
    s := scores;
    var b := 0;
    while b < |ip.keys|
      invariant 0 <= b <= |ip.keys|
      invariant s == AddAll(scores, NeighbourPaths(users, own, i, ip, wi, nu, b))
    {
      var neighbourId := ip.keys[b];
      assert NeighbourReady(users, own, i, nu, neighbourId);
      var np := users.vals[neighbourId].profile;
      AddNeighbourStep(scores, users, own, i, ip, wi, nu, b);
      s := AddCandidates(s, own, np, wi, nu, np.vals[i], users.vals[neighbourId].norm);
      b := b + 1;
    }
  }

  /** One turn of the outer loop adds the paths through the next item of the user. */
  lemma AddUserItemStep(users: Users, items: Items, u: UserId, a: nat)
    requires PathsReady(users, items, u) && a < |users.vals[u].profile.keys|
    ensures var own := users.vals[u].profile;
            var i := own.keys[a];
            var ip := items.vals[i].profile;
            Accumulate(UserItemPaths(users, items, u, a + 1))
            == AddAll(Accumulate(UserItemPaths(users, items, u, a)),
                      NeighbourPaths(users, own, i, ip, own.vals[i], users.vals[u].norm, |ip.keys|))
  {
    var own := users.vals[u].profile;
    var i := own.keys[a];
    var ip := items.vals[i].profile;
    UserItemPathsStep(users, items, u, a);
    AddAllConcat(Empty(), UserItemPaths(users, items, u, a),
                 NeighbourPaths(users, own, i, ip, own.vals[i], users.vals[u].norm, |ip.keys|));
  }

  /** Top 10 items by accumulated normalized path score, never one the user already has;
      an unknown user gets an empty list. The graph is only read. */
  method Recommend(g: Graph, userId: UserId) returns (r: seq<ItemId>)
    requires g.Valid() && DivisorsNonzero(g.users, g.items, userId)
    ensures userId !in g.users.vals ==> r == []
    ensures userId in g.users.vals ==> r == TopKeys(Scores(g.users, g.items, userId), 10)
    ensures |r| <= 10 && Distinct(r)
    ensures forall c | c in r :: c !in Profile(g.users, userId).vals
  {
    if userId !in g.users.vals {
      return [];
    }
    var users, items := g.users, g.items;
    var own := users.vals[userId].profile;
    var norm := users.vals[userId].norm;
    LookupsSucceed(users, items, userId);
    var scores: Dict<ItemId, real> := Empty();
    var a := 0;
    while a < |own.keys|
      invariant 0 <= a <= |own.keys|
      invariant scores == Accumulate(UserItemPaths(users, items, userId, a))
    {
      var interestId := own.keys[a];
      var interestRelevance := own.vals[interestId];
      var ip := items.vals[interestId].profile;
      AddUserItemStep(users, items, userId, a);
      scores := AddNeighbours(scores, users, own, interestId, ip, interestRelevance, norm);
      a := a + 1;
    }
    r := TopKeys(scores, 10);
    AccumulateKeys(UserItemPaths(users, items, userId, |own.keys|));
  }

  /** The weight of one path in the reference definition, each division made total. */
  function PathTerm(wi: real, nu: real, wn: real, nn: real, wc: real): real
  {
    Ratio(Ratio(wi, nu) * wn, nn) * wc
  }

  /** With nonzero divisors the reference weight is Python's path weight, and a missing
      last edge weighs nothing. */
  lemma PathTermWeight(wi: real, nu: real, wn: real, nn: real, wc: real)
    ensures nu != 0.0 && nn != 0.0 ==> PathTerm(wi, nu, wn, nn, wc) == NormPathWeight(wi, nu, wn, nn, wc)
    ensures PathTerm(wi, nu, wn, nn, 0.0) == 0.0
  {
  }

  /** Reference definition: the total normalized weight of the paths u → i → n → c through
      the first `m` users `n` of the profile `ip` of item `i`, where `wi` is w(u, i) and
      `nu` is norm(u); each weight is read with get-or-zero. */
  function NormThroughItem(users: Users, i: ItemId, ip: Dict<UserId, real>, wi: real, nu: real,
                           c: ItemId, m: nat): real
    requires m <= |ip.keys|
  {
    if m == 0 then 0.0
    else
      var n := ip.keys[m - 1];
      NormThroughItem(users, i, ip, wi, nu, c, m - 1)
      + PathTerm(wi, nu, Weight(users, n, i), Norm(users, n), Weight(users, n, c))
  }

  /** The total normalized weight of the paths from `u` to `c` through the first `m`
      items of the profile of `u`. */
  function NormPathSum(users: Users, items: Items, u: UserId, c: ItemId, m: nat): real
    requires m <= |Profile(users, u).keys|
  {
    if m == 0 then 0.0
    else
      var i := Profile(users, u).keys[m - 1];
      var ip := ItemProfile(items, i);
      NormPathSum(users, items, u, c, m - 1)
      + NormThroughItem(users, i, ip, Weight(users, u, i), Norm(users, u), c, |ip.keys|)
  }

  /** The total normalized weight of all paths of length 3 from `u` to `c`. */
  function NormPathScore(users: Users, items: Items, u: UserId, c: ItemId): real
  {
    NormPathSum(users, items, u, c, |Profile(users, u).keys|)
  }

  lemma {:induction false} CandidatePathsSum(own: Dict<ItemId, real>, np: Dict<ItemId, real>,
                                             wi: real, nu: real, wn: real, nn: real, c: ItemId, m: nat)
    requires np.Valid() && m <= |np.keys|
    requires Reaches(own, np.keys) ==> nu != 0.0 && nn != 0.0
    ensures SumFor(CandidatePaths(own, np, wi, nu, wn, nn, m), c)
            == if c !in own.vals && c in np.keys[..m] then PathTerm(wi, nu, wn, nn, np.vals[c]) else 0.0
  {
    if m > 0 {
      var j: nat := m - 1;
      var k := np.keys[j];
      CandidatePathsSum(own, np, wi, nu, wn, nn, c, j);
      CandidatePathsStep(own, np, wi, nu, wn, nn, j);
      var prev := CandidatePaths(own, np, wi, nu, wn, nn, j);
      if k !in own.vals {
        ReachesAt(own, np.keys, j);
        var w := NormPathWeight(wi, nu, wn, nn, np.vals[k]);
        PathTermWeight(wi, nu, wn, nn, np.vals[k]);
        assert CandidatePaths(own, np, wi, nu, wn, nn, j + 1) == prev + [(k, w)];
        SumForConcat(prev, [(k, w)], c);
        SumForOne(k, w, c);
      } else {
        assert CandidatePaths(own, np, wi, nu, wn, nn, j + 1) == prev + [];
        assert prev + [] == prev;
      }
      assert np.keys[..j + 1] == np.keys[..j] + [k];
      if k == c {
        assert c !in np.keys[..j];
      }
      assert j + 1 == m;
    }
  }

  /** The innermost loop adds the normalized path weight to the score of `c`, or nothing
      when the user has `c`. */
  lemma CandidatePathsTotal(own: Dict<ItemId, real>, np: Dict<ItemId, real>,
                            wi: real, nu: real, wn: real, nn: real, c: ItemId)
    requires np.Valid()
    requires Reaches(own, np.keys) ==> nu != 0.0 && nn != 0.0
    ensures SumFor(CandidatePaths(own, np, wi, nu, wn, nn, |np.keys|), c)
            == if c in own.vals then 0.0 else PathTerm(wi, nu, wn, nn, GetOr(np, c, 0.0))
  {
    CandidatePathsSum(own, np, wi, nu, wn, nn, c, |np.keys|);
    assert np.keys[..|np.keys|] == np.keys;
    ValidKeys(np);
    if c !in own.vals {
      if c in np.vals {
        assert c in np.keys[..|np.keys|];
        assert GetOr(np, c, 0.0) == np.vals[c];
      } else {
        assert c !in np.keys[..|np.keys|];
        PathTermWeight(wi, nu, wn, nn, 0.0);
      }
    }
  }

  /** The paths through neighbour number `k` add its normalized path weight. */
  lemma NeighbourPathsSumStep(users: Users, own: Dict<ItemId, real>, i: ItemId,
                              ip: Dict<UserId, real>, wi: real, nu: real, c: ItemId, k: nat)
    requires ip.Valid() && k < |ip.keys|
    requires forall n | n in ip.vals :: NeighbourReady(users, own, i, nu, n)
    requires SumFor(NeighbourPaths(users, own, i, ip, wi, nu, k), c)
             == if c in own.vals then 0.0 else NormThroughItem(users, i, ip, wi, nu, c, k)
    ensures SumFor(NeighbourPaths(users, own, i, ip, wi, nu, k + 1), c)
            == if c in own.vals then 0.0 else NormThroughItem(users, i, ip, wi, nu, c, k + 1)
  {
    var n := ip.keys[k];
    assert NeighbourReady(users, own, i, nu, n);
    var np := users.vals[n].profile;
    NeighbourPathsStep(users, own, i, ip, wi, nu, k);
    SumForConcat(NeighbourPaths(users, own, i, ip, wi, nu, k),
                 CandidatePaths(own, np, wi, nu, np.vals[i], users.vals[n].norm, |np.keys|), c);
    CandidatePathsTotal(own, np, wi, nu, np.vals[i], users.vals[n].norm, c);
    assert Weight(users, n, i) == np.vals[i];
    assert Norm(users, n) == users.vals[n].norm;
    assert Weight(users, n, c) == GetOr(np, c, 0.0);
    var t := PathTerm(wi, nu, np.vals[i], users.vals[n].norm, GetOr(np, c, 0.0));
    assert NormThroughItem(users, i, ip, wi, nu, c, k + 1) == NormThroughItem(users, i, ip, wi, nu, c, k) + t;
  }

  lemma {:induction false} NeighbourPathsSum(users: Users, own: Dict<ItemId, real>, i: ItemId,
                                             ip: Dict<UserId, real>, wi: real, nu: real, c: ItemId, m: nat)
    requires ip.Valid() && m <= |ip.keys|
    requires forall n | n in ip.vals :: NeighbourReady(users, own, i, nu, n)
    ensures SumFor(NeighbourPaths(users, own, i, ip, wi, nu, m), c)
            == if c in own.vals then 0.0 else NormThroughItem(users, i, ip, wi, nu, c, m)
  {
    if m > 0 {
      var k: nat := m - 1;
      NeighbourPathsSum(users, own, i, ip, wi, nu, c, k);
      NeighbourPathsSumStep(users, own, i, ip, wi, nu, c, k);
    }
  }

  lemma NormPathSumStep(users: Users, items: Items, u: UserId, c: ItemId, m: nat)
    requires PathsReady(users, items, u) && 0 < m <= |users.vals[u].profile.keys|
    ensures var own := users.vals[u].profile;
            var i := own.keys[m - 1];
            var ip := items.vals[i].profile;
            NormPathSum(users, items, u, c, m)
            == NormPathSum(users, items, u, c, m - 1)
               + NormThroughItem(users, i, ip, own.vals[i], users.vals[u].norm, c, |ip.keys|)
  {
    var own := users.vals[u].profile;
    var i := own.keys[m - 1];
    assert Profile(users, u) == own;
    assert ItemProfile(items, i) == items.vals[i].profile;
  }

  lemma UserItemPathsSumStep(users: Users, items: Items, u: UserId, c: ItemId, k: nat)
    requires PathsReady(users, items, u) && k < |users.vals[u].profile.keys|
    requires SumFor(UserItemPaths(users, items, u, k), c)
             == if c in users.vals[u].profile.vals then 0.0 else NormPathSum(users, items, u, c, k)
    ensures SumFor(UserItemPaths(users, items, u, k + 1), c)
            == if c in users.vals[u].profile.vals then 0.0 else NormPathSum(users, items, u, c, k + 1)
  {
    var own := users.vals[u].profile;
    var i := own.keys[k];
    var ip := items.vals[i].profile;
    NormPathSumStep(users, items, u, c, k + 1);
    UserItemPathsStep(users, items, u, k);
    SumForConcat(UserItemPaths(users, items, u, k),
                 NeighbourPaths(users, own, i, ip, own.vals[i], users.vals[u].norm, |ip.keys|), c);
    NeighbourPathsSum(users, own, i, ip, own.vals[i], users.vals[u].norm, c, |ip.keys|);
  }

  lemma {:induction false} UserItemPathsSum(users: Users, items: Items, u: UserId, c: ItemId, m: nat)
    requires PathsReady(users, items, u) && m <= |users.vals[u].profile.keys|
    ensures SumFor(UserItemPaths(users, items, u, m), c)
            == if c in users.vals[u].profile.vals then 0.0 else NormPathSum(users, items, u, c, m)
  {
    if m > 0 {
      var k: nat := m - 1;
      UserItemPathsSum(users, items, u, c, k);
      UserItemPathsSumStep(users, items, u, c, k);
      assert k + 1 == m;
    }
  }

  /** The score `recommend(u)` gives an item `c` is the total normalized weight of the
      length-3 paths from `u` to `c`; an item the user already has gets no score. */
  lemma ScoreIsPathScore(users: Users, items: Items, u: UserId, c: ItemId)
    requires Invariant(users, items) && u in users.vals && DivisorsNonzero(users, items, u)
    ensures c in Profile(users, u).vals ==> c !in Scores(users, items, u).vals
    ensures c !in Profile(users, u).vals ==> GetOr(Scores(users, items, u), c, 0.0) == NormPathScore(users, items, u, c)
  {
    LookupsSucceed(users, items, u);
    var ps := UserItemPaths(users, items, u, |users.vals[u].profile.keys|);
    AccumulateValue(ps, c);
    UserItemPathsSum(users, items, u, c, |users.vals[u].profile.keys|);
    AccumulateKeys(ps);
  }
}
