/** The recommender that follows every path user → item → user′ → item′ of length 3
    and scores each reachable item by the sum of the path weight products, leaving out
    the items the user already has. */
module ExcludedHistory {
  import opened Seqs
  import opened Dicts
  import opened TopK
  import opened GraphStore

  /** The weight of a path u → i → n → c: the product of its three edge weights. */
  function PathWeight(wi: real, wn: real, wc: real): real
  {
    wi * wn * wc
  }

  /** Contributions of the innermost loop for one neighbour whose profile is `np`,
      over its first `m` items: `(c, PathWeight(wi, wn, np[c]))` for every item `c` not in
      the user's own profile `own`, where `wi` and `wn` are the first two edge weights. */
  function NeighbourItemPaths(own: Dict<ItemId, real>, np: Dict<ItemId, real>, wi: real, wn: real, m: nat)
    : (ps: seq<(ItemId, real)>)
    requires np.Valid() && m <= |np.keys|
    ensures forall j | 0 <= j < |ps| :: ps[j].0 !in own.vals
  {
    if m == 0 then []
    else
      var c := np.keys[m - 1];
      NeighbourItemPaths(own, np, wi, wn, m - 1) + (if c in own.vals then [] else [(c, PathWeight(wi, wn, np.vals[c]))])
  }

  /** Contributions through the first `m` users of an item whose profile is `ip`,
      reached from the user with weight `wi`. */
  function NeighbourPaths(users: Users, own: Dict<ItemId, real>, ip: Dict<UserId, real>, wi: real, m: nat)
    : (ps: seq<(ItemId, real)>)
    requires ip.Valid() && m <= |ip.keys|
    requires forall n | n in ip.vals :: n in users.vals && users.vals[n].profile.Valid()
    ensures forall j | 0 <= j < |ps| :: ps[j].0 !in own.vals
  {
    if m == 0 then []
    else
      var n := ip.keys[m - 1];
      var np := users.vals[n].profile;
      NeighbourPaths(users, own, ip, wi, m - 1) + NeighbourItemPaths(own, np, wi, ip.vals[n], |np.keys|)
  }

  /** Contributions through the first `m` items of user `u`'s profile, in the order
      the three nested loops of `recommend` visit the paths. */
  function UserItemPaths(users: Users, items: Items, u: UserId, m: nat): (ps: seq<(ItemId, real)>)
    requires PathsDefined(users, items, u) && m <= |users.vals[u].profile.keys|
    ensures forall j | 0 <= j < |ps| :: ps[j].0 !in users.vals[u].profile.vals
  {
    if m == 0 then []
    else
      var own := users.vals[u].profile;
      var i := own.keys[m - 1];
      var ip := items.vals[i].profile;
      UserItemPaths(users, items, u, m - 1) + NeighbourPaths(users, own, ip, own.vals[i], |ip.keys|)
  }

  /** The `scores` table `recommend(u)` builds. */
  function Scores(users: Users, items: Items, u: UserId): (d: Dict<ItemId, real>)
    requires Invariant(users, items) && u in users.vals
    ensures d.Valid()
  {
    LookupsSucceed(users, items, u);
    Accumulate(UserItemPaths(users, items, u, |users.vals[u].profile.keys|))
  }

  /** The lookups `items[i]` for an item `i` of the user's profile and `users[n]` for a
      user `n` of that item's profile succeed, on tables that are well formed. */
  ghost predicate PathsDefined(users: Users, items: Items, u: UserId)
  {
    && u in users.vals && users.vals[u].profile.Valid()
    && forall i | i in users.vals[u].profile.vals ::
         && i in items.vals && items.vals[i].profile.Valid()
         && forall n | n in items.vals[i].profile.vals :: n in users.vals && users.vals[n].profile.Valid()
  }

  /** The graph invariant makes every lookup of `recommend` succeed. */
  lemma LookupsSucceed(users: Users, items: Items, u: UserId)
    requires Invariant(users, items) && u in users.vals
    ensures PathsDefined(users, items, u)
  {
    forall i | i in users.vals[u].profile.vals
      ensures i in items.vals && items.vals[i].profile.Valid()
      ensures forall n | n in items.vals[i].profile.vals :: n in users.vals && users.vals[n].profile.Valid()
    {
      assert ItemsKnown(users, items);
      assert i in items.vals;
      forall n | n in items.vals[i].profile.vals
        ensures n in users.vals && users.vals[n].profile.Valid()
      {
        assert ItemEdgesMirrored(users, items);
      }
    }
  }

  lemma NeighbourItemPathsStep(own: Dict<ItemId, real>, np: Dict<ItemId, real>, wi: real, wn: real, c: nat)
    requires np.Valid() && c < |np.keys|
    ensures NeighbourItemPaths(own, np, wi, wn, c + 1)
         == NeighbourItemPaths(own, np, wi, wn, c)
            + (if np.keys[c] in own.vals then [] else [(np.keys[c], PathWeight(wi, wn, np.vals[np.keys[c]]))])
  {
  }

  lemma NeighbourPathsStep(users: Users, own: Dict<ItemId, real>, ip: Dict<UserId, real>, wi: real, b: nat)
    requires ip.Valid() && b < |ip.keys|
    requires forall n | n in ip.vals :: n in users.vals && users.vals[n].profile.Valid()
    ensures NeighbourPaths(users, own, ip, wi, b + 1)
         == NeighbourPaths(users, own, ip, wi, b)
            + NeighbourItemPaths(own, users.vals[ip.keys[b]].profile, wi, ip.vals[ip.keys[b]],
                                 |users.vals[ip.keys[b]].profile.keys|)
  {
  }

  lemma UserItemPathsStep(users: Users, items: Items, u: UserId, a: nat)
    requires PathsDefined(users, items, u) && a < |users.vals[u].profile.keys|
    ensures var own := users.vals[u].profile;
            var ip := items.vals[own.keys[a]].profile;
            UserItemPaths(users, items, u, a + 1)
            == UserItemPaths(users, items, u, a) + NeighbourPaths(users, own, ip, own.vals[own.keys[a]], |ip.keys|)
  {
  }

  /** One turn of the innermost loop adds the next path, if its end item is not the user's. */
  lemma AddNeighbourItemStep(scores: Dict<ItemId, real>, own: Dict<ItemId, real>,
                             np: Dict<ItemId, real>, wi: real, wn: real, c: nat)
    requires scores.Valid() && np.Valid() && c < |np.keys|
    ensures var k := np.keys[c];
            AddAll(scores, NeighbourItemPaths(own, np, wi, wn, c + 1))
            == AddUnowned(AddAll(scores, NeighbourItemPaths(own, np, wi, wn, c)), own, k, PathWeight(wi, wn, np.vals[k]))
  {
    var k := np.keys[c];
    NeighbourItemPathsStep(own, np, wi, wn, c);
    if k !in own.vals {
      AddAllSnoc(scores, NeighbourItemPaths(own, np, wi, wn, c), k, PathWeight(wi, wn, np.vals[k]));
    } else {
      assert NeighbourItemPaths(own, np, wi, wn, c + 1) == NeighbourItemPaths(own, np, wi, wn, c);
    }
  }

  /** The innermost loop of `recommend`: adds to `scores` the paths that continue
      through the neighbour whose profile is `np`. */
  method AddNeighbourItems(scores: Dict<ItemId, real>, own: Dict<ItemId, real>,
                           np: Dict<ItemId, real>, wi: real, wn: real)
    returns (s: Dict<ItemId, real>)
    requires scores.Valid() && np.Valid()
    ensures s == AddAll(scores, NeighbourItemPaths(own, np, wi, wn, |np.keys|))
  {
    s := scores;
    var c := 0;
    while c < |np.keys|
      invariant 0 <= c <= |np.keys|
      invariant s == AddAll(scores, NeighbourItemPaths(own, np, wi, wn, c))
    {
      var neighbourItemId := np.keys[c];
      var neighbourItemWeight := np.vals[neighbourItemId];
      AddNeighbourItemStep(scores, own, np, wi, wn, c);
      s := AddUnowned(s, own, neighbourItemId, PathWeight(wi, wn, neighbourItemWeight));
      c := c + 1;
    }
  }

  /** One turn of the middle loop adds the paths through the next neighbour. */
  lemma AddNeighbourStep(scores: Dict<ItemId, real>, users: Users, own: Dict<ItemId, real>,
                         ip: Dict<UserId, real>, wi: real, b: nat)
    requires scores.Valid() && ip.Valid() && b < |ip.keys|
    requires forall n | n in ip.vals :: n in users.vals && users.vals[n].profile.Valid()
    ensures var n := ip.keys[b];
            var np := users.vals[n].profile;
            AddAll(scores, NeighbourPaths(users, own, ip, wi, b + 1))
            == AddAll(AddAll(scores, NeighbourPaths(users, own, ip, wi, b)),
                      NeighbourItemPaths(own, np, wi, ip.vals[n], |np.keys|))
  {
    var n := ip.keys[b];
    var np := users.vals[n].profile;
    NeighbourPathsStep(users, own, ip, wi, b);
    AddAllConcat(scores, NeighbourPaths(users, own, ip, wi, b), NeighbourItemPaths(own, np, wi, ip.vals[n], |np.keys|));
  }

  /** The middle loop of `recommend`: adds to `scores` the paths that continue
      through every user of the item whose profile is `ip`. */
  method AddNeighbours(scores: Dict<ItemId, real>, users: Users, own: Dict<ItemId, real>,
                       ip: Dict<UserId, real>, wi: real)
    returns (s: Dict<ItemId, real>)
    requires scores.Valid() && ip.Valid()
    requires forall n | n in ip.vals :: n in users.vals && users.vals[n].profile.Valid()
    ensures s == AddAll(scores, NeighbourPaths(users, own, ip, wi, |ip.keys|))
  {
    s := scores;
    var b := 0;
    while b < |ip.keys|
      invariant 0 <= b <= |ip.keys|
      invariant s == AddAll(scores, NeighbourPaths(users, own, ip, wi, b))
    {
      var neighbourId := ip.keys[b];
      var neighbourWeight := ip.vals[neighbourId];
      var np := users.vals[neighbourId].profile;
      AddNeighbourStep(scores, users, own, ip, wi, b);
      s := AddNeighbourItems(s, own, np, wi, neighbourWeight);
      b := b + 1;
    }
  }

  /** One turn of the outer loop adds the paths through the next item of the user. */
  lemma AddUserItemStep(users: Users, items: Items, u: UserId, a: nat)
    requires PathsDefined(users, items, u) && a < |users.vals[u].profile.keys|
    ensures var own := users.vals[u].profile;
            var ip := items.vals[own.keys[a]].profile;
            Accumulate(UserItemPaths(users, items, u, a + 1))
            == AddAll(Accumulate(UserItemPaths(users, items, u, a)),
                      NeighbourPaths(users, own, ip, own.vals[own.keys[a]], |ip.keys|))
  {
    var own := users.vals[u].profile;
    var ip := items.vals[own.keys[a]].profile;
    UserItemPathsStep(users, items, u, a);
    AddAllConcat(Empty(), UserItemPaths(users, items, u, a), NeighbourPaths(users, own, ip, own.vals[own.keys[a]], |ip.keys|));
  }

  /** Top 10 items by accumulated path score, never one the user already has; an
      unknown user gets an empty list. */
  method Recommend(g: Graph, userId: UserId) returns (r: seq<ItemId>)
    requires g.Valid()
    ensures userId !in g.users.vals ==> r == []
    ensures userId in g.users.vals ==> r == TopKeys(Scores(g.users, g.items, userId), 10)
    ensures |r| <= 10 && Distinct(r)
    ensures forall c | c in r :: c !in Profile(g.users, userId).vals
  {
    if userId !in g.users.vals {
      return [];
    }
    var users, items := g.users, g.items;
    var own := users.vals[userId].profile;
    LookupsSucceed(users, items, userId);
    var scores: Dict<ItemId, real> := Empty();
    var a := 0;
    while a < |own.keys|
      invariant 0 <= a <= |own.keys|
      invariant scores == Accumulate(UserItemPaths(users, items, userId, a))
    {
      var userItemId := own.keys[a];
      var userItemWeight := own.vals[userItemId];
      var ip := items.vals[userItemId].profile;
      AddUserItemStep(users, items, userId, a);
      scores := AddNeighbours(scores, users, own, ip, userItemWeight);
      a := a + 1;
    }
    r := TopKeys(scores, 10);
    AccumulateKeys(UserItemPaths(users, items, userId, |own.keys|));
  }

  /** Reference definition of a score: the total weight of the paths u → i → n → c that
      pass through the first `m` users `n` of the item profile `ip`, the edge u → i
      weighing `wi` and a missing edge reading as 0.0. */
  function ThroughItem(users: Users, ip: Dict<UserId, real>, wi: real, c: ItemId, m: nat): real
    requires m <= |ip.keys|
  {
    if m == 0 then 0.0
    else
      var n := ip.keys[m - 1];
      ThroughItem(users, ip, wi, c, m - 1) + PathWeight(wi, GetOr(ip, n, 0.0), Weight(users, n, c))
  }

  /** The total weight of the paths u → i → n → c through the first `m` items `i` of
      the profile of `u`. */
  function PathSum(users: Users, items: Items, u: UserId, c: ItemId, m: nat): real
    requires m <= |Profile(users, u).keys|
  {
    if m == 0 then 0.0
    else
      var i := Profile(users, u).keys[m - 1];
      var ip := ItemProfile(items, i);
      PathSum(users, items, u, c, m - 1) + ThroughItem(users, ip, Weight(users, u, i), c, |ip.keys|)
  }

  /** The total weight of all paths of length 3 from `u` to `c`. */
  function PathScore(users: Users, items: Items, u: UserId, c: ItemId): real
  {
    PathSum(users, items, u, c, |Profile(users, u).keys|)
  }

  lemma {:induction false} NeighbourItemPathsSum(own: Dict<ItemId, real>, np: Dict<ItemId, real>,
                                                 wi: real, wn: real, c: ItemId, m: nat)
    requires np.Valid() && m <= |np.keys|
    ensures SumFor(NeighbourItemPaths(own, np, wi, wn, m), c)
            == if c !in own.vals && c in np.keys[..m] then PathWeight(wi, wn, np.vals[c]) else 0.0
  {
    if m > 0 {
      var k := np.keys[m - 1];
      NeighbourItemPathsSum(own, np, wi, wn, c, m - 1);
      var tail := if k in own.vals then [] else [(k, PathWeight(wi, wn, np.vals[k]))];
      SumForConcat(NeighbourItemPaths(own, np, wi, wn, m - 1), tail, c);
      if k !in own.vals {
        SumForOne(k, PathWeight(wi, wn, np.vals[k]), c);
      }
      assert np.keys[..m] == np.keys[..m - 1] + [k];
      if k == c {
        assert c !in np.keys[..m - 1];
      }
    }
  }

  /** The innermost loop adds `PathWeight(wi, wn, np[c])` to the score of `c`, or nothing
      when `c` is in the user's profile. */
  lemma NeighbourItemPathsTotal(own: Dict<ItemId, real>, np: Dict<ItemId, real>, wi: real, wn: real, c: ItemId)
    requires np.Valid()
    ensures SumFor(NeighbourItemPaths(own, np, wi, wn, |np.keys|), c)
            == if c in own.vals then 0.0 else PathWeight(wi, wn, GetOr(np, c, 0.0))
  {
    NeighbourItemPathsSum(own, np, wi, wn, c, |np.keys|);
    assert np.keys[..|np.keys|] == np.keys;
    ValidKeys(np);
  }

  lemma {:induction false} NeighbourPathsSum(users: Users, own: Dict<ItemId, real>, ip: Dict<UserId, real>,
                                             wi: real, c: ItemId, m: nat)
    requires ip.Valid() && m <= |ip.keys|
    requires forall n | n in ip.vals :: n in users.vals && users.vals[n].profile.Valid()
    ensures SumFor(NeighbourPaths(users, own, ip, wi, m), c)
            == if c in own.vals then 0.0 else ThroughItem(users, ip, wi, c, m)
  {
    if m > 0 {
      var n := ip.keys[m - 1];
      var np := users.vals[n].profile;
      NeighbourPathsSum(users, own, ip, wi, c, m - 1);
      SumForConcat(NeighbourPaths(users, own, ip, wi, m - 1), NeighbourItemPaths(own, np, wi, ip.vals[n], |np.keys|), c);
      NeighbourItemPathsTotal(own, np, wi, ip.vals[n], c);
    }
  }

  lemma PathSumStep(users: Users, items: Items, u: UserId, c: ItemId, m: nat)
    requires PathsDefined(users, items, u) && 0 < m <= |users.vals[u].profile.keys|
    ensures var own := users.vals[u].profile;
            var ip := items.vals[own.keys[m - 1]].profile;
            PathSum(users, items, u, c, m) == PathSum(users, items, u, c, m - 1) + ThroughItem(users, ip, own.vals[own.keys[m - 1]], c, |ip.keys|)
  {
    var own := users.vals[u].profile;
    var i := own.keys[m - 1];
    assert Profile(users, u) == own;
    assert ItemProfile(items, i) == items.vals[i].profile;
  }

  /** The paths through item number `k` of the profile add `ThroughItem` for that item
      to the score of every `c` the user does not have. */
  lemma UserItemPathsSumStep(users: Users, items: Items, u: UserId, c: ItemId, k: nat)
    requires PathsDefined(users, items, u) && k < |users.vals[u].profile.keys|
    requires SumFor(UserItemPaths(users, items, u, k), c)
             == if c in users.vals[u].profile.vals then 0.0 else PathSum(users, items, u, c, k)
    ensures SumFor(UserItemPaths(users, items, u, k + 1), c)
            == if c in users.vals[u].profile.vals then 0.0 else PathSum(users, items, u, c, k + 1)
  {
    var own := users.vals[u].profile;
    var i := own.keys[k];
    var ip := items.vals[i].profile;
    PathSumStep(users, items, u, c, k + 1);
    UserItemPathsStep(users, items, u, k);
    SumForConcat(UserItemPaths(users, items, u, k), NeighbourPaths(users, own, ip, own.vals[i], |ip.keys|), c);
    NeighbourPathsSum(users, own, ip, own.vals[i], c, |ip.keys|);
  }

  /** The contributions the loops make to `c` over the first `m` items of the profile
      add up to the reference path sum, and to nothing when the user has `c`. */
  lemma {:induction false} UserItemPathsSum(users: Users, items: Items, u: UserId, c: ItemId, m: nat)
    requires PathsDefined(users, items, u) && m <= |users.vals[u].profile.keys|
    ensures SumFor(UserItemPaths(users, items, u, m), c)
            == if c in users.vals[u].profile.vals then 0.0 else PathSum(users, items, u, c, m)
  {
    if m > 0 {
      var k: nat := m - 1;
      UserItemPathsSum(users, items, u, c, k);
      UserItemPathsSumStep(users, items, u, c, k);
      assert k + 1 == m;
    }
  }

  /** The score `recommend(u)` gives an item `c` is the total weight of the length-3
      paths from `u` to `c`; an item the user already has gets no score at all. */
  lemma ScoreIsPathScore(users: Users, items: Items, u: UserId, c: ItemId)
    requires Invariant(users, items) && u in users.vals
    ensures c in Profile(users, u).vals ==> c !in Scores(users, items, u).vals
    ensures c !in Profile(users, u).vals ==> GetOr(Scores(users, items, u), c, 0.0) == PathScore(users, items, u, c)
  {
    LookupsSucceed(users, items, u);
    var ps := UserItemPaths(users, items, u, |users.vals[u].profile.keys|);
    AccumulateValue(ps, c);
    UserItemPathsSum(users, items, u, c, |users.vals[u].profile.keys|);
    AccumulateKeys(ps);
  }
}
