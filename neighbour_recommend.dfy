/** `recommend` of the user-neighbours recommender: every item of every stored
    neighbour scores `similarity * weight`, items the user already has are skipped, and
    the ten best are returned. */
module NeighbourRecommend {
  import opened Seqs
  import opened Dicts
  import opened TopK
  import opened GraphStore

  /** What one neighbour item adds to its score: the neighbour's similarity times the
      neighbour's weight on the item. */
  function Contribution(similarity: real, weight: real): real
  {
    similarity * weight
  }

  /** Contributions of the inner loop over the first `m` items of the neighbour profile
      `np`: `(c, Contribution(similarity, np[c]))` for every item `c` not in the user's
      own profile `own`. */
  function ItemContribs(own: Dict<ItemId, real>, np: Dict<ItemId, real>, similarity: real, m: nat)
    : (cs: seq<(ItemId, real)>)
    requires np.Valid() && m <= |np.keys|
    ensures forall j | 0 <= j < |cs| :: cs[j].0 !in own.vals && cs[j].0 in np.vals
  {
    if m == 0 then []
    else
      var c := np.keys[m - 1];
      ItemContribs(own, np, similarity, m - 1)
        + (if c in own.vals then [] else [(c, Contribution(similarity, np.vals[c]))])
  }

  /** The lookups `users[u]` and `users[neighbour_id]` succeed and reach well formed
      profiles. */
  ghost predicate NeighboursDefined(users: Users, u: UserId)
  {
    && u in users.vals && users.vals[u].profile.Valid()
    && forall k | 0 <= k < |users.vals[u].neighbours| ::
         users.vals[u].neighbours[k].id in users.vals
         && users.vals[users.vals[u].neighbours[k].id].profile.Valid()
  }

  /** The graph invariant makes every lookup of `recommend` succeed. */
  lemma LookupsSucceed(users: Users, items: Items, u: UserId)
    requires Invariant(users, items) && u in users.vals
    ensures NeighboursDefined(users, u)
  {
    assert NeighboursKnown(users);
    assert NodesValid(users, items);
  }

  /** Contributions through the first `m` neighbours of `u`, in the order the two
      loops of `recommend` make them. */
  function NeighbourContribs(users: Users, u: UserId, m: nat): (cs: seq<(ItemId, real)>)
    requires NeighboursDefined(users, u) && m <= |users.vals[u].neighbours|
    ensures forall j | 0 <= j < |cs| :: cs[j].0 !in users.vals[u].profile.vals
  {
    if m == 0 then []
    else
      var nb := users.vals[u].neighbours[m - 1];
      var np := users.vals[nb.id].profile;
      NeighbourContribs(users, u, m - 1) + ItemContribs(users.vals[u].profile, np, nb.similarity, |np.keys|)
  }

  /** The `scores` table `recommend(u)` builds. */
  function Scores(users: Users, items: Items, u: UserId): (d: Dict<ItemId, real>)
    requires Invariant(users, items) && u in users.vals
    ensures d.Valid()
  {
    LookupsSucceed(users, items, u);
    Accumulate(NeighbourContribs(users, u, |users.vals[u].neighbours|))
  }

  lemma ItemContribsStep(own: Dict<ItemId, real>, np: Dict<ItemId, real>, similarity: real, c: nat)
    requires np.Valid() && c < |np.keys|
    ensures ItemContribs(own, np, similarity, c + 1)
         == ItemContribs(own, np, similarity, c)
            + (if np.keys[c] in own.vals then [] else [(np.keys[c], Contribution(similarity, np.vals[np.keys[c]]))])
  {
  }

  lemma NeighbourContribsStep(users: Users, u: UserId, k: nat)
    requires NeighboursDefined(users, u) && k < |users.vals[u].neighbours|
    ensures var nb := users.vals[u].neighbours[k];
            var np := users.vals[nb.id].profile;
            NeighbourContribs(users, u, k + 1)
            == NeighbourContribs(users, u, k) + ItemContribs(users.vals[u].profile, np, nb.similarity, |np.keys|)
  {
  }

  /** One turn of the inner loop adds the next item of the neighbour, unless the user
      has it. */
  lemma AddItemStep(scores: Dict<ItemId, real>, own: Dict<ItemId, real>, np: Dict<ItemId, real>,
                    similarity: real, c: nat)
    requires scores.Valid() && np.Valid() && c < |np.keys|
    ensures var k := np.keys[c];
            AddAll(scores, ItemContribs(own, np, similarity, c + 1))
            == AddUnowned(AddAll(scores, ItemContribs(own, np, similarity, c)), own, k,
                         Contribution(similarity, np.vals[k]))
  {
    var k := np.keys[c];
    ItemContribsStep(own, np, similarity, c);
    if k !in own.vals {
      AddAllSnoc(scores, ItemContribs(own, np, similarity, c), k, Contribution(similarity, np.vals[k]));
    } else {
      assert ItemContribs(own, np, similarity, c + 1) == ItemContribs(own, np, similarity, c);
    }
  }

  /** The inner loop of `recommend`: adds to `scores` what the neighbour whose profile
      is `np` contributes, with its similarity `similarity`. */
  method AddNeighbourItems(scores: Dict<ItemId, real>, own: Dict<ItemId, real>, np: Dict<ItemId, real>,
                           similarity: real)
    returns (s: Dict<ItemId, real>)
    requires scores.Valid() && np.Valid()
    ensures s == AddAll(scores, ItemContribs(own, np, similarity, |np.keys|))
  {
    s := scores;
    var c := 0;
    while c < |np.keys|
      invariant 0 <= c <= |np.keys|
      invariant s == AddAll(scores, ItemContribs(own, np, similarity, c))
    {
      var neighbourItemId := np.keys[c];
      var neighbourItemWeight := np.vals[neighbourItemId];
      AddItemStep(scores, own, np, similarity, c);
      s := AddUnowned(s, own, neighbourItemId, Contribution(similarity, neighbourItemWeight));
      c := c + 1;
    }
  }

  /** One turn of the outer loop adds the contributions of the next neighbour. */
  lemma AddNeighbourStep(users: Users, u: UserId, k: nat)
    requires NeighboursDefined(users, u) && k < |users.vals[u].neighbours|
    ensures var nb := users.vals[u].neighbours[k];
            var np := users.vals[nb.id].profile;
            Accumulate(NeighbourContribs(users, u, k + 1))
            == AddAll(Accumulate(NeighbourContribs(users, u, k)),
                      ItemContribs(users.vals[u].profile, np, nb.similarity, |np.keys|))
  {
    var nb := users.vals[u].neighbours[k];
    var np := users.vals[nb.id].profile;
    NeighbourContribsStep(users, u, k);
    AddAllConcat(Empty(), NeighbourContribs(users, u, k), ItemContribs(users.vals[u].profile, np, nb.similarity, |np.keys|));
  }

  /** Top 10 items by score over the neighbours of the user, never one the user already
      has; an unknown user gets an empty list. The graph is left as it is. */
  method Recommend(g: Graph, userId: UserId) returns (r: seq<ItemId>)
    requires g.Valid()
    ensures userId !in g.users.vals ==> r == []
    ensures userId in g.users.vals ==> r == TopKeys(Scores(g.users, g.items, userId), 10)
    ensures |r| <= 10 && Distinct(r)
    ensures forall c | c in r :: c !in Profile(g.users, userId).vals
  {
    if userId !in g.users.vals {
      return [];
    }
    var users, items := g.users, g.items;
    var userNode := users.vals[userId];
    LookupsSucceed(users, items, userId);
    var scores: Dict<ItemId, real> := Empty();
    var k := 0;
    while k < |userNode.neighbours|
      invariant 0 <= k <= |userNode.neighbours|
      invariant scores == Accumulate(NeighbourContribs(users, userId, k))
    {
      var neighbour := userNode.neighbours[k];
      var neighbourNode := users.vals[neighbour.id];
      AddNeighbourStep(users, userId, k);
      scores := AddNeighbourItems(scores, userNode.profile, neighbourNode.profile, neighbour.similarity);
      k := k + 1;
    }
    r := TopKeys(scores, 10);
    AccumulateKeys(NeighbourContribs(users, userId, |userNode.neighbours|));
  }

  /** Reference definition of a score: what the first `m` neighbours `n` of `u` give an
      item `c`, the similarity of `n` times its weight on `c`, a missing edge reading
      as 0.0. */
  function NeighbourSum(users: Users, u: UserId, c: ItemId, m: nat): real
    requires u in users.vals && m <= |users.vals[u].neighbours|
  {
    if m == 0 then 0.0
    else
      var nb := users.vals[u].neighbours[m - 1];
      NeighbourSum(users, u, c, m - 1) + Contribution(nb.similarity, Weight(users, nb.id, c))
  }

  /** What all neighbours of `u` give the item `c`. */
  function NeighbourScore(users: Users, u: UserId, c: ItemId): real
    requires u in users.vals
  {
    NeighbourSum(users, u, c, |users.vals[u].neighbours|)
  }

  lemma {:induction false} ItemContribsSum(own: Dict<ItemId, real>, np: Dict<ItemId, real>,
                                           similarity: real, c: ItemId, m: nat)
    requires np.Valid() && m <= |np.keys|
    ensures SumFor(ItemContribs(own, np, similarity, m), c)
            == if c !in own.vals && c in np.keys[..m] then Contribution(similarity, np.vals[c]) else 0.0
  {
    if m > 0 {
      var k := np.keys[m - 1];
      ItemContribsSum(own, np, similarity, c, m - 1);
      var tail := if k in own.vals then [] else [(k, Contribution(similarity, np.vals[k]))];
      SumForConcat(ItemContribs(own, np, similarity, m - 1), tail, c);
      if k !in own.vals {
        SumForOne(k, Contribution(similarity, np.vals[k]), c);
      }
      PrefixLast(np.keys, m);
      if k == c {
        assert c !in np.keys[..m - 1];
      }
    }
  }

  /** The inner loop adds `similarity * np[c]` to the score of `c`, or nothing when the
      user has `c`. */
  lemma ItemContribsTotal(own: Dict<ItemId, real>, np: Dict<ItemId, real>, similarity: real, c: ItemId)
    requires np.Valid()
    ensures SumFor(ItemContribs(own, np, similarity, |np.keys|), c)
            == if c in own.vals then 0.0 else Contribution(similarity, GetOr(np, c, 0.0))
  {
    ItemContribsSum(own, np, similarity, c, |np.keys|);
    assert np.keys[..|np.keys|] == np.keys;
    ValidKeys(np);
  }

  /** The contributions through neighbour number `k` add its share to the score of
      every `c` the user does not have. */
  lemma NeighbourContribsSumStep(users: Users, u: UserId, c: ItemId, k: nat)
    requires NeighboursDefined(users, u) && k < |users.vals[u].neighbours|
    requires SumFor(NeighbourContribs(users, u, k), c)
             == if c in users.vals[u].profile.vals then 0.0 else NeighbourSum(users, u, c, k)
    ensures SumFor(NeighbourContribs(users, u, k + 1), c)
            == if c in users.vals[u].profile.vals then 0.0 else NeighbourSum(users, u, c, k + 1)
  {
    var nb := users.vals[u].neighbours[k];
    var np := users.vals[nb.id].profile;
    NeighbourContribsStep(users, u, k);
    SumForConcat(NeighbourContribs(users, u, k), ItemContribs(users.vals[u].profile, np, nb.similarity, |np.keys|), c);
    ItemContribsTotal(users.vals[u].profile, np, nb.similarity, c);
    assert Profile(users, nb.id) == np;
  }

  /** The contributions of the first `m` neighbours to `c` add up to the reference sum,
      and to nothing when the user has `c`. */
  lemma {:induction false} NeighbourContribsSum(users: Users, u: UserId, c: ItemId, m: nat)
    requires NeighboursDefined(users, u) && m <= |users.vals[u].neighbours|
    ensures SumFor(NeighbourContribs(users, u, m), c)
            == if c in users.vals[u].profile.vals then 0.0 else NeighbourSum(users, u, c, m)
  {
    if m > 0 {
      var k: nat := m - 1;
      NeighbourContribsSum(users, u, c, k);
      NeighbourContribsSumStep(users, u, c, k);
      assert k + 1 == m;
    }
  }

  /** The score `recommend(u)` gives an item `c` is the similarity-weighted sum of the
      neighbours' weights on `c`; an item the user already has gets no score at all. */
  lemma ScoreIsNeighbourScore(users: Users, items: Items, u: UserId, c: ItemId)
    requires Invariant(users, items) && u in users.vals
    ensures c in Profile(users, u).vals ==> c !in Scores(users, items, u).vals
    ensures c !in Profile(users, u).vals ==> GetOr(Scores(users, items, u), c, 0.0) == NeighbourScore(users, u, c)
  {
    LookupsSucceed(users, items, u);
    var cs := NeighbourContribs(users, u, |users.vals[u].neighbours|);
    AccumulateValue(cs, c);
    NeighbourContribsSum(users, u, c, |users.vals[u].neighbours|);
    AccumulateKeys(cs);
  }

  /** Only items of some neighbour's profile are scored. */
  lemma {:induction false} ContribsFromNeighbours(users: Users, u: UserId, m: nat, j: nat)
    requires NeighboursDefined(users, u) && m <= |users.vals[u].neighbours|
    requires j < |NeighbourContribs(users, u, m)|
    ensures exists k | 0 <= k < m :: NeighbourContribs(users, u, m)[j].0 in users.vals[users.vals[u].neighbours[k].id].profile.vals
  {
    var nb := users.vals[u].neighbours[m - 1];
    var np := users.vals[nb.id].profile;
    var prev := NeighbourContribs(users, u, m - 1);
    NeighbourContribsStep(users, u, m - 1);
    if j < |prev| {
      ContribsFromNeighbours(users, u, m - 1, j);
    } else {
      assert NeighbourContribs(users, u, m)[j] == ItemContribs(users.vals[u].profile, np, nb.similarity, |np.keys|)[j - |prev|];
    }
  }

  /** A user without neighbours gets no recommendation. */
  lemma NoNeighboursNoItems(users: Users, items: Items, u: UserId)
    requires Invariant(users, items) && u in users.vals && users.vals[u].neighbours == []
    ensures TopKeys(Scores(users, items, u), 10) == []
  {
    LookupsSucceed(users, items, u);
    assert NeighbourContribs(users, u, 0) == [];
  }

  /** Every scored item, so every recommended one, is in the profile of a neighbour of
      the user. */
  lemma ScoredFromNeighbours(users: Users, items: Items, u: UserId, c: ItemId)
    requires Invariant(users, items) && u in users.vals && c in Scores(users, items, u).vals
    ensures exists k | 0 <= k < |users.vals[u].neighbours| ::
              c in Profile(users, users.vals[u].neighbours[k].id).vals
  {
    LookupsSucceed(users, items, u);
    var ns := users.vals[u].neighbours;
    var cs := NeighbourContribs(users, u, |ns|);
    AccumulateKeys(cs);
    var j :| 0 <= j < |cs| && Firsts(cs)[j] == c;
    ContribsFromNeighbours(users, u, |ns|, j);
    var k :| 0 <= k < |ns| && c in users.vals[ns[k].id].profile.vals;
    assert Profile(users, ns[k].id) == users.vals[ns[k].id].profile;
  }
}
