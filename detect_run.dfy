/** The whole of `detect_user_neighbours`: one turn per user, in the order of the users
    table, each turn working on the table the previous turns left; and the method that
    runs it on a graph, with its two nested loops. */
module NeighbourDetectionRun {
  import opened Seqs
  import opened Dicts
  import opened GraphStore
  import opened UserNeighbours
  import opened NeighbourDetection

  /** The users table after the turns of the first `m` users of `users`. */
  function DetectUpTo(users: Users, items: Items, m: nat): (r: Users)
    requires Invariant(users, items) && NormsSet(users) && m <= |users.keys|
    ensures Invariant(r, items) && NormsSet(r)
    ensures r.keys == users.keys && r.vals.Keys == users.vals.Keys
    ensures forall a | a in users.keys[..m] :: NeighboursFormed(r, a)
  {
    if m == 0 then users
    else
      var s := DetectUpTo(users, items, m - 1);
      var a := users.keys[m - 1];
      ValidKeys(s);
      DetectOneKeeps(s, items, a);
      DetectOneKeys(s, items, a);
      DetectTurn(s, items, users.keys[..m - 1], a);
      PrefixLast(users.keys, m);
      DetectOne(s, items, a)
  }

  /** The users table after `detect_user_neighbours`. */
  function DetectAll(users: Users, items: Items): (r: Users)
    requires Invariant(users, items) && NormsSet(users)
    ensures Invariant(r, items) && NormsSet(r)
    ensures r.keys == users.keys && r.vals.Keys == users.vals.Keys
    ensures forall a | a in users.vals :: NeighboursFormed(r, a)
  {
    ValidKeys(users);
    assert users.keys[..|users.keys|] == users.keys;
    DetectUpTo(users, items, |users.keys|)
  }

  /** The next turn of the loop over the candidates, spelled out without quantifiers. */
  lemma ScoreCandidatesNext(users: Users, a: UserId, pa: Dict<ItemId, real>, na: real,
                            cands: seq<UserId>, k: nat)
    requires ScoringReady(users, a, pa, na, cands) && k < |cands|
    ensures var s := ScoreCandidates(users, a, pa, na, cands, k);
            var b := cands[k];
            && s.users.Valid() && s.scored.Valid() && pa.Valid()
            && (b == a ==> ScoreCandidates(users, a, pa, na, cands, k + 1) == s)
            && (b != a ==> && na != 0.0 && b in s.users.vals && s.users.vals[b].norm != 0.0
                           && s.users.vals[b].profile.Valid()
                           && ScoreCandidates(users, a, pa, na, cands, k + 1)
                              == Pass(s.users.Put(b, s.users.vals[b].(profile := Padded(pa, s.users.vals[b].profile, |pa.keys|))),
                                      s.scored.Put(b, Similarity(pa, na, s.users.vals[b].profile, s.users.vals[b].norm))))
  {
    ScoreCandidatesStep(users, a, pa, na, cands, k);
  }

  /** One turn of the loop over the candidates: skip `a`, otherwise record the
      similarity of `b` and store its padded profile. */
  method ScoreOne(g: Graph, a: UserId, pa: Dict<ItemId, real>, na: real, b: UserId,
                  scored: Dict<UserId, real>) returns (scored': Dict<UserId, real>)
    requires g.users.Valid() && scored.Valid() && pa.Valid()
    requires b != a ==> na != 0.0 && b in g.users.vals && g.users.vals[b].norm != 0.0
                        && g.users.vals[b].profile.Valid()
    modifies g
    ensures Pass(g.users, scored') == ScoreCandidate(Pass(old(g.users), scored), a, pa, na, b)
    ensures g.items == old(g.items)
  {
    scored' := scored;
    if b != a {
      var nb := g.users.vals[b];
      var similarity, padded := GetSimilarity(pa, na, nb.profile, nb.norm);
      g.users := g.users.Put(b, nb.(profile := padded));
      scored' := scored.Put(b, similarity);
    }
  }

  /** The loop over the candidates `cands` of `a` (profile `pa`, norm `na`): the
      similarity to each candidate other than `a` is recorded in `scored`, and
      `get_similarity` leaves the candidate's profile padded in the graph. */
  method ScoreCandidatesOf(g: Graph, a: UserId, pa: Dict<ItemId, real>, na: real, cands: seq<UserId>)
    returns (scored: Dict<UserId, real>)
    requires ScoringReady(g.users, a, pa, na, cands)
    modifies g
    ensures Pass(g.users, scored) == ScoreCandidates(old(g.users), a, pa, na, cands, |cands|)
    ensures g.items == old(g.items)
  {
    ghost var users0 := g.users;
    scored := Empty();
    var k := 0;
    while k < |cands|
      invariant 0 <= k <= |cands| && g.items == old(g.items)
      invariant Pass(g.users, scored) == ScoreCandidates(users0, a, pa, na, cands, k)
    {
      ScoreCandidatesNext(users0, a, pa, na, cands, k);
      scored := ScoreOne(g, a, pa, na, cands[k], scored);
      k := k + 1;
    }
  }

  /** One turn of the outer loop: score the candidates of `a`, then store the 50 best as
      its neighbours. */
  method DetectFor(g: Graph, a: UserId)
    requires g.Valid() && NormsSet(g.users) && a in g.users.vals
    modifies g
    ensures g.users == DetectOne(old(g.users), old(g.items), a)
    ensures g.items == old(g.items)
  {
    ghost var users0, items0 := g.users, g.items;
    DetectReady(users0, items0, a);
    var pa, na := g.users.vals[a].profile, g.users.vals[a].norm;
    var cands := GetNeighboursCandidates(g.users, g.items, pa);
    var scored := ScoreCandidatesOf(g, a, pa, na, cands);
    assert Pass(g.users, scored) == ScorePass(users0, items0, a);
    StoreNeighbours(g, a, scored);
  }

  /** `self.users[a].neighbours = ...`: stores the best of the scores `scored` as the
      neighbours of `a`. */
  method StoreNeighbours(g: Graph, a: UserId, scored: Dict<UserId, real>)
    requires g.users.Valid() && a in g.users.vals && scored.Valid()
    modifies g
    ensures g.users == old(g.users).Put(a, old(g.users).vals[a].(neighbours := BestNeighbours(scored)))
    ensures g.items == old(g.items)
  {
    g.users := g.users.Put(a, g.users.vals[a].(neighbours := BestNeighbours(scored)));
  }

  /** `detect_user_neighbours`: a turn for each user, in the order of the users table. */
  method DetectUserNeighbours(g: Graph)
    requires g.Valid() && NormsSet(g.users)
    modifies g
    ensures g.users == DetectAll(old(g.users), old(g.items))
    ensures g.items == old(g.items)
    ensures g.Valid() && NormsSet(g.users)
  {
    ghost var users0 := g.users;
    var ids := g.users.keys;
    ValidKeys(users0);
    var n := 0;
    while n < |ids|
      invariant 0 <= n <= |ids| && ids == users0.keys && g.items == old(g.items)
      invariant g.users == DetectUpTo(users0, g.items, n)
    {
      var a := ids[n];
      ValidKeys(g.users);
      DetectFor(g, a);
      n := n + 1;
    }
  }
}
