/** `detect_user_neighbours` of the neighbour recommender: for each user `a`, in the
    order of the users table, the similarity to each of its candidates is computed (which
    pads the candidate's profile with 0.0 entries for the items of `a` it lacks) and the
    50 most similar candidates become the neighbours of `a`. */
module NeighbourDetection {
  import opened Seqs
  import opened Dicts
  import opened TopK
  import opened GraphStore
  import opened UserNeighbours

  /** `y` is the node `x` after `get_similarity` padded its profile with keys of `pa`:
      the norm and the neighbours are unchanged, no entry changed, and every added key,
      holding 0.0, is a key of `pa`. */
  ghost predicate PaddedNode(x: User, y: User, pa: Dict<ItemId, real>)
  {
    && y.norm == x.norm && y.neighbours == x.neighbours
    && y.profile.Valid() && Extends(x.profile, y.profile)
    && forall i | i in y.profile.vals && i !in x.profile.vals :: i in pa.vals
  }

  /** `vs` is the users table `us` with some profiles padded by keys of `pa`. */
  ghost predicate PaddedBy(us: Users, vs: Users, pa: Dict<ItemId, real>)
  {
    && vs.Valid() && vs.keys == us.keys && vs.vals.Keys == us.vals.Keys
    && forall u | u in us.vals :: PaddedNode(us.vals[u], vs.vals[u], pa)
  }

  lemma PaddedNodeTrans(x: User, y: User, z: User, pa: Dict<ItemId, real>)
    requires PaddedNode(x, y, pa) && PaddedNode(y, z, pa)
    ensures PaddedNode(x, z, pa)
  {
    ExtendsTrans(x.profile, y.profile, z.profile);
  }

  lemma PaddedByTrans(us: Users, vs: Users, ws: Users, pa: Dict<ItemId, real>)
    requires PaddedBy(us, vs, pa) && PaddedBy(vs, ws, pa)
    ensures PaddedBy(us, ws, pa)
  {
    forall u | u in us.vals ensures PaddedNode(us.vals[u], ws.vals[u], pa) {
      PaddedNodeTrans(us.vals[u], vs.vals[u], ws.vals[u], pa);
    }
  }

  /** The state of the loop over the candidates of one user: the users table, whose
      profiles the similarity computations pad, and `neighbours_scored`. */
  datatype Pass = Pass(users: Users, scored: Dict<UserId, real>)

  /** What the loop over the candidates of user `a` (profile `pa`, norm `na`) needs: the
      tables are valid, and each candidate other than `a` is a node with a nonzero norm,
      as is `a` itself then. */
  ghost predicate ScoringReady(users: Users, a: UserId, pa: Dict<ItemId, real>, na: real, cands: seq<UserId>)
  {
    && users.Valid() && pa.Valid()
    && (forall u | u in users.vals :: users.vals[u].profile.Valid())
    && forall c | c in cands && c != a :: na != 0.0 && c in users.vals && users.vals[c].norm != 0.0
  }

  /** One turn of the loop over the candidates: skip `a` itself, otherwise compute the
      similarity to `b` (padding the profile of `b`) and record it. */
  function ScoreCandidate(s: Pass, a: UserId, pa: Dict<ItemId, real>, na: real, b: UserId): (r: Pass)
    requires s.users.Valid() && s.scored.Valid() && pa.Valid()
    requires b != a ==> na != 0.0 && b in s.users.vals && s.users.vals[b].norm != 0.0
                        && s.users.vals[b].profile.Valid()
  {
    if b == a then s
    else
      var nb := s.users.vals[b];
      Pass(s.users.Put(b, nb.(profile := Padded(pa, nb.profile, |pa.keys|))),
           s.scored.Put(b, Similarity(pa, na, nb.profile, nb.norm)))
  }

  /** One turn pads at most the profile of `b`, and records exactly the similarity of `b`. */
  lemma ScoreCandidateFacts(s: Pass, a: UserId, pa: Dict<ItemId, real>, na: real, b: UserId)
    requires s.users.Valid() && s.scored.Valid() && pa.Valid()
    requires forall u | u in s.users.vals :: s.users.vals[u].profile.Valid()
    requires b != a ==> na != 0.0 && b in s.users.vals && s.users.vals[b].norm != 0.0
    ensures var r := ScoreCandidate(s, a, pa, na, b);
            && PaddedBy(s.users, r.users, pa) && r.scored.Valid()
            && (forall u | u in s.users.vals && u != b :: r.users.vals[u] == s.users.vals[u])
            && (b == a ==> r == s)
            && (b != a ==> r.scored.vals == s.scored.vals[b := Similarity(pa, na, s.users.vals[b].profile, s.users.vals[b].norm)])
  {
    var r := ScoreCandidate(s, a, pa, na, b);
    forall u | u in s.users.vals ensures PaddedNode(s.users.vals[u], r.users.vals[u], pa) {
      var x := s.users.vals[u];
      if u == b && b != a {
        PaddedExtends(pa, x.profile, |pa.keys|);
        PaddedKeys(pa, x.profile, |pa.keys|);
      } else {
        assert r.users.vals[u] == x;
        assert x.profile.keys[..|x.profile.keys|] == x.profile.keys;
      }
    }
  }

  lemma PaddedByRefl(us: Users, pa: Dict<ItemId, real>)
    requires us.Valid() && forall u | u in us.vals :: us.vals[u].profile.Valid()
    ensures PaddedBy(us, us, pa)
  {
    forall u | u in us.vals ensures PaddedNode(us.vals[u], us.vals[u], pa) {
      var p := us.vals[u].profile;
      assert p.keys[..|p.keys|] == p.keys;
    }
  }

  /** Reading a node of a padded table. */
  lemma PaddedByNode(us: Users, vs: Users, pa: Dict<ItemId, real>, u: UserId)
    requires PaddedBy(us, vs, pa) && u in us.vals
    ensures u in vs.vals && PaddedNode(us.vals[u], vs.vals[u], pa)
  {
  }

  /** A padded table keeps valid profiles. */
  lemma PaddedByValid(us: Users, vs: Users, pa: Dict<ItemId, real>)
    requires PaddedBy(us, vs, pa)
    ensures forall u | u in vs.vals :: vs.vals[u].profile.Valid()
  {
    forall u | u in vs.vals ensures vs.vals[u].profile.Valid() {
      assert u in us.vals.Keys;
      PaddedByNode(us, vs, pa, u);
    }
  }

  /** Padding keeps every later turn of the loop possible. */
  lemma StepReady(users: Users, s: Pass, a: UserId, pa: Dict<ItemId, real>, na: real,
                  cands: seq<UserId>, b: UserId)
    requires ScoringReady(users, a, pa, na, cands) && PaddedBy(users, s.users, pa) && b in cands
    ensures forall u | u in s.users.vals :: s.users.vals[u].profile.Valid()
    ensures b != a ==> na != 0.0 && b in s.users.vals && s.users.vals[b].norm != 0.0
  {
    PaddedByValid(users, s.users, pa);
    if b != a {
      PaddedByNode(users, s.users, pa, b);
    }
  }

  /** The state after the first `m` turns of the loop over the candidates `cands` of
      user `a`, from the users table `users`. */
  function ScoreCandidates(users: Users, a: UserId, pa: Dict<ItemId, real>, na: real,
                           cands: seq<UserId>, m: nat): (r: Pass)
    requires ScoringReady(users, a, pa, na, cands) && m <= |cands|
    ensures PaddedBy(users, r.users, pa) && r.scored.Valid()
  {
    if m == 0 then
      PaddedByRefl(users, pa);
      Pass(users, Empty())
    else
      var s := ScoreCandidates(users, a, pa, na, cands, m - 1);
      var b := cands[m - 1];
      StepReady(users, s, a, pa, na, cands, b);
      ScoreCandidateFacts(s, a, pa, na, b);
      PaddedByTrans(users, s.users, ScoreCandidate(s, a, pa, na, b).users, pa);
      ScoreCandidate(s, a, pa, na, b)
  }

  /** `v` is the similarity of the profile `pa` (norm `na`) to the profile of `b` in `users`. */
  ghost predicate IsSimilarity(users: Users, pa: Dict<ItemId, real>, na: real, b: UserId, v: real)
  {
    && b in users.vals && pa.Valid() && na != 0.0 && users.vals[b].norm != 0.0
    && v == Similarity(pa, na, users.vals[b].profile, users.vals[b].norm)
  }

  /** A user has one similarity to a profile. */
  lemma IsSimilarityUnique(users: Users, pa: Dict<ItemId, real>, na: real, b: UserId, v: real, w: real)
    requires IsSimilarity(users, pa, na, b, v) && IsSimilarity(users, pa, na, b, w)
    ensures v == w
  {
  }

  /** What the first `m` turns, leaving the state `r`, did for user `b`: `b` is scored
      exactly when it is among those candidates and is not `a`, its score is its
      similarity to `a` computed on its profile before the loop, and its node is
      untouched when it was not scored. */
  ghost predicate ScoredIn(users: Users, a: UserId, pa: Dict<ItemId, real>, na: real,
                           cands: seq<UserId>, b: UserId, m: nat, r: Pass)
    requires m <= |cands|
  {
    && (b in r.scored.vals <==> b in cands[..m] && b != a)
    && (b in r.scored.vals ==> IsSimilarity(users, pa, na, b, r.scored.vals[b]))
    && (b in users.vals && b !in r.scored.vals ==> b in r.users.vals && r.users.vals[b] == users.vals[b])
  }

  /** The fold takes one more turn. */
  lemma ScoreCandidatesStep(users: Users, a: UserId, pa: Dict<ItemId, real>, na: real,
                            cands: seq<UserId>, k: nat)
    requires ScoringReady(users, a, pa, na, cands) && k < |cands|
    ensures var s := ScoreCandidates(users, a, pa, na, cands, k);
            && PaddedBy(users, s.users, pa) && s.scored.Valid()
            && (forall u | u in s.users.vals :: s.users.vals[u].profile.Valid())
            && (cands[k] != a ==> na != 0.0 && cands[k] in s.users.vals && s.users.vals[cands[k]].norm != 0.0)
    ensures ScoreCandidates(users, a, pa, na, cands, k + 1)
         == ScoreCandidate(ScoreCandidates(users, a, pa, na, cands, k), a, pa, na, cands[k])
  {
    StepReady(users, ScoreCandidates(users, a, pa, na, cands, k), a, pa, na, cands, cands[k]);
  }

  lemma ScoredInStep(users: Users, a: UserId, pa: Dict<ItemId, real>, na: real,
                     cands: seq<UserId>, b: UserId, k: nat, s: Pass)
    requires k < |cands| && s.users.Valid() && s.scored.Valid() && pa.Valid()
    requires cands[k] != a ==> na != 0.0 && cands[k] in s.users.vals && s.users.vals[cands[k]].norm != 0.0
                               && s.users.vals[cands[k]].profile.Valid()
    requires b == cands[k] && b != a ==> b in users.vals && PaddedNode(users.vals[b], s.users.vals[b], pa)
    requires ScoredIn(users, a, pa, na, cands, b, k, s)
    ensures ScoredIn(users, a, pa, na, cands, b, k + 1, ScoreCandidate(s, a, pa, na, cands[k]))
  {
    var c := cands[k];
    PrefixSnoc(cands, b, k);
    if c != a {
      var nc := s.users.vals[c];
      var r := ScoreCandidate(s, a, pa, na, c);
      assert r.users == s.users.Put(c, nc.(profile := Padded(pa, nc.profile, |pa.keys|)));
      assert r.scored == s.scored.Put(c, Similarity(pa, na, nc.profile, nc.norm));
      if c == b {
        DotExtends(pa, users.vals[b].profile, nc.profile, |pa.keys|);
      }
    }
  }

  /** What the whole fold does for user `b`. */
  lemma {:induction false} ScoredAll(users: Users, a: UserId, pa: Dict<ItemId, real>, na: real,
                                     cands: seq<UserId>, b: UserId, m: nat)
    requires ScoringReady(users, a, pa, na, cands) && m <= |cands|
    ensures ScoredIn(users, a, pa, na, cands, b, m, ScoreCandidates(users, a, pa, na, cands, m))
  {
    if m > 0 {
      var k: nat := m - 1;
      ScoredAll(users, a, pa, na, cands, b, k);
      ScoreCandidatesStep(users, a, pa, na, cands, k);
      if b in users.vals {
        PaddedByNode(users, ScoreCandidates(users, a, pa, na, cands, k).users, pa, b);
      }
      ScoredInStep(users, a, pa, na, cands, b, k, ScoreCandidates(users, a, pa, na, cands, k));
      assert k + 1 == m;
    }
  }

  /** The candidates of user `a` can be scored. */
  lemma DetectReady(users: Users, items: Items, a: UserId)
    requires Invariant(users, items) && NormsSet(users) && a in users.vals
    ensures CandidatesReady(users, items, users.vals[a].profile)
    ensures ScoringReady(users, a, users.vals[a].profile, users.vals[a].norm,
                         Candidates(users, items, users.vals[a].profile))
  {
    var pa := users.vals[a].profile;
    CandidatesReadyFor(users, items, a);
    if pa.keys == [] {
      assert CandidateContribs(users, items, pa, 0) == [];
      assert Candidates(users, items, pa) == [];
    } else {
      assert pa.keys[0] in pa.vals;
    }
  }

  /** The `neighbours` list `[{'neighbour_id': b, 'similarity': scored[b]} for b in ids]`. */
  function Entries(ids: seq<UserId>, scored: Dict<UserId, real>): (r: seq<Neighbour>)
    requires forall b | b in ids :: b in scored.vals
    ensures |r| == |ids|
    ensures forall j | 0 <= j < |ids| :: r[j].id == ids[j] && r[j].similarity == scored.vals[ids[j]]
  {
    seq(|ids|, j requires 0 <= j < |ids| => Neighbour(ids[j], scored.vals[ids[j]]))
  }

  /** The loop over the candidates of user `a`, before its neighbours are stored. */
  function ScorePass(users: Users, items: Items, a: UserId): (s: Pass)
    requires Invariant(users, items) && NormsSet(users) && a in users.vals
    ensures PaddedBy(users, s.users, users.vals[a].profile) && s.scored.Valid()
  {
    var pa := users.vals[a].profile;
    DetectReady(users, items, a);
    var cands := Candidates(users, items, pa);
    ScoreCandidates(users, a, pa, users.vals[a].norm, cands, |cands|)
  }

  /** One turn of the outer loop of `detect_user_neighbours`, for user `a`: score its
      candidates, then store the 50 best as its neighbours, best first. */
  function DetectOne(users: Users, items: Items, a: UserId): (r: Users)
    requires Invariant(users, items) && NormsSet(users) && a in users.vals
  {
    var s := ScorePass(users, items, a);
    PaddedByNode(users, s.users, users.vals[a].profile, a);
    s.users.Put(a, s.users.vals[a].(neighbours := NewNeighbours(users, items, a)))
  }

  /** The neighbours stored from the scores `scored`: the 50 best-scored users, best
      first, each with its score. */
  function BestNeighbours(scored: Dict<UserId, real>): (ns: seq<Neighbour>)
    requires scored.Valid()
    ensures |ns| <= 50
  {
    Entries(TopKeys(scored, 50), scored)
  }

  /** The neighbours one turn stores for `a`. */
  function NewNeighbours(users: Users, items: Items, a: UserId): seq<Neighbour>
    requires Invariant(users, items) && NormsSet(users) && a in users.vals
  {
    BestNeighbours(ScorePass(users, items, a).scored)
  }

  /** What one turn of the outer loop, for a user whose profile is `pa`, does to the node
      `x` of some user, making it `y`: the norm is kept; the profile is only padded, with
      0.0 entries for items of `pa`, and only when the norm is nonzero; the neighbours are
      kept unless the node is that of the user whose turn it is (`own`). */
  ghost predicate NodeAfter(x: User, y: User, pa: Dict<ItemId, real>, own: bool)
  {
    && y.norm == x.norm && y.profile.Valid() && Extends(x.profile, y.profile)
    && (forall i | i in y.profile.vals && i !in x.profile.vals :: i in pa.vals && x.norm != 0.0)
    && (!own ==> y.neighbours == x.neighbours)
  }

  /** The users table keeps its users, in the same order. */
  lemma DetectOneKeys(users: Users, items: Items, a: UserId)
    requires Invariant(users, items) && NormsSet(users) && a in users.vals
    ensures var r := DetectOne(users, items, a);
            r.Valid() && r.keys == users.keys && r.vals.Keys == users.vals.Keys
  {
  }

  /** The loop over the candidates changes each node as `NodeAfter` allows. */
  lemma ScorePassNode(users: Users, items: Items, a: UserId, u: UserId)
    requires Invariant(users, items) && NormsSet(users) && a in users.vals && u in users.vals
    ensures var s := ScorePass(users, items, a);
            u in s.users.vals && NodeAfter(users.vals[u], s.users.vals[u], users.vals[a].profile, false)
  {
    var pa, na := users.vals[a].profile, users.vals[a].norm;
    DetectReady(users, items, a);
    var cands := Candidates(users, items, pa);
    var s := ScorePass(users, items, a);
    PaddedByNode(users, s.users, pa, u);
    ScoredAll(users, a, pa, na, cands, u, |cands|);
  }

  /** Storing the neighbours of `a` changes its node as `NodeAfter` allows. */
  lemma StoreNeighboursNode(us: Users, vs: Users, pa: Dict<ItemId, real>, a: UserId, u: UserId,
                            ns: seq<Neighbour>)
    requires vs.Valid() && a in vs.vals && u in us.vals && u in vs.vals
    requires NodeAfter(us.vals[u], vs.vals[u], pa, false)
    ensures var r := vs.Put(a, vs.vals[a].(neighbours := ns));
            u in r.vals && NodeAfter(us.vals[u], r.vals[u], pa, u == a)
  {
  }

  /** Each node changes as `NodeAfter` allows. */
  lemma DetectOneNode(users: Users, items: Items, a: UserId, u: UserId)
    requires Invariant(users, items) && NormsSet(users) && a in users.vals && u in users.vals
    ensures var r := DetectOne(users, items, a);
            u in r.vals && NodeAfter(users.vals[u], r.vals[u], users.vals[a].profile, u == a)
  {
    var s := ScorePass(users, items, a);
    ScorePassNode(users, items, a, u);
    ScorePassNode(users, items, a, a);
    StoreNeighboursNode(users, s.users, users.vals[a].profile, a, u, NewNeighbours(users, items, a));
  }

  /** `r` is the users table `users` after a turn of the outer loop for user `a`
      (profile `pa`): the same users in the same order, each node changed only as
      `NodeAfter` allows. */
  ghost predicate TurnAfter(users: Users, r: Users, pa: Dict<ItemId, real>, a: UserId)
  {
    && r.Valid() && r.keys == users.keys && r.vals.Keys == users.vals.Keys
    && forall u | u in users.vals :: NodeAfter(users.vals[u], r.vals[u], pa, u == a)
  }

  /** An entry of the node before the turn is still there, with the same weight. */
  lemma NodeAfterKeeps(x: User, y: User, pa: Dict<ItemId, real>, own: bool, i: ItemId)
    requires NodeAfter(x, y, pa, own) && i in x.profile.vals
    ensures i in y.profile.vals && y.profile.vals[i] == x.profile.vals[i]
  {
  }

  lemma TurnKeepsNodesValid(users: Users, items: Items, r: Users, pa: Dict<ItemId, real>, a: UserId)
    requires NodesValid(users, items) && TurnAfter(users, r, pa, a)
    ensures NodesValid(r, items)
  {
    forall u | u in r.vals ensures r.vals[u].profile.Valid() {
      assert u in users.vals;
    }
  }

  /** Padding adds only keys of the profile of a user, which name items. */
  lemma TurnKeepsItemsKnown(users: Users, items: Items, r: Users, a: UserId)
    requires ItemsKnown(users, items) && a in users.vals && TurnAfter(users, r, users.vals[a].profile, a)
    ensures ItemsKnown(r, items)
  {
    forall u, i | u in r.vals && i in r.vals[u].profile.vals ensures i in items.vals {
      assert u in users.vals;
      if i !in users.vals[u].profile.vals {
        assert i in users.vals[a].profile.vals;
      }
    }
  }

  /** Every entry of every profile of `users` is in `r` with the same weight. */
  ghost predicate EntriesKept(users: Users, r: Users)
  {
    forall u, i | u in users.vals && i in users.vals[u].profile.vals ::
      u in r.vals && i in r.vals[u].profile.vals && r.vals[u].profile.vals[i] == users.vals[u].profile.vals[i]
  }

  /** A turn changes no existing entry. */
  lemma TurnKeepsEntries(users: Users, r: Users, pa: Dict<ItemId, real>, a: UserId)
    requires TurnAfter(users, r, pa, a)
    ensures EntriesKept(users, r)
  {
    forall u, i | u in users.vals && i in users.vals[u].profile.vals
      ensures u in r.vals && i in r.vals[u].profile.vals && r.vals[u].profile.vals[i] == users.vals[u].profile.vals[i]
    {
      NodeAfterKeeps(users.vals[u], r.vals[u], pa, u == a, i);
    }
  }

  /** Padding changes no existing entry, so item edges stay mirrored. */
  lemma TurnKeepsItemEdgesMirrored(users: Users, items: Items, r: Users)
    requires ItemEdgesMirrored(users, items) && EntriesKept(users, r)
    ensures ItemEdgesMirrored(r, items)
  {
    forall i, u | i in items.vals && u in items.vals[i].profile.vals
      ensures u in r.vals && i in r.vals[u].profile.vals
              && r.vals[u].profile.vals[i] == items.vals[i].profile.vals[u]
    {
      assert u in users.vals && i in users.vals[u].profile.vals;
    }
  }

  /** The entries padding adds hold 0.0, and they have no mirror. */
  lemma TurnKeepsUnmirroredZero(users: Users, items: Items, r: Users, pa: Dict<ItemId, real>, a: UserId)
    requires UnmirroredZero(users, items) && TurnAfter(users, r, pa, a)
    ensures UnmirroredZero(r, items)
  {
    forall u, i | u in r.vals && i in r.vals[u].profile.vals && i in items.vals
                  && u !in items.vals[i].profile.vals
      ensures r.vals[u].profile.vals[i] == 0.0
    {
      assert u in users.vals;
    }
  }

  /** Only the node whose turn it is gets new neighbours; if they name users, every
      neighbours entry still does. */
  lemma TurnKeepsNeighboursKnown(users: Users, r: Users, pa: Dict<ItemId, real>, a: UserId)
    requires NeighboursKnown(users) && TurnAfter(users, r, pa, a)
    requires a in r.vals && forall k | 0 <= k < |r.vals[a].neighbours| :: r.vals[a].neighbours[k].id in users.vals
    ensures NeighboursKnown(r)
  {
    forall u, k | u in r.vals && 0 <= k < |r.vals[u].neighbours| ensures r.vals[u].neighbours[k].id in r.vals {
      assert u in users.vals;
    }
  }

  /** Padding happens only to profiles whose norm is nonzero. */
  lemma TurnKeepsNormsSet(users: Users, r: Users, pa: Dict<ItemId, real>, a: UserId)
    requires NormsSet(users) && TurnAfter(users, r, pa, a)
    ensures NormsSet(r)
  {
    forall u, i | u in r.vals && i in r.vals[u].profile.vals ensures r.vals[u].norm != 0.0 {
      assert u in users.vals;
    }
  }

  /** The candidates of user `a`: `get_neighbours_candidates` on its profile. */
  function CandidatesOf(users: Users, items: Items, a: UserId): (cs: seq<UserId>)
    requires Invariant(users, items) && NormsSet(users) && a in users.vals
    ensures |cs| <= 1000 && Distinct(cs)
  {
    DetectReady(users, items, a);
    Candidates(users, items, users.vals[a].profile)
  }

  /** What the whole loop over the candidates records for `b`. */
  lemma ScoreCandidatesScored(users: Users, a: UserId, pa: Dict<ItemId, real>, na: real,
                              cands: seq<UserId>, b: UserId)
    requires ScoringReady(users, a, pa, na, cands)
    ensures var s := ScoreCandidates(users, a, pa, na, cands, |cands|);
            && (b in s.scored.vals <==> b in cands && b != a)
            && (b in s.scored.vals ==> IsSimilarity(users, pa, na, b, s.scored.vals[b]))
  {
    ScoredAll(users, a, pa, na, cands, b, |cands|);
    assert cands[..|cands|] == cands;
  }

  /** What the loop over the candidates of `a` records: exactly the candidates other
      than `a`, each with its similarity to `a`. */
  lemma ScorePassScored(users: Users, items: Items, a: UserId, b: UserId)
    requires Invariant(users, items) && NormsSet(users) && a in users.vals
    ensures var pa, na := users.vals[a].profile, users.vals[a].norm;
            var s := ScorePass(users, items, a);
            && (b in s.scored.vals <==> b in CandidatesOf(users, items, a) && b != a)
            && (b in s.scored.vals ==> IsSimilarity(users, pa, na, b, s.scored.vals[b]))
  {
    DetectReady(users, items, a);
    ScoreCandidatesScored(users, a, users.vals[a].profile, users.vals[a].norm,
                          CandidatesOf(users, items, a), b);
  }

  /** The ids of a neighbours list. */
  function Ids(ns: seq<Neighbour>): (r: seq<UserId>)
    ensures |r| == |ns| && forall j | 0 <= j < |ns| :: r[j] == ns[j].id
  {
    seq(|ns|, j requires 0 <= j < |ns| => ns[j].id)
  }

  /** The stored neighbours are distinct scored users, each with its score, best first. */
  lemma BestNeighboursScored(scored: Dict<UserId, real>)
    requires scored.Valid()
    ensures var ns := BestNeighbours(scored);
            && Distinct(Ids(ns))
            && (forall j | 0 <= j < |ns| :: ns[j].id in scored.vals && ns[j].similarity == scored.vals[ns[j].id])
            && (forall j, k | 0 <= j < k < |ns| :: ns[j].similarity >= ns[k].similarity)
  {
    assert Ids(BestNeighbours(scored)) == TopKeys(scored, 50);
  }

  /** No scored user left out has a higher score than a stored one, and when fewer than 50
      are stored, every scored user is stored. */
  lemma BestNeighboursBest(scored: Dict<UserId, real>)
    requires scored.Valid()
    ensures var ns := BestNeighbours(scored);
            && (forall c, j | c in scored.vals && c !in Ids(ns) && 0 <= j < |ns| :: ns[j].similarity >= scored.vals[c])
            && (|ns| < 50 ==> forall c | c in scored.vals :: c in Ids(ns))
  {
    assert Ids(BestNeighbours(scored)) == TopKeys(scored, 50);
    if |BestNeighbours(scored)| < 50 {
      TopKeysAll(scored, 50);
    }
  }

  /** A scored user left out scores no higher than the `j`-th stored one. */
  lemma BestNeighboursAbove(scored: Dict<UserId, real>, c: UserId, j: nat)
    requires scored.Valid() && c in scored.vals && c !in Ids(BestNeighbours(scored))
    requires j < |BestNeighbours(scored)|
    ensures BestNeighbours(scored)[j].similarity >= scored.vals[c]
  {
    BestNeighboursBest(scored);
  }

  /** `scored` holds exactly the users of `cands` other than `a`, each with its
      similarity to the profile `pa` (norm `na`). */
  ghost predicate ScoredExactly(users: Users, a: UserId, pa: Dict<ItemId, real>, na: real,
                                cands: seq<UserId>, scored: Dict<UserId, real>)
  {
    && (forall b | b in scored.vals :: b in cands && b != a && IsSimilarity(users, pa, na, b, scored.vals[b]))
    && (forall b | b in cands && b != a :: b in scored.vals)
  }

  /** The loop over the candidates of `a` scores them exactly. */
  lemma ScorePassExactly(users: Users, items: Items, a: UserId)
    requires Invariant(users, items) && NormsSet(users) && a in users.vals
    ensures ScoredExactly(users, a, users.vals[a].profile, users.vals[a].norm, CandidatesOf(users, items, a),
                          ScorePass(users, items, a).scored)
  {
    var s := ScorePass(users, items, a);
    forall b | b in s.scored.vals
      ensures b in CandidatesOf(users, items, a) && b != a
              && IsSimilarity(users, users.vals[a].profile, users.vals[a].norm, b, s.scored.vals[b])
    {
      ScorePassScored(users, items, a, b);
    }
    forall b | b in CandidatesOf(users, items, a) && b != a ensures b in s.scored.vals {
      ScorePassScored(users, items, a, b);
    }
  }

  /** Storing the best of exactly scored candidates: no candidate left out is more
      similar than a stored neighbour, and fewer than 50 are stored only when all are. */
  lemma BestOfExactly(users: Users, a: UserId, pa: Dict<ItemId, real>, na: real,
                      cands: seq<UserId>, scored: Dict<UserId, real>)
    requires scored.Valid() && ScoredExactly(users, a, pa, na, cands, scored)
    ensures var ns := BestNeighbours(scored);
            && (forall c, v, j | c in cands && c != a && c !in Ids(ns)
                                 && IsSimilarity(users, pa, na, c, v) && 0 <= j < |ns| ::
                  ns[j].similarity >= v)
            && (|ns| < 50 ==> forall c | c in cands && c != a :: c in Ids(ns))
  {
    var ns := BestNeighbours(scored);
    forall c, v, j | c in cands && c != a && c !in Ids(ns) && IsSimilarity(users, pa, na, c, v) && 0 <= j < |ns|
      ensures ns[j].similarity >= v
    {
      IsSimilarityUnique(users, pa, na, c, v, scored.vals[c]);
      BestNeighboursAbove(scored, c, j);
    }
    BestNeighboursBest(scored);
  }

  /** The stored neighbours of `a` are distinct candidates of `a` other than `a`, each
      with its similarity to `a`, most similar first. */
  lemma NewNeighboursScored(users: Users, items: Items, a: UserId)
    requires Invariant(users, items) && NormsSet(users) && a in users.vals
    ensures var pa, na := users.vals[a].profile, users.vals[a].norm;
            var ns := NewNeighbours(users, items, a);
            && |ns| <= 50 && Distinct(Ids(ns))
            && (forall j | 0 <= j < |ns| :: ns[j].id != a && ns[j].id in CandidatesOf(users, items, a)
                                           && IsSimilarity(users, pa, na, ns[j].id, ns[j].similarity))
            && (forall j, k | 0 <= j < k < |ns| :: ns[j].similarity >= ns[k].similarity)
  {
    var s := ScorePass(users, items, a);
    var ns := NewNeighbours(users, items, a);
    BestNeighboursScored(s.scored);
    forall j | 0 <= j < |ns|
      ensures ns[j].id != a && ns[j].id in CandidatesOf(users, items, a)
              && IsSimilarity(users, users.vals[a].profile, users.vals[a].norm, ns[j].id, ns[j].similarity)
    {
      ScorePassScored(users, items, a, ns[j].id);
    }
  }

  /** No candidate of `a` left out is more similar to `a` than a stored neighbour. */
  lemma NewNeighboursBest(users: Users, items: Items, a: UserId)
    requires Invariant(users, items) && NormsSet(users) && a in users.vals
    ensures var pa, na := users.vals[a].profile, users.vals[a].norm;
            var ns := NewNeighbours(users, items, a);
            forall c, v, j | c in CandidatesOf(users, items, a) && c != a && c !in Ids(ns)
                             && IsSimilarity(users, pa, na, c, v) && 0 <= j < |ns| ::
              ns[j].similarity >= v
  {
    ScorePassExactly(users, items, a);
    BestOfExactly(users, a, users.vals[a].profile, users.vals[a].norm, CandidatesOf(users, items, a),
                  ScorePass(users, items, a).scored);
  }

  /** Fewer than 50 neighbours are stored only when every candidate other than `a` is. */
  lemma NewNeighboursAll(users: Users, items: Items, a: UserId)
    requires Invariant(users, items) && NormsSet(users) && a in users.vals
    ensures var ns := NewNeighbours(users, items, a);
            |ns| < 50 ==> forall c | c in CandidatesOf(users, items, a) && c != a :: c in Ids(ns)
  {
    ScorePassExactly(users, items, a);
    BestOfExactly(users, a, users.vals[a].profile, users.vals[a].norm, CandidatesOf(users, items, a),
                  ScorePass(users, items, a).scored);
  }

  /** One turn changes the users table as `TurnAfter` allows. */
  lemma DetectOneTurn(users: Users, items: Items, a: UserId)
    requires Invariant(users, items) && NormsSet(users) && a in users.vals
    ensures TurnAfter(users, DetectOne(users, items, a), users.vals[a].profile, a)
  {
    DetectOneKeys(users, items, a);
    forall u | u in users.vals
      ensures NodeAfter(users.vals[u], DetectOne(users, items, a).vals[u], users.vals[a].profile, u == a)
    {
      DetectOneNode(users, items, a, u);
    }
  }

  /** The neighbours stored for `a` name users. */
  lemma DetectOneNeighboursKnown(users: Users, items: Items, a: UserId)
    requires Invariant(users, items) && NormsSet(users) && a in users.vals
    ensures var r := DetectOne(users, items, a);
            a in r.vals && r.vals[a].neighbours == NewNeighbours(users, items, a)
            && forall k | 0 <= k < |r.vals[a].neighbours| :: r.vals[a].neighbours[k].id in users.vals
  {
    DetectOneKeys(users, items, a);
    NewNeighboursScored(users, items, a);
  }

  /** One turn of the outer loop keeps the graph invariant, and keeps every nonempty
      profile's norm nonzero. */
  lemma DetectOneKeeps(users: Users, items: Items, a: UserId)
    requires Invariant(users, items) && NormsSet(users) && a in users.vals
    ensures Invariant(DetectOne(users, items, a), items) && NormsSet(DetectOne(users, items, a))
  {
    var r := DetectOne(users, items, a);
    var pa := users.vals[a].profile;
    DetectOneTurn(users, items, a);
    DetectOneNeighboursKnown(users, items, a);
    TurnKeepsNodesValid(users, items, r, pa, a);
    TurnKeepsItemsKnown(users, items, r, a);
    TurnKeepsEntries(users, r, pa, a);
    TurnKeepsItemEdgesMirrored(users, items, r);
    TurnKeepsUnmirroredZero(users, items, r, pa, a);
    TurnKeepsNeighboursKnown(users, r, pa, a);
    TurnKeepsNormsSet(users, r, pa, a);
  }

  /** A neighbour list as a turn of the outer loop leaves it for user `a`: at most 50
      entries, distinct, other than `a`, naming users of `known`, most similar first. */
  ghost predicate Formed(ns: seq<Neighbour>, a: UserId, known: set<UserId>)
  {
    && |ns| <= 50 && Distinct(Ids(ns))
    && (forall j | 0 <= j < |ns| :: ns[j].id != a && ns[j].id in known)
    && (forall j, k | 0 <= j < k < |ns| :: ns[j].similarity >= ns[k].similarity)
  }

  /** The neighbours of `a` in `users` are formed. */
  ghost predicate NeighboursFormed(users: Users, a: UserId)
  {
    a in users.vals && Formed(users.vals[a].neighbours, a, users.vals.Keys)
  }

  /** The neighbours a turn chooses for `a` are formed. */
  lemma NewNeighboursFormed(users: Users, items: Items, a: UserId)
    requires Invariant(users, items) && NormsSet(users) && a in users.vals
    ensures Formed(NewNeighbours(users, items, a), a, users.vals.Keys)
  {
    DetectOneKeys(users, items, a);
    DetectOneNeighboursKnown(users, items, a);
    NewNeighboursScored(users, items, a);
  }

  /** A turn for `b` forms the neighbours of `b` and keeps those of every other user. */
  lemma TurnFormed(users: Users, items: Items, b: UserId, a: UserId)
    requires Invariant(users, items) && NormsSet(users) && b in users.vals
    requires a == b || NeighboursFormed(users, a)
    ensures NeighboursFormed(DetectOne(users, items, b), a)
  {
    DetectOneKeys(users, items, b);
    if a == b {
      DetectOneNeighboursKnown(users, items, b);
      NewNeighboursFormed(users, items, b);
    } else {
      DetectOneNode(users, items, b, a);
    }
  }

  /** A turn forms the neighbours of `b` and keeps those of the users `done` before. */
  lemma DetectTurn(users: Users, items: Items, done: seq<UserId>, b: UserId)
    requires Invariant(users, items) && NormsSet(users) && b in users.vals
    requires forall a | a in done :: NeighboursFormed(users, a)
    ensures forall a | a in done + [b] :: NeighboursFormed(DetectOne(users, items, b), a)
  {
    forall a | a in done + [b] ensures NeighboursFormed(DetectOne(users, items, b), a) {
      TurnFormed(users, items, b, a);
    }
  }
}
