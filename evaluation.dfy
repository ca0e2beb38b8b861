/** The evaluation utilities: `check_dataset`, which counts the test users the
    training data never mentions, and `evaluate`, which asks the recommender once per
    test user and measures the share of test interactions it recommends. */
module Evaluation {
  import opened Seqs
  import opened Dicts
  import opened Wrappers
  import opened Dataset

  /** A table `defaultdict(set)` from each user to the set of items of its interactions. */
  type Ratings = Dict<string, set<string>>

  /** The table the loop `ratings[user_id].add(item_id)` builds from `ds`. */
  function RatingsOf(ds: seq<Interaction>): (d: Ratings)
    ensures d.Valid()
  {
    if ds == [] then Empty()
    else
      var d := RatingsOf(ds[..|ds| - 1]);
      var x := ds[|ds| - 1];
      d.Put(x.userId, GetOr(d, x.userId, {}) + {x.itemId})
  }

  /** The ratings table has a key for each user of `ds` and no other, ... */
  lemma {:induction false} RatingsUsers(ds: seq<Interaction>)
    ensures forall u :: u in RatingsOf(ds).vals <==> u in UserIds(ds)
  {
    if ds != [] {
      var p := ds[..|ds| - 1];
      RatingsUsers(p);
      assert UserIds(ds) == UserIds(p) + [ds[|ds| - 1].userId];
    }
  }

  /** ... listed in order of first appearance, ... */
  lemma {:induction false} RatingsOrder(ds: seq<Interaction>)
    ensures RatingsOf(ds).keys == FirstOccurrences(UserIds(ds))
  {
    if ds != [] {
      var p := ds[..|ds| - 1];
      RatingsOrder(p);
      RatingsUsers(p);
      assert UserIds(ds)[..|ds| - 1] == UserIds(p);
      FirstOccurrencesMembers(UserIds(p));
    }
  }

  /** ... and holds for each user exactly the items of its interactions, ... */
  lemma {:induction false} RatingsItems(ds: seq<Interaction>, u: string, i: string)
    requires u in RatingsOf(ds).vals
    ensures i in RatingsOf(ds).vals[u] <==> Interaction(u, i) in ds
  {
    var p := ds[..|ds| - 1];
    var x := ds[|ds| - 1];
    assert ds == p + [x];
    RatingsUsers(p);
    UserIdsOfMembers(p);
    if u in RatingsOf(p).vals {
      RatingsItems(p, u, i);
    }
  }

  /** ... at least one. */
  lemma {:induction false} RatingsNonempty(ds: seq<Interaction>)
    ensures forall u | u in RatingsOf(ds).vals :: RatingsOf(ds).vals[u] != {}
  {
    if ds != [] {
      RatingsNonempty(ds[..|ds| - 1]);
    }
  }

  /** The loop that builds the ratings table of `ds`. */
  method CollectRatings(ds: seq<Interaction>) returns (d: Ratings)
    ensures d == RatingsOf(ds)
  {
    d := Empty();
    var k := 0;
    while k < |ds|
      invariant 0 <= k <= |ds|
      invariant d == RatingsOf(ds[..k])
    {
      var userId, itemId := ds[k].userId, ds[k].itemId;
      assert ds[..k + 1][..k] == ds[..k];
      d := d.Put(userId, GetOr(d, userId, {}) + {itemId});
      k := k + 1;
    }
    assert ds[..k] == ds;
  }

  /** The items of a recommendation list, as `set(...)` makes them. */
  function Recommended(recommend: string -> seq<string>, u: string): (s: set<string>)
    ensures forall c :: c in s <==> c in recommend(u)
  {
    set c | c in recommend(u)
  }

  /** `correctly_recommended` after the first `m` users of `ratings`: how many of each
      user's test items are among the items recommended to it. */
  function Hits(ratings: Ratings, recommend: string -> seq<string>, m: nat): nat
    requires ratings.Valid() && m <= |ratings.keys|
  {
    if m == 0 then 0
    else
      var u := ratings.keys[m - 1];
      Hits(ratings, recommend, m - 1) + |ratings.vals[u] * Recommended(recommend, u)|
  }

  /** `total_recommended` after the first `m` users of `ratings`: the number of test
      items of each. */
  function Total(ratings: Ratings, m: nat): nat
    requires ratings.Valid() && m <= |ratings.keys|
  {
    if m == 0 then 0
    else Total(ratings, m - 1) + |ratings.vals[ratings.keys[m - 1]]|
  }

  /** A user's hits are some of its test items, so there are never more hits than
      test items. */
  lemma {:induction false} HitsAtMostTotal(ratings: Ratings, recommend: string -> seq<string>, m: nat)
    requires ratings.Valid() && m <= |ratings.keys|
    ensures Hits(ratings, recommend, m) <= Total(ratings, m)
  {
    if m > 0 {
      var u := ratings.keys[m - 1];
      HitsAtMostTotal(ratings, recommend, m - 1);
      SubsetSize(ratings.vals[u] * Recommended(recommend, u), ratings.vals[u]);
    }
  }

  /** Every user of a ratings table without empty sets adds at least one test item. */
  lemma {:induction false} TotalAtLeastUsers(ratings: Ratings, m: nat)
    requires ratings.Valid() && m <= |ratings.keys|
    requires forall u | u in ratings.vals :: ratings.vals[u] != {}
    ensures Total(ratings, m) >= m
  {
    if m > 0 {
      TotalAtLeastUsers(ratings, m - 1);
      var s := ratings.vals[ratings.keys[m - 1]];
      var x :| x in s;
      SubsetSize({x}, s);
    }
  }

  /** The denominator of `evaluate` is zero exactly when the test set is empty. */
  lemma TotalZero(ds: seq<Interaction>)
    ensures var ratings := RatingsOf(ds);
            Total(ratings, |ratings.keys|) == 0 <==> ds == []
  {
    var ratings := RatingsOf(ds);
    RatingsNonempty(ds);
    RatingsUsers(ds);
    TotalAtLeastUsers(ratings, |ratings.keys|);
    if ds != [] {
      assert UserIds(ds)[0] in UserIds(ds);
      ValidKeys(ratings);
    }
  }

  /** Why `evaluate` fails: the empty test set leaves its division by zero. */
  datatype EvalError = ZeroDivisionError

  /** `evaluate(recommender, test_dataset)`: the share of the distinct test interactions
      whose item is recommended to its user. `recommend` is asked once for each test
      user, in order of first appearance; `queried` lists those calls. */
  method Evaluate(recommend: string -> seq<string>, testDataset: seq<Interaction>)
    returns (r: Result<real, EvalError>, ghost queried: seq<string>)
    ensures var ratings := RatingsOf(testDataset);
            && queried == ratings.keys
            && (r.Failure? <==> testDataset == [])
            && (r.Success? ==> Total(ratings, |ratings.keys|) != 0
                               && r.value == Hits(ratings, recommend, |ratings.keys|) as real
                                             / Total(ratings, |ratings.keys|) as real)
    ensures r.Success? ==> 0.0 <= r.value <= 1.0
  {
    var usersRatings := CollectRatings(testDataset);
    var correctlyRecommended, totalRecommended;
    correctlyRecommended, totalRecommended, queried := CountHits(usersRatings, recommend);
    EvaluateOutcome(testDataset, recommend);
    if totalRecommended == 0 {
      return Failure(ZeroDivisionError), queried;
    }
    r := Success(Share(correctlyRecommended, totalRecommended));
  }

  /** The loop of `evaluate` over the users of the ratings table: it asks `recommend`
      for each user in turn and adds up the user's recommended test items and all of
      its test items. */
  method CountHits(ratings: Ratings, recommend: string -> seq<string>)
    returns (correct: nat, total: nat, ghost queried: seq<string>)
    requires ratings.Valid()
    ensures correct == Hits(ratings, recommend, |ratings.keys|)
    ensures total == Total(ratings, |ratings.keys|)
    ensures queried == ratings.keys
  {
    correct, total := 0, 0;
    queried := [];
    var n := 0;
    while n < |ratings.keys|
      invariant 0 <= n <= |ratings.keys|
      invariant correct == Hits(ratings, recommend, n)
      invariant total == Total(ratings, n)
      invariant queried == ratings.keys[..n]
    {
      var userId := ratings.keys[n];
      var userRatings := ratings.vals[userId];
      var recommendedItems := Recommended(recommend, userId);
      PrefixNext(ratings.keys, n);
      queried := queried + [userId];
      correct := correct + |userRatings * recommendedItems|;
      total := total + |userRatings|;
      n := n + 1;
    }
    assert ratings.keys[..n] == ratings.keys;
  }

  /** What `evaluate` divides: the denominator is zero exactly for the empty test set,
      and the numerator never exceeds it. */
  lemma EvaluateOutcome(testDataset: seq<Interaction>, recommend: string -> seq<string>)
    ensures var ratings := RatingsOf(testDataset);
            && (Total(ratings, |ratings.keys|) == 0 <==> testDataset == [])
            && Hits(ratings, recommend, |ratings.keys|) <= Total(ratings, |ratings.keys|)
  {
    var ratings := RatingsOf(testDataset);
    TotalZero(testDataset);
    HitsAtMostTotal(ratings, recommend, |ratings.keys|);
  }

  /** `correct / total` with Python's true division: a share between 0 and 1. */
  function Share(correct: nat, total: nat): (r: real)
    requires correct <= total && total != 0
    ensures 0.0 <= r <= 1.0 && r * total as real == correct as real
  {
    correct as real / total as real
  }

  /** The test users that never appear in the training data. */
  function Missing(train: seq<Interaction>, test: seq<Interaction>): set<string>
  {
    set u | u in UserIds(test) && u !in UserIds(train)
  }

  /** The users among `ks` that `trained` does not hold. */
  function Absent(ks: seq<string>, trained: map<string, set<string>>): set<string>
  {
    set u | u in ks && u !in trained
  }

  /** One more user of a list without repetitions adds itself to the absent ones when
      it is absent. */
  lemma AbsentStep(ks: seq<string>, trained: map<string, set<string>>, n: nat)
    requires Distinct(ks) && n < |ks|
    ensures |Absent(ks[..n + 1], trained)|
            == |Absent(ks[..n], trained)| + if ks[n] in trained then 0 else 1
  {
    PrefixSnoc(ks, ks[n], n);
    assert ks[n] !in ks[..n];
    if ks[n] in trained {
      assert Absent(ks[..n + 1], trained) == Absent(ks[..n], trained);
    } else {
      assert Absent(ks[..n + 1], trained) == Absent(ks[..n], trained) + {ks[n]};
    }
  }

  /** `check_dataset(train, test)`: `n_missing`, the number of distinct test users with no
      training interaction; it is at most the number of distinct test users. The source
      only logs this count. */
  method CheckDataset(train: seq<Interaction>, test: seq<Interaction>) returns (nMissing: nat)
    ensures nMissing == |Missing(train, test)|
    ensures nMissing <= |RatingsOf(test).vals|
  {
    var testRatings := CollectRatings(test);
    var trainRatings := CollectRatings(train);
    nMissing := 0;
    var n := 0;
    while n < |testRatings.keys|
      invariant 0 <= n <= |testRatings.keys|
      invariant nMissing == |Absent(testRatings.keys[..n], trainRatings.vals)|
    {
      var userId := testRatings.keys[n];
      AbsentStep(testRatings.keys, trainRatings.vals, n);
      if userId !in trainRatings.vals {
        nMissing := nMissing + 1;
      }
      n := n + 1;
    }
    assert testRatings.keys[..n] == testRatings.keys;
    MissingAbsent(train, test);
  }

  /** The users of the test table that the training table lacks are the missing ones,
      and they are test users. */
  lemma MissingAbsent(train: seq<Interaction>, test: seq<Interaction>)
    ensures Absent(RatingsOf(test).keys, RatingsOf(train).vals) == Missing(train, test)
    ensures |Missing(train, test)| <= |RatingsOf(test).vals|
  {
    RatingsUsers(test);
    RatingsUsers(train);
    ValidKeys(RatingsOf(test));
    SubsetSize(Missing(train, test), RatingsOf(test).vals.Keys);
  }
}
