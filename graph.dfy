/** The bipartite user–item graph shared by the three recommenders: every
    `Recommender` class keeps `users` and `items` tables, and its `put_interaction`
    adds one weighted edge to both mirrored profiles. */
module GraphStore {
  import opened Seqs
  import opened Dicts

  type UserId = string
  type ItemId = string

  /** One entry of a user's `neighbours` list: `{'neighbour_id': id, 'similarity': s}`. */
  datatype Neighbour = Neighbour(id: UserId, similarity: real)

  /** A user node: its profile `{item_id => weight}`, its stored norm and its
      neighbours list (empty until neighbour detection runs). The node's own identifier
      is the key under which the graph stores it. */
  datatype User = User(profile: Dict<ItemId, real>, norm: real, neighbours: seq<Neighbour>)

  /** An item node: its profile `{user_id => weight}` and its stored norm. */
  datatype Item = Item(profile: Dict<UserId, real>, norm: real)

  type Users = Dict<UserId, User>
  type Items = Dict<ItemId, Item>

  /** A node as its constructor makes it: empty profile, norm 0.0, no neighbours. */
  function NewUser(): User
  {
    User(Empty(), 0.0, [])
  }

  function NewItem(): Item
  {
    Item(Empty(), 0.0)
  }

  /** Python's `max(a, b)`. */
  function Max(a: real, b: real): real
  {
    if b > a then b else a
  }

  /** The profile of user `u`, empty for an unknown user. */
  function Profile(users: Users, u: UserId): Dict<ItemId, real>
  {
    if u in users.vals then users.vals[u].profile else Empty()
  }

  function ItemProfile(items: Items, i: ItemId): Dict<UserId, real>
  {
    if i in items.vals then items.vals[i].profile else Empty()
  }

  /** Get-or-zero reading of the edge (u, i) on the user side ... */
  function Weight(users: Users, u: UserId, i: ItemId): real
  {
    GetOr(Profile(users, u), i, 0.0)
  }

  /** ... and on the item side. */
  function ItemWeight(items: Items, i: ItemId, u: UserId): real
  {
    GetOr(ItemProfile(items, i), u, 0.0)
  }

  /** The stored norm of user `n`, 0.0 (a fresh node's value) for an unknown user. */
  function Norm(users: Users, n: UserId): real
  {
    if n in users.vals then users.vals[n].norm else 0.0
  }

  ghost predicate NodesValid(users: Users, items: Items)
  {
    && users.Valid() && items.Valid()
    && (forall u | u in users.vals :: users.vals[u].profile.Valid())
    && (forall i | i in items.vals :: items.vals[i].profile.Valid())
  }

  /** Every key of a user profile names an item node. */
  ghost predicate ItemsKnown(users: Users, items: Items)
  {
    forall u, i | u in users.vals && i in users.vals[u].profile.vals :: i in items.vals
  }

  /** Every edge of an item profile is present in the user profile with the same weight. */
  ghost predicate ItemEdgesMirrored(users: Users, items: Items)
  {
    forall i, u | i in items.vals && u in items.vals[i].profile.vals ::
      && u in users.vals
      && i in users.vals[u].profile.vals
      && users.vals[u].profile.vals[i] == items.vals[i].profile.vals[u]
  }

  /** A user-profile entry without an item-side mirror holds 0.0 (only a similarity
      computation of the neighbour recommender writes such entries). */
  ghost predicate UnmirroredZero(users: Users, items: Items)
  {
    forall u, i | u in users.vals && i in users.vals[u].profile.vals && i in items.vals
                  && u !in items.vals[i].profile.vals ::
      users.vals[u].profile.vals[i] == 0.0
  }

  /** Every neighbours entry names a user node. */
  ghost predicate NeighboursKnown(users: Users)
  {
    forall u, k | u in users.vals && 0 <= k < |users.vals[u].neighbours| ::
      users.vals[u].neighbours[k].id in users.vals
  }

  /** The graph invariant. */
  ghost predicate Invariant(users: Users, items: Items)
  {
    && NodesValid(users, items)
    && ItemsKnown(users, items)
    && ItemEdgesMirrored(users, items)
    && UnmirroredZero(users, items)
    && NeighboursKnown(users)
  }

  /** Both profiles hold exactly the same edges (true of every graph built only by
      interactions). */
  ghost predicate Mirrored(users: Users, items: Items)
  {
    forall u, i | u in users.vals && i in users.vals[u].profile.vals ::
      i in items.vals && u in items.vals[i].profile.vals
  }

  /** `users` after `put_interaction(u, i, w)`: the node of `u` (created if absent) gets
      `profile[i] = max(w, profile[i])`, a missing entry reading as 0.0. */
  function MergeUser(users: Users, u: UserId, i: ItemId, w: real): (r: Users)
    requires users.Valid() && (u in users.vals ==> users.vals[u].profile.Valid())
    ensures r.Valid()
  {
    var node := if u in users.vals then users.vals[u] else NewUser();
    users.Put(u, node.(profile := node.profile.Put(i, Max(w, GetOr(node.profile, i, 0.0)))))
  }

  /** `items` after `put_interaction(u, i, w)`, the mirror image of `MergeUser`. */
  function MergeItem(items: Items, i: ItemId, u: UserId, w: real): (r: Items)
    requires items.Valid() && (i in items.vals ==> items.vals[i].profile.Valid())
    ensures r.Valid()
  {
    var node := if i in items.vals then items.vals[i] else NewItem();
    items.Put(i, node.(profile := node.profile.Put(u, Max(w, GetOr(node.profile, u, 0.0)))))
  }

  /** After an interaction both nodes exist. An existing node is reused: it keeps its
      place, its norm and its neighbours; a new node is appended with norm 0.0 and no
      neighbours. No other node changes. */
  lemma MergeNodes(users: Users, items: Items, u: UserId, i: ItemId, w: real)
    requires NodesValid(users, items)
    ensures var us := MergeUser(users, u, i, w);
            && u in us.vals
            && us.keys == (if u in users.vals then users.keys else users.keys + [u])
            && us.vals[u].norm == (if u in users.vals then users.vals[u].norm else 0.0)
            && us.vals[u].neighbours == (if u in users.vals then users.vals[u].neighbours else [])
            && forall v | v in users.vals && v != u :: v in us.vals && us.vals[v] == users.vals[v]
    ensures var its := MergeItem(items, i, u, w);
            && i in its.vals
            && its.keys == (if i in items.vals then items.keys else items.keys + [i])
            && its.vals[i].norm == (if i in items.vals then items.vals[i].norm else 0.0)
            && forall j | j in items.vals && j != i :: j in its.vals && its.vals[j] == items.vals[j]
  {
  }

  /** The stored weight of (u, i) becomes max(w, old), the old weight reading as 0.0
      when absent, on both sides; every other edge keeps its weight. */
  lemma MergeWeights(users: Users, items: Items, u: UserId, i: ItemId, w: real)
    requires NodesValid(users, items)
    ensures forall v, j :: Weight(MergeUser(users, u, i, w), v, j)
                           == if v == u && j == i then Max(w, Weight(users, u, i)) else Weight(users, v, j)
    ensures forall j, v :: ItemWeight(MergeItem(items, i, u, w), j, v)
                           == if j == i && v == u then Max(w, ItemWeight(items, i, u)) else ItemWeight(items, j, v)
  {
  }

  /** Inserting the same interaction twice is the same as inserting it once. */
  lemma MergeIdempotent(users: Users, items: Items, u: UserId, i: ItemId, w: real)
    requires NodesValid(users, items)
    ensures MergeUser(MergeUser(users, u, i, w), u, i, w) == MergeUser(users, u, i, w)
    ensures MergeItem(MergeItem(items, i, u, w), i, u, w) == MergeItem(items, i, u, w)
  {
    var us := MergeUser(users, u, i, w);
    var node := us.vals[u];
    PutSame(node.profile, i);
    assert node.(profile := node.profile.Put(i, Max(w, GetOr(node.profile, i, 0.0)))) == node;
    PutSame(us, u);
    var its := MergeItem(items, i, u, w);
    var inode := its.vals[i];
    PutSame(inode.profile, u);
    assert inode.(profile := inode.profile.Put(u, Max(w, GetOr(inode.profile, u, 0.0)))) == inode;
    PutSame(its, i);
  }

  /** What an interaction changes on the user side: the node of `u` and in it the
      edge (u, i). */
  lemma MergeUserShape(users: Users, u: UserId, i: ItemId, w: real)
    requires users.Valid() && (u in users.vals ==> users.vals[u].profile.Valid())
    ensures var us := MergeUser(users, u, i, w);
            && us.vals.Keys == users.vals.Keys + {u}
            && (forall v | v in users.vals && v != u :: us.vals[v] == users.vals[v])
            && us.vals[u].profile.vals == Profile(users, u).vals[i := Max(w, Weight(users, u, i))]
            && us.vals[u].neighbours == (if u in users.vals then users.vals[u].neighbours else [])
  {
  }

  /** What an interaction changes on the item side: the node of `i` and in it the
      edge (i, u). */
  lemma MergeItemShape(items: Items, i: ItemId, u: UserId, w: real)
    requires items.Valid() && (i in items.vals ==> items.vals[i].profile.Valid())
    ensures var its := MergeItem(items, i, u, w);
            && its.vals.Keys == items.vals.Keys + {i}
            && (forall j | j in items.vals && j != i :: its.vals[j] == items.vals[j])
            && its.vals[i].profile.vals == ItemProfile(items, i).vals[u := Max(w, ItemWeight(items, i, u))]
  {
  }

  /** What an interaction changes: the edge (u, i) on both sides. */
  lemma MergeShape(users: Users, items: Items, u: UserId, i: ItemId, w: real)
    requires NodesValid(users, items)
    ensures var us := MergeUser(users, u, i, w);
            var its := MergeItem(items, i, u, w);
            && us.vals.Keys == users.vals.Keys + {u}
            && its.vals.Keys == items.vals.Keys + {i}
            && (forall v | v in users.vals && v != u :: us.vals[v] == users.vals[v])
            && (forall j | j in items.vals && j != i :: its.vals[j] == items.vals[j])
            && us.vals[u].profile.vals == Profile(users, u).vals[i := Max(w, Weight(users, u, i))]
            && its.vals[i].profile.vals == ItemProfile(items, i).vals[u := Max(w, ItemWeight(items, i, u))]
            && us.vals[u].neighbours == (if u in users.vals then users.vals[u].neighbours else [])
  {
    MergeUserShape(users, u, i, w);
    MergeItemShape(items, i, u, w);
  }

  lemma MergeKeepsItemsKnown(users: Users, items: Items, u: UserId, i: ItemId, w: real)
    requires NodesValid(users, items) && ItemsKnown(users, items)
    ensures ItemsKnown(MergeUser(users, u, i, w), MergeItem(items, i, u, w))
  {
    var us := MergeUser(users, u, i, w);
    var its := MergeItem(items, i, u, w);
    MergeShape(users, items, u, i, w);
    forall v, j | v in us.vals && j in us.vals[v].profile.vals
      ensures j in its.vals
    {
      if v != u { assert j in users.vals[v].profile.vals; }
      else if j != i { assert j in users.vals[u].profile.vals; }
    }
  }

  lemma MergeKeepsItemEdgesMirrored(users: Users, items: Items, u: UserId, i: ItemId, w: real)
    requires NodesValid(users, items) && ItemEdgesMirrored(users, items)
    requires Weight(users, u, i) == ItemWeight(items, i, u)
    ensures ItemEdgesMirrored(MergeUser(users, u, i, w), MergeItem(items, i, u, w))
  {
    var us := MergeUser(users, u, i, w);
    var its := MergeItem(items, i, u, w);
    MergeShape(users, items, u, i, w);
    forall j, v | j in its.vals && v in its.vals[j].profile.vals
      ensures v in us.vals && j in us.vals[v].profile.vals
      ensures us.vals[v].profile.vals[j] == its.vals[j].profile.vals[v]
    {
      if j != i || v != u {
        assert v in items.vals[j].profile.vals;
      }
    }
  }

  lemma MergeKeepsUnmirroredZero(users: Users, items: Items, u: UserId, i: ItemId, w: real)
    requires NodesValid(users, items) && ItemsKnown(users, items) && UnmirroredZero(users, items)
    ensures UnmirroredZero(MergeUser(users, u, i, w), MergeItem(items, i, u, w))
  {
    var us := MergeUser(users, u, i, w);
    var its := MergeItem(items, i, u, w);
    MergeShape(users, items, u, i, w);
    forall v, j | v in us.vals && j in us.vals[v].profile.vals && j in its.vals && v !in its.vals[j].profile.vals
      ensures us.vals[v].profile.vals[j] == 0.0
    {
      assert j != i || v != u;
      assert j in users.vals[v].profile.vals;
    }
  }

  lemma MergeKeepsMirrored(users: Users, items: Items, u: UserId, i: ItemId, w: real)
    requires NodesValid(users, items) && Mirrored(users, items)
    ensures Mirrored(MergeUser(users, u, i, w), MergeItem(items, i, u, w))
  {
    var us := MergeUser(users, u, i, w);
    var its := MergeItem(items, i, u, w);
    MergeShape(users, items, u, i, w);
    forall v, j | v in us.vals && j in us.vals[v].profile.vals
      ensures j in its.vals && v in its.vals[j].profile.vals
    {
      if v != u {
        assert j in users.vals[v].profile.vals;
        assert v in items.vals[j].profile.vals;
      } else if j != i {
        assert j in Profile(users, u).vals;
        assert v in items.vals[j].profile.vals;
      }
    }
  }

  /** `put_interaction` keeps the graph invariant, and keeps the two profiles holding
      the same edges when they did before. */
  lemma MergePreservesInvariant(users: Users, items: Items, u: UserId, i: ItemId, w: real)
    requires Invariant(users, items)
    ensures Invariant(MergeUser(users, u, i, w), MergeItem(items, i, u, w))
    ensures Mirrored(users, items) ==> Mirrored(MergeUser(users, u, i, w), MergeItem(items, i, u, w))
  {
    var us := MergeUser(users, u, i, w);
    MergeShape(users, items, u, i, w);
    MergeKeepsItemsKnown(users, items, u, i, w);
    Agreement(users, items);
    MergeKeepsItemEdgesMirrored(users, items, u, i, w);
    MergeKeepsUnmirroredZero(users, items, u, i, w);
    if Mirrored(users, items) {
      MergeKeepsMirrored(users, items, u, i, w);
    }
    MergeKeepsNeighboursKnown(users, items, u, i, w);
    MergeKeepsNodesValid(users, items, u, i, w);
  }

  lemma MergeKeepsNeighboursKnown(users: Users, items: Items, u: UserId, i: ItemId, w: real)
    requires NodesValid(users, items) && NeighboursKnown(users)
    ensures NeighboursKnown(MergeUser(users, u, i, w))
  {
    var us := MergeUser(users, u, i, w);
    MergeShape(users, items, u, i, w);
    forall v, k | v in us.vals && 0 <= k < |us.vals[v].neighbours|
      ensures us.vals[v].neighbours[k].id in us.vals
    {
      if v != u { assert users.vals[v].neighbours[k].id in users.vals; }
      else { assert users.vals[u].neighbours[k].id in users.vals; }
    }
  }

  lemma MergeKeepsNodesValid(users: Users, items: Items, u: UserId, i: ItemId, w: real)
    requires NodesValid(users, items)
    ensures NodesValid(MergeUser(users, u, i, w), MergeItem(items, i, u, w))
  {
    var us := MergeUser(users, u, i, w);
    var its := MergeItem(items, i, u, w);
    forall v | v in us.vals ensures us.vals[v].profile.Valid() {
      if v != u { assert us.vals[v] == users.vals[v]; }
    }
    forall j | j in its.vals ensures its.vals[j].profile.Valid() {
      if j != i { assert its.vals[j] == items.vals[j]; }
    }
  }

  /** The two profiles agree on every edge, read with get-or-zero. */
  lemma Agreement(users: Users, items: Items)
    requires Invariant(users, items)
    ensures forall u, i :: Weight(users, u, i) == ItemWeight(items, i, u)
  {
    forall u, i ensures Weight(users, u, i) == ItemWeight(items, i, u) {
      if u in users.vals && i in users.vals[u].profile.vals {
        assert i in items.vals;
      }
    }
  }

  class Graph {
    var users: Users
    var items: Items

    ghost predicate Valid()
      reads this
    {
      Invariant(users, items)
    }

    constructor ()
      ensures Valid() && Mirrored(users, items)
      ensures users == Empty() && items == Empty()
    {
      users := Empty();
      items := Empty();
    }

    /** Adds an edge, creating missing nodes; a repeated edge keeps the larger weight. */
    method PutInteraction(userId: UserId, itemId: ItemId, weight: real)
      requires Valid()
      modifies this
      ensures Valid()
      ensures users == MergeUser(old(users), userId, itemId, weight)
      ensures items == MergeItem(old(items), itemId, userId, weight)
      ensures old(Mirrored(users, items)) ==> Mirrored(users, items)
    {
      MergePreservesInvariant(users, items, userId, itemId, weight);
      var user: User;
      if userId in users.vals {
        user := users.vals[userId];
      } else {
        user := NewUser();
        users := users.Put(userId, user);
      }
      var item: Item;
      if itemId in items.vals {
        item := items.vals[itemId];
      } else {
        item := NewItem();
        items := items.Put(itemId, item);
      }
      user := user.(profile := user.profile.Put(itemId, Max(weight, GetOr(user.profile, itemId, 0.0))));
      if userId !in old(users).vals {
        PutPut(old(users), userId, NewUser(), user);
      }
      users := users.Put(userId, user);
      item := item.(profile := item.profile.Put(userId, Max(weight, GetOr(item.profile, userId, 0.0))));
      if itemId !in old(items).vals {
        PutPut(old(items), itemId, NewItem(), item);
      }
      items := items.Put(itemId, item);
    }

    /** Stores the norm that `update_norm` computes for user `userId`. */
    method UpdateUserNorm(userId: UserId, norm: real)
      requires Valid() && userId in users.vals && norm >= 0.0
      modifies this
      ensures Valid()
      ensures users == old(users).Put(userId, old(users).vals[userId].(norm := norm))
      ensures items == old(items)
    {
      users := users.Put(userId, users.vals[userId].(norm := norm));
    }

    /** Stores the norm that `update_norm` computes for item `itemId`. */
    method UpdateItemNorm(itemId: ItemId, norm: real)
      requires Valid() && itemId in items.vals && norm >= 0.0
      modifies this
      ensures Valid()
      ensures items == old(items).Put(itemId, old(items).vals[itemId].(norm := norm))
      ensures users == old(users)
    {
      items := items.Put(itemId, items.vals[itemId].(norm := norm));
    }
  }
}
