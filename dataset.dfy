/** The interaction records the dataset utilities pass around: Python dicts with the
    keys `user_id` and `item_id`. */
module Dataset {

  datatype Interaction = Interaction(userId: string, itemId: string)

  /** The `user_id` of every interaction, in order. */
  function UserIds(ds: seq<Interaction>): (r: seq<string>)
    ensures |r| == |ds| && forall j | 0 <= j < |ds| :: r[j] == ds[j].userId
  {
    if ds == [] then [] else UserIds(ds[..|ds| - 1]) + [ds[|ds| - 1].userId]
  }

  /** The `item_id` of every interaction, in order. */
  function ItemIds(ds: seq<Interaction>): (r: seq<string>)
    ensures |r| == |ds| && forall j | 0 <= j < |ds| :: r[j] == ds[j].itemId
  {
    if ds == [] then [] else ItemIds(ds[..|ds| - 1]) + [ds[|ds| - 1].itemId]
  }

  /** The user of every interaction of `ds` is among its user ids. */
  lemma UserIdsOfMembers(ds: seq<Interaction>)
    ensures forall x | x in ds :: x.userId in UserIds(ds)
  {
    forall x | x in ds ensures x.userId in UserIds(ds) {
      var j :| 0 <= j < |ds| && ds[j] == x;
      assert UserIds(ds)[j] == x.userId;
    }
  }
}
