/** The dataset preprocessing: `load_dataset`, which turns the lines of a CSV export into
    interaction records, and `anonymize_dataset`, which renames users and items to
    `user_NNNN` / `item_NNNN` in order of first appearance. */
module Preprocessing {
  import opened Seqs
  import opened Wrappers
  import opened Dataset
  import opened Decimal
  import opened Text

  /** Why `load_dataset` fails: a line after the header with fewer than three fields. */
  datatype LoadError = IndexError

  /** The fields of a line: `line.rstrip().split(';')`. */
  function Fields(line: string): seq<string>
  {
    Split(RStrip(line), ';')
  }

  /** One line after the header: its record, nothing when its rating is zero, or the
      error of a line with fewer than three fields. `ratingIsZero(f)` says whether
      `float(f) / 10` is zero for the rating field `f` without its quotes. */
  function ParseLine(line: string, ratingIsZero: string -> bool): Result<Option<Interaction>, LoadError>
  {
    var fs := Fields(line);
    if |fs| < 3 then Failure(IndexError)
    else if ratingIsZero(Unquote(fs[2])) then Success(None)
    else Success(Some(Interaction(Unquote(fs[0]), Unquote(fs[1]))))
  }

  /** What `load_dataset` returns after reading the first `m` lines: line 0 is the
      header and is skipped; the first malformed line raises. */
  function LoadUpTo(lines: seq<string>, ratingIsZero: string -> bool, m: nat): Result<seq<Interaction>, LoadError>
    requires m <= |lines|
  {
    if m <= 1 then Success([])
    else
      var prev := LoadUpTo(lines, ratingIsZero, m - 1);
      if prev.Failure? then prev
      else
        var parsed := ParseLine(lines[m - 1], ratingIsZero);
        if parsed.Failure? then Failure(parsed.error)
        else if parsed.value.None? then prev
        else Success(prev.value + [parsed.value.value])
  }

  /** Once a line has raised, reading further lines changes nothing. */
  lemma {:induction false} LoadFailureStays(lines: seq<string>, ratingIsZero: string -> bool, k: nat, m: nat)
    requires k <= m <= |lines| && LoadUpTo(lines, ratingIsZero, k).Failure?
    ensures LoadUpTo(lines, ratingIsZero, m) == LoadUpTo(lines, ratingIsZero, k)
  {
    if k < m {
      LoadFailureStays(lines, ratingIsZero, k, m - 1);
    }
  }

  /** `load_dataset` over the lines of the file. */
  method LoadDataset(lines: seq<string>, ratingIsZero: string -> bool) returns (r: Result<seq<Interaction>, LoadError>)
    ensures r == LoadUpTo(lines, ratingIsZero, |lines|)
  {
    var dataset: seq<Interaction> := [];
    var nLine := 0;
    while nLine < |lines|
      invariant 0 <= nLine <= |lines|
      invariant LoadUpTo(lines, ratingIsZero, nLine) == Success(dataset)
    {
      if nLine != 0 {
        var dataFields := Split(RStrip(lines[nLine]), ';');
        if |dataFields| < 3 {
          LoadFailureStays(lines, ratingIsZero, nLine + 1, |lines|);
          return Failure(IndexError);
        }
        var userId := Unquote(dataFields[0]);
        var itemId := Unquote(dataFields[1]);
        if !ratingIsZero(Unquote(dataFields[2])) {
          dataset := dataset + [Interaction(userId, itemId)];
        }
      }
      nLine := nLine + 1;
    }
    r := Success(dataset);
  }

  /** The header line is never read: files that differ only in it load alike. */
  lemma {:induction false} HeaderIgnored(h1: string, h2: string, rest: seq<string>, ratingIsZero: string -> bool, m: nat)
    requires m <= |rest| + 1
    ensures LoadUpTo([h1] + rest, ratingIsZero, m) == LoadUpTo([h2] + rest, ratingIsZero, m)
  {
    if m > 1 {
      HeaderIgnored(h1, h2, rest, ratingIsZero, m - 1);
    }
  }

  /** At most one record per line after the header. */
  lemma {:induction false} LoadAtMostOnePerLine(lines: seq<string>, ratingIsZero: string -> bool, m: nat)
    requires m <= |lines| && LoadUpTo(lines, ratingIsZero, m).Success?
    ensures |LoadUpTo(lines, ratingIsZero, m).value| <= if m == 0 then 0 else m - 1
  {
    if m > 1 {
      LoadAtMostOnePerLine(lines, ratingIsZero, m - 1);
    }
  }

  /** A line of the export: three quoted fields separated by `;`, and a newline. */
  function FormatLine(userId: string, itemId: string, rating: string): string
  {
    Join([Quote(userId), Quote(itemId), Quote(rating)], ';') + "\n"
  }

  /** Trailing whitespace after a last character that is not whitespace goes. */
  lemma RStripNewline(s: string)
    requires s != [] && !IsSpace(s[|s| - 1])
    ensures RStrip(s + "\n") == s
  {
    assert (s + "\n")[..|s|] == s;
  }

  /** Parsing a formatted line gives its record back, or nothing when its rating is
      zero; the fields must not hold the separator. */
  lemma ParseFormatted(userId: string, itemId: string, rating: string, ratingIsZero: string -> bool)
    requires ';' !in userId && ';' !in itemId && ';' !in rating
    ensures ParseLine(FormatLine(userId, itemId, rating), ratingIsZero)
            == if ratingIsZero(rating) then Success(None) else Success(Some(Interaction(userId, itemId)))
  {
    var parts := [Quote(userId), Quote(itemId), Quote(rating)];
    var joined := Join(parts, ';');
    JoinThree(Quote(userId), Quote(itemId), Quote(rating), ';');
    assert joined[|joined| - 1] == '"';
    RStripNewline(joined);
    SplitJoin(parts, ';');
    UnquoteQuote(userId);
    UnquoteQuote(itemId);
    UnquoteQuote(rating);
  }

  /** A header followed by the formatted lines of `ds` with nonzero ratings `ratings`. */
  function FormatDataset(header: string, ds: seq<Interaction>, ratings: seq<string>): (lines: seq<string>)
    requires |ratings| == |ds|
    ensures |lines| == |ds| + 1
  {
    if ds == [] then [header]
    else
      var k := |ds| - 1;
      FormatDataset(header, ds[..k], ratings[..k]) + [FormatLine(ds[k].userId, ds[k].itemId, ratings[k])]
  }

  /** Loading a formatted export gives the records back, in order. */
  lemma {:induction false} LoadFormatted(header: string, ds: seq<Interaction>, ratings: seq<string>,
                                         ratingIsZero: string -> bool)
    requires |ratings| == |ds|
    requires forall j | 0 <= j < |ds| :: ';' !in ds[j].userId && ';' !in ds[j].itemId && ';' !in ratings[j]
    requires forall j | 0 <= j < |ds| :: !ratingIsZero(ratings[j])
    ensures LoadUpTo(FormatDataset(header, ds, ratings), ratingIsZero, |ds| + 1) == Success(ds)
  {
    if ds != [] {
      var k := |ds| - 1;
      var lines := FormatDataset(header, ds, ratings);
      var init := FormatDataset(header, ds[..k], ratings[..k]);
      LoadFormatted(header, ds[..k], ratings[..k], ratingIsZero);
      LoadPrefix(init, lines, ratingIsZero, k + 1);
      ParseFormatted(ds[k].userId, ds[k].itemId, ratings[k], ratingIsZero);
      assert ds[..k] + [ds[k]] == ds;
    }
  }

  /** Loading reads only the lines it has reached. */
  lemma {:induction false} LoadPrefix(p: seq<string>, q: seq<string>, ratingIsZero: string -> bool, m: nat)
    requires m <= |p| <= |q| && p == q[..|p|]
    ensures LoadUpTo(p, ratingIsZero, m) == LoadUpTo(q, ratingIsZero, m)
  {
    if m > 1 {
      LoadPrefix(p, q, ratingIsZero, m - 1);
      assert p[m - 1] == q[m - 1];
    }
  }

  /** The offset `anonymize_dataset` gives the id `x` among `ids`: its position among the
      distinct ids in order of first appearance. */
  function Offset(ids: seq<string>, x: string): nat
    requires x in ids
  {
    IndexOf(FirstOccurrences(ids), x)
  }

  /** The record `anonymize_dataset` emits for interaction `j` of `ds`. */
  function AnonymizedAt(ds: seq<Interaction>, j: nat): Interaction
    requires j < |ds|
  {
    assert UserIds(ds)[j] == ds[j].userId && ItemIds(ds)[j] == ds[j].itemId;
    Interaction(Label("user_", Offset(UserIds(ds), ds[j].userId)),
                Label("item_", Offset(ItemIds(ds), ds[j].itemId)))
  }

  /** The tables of `anonymize_dataset` after the first `k` ids of `ids`: `offset2id`
      lists the distinct ids in order of first appearance, `id2offset` holds exactly
      those ids, and maps each to its place in `offset2id`. */
  ghost predicate Numbering(ids: seq<string>, k: nat, offset2id: seq<string>, id2offset: map<string, nat>)
  {
    && k <= |ids|
    && offset2id == FirstOccurrences(ids[..k])
    && (forall x :: x in id2offset <==> x in offset2id)
    && (forall x | x in id2offset :: id2offset[x] < |offset2id| && offset2id[id2offset[x]] == x)
  }

  /** The tables number their ids `0 .. len - 1`, each number once. */
  lemma NumberingDense(ids: seq<string>, k: nat, offset2id: seq<string>, id2offset: map<string, nat>)
    requires Numbering(ids, k, offset2id, id2offset)
    ensures forall o | 0 <= o < |offset2id| :: offset2id[o] in id2offset && id2offset[offset2id[o]] == o
  {
    forall o | 0 <= o < |offset2id| ensures offset2id[o] in id2offset && id2offset[offset2id[o]] == o {
      assert offset2id[o] in offset2id;
    }
  }

  /** The offset the tables hold for an id is its offset within all of `ids`. */
  lemma NumberingOffset(ids: seq<string>, k: nat, offset2id: seq<string>, id2offset: map<string, nat>, x: string)
    requires Numbering(ids, k, offset2id, id2offset) && x in id2offset
    ensures x in ids && id2offset[x] == Offset(ids, x)
  {
    FirstOccurrencesPrefix(ids, k);
    FirstOccurrencesMembers(ids[..k]);
    IndexOfDistinct(offset2id, id2offset[x]);
    IndexOfPrefix(offset2id, FirstOccurrences(ids), x);
  }

  /** A turn whose id the tables hold keeps them. */
  lemma NumberingSeen(ids: seq<string>, k: nat, offset2id: seq<string>, id2offset: map<string, nat>)
    requires Numbering(ids, k, offset2id, id2offset) && k < |ids| && ids[k] in id2offset
    ensures Numbering(ids, k + 1, offset2id, id2offset)
  {
    FirstOccurrencesNext(ids, k);
  }

  /** A turn whose id is new gives it the next offset. */
  lemma NumberingNew(ids: seq<string>, k: nat, offset2id: seq<string>, id2offset: map<string, nat>)
    requires Numbering(ids, k, offset2id, id2offset) && k < |ids| && ids[k] !in id2offset
    ensures Numbering(ids, k + 1, offset2id + [ids[k]], id2offset[ids[k] := |offset2id|])
  {
    FirstOccurrencesNext(ids, k);
  }

  /** The records of the first `|out|` interactions and the next one are those of the
      first `|out| + 1`. */
  lemma AnonymizedNext(ds: seq<Interaction>, out: seq<Interaction>, record: Interaction)
    requires |out| < |ds| && record == AnonymizedAt(ds, |out|)
    requires forall j | 0 <= j < |out| :: out[j] == AnonymizedAt(ds, j)
    ensures forall j | 0 <= j < |out| + 1 :: (out + [record])[j] == AnonymizedAt(ds, j)
  {
  }

  /** `anonymize_dataset`: one record per interaction, in order, each id replaced by
      its label. */
  method AnonymizeDataset(dataset: seq<Interaction>) returns (anonymized: seq<Interaction>)
    ensures |anonymized| == |dataset|
    ensures forall j | 0 <= j < |dataset| :: anonymized[j] == AnonymizedAt(dataset, j)
  {
    anonymized := [];
    var userOffset2id: seq<string> := [];
    var itemOffset2id: seq<string> := [];
    var userId2offset: map<string, nat> := map[];
    var itemId2offset: map<string, nat> := map[];
    var k := 0;
    while k < |dataset|
      invariant 0 <= k <= |dataset|
      invariant Numbering(UserIds(dataset), k, userOffset2id, userId2offset)
      invariant Numbering(ItemIds(dataset), k, itemOffset2id, itemId2offset)
      invariant |anonymized| == k
      invariant forall j | 0 <= j < k :: anonymized[j] == AnonymizedAt(dataset, j)
    {
      var userId, itemId := dataset[k].userId, dataset[k].itemId;
      assert UserIds(dataset)[k] == userId && ItemIds(dataset)[k] == itemId;
      if userId !in userId2offset {
        NumberingNew(UserIds(dataset), k, userOffset2id, userId2offset);
        userId2offset := userId2offset[userId := |userOffset2id|];
        userOffset2id := userOffset2id + [userId];
      } else {
        NumberingSeen(UserIds(dataset), k, userOffset2id, userId2offset);
      }
      if itemId !in itemId2offset {
        NumberingNew(ItemIds(dataset), k, itemOffset2id, itemId2offset);
        itemId2offset := itemId2offset[itemId := |itemOffset2id|];
        itemOffset2id := itemOffset2id + [itemId];
      } else {
        NumberingSeen(ItemIds(dataset), k, itemOffset2id, itemId2offset);
      }
      NumberingOffset(UserIds(dataset), k + 1, userOffset2id, userId2offset, userId);
      NumberingOffset(ItemIds(dataset), k + 1, itemOffset2id, itemId2offset, itemId);
      var record := Interaction(Label("user_", userId2offset[userId]), Label("item_", itemId2offset[itemId]));
      assert record == AnonymizedAt(dataset, k);
      AnonymizedNext(dataset, anonymized, record);
      anonymized := anonymized + [record];
      k := k + 1;
    }
  }

  /** Offsets are injective: different ids get different offsets. */
  lemma OffsetInjective(ids: seq<string>, x: string, y: string)
    requires x in ids && y in ids
    ensures Offset(ids, x) == Offset(ids, y) <==> x == y
  {
  }

  /** Renaming is consistent and injective: two interactions get the same anonymous user
      exactly when they have the same user, and likewise for items. */
  lemma AnonymizeConsistent(ds: seq<Interaction>, j: nat, k: nat)
    requires j < |ds| && k < |ds|
    ensures AnonymizedAt(ds, j).userId == AnonymizedAt(ds, k).userId <==> ds[j].userId == ds[k].userId
    ensures AnonymizedAt(ds, j).itemId == AnonymizedAt(ds, k).itemId <==> ds[j].itemId == ds[k].itemId
  {
    var us, its := UserIds(ds), ItemIds(ds);
    assert us[j] == ds[j].userId && us[k] == ds[k].userId;
    assert its[j] == ds[j].itemId && its[k] == ds[k].itemId;
    LabelInjective("user_", Offset(us, ds[j].userId), Offset(us, ds[k].userId));
    LabelInjective("item_", Offset(its, ds[j].itemId), Offset(its, ds[k].itemId));
    OffsetInjective(us, ds[j].userId, ds[k].userId);
    OffsetInjective(its, ds[j].itemId, ds[k].itemId);
  }

  /** An id first seen at position `j` gets as offset the number of distinct ids before
      it: the k-th distinct id gets offset k. */
  lemma OffsetFirstAppearance(ids: seq<string>, j: nat)
    requires j < |ids| && ids[j] !in ids[..j]
    ensures Offset(ids, ids[j]) == |FirstOccurrences(ids[..j])|
  {
    FirstOccurrencesNext(ids, j);
    FirstOccurrencesMembers(ids[..j]);
    var p := FirstOccurrences(ids[..j + 1]);
    FirstOccurrencesPrefix(ids, j + 1);
    IndexOfDistinct(p, |FirstOccurrences(ids[..j])|);
    IndexOfPrefix(p, FirstOccurrences(ids), ids[j]);
  }

  /** The offsets in use are exactly `0 .. D - 1` for the `D` distinct ids. */
  lemma OffsetsDense(ids: seq<string>, o: nat)
    requires o < |FirstOccurrences(ids)|
    ensures FirstOccurrences(ids)[o] in ids && Offset(ids, FirstOccurrences(ids)[o]) == o
  {
    IndexOfDistinct(FirstOccurrences(ids), o);
  }
}
