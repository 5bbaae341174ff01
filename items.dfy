/**
 * getItems (src/createZipFiles.ts:105-169): a user's items from both
 * container kinds, mapped into one Item shape and concatenated, challenge
 * items first, with no de-duplication.
 */
module Items {
  import opened Wrappers
  import opened Tables

  datatype Item = Item(
    userId: Id, context: string, itemId: Id, itemTitle: string, itemDoc: string,
    explanationDoc: Option<string>, tags: Option<seq<string>>)

  /** One result row of either item query; `explanationDoc` and `tags` may be NULL. */
  datatype ItemRow = ItemRow(
    context: string, id: Id, title: string, itemDoc: string,
    explanationDoc: Option<string>, tags: Option<seq<string>>)

  /** `LEFT JOIN (...) irt ON irt.id = ir.id`: NULL for a revision without tags. */
  function TagsOf(db: Db, revisionId: Id): (tags: Option<seq<string>>)
    ensures tags.Some? <==> revisionId in db.tags
    ensures tags.Some? ==> tags.value == db.tags[revisionId]
  {
    if revisionId in db.tags then Some(db.tags[revisionId]) else None
  }

  /** The columns selected for revision `ir` reached through a container titled `context`. */
  function RowOf(db: Db, context: string, ir: Revision): (row: ItemRow)
    ensures row.context == context && row.id == ir.id && row.title == ir.title
    ensures row.itemDoc == ir.itemDoc && row.explanationDoc == ir.explanationDoc
    ensures row.tags == TagsOf(db, ir.id)
  {
    ItemRow(context, ir.id, ir.title, ir.itemDoc, ir.explanationDoc, TagsOf(db, ir.id))
  }

  /** `JOIN item_revision ir ON ci.itemRevisionId = ir.id`: one row per revision with that id. */
  function RevisionsWithId(db: Db, revs: seq<Revision>, id: Id, context: string): (r: seq<ItemRow>)
    ensures forall row :: row in r ==> exists ir :: ir in revs && ir.id == id && row == RowOf(db, context, ir)
    ensures forall ir :: ir in revs && ir.id == id ==> RowOf(db, context, ir) in r
  {
    if revs == [] then []
    else
      var ir := revs[0];
      var rest := RevisionsWithId(db, revs[1..], id, context);
      assert forall x :: x in revs ==> x == ir || x in revs[1..];
      assert forall x :: x in revs[1..] ==> x in revs;
      (if ir.id == id then [RowOf(db, context, ir)] else []) + rest
  }

  /** `JOIN item_revision ir ON ir.draftItemId = item.id`: one row per draft revision of the item. */
  function DraftRevisionsOf(db: Db, revs: seq<Revision>, itemId: Id, context: string): (r: seq<ItemRow>)
    ensures forall row :: row in r ==> exists ir :: ir in revs && ir.draftItemId == Some(itemId) && row == RowOf(db, context, ir)
    ensures forall ir :: ir in revs && ir.draftItemId == Some(itemId) ==> RowOf(db, context, ir) in r
  {
    if revs == [] then []
    else
      var ir := revs[0];
      var rest := DraftRevisionsOf(db, revs[1..], itemId, context);
      assert forall x :: x in revs ==> x == ir || x in revs[1..];
      assert forall x :: x in revs[1..] ==> x in revs;
      (if ir.draftItemId == Some(itemId) then [RowOf(db, context, ir)] else []) + rest
  }

  /**
   * Challenge path, for one user row: an owned challenge, one of its
   * members, and the revision that member names.  Every row comes from such
   * a chain of `joined`, and every such chain yields a row.
   */
  function ChallengePath(db: Db, joined: seq<(Challenge, ChallengeItem)>, userId: Id): (r: seq<ItemRow>)
    ensures forall row :: row in r ==> exists c, ci, ir ::
      (c, ci) in joined && c.ownerId == userId && ir in db.revisions && ir.id == ci.itemRevisionId
      && row == RowOf(db, c.title, ir)
    ensures forall c, ci, ir ::
      (c, ci) in joined && c.ownerId == userId && ir in db.revisions && ir.id == ci.itemRevisionId ==>
        RowOf(db, c.title, ir) in r
  {
    if joined == [] then []
    else
      var (c, ci) := joined[0];
      var rest := ChallengePath(db, joined[1..], userId);
      assert forall x :: x in joined ==> x == joined[0] || x in joined[1..];
      assert forall x :: x in joined[1..] ==> x in joined;
      (if c.ownerId == userId then RevisionsWithId(db, db.revisions, ci.itemRevisionId, c.title) else []) + rest
  }

  /**
   * Pool path, for one user row: an owned pool, one of its items, and a
   * revision whose draft is that item.  Every row comes from such a chain of
   * `joined`, and every such chain yields a row.
   */
  function PoolPath(db: Db, joined: seq<(Pool, PoolItem)>, userId: Id): (r: seq<ItemRow>)
    ensures forall row :: row in r ==> exists p, item, ir ::
      (p, item) in joined && p.ownerId == userId && ir in db.revisions && ir.draftItemId == Some(item.id)
      && row == RowOf(db, p.title, ir)
    ensures forall p, item, ir ::
      (p, item) in joined && p.ownerId == userId && ir in db.revisions && ir.draftItemId == Some(item.id) ==>
        RowOf(db, p.title, ir) in r
  {
    if joined == [] then []
    else
      var (p, item) := joined[0];
      var rest := PoolPath(db, joined[1..], userId);
      assert forall x :: x in joined ==> x == joined[0] || x in joined[1..];
      assert forall x :: x in joined[1..] ==> x in joined;
      (if p.ownerId == userId then DraftRevisionsOf(db, db.revisions, item.id, p.title) else []) + rest
  }

  // ---------------------------------------------------------------------
  // Multiplicity: one row per chain of the store, nothing merged.
  // ---------------------------------------------------------------------

  /** The chains through challenge `c` and its member `ci`: one per revision of `revs` that `ci` names. */
  function ChallengeLinks(c: Challenge, ci: ChallengeItem, revs: seq<Revision>): seq<(Challenge, ChallengeItem, Revision)> {
    if revs == [] then []
    else (if revs[0].id == ci.itemRevisionId then [(c, ci, revs[0])] else []) + ChallengeLinks(c, ci, revs[1..])
  }

  /** The chains through the owned pairs of `joined`, pair by pair. */
  function ChallengeChains(revs: seq<Revision>, joined: seq<(Challenge, ChallengeItem)>, userId: Id): seq<(Challenge, ChallengeItem, Revision)> {
    if joined == [] then []
    else
      (if joined[0].0.ownerId == userId then ChallengeLinks(joined[0].0, joined[0].1, revs) else [])
      + ChallengeChains(revs, joined[1..], userId)
  }

  /** The row each challenge chain selects. */
  function ChallengeChainRows(db: Db, chains: seq<(Challenge, ChallengeItem, Revision)>): (rows: seq<ItemRow>)
    ensures |rows| == |chains|
    ensures forall k :: 0 <= k < |chains| ==> rows[k] == RowOf(db, chains[k].0.title, chains[k].2)
  {
    seq(|chains|, k requires 0 <= k < |chains| => RowOf(db, chains[k].0.title, chains[k].2))
  }

  lemma ChallengeChainRowsConcat(db: Db, a: seq<(Challenge, ChallengeItem, Revision)>, b: seq<(Challenge, ChallengeItem, Revision)>)
    ensures ChallengeChainRows(db, a + b) == ChallengeChainRows(db, a) + ChallengeChainRows(db, b)
  {
  }

  /** The join on `itemRevisionId` yields exactly one row per chain through the member. */
  lemma {:induction false} RevisionsWithIdFollowsLinks(db: Db, c: Challenge, ci: ChallengeItem, revs: seq<Revision>)
    ensures RevisionsWithId(db, revs, ci.itemRevisionId, c.title) == ChallengeChainRows(db, ChallengeLinks(c, ci, revs))
  {
    if revs != [] {
      RevisionsWithIdFollowsLinks(db, c, ci, revs[1..]);
      var head: seq<(Challenge, ChallengeItem, Revision)> := if revs[0].id == ci.itemRevisionId then [(c, ci, revs[0])] else [];
      ChallengeChainRowsConcat(db, head, ChallengeLinks(c, ci, revs[1..]));
    }
  }

  /** A revision occurs among the links as often as it occurs in `revs`, when the member names it. */
  lemma {:induction false} ChallengeLinksCountAt(c: Challenge, ci: ChallengeItem, revs: seq<Revision>, t: (Challenge, ChallengeItem, Revision))
    ensures multiset(ChallengeLinks(c, ci, revs))[t] ==
      if t.0 == c && t.1 == ci && t.2.id == ci.itemRevisionId then multiset(revs)[t.2] else 0
  {
    if revs != [] {
      var tail := ChallengeLinks(c, ci, revs[1..]);
      ChallengeLinksCountAt(c, ci, revs[1..], t);
      if revs[0].id == ci.itemRevisionId {
        assert ChallengeLinks(c, ci, revs) == [(c, ci, revs[0])] + tail;
        CountCons((c, ci, revs[0]), tail, t);
      } else {
        assert ChallengeLinks(c, ci, revs) == tail;
      }
      CountFront(revs, t.2);
    }
  }

  /** The challenge path is the rows of the chains, one per chain, in order. */
  lemma {:induction false} ChallengePathFollowsChains(db: Db, joined: seq<(Challenge, ChallengeItem)>, userId: Id)
    ensures ChallengePath(db, joined, userId) == ChallengeChainRows(db, ChallengeChains(db.revisions, joined, userId))
  {
    if joined != [] {
      var (c, ci) := joined[0];
      ChallengePathFollowsChains(db, joined[1..], userId);
      RevisionsWithIdFollowsLinks(db, c, ci, db.revisions);
      var head := if c.ownerId == userId then ChallengeLinks(c, ci, db.revisions) else [];
      ChallengeChainRowsConcat(db, head, ChallengeChains(db.revisions, joined[1..], userId));
    }
  }

  /** A chain occurs once per occurrence of its pair in `joined` times once per occurrence of its revision. */
  lemma {:induction false} ChallengeChainsCountAt(revs: seq<Revision>, joined: seq<(Challenge, ChallengeItem)>, userId: Id, t: (Challenge, ChallengeItem, Revision))
    ensures multiset(ChallengeChains(revs, joined, userId))[t] ==
      if t.0.ownerId == userId && t.2.id == t.1.itemRevisionId then multiset(joined)[(t.0, t.1)] * multiset(revs)[t.2] else 0
  {
    if joined != [] {
      var (c, ci) := joined[0];
      ChallengeChainsCountAt(revs, joined[1..], userId, t);
      ChallengeLinksCountAt(c, ci, revs, t);
      ChallengeChainsUnfold(revs, joined, userId, t);
      CountFront(joined, (t.0, t.1));
      CountStep(multiset(ChallengeChains(revs, joined, userId))[t],
        if c.ownerId == userId then multiset(ChallengeLinks(c, ci, revs))[t] else 0,
        multiset(ChallengeChains(revs, joined[1..], userId))[t],
        multiset(joined)[(t.0, t.1)], multiset(joined[1..])[(t.0, t.1)], multiset(revs)[t.2],
        t.0.ownerId == userId && t.2.id == t.1.itemRevisionId, (t.0, t.1) == joined[0]);
    }
  }

  /** The chains of the first pair, if it is owned, followed by those of the rest. */
  lemma ChallengeChainsUnfold(revs: seq<Revision>, joined: seq<(Challenge, ChallengeItem)>, userId: Id, t: (Challenge, ChallengeItem, Revision))
    requires joined != []
    ensures multiset(ChallengeChains(revs, joined, userId))[t] ==
      (if joined[0].0.ownerId == userId then multiset(ChallengeLinks(joined[0].0, joined[0].1, revs))[t] else 0)
      + multiset(ChallengeChains(revs, joined[1..], userId))[t]
  {
    var head := if joined[0].0.ownerId == userId then ChallengeLinks(joined[0].0, joined[0].1, revs) else [];
    assert ChallengeChains(revs, joined, userId) == head + ChallengeChains(revs, joined[1..], userId);
  }

  /**
   * Each chain of an owned pair occurs as often as its pair occurs in the
   * join times as often as its revision occurs in the store, and no other
   * chain occurs.
   */
  lemma ChallengeChainsCount(revs: seq<Revision>, joined: seq<(Challenge, ChallengeItem)>, userId: Id)
    ensures forall t ::
      multiset(ChallengeChains(revs, joined, userId))[t] ==
      if t.0.ownerId == userId && t.2.id == t.1.itemRevisionId then multiset(joined)[(t.0, t.1)] * multiset(revs)[t.2] else 0
  {
    forall t {
      ChallengeChainsCountAt(revs, joined, userId, t);
    }
  }

  /** The chains through pool `p` and its item: one per revision of `revs` that is a draft of the item. */
  function PoolLinks(p: Pool, item: PoolItem, revs: seq<Revision>): seq<(Pool, PoolItem, Revision)> {
    if revs == [] then []
    else (if revs[0].draftItemId == Some(item.id) then [(p, item, revs[0])] else []) + PoolLinks(p, item, revs[1..])
  }

  /** The chains through the owned pairs of `joined`, pair by pair. */
  function PoolChains(revs: seq<Revision>, joined: seq<(Pool, PoolItem)>, userId: Id): seq<(Pool, PoolItem, Revision)> {
    if joined == [] then []
    else
      (if joined[0].0.ownerId == userId then PoolLinks(joined[0].0, joined[0].1, revs) else [])
      + PoolChains(revs, joined[1..], userId)
  }

  /** The row each pool chain selects. */
  function PoolChainRows(db: Db, chains: seq<(Pool, PoolItem, Revision)>): (rows: seq<ItemRow>)
    ensures |rows| == |chains|
    ensures forall k :: 0 <= k < |chains| ==> rows[k] == RowOf(db, chains[k].0.title, chains[k].2)
  {
    seq(|chains|, k requires 0 <= k < |chains| => RowOf(db, chains[k].0.title, chains[k].2))
  }

  lemma PoolChainRowsConcat(db: Db, a: seq<(Pool, PoolItem, Revision)>, b: seq<(Pool, PoolItem, Revision)>)
    ensures PoolChainRows(db, a + b) == PoolChainRows(db, a) + PoolChainRows(db, b)
  {
  }

  /** The join on `draftItemId` yields exactly one row per chain through the item. */
  lemma {:induction false} DraftRevisionsFollowLinks(db: Db, p: Pool, item: PoolItem, revs: seq<Revision>)
    ensures DraftRevisionsOf(db, revs, item.id, p.title) == PoolChainRows(db, PoolLinks(p, item, revs))
  {
    if revs != [] {
      DraftRevisionsFollowLinks(db, p, item, revs[1..]);
      var head: seq<(Pool, PoolItem, Revision)> := if revs[0].draftItemId == Some(item.id) then [(p, item, revs[0])] else [];
      PoolChainRowsConcat(db, head, PoolLinks(p, item, revs[1..]));
    }
  }

  /** A revision occurs among the links as often as it occurs in `revs`, when it is a draft of the item. */
  lemma {:induction false} PoolLinksCountAt(p: Pool, item: PoolItem, revs: seq<Revision>, t: (Pool, PoolItem, Revision))
    ensures multiset(PoolLinks(p, item, revs))[t] ==
      if t.0 == p && t.1 == item && t.2.draftItemId == Some(item.id) then multiset(revs)[t.2] else 0
  {
    if revs != [] {
      var tail := PoolLinks(p, item, revs[1..]);
      PoolLinksCountAt(p, item, revs[1..], t);
      if revs[0].draftItemId == Some(item.id) {
        assert PoolLinks(p, item, revs) == [(p, item, revs[0])] + tail;
        CountCons((p, item, revs[0]), tail, t);
      } else {
        assert PoolLinks(p, item, revs) == tail;
      }
      CountFront(revs, t.2);
    }
  }

  /** The pool path is the rows of the chains, one per chain, in order. */
  lemma {:induction false} PoolPathFollowsChains(db: Db, joined: seq<(Pool, PoolItem)>, userId: Id)
    ensures PoolPath(db, joined, userId) == PoolChainRows(db, PoolChains(db.revisions, joined, userId))
  {
    if joined != [] {
      var (p, item) := joined[0];
      PoolPathFollowsChains(db, joined[1..], userId);
      DraftRevisionsFollowLinks(db, p, item, db.revisions);
      var head := if p.ownerId == userId then PoolLinks(p, item, db.revisions) else [];
      PoolChainRowsConcat(db, head, PoolChains(db.revisions, joined[1..], userId));
    }
  }

  /** A chain occurs once per occurrence of its pair in `joined` times once per occurrence of its revision. */
  lemma {:induction false} PoolChainsCountAt(revs: seq<Revision>, joined: seq<(Pool, PoolItem)>, userId: Id, t: (Pool, PoolItem, Revision))
    ensures multiset(PoolChains(revs, joined, userId))[t] ==
      if t.0.ownerId == userId && t.2.draftItemId == Some(t.1.id) then multiset(joined)[(t.0, t.1)] * multiset(revs)[t.2] else 0
  {
    if joined != [] {
      var (p, item) := joined[0];
      PoolChainsCountAt(revs, joined[1..], userId, t);
      PoolLinksCountAt(p, item, revs, t);
      PoolChainsUnfold(revs, joined, userId, t);
      CountFront(joined, (t.0, t.1));
      CountStep(multiset(PoolChains(revs, joined, userId))[t],
        if p.ownerId == userId then multiset(PoolLinks(p, item, revs))[t] else 0,
        multiset(PoolChains(revs, joined[1..], userId))[t],
        multiset(joined)[(t.0, t.1)], multiset(joined[1..])[(t.0, t.1)], multiset(revs)[t.2],
        t.0.ownerId == userId && t.2.draftItemId == Some(t.1.id), (t.0, t.1) == joined[0]);
    }
  }

  /** The chains of the first pair, if it is owned, followed by those of the rest. */
  lemma PoolChainsUnfold(revs: seq<Revision>, joined: seq<(Pool, PoolItem)>, userId: Id, t: (Pool, PoolItem, Revision))
    requires joined != []
    ensures multiset(PoolChains(revs, joined, userId))[t] ==
      (if joined[0].0.ownerId == userId then multiset(PoolLinks(joined[0].0, joined[0].1, revs))[t] else 0)
      + multiset(PoolChains(revs, joined[1..], userId))[t]
  {
    var head := if joined[0].0.ownerId == userId then PoolLinks(joined[0].0, joined[0].1, revs) else [];
    assert PoolChains(revs, joined, userId) == head + PoolChains(revs, joined[1..], userId);
  }

  /**
   * Each chain of an owned pair occurs as often as its pair occurs in the
   * join times as often as its revision occurs in the store, and no other
   * chain occurs.
   */
  lemma PoolChainsCount(revs: seq<Revision>, joined: seq<(Pool, PoolItem)>, userId: Id)
    ensures forall t ::
      multiset(PoolChains(revs, joined, userId))[t] ==
      if t.0.ownerId == userId && t.2.draftItemId == Some(t.1.id) then multiset(joined)[(t.0, t.1)] * multiset(revs)[t.2] else 0
  {
    forall t {
      PoolChainsCountAt(revs, joined, userId, t);
    }
  }

  /**
   * Over the store's own join, a challenge chain occurs once per occurrence
   * of its challenge, of its member and of its revision in their tables: the
   * query merges no rows and invents none.
   */
  lemma ChallengeQueryChainCounts(db: Db, userId: Id)
    ensures forall t ::
      multiset(ChallengeChains(db.revisions, ChallengeJoin(db.challenges, db.challengeItems), userId))[t] ==
      if t.0.ownerId == userId && t.1.challengeId == t.0.id && t.2.id == t.1.itemRevisionId
      then multiset(db.challenges)[t.0] * multiset(db.challengeItems)[t.1] * multiset(db.revisions)[t.2]
      else 0
  {
    var joined := ChallengeJoin(db.challenges, db.challengeItems);
    ChallengeJoinCounts(db.challenges, db.challengeItems);
    ChallengeChainsCount(db.revisions, joined, userId);
  }

  /**
   * Over the store's own join, a pool chain occurs once per occurrence of its
   * pool, of its item and of its revision in their tables.
   */
  lemma PoolQueryChainCounts(db: Db, userId: Id)
    ensures forall t ::
      multiset(PoolChains(db.revisions, PoolJoin(db.pools, db.items), userId))[t] ==
      if t.0.ownerId == userId && t.1.poolId == t.0.id && t.2.draftItemId == Some(t.1.id)
      then multiset(db.pools)[t.0] * multiset(db.items)[t.1] * multiset(db.revisions)[t.2]
      else 0
  {
    var joined := PoolJoin(db.pools, db.items);
    PoolJoinCounts(db.pools, db.items);
    PoolChainsCount(db.revisions, joined, userId);
  }

  /** The rows of one path, once per user row whose id is `userId`. */
  function Repeat(rows: seq<ItemRow>, n: nat): (r: seq<ItemRow>)
    ensures forall row :: row in r ==> row in rows
    ensures n == 0 ==> r == []
    ensures n == 1 ==> r == rows
    ensures n >= 1 ==> forall row :: row in rows ==> row in r
    ensures |r| == n * |rows|
  {
    if n == 0 then [] else rows + Repeat(rows, n - 1)
  }

  /** The first query: `(user WHERE id = userId) JOIN challenge JOIN challenge_item JOIN item_revision`. */
  function ChallengeItemRows(db: Db, userId: Id): (r: seq<ItemRow>)
    ensures var path := ChallengePath(db, ChallengeJoin(db.challenges, db.challengeItems), userId);
      && |r| == UserMultiplicity(db.users, userId) * |path|
      && (forall row :: row in r ==> row in path)
      && (UserMultiplicity(db.users, userId) >= 1 ==> forall row :: row in path ==> row in r)
  {
    Repeat(ChallengePath(db, ChallengeJoin(db.challenges, db.challengeItems), userId), UserMultiplicity(db.users, userId))
  }

  /** The second query: `(user WHERE id = userId) JOIN pool JOIN item JOIN item_revision`. */
  function PoolItemRows(db: Db, userId: Id): (r: seq<ItemRow>)
    ensures var path := PoolPath(db, PoolJoin(db.pools, db.items), userId);
      && |r| == UserMultiplicity(db.users, userId) * |path|
      && (forall row :: row in r ==> row in path)
      && (UserMultiplicity(db.users, userId) >= 1 ==> forall row :: row in path ==> row in r)
  {
    Repeat(PoolPath(db, PoolJoin(db.pools, db.items), userId), UserMultiplicity(db.users, userId))
  }

  /** The `.map` from a row to an Item: `user_id` is stamped, a NULL explanation becomes absent. */
  function ToItem(userId: Id, row: ItemRow): (item: Item)
    ensures item.userId == userId
    ensures item.explanationDoc.None? <==> row.explanationDoc.None?
    ensures item.context == row.context && item.itemId == row.id && item.itemTitle == row.title
    ensures item.itemDoc == row.itemDoc && item.explanationDoc == row.explanationDoc && item.tags == row.tags
  {
    Item(userId, row.context, row.id, row.title, row.itemDoc, row.explanationDoc, row.tags)
  }

  function ToItems(userId: Id, rows: seq<ItemRow>): (items: seq<Item>)
    ensures |items| == |rows|
    ensures forall k :: 0 <= k < |rows| ==> items[k] == ToItem(userId, rows[k])
  {
    seq(|rows|, k requires 0 <= k < |rows| => ToItem(userId, rows[k]))
  }

  /** `[...challengeItems, ...poolItems]` */
  function GetItems(db: Db, userId: Id): (items: seq<Item>)
    ensures |items| == |ChallengeItemRows(db, userId)| + |PoolItemRows(db, userId)|
    ensures forall item :: item in items ==> item.userId == userId
  {
    ToItems(userId, ChallengeItemRows(db, userId)) + ToItems(userId, PoolItemRows(db, userId))
  }

  /**
   * The challenge items come first, then the pool items, one item per row
   * of either query and nothing merged; every item is stamped with the
   * requested user id, and its explanation is absent exactly when the
   * revision's is NULL.
   */
  lemma GetItemsConcatenatesBothPaths(db: Db, userId: Id)
    ensures var items := GetItems(db, userId);
      var cs := ChallengeItemRows(db, userId);
      var ps := PoolItemRows(db, userId);
      && |items| == |cs| + |ps|
      && (forall k :: 0 <= k < |cs| ==> items[k] == ToItem(userId, cs[k]))
      && (forall k :: 0 <= k < |ps| ==> items[|cs| + k] == ToItem(userId, ps[k]))
      && (forall k :: 0 <= k < |items| ==> items[k].userId == userId)
      && (forall k :: 0 <= k < |cs| ==> (items[k].explanationDoc.None? <==> cs[k].explanationDoc.None?))
  {
    ConcatenatedItems(userId, ChallengeItemRows(db, userId), PoolItemRows(db, userId));
  }

  lemma ConcatenatedItems(userId: Id, cs: seq<ItemRow>, ps: seq<ItemRow>)
    ensures var items := ToItems(userId, cs) + ToItems(userId, ps);
      && |items| == |cs| + |ps|
      && (forall k :: 0 <= k < |cs| ==> items[k] == ToItem(userId, cs[k]))
      && (forall k :: 0 <= k < |ps| ==> items[|cs| + k] == ToItem(userId, ps[k]))
      && (forall k :: 0 <= k < |items| ==> items[k].userId == userId)
      && (forall k :: 0 <= k < |cs| ==> (items[k].explanationDoc.None? <==> cs[k].explanationDoc.None?))
  {
    var items := ToItems(userId, cs) + ToItems(userId, ps);
    forall k | 0 <= k < |ps| ensures items[|cs| + k] == ToItem(userId, ps[k]) {
      assert items[|cs| + k] == ToItems(userId, ps)[k];
    }
  }

  /** `item` is revision `ir` of a member `ci` of challenge `c`, which `userId` owns. */
  ghost predicate ChallengeChain(db: Db, userId: Id, c: Challenge, ci: ChallengeItem, ir: Revision) {
    && c in db.challenges && c.ownerId == userId
    && ci in db.challengeItems && ci.challengeId == c.id
    && ir in db.revisions && ir.id == ci.itemRevisionId
  }

  /** Revision `ir` is a draft of `item`, which lies in pool `p`, which `userId` owns. */
  ghost predicate PoolChain(db: Db, userId: Id, p: Pool, item: PoolItem, ir: Revision) {
    && p in db.pools && p.ownerId == userId
    && item in db.items && item.poolId == p.id
    && ir in db.revisions && ir.draftItemId == Some(item.id)
  }

  /**
   * Every item is the revision reached through a chain of the store: an
   * owned challenge, its member and the revision the member names, or an
   * owned pool, its item and a draft revision of that item; its context is
   * the title of the container at the head of that chain.
   */
  lemma ItemsComeFromOwnedContainers(db: Db, userId: Id)
    ensures forall item :: item in GetItems(db, userId) ==>
      (exists c, ci, ir :: ChallengeChain(db, userId, c, ci, ir) && item == ToItem(userId, RowOf(db, c.title, ir)))
      || (exists p, pi, ir :: PoolChain(db, userId, p, pi, ir) && item == ToItem(userId, RowOf(db, p.title, ir)))
  {
    var cs := ChallengeItemRows(db, userId);
    var ps := PoolItemRows(db, userId);
    var items := GetItems(db, userId);
    ConcatenatedItems(userId, cs, ps);
    forall item | item in items
      ensures (exists c, ci, ir :: ChallengeChain(db, userId, c, ci, ir) && item == ToItem(userId, RowOf(db, c.title, ir)))
        || (exists p, pi, ir :: PoolChain(db, userId, p, pi, ir) && item == ToItem(userId, RowOf(db, p.title, ir)))
    {
      var k :| 0 <= k < |items| && items[k] == item;
      if k < |cs| {
        ChallengeRowIsChained(db, userId, cs[k]);
        var c: Challenge, ci: ChallengeItem, ir: Revision :|
          ChallengeChain(db, userId, c, ci, ir) && cs[k] == RowOf(db, c.title, ir);
        assert item == ToItem(userId, RowOf(db, c.title, ir));
      } else {
        assert item == ToItem(userId, ps[k - |cs|]);
        PoolRowIsChained(db, userId, ps[k - |cs|]);
        var p: Pool, pi: PoolItem, ir: Revision :|
          PoolChain(db, userId, p, pi, ir) && ps[k - |cs|] == RowOf(db, p.title, ir);
        assert item == ToItem(userId, RowOf(db, p.title, ir));
      }
    }
  }

  /** A row of the challenge query comes from a challenge chain. */
  lemma ChallengeRowIsChained(db: Db, userId: Id, row: ItemRow)
    requires row in ChallengeItemRows(db, userId)
    ensures exists c, ci, ir :: ChallengeChain(db, userId, c, ci, ir) && row == RowOf(db, c.title, ir)
  {
    var cj := ChallengeJoin(db.challenges, db.challengeItems);
    var path := ChallengePath(db, cj, userId);
    assert row in path;
    var c: Challenge, ci: ChallengeItem, ir: Revision :|
      (c, ci) in cj && c.ownerId == userId && ir in db.revisions && ir.id == ci.itemRevisionId
      && row == RowOf(db, c.title, ir);
    JoinedChallengeIsStored(db, c, ci);
    assert ChallengeChain(db, userId, c, ci, ir);
  }

  lemma JoinedChallengeIsStored(db: Db, c: Challenge, ci: ChallengeItem)
    requires (c, ci) in ChallengeJoin(db.challenges, db.challengeItems)
    ensures c in db.challenges && ci in db.challengeItems && ci.challengeId == c.id
  {
    var cj := ChallengeJoin(db.challenges, db.challengeItems);
    var m :| 0 <= m < |cj| && cj[m] == (c, ci);
  }

  /** A row of the pool query comes from a pool chain. */
  lemma PoolRowIsChained(db: Db, userId: Id, row: ItemRow)
    requires row in PoolItemRows(db, userId)
    ensures exists p, pi, ir :: PoolChain(db, userId, p, pi, ir) && row == RowOf(db, p.title, ir)
  {
    var pj := PoolJoin(db.pools, db.items);
    var path := PoolPath(db, pj, userId);
    assert row in path;
    var p: Pool, pi: PoolItem, ir: Revision :|
      (p, pi) in pj && p.ownerId == userId && ir in db.revisions && ir.draftItemId == Some(pi.id)
      && row == RowOf(db, p.title, ir);
    JoinedPoolIsStored(db, p, pi);
    assert PoolChain(db, userId, p, pi, ir);
  }

  lemma JoinedPoolIsStored(db: Db, p: Pool, pi: PoolItem)
    requires (p, pi) in PoolJoin(db.pools, db.items)
    ensures p in db.pools && pi in db.items && pi.poolId == p.id
  {
    var pj := PoolJoin(db.pools, db.items);
    var m :| 0 <= m < |pj| && pj[m] == (p, pi);
  }

  /**
   * Conversely, for a user of the store, every such chain yields an item:
   * no owned revision is dropped.
   */
  lemma OwnedRevisionsAreExported(db: Db, userId: Id)
    requires exists k :: 0 <= k < |db.users| && db.users[k].id == userId
    ensures forall c, ci, ir :: ChallengeChain(db, userId, c, ci, ir) ==>
      ToItem(userId, RowOf(db, c.title, ir)) in GetItems(db, userId)
    ensures forall p, pi, ir :: PoolChain(db, userId, p, pi, ir) ==>
      ToItem(userId, RowOf(db, p.title, ir)) in GetItems(db, userId)
  {
    var cs := ChallengeItemRows(db, userId);
    var ps := PoolItemRows(db, userId);
    var items := GetItems(db, userId);
    ConcatenatedItems(userId, cs, ps);
    forall c, ci, ir | ChallengeChain(db, userId, c, ci, ir)
      ensures ToItem(userId, RowOf(db, c.title, ir)) in items
    {
      ChainedChallengeRowListed(db, userId, c, ci, ir);
      var k :| 0 <= k < |cs| && cs[k] == RowOf(db, c.title, ir);
      assert items[k] == ToItem(userId, cs[k]);
    }
    forall p, pi, ir | PoolChain(db, userId, p, pi, ir)
      ensures ToItem(userId, RowOf(db, p.title, ir)) in items
    {
      ChainedPoolRowListed(db, userId, p, pi, ir);
      var k :| 0 <= k < |ps| && ps[k] == RowOf(db, p.title, ir);
      assert items[|cs| + k] == ToItem(userId, ps[k]);
    }
  }

  lemma ChainedChallengeRowListed(db: Db, userId: Id, c: Challenge, ci: ChallengeItem, ir: Revision)
    requires exists k :: 0 <= k < |db.users| && db.users[k].id == userId
    requires ChallengeChain(db, userId, c, ci, ir)
    ensures RowOf(db, c.title, ir) in ChallengeItemRows(db, userId)
  {
    var cj := ChallengeJoin(db.challenges, db.challengeItems);
    assert (c, ci) in cj;
    assert RowOf(db, c.title, ir) in ChallengePath(db, cj, userId);
  }

  lemma ChainedPoolRowListed(db: Db, userId: Id, p: Pool, pi: PoolItem, ir: Revision)
    requires exists k :: 0 <= k < |db.users| && db.users[k].id == userId
    requires PoolChain(db, userId, p, pi, ir)
    ensures RowOf(db, p.title, ir) in PoolItemRows(db, userId)
  {
    var pj := PoolJoin(db.pools, db.items);
    assert (p, pi) in pj;
    assert RowOf(db, p.title, ir) in PoolPath(db, pj, userId);
  }

  /** An id with no user row yields no items, not an error. */
  lemma UnknownUserHasNoItems(db: Db, userId: Id)
    requires forall k :: 0 <= k < |db.users| ==> db.users[k].id != userId
    ensures GetItems(db, userId) == []
  {
  }
}
