/**
 * The tables of the analytical store that the export pipeline reads, and the
 * inner joins its queries build on (src/createZipFiles.ts, the SQL in
 * getItems and getUserData).  A join is modelled as a nested loop: for each
 * row of the left table, every matching row of the right table, in table
 * order.  The engine is free to return joined rows in any order; every
 * aggregate below is order-independent.
 */
module Tables {
  import opened Wrappers

  type Id = string

  /** A timestamp, in seconds; `createdAt > '2023-10-01'` compares against midnight of that day. */
  type Timestamp = int

  const RecentCutoff: Timestamp := 1696118400  // 2023-10-01T00:00:00

  datatype UserRow = UserRow(id: Id, username: string, email: Option<string>, googleEmail: Option<string>)

  /** `pool`: a category-A container. */
  datatype Pool = Pool(id: Id, ownerId: Id, title: string)

  /** `item`: an item placed in a pool. */
  datatype PoolItem = PoolItem(id: Id, poolId: Id, createdAt: Timestamp)

  /** `challenge`: a category-B container, tagged with a render type that may be NULL. */
  datatype Challenge = Challenge(id: Id, ownerId: Id, renderType: Option<string>, title: string)

  /** `challenge_item`: membership of an item revision in a challenge. */
  datatype ChallengeItem = ChallengeItem(challengeId: Id, itemRevisionId: Id, createdAt: Timestamp)

  /** `item_revision`: the exported body of an item. */
  datatype Revision = Revision(id: Id, draftItemId: Option<Id>, title: string, itemDoc: string, explanationDoc: Option<string>)

  /**
   * The store.  `tags` stands for the tag subquery of getItems: a revision id
   * maps to the list of its normalized tag names when it has at least one tag
   * mapping, and is absent otherwise.
   */
  datatype Db = Db(
    users: seq<UserRow>,
    pools: seq<Pool>,
    items: seq<PoolItem>,
    challenges: seq<Challenge>,
    challengeItems: seq<ChallengeItem>,
    revisions: seq<Revision>,
    tags: map<Id, seq<string>>)

  /** Items of `items` placed in pool `p`. */
  function ItemsInPool(p: Pool, items: seq<PoolItem>): (r: seq<(Pool, PoolItem)>)
    ensures forall k :: 0 <= k < |r| ==> r[k].0 == p && r[k].1 in items && r[k].1.poolId == p.id
    ensures forall i :: i in items && i.poolId == p.id ==> (p, i) in r
    ensures |r| <= |items|
  {
    if items == [] then []
    else (if items[0].poolId == p.id then [(p, items[0])] else []) + ItemsInPool(p, items[1..])
  }

  /** `pool p JOIN item i ON i.poolId = p.id`. */
  function PoolJoin(pools: seq<Pool>, items: seq<PoolItem>): (r: seq<(Pool, PoolItem)>)
    ensures forall k :: 0 <= k < |r| ==> r[k].0 in pools && r[k].1 in items && r[k].1.poolId == r[k].0.id
    ensures forall p, i :: p in pools && i in items && i.poolId == p.id ==> (p, i) in r
  {
    if pools == [] then [] else ItemsInPool(pools[0], items) + PoolJoin(pools[1..], items)
  }

  /** Members of `cis` that belong to challenge `c`. */
  function ItemsInChallenge(c: Challenge, cis: seq<ChallengeItem>): (r: seq<(Challenge, ChallengeItem)>)
    ensures forall k :: 0 <= k < |r| ==> r[k].0 == c && r[k].1 in cis && r[k].1.challengeId == c.id
    ensures forall ci :: ci in cis && ci.challengeId == c.id ==> (c, ci) in r
    ensures |r| <= |cis|
  {
    if cis == [] then []
    else (if cis[0].challengeId == c.id then [(c, cis[0])] else []) + ItemsInChallenge(c, cis[1..])
  }

  /** `challenge ch JOIN challenge_item ci ON ci.challengeId = ch.id`. */
  function ChallengeJoin(chs: seq<Challenge>, cis: seq<ChallengeItem>): (r: seq<(Challenge, ChallengeItem)>)
    ensures forall k :: 0 <= k < |r| ==> r[k].0 in chs && r[k].1 in cis && r[k].1.challengeId == r[k].0.id
    ensures forall c, ci :: c in chs && ci in cis && ci.challengeId == c.id ==> (c, ci) in r
  {
    if chs == [] then [] else ItemsInChallenge(chs[0], cis) + ChallengeJoin(chs[1..], cis)
  }

  /**
   * The join lists each item of the pool as often as it occurs in `items`,
   * and nothing else: no row is merged or duplicated.
   */
  lemma ItemsInPoolCounts(p: Pool, items: seq<PoolItem>)
    ensures forall x ::
      multiset(ItemsInPool(p, items))[x] == if x.0 == p && x.1.poolId == p.id then multiset(items)[x.1] else 0
  {
    forall x ensures multiset(ItemsInPool(p, items))[x] == if x.0 == p && x.1.poolId == p.id then multiset(items)[x.1] else 0 {
      ItemsInPoolCountAt(p, items, x);
    }
  }

  lemma {:induction false} ItemsInPoolCountAt(p: Pool, items: seq<PoolItem>, x: (Pool, PoolItem))
    ensures multiset(ItemsInPool(p, items))[x] == if x.0 == p && x.1.poolId == p.id then multiset(items)[x.1] else 0
  {
    if items != [] {
      var tail := ItemsInPool(p, items[1..]);
      ItemsInPoolCountAt(p, items[1..], x);
      if items[0].poolId == p.id {
        assert ItemsInPool(p, items) == [(p, items[0])] + tail;
        CountCons((p, items[0]), tail, x);
      } else {
        assert ItemsInPool(p, items) == tail;
      }
      CountFront(items, x.1);
    }
  }

  /**
   * `COUNT(*)` over the join sees each matching (pool, item) pair once per
   * pair of occurrences in the two tables.
   */
  lemma PoolJoinCounts(pools: seq<Pool>, items: seq<PoolItem>)
    ensures forall x ::
      multiset(PoolJoin(pools, items))[x] == if x.1.poolId == x.0.id then multiset(pools)[x.0] * multiset(items)[x.1] else 0
  {
    forall x ensures multiset(PoolJoin(pools, items))[x] == if x.1.poolId == x.0.id then multiset(pools)[x.0] * multiset(items)[x.1] else 0 {
      PoolJoinCountAt(pools, items, x);
    }
  }

  lemma {:induction false} PoolJoinCountAt(pools: seq<Pool>, items: seq<PoolItem>, x: (Pool, PoolItem))
    ensures multiset(PoolJoin(pools, items))[x] == if x.1.poolId == x.0.id then multiset(pools)[x.0] * multiset(items)[x.1] else 0
  {
    if pools != [] {
      PoolJoinCountAt(pools[1..], items, x);
      ItemsInPoolCountAt(pools[0], items, x);
      PoolJoinUnfold(pools, items, x);
      CountFront(pools, x.0);
      CountStep(multiset(PoolJoin(pools, items))[x], multiset(ItemsInPool(pools[0], items))[x], multiset(PoolJoin(pools[1..], items))[x],
        multiset(pools)[x.0], multiset(pools[1..])[x.0], multiset(items)[x.1], x.1.poolId == x.0.id, x.0 == pools[0]);
    }
  }

  /** A join's rows are those of its first left row followed by those of the rest. */
  lemma PoolJoinUnfold(pools: seq<Pool>, items: seq<PoolItem>, x: (Pool, PoolItem))
    requires pools != []
    ensures multiset(PoolJoin(pools, items))[x] == multiset(ItemsInPool(pools[0], items))[x] + multiset(PoolJoin(pools[1..], items))[x]
  {
    assert PoolJoin(pools, items) == ItemsInPool(pools[0], items) + PoolJoin(pools[1..], items);
  }

  /** The challenge-side analogue of `ItemsInPoolCounts`. */
  lemma ItemsInChallengeCounts(c: Challenge, cis: seq<ChallengeItem>)
    ensures forall x ::
      multiset(ItemsInChallenge(c, cis))[x] == if x.0 == c && x.1.challengeId == c.id then multiset(cis)[x.1] else 0
  {
    forall x ensures multiset(ItemsInChallenge(c, cis))[x] == if x.0 == c && x.1.challengeId == c.id then multiset(cis)[x.1] else 0 {
      ItemsInChallengeCountAt(c, cis, x);
    }
  }

  lemma {:induction false} ItemsInChallengeCountAt(c: Challenge, cis: seq<ChallengeItem>, x: (Challenge, ChallengeItem))
    ensures multiset(ItemsInChallenge(c, cis))[x] == if x.0 == c && x.1.challengeId == c.id then multiset(cis)[x.1] else 0
  {
    if cis != [] {
      var tail := ItemsInChallenge(c, cis[1..]);
      ItemsInChallengeCountAt(c, cis[1..], x);
      if cis[0].challengeId == c.id {
        assert ItemsInChallenge(c, cis) == [(c, cis[0])] + tail;
        CountCons((c, cis[0]), tail, x);
      } else {
        assert ItemsInChallenge(c, cis) == tail;
      }
      CountFront(cis, x.1);
    }
  }

  /** The challenge-side analogue of `PoolJoinCounts`. */
  lemma ChallengeJoinCounts(chs: seq<Challenge>, cis: seq<ChallengeItem>)
    ensures forall x ::
      multiset(ChallengeJoin(chs, cis))[x] == if x.1.challengeId == x.0.id then multiset(chs)[x.0] * multiset(cis)[x.1] else 0
  {
    forall x ensures multiset(ChallengeJoin(chs, cis))[x] == if x.1.challengeId == x.0.id then multiset(chs)[x.0] * multiset(cis)[x.1] else 0 {
      ChallengeJoinCountAt(chs, cis, x);
    }
  }

  lemma {:induction false} ChallengeJoinCountAt(chs: seq<Challenge>, cis: seq<ChallengeItem>, x: (Challenge, ChallengeItem))
    ensures multiset(ChallengeJoin(chs, cis))[x] == if x.1.challengeId == x.0.id then multiset(chs)[x.0] * multiset(cis)[x.1] else 0
  {
    if chs != [] {
      ChallengeJoinCountAt(chs[1..], cis, x);
      ItemsInChallengeCountAt(chs[0], cis, x);
      ChallengeJoinUnfold(chs, cis, x);
      CountFront(chs, x.0);
      CountStep(multiset(ChallengeJoin(chs, cis))[x], multiset(ItemsInChallenge(chs[0], cis))[x], multiset(ChallengeJoin(chs[1..], cis))[x],
        multiset(chs)[x.0], multiset(chs[1..])[x.0], multiset(cis)[x.1], x.1.challengeId == x.0.id, x.0 == chs[0]);
    }
  }

  /** A join's rows are those of its first left row followed by those of the rest. */
  lemma ChallengeJoinUnfold(chs: seq<Challenge>, cis: seq<ChallengeItem>, x: (Challenge, ChallengeItem))
    requires chs != []
    ensures multiset(ChallengeJoin(chs, cis))[x] == multiset(ItemsInChallenge(chs[0], cis))[x] + multiset(ChallengeJoin(chs[1..], cis))[x]
  {
    assert ChallengeJoin(chs, cis) == ItemsInChallenge(chs[0], cis) + ChallengeJoin(chs[1..], cis);
  }

  /** The first element of a sequence counts once, the rest as they occur in the tail. */
  lemma CountFront<T>(s: seq<T>, x: T)
    requires s != []
    ensures multiset(s)[x] == (if x == s[0] then 1 else 0) + multiset(s[1..])[x]
  {
    assert s == [s[0]] + s[1..];
  }

  /** One more occurrence at the front of a sequence. */
  lemma CountCons<T>(a: T, s: seq<T>, x: T)
    ensures multiset([a] + s)[x] == (if x == a then 1 else 0) + multiset(s)[x]
  {
  }

  /**
   * The arithmetic of one step of the join counts: the first row of the left
   * table adds `n` matches when it is the row counted, the rest add `rest * n`.
   */
  lemma CountStep(total: int, first: int, others: int, occurrences: nat, rest: nat, n: nat, matches: bool, isFirst: bool)
    requires total == first + others
    requires first == if matches && isFirst then n else 0
    requires others == if matches then rest * n else 0
    requires occurrences == (if isFirst then 1 else 0) + rest
    ensures total == if matches then occurrences * n else 0
  {
  }

  /** Number of rows of `users` whose id is `id` (the primary key makes it 0 or 1). */
  function UserMultiplicity(users: seq<UserRow>, id: Id): (n: nat)
    ensures n <= |users|
    ensures n == 0 <==> forall k :: 0 <= k < |users| ==> users[k].id != id
  {
    if users == [] then 0 else (if users[0].id == id then 1 else 0) + UserMultiplicity(users[1..], id)
  }
}
