/**
 * The two aggregate queries of getUserData (src/createZipFiles.ts:176-217
 * and 235-264), restated over the rows of the store.  A `LEFT JOIN` onto an
 * aggregate subquery yields NULL (None) for a user the subquery has no group
 * for; `COALESCE(x, 0)` turns that NULL into 0.
 */
module Ranking {
  import opened Wrappers
  import opened Tables
  import Relational

  /** `WHERE num_items > 10` */
  const MinItems: nat := 10

  const Assessment: string := "ASSESSMENT"
  const Video: string := "VIDEO"
  const Live: string := "LIVE"

  function Coalesce(v: Option<nat>): (n: nat)
    ensures v.Some? ==> n == v.value
    ensures v.None? ==> n == 0
  {
    v.GetOr(0)
  }

  /** Whether a row created at `t` passes the optional `createdAt > since` filter. */
  predicate CreatedAfter(t: Timestamp, since: Option<Timestamp>) {
    since.None? || t > since.value
  }

  // ---------------------------------------------------------------------
  // Reference counts: how many joined item rows a user owns.
  // ---------------------------------------------------------------------

  /** Rows of `pool JOIN item` owned by `owner` (created after `since`, when given). */
  function PoolItemCount(rows: seq<(Pool, PoolItem)>, owner: Id, since: Option<Timestamp>): (n: nat)
    ensures n <= |rows|
    ensures n == 0 <==> forall k :: 0 <= k < |rows| ==> !(rows[k].0.ownerId == owner && CreatedAfter(rows[k].1.createdAt, since))
  {
    if rows == [] then 0
    else
      (if rows[0].0.ownerId == owner && CreatedAfter(rows[0].1.createdAt, since) then 1 else 0)
      + PoolItemCount(rows[1..], owner, since)
  }

  /** `CASE WHEN renderType = want`: no selector selects every row; NULL equals no literal. */
  predicate Selects(want: Option<string>, renderType: Option<string>) {
    want.None? || renderType == want
  }

  /** Rows of `challenge JOIN challenge_item` owned by `owner` whose render type `want` selects. */
  function ChallengeItemCount(rows: seq<(Challenge, ChallengeItem)>, owner: Id, want: Option<string>, since: Option<Timestamp>): (n: nat)
    ensures n <= |rows|
    ensures n == 0 <==> forall k :: 0 <= k < |rows| ==>
      !(rows[k].0.ownerId == owner && Selects(want, rows[k].0.renderType) && CreatedAfter(rows[k].1.createdAt, since))
  {
    if rows == [] then 0
    else
      (if rows[0].0.ownerId == owner && Selects(want, rows[0].0.renderType) && CreatedAfter(rows[0].1.createdAt, since) then 1 else 0)
      + ChallengeItemCount(rows[1..], owner, want, since)
  }

  predicate KnownRenderType(renderType: Option<string>) {
    renderType == Some(Assessment) || renderType == Some(Video) || renderType == Some(Live)
  }

  /** Rows owned by `owner` whose render type is none of the three named ones. */
  function OtherRenderTypeCount(rows: seq<(Challenge, ChallengeItem)>, owner: Id): (n: nat)
    ensures n == 0 <==> forall k :: 0 <= k < |rows| && rows[k].0.ownerId == owner ==> KnownRenderType(rows[k].0.renderType)
  {
    if rows == [] then 0
    else
      (if rows[0].0.ownerId == owner && !KnownRenderType(rows[0].0.renderType) then 1 else 0)
      + OtherRenderTypeCount(rows[1..], owner)
  }

  /** The three named render types and the rest partition a user's challenge items. */
  lemma {:induction false} RenderTypesPartition(rows: seq<(Challenge, ChallengeItem)>, owner: Id)
    ensures ChallengeItemCount(rows, owner, None, None)
         == ChallengeItemCount(rows, owner, Some(Assessment), None)
          + ChallengeItemCount(rows, owner, Some(Video), None)
          + ChallengeItemCount(rows, owner, Some(Live), None)
          + OtherRenderTypeCount(rows, owner)
  {
    if rows != [] {
      RenderTypesPartition(rows[1..], owner);
    }
  }

  // ---------------------------------------------------------------------
  // The challenge subquery: GROUP BY ownerId, renderType, then GROUP BY ownerId.
  // ---------------------------------------------------------------------

  datatype RenderGroup = RenderGroup(ownerId: Id, renderType: Option<string>, count: nat)

  ghost predicate WellGrouped(gs: seq<RenderGroup>) {
    && (forall k :: 0 <= k < |gs| ==> gs[k].count >= 1)
    && (forall i, j :: 0 <= i < j < |gs| ==> (gs[i].ownerId, gs[i].renderType) != (gs[j].ownerId, gs[j].renderType))
  }

  /** Counts one more row for the group `(owner, renderType)`, opening it if it is new. */
  function AddToGroups(gs: seq<RenderGroup>, owner: Id, renderType: Option<string>): (r: seq<RenderGroup>)
    ensures forall g :: g in r ==> g in gs || (g.ownerId, g.renderType) == (owner, renderType)
    ensures HasGroup(r, owner)
  {
    if gs == [] then [RenderGroup(owner, renderType, 1)]
    else if gs[0].ownerId == owner && gs[0].renderType == renderType then [gs[0].(count := gs[0].count + 1)] + gs[1..]
    else
      assert forall g :: g in gs[1..] ==> g in gs;
      var rest := AddToGroups(gs[1..], owner, renderType);
      assert ([gs[0]] + rest)[1..] == rest;
      [gs[0]] + rest
  }

  lemma {:induction false} AddToGroupsKeepsGrouping(gs: seq<RenderGroup>, owner: Id, renderType: Option<string>)
    requires WellGrouped(gs)
    ensures WellGrouped(AddToGroups(gs, owner, renderType))
  {
    if gs == [] {
    } else {
      TailGrouped(gs);
      if gs[0].ownerId == owner && gs[0].renderType == renderType {
        ConsKeepsGrouping(gs[0].(count := gs[0].count + 1), gs[1..]);
      } else {
        var rest := AddToGroups(gs[1..], owner, renderType);
        AddToGroupsKeepsGrouping(gs[1..], owner, renderType);
        forall k | 0 <= k < |rest| ensures (rest[k].ownerId, rest[k].renderType) != (gs[0].ownerId, gs[0].renderType) {
          assert rest[k] in rest;
          if rest[k] in gs[1..] {
            var m :| 0 <= m < |gs[1..]| && gs[1..][m] == rest[k];
            assert gs[m + 1] == rest[k];
          }
        }
        ConsKeepsGrouping(gs[0], rest);
      }
    }
  }

  lemma TailGrouped(gs: seq<RenderGroup>)
    requires gs != [] && WellGrouped(gs)
    ensures WellGrouped(gs[1..])
    ensures forall k :: 0 <= k < |gs[1..]| ==> (gs[1..][k].ownerId, gs[1..][k].renderType) != (gs[0].ownerId, gs[0].renderType)
  {
    forall k | 0 <= k < |gs[1..]| ensures (gs[1..][k].ownerId, gs[1..][k].renderType) != (gs[0].ownerId, gs[0].renderType) {
      assert gs[1..][k] == gs[k + 1];
    }
  }

  lemma ConsKeepsGrouping(h: RenderGroup, gs: seq<RenderGroup>)
    requires WellGrouped(gs) && h.count >= 1
    requires forall k :: 0 <= k < |gs| ==> (gs[k].ownerId, gs[k].renderType) != (h.ownerId, h.renderType)
    ensures WellGrouped([h] + gs)
  {
    var r := [h] + gs;
    forall i, j | 0 <= i < j < |r| ensures (r[i].ownerId, r[i].renderType) != (r[j].ownerId, r[j].renderType) {
      assert r[j] == gs[j - 1];
      if i > 0 {
        assert r[i] == gs[i - 1];
      }
    }
    forall k | 0 <= k < |r| ensures r[k].count >= 1 {
      if k > 0 {
        assert r[k] == gs[k - 1];
      }
    }
  }

  /** `SELECT ownerId, renderType, COUNT(*) ... GROUP BY ownerId, renderType` */
  function GroupByOwnerAndType(rows: seq<(Challenge, ChallengeItem)>): (gs: seq<RenderGroup>)
    ensures WellGrouped(gs)
  {
    if rows == [] then []
    else
      AddToGroupsKeepsGrouping(GroupByOwnerAndType(rows[1..]), rows[0].0.ownerId, rows[0].0.renderType);
      AddToGroups(GroupByOwnerAndType(rows[1..]), rows[0].0.ownerId, rows[0].0.renderType)
  }

  /** `SUM(CASE WHEN renderType = want THEN challenge_items ELSE 0 END)` over one owner's groups. */
  function SumGroups(gs: seq<RenderGroup>, owner: Id, want: Option<string>): (n: nat)
    ensures !HasGroup(gs, owner) ==> n == 0
  {
    if gs == [] then 0
    else (if gs[0].ownerId == owner && Selects(want, gs[0].renderType) then gs[0].count else 0) + SumGroups(gs[1..], owner, want)
  }

  /** Whether the outer `GROUP BY ownerId` has a row for `owner`. */
  function HasGroup(gs: seq<RenderGroup>, owner: Id): (b: bool)
    ensures b <==> exists k :: 0 <= k < |gs| && gs[k].ownerId == owner
  {
    assert forall k :: 1 <= k < |gs| ==> gs[k] == gs[1..][k - 1];
    gs != [] && (gs[0].ownerId == owner || HasGroup(gs[1..], owner))
  }

  lemma {:induction false} AddToGroupsSum(gs: seq<RenderGroup>, owner: Id, renderType: Option<string>, who: Id, want: Option<string>)
    ensures SumGroups(AddToGroups(gs, owner, renderType), who, want)
         == SumGroups(gs, who, want) + (if owner == who && Selects(want, renderType) then 1 else 0)
  {
    if gs != [] && !(gs[0].ownerId == owner && gs[0].renderType == renderType) {
      AddToGroupsSum(gs[1..], owner, renderType, who, want);
    }
  }

  /** The two-level aggregation counts exactly the owner's selected rows. */
  lemma {:induction false} GroupSumsCountRows(rows: seq<(Challenge, ChallengeItem)>, owner: Id, want: Option<string>)
    ensures SumGroups(GroupByOwnerAndType(rows), owner, want) == ChallengeItemCount(rows, owner, want, None)
  {
    if rows != [] {
      GroupSumsCountRows(rows[1..], owner, want);
      AddToGroupsSum(GroupByOwnerAndType(rows[1..]), rows[0].0.ownerId, rows[0].0.renderType, owner, want);
    }
  }

  lemma {:induction false} HasGroupIffPositive(gs: seq<RenderGroup>, owner: Id)
    requires WellGrouped(gs)
    ensures HasGroup(gs, owner) <==> SumGroups(gs, owner, None) > 0
  {
    if gs != [] {
      assert WellGrouped(gs[1..]) by {
        forall i, j | 0 <= i < j < |gs[1..]|
          ensures (gs[1..][i].ownerId, gs[1..][i].renderType) != (gs[1..][j].ownerId, gs[1..][j].renderType)
        {
          assert gs[1..][i] == gs[i + 1] && gs[1..][j] == gs[j + 1];
        }
      }
      HasGroupIffPositive(gs[1..], owner);
    }
  }

  /** The columns of the outer challenge subquery for one owner. */
  datatype ChallengeTotals = ChallengeTotals(assessment: nat, video: nat, live: nat, all: nat)

  /** The `c` side of the LEFT JOIN: NULL when the owner has no challenge group. */
  function ChallengeTotalsFor(gs: seq<RenderGroup>, owner: Id): (t: Option<ChallengeTotals>)
    ensures t.None? <==> forall k :: 0 <= k < |gs| ==> gs[k].ownerId != owner
    ensures t.None? ==> SumGroups(gs, owner, None) == 0
  {
    if HasGroup(gs, owner) then
      Some(ChallengeTotals(
        SumGroups(gs, owner, Some(Assessment)),
        SumGroups(gs, owner, Some(Video)),
        SumGroups(gs, owner, Some(Live)),
        SumGroups(gs, owner, None)))
    else None
  }

  // ---------------------------------------------------------------------
  // The counts query.
  // ---------------------------------------------------------------------

  /** One row of the counts query; `challenge` holds the four columns from `c`, NULL together. */
  datatype CountsRow = CountsRow(
    id: Id, username: string, email: Option<string>, googleEmail: Option<string>,
    poolItems: Option<nat>, challenge: Option<ChallengeTotals>, numItems: nat)

  function ChallengeItemsColumn(r: CountsRow): Option<nat> {
    if r.challenge.Some? then Some(r.challenge.value.all) else None
  }

  /** The counts query's row for user `u`, before the WHERE clause. */
  function CountsRowFor(db: Db, u: UserRow): (r: CountsRow)
    ensures r.id == u.id && r.username == u.username && r.email == u.email && r.googleEmail == u.googleEmail
    ensures r.poolItems.Some? ==> r.poolItems.value >= 1
    ensures r.numItems == Coalesce(r.poolItems) + Coalesce(ChallengeItemsColumn(r))
  {
    var p := PoolItemCount(PoolJoin(db.pools, db.items), u.id, None);
    var poolItems := if p == 0 then None else Some(p);
    var challenge := ChallengeTotalsFor(GroupByOwnerAndType(ChallengeJoin(db.challenges, db.challengeItems)), u.id);
    var r := CountsRow(u.id, u.username, u.email, u.googleEmail, poolItems, challenge, 0);
    r.(numItems := Coalesce(poolItems) + Coalesce(ChallengeItemsColumn(r)))
  }

  function CountsRows(db: Db): (rs: seq<CountsRow>)
    ensures |rs| == |db.users|
    ensures forall k :: 0 <= k < |rs| ==> rs[k] == CountsRowFor(db, db.users[k])
  {
    seq(|db.users|, k requires 0 <= k < |db.users| => CountsRowFor(db, db.users[k]))
  }

  /** All of `u`'s items, from both container kinds: the reference total. */
  function TotalItems(db: Db, id: Id): nat {
    PoolItemCount(PoolJoin(db.pools, db.items), id, None)
    + ChallengeItemCount(ChallengeJoin(db.challenges, db.challengeItems), id, None, None)
  }

  /**
   * `num_items` is the coalesced sum of both sides, and it equals the number
   * of the user's items; a side without rows is NULL and counts as 0.
   */
  lemma CountsRowTotals(db: Db, u: UserRow)
    ensures var r := CountsRowFor(db, u);
      && r.numItems == TotalItems(db, u.id)
      && (r.poolItems.None? <==> PoolItemCount(PoolJoin(db.pools, db.items), u.id, None) == 0)
      && Coalesce(r.poolItems) == PoolItemCount(PoolJoin(db.pools, db.items), u.id, None)
      && (r.challenge.None? <==> ChallengeItemCount(ChallengeJoin(db.challenges, db.challengeItems), u.id, None, None) == 0)
      && Coalesce(ChallengeItemsColumn(r)) == ChallengeItemCount(ChallengeJoin(db.challenges, db.challengeItems), u.id, None, None)
  {
    var rows := ChallengeJoin(db.challenges, db.challengeItems);
    GroupSumsCountRows(rows, u.id, None);
    HasGroupIffPositive(GroupByOwnerAndType(rows), u.id);
  }

  /**
   * Each sub-total counts the user's challenge items of that one render
   * type; together they fall short of `challenge_items` by exactly the items
   * of any other render type.
   */
  lemma SubtotalsPartitionChallengeItems(db: Db, u: UserRow)
    ensures var r := CountsRowFor(db, u);
      var rows := ChallengeJoin(db.challenges, db.challengeItems);
      r.challenge.Some? ==>
        && r.challenge.value.assessment == ChallengeItemCount(rows, u.id, Some(Assessment), None)
        && r.challenge.value.video == ChallengeItemCount(rows, u.id, Some(Video), None)
        && r.challenge.value.live == ChallengeItemCount(rows, u.id, Some(Live), None)
        && r.challenge.value.assessment + r.challenge.value.video + r.challenge.value.live
           + OtherRenderTypeCount(rows, u.id) == r.challenge.value.all
        && (r.challenge.value.assessment + r.challenge.value.video + r.challenge.value.live == r.challenge.value.all
            <==> forall k :: 0 <= k < |rows| && rows[k].0.ownerId == u.id ==> KnownRenderType(rows[k].0.renderType))
  {
    var rows := ChallengeJoin(db.challenges, db.challengeItems);
    GroupSumsCountRows(rows, u.id, None);
    GroupSumsCountRows(rows, u.id, Some(Assessment));
    GroupSumsCountRows(rows, u.id, Some(Video));
    GroupSumsCountRows(rows, u.id, Some(Live));
    RenderTypesPartition(rows, u.id);
  }

  predicate AboveThreshold(r: CountsRow) {
    r.numItems > MinItems
  }

  function NumItems(r: CountsRow): int {
    r.numItems
  }

  /** `WHERE num_items > 10 ORDER BY num_items DESC` */
  function RankedRows(db: Db): (ranked: seq<CountsRow>)
    ensures |ranked| <= |db.users|
    ensures forall r :: r in ranked <==> r in CountsRows(db) && r.numItems > MinItems
  {
    Relational.SortedFilterMembers(CountsRows(db), AboveThreshold, NumItems);
    Relational.SortDesc(Relational.Filter(CountsRows(db), AboveThreshold), NumItems)
  }

  /**
   * The ranked rows are exactly the users with more than ten items (a user
   * with exactly ten is left out), each once, by non-increasing total.
   */
  lemma RankedIsThresholdedAndOrdered(db: Db)
    ensures var ranked := RankedRows(db);
      && (forall u :: u in db.users ==> (CountsRowFor(db, u) in ranked <==> TotalItems(db, u.id) > MinItems))
      && (forall r :: r in ranked ==> r in CountsRows(db) && r.numItems > MinItems)
      && (forall i, j :: 0 <= i < j < |ranked| ==> ranked[i].numItems >= ranked[j].numItems)
      && multiset(ranked) == multiset(Relational.Filter(CountsRows(db), AboveThreshold))
  {
    var ranked := RankedRows(db);
    Relational.SortedFilterMembers(CountsRows(db), AboveThreshold, NumItems);
    forall u | u in db.users
      ensures CountsRowFor(db, u) in ranked <==> TotalItems(db, u.id) > MinItems
    {
      CountsRowTotals(db, u);
      CountsRowListed(db, u);
    }
    assert Relational.NonIncreasing(ranked, NumItems);
    forall i, j | 0 <= i < j < |ranked| ensures ranked[i].numItems >= ranked[j].numItems {
      assert NumItems(ranked[i]) >= NumItems(ranked[j]);
    }
  }

  lemma CountsRowListed(db: Db, u: UserRow)
    requires u in db.users
    ensures CountsRowFor(db, u) in CountsRows(db)
  {
    var k :| 0 <= k < |db.users| && db.users[k] == u;
    assert CountsRows(db)[k] == CountsRowFor(db, u);
  }

  // ---------------------------------------------------------------------
  // The recent-counts query.
  // ---------------------------------------------------------------------

  datatype RecentRow = RecentRow(id: Id, poolItems: Option<nat>, challengeItems: Option<nat>, numItems: nat)

  /** The recent-counts query's row for user `u`: only items created after `cutoff`. */
  function RecentRowFor(db: Db, u: UserRow, cutoff: Timestamp): (r: RecentRow)
    ensures r.id == u.id
    ensures r.poolItems.Some? ==> r.poolItems.value >= 1
    ensures r.challengeItems.Some? ==> r.challengeItems.value >= 1
    ensures r.numItems == Coalesce(r.poolItems) + Coalesce(r.challengeItems)
  {
    var p := PoolItemCount(PoolJoin(db.pools, db.items), u.id, Some(cutoff));
    var c := ChallengeItemCount(ChallengeJoin(db.challenges, db.challengeItems), u.id, None, Some(cutoff));
    var poolItems := if p == 0 then None else Some(p);
    var challengeItems := if c == 0 then None else Some(c);
    RecentRow(u.id, poolItems, challengeItems, Coalesce(poolItems) + Coalesce(challengeItems))
  }

  function AllRecentRows(db: Db, cutoff: Timestamp): (rs: seq<RecentRow>)
    ensures |rs| == |db.users|
    ensures forall k :: 0 <= k < |rs| ==> rs[k] == RecentRowFor(db, db.users[k], cutoff)
  {
    seq(|db.users|, k requires 0 <= k < |db.users| => RecentRowFor(db, db.users[k], cutoff))
  }

  predicate HasRecentItems(r: RecentRow) {
    r.numItems >= 1
  }

  /** Negated so that `SortDesc` yields `ORDER BY num_items ASC`. */
  function NegatedNumItems(r: RecentRow): int {
    0 - r.numItems as int
  }

  /** `WHERE num_items >= 1 ORDER BY num_items ASC` */
  function RecentRows(db: Db, cutoff: Timestamp): (recent: seq<RecentRow>)
    ensures |recent| <= |db.users|
    ensures forall r :: r in recent <==> r in AllRecentRows(db, cutoff) && r.numItems >= 1
  {
    Relational.SortedFilterMembers(AllRecentRows(db, cutoff), HasRecentItems, NegatedNumItems);
    Relational.SortDesc(Relational.Filter(AllRecentRows(db, cutoff), HasRecentItems), NegatedNumItems)
  }

  /** A user's recent count: items of either kind created after `cutoff`. */
  function RecentItems(db: Db, id: Id, cutoff: Timestamp): nat {
    PoolItemCount(PoolJoin(db.pools, db.items), id, Some(cutoff))
    + ChallengeItemCount(ChallengeJoin(db.challenges, db.challengeItems), id, None, Some(cutoff))
  }

  /** Every recent row is a user's, with at least one recent item, and carries that user's recent count. */
  lemma RecentRowsCarryCounts(db: Db, cutoff: Timestamp)
    ensures forall r :: r in RecentRows(db, cutoff) ==> r.numItems >= 1 && r.numItems == RecentItems(db, r.id, cutoff)
    ensures forall r :: r in RecentRows(db, cutoff) ==> exists u :: u in db.users && u.id == r.id
  {
    var all := AllRecentRows(db, cutoff);
    Relational.SortedFilterMembers(all, HasRecentItems, NegatedNumItems);
    forall r | r in RecentRows(db, cutoff)
      ensures r.numItems == RecentItems(db, r.id, cutoff) && exists u :: u in db.users && u.id == r.id
    {
      assert r in all;
      var k :| 0 <= k < |all| && all[k] == r;
      var u := db.users[k];
      RecentRowCount(db, u, cutoff);
      assert u in db.users && u.id == r.id;
    }
  }

  lemma RecentRowCount(db: Db, u: UserRow, cutoff: Timestamp)
    ensures RecentRowFor(db, u, cutoff).id == u.id
    ensures RecentRowFor(db, u, cutoff).numItems == RecentItems(db, u.id, cutoff)
  {
  }

  /** Every user with at least one recent item has a recent row. */
  lemma RecentRowsCoverUsers(db: Db, cutoff: Timestamp)
    ensures forall u :: u in db.users && RecentItems(db, u.id, cutoff) >= 1 ==> RecentRowFor(db, u, cutoff) in RecentRows(db, cutoff)
  {
    var all := AllRecentRows(db, cutoff);
    Relational.SortedFilterMembers(all, HasRecentItems, NegatedNumItems);
    forall u | u in db.users && RecentItems(db, u.id, cutoff) >= 1
      ensures RecentRowFor(db, u, cutoff) in RecentRows(db, cutoff)
    {
      var k :| 0 <= k < |db.users| && db.users[k] == u;
      assert all[k] == RecentRowFor(db, u, cutoff);
    }
  }

  /** `ORDER BY num_items ASC`: the recent rows come by non-decreasing count. */
  lemma RecentRowsAscending(db: Db, cutoff: Timestamp)
    ensures var recent := RecentRows(db, cutoff);
      forall i, j :: 0 <= i < j < |recent| ==> recent[i].numItems <= recent[j].numItems
  {
    var recent := RecentRows(db, cutoff);
    assert Relational.NonIncreasing(recent, NegatedNumItems);
    forall i, j | 0 <= i < j < |recent| ensures recent[i].numItems <= recent[j].numItems {
      assert NegatedNumItems(recent[i]) >= NegatedNumItems(recent[j]);
    }
  }
}
