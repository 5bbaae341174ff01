/**
 * getUserData (src/createZipFiles.ts:174-271): the ranked rows become User
 * records in a keyed table, the recent counts are patched into that table
 * for users already in it, and the table's values are returned in insertion
 * order.
 */
module UserData {
  import opened Wrappers
  import opened Tables
  import opened Ranking
  import Relational

  datatype ItemCounts = ItemCounts(
    all: nat, poolItems: nat, challengeItems: nat,
    assessmentItems: nat, liveItems: nat, videoItems: nat)

  datatype User = User(
    id: Id, username: string, email: Option<string>, googleEmail: Option<string>,
    itemCounts: ItemCounts, recentItemCount: nat)

  /**
   * A ranked row as a User.  JavaScript's `Number(null)` is 0, so a NULL
   * column becomes 0 exactly as `COALESCE(x, 0)` would make it.
   */
  function ToUser(r: CountsRow): (u: User)
    ensures u.id == r.id && u.username == r.username
    ensures u.email == r.email && u.googleEmail == r.googleEmail
    ensures u.recentItemCount == 0
  {
    var c := if r.challenge.Some? then r.challenge.value else ChallengeTotals(0, 0, 0, 0);
    User(r.id, r.username, r.email, r.googleEmail,
      ItemCounts(r.numItems, Coalesce(r.poolItems), c.all, c.assessment, c.live, c.video),
      0)
  }

  /**
   * Each count a User carries is the matching column of its row, and so the
   * number of the user's items of that kind: `poolItems` the pool items,
   * `challengeItems` the challenge items, and `assessmentItems`,
   * `liveItems` and `videoItems` the challenge items of that render type
   * (all 0 when the column is NULL).  Hence the total is the sum of both
   * container kinds, and the three render-type counts never exceed
   * `challengeItems`.
   */
  lemma UserCountsConsistent(db: Db, u: UserRow)
    ensures var c := ToUser(CountsRowFor(db, u)).itemCounts;
      var rows := ChallengeJoin(db.challenges, db.challengeItems);
      && c.all == TotalItems(db, u.id)
      && c.poolItems == PoolItemCount(PoolJoin(db.pools, db.items), u.id, None)
      && c.challengeItems == ChallengeItemCount(rows, u.id, None, None)
      && c.assessmentItems == ChallengeItemCount(rows, u.id, Some(Assessment), None)
      && c.liveItems == ChallengeItemCount(rows, u.id, Some(Live), None)
      && c.videoItems == ChallengeItemCount(rows, u.id, Some(Video), None)
      && c.all == c.poolItems + c.challengeItems
      && c.assessmentItems + c.liveItems + c.videoItems <= c.challengeItems
  {
    var rows := ChallengeJoin(db.challenges, db.challengeItems);
    CountsRowTotals(db, u);
    SubtotalsPartitionChallengeItems(db, u);
    if CountsRowFor(db, u).challenge.None? {
      ZeroCountSelectsNone(rows, u.id, Some(Assessment));
      ZeroCountSelectsNone(rows, u.id, Some(Live));
      ZeroCountSelectsNone(rows, u.id, Some(Video));
    }
  }

  /** A user with no challenge items has none of any one render type. */
  lemma ZeroCountSelectsNone(rows: seq<(Challenge, ChallengeItem)>, owner: Id, want: Option<string>)
    requires ChallengeItemCount(rows, owner, None, None) == 0
    ensures ChallengeItemCount(rows, owner, want, None) == 0
  {
  }

  /** The `Record<string, User>` that getUserData fills and patches in place. */
  class UserTable {
    var order: seq<Id>
    var entries: map<Id, User>

    ghost predicate Valid()
      reads this
    {
      && (forall id :: id in entries <==> id in order)
      && Relational.DistinctBy(order, (id: Id) => id)
    }

    /** `const userData: Record<string, User> = {}` */
    constructor ()
      ensures Valid() && order == [] && entries == map[]
    {
      order := [];
      entries := map[];
    }

    /** `userData[user.id] = user`: a new key goes last; an existing key keeps its place. */
    method Put(user: User)
      requires Valid()
      modifies this
      ensures Valid()
      ensures entries == old(entries)[user.id := user]
      ensures order == if user.id in old(entries) then old(order) else old(order) + [user.id]
    {
      if user.id !in entries {
        order := order + [user.id];
      }
      entries := entries[user.id := user];
    }

    /** `userData[id] != null` */
    function Contains(id: Id): (b: bool)
      reads this
      ensures Valid() ==> (b <==> id in order)
    {
      id in entries
    }

    /** `userData[id].recentItemCount = n`; the entry must exist. */
    method SetRecentItemCount(id: Id, n: nat)
      requires Valid() && id in entries
      modifies this
      ensures Valid() && order == old(order)
      ensures entries == old(entries)[id := old(entries)[id].(recentItemCount := n)]
    {
      entries := entries[id := entries[id].(recentItemCount := n)];
    }

    /** `Object.values(userData)`: one value per key, in insertion order. */
    function Values(): (vs: seq<User>)
      reads this
      requires Valid()
      ensures |vs| == |order|
      ensures forall k :: 0 <= k < |vs| ==> order[k] in entries && vs[k] == entries[order[k]]
    {
      seq(|order|, k reads this requires 0 <= k < |order| && Valid() => entries[order[k]])
    }
  }

  // ---------------------------------------------------------------------
  // The table's contents, as functions of the query results.
  // ---------------------------------------------------------------------

  /** The table's entries after the `forEach` over `rows`: the last row of an id wins. */
  function FillEntries(rows: seq<CountsRow>): (m: map<Id, User>)
    ensures forall id :: id in m <==> exists k :: 0 <= k < |rows| && rows[k].id == id
    ensures forall id :: id in m ==> m[id].id == id
  {
    if rows == [] then map[]
    else
      var prev := rows[..|rows| - 1];
      var m := FillEntries(prev);
      assert forall k :: 0 <= k < |prev| ==> prev[k] == rows[k];
      m[rows[|rows| - 1].id := ToUser(rows[|rows| - 1])]
  }

  /** The table's key order after the `forEach` over `rows`: first occurrence of each id. */
  function FillOrder(rows: seq<CountsRow>): (order: seq<Id>)
    ensures forall id :: id in order <==> id in FillEntries(rows)
    ensures Relational.DistinctBy(order, (id: Id) => id)
    ensures |order| <= |rows|
  {
    if rows == [] then []
    else
      var prev := rows[..|rows| - 1];
      var last := rows[|rows| - 1];
      if last.id in FillEntries(prev) then FillOrder(prev) else FillOrder(prev) + [last.id]
  }

  /** The count the last recent row for `id` carries, or `default` when there is none. */
  function LastRecentCount(recent: seq<RecentRow>, id: Id, default: nat): (n: nat)
    ensures (forall k :: 0 <= k < |recent| ==> recent[k].id != id) ==> n == default
  {
    if recent == [] then default
    else if recent[|recent| - 1].id == id then recent[|recent| - 1].numItems
    else LastRecentCount(recent[..|recent| - 1], id, default)
  }

  /**
   * The entries after the second `forEach`: the merge never adds a key, and
   * of each entry it changes nothing but `recentItemCount`, which takes the
   * last recent row of that id, or stays as it was when there is none.
   */
  function Patch(entries: map<Id, User>, recent: seq<RecentRow>): (m: map<Id, User>)
    ensures m.Keys == entries.Keys
    ensures forall id :: id in entries ==>
      m[id] == entries[id].(recentItemCount := LastRecentCount(recent, id, entries[id].recentItemCount))
  {
    if recent == [] then entries
    else
      var prev := Patch(entries, recent[..|recent| - 1]);
      var row := recent[|recent| - 1];
      if row.id in prev then prev[row.id := prev[row.id].(recentItemCount := row.numItems)] else prev
  }

  lemma PatchedEntriesKeepIds(ranked: seq<CountsRow>, recent: seq<RecentRow>)
    ensures var entries := Patch(FillEntries(ranked), recent);
      forall id :: id in FillOrder(ranked) ==> id in entries && entries[id].id == id
  {
  }

  /** The list getUserData returns for the given ranked and recent rows. */
  function UserList(ranked: seq<CountsRow>, recent: seq<RecentRow>): (users: seq<User>)
    ensures |users| <= |ranked|
    ensures forall k :: 0 <= k < |users| ==> exists j :: 0 <= j < |ranked| && ranked[j].id == users[k].id
    ensures forall i, j :: 0 <= i < j < |users| ==> users[i].id != users[j].id
  {
    var order := FillOrder(ranked);
    var entries := Patch(FillEntries(ranked), recent);
    PatchedEntriesKeepIds(ranked, recent);
    seq(|order|, k requires 0 <= k < |order| => entries[order[k]])
  }

  /** The first `forEach`: one `Put` per ranked row, into an empty table. */
  method Fill(table: UserTable, ranked: seq<CountsRow>)
    requires table.Valid() && table.order == [] && table.entries == map[]
    modifies table
    ensures table.Valid()
    ensures table.order == FillOrder(ranked) && table.entries == FillEntries(ranked)
  {
    for i := 0 to |ranked|
      invariant table.Valid()
      invariant table.order == FillOrder(ranked[..i])
      invariant table.entries == FillEntries(ranked[..i])
    {
      assert ranked[..i + 1][..i] == ranked[..i];
      table.Put(ToUser(ranked[i]));
    }
    assert ranked[..|ranked|] == ranked;
  }

  /** The second `forEach`: patch the recent count of every id already in the table. */
  method Merge(table: UserTable, recent: seq<RecentRow>)
    requires table.Valid()
    modifies table
    ensures table.Valid()
    ensures table.order == old(table.order)
    ensures table.entries == Patch(old(table.entries), recent)
  {
    for j := 0 to |recent|
      invariant table.Valid()
      invariant table.order == old(table.order)
      invariant table.entries == Patch(old(table.entries), recent[..j])
    {
      assert recent[..j + 1][..j] == recent[..j];
      var row := recent[j];
      if table.Contains(row.id) {
        table.SetRecentItemCount(row.id, row.numItems);
      }
    }
    assert recent[..|recent|] == recent;
  }

  /** getUserData: fill the table from the ranked rows, patch in the recent counts, list it. */
  method GetUserData(db: Db) returns (users: seq<User>)
    ensures users == UserList(RankedRows(db), RecentRows(db, RecentCutoff))
  {
    var table := new UserTable();
    Fill(table, RankedRows(db));
    Merge(table, RecentRows(db, RecentCutoff));
    users := table.Values();
  }

  // ---------------------------------------------------------------------
  // What the returned list is.
  // ---------------------------------------------------------------------

  function RowId(r: CountsRow): Id {
    r.id
  }

  /** With distinct ids, filling makes one entry per row, in row order. */
  lemma {:induction false} FillDistinct(rows: seq<CountsRow>)
    requires Relational.DistinctBy(rows, RowId)
    ensures |FillOrder(rows)| == |rows|
    ensures forall k :: 0 <= k < |rows| ==> FillOrder(rows)[k] == rows[k].id
    ensures forall k :: 0 <= k < |rows| ==> rows[k].id in FillEntries(rows) && FillEntries(rows)[rows[k].id] == ToUser(rows[k])
  {
    if rows != [] {
      var prev := rows[..|rows| - 1];
      var last := rows[|rows| - 1];
      assert Relational.DistinctBy(prev, RowId) by {
        forall i, j | 0 <= i < j < |prev| ensures RowId(prev[i]) != RowId(prev[j]) {
          assert prev[i] == rows[i] && prev[j] == rows[j];
        }
      }
      FillDistinct(prev);
      forall k | 0 <= k < |prev| ensures prev[k].id != last.id {
        assert prev[k] == rows[k];
        assert RowId(rows[k]) != RowId(rows[|rows| - 1]);
      }
      assert last.id !in FillEntries(prev);
      assert FillOrder(rows) == FillOrder(prev) + [last.id];
      assert FillEntries(rows) == FillEntries(prev)[last.id := ToUser(last)];
      forall k | 0 <= k < |rows| - 1
        ensures FillOrder(rows)[k] == rows[k].id
        ensures FillEntries(rows)[rows[k].id] == ToUser(rows[k])
      {
        assert prev[k] == rows[k];
      }
    }
  }

  /**
   * With distinct ids, the returned list has one user per ranked row, in
   * ranked order, each carrying its recent count (0 when it has none).
   */
  lemma UserListFollowsRanking(ranked: seq<CountsRow>, recent: seq<RecentRow>)
    requires Relational.DistinctBy(ranked, RowId)
    ensures var users := UserList(ranked, recent);
      && |users| == |ranked|
      && forall k :: 0 <= k < |ranked| ==>
           users[k] == ToUser(ranked[k]).(recentItemCount := LastRecentCount(recent, ranked[k].id, 0))
  {
    FillDistinct(ranked);
  }

  /** When every recent row of `id` carries `v`, the merge reads `v` if there is such a row. */
  lemma {:induction false} LastRecentCountUniform(recent: seq<RecentRow>, id: Id, v: nat, default: nat)
    requires forall k :: 0 <= k < |recent| && recent[k].id == id ==> recent[k].numItems == v
    ensures LastRecentCount(recent, id, default) == if exists k :: 0 <= k < |recent| && recent[k].id == id then v else default
  {
    if recent != [] && recent[|recent| - 1].id != id {
      var prev := recent[..|recent| - 1];
      assert forall k :: 0 <= k < |prev| ==> prev[k] == recent[k];
      LastRecentCountUniform(prev, id, v, default);
    }
  }

  /** Ranked rows inherit distinct ids from the user table. */
  lemma RankedIdsDistinct(db: Db)
    requires forall i, j :: 0 <= i < j < |db.users| ==> db.users[i].id != db.users[j].id
    ensures Relational.DistinctBy(RankedRows(db), RowId)
  {
    var rows := CountsRows(db);
    assert Relational.DistinctBy(rows, RowId) by {
      forall i, j | 0 <= i < j < |rows| ensures RowId(rows[i]) != RowId(rows[j]) {
        assert rows[i].id == db.users[i].id && rows[j].id == db.users[j].id;
      }
    }
    Relational.FilterDistinct(rows, AboveThreshold, RowId);
    Relational.SortDescDistinct(Relational.Filter(rows, AboveThreshold), NumItems, RowId);
  }

  /**
   * End to end, for a store whose user ids are distinct: getUserData lists
   * exactly the ranked users, in ranked order, each with its counts and with
   * its number of items created after the cutoff.
   */
  lemma ExportedUsersAreRankedUsers(db: Db)
    requires forall i, j :: 0 <= i < j < |db.users| ==> db.users[i].id != db.users[j].id
    ensures var ranked := RankedRows(db);
      var users := UserList(ranked, RecentRows(db, RecentCutoff));
      && |users| == |ranked|
      && forall k :: 0 <= k < |ranked| ==>
           users[k] == ToUser(ranked[k]).(recentItemCount := RecentItems(db, ranked[k].id, RecentCutoff))
  {
    var ranked := RankedRows(db);
    var recent := RecentRows(db, RecentCutoff);
    RankedIdsDistinct(db);
    UserListFollowsRanking(ranked, recent);
    RankedIsThresholdedAndOrdered(db);
    forall k | 0 <= k < |ranked|
      ensures LastRecentCount(recent, ranked[k].id, 0) == RecentItems(db, ranked[k].id, RecentCutoff)
    {
      assert ranked[k] in ranked;
      RecentCountOfRankedRow(db, ranked[k]);
    }
  }

  /** The count the merge reads for a user is that user's number of recent items. */
  lemma RecentCountOfRankedRow(db: Db, r: CountsRow)
    requires r in CountsRows(db)
    ensures LastRecentCount(RecentRows(db, RecentCutoff), r.id, 0) == RecentItems(db, r.id, RecentCutoff)
  {
    var i :| 0 <= i < |db.users| && CountsRows(db)[i] == r;
    assert db.users[i] in db.users;
    RecentCountOfUser(db, db.users[i]);
  }

  lemma RecentCountOfUser(db: Db, u: UserRow)
    requires u in db.users
    ensures LastRecentCount(RecentRows(db, RecentCutoff), u.id, 0) == RecentItems(db, u.id, RecentCutoff)
  {
    var recent := RecentRows(db, RecentCutoff);
    var v := RecentItems(db, u.id, RecentCutoff);
    RecentRowsCarryCounts(db, RecentCutoff);
    forall m | 0 <= m < |recent| && recent[m].id == u.id ensures recent[m].numItems == v {
      assert recent[m] in recent;
    }
    LastRecentCountUniform(recent, u.id, v, 0);
    if v >= 1 {
      RecentRowsCoverUsers(db, RecentCutoff);
      RecentRowCount(db, u, RecentCutoff);
      var row := RecentRowFor(db, u, RecentCutoff);
      assert row in recent;
      var m :| 0 <= m < |recent| && recent[m] == row;
      assert recent[m].id == u.id;
    }
  }
}
