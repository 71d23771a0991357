/**
 * The leaderboard page: completed progress rows and certificate rows are
 * folded into one entry per learner (rows counted, mean score rounded,
 * certificates counted), then ranked descending by the selected key with a
 * stable sort; the page re-sorts its list when the key changes and shows
 * community totals summed over the list.
 */
module Leaderboard {
  import opened Types
  import opened Collections
  import opened Ranking

  /** A row of the progress query: the learner, their name from the joined users row, the score and the flag. */
  datatype ProgressRow = ProgressRow(user_id: string, full_name: string, score: Option<real>, completed: bool)

  datatype CertificateRow = CertificateRow(user_id: string)

  /** A learner's entry while the rows are being folded: the score is still a sum. */
  datatype UserStats = UserStats(id: string, full_name: string, total_score: real, completed_courses: int)

  /** A ranked entry: the score is the rounded mean, `completed_courses` the number of completed rows. */
  datatype LeaderboardUser = LeaderboardUser(
    id: string,
    full_name: string,
    total_score: int,
    completed_courses: int,
    certificates: int)

  datatype SortBy = ByScore | ByCourses | ByCertificates

  function RowUser(r: ProgressRow): string { r.user_id }
  function CertUser(c: CertificateRow): string { c.user_id }
  predicate RowCompleted(r: ProgressRow) { r.completed }

  /** A row's contribution to the score sum: a missing score adds 0. */
  function RowScore(r: ProgressRow): real {
    if r.score.Some? then r.score.value else 0.0
  }

  function ScoreKey(u: LeaderboardUser): int { u.total_score }
  function CoursesKey(u: LeaderboardUser): int { u.completed_courses }
  function CertificatesKey(u: LeaderboardUser): int { u.certificates }
  predicate HasCompletions(u: LeaderboardUser) { u.completed_courses > 0 }

  /** The comparator's key: score unless courses or certificates are selected. */
  function KeyFor(sortBy: SortBy): LeaderboardUser -> int {
    match sortBy
    case ByCourses => CoursesKey
    case ByCertificates => CertificatesKey
    case ByScore => ScoreKey
  }

  /** `Math.round`: the nearest integer, halves rounded up. */
  function Round(x: real): (r: int)
    ensures x - 0.5 < r as real <= x + 0.5
  {
    (x + 0.5).Floor
  }

  /** A dictionary read with `|| 0`: an absent key reads as 0. */
  function Lookup(m: map<string, int>, k: string): int {
    if k in m then m[k] else 0
  }

  /** The progress query keeps the completed rows only, every copy of each, in table order. */
  function CompletedRows(table: seq<ProgressRow>): (r: seq<ProgressRow>)
    ensures SubsequenceOf(r, table)
    ensures forall i :: 0 <= i < |r| ==> r[i].completed
    ensures forall i :: 0 <= i < |table| && table[i].completed ==> table[i] in r
    ensures forall x :: multiset(r)[x] == if x.completed then multiset(table)[x] else 0
  {
    FilterMultiset(table, RowCompleted);
    Filter(table, RowCompleted)
  }

  /** The learners of the rows, in order of their first row. */
  function Users(rows: seq<ProgressRow>): seq<string> {
    DistinctKeys(rows, RowUser)
  }

  /**
   * The reference entry of learner `u`: the name from the first row, the
   * rounded mean of the row scores, the number of rows and of certificates.
   */
  function Entry(rows: seq<ProgressRow>, certs: seq<CertificateRow>, u: string): LeaderboardUser
    requires |Where(rows, RowUser, u)| > 0
  {
    var mine := Where(rows, RowUser, u);
    LeaderboardUser(u, mine[0].full_name, Round(SumReal(mine, RowScore) / |mine| as real), |mine|,
                    |Where(certs, CertUser, u)|)
  }

  ghost predicate AllHaveRows(keys: seq<string>, rows: seq<ProgressRow>) {
    forall j :: 0 <= j < |keys| ==> |Where(rows, RowUser, keys[j])| > 0
  }

  /** The entries of the learners `keys`, in that order. */
  function EntriesFor(keys: seq<string>, rows: seq<ProgressRow>, certs: seq<CertificateRow>): (es: seq<LeaderboardUser>)
    requires AllHaveRows(keys, rows)
    ensures |es| == |keys|
    ensures forall j :: 0 <= j < |keys| ==> es[j] == Entry(rows, certs, keys[j])
    decreases |keys|
  {
    if keys == [] then []
    else
      var front := keys[..|keys| - 1];
      assert forall j :: 0 <= j < |front| ==> front[j] == keys[j];
      EntriesFor(front, rows, certs) + [Entry(rows, certs, keys[|keys| - 1])]
  }

  lemma UsersHaveRows(rows: seq<ProgressRow>)
    ensures AllHaveRows(Users(rows), rows)
  {
    forall j | 0 <= j < |Users(rows)| ensures |Where(rows, RowUser, Users(rows)[j])| > 0 {
      WhereNonEmpty(rows, RowUser, Users(rows)[j]);
    }
  }

  /** One entry per learner with a row, in order of the learners' first rows. */
  function Entries(rows: seq<ProgressRow>, certs: seq<CertificateRow>): seq<LeaderboardUser> {
    UsersHaveRows(rows);
    EntriesFor(Users(rows), rows, certs)
  }

  /** The list the page shows: entries with completed rows, stably sorted descending by the key. */
  function Ranked(rows: seq<ProgressRow>, certs: seq<CertificateRow>, sortBy: SortBy): seq<LeaderboardUser> {
    SortDesc(Filter(Entries(rows, certs), HasCompletions), KeyFor(sortBy))
  }

  /** The fold of the completed rows kept in the dictionary entry of learner `u`. */
  ghost predicate StatsHold(st: UserStats, rows: seq<ProgressRow>, u: string) {
    var mine := Where(rows, RowUser, u);
    |mine| > 0 && st.id == u && st.full_name == mine[0].full_name
    && st.total_score == SumReal(mine, RowScore) && st.completed_courses == |mine|
  }

  /**
   * The first pass of the aggregation: a dictionary entry per learner,
   * created with the name of the learner's first row, adding each row's
   * score (missing as 0) and counting each row. `order` is the dictionary's
   * key order, which is insertion order.
   */
  method FoldProgress(progressData: seq<ProgressRow>) returns (userStats: map<string, UserStats>, order: seq<string>)
    ensures FoldInv(progressData, userStats, order)
  {
    userStats, order := map[], [];
    for i := 0 to |progressData|
      invariant FoldInv(progressData[..i], userStats, order)
    {
      PrefixSnoc(progressData, i);
      userStats, order := AddProgressRow(userStats, order, progressData[i], progressData[..i]);
    }
    PrefixAll(progressData);
  }

  /**
   * The `forEach` callback of the first pass: creates the learner's entry on
   * their first row, then adds the row's score and counts the row.
   */
  method AddProgressRow(userStats: map<string, UserStats>, order: seq<string>, progress: ProgressRow,
                        ghost before: seq<ProgressRow>)
    returns (userStats': map<string, UserStats>, order': seq<string>)
    requires FoldInv(before, userStats, order)
    ensures FoldInv(before + [progress], userStats', order')
  {
    userStats', order' := userStats, order;
    var userId := progress.user_id;
    var userName := progress.full_name;
    if userId !in userStats' {
      userStats' := userStats'[userId := UserStats(userId, userName, 0.0, 0)];
      order' := order' + [userId];
    }
    var st := userStats'[userId];
    userStats' := userStats'[userId := st.(total_score := st.total_score + RowScore(progress),
                                           completed_courses := st.completed_courses + 1)];
    assert userStats' == userStats[userId := st.(total_score := st.total_score + RowScore(progress),
                                                 completed_courses := st.completed_courses + 1)];
    FoldStep(before, progress, userStats, order, st);
  }

  /** The first pass's dictionary and key order after folding `rows`. */
  ghost predicate FoldInv(rows: seq<ProgressRow>, userStats: map<string, UserStats>, order: seq<string>) {
    KeysInv(rows, userStats, order) && StatsInv(rows, userStats)
  }

  /** The dictionary's keys, in insertion order, are the learners of the rows. */
  ghost predicate KeysInv(rows: seq<ProgressRow>, userStats: map<string, UserStats>, order: seq<string>) {
    order == Users(rows) && forall u :: u in userStats <==> u in order
  }

  /** Every dictionary entry is the fold of its learner's rows. */
  ghost predicate StatsInv(rows: seq<ProgressRow>, userStats: map<string, UserStats>) {
    forall u :: u in userStats ==> StatsHold(userStats[u], rows, u)
  }

  /** One iteration of the first pass keeps its invariant. */
  lemma FoldStep(before: seq<ProgressRow>, x: ProgressRow, prev: map<string, UserStats>, order: seq<string>, st: UserStats)
    requires FoldInv(before, prev, order)
    requires st == if x.user_id in prev then prev[x.user_id] else UserStats(x.user_id, x.full_name, 0.0, 0)
    ensures FoldInv(before + [x],
                    prev[x.user_id := st.(total_score := st.total_score + RowScore(x),
                                          completed_courses := st.completed_courses + 1)],
                    if x.user_id in prev then order else order + [x.user_id])
  {
    var next := prev[x.user_id := st.(total_score := st.total_score + RowScore(x),
                                      completed_courses := st.completed_courses + 1)];
    KeysStep(before, x, prev, order, next);
    StatsInvStep(before, x, prev, order, st);
  }

  lemma KeysStep(before: seq<ProgressRow>, x: ProgressRow, prev: map<string, UserStats>, order: seq<string>,
                 next: map<string, UserStats>)
    requires KeysInv(before, prev, order)
    requires next.Keys == prev.Keys + {x.user_id}
    ensures KeysInv(before + [x], next, if x.user_id in prev then order else order + [x.user_id])
  {
    UsersAppend(before, x);
  }

  lemma StatsInvStep(before: seq<ProgressRow>, x: ProgressRow, prev: map<string, UserStats>, order: seq<string>, st: UserStats)
    requires KeysInv(before, prev, order) && StatsInv(before, prev)
    requires st == if x.user_id in prev then prev[x.user_id] else UserStats(x.user_id, x.full_name, 0.0, 0)
    ensures StatsInv(before + [x], prev[x.user_id := st.(total_score := st.total_score + RowScore(x),
                                                         completed_courses := st.completed_courses + 1)])
  {
    var next := prev[x.user_id := st.(total_score := st.total_score + RowScore(x),
                                      completed_courses := st.completed_courses + 1)];
    if x.user_id !in prev {
      WhereNonEmpty(before, RowUser, x.user_id);
    }
    forall u | u in next ensures StatsHold(next[u], before + [x], u) {
      if u != x.user_id {
        StatsOther(prev[u], before, x, u);
      } else {
        StatsStep(st, before, x);
      }
    }
  }

  /** Adding a row to its learner's entry keeps the entry the fold of the longer prefix. */
  lemma StatsStep(st: UserStats, before: seq<ProgressRow>, x: ProgressRow)
    requires st.id == x.user_id
    requires StatsHold(st, before, st.id)
      || (|Where(before, RowUser, st.id)| == 0 && st == UserStats(st.id, x.full_name, 0.0, 0))
    ensures StatsHold(st.(total_score := st.total_score + RowScore(x), completed_courses := st.completed_courses + 1),
                      before + [x], st.id)
  {
    var mine := Where(before, RowUser, st.id);
    var mine' := Where(before + [x], RowUser, st.id);
    WhereAppend(before, x, RowUser, st.id);
    assert mine' == mine + [x];
    assert mine'[..|mine|] == mine;
    assert SumReal(mine', RowScore) == SumReal(mine, RowScore) + RowScore(x);
    if |mine| == 0 {
      assert mine'[0] == x;
    } else {
      assert mine'[0] == mine[0];
    }
  }

  /** A row of another learner leaves an entry the fold of the longer prefix. */
  lemma StatsOther(st: UserStats, before: seq<ProgressRow>, x: ProgressRow, u: string)
    requires x.user_id != u && StatsHold(st, before, u)
    ensures StatsHold(st, before + [x], u)
  {
    WhereAppend(before, x, RowUser, u);
    assert Where(before, RowUser, u) + [] == Where(before, RowUser, u);
  }

  lemma UsersAppend(before: seq<ProgressRow>, x: ProgressRow)
    ensures Users(before + [x]) == if x.user_id in Users(before) then Users(before) else Users(before) + [x.user_id]
  {
    assert (before + [x])[..|before|] == before;
  }

  /** The second pass: the number of certificate rows of every learner, read with `|| 0`. */
  method CountCertificates(certificatesData: seq<CertificateRow>) returns (certificateCounts: map<string, int>)
    ensures forall u :: Lookup(certificateCounts, u) == |Where(certificatesData, CertUser, u)|
  {
    certificateCounts := map[];
    for i := 0 to |certificatesData|
      invariant forall u :: Lookup(certificateCounts, u) == |Where(certificatesData[..i], CertUser, u)|
    {
      var cert := certificatesData[i];
      assert certificatesData[..i + 1] == certificatesData[..i] + [cert];
      certificateCounts := certificateCounts[cert.user_id := Lookup(certificateCounts, cert.user_id) + 1];
      forall u ensures Lookup(certificateCounts, u) == |Where(certificatesData[..i + 1], CertUser, u)| {
        WhereAppend(certificatesData[..i], cert, CertUser, u);
      }
    }
    assert certificatesData[..|certificatesData|] == certificatesData;
  }

  /**
   * The third pass: for every key of the dictionary, in key order, the entry
   * with the score sum divided by the row count and rounded, and the
   * certificate count read with `|| 0`; the list is the dictionary's values.
   */
  method FinaliseEntries(userStats: map<string, UserStats>, order: seq<string>, certificateCounts: map<string, int>,
                         ghost rows: seq<ProgressRow>, ghost certs: seq<CertificateRow>)
    returns (values: seq<LeaderboardUser>)
    requires KeyedStats(rows, userStats, order)
    requires forall u :: Lookup(certificateCounts, u) == |Where(certs, CertUser, u)|
    ensures AllHaveRows(order, rows) && values == EntriesFor(order, rows, certs)
  {
    values := [];
    for j := 0 to |order|
      invariant AllHaveRows(order[..j], rows)
      invariant values == EntriesFor(order[..j], rows, certs)
    {
      var userId := order[j];
      PrefixSnoc(order, j);
      values := PushEntry(values, userId, userStats[userId], Lookup(certificateCounts, userId), rows, certs, order[..j]);
    }
    PrefixAll(order);
  }

  /**
   * One iteration of the third pass: the learner's entry, with the mean
   * score rounded and the certificate count, appended to the list.
   */
  method PushEntry(values: seq<LeaderboardUser>, userId: string, st: UserStats, certificateCount: int,
                   ghost rows: seq<ProgressRow>, ghost certs: seq<CertificateRow>, ghost keys: seq<string>)
    returns (next: seq<LeaderboardUser>)
    requires AllHaveRows(keys, rows) && values == EntriesFor(keys, rows, certs)
    requires StatsHold(st, rows, userId) && certificateCount == |Where(certs, CertUser, userId)|
    ensures AllHaveRows(keys + [userId], rows) && next == EntriesFor(keys + [userId], rows, certs)
  {
    var entry := LeaderboardUser(userId, st.full_name, Round(st.total_score / st.completed_courses as real),
                                 st.completed_courses, certificateCount);
    next := values + [entry];
    assert (keys + [userId])[..|keys|] == keys;
  }

  /** Every key of the order has a dictionary entry that is the fold of its learner's rows. */
  ghost predicate KeyedStats(rows: seq<ProgressRow>, userStats: map<string, UserStats>, order: seq<string>) {
    forall j :: 0 <= j < |order| ==> order[j] in userStats && StatsHold(userStats[order[j]], rows, order[j])
  }

  /** The first pass's invariant gives every key of the order its fold. */
  lemma FoldKeyedStats(rows: seq<ProgressRow>, userStats: map<string, UserStats>, order: seq<string>)
    requires FoldInv(rows, userStats, order)
    ensures KeyedStats(rows, userStats, order)
  {
  }

  /**
   * The aggregation of the page: the three passes, then the filter and the
   * stable sort by the selected key.
   */
  method Aggregate(progressData: seq<ProgressRow>, certificatesData: seq<CertificateRow>, sortBy: SortBy)
    returns (leaderboardUsers: seq<LeaderboardUser>)
    ensures leaderboardUsers == Ranked(progressData, certificatesData, sortBy)
  {
    var userStats, order := FoldProgress(progressData);
    var certificateCounts := CountCertificates(certificatesData);
    FoldKeyedStats(progressData, userStats, order);
    var values := FinaliseEntries(userStats, order, certificateCounts, progressData, certificatesData);
    var filtered := Filter(values, HasCompletions);
    leaderboardUsers := SortDesc(filtered, KeyFor(sortBy));
  }

  /** Every entry has completed rows, so the page's filter removes nothing. */
  lemma EntriesHaveCompletions(rows: seq<ProgressRow>, certs: seq<CertificateRow>)
    ensures forall i :: 0 <= i < |Entries(rows, certs)| ==> HasCompletions(Entries(rows, certs)[i])
    ensures Filter(Entries(rows, certs), HasCompletions) == Entries(rows, certs)
  {
    var es := Entries(rows, certs);
    UsersHaveRows(rows);
    assert forall i :: 0 <= i < |es| ==> HasCompletions(es[i]);
    FilterAll(es, HasCompletions);
  }

  /**
   * The ranked list holds exactly the entries, ordered non-increasingly by
   * the selected key, with entries of equal key in their prior order.
   */
  lemma RankedIsStableSortOfEntries(rows: seq<ProgressRow>, certs: seq<CertificateRow>, sortBy: SortBy)
    ensures multiset(Ranked(rows, certs, sortBy)) == multiset(Entries(rows, certs))
    ensures SortedDesc(Ranked(rows, certs, sortBy), KeyFor(sortBy))
    ensures forall k :: Where(Ranked(rows, certs, sortBy), KeyFor(sortBy), k) == Where(Entries(rows, certs), KeyFor(sortBy), k)
  {
    EntriesHaveCompletions(rows, certs);
    var es := Entries(rows, certs);
    SortDescPermutation(es, KeyFor(sortBy));
    SortDescSorted(es, KeyFor(sortBy));
    forall k ensures Where(Ranked(rows, certs, sortBy), KeyFor(sortBy), k) == Where(es, KeyFor(sortBy), k) {
      SortDescStable(es, KeyFor(sortBy), k);
    }
  }

  /** Each ranked entry is the reference entry of its learner, and that learner has rows. */
  lemma RankedEntryIsEntry(rows: seq<ProgressRow>, certs: seq<CertificateRow>, sortBy: SortBy, i: int)
    requires 0 <= i < |Ranked(rows, certs, sortBy)|
    ensures |Where(rows, RowUser, Ranked(rows, certs, sortBy)[i].id)| > 0
    ensures Ranked(rows, certs, sortBy)[i] == Entry(rows, certs, Ranked(rows, certs, sortBy)[i].id)
  {
    var r := Ranked(rows, certs, sortBy);
    RankedIsStableSortOfEntries(rows, certs, sortBy);
    var es := Entries(rows, certs);
    assert r[i] in multiset(es);
    var j :| 0 <= j < |es| && es[j] == r[i];
    UsersHaveRows(rows);
  }

  /**
   * Each ranked entry counts its learner's completed rows (at least one),
   * carries the rounded mean of their scores with missing scores as 0 and
   * the number of the learner's certificate rows.
   */
  lemma RankedEntryFields(rows: seq<ProgressRow>, certs: seq<CertificateRow>, sortBy: SortBy, i: int)
    requires 0 <= i < |Ranked(rows, certs, sortBy)|
    ensures var e := Ranked(rows, certs, sortBy)[i];
      var mine := Where(rows, RowUser, e.id);
      |mine| > 0 && e.completed_courses == |mine| && e.full_name == mine[0].full_name
      && e.total_score == Round(SumReal(mine, RowScore) / |mine| as real)
      && e.certificates == |Where(certs, CertUser, e.id)|
  {
    RankedEntryIsEntry(rows, certs, sortBy, i);
  }

  /** The learners on the board are exactly the learners with a row. */
  lemma RankedUsers(rows: seq<ProgressRow>, certs: seq<CertificateRow>, sortBy: SortBy, u: string)
    ensures (exists i :: 0 <= i < |Ranked(rows, certs, sortBy)| && Ranked(rows, certs, sortBy)[i].id == u)
        <==> exists k :: 0 <= k < |rows| && rows[k].user_id == u
  {
    var r := Ranked(rows, certs, sortBy);
    if exists i :: 0 <= i < |r| && r[i].id == u {
      var i :| 0 <= i < |r| && r[i].id == u;
      RankedEntryIsEntry(rows, certs, sortBy, i);
      WhereNonEmpty(rows, RowUser, u);
    }
    if exists k :: 0 <= k < |rows| && rows[k].user_id == u {
      var k :| 0 <= k < |rows| && rows[k].user_id == u;
      assert RowUser(rows[k]) in Users(rows);
      var m :| 0 <= m < |Users(rows)| && Users(rows)[m] == u;
      UsersHaveRows(rows);
      var es := Entries(rows, certs);
      assert es[m].id == u;
      RankedIsStableSortOfEntries(rows, certs, sortBy);
      assert es[m] in multiset(r);
    }
  }

  /** Only completed rows count: a learner is ranked exactly when they have a completed row. */
  lemma RankedMembership(table: seq<ProgressRow>, certs: seq<CertificateRow>, sortBy: SortBy, u: string)
    ensures (exists i :: 0 <= i < |Ranked(CompletedRows(table), certs, sortBy)|
               && Ranked(CompletedRows(table), certs, sortBy)[i].id == u)
        <==> exists j :: 0 <= j < |table| && table[j].user_id == u && table[j].completed
  {
    var rows := CompletedRows(table);
    RankedUsers(rows, certs, sortBy, u);
    if exists k :: 0 <= k < |rows| && rows[k].user_id == u {
      var k :| 0 <= k < |rows| && rows[k].user_id == u;
      SubsequenceElements(rows, table);
      assert rows[k] in table;
    }
    if exists j :: 0 <= j < |table| && table[j].user_id == u && table[j].completed {
      var j :| 0 <= j < |table| && table[j].user_id == u && table[j].completed;
      assert table[j] in rows;
    }
  }

  /** With every present score in [0, 100], an entry's score is in [0, 100]. */
  lemma EntryScoreBounds(rows: seq<ProgressRow>, certs: seq<CertificateRow>, u: string)
    requires forall j :: 0 <= j < |rows| && rows[j].score.Some? ==> 0.0 <= rows[j].score.value <= 100.0
    requires |Where(rows, RowUser, u)| > 0
    ensures 0 <= Entry(rows, certs, u).total_score <= 100
  {
    var mine := Where(rows, RowUser, u);
    forall k | 0 <= k < |mine| ensures 0.0 <= RowScore(mine[k]) <= 100.0 {
      WhereElements(rows, RowUser, u);
      var j :| 0 <= j < |rows| && rows[j] == mine[k];
    }
    SumRealBounds(mine, RowScore, 100.0);
    MeanBounds(SumReal(mine, RowScore), |mine|, 100.0);
  }

  /** With every present score in [0, 100], every ranked score is in [0, 100]. */
  lemma RankedScoreBounds(rows: seq<ProgressRow>, certs: seq<CertificateRow>, sortBy: SortBy, i: int)
    requires forall j :: 0 <= j < |rows| && rows[j].score.Some? ==> 0.0 <= rows[j].score.value <= 100.0
    requires 0 <= i < |Ranked(rows, certs, sortBy)|
    ensures 0 <= Ranked(rows, certs, sortBy)[i].total_score <= 100
  {
    RankedEntryIsEntry(rows, certs, sortBy, i);
    EntryScoreBounds(rows, certs, Ranked(rows, certs, sortBy)[i].id);
  }

  /** The community totals under the list: completions and certificates summed over the entries shown. */
  function TotalCompletions(users: seq<LeaderboardUser>): int {
    SumInt(users, CoursesKey)
  }

  function TotalCertificates(users: seq<LeaderboardUser>): int {
    SumInt(users, CertificatesKey)
  }

  /** The entries of `keys` are the first key's entry followed by the entries of the rest. */
  lemma EntriesForCons(keys: seq<string>, rows: seq<ProgressRow>, certs: seq<CertificateRow>)
    requires keys != [] && AllHaveRows(keys, rows)
    ensures AllHaveRows(keys[1..], rows)
    ensures EntriesFor(keys, rows, certs) == [Entry(rows, certs, keys[0])] + EntriesFor(keys[1..], rows, certs)
  {
    var rest := keys[1..];
    assert forall j :: 0 <= j < |rest| ==> rest[j] == keys[j + 1];
  }

  /** Summing the completions over the entries of `keys` sums the sizes of the learners' groups of rows. */
  lemma {:induction false} EntriesForCompletions(keys: seq<string>, rows: seq<ProgressRow>, certs: seq<CertificateRow>)
    requires AllHaveRows(keys, rows)
    ensures SumInt(EntriesFor(keys, rows, certs), CoursesKey) == SumGroupsInt(keys, rows, RowUser, One)
    decreases |keys|
  {
    if keys != [] {
      EntriesForCons(keys, rows, certs);
      EntriesForCompletions(keys[1..], rows, certs);
      var e := Entry(rows, certs, keys[0]);
      SumIntConcat([e], EntriesFor(keys[1..], rows, certs), CoursesKey);
      assert [e][..0] == [];
      SumOfOnes(Where(rows, RowUser, keys[0]));
    }
  }

  /** Summing the certificates over the entries of `keys` sums the sizes of the learners' groups of certificates. */
  lemma {:induction false} EntriesForCertificates(keys: seq<string>, rows: seq<ProgressRow>, certs: seq<CertificateRow>)
    requires AllHaveRows(keys, rows)
    ensures SumInt(EntriesFor(keys, rows, certs), CertificatesKey) == SumGroupsInt(keys, certs, CertUser, One)
    decreases |keys|
  {
    if keys != [] {
      EntriesForCons(keys, rows, certs);
      EntriesForCertificates(keys[1..], rows, certs);
      var e := Entry(rows, certs, keys[0]);
      SumIntConcat([e], EntriesFor(keys[1..], rows, certs), CertificatesKey);
      assert [e][..0] == [];
      SumOfOnes(Where(certs, CertUser, keys[0]));
    }
  }

  /** The completions total is the number of completed rows, in any ranking. */
  lemma RankedTotalCompletions(rows: seq<ProgressRow>, certs: seq<CertificateRow>, sortBy: SortBy)
    ensures TotalCompletions(Ranked(rows, certs, sortBy)) == |rows|
  {
    var es := Entries(rows, certs);
    EntriesHaveCompletions(rows, certs);
    SortDescSum(es, KeyFor(sortBy), CoursesKey);
    UsersHaveRows(rows);
    EntriesForCompletions(Users(rows), rows, certs);
    SumByGroupsInt(Users(rows), rows, RowUser, One);
    SumOfOnes(rows);
  }

  /** Learner `u` has a row among `rows`. */
  ghost predicate HasRow(rows: seq<ProgressRow>, u: string) {
    exists k :: 0 <= k < |rows| && rows[k].user_id == u
  }

  /** A certificate row belongs to a learner with a row. */
  ghost function HeldByListed(rows: seq<ProgressRow>): CertificateRow -> bool {
    (c: CertificateRow) => HasRow(rows, c.user_id)
  }

  /** The certificate rows of learners with a row, in order. */
  ghost function ListedCertificates(rows: seq<ProgressRow>, certs: seq<CertificateRow>): seq<CertificateRow> {
    Filter(certs, HeldByListed(rows))
  }

  /**
   * The certificates total counts the certificate rows of the learners on
   * the board; certificates of learners without a completed row (a
   * certificate issued after a failed write, a lesson completed again by a
   * failed quiz) are not counted.
   */
  lemma RankedTotalCertificates(rows: seq<ProgressRow>, certs: seq<CertificateRow>, sortBy: SortBy)
    ensures TotalCertificates(Ranked(rows, certs, sortBy)) == |ListedCertificates(rows, certs)|
  {
    var es := Entries(rows, certs);
    EntriesHaveCompletions(rows, certs);
    SortDescSum(es, KeyFor(sortBy), CertificatesKey);
    EntriesForCertificates(Users(rows), rows, certs);
    ListedSameGroups(rows, certs);
    ListedCount(rows, certs);
  }

  /** Per learner on the board, dropping the certificates of unlisted learners changes nothing. */
  lemma ListedSameGroups(rows: seq<ProgressRow>, certs: seq<CertificateRow>)
    ensures SumGroupsInt(Users(rows), certs, CertUser, One)
         == SumGroupsInt(Users(rows), ListedCertificates(rows, certs), CertUser, One)
  {
    UsersHaveRows(rows);
    var listed := ListedCertificates(rows, certs);
    forall j | 0 <= j < |Users(rows)|
      ensures Where(certs, CertUser, Users(rows)[j]) == Where(listed, CertUser, Users(rows)[j])
    {
      var u := Users(rows)[j];
      assert HasRow(rows, u);
      WhereFilter(certs, HeldByListed(rows), CertUser, u);
    }
    SumGroupsIntSame(Users(rows), certs, listed, CertUser, One);
  }

  /** Summed over the learners on the board, the listed certificates count one each. */
  lemma ListedCount(rows: seq<ProgressRow>, certs: seq<CertificateRow>)
    ensures SumGroupsInt(Users(rows), ListedCertificates(rows, certs), CertUser, One)
         == |ListedCertificates(rows, certs)|
  {
    UsersHaveRows(rows);
    var listed := ListedCertificates(rows, certs);
    forall i | 0 <= i < |listed| ensures CertUser(listed[i]) in Users(rows) {
      assert HeldByListed(rows)(listed[i]);
      var k :| 0 <= k < |rows| && rows[k].user_id == listed[i].user_id;
      assert RowUser(rows[k]) in Users(rows);
    }
    SumByGroupsInt(Users(rows), listed, CertUser, One);
    SumOfOnes(listed);
  }

  /** When every certificate holder has a completed row, the total is the number of certificate rows. */
  lemma RankedTotalCertificatesAllListed(rows: seq<ProgressRow>, certs: seq<CertificateRow>, sortBy: SortBy)
    requires forall i :: 0 <= i < |certs| ==> HasRow(rows, certs[i].user_id)
    ensures TotalCertificates(Ranked(rows, certs, sortBy)) == |certs|
  {
    RankedTotalCertificates(rows, certs, sortBy);
    forall c | c in certs ensures HeldByListed(rows)(c) {
      var i :| 0 <= i < |certs| && certs[i] == c;
    }
    FilterAll(certs, HeldByListed(rows));
  }

  /** The page's state: the list shown, the loading flag and the selected key. */
  class LeaderboardPage {
    var users: seq<LeaderboardUser>
    var loading: bool
    var sortBy: SortBy

    constructor ()
      ensures users == [] && loading && sortBy == ByScore
    {
      users := [];
      loading := true;
      sortBy := ByScore;
    }

    /**
     * Reads the completed progress rows and the certificate rows and shows
     * their ranking; when either read fails the list is left as it was. The
     * loading flag is set while reading and cleared afterwards either way.
     */
    method FetchLeaderboardData(progressTable: Response<seq<ProgressRow>>, certificates: Response<seq<CertificateRow>>)
      returns (loadingWhileAwaiting: bool)
      modifies this`users, this`loading
      ensures loadingWhileAwaiting && !loading
      ensures progressTable.Ok? && certificates.Ok? ==>
        users == Ranked(CompletedRows(progressTable.data), certificates.data, sortBy)
      ensures progressTable.Error? || certificates.Error? ==> users == old(users)
    {
      loading := true;
      loadingWhileAwaiting := loading;
      if progressTable.Error? || certificates.Error? {
        loading := false;
        return;
      }
      var progressData := CompletedRows(progressTable.data);
      users := Aggregate(progressData, certificates.data, sortBy);
      loading := false;
    }

    /**
     * Selecting a key re-sorts a copy of the list by it: the same entries,
     * now ordered by the new key, entries of equal key in their prior order.
     */
    method SetSortBy(newSortBy: SortBy)
      modifies this`sortBy, this`users
      ensures sortBy == newSortBy
      ensures users == SortDesc(old(users), KeyFor(newSortBy))
      ensures multiset(users) == multiset(old(users))
      ensures SortedDesc(users, KeyFor(newSortBy))
      ensures forall k :: Where(users, KeyFor(newSortBy), k) == Where(old(users), KeyFor(newSortBy), k)
    {
      sortBy := newSortBy;
      var sortedUsers := SortDesc(users, KeyFor(sortBy));
      SortDescPermutation(users, KeyFor(sortBy));
      SortDescSorted(users, KeyFor(sortBy));
      forall k ensures Where(sortedUsers, KeyFor(newSortBy), k) == Where(users, KeyFor(newSortBy), k) {
        SortDescStable(users, KeyFor(newSortBy), k);
      }
      users := sortedUsers;
    }
  }
}
