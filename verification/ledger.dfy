/** The statistics ledger: per-user append-only series (channels joined, DMs
    joined, messages sent), the workspace series sampled when the workspace
    statistics are read, and the two derived rates. */
module Ledger {
  import opened Base
  import opened Types

  // ---- per-user series -------------------------------------------------------

  /** The current value of a series is its last sample (0 for an empty one,
      which a registered user never has). */
  function Current(series: seq<Sample>): int
  {
    if |series| == 0 then 0 else series[|series| - 1].count
  }

  datatype Series = ChannelsJoined | DmsJoined | MessagesSent

  function SeriesOf(st: UserStats, which: Series): seq<Sample>
  {
    match which
    case ChannelsJoined => st.channelsJoined
    case DmsJoined => st.dmsJoined
    case MessagesSent => st.messagesSent
  }

  function WithSeries(st: UserStats, which: Series, series: seq<Sample>): (r: UserStats)
    ensures SeriesOf(r, which) == series
    ensures forall w :: w != which ==> SeriesOf(r, w) == SeriesOf(st, w)
    ensures r.involvementRate == st.involvementRate
  {
    match which
    case ChannelsJoined => st.(channelsJoined := series)
    case DmsJoined => st.(dmsJoined := series)
    case MessagesSent => st.(messagesSent := series)
  }

  /** The record every user starts with: one zero sample per series. */
  function SeedStats(now: int): (st: UserStats)
    ensures forall w :: SeriesOf(st, w) == [Sample(0, now)]
    ensures st.involvementRate == 0.0
  {
    UserStats([Sample(0, now)], [Sample(0, now)], [Sample(0, now)], 0.0)
  }

  /** Append to user `u`'s series `which` a sample of previous + `delta`.
      Nothing else in the ledger changes; a user without a record is left
      alone. */
  function Bump(stats: map<int, UserStats>, u: int, which: Series, delta: int, now: int)
    : (r: map<int, UserStats>)
    ensures r.Keys == stats.Keys
    ensures forall v :: v in stats && v != u ==> r[v] == stats[v]
    ensures u in stats ==>
      && SeriesOf(r[u], which) == SeriesOf(stats[u], which) + [Sample(Current(SeriesOf(stats[u], which)) + delta, now)]
      && (forall w :: w != which ==> SeriesOf(r[u], w) == SeriesOf(stats[u], w))
      && r[u].involvementRate == stats[u].involvementRate
  {
    if u !in stats then stats
    else
      var prev := SeriesOf(stats[u], which);
      stats[u := WithSeries(stats[u], which, prev + [Sample(Current(prev) + delta, now)])]
  }

  /** `Bump` for every id of `us`, in order (a user listed twice is bumped twice). */
  function BumpAll(stats: map<int, UserStats>, us: seq<int>, which: Series, delta: int, now: int)
    : (r: map<int, UserStats>)
    ensures r.Keys == stats.Keys
    ensures forall v :: v in stats && v !in us ==> r[v] == stats[v]
    decreases |us|
  {
    if |us| == 0 then stats
    else BumpAll(Bump(stats, us[0], which, delta, now), us[1..], which, delta, now)
  }

  /** What `BumpAll` does to one user's series `which`: one sample per
      occurrence of the user in `us`, the current value moved by `delta` per
      occurrence, and the earlier samples kept. */
  lemma BumpAllSeries(
    stats: map<int, UserStats>, us: seq<int>, which: Series, delta: int, now: int, v: int)
    requires v in stats
    ensures var after := SeriesOf(BumpAll(stats, us, which, delta, now)[v], which);
      && |after| == |SeriesOf(stats[v], which)| + Occurrences(us, v)
      && Current(after) == Current(SeriesOf(stats[v], which)) + delta * Occurrences(us, v)
      && SeriesOf(stats[v], which) <= after
  {
    BumpAllLength(stats, us, which, delta, now, v);
    BumpAllCurrent(stats, us, which, delta, now, v);
    BumpAllPrefix(stats, us, which, delta, now, v);
  }

  lemma {:induction false} BumpAllLength(
    stats: map<int, UserStats>, us: seq<int>, which: Series, delta: int, now: int, v: int)
    requires v in stats
    ensures |SeriesOf(BumpAll(stats, us, which, delta, now)[v], which)|
      == |SeriesOf(stats[v], which)| + Occurrences(us, v)
    decreases |us|
  {
    if |us| > 0 {
      var b := Bump(stats, us[0], which, delta, now);
      assert BumpAll(stats, us, which, delta, now) == BumpAll(b, us[1..], which, delta, now);
      BumpAllLength(b, us[1..], which, delta, now, v);
      var head := if us[0] == v then 1 else 0;
      assert Occurrences(us, v) == head + Occurrences(us[1..], v);
      assert |SeriesOf(b[v], which)| == |SeriesOf(stats[v], which)| + head;
    }
  }

  lemma {:induction false} BumpAllCurrent(
    stats: map<int, UserStats>, us: seq<int>, which: Series, delta: int, now: int, v: int)
    requires v in stats
    ensures Current(SeriesOf(BumpAll(stats, us, which, delta, now)[v], which))
      == Current(SeriesOf(stats[v], which)) + delta * Occurrences(us, v)
    decreases |us|
  {
    if |us| > 0 {
      var b := Bump(stats, us[0], which, delta, now);
      var head := if us[0] == v then 1 else 0;
      var rest := Occurrences(us[1..], v);
      var before := Current(SeriesOf(stats[v], which));
      var mid := Current(SeriesOf(b[v], which));
      var after := Current(SeriesOf(BumpAll(stats, us, which, delta, now)[v], which));
      BumpAllStep(stats, us, which, delta, now);
      BumpAllCurrent(b, us[1..], which, delta, now, v);
      BumpCurrent(stats, us[0], which, delta, now, v);
      OccurrencesStep(us, v);
      Distribute(after, mid, before, delta, head, rest, Occurrences(us, v));
    }
  }

  lemma BumpAllStep(stats: map<int, UserStats>, us: seq<int>, which: Series, delta: int, now: int)
    requires |us| > 0
    ensures BumpAll(stats, us, which, delta, now) == BumpAll(Bump(stats, us[0], which, delta, now), us[1..], which, delta, now)
  {
  }

  lemma OccurrencesStep(us: seq<int>, v: int)
    requires |us| > 0
    ensures Occurrences(us, v) == (if us[0] == v then 1 else 0) + Occurrences(us[1..], v)
  {
  }

  /** One `Bump` moves the bumped user's current value by `delta`. */
  lemma BumpCurrent(stats: map<int, UserStats>, u: int, which: Series, delta: int, now: int, v: int)
    requires v in stats
    ensures Current(SeriesOf(Bump(stats, u, which, delta, now)[v], which))
      == Current(SeriesOf(stats[v], which)) + delta * (if u == v then 1 else 0)
  {
  }

  /** Two moves of `d` per occurrence add up to one move over both counts. */
  lemma Distribute(after: int, mid: int, before: int, d: int, a: int, b: int, n: int)
    requires after == mid + d * b && mid == before + d * a && n == a + b
    ensures after == before + d * n
  {
  }

  lemma {:induction false} BumpAllPrefix(
    stats: map<int, UserStats>, us: seq<int>, which: Series, delta: int, now: int, v: int)
    requires v in stats
    ensures SeriesOf(stats[v], which) <= SeriesOf(BumpAll(stats, us, which, delta, now)[v], which)
    decreases |us|
  {
    if |us| > 0 {
      var b := Bump(stats, us[0], which, delta, now);
      assert BumpAll(stats, us, which, delta, now) == BumpAll(b, us[1..], which, delta, now);
      BumpAllPrefix(b, us[1..], which, delta, now, v);
      assert SeriesOf(stats[v], which) <= SeriesOf(b[v], which);
    }
  }

  /** `BumpAll` on series `which` leaves every other series of every user alone. */
  lemma {:induction false} BumpAllOthers(
    stats: map<int, UserStats>, us: seq<int>, which: Series, delta: int, now: int, v: int, w: Series)
    requires v in stats && w != which
    ensures SeriesOf(BumpAll(stats, us, which, delta, now)[v], w) == SeriesOf(stats[v], w)
    decreases |us|
  {
    if |us| > 0 {
      var b := Bump(stats, us[0], which, delta, now);
      assert BumpAll(stats, us, which, delta, now) == BumpAll(b, us[1..], which, delta, now);
      BumpAllOthers(b, us[1..], which, delta, now, v, w);
    }
  }

  /** A handler's "+1/-1 sample" step for user `u`: reading the record of a
      user without one is a 500. */
  function Record(s: Store, u: int, which: Series, delta: int, now: int): (r: Result<Store>)
    ensures r.Ok? <==> u in s.userStats
    ensures r.Ok? ==> r.value == s.(userStats := Bump(s.userStats, u, which, delta, now))
  {
    if u !in s.userStats then Err(Crashed)
    else Ok(s.(userStats := Bump(s.userStats, u, which, delta, now)))
  }

  /** `Record` for every id of `us`, in order. */
  function RecordAll(s: Store, us: seq<int>, which: Series, delta: int, now: int): (r: Result<Store>)
    ensures r.Ok? <==> forall i :: 0 <= i < |us| ==> us[i] in s.userStats
    ensures r.Ok? ==> r.value == s.(userStats := BumpAll(s.userStats, us, which, delta, now))
  {
    if forall i :: 0 <= i < |us| ==> us[i] in s.userStats then
      Ok(s.(userStats := BumpAll(s.userStats, us, which, delta, now)))
    else Err(Crashed)
  }

  // ---- involvement -----------------------------------------------------------

  /** Message count of a single container: the last DM's if any DM exists,
      otherwise the last channel's.  The handler overwrites its running total
      in each loop iteration instead of adding to it. */
  function LastContainerMessages(s: Store): nat
  {
    if |s.dms| > 0 then |s.dms[|s.dms| - 1].messages|
    else if |s.channels| > 0 then |s.channels[|s.channels| - 1].messages|
    else 0
  }

  function InvolvementDenominator(s: Store): nat
  {
    |s.channels| + |s.dms| + LastContainerMessages(s)
  }

  function InvolvementNumerator(st: UserStats): int
  {
    Current(st.channelsJoined) + Current(st.dmsJoined) + Current(st.messagesSent)
  }

  /** numerator / denominator, 0 for an empty workspace, capped at 1. */
  function Involvement(numerator: int, denominator: nat): (r: real)
    ensures r <= 1.0
    ensures denominator == 0 ==> r == 0.0
    ensures numerator >= 0 ==> r >= 0.0
    ensures denominator > 0 && numerator <= denominator ==> r == numerator as real / denominator as real
    ensures denominator > 0 && numerator >= denominator ==> r == 1.0
  {
    var rate := if denominator == 0 then 0.0 else numerator as real / denominator as real;
    assert denominator > 0 && numerator >= denominator ==> rate >= 1.0 by {
      if denominator > 0 && numerator >= denominator {
        QuotientAtLeastOne(numerator as real, denominator as real);
      }
    }
    if rate > 1.0 then 1.0 else rate
  }

  lemma QuotientAtLeastOne(n: real, d: real)
    requires d > 0.0 && n >= d
    ensures n / d >= 1.0
  {

  }

  datatype StatsView = StatsView(
    channelsJoined: seq<Sample>,
    dmsJoined: seq<Sample>,
    messagesSent: seq<Sample>,
    involvementRate: real)

  /** `user/stats`: recompute and store the caller's involvement rate and
      return the caller's three series as stored.  No sample is appended. */
  function UserStatsOp(s: Store, token: string): (r: Result<(Store, StatsView)>)
    ensures TokenUser(s, token).None? ==> r == Err(Forbidden)
    ensures TokenUser(s, token).Some? && TokenUser(s, token).value !in s.userStats ==> r == Err(Crashed)
    ensures TokenUser(s, token).Some? && TokenUser(s, token).value in s.userStats ==> r.Ok?
    ensures r.Ok? ==>
      var u := TokenUser(s, token).value;
      var (s', v) := r.value;
      && u in s.userStats
      && s' == s.(userStats := s.userStats[u := s.userStats[u].(involvementRate := v.involvementRate)])
      && v.channelsJoined == s.userStats[u].channelsJoined
      && v.dmsJoined == s.userStats[u].dmsJoined
      && v.messagesSent == s.userStats[u].messagesSent
      && v.involvementRate == Involvement(InvolvementNumerator(s.userStats[u]), InvolvementDenominator(s))
  {
    match TokenUser(s, token)
    case None => Err(Forbidden)
    case Some(u) =>
      if u !in s.userStats then Err(Crashed)
      else
        var st := s.userStats[u];
        var rate := Involvement(InvolvementNumerator(st), InvolvementDenominator(s));
        var st' := st.(involvementRate := rate);
        Ok((s.(userStats := s.userStats[u := st']),
            StatsView(st.channelsJoined, st.dmsJoined, st.messagesSent, rate)))
  }

  /** `user/stats` only stores the rate it reports: asking again returns the
      same view and leaves the store as it is.  The rate lies in [0, 1]
      whenever the caller's three current counts are not negative. */
  lemma UserStatsSettles(s: Store, token: string)
    requires UserStatsOp(s, token).Ok?
    ensures var (s', v) := UserStatsOp(s, token).value;
      && UserStatsOp(s', token) == Ok((s', v))
      && s'.userStats[TokenUser(s, token).value].involvementRate == v.involvementRate
      && (InvolvementNumerator(s.userStats[TokenUser(s, token).value]) >= 0 ==>
            0.0 <= v.involvementRate <= 1.0)
  {
    var (s', v) := UserStatsOp(s, token).value;
    var u := TokenUser(s, token).value;
    assert s'.tokens == s.tokens;
    assert InvolvementNumerator(s'.userStats[u]) == InvolvementNumerator(s.userStats[u]);
    assert InvolvementDenominator(s') == InvolvementDenominator(s);
    assert s'.userStats[u := s'.userStats[u].(involvementRate := v.involvementRate)] == s'.userStats;
  }

  // ---- workspace statistics --------------------------------------------------

  /** Occurrences of `u` across the member lists of `chs`. */
  function ChannelOccurrences(chs: seq<Channel>, u: int): nat
  {
    if |chs| == 0 then 0 else Occurrences(chs[0].allMembers, u) + ChannelOccurrences(chs[1..], u)
  }

  function DmOccurrences(dms: seq<Dm>, u: int): nat
  {
    if |dms| == 0 then 0 else Occurrences(dms[0].allMembers, u) + DmOccurrences(dms[1..], u)
  }

  function TotalMessages(s: Store): nat
  {
    ChannelMessageCount(s.channels) + DmMessageCount(s.dms)
  }

  function ChannelMessageCount(chs: seq<Channel>): nat
  {
    if |chs| == 0 then 0 else |chs[0].messages| + ChannelMessageCount(chs[1..])
  }

  function DmMessageCount(dms: seq<Dm>): nat
  {
    if |dms| == 0 then 0 else |dms[0].messages| + DmMessageCount(dms[1..])
  }

  /** First loop of the utilization count: for every user (in users order),
      every channel-membership entry equal to the user's id. */
  function ChannelJoins(users: seq<User>, chs: seq<Channel>): nat
  {
    if |users| == 0 then 0
    else ChannelOccurrences(chs, users[0].authUserId) + ChannelJoins(users[1..], chs)
  }

  /** `u` holds a membership entry in some channel. */
  predicate InSomeChannel(chs: seq<Channel>, u: int)
  {
    ChannelOccurrences(chs, u) > 0
  }

  /** `u` holds a membership entry in some DM. */
  predicate InSomeDm(dms: seq<Dm>, u: int)
  {
    DmOccurrences(dms, u) > 0
  }

  /** The loop variable the first loop leaves behind: it is overwritten on
      every match, so it ends as the id of the last user (in users order)
      that appears in some channel, and keeps its initial -1 when no user
      does. */
  function LastChannelUser(users: seq<User>, chs: seq<Channel>): (r: int)
    ensures (forall k :: 0 <= k < |users| ==> !InSomeChannel(chs, users[k].authUserId)) ==> r == -1
    ensures (exists k :: 0 <= k < |users| && InSomeChannel(chs, users[k].authUserId)) ==>
      exists k :: 0 <= k < |users| && r == users[k].authUserId && InSomeChannel(chs, r)
        && forall j :: k < j < |users| ==> !InSomeChannel(chs, users[j].authUserId)
    ensures (forall k :: 0 <= k < |users| ==> users[k].authUserId >= 0) ==>
      (r == -1 <==> forall k :: 0 <= k < |users| ==> !InSomeChannel(chs, users[k].authUserId))
  {
    match LastIndex(users, (u: User) => InSomeChannel(chs, u.authUserId))
    case None => -1
    case Some(k) => users[k].authUserId
  }

  /** Second loop: DM-membership entries of every user whose id differs from
      the first loop's leftover id. */
  function DmJoins(users: seq<User>, dms: seq<Dm>, skip: int): nat
  {
    if |users| == 0 then 0
    else
      (if users[0].authUserId != skip then DmOccurrences(dms, users[0].authUserId) else 0)
      + DmJoins(users[1..], dms, skip)
  }

  /** The utilization rate as computed: joins counted per membership entry,
      divided by the number of users, with no cap (0 for an empty user list). */
  function Utilization(s: Store): real
  {
    var joined := ChannelJoins(s.users, s.channels) + DmJoins(s.users, s.dms, LastChannelUser(s.users, s.channels));
    if |s.users| == 0 then 0.0 else joined as real / |s.users| as real
  }

  /** How many user records hold a membership entry in some channel or DM. */
  function ActiveUsers(users: seq<User>, chs: seq<Channel>, dms: seq<Dm>): (n: nat)
    ensures n <= |users|
  {
    if |users| == 0 then 0
    else
      (if InSomeChannel(chs, users[0].authUserId) || InSomeDm(dms, users[0].authUserId) then 1 else 0)
      + ActiveUsers(users[1..], chs, dms)
  }

  /** The utilization the workspace statistics describe: the share of users
      that belong to some channel or DM, 0 for an empty user list. */
  function IntendedUtilization(s: Store): (r: real)
    ensures 0.0 <= r <= 1.0
    ensures |s.users| == 0 ==> r == 0.0
    ensures |s.users| > 0 ==> r == ActiveUsers(s.users, s.channels, s.dms) as real / |s.users| as real
  {
    var n := ActiveUsers(s.users, s.channels, s.dms);
    if |s.users| == 0 then 0.0
    else
      QuotientAtMostOne(n as real, |s.users| as real);
      n as real / |s.users| as real
  }

  lemma QuotientAtMostOne(n: real, d: real)
    requires d > 0.0 && 0.0 <= n <= d
    ensures 0.0 <= n / d <= 1.0
  {
  }

  /** The rate as computed counts membership entries, not users: one user in
      two channels gives 2, where the share of users in some channel is 1. */
  lemma UtilizationCanExceedOne(s: Store)
    requires |s.users| == 1 && s.users[0].authUserId == 0
    requires |s.channels| == 2 && s.channels[0].allMembers == [0] && s.channels[1].allMembers == [0]
    requires s.dms == []
    ensures Utilization(s) == 2.0
    ensures IntendedUtilization(s) == 1.0
  {
    assert [0][1..] == [];
    assert Occurrences([0], 0) == 1;
    var rest := s.channels[1..];
    assert rest[0] == s.channels[1] && rest[1..] == [];
    assert ChannelOccurrences(rest, 0) == 1;
    assert ChannelOccurrences(s.channels, 0) == 2;
    assert s.users[1..] == [];
    assert ChannelJoins(s.users, s.channels) == 2;
    assert DmJoins(s.users, s.dms, LastChannelUser(s.users, s.channels)) == 0;
    assert ActiveUsers(s.users, s.channels, s.dms) == 1;
  }

  /** Users in no DM contribute nothing to the second loop. */
  lemma {:induction false} DmJoinsOfOutsiders(users: seq<User>, dms: seq<Dm>, skip: int)
    requires forall k :: 0 <= k < |users| ==> !InSomeDm(dms, users[k].authUserId)
    ensures DmJoins(users, dms, skip) == 0
    decreases |users|
  {
    if |users| > 0 {
      assert !InSomeDm(dms, users[0].authUserId);
      DmJoinsOfOutsiders(users[1..], dms, skip);
    }
  }

  /** Users with at most one channel entry each are counted once by the first
      loop exactly when they belong to some channel. */
  lemma {:induction false} ChannelJoinsOfSingles(users: seq<User>, chs: seq<Channel>, dms: seq<Dm>)
    requires forall k :: 0 <= k < |users| ==> ChannelOccurrences(chs, users[k].authUserId) <= 1
    requires forall k :: 0 <= k < |users| ==> !InSomeDm(dms, users[k].authUserId)
    ensures ChannelJoins(users, chs) == ActiveUsers(users, chs, dms)
    decreases |users|
  {
    if |users| > 0 {
      assert ChannelOccurrences(chs, users[0].authUserId) <= 1 && !InSomeDm(dms, users[0].authUserId);
      ChannelJoinsOfSingles(users[1..], chs, dms);
    }
  }

  /** Where no user is in a DM and each is listed at most once over all
      channels, the rate as computed is the intended share. */
  lemma UtilizationAgreesOnSingles(s: Store)
    requires forall k :: 0 <= k < |s.users| ==> ChannelOccurrences(s.channels, s.users[k].authUserId) <= 1
    requires forall k :: 0 <= k < |s.users| ==> !InSomeDm(s.dms, s.users[k].authUserId)
    ensures Utilization(s) == IntendedUtilization(s)
  {
    ChannelJoinsOfSingles(s.users, s.channels, s.dms);
    DmJoinsOfOutsiders(s.users, s.dms, LastChannelUser(s.users, s.channels));
  }

  /** `users/stats`: append one sample to each workspace series (channel
      count, DM count, message count over all containers), store the
      recomputed utilization, and return the whole record. */
  function UsersStatsOp(s: Store, token: string, now: int): (r: Result<(Store, WorkspaceStats)>)
    ensures TokenUser(s, token).None? <==> r == Err(Forbidden)
    ensures TokenUser(s, token).Some? ==> r.Ok?
    ensures r.Ok? ==>
      var (s', ws) := r.value;
      var prev := s.workspaceStats;
      && s' == s.(workspaceStats := ws)
      && ws.channelsExist == prev.channelsExist + [Sample(|s.channels|, now)]
      && ws.dmsExist == prev.dmsExist + [Sample(|s.dms|, now)]
      && ws.messagesExist == prev.messagesExist + [Sample(TotalMessages(s), now)]
      && ws.utilizationRate == Utilization(s)
  {
    match TokenUser(s, token)
    case None => Err(Forbidden)
    case Some(_) =>
      var prev := s.workspaceStats;
      var ws := WorkspaceStats(
        prev.channelsExist + [Sample(|s.channels|, now)],
        prev.dmsExist + [Sample(|s.dms|, now)],
        prev.messagesExist + [Sample(TotalMessages(s), now)],
        Utilization(s));
      Ok((s.(workspaceStats := ws), ws))
  }

  /** `users/stats` with the intended utilization: the same samples and
      checks as `UsersStatsOp`, and a rate between 0 and 1. */
  function UsersStatsIntended(s: Store, token: string, now: int): (r: Result<(Store, WorkspaceStats)>)
    ensures r.Err? <==> UsersStatsOp(s, token, now).Err?
    ensures r.Ok? ==>
      var (s', ws) := r.value;
      var (_, computed) := UsersStatsOp(s, token, now).value;
      && ws == computed.(utilizationRate := IntendedUtilization(s))
      && s' == s.(workspaceStats := ws)
      && 0.0 <= ws.utilizationRate <= 1.0
  {
    match UsersStatsOp(s, token, now)
    case Err(c) => Err(c)
    case Ok((_, computed)) =>
      var ws := computed.(utilizationRate := IntendedUtilization(s));
      Ok((s.(workspaceStats := ws), ws))
  }
}
