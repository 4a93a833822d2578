/** The channel collection: creating a channel, listing the caller's
    channels and listing every channel.  A new channel's id is the number of
    channels that existed before it, so ids coincide with positions for as
    long as channels are only ever created. */
module Channels {
  import opened Base
  import opened Types
  import opened MessageIds
  import opened Ledger

  datatype ChannelEntry = ChannelEntry(channelId: int, name: string)

  function EntryOf(c: Channel): ChannelEntry
  {
    ChannelEntry(c.channelId, c.name)
  }

  // ---- create ----------------------------------------------------------------

  predicate NameFits(name: string)
  {
    1 <= Utf16Len(name) <= 20
  }

  /** The channel `channels/create` builds: the creator is its only owner
      and member, there are no messages and no standup. */
  function NewChannel(id: int, name: string, isPublic: bool, u: int): Channel
  {
    Channel(id, name, isPublic, [u], [u], [], DefaultStandup)
  }

  /** `channels/create`: token 403, name length outside 1..20 400; the new
      channel takes the id `|channels|` and the creator's channel series
      grows by one (a missing stats record is a crash). */
  function ChannelsCreate(s: Store, token: string, name: string, isPublic: bool, now: int): (r: Result<(Store, int)>)
    ensures TokenUser(s, token).None? ==> r == Err(Forbidden)
    ensures TokenUser(s, token).Some? && !NameFits(name) ==> r == Err(BadRequest)
    ensures TokenUser(s, token).Some? && NameFits(name) ==>
      (r.Ok? <==> TokenUser(s, token).value in s.userStats) && (r.Err? ==> r.code == Crashed)
    ensures r.Ok? ==>
      var u := TokenUser(s, token).value;
      var (s', id) := r.value;
      && id == |s.channels|
      && s'.channels == s.channels + [NewChannel(id, name, isPublic, u)]
      && s'.users == s.users && s'.tokens == s.tokens && s'.dms == s.dms
      && s'.workspaceStats == s.workspaceStats
      && s'.userStats.Keys == s.userStats.Keys
      && (forall v :: v in s.userStats && v != u ==> s'.userStats[v] == s.userStats[v])
      && Current(SeriesOf(s'.userStats[u], ChannelsJoined)) == Current(SeriesOf(s.userStats[u], ChannelsJoined)) + 1
  {
    match TokenUser(s, token)
    case None => Err(Forbidden)
    case Some(u) =>
      if !NameFits(name) then Err(BadRequest)
      else
        var id := |s.channels|;
        var s1 := s.(channels := s.channels + [NewChannel(id, name, isPublic, u)]);
        match Record(s1, u, ChannelsJoined, 1, now)
        case Err(e) => Err(e)
        case Ok(s2) =>
          BumpCurrent(s1.userStats, u, ChannelsJoined, 1, now, u);
          Ok((s2, id))
  }

  /** Every channel's id is its position in the list. */
  predicate IdsArePositions(chs: seq<Channel>)
  {
    forall k :: 0 <= k < |chs| ==> chs[k].channelId == k
  }

  /** Creating a channel keeps ids equal to positions, and the new id then
      finds exactly the new channel, whose sole owner and member is the
      creator. */
  lemma CreateKeepsPositions(s: Store, token: string, name: string, isPublic: bool, now: int)
    requires IdsArePositions(s.channels)
    requires ChannelsCreate(s, token, name, isPublic, now).Ok?
    ensures var (s', id) := ChannelsCreate(s, token, name, isPublic, now).value;
      && IdsArePositions(s'.channels)
      && FindChannel(s', id) == Some(id)
      && s'.channels[id].allMembers == [TokenUser(s, token).value]
      && s'.channels[id].ownerMembers == [TokenUser(s, token).value]
  {
    var (s', id) := ChannelsCreate(s, token, name, isPublic, now).value;
    assert IdsArePositions(s'.channels) by {
      assert forall k :: 0 <= k < |s.channels| ==> s'.channels[k] == s.channels[k];
    }
    FindAtPosition(s', id);
  }

  /** When ids are positions, looking an id up finds its own position. */
  lemma FindAtPosition(s: Store, k: nat)
    requires IdsArePositions(s.channels) && k < |s.channels|
    ensures FindChannel(s, k) == Some(k)
  {
    assert s.channels[k].channelId == k;
  }

  /** A new channel holds no messages, so message ids stay unique. */
  lemma CreateKeepsIdsUnique(s: Store, token: string, name: string, isPublic: bool, now: int)
    requires MessageIdsUnique(s)
    requires ChannelsCreate(s, token, name, isPublic, now).Ok?
    ensures MessageIdsUnique(ChannelsCreate(s, token, name, isPublic, now).value.0)
  {
    var s' := ChannelsCreate(s, token, name, isPublic, now).value.0;
    var L := IdLists(s);
    var k := |s.channels|;
    InsertEmptyKeepsUnique(L, k);
    assert IdLists(s') == L[..k] + [[]] + L[k..] by {
      assert ChannelIdLists(s'.channels) == ChannelIdLists(s.channels) + [[]];
      assert L[..k] == ChannelIdLists(s.channels);
      assert L[k..] == DmIdLists(s.dms);
    }
  }

  // ---- list ------------------------------------------------------------------

  function Repeat<T>(x: T, n: nat): (r: seq<T>)
    ensures |r| == n
    ensures forall i :: 0 <= i < n ==> r[i] == x
  {
    if n == 0 then [] else [x] + Repeat(x, n - 1)
  }

  /** The listing loop as written: a channel contributes one entry for every
      time `u` appears among its members. */
  function ListEntries(chs: seq<Channel>, u: int): (r: seq<ChannelEntry>)
    ensures forall e :: e in r <==> exists k :: 0 <= k < |chs| && u in chs[k].allMembers && e == EntryOf(chs[k])
    decreases |chs|
  {
    if |chs| == 0 then []
    else
      var rest := ListEntries(chs[1..], u);
      assert forall k :: 1 <= k < |chs| ==> chs[k] == chs[1..][k - 1];
      var here := Repeat(EntryOf(chs[0]), Occurrences(chs[0].allMembers, u));
      assert forall e :: e in here <==> u in chs[0].allMembers && e == EntryOf(chs[0]) by {
        if u in chs[0].allMembers { assert here[0] == EntryOf(chs[0]); }
      }
      here + rest
  }

  /** The channels `u` belongs to, once each, in storage order. */
  function ChannelsWith(chs: seq<Channel>, u: int): (r: seq<ChannelEntry>)
    ensures |r| <= |chs|
    decreases |chs|
  {
    if |chs| == 0 then []
    else (if u in chs[0].allMembers then [EntryOf(chs[0])] else []) + ChannelsWith(chs[1..], u)
  }

  /** When nobody is listed twice in a channel, the listing loop yields each
      of the caller's channels exactly once. */
  lemma {:induction false} ListEntriesOnce(chs: seq<Channel>, u: int)
    requires forall k :: 0 <= k < |chs| ==> Occurrences(chs[k].allMembers, u) <= 1
    ensures ListEntries(chs, u) == ChannelsWith(chs, u)
    decreases |chs|
  {
    if |chs| > 0 {
      assert forall k :: 1 <= k < |chs| ==> chs[k] == chs[1..][k - 1];
      ListEntriesOnce(chs[1..], u);
    }
  }

  /** `channels/list`: token 403; otherwise one entry per membership. */
  function ChannelsList(s: Store, token: string): (r: Result<seq<ChannelEntry>>)
    ensures TokenUser(s, token).None? <==> r == Err(Forbidden)
    ensures TokenUser(s, token).Some? ==> r.Ok?
    ensures r.Ok? ==> forall e :: e in r.value <==>
      exists k :: 0 <= k < |s.channels| && TokenUser(s, token).value in s.channels[k].allMembers
                  && e == EntryOf(s.channels[k])
  {
    var u :- TokenOf(s, token);
    Ok(ListEntries(s.channels, u))
  }

  /** `channels/listall`: token 403; otherwise every channel, in order. */
  function ChannelsListAll(s: Store, token: string): (r: Result<seq<ChannelEntry>>)
    ensures TokenUser(s, token).None? <==> r == Err(Forbidden)
    ensures TokenUser(s, token).Some? ==> r.Ok?
    ensures r.Ok? ==> |r.value| == |s.channels|
    ensures r.Ok? ==> forall k :: 0 <= k < |s.channels| ==>
      r.value[k].channelId == s.channels[k].channelId && r.value[k].name == s.channels[k].name
  {
    var _ :- TokenOf(s, token);
    Ok(seq(|s.channels|, k requires 0 <= k < |s.channels| => EntryOf(s.channels[k])))
  }

  /** The caller's listing is the full listing narrowed to the channels the
      caller belongs to. */
  lemma ListWithinListAll(s: Store, token: string, e: ChannelEntry)
    requires ChannelsList(s, token).Ok?
    requires e in ChannelsList(s, token).value
    ensures e in ChannelsListAll(s, token).value
  {
    var k :| 0 <= k < |s.channels| && TokenUser(s, token).value in s.channels[k].allMembers && e == EntryOf(s.channels[k]);
    assert ChannelsListAll(s, token).value[k] == e;
  }

  /** Right after creating a channel, the creator's listing names it. */
  lemma CreateThenListed(s: Store, token: string, name: string, isPublic: bool, now: int)
    requires ChannelsCreate(s, token, name, isPublic, now).Ok?
    ensures var (s', id) := ChannelsCreate(s, token, name, isPublic, now).value;
      ChannelsList(s', token).Ok? && ChannelEntry(id, name) in ChannelsList(s', token).value
  {
    var (s', id) := ChannelsCreate(s, token, name, isPublic, now).value;
    assert TokenUser(s', token) == TokenUser(s, token);
    assert s'.channels[id] == NewChannel(id, name, isPublic, TokenUser(s, token).value);
  }
}
