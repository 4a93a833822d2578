/** The per-channel handlers: message listing, join, invite, leave and the
    two owner changes.  Several handlers find the channel by id and then
    index `data.channels[channelId]` by position; both are kept, so a
    position outside the list is a 500 (see `ChannelAt`). */
module ChannelOps {
  import opened Base
  import opened Types
  import opened MessageIds
  import opened Ledger
  import opened Pages
  import opened Standups

  // ---- messages --------------------------------------------------------------

  /** `channel/messages`: token 403, unknown channel 400, the channel at
      position `channelId` missing (500), caller not a member 403.  An empty
      channel asked for start 0 gives an empty page; otherwise a start
      outside `[0, count)` is 400.  The page lists up to 50 messages newest
      first, and the listed messages' react flags are set for the caller in
      the store as well. */
  function ChannelMessages(s: Store, token: string, channelId: int, start: int): (r: Result<(Store, Page)>)
    ensures TokenUser(s, token).None? ==> r == Err(Forbidden)
    ensures TokenUser(s, token).Some? && FindChannel(s, channelId).None? ==> r == Err(BadRequest)
    ensures TokenUser(s, token).Some? && FindChannel(s, channelId).Some? ==>
      var u := TokenUser(s, token).value;
      && (!(0 <= channelId < |s.channels|) ==> r == Err(Crashed))
      && (0 <= channelId < |s.channels| && u !in s.channels[channelId].allMembers ==> r == Err(Forbidden))
      && (0 <= channelId < |s.channels| && u in s.channels[channelId].allMembers ==>
            var n := |s.channels[channelId].messages|;
            (r.Ok? <==> (n == 0 && start == 0) || 0 <= start < n) && (r.Err? ==> r.code == BadRequest))
    ensures r.Ok? ==>
      var u := TokenUser(s, token).value;
      var ms := s.channels[channelId].messages;
      var page := r.value.1;
      && page.start == start
      && page.end == (if |ms| > start + PageSize then start + PageSize else -1)
      && |page.messages| == (if |ms| > start + PageSize then PageSize else |ms| - start)
      && (forall i :: 0 <= i < |page.messages| ==> page.messages[i] == MarkReacts(ms[|ms| - 1 - start - i], u))
      && r.value.0.dms == s.dms && r.value.0.users == s.users && r.value.0.tokens == s.tokens
      && IdLists(r.value.0) == IdLists(s)
  {
    var u :- TokenOf(s, token);
    var _ :- ChannelOf(s, channelId);
    var p :- ChannelAt(s, channelId);
    var ms := s.channels[p].messages;
    if u !in s.channels[p].allMembers then Err(Forbidden)
    else if |ms| == 0 && start == 0 then Ok((s, Page([], 0, -1)))
    else if start >= |ms| || start < 0 then Err(BadRequest)
    else
      var (marked, page) := PageOf(ms, start, u);
      var s' := WithChannel(s, p, s.channels[p].(messages := marked));
      ChannelIdsUpdate(s, p, s.channels[p].(messages := marked));
      assert MsgIds(marked) == MsgIds(ms);
      Ok((s', page))
  }

  /** A non-empty listing is the page of the channel's messages at that
      position, and the store keeps the marked messages. */
  lemma ChannelMessagesIsPage(s: Store, token: string, channelId: int, start: int)
    requires ChannelMessages(s, token, channelId, start).Ok?
    requires |s.channels[channelId].messages| > 0
    ensures 0 <= start < |s.channels[channelId].messages|
    ensures var ms := s.channels[channelId].messages;
      var (marked, page) := PageOf(ms, start as nat, TokenUser(s, token).value);
      ChannelMessages(s, token, channelId, start).value
        == (WithChannel(s, channelId, s.channels[channelId].(messages := marked)), page)
  {
  }

  /** Storing the marked messages back changes no channel id, so the channel
      is found where it was, with the same members. */
  lemma RelistKeepsLookup(s: Store, channelId: int, marked: seq<Message>)
    requires 0 <= channelId < |s.channels|
    ensures var s1 := WithChannel(s, channelId, s.channels[channelId].(messages := marked));
      && FindChannel(s1, channelId) == FindChannel(s, channelId)
      && s1.channels[channelId].allMembers == s.channels[channelId].allMembers
      && s1.channels[channelId].messages == marked
  {
    var s1 := WithChannel(s, channelId, s.channels[channelId].(messages := marked));
    assert forall k :: 0 <= k < |s.channels| ==> s1.channels[k].channelId == s.channels[k].channelId;
    FirstIndexAgree(s.channels, (c: Channel) => c.channelId == channelId,
                    s1.channels, (c: Channel) => c.channelId == channelId);
  }

  /** Asking again from the `end` of a page (on the store that call left)
      succeeds and continues the listing: the two pages together are the
      next messages, newest first, with no gap and no overlap. */
  lemma ChannelMessagesNextPage(s: Store, token: string, channelId: int, start: int)
    requires ChannelMessages(s, token, channelId, start).Ok?
    requires ChannelMessages(s, token, channelId, start).value.1.end != -1
    ensures var (s1, p) := ChannelMessages(s, token, channelId, start).value;
      && ChannelMessages(s1, token, channelId, p.end).Ok?
      && var q := ChannelMessages(s1, token, channelId, p.end).value.1;
         var ms := s.channels[channelId].messages;
         var both := p.messages + q.messages;
         forall i :: 0 <= i < |both| ==> both[i] == MarkReacts(ms[|ms| - 1 - start - i], TokenUser(s, token).value)
  {
    var u := TokenUser(s, token).value;
    var ms := s.channels[channelId].messages;
    ChannelMessagesIsPage(s, token, channelId, start);
    var (marked, p) := PageOf(ms, start as nat, u);
    var s1 := WithChannel(s, channelId, s.channels[channelId].(messages := marked));
    RelistKeepsLookup(s, channelId, marked);
    assert 0 <= p.end < |marked|;
    assert ChannelMessages(s1, token, channelId, p.end).Ok?;
    ChannelMessagesIsPage(s1, token, channelId, p.end);
    NextPageContinues(ms, start as nat, u);
  }

  // ---- join / invite ---------------------------------------------------------

  /** `channel/join`: token 403, unknown channel 400, the channel at position
      `channelId` missing (500), caller already a member there 400, caller's
      record missing (500), a private channel (as found by id) when the
      caller is not a global owner 403.  The caller is appended to the
      members at that position and gets a channel sample of +1. */
  function ChannelJoin(s: Store, token: string, channelId: int, now: int): (r: Result<Store>)
    ensures TokenUser(s, token).None? ==> r == Err(Forbidden)
    ensures TokenUser(s, token).Some? && FindChannel(s, channelId).None? ==> r == Err(BadRequest)
    ensures TokenUser(s, token).Some? && FindChannel(s, channelId).Some? ==>
      var u := TokenUser(s, token).value;
      var k := FindChannel(s, channelId).value;
      && (!(0 <= channelId < |s.channels|) ==> r == Err(Crashed))
      && (0 <= channelId < |s.channels| ==>
            var c := s.channels[channelId];
            && (u in c.allMembers ==> r == Err(BadRequest))
            && (u !in c.allMembers && !IsUser(s, u) ==> r == Err(Crashed))
            && (u !in c.allMembers && IsUser(s, u) && !s.channels[k].isPublic && !IsGlobalOwner(s, u) ==>
                  r == Err(Forbidden))
            && (u !in c.allMembers && IsUser(s, u) && (s.channels[k].isPublic || IsGlobalOwner(s, u)) ==>
                  && (r.Ok? <==> u in s.userStats)
                  && (r.Ok? ==> r.value == s.(channels := s.channels[channelId := c.(allMembers := c.allMembers + [u])],
                                              userStats := Bump(s.userStats, u, ChannelsJoined, 1, now)))))
  {
    var u :- TokenOf(s, token);
    var k :- ChannelOf(s, channelId);
    var p :- ChannelAt(s, channelId);
    var c := s.channels[p];
    if u in c.allMembers then Err(BadRequest)
    else
      var x :- UserOf(s, u);
      if !s.channels[k].isPublic && s.users[x].permissionId != GlobalOwner then Err(Forbidden)
      else
        var s1 := WithChannel(s, p, c.(allMembers := c.allMembers + [u]));
        Record(s1, u, ChannelsJoined, 1, now)
  }

  /** `channel/invite`: token 403, unknown channel 400, unknown invitee 400,
      inviter not a member 403, invitee already a member 400.  The invitee
      is appended to the members, notified with the inviter's handle (a 500
      when the inviter's record is missing), and gets a channel sample of
      +1; nobody else's statistics move. */
  function ChannelInvite(s: Store, token: string, channelId: int, uId: int, now: int): (r: Result<Store>)
    ensures TokenUser(s, token).None? ==> r == Err(Forbidden)
    ensures TokenUser(s, token).Some? && FindChannel(s, channelId).None? ==> r == Err(BadRequest)
    ensures TokenUser(s, token).Some? && FindChannel(s, channelId).Some? ==>
      var u := TokenUser(s, token).value;
      var k := FindChannel(s, channelId).value;
      var c := s.channels[k];
      && (!IsUser(s, uId) ==> r == Err(BadRequest))
      && (IsUser(s, uId) && u !in c.allMembers ==> r == Err(Forbidden))
      && (IsUser(s, uId) && u in c.allMembers && uId in c.allMembers ==> r == Err(BadRequest))
      && (IsUser(s, uId) && u in c.allMembers && uId !in c.allMembers ==>
            && (r.Ok? <==> IsUser(s, u) && uId in s.userStats)
            && (r.Ok? ==>
                  && r.value.channels == s.channels[k := c.(allMembers := c.allMembers + [uId])]
                  && r.value.dms == s.dms && r.value.tokens == s.tokens
                  && r.value.userStats == Bump(s.userStats, uId, ChannelsJoined, 1, now)
                  && SameButNotifications(r.value.users, s.users)
                  && var j := FindUser(s, uId).value;
                     r.value.users[j].notifications
                       == [Notification(channelId, -1, HandleOf(s, u).value + " added you to " + c.name)]
                          + s.users[j].notifications))
  {
    var u :- TokenOf(s, token);
    var k :- ChannelOf(s, channelId);
    var c := s.channels[k];
    if !IsUser(s, uId) then Err(BadRequest)
    else if u !in c.allMembers then Err(Forbidden)
    else if uId in c.allMembers then Err(BadRequest)
    else
      var s1 := WithChannel(s, k, c.(allMembers := c.allMembers + [uId]));
      match HandleOf(s, u)
      case None => Err(Crashed)
      case Some(h) =>
        var s2 := Notify(s1, uId, Notification(channelId, -1, h + " added you to " + c.name)).value;
        NotifyKeepsUsers(s1, uId, Notification(channelId, -1, h + " added you to " + c.name));
        Record(s2, uId, ChannelsJoined, 1, now)
  }

  /** After an invite the invitee is a member of the channel, which is still
      found under its id; the caller's session is untouched, and of all the
      statistics only the invitee's channel count moved, by one. */
  lemma InviteAddsMember(s: Store, token: string, channelId: int, uId: int, now: int)
    requires ChannelInvite(s, token, channelId, uId, now).Ok?
    ensures var s' := ChannelInvite(s, token, channelId, uId, now).value;
      && FindChannel(s', channelId) == FindChannel(s, channelId)
      && uId in s'.channels[FindChannel(s, channelId).value].allMembers
      && uId !in s.channels[FindChannel(s, channelId).value].allMembers
      && TokenUser(s', token) == TokenUser(s, token)
      && s'.userStats.Keys == s.userStats.Keys
      && (forall v :: v in s.userStats && v != uId ==> s'.userStats[v] == s.userStats[v])
      && Current(SeriesOf(s'.userStats[uId], ChannelsJoined))
           == Current(SeriesOf(s.userStats[uId], ChannelsJoined)) + 1
  {
    var s' := ChannelInvite(s, token, channelId, uId, now).value;
    var k := FindChannel(s, channelId).value;
    var c := s.channels[k];
    assert s'.channels == s.channels[k := c.(allMembers := c.allMembers + [uId])];
    assert s'.tokens == s.tokens;
    assert s'.userStats == Bump(s.userStats, uId, ChannelsJoined, 1, now);
    SameIdsSameFind(s, s', channelId);
    BumpCurrent(s.userStats, uId, ChannelsJoined, 1, now, uId);
  }

  /** Channel lookups only depend on the ids of the channels. */
  lemma SameIdsSameFind(s: Store, s': Store, channelId: int)
    requires |s'.channels| == |s.channels|
    requires forall j :: 0 <= j < |s.channels| ==> s'.channels[j].channelId == s.channels[j].channelId
    ensures FindChannel(s', channelId) == FindChannel(s, channelId)
  {
    FirstIndexAgree(s.channels, (x: Channel) => x.channelId == channelId,
                    s'.channels, (x: Channel) => x.channelId == channelId);
  }

  // ---- leave -----------------------------------------------------------------

  /** `channel/leave`: unknown channel 400 (checked before the token), token
      403, caller not a member of the channel found 403, caller the creator
      of the standup running there 400, the channel at position `channelId`
      missing (500).  The caller is filtered out of the members and owners
      at that position and gets a channel sample of -1. */
  function ChannelLeave(s: Store, token: string, channelId: int, now: int): (r: Result<Store>)
    ensures FindChannel(s, channelId).None? ==> r == Err(BadRequest)
    ensures FindChannel(s, channelId).Some? && TokenUser(s, token).None? ==> r == Err(Forbidden)
    ensures FindChannel(s, channelId).Some? && TokenUser(s, token).Some? ==>
      var u := TokenUser(s, token).value;
      var c := s.channels[FindChannel(s, channelId).value];
      && (u !in c.allMembers ==> r == Err(Forbidden))
      && (u in c.allMembers ==> StandupActive(s, token, channelId).Ok?)
      && (u in c.allMembers && StandupActive(s, token, channelId).value.0 && c.standup.creator == u ==>
            r == Err(BadRequest))
      && (u in c.allMembers && !(StandupActive(s, token, channelId).value.0 && c.standup.creator == u) ==>
            && (!(0 <= channelId < |s.channels|) ==> r == Err(Crashed))
            && (0 <= channelId < |s.channels| ==>
                  var at := s.channels[channelId];
                  && (r.Ok? <==> u in s.userStats)
                  && (r.Ok? ==> r.value == s.(channels := s.channels[channelId := at.(
                                                 allMembers := Without(at.allMembers, u),
                                                 ownerMembers := Without(at.ownerMembers, u))],
                                              userStats := Bump(s.userStats, u, ChannelsJoined, -1, now)))))
  {
    var k :- ChannelOf(s, channelId);
    var u :- TokenOf(s, token);
    var c := s.channels[k];
    if u !in c.allMembers then Err(Forbidden)
    else if c.standup.isActive && c.standup.creator == u then Err(BadRequest)
    else
      var p :- ChannelAt(s, channelId);
      var at := s.channels[p];
      var s1 := WithChannel(s, p, at.(allMembers := Without(at.allMembers, u), ownerMembers := Without(at.ownerMembers, u)));
      Record(s1, u, ChannelsJoined, -1, now)
  }

  /** Joining and then leaving (no standup of the caller's running, the
      caller not an owner) gives every channel back as it was, and the
      caller's channel count returns to its earlier value. */
  lemma JoinThenLeave(s: Store, token: string, channelId: int, now: int, later: int)
    requires ChannelJoin(s, token, channelId, now).Ok?
    requires FindChannel(s, channelId) == Some(channelId)
    requires TokenUser(s, token).value !in s.channels[channelId].ownerMembers
    requires !(s.channels[channelId].standup.isActive && s.channels[channelId].standup.creator == TokenUser(s, token).value)
    ensures var s1 := ChannelJoin(s, token, channelId, now).value;
      && ChannelLeave(s1, token, channelId, later).Ok?
      && ChannelLeave(s1, token, channelId, later).value.channels == s.channels
      && var u := TokenUser(s, token).value;
         var st := ChannelLeave(s1, token, channelId, later).value.userStats;
         Current(SeriesOf(st[u], ChannelsJoined)) == Current(SeriesOf(s.userStats[u], ChannelsJoined))
  {
    var u, c1 := JoinOutcome(s, token, channelId, now);
    var s1 := ChannelJoin(s, token, channelId, now).value;
    var c := s.channels[channelId];
    LeaveUndoesJoin(c, u);
    assert s1.channels[channelId := c] == s.channels;
    BumpCurrent(s.userStats, u, ChannelsJoined, 1, now, u);
    BumpCurrent(s1.userStats, u, ChannelsJoined, -1, later, u);
  }

  /** What a successful join leaves: the caller appended to the channel at
      its own position, the sessions as they were, the caller's channel
      series bumped. */
  lemma JoinOutcome(s: Store, token: string, channelId: int, now: int) returns (u: int, c1: Channel)
    requires ChannelJoin(s, token, channelId, now).Ok?
    requires FindChannel(s, channelId) == Some(channelId)
    ensures u == TokenUser(s, token).value && 0 <= channelId < |s.channels|
    ensures u !in s.channels[channelId].allMembers && u in s.userStats
    ensures c1 == s.channels[channelId].(allMembers := s.channels[channelId].allMembers + [u])
    ensures var s1 := ChannelJoin(s, token, channelId, now).value;
      && s1.channels == s.channels[channelId := c1]
      && s1.userStats == Bump(s.userStats, u, ChannelsJoined, 1, now)
      && FindChannel(s1, channelId) == Some(channelId)
      && TokenUser(s1, token) == Some(u)
  {
    u := TokenUser(s, token).value;
    var c := s.channels[channelId];
    var s1 := ChannelJoin(s, token, channelId, now).value;
    c1 := c.(allMembers := c.allMembers + [u]);
    assert s1.tokens == s.tokens;
    assert forall k :: 0 <= k < |s.channels| ==> s1.channels[k].channelId == s.channels[k].channelId;
    FirstIndexAgree(s.channels, (x: Channel) => x.channelId == channelId,
                    s1.channels, (x: Channel) => x.channelId == channelId);
  }

  /** Filtering a newly appended non-owner out of both lists restores the
      channel. */
  lemma LeaveUndoesJoin(c: Channel, u: int)
    requires u !in c.allMembers && u !in c.ownerMembers
    ensures var c1 := c.(allMembers := c.allMembers + [u]);
      c1.(allMembers := Without(c1.allMembers, u), ownerMembers := Without(c1.ownerMembers, u)) == c
  {
    WithoutAppended(c.allMembers, u);
  }

  // ---- owners ----------------------------------------------------------------

  /** `channel/addowner`: unknown channel 400, unknown user 400 (both before
      the token), the channel at position `channelId` missing (500), user
      not a member 400, user already an owner 400, token 403, caller neither
      user 0 nor an owner 403.  The user is appended to the owners. */
  function ChannelAddOwner(s: Store, token: string, channelId: int, uId: int): (r: Result<Store>)
    ensures FindChannel(s, channelId).None? ==> r == Err(BadRequest)
    ensures FindChannel(s, channelId).Some? && !IsUser(s, uId) ==> r == Err(BadRequest)
    ensures FindChannel(s, channelId).Some? && IsUser(s, uId) ==>
      && (!(0 <= channelId < |s.channels|) ==> r == Err(Crashed))
      && (0 <= channelId < |s.channels| ==>
            var c := s.channels[channelId];
            && (uId !in c.allMembers ==> r == Err(BadRequest))
            && (uId in c.allMembers && uId in c.ownerMembers ==> r == Err(BadRequest))
            && (uId in c.allMembers && uId !in c.ownerMembers ==>
                  && (TokenUser(s, token).None? ==> r == Err(Forbidden))
                  && ((TokenUser(s, token).Some? && TokenUser(s, token).value != 0
                        && TokenUser(s, token).value !in c.ownerMembers) ==> r == Err(Forbidden))
                  && ((TokenUser(s, token).Some? && (TokenUser(s, token).value == 0
                        || TokenUser(s, token).value in c.ownerMembers)) ==>
                        r == Ok(WithChannel(s, channelId, c.(ownerMembers := c.ownerMembers + [uId]))))))
  {
    var _ :- ChannelOf(s, channelId);
    if !IsUser(s, uId) then Err(BadRequest)
    else
      var p :- ChannelAt(s, channelId);
      var c := s.channels[p];
      if uId !in c.allMembers then Err(BadRequest)
      else if uId in c.ownerMembers then Err(BadRequest)
      else
        var u :- TokenOf(s, token);
        if u != 0 && u !in c.ownerMembers then Err(Forbidden)
        else Ok(WithChannel(s, p, c.(ownerMembers := c.ownerMembers + [uId])))
  }

  /** `channel/removeowner`: channel id outside the list positions 400,
      unknown user 400, user not a member 400, user not an owner 400, user
      the only owner 400, token 403, caller not an owner 403 (user 0
      included).  Only that user leaves the owners; the members stay. */
  function ChannelRemoveOwner(s: Store, token: string, channelId: int, uId: int): (r: Result<Store>)
    ensures !(0 <= channelId < |s.channels|) ==> r == Err(BadRequest)
    ensures 0 <= channelId < |s.channels| ==>
      var c := s.channels[channelId];
      && (!IsUser(s, uId) || uId !in c.allMembers || uId !in c.ownerMembers || |c.ownerMembers| == 1 ==>
            r == Err(BadRequest))
      && (IsUser(s, uId) && uId in c.allMembers && uId in c.ownerMembers && |c.ownerMembers| != 1 ==>
            && (TokenUser(s, token).None? ==> r == Err(Forbidden))
            && (TokenUser(s, token).Some? && TokenUser(s, token).value !in c.ownerMembers ==> r == Err(Forbidden))
            && (TokenUser(s, token).Some? && TokenUser(s, token).value in c.ownerMembers ==>
                  r == Ok(WithChannel(s, channelId, c.(ownerMembers := Without(c.ownerMembers, uId))))))
  {
    if !(0 <= channelId < |s.channels|) then Err(BadRequest)
    else
      var c := s.channels[channelId];
      if !IsUser(s, uId) then Err(BadRequest)
      else if uId !in c.allMembers then Err(BadRequest)
      else if uId !in c.ownerMembers then Err(BadRequest)
      else if |c.ownerMembers| == 1 then Err(BadRequest)
      else
        var u :- TokenOf(s, token);
        if u == 0 && u !in c.ownerMembers then Err(Forbidden)
        else if u != 0 && u !in c.ownerMembers then Err(Forbidden)
        else Ok(WithChannel(s, channelId, c.(ownerMembers := Without(c.ownerMembers, uId))))
  }

  /** An owner who adds an owner and then removes them again gets the store
      back unchanged. */
  lemma AddThenRemoveOwner(s: Store, token: string, channelId: int, uId: int)
    requires ChannelAddOwner(s, token, channelId, uId).Ok?
    requires TokenUser(s, token).value in s.channels[channelId].ownerMembers
    ensures ChannelRemoveOwner(ChannelAddOwner(s, token, channelId, uId).value, token, channelId, uId) == Ok(s)
  {
    var c := s.channels[channelId];
    var s1 := ChannelAddOwner(s, token, channelId, uId).value;
    var c1 := c.(ownerMembers := c.ownerMembers + [uId]);
    assert s1.channels[channelId] == c1;
    assert TokenUser(s, token).value in c1.ownerMembers && uId in c1.ownerMembers;
    assert TokenUser(s, token).value != uId;
    assert |c1.ownerMembers| != 1;
    assert forall j :: 0 <= j < |s.users| ==> s1.users[j] == s.users[j];
    WithoutAppended(c.ownerMembers, uId);
    assert c1.(ownerMembers := Without(c1.ownerMembers, uId)) == c;
    assert s1.channels[channelId := c] == s.channels;
  }

  /** Removing an owner touches only that channel's owner list: the user
      stays a member and every other owner stays an owner. */
  lemma RemoveOwnerKeepsMembers(s: Store, token: string, channelId: int, uId: int)
    requires ChannelRemoveOwner(s, token, channelId, uId).Ok?
    ensures var c' := ChannelRemoveOwner(s, token, channelId, uId).value.channels[channelId];
      && c'.allMembers == s.channels[channelId].allMembers
      && uId in c'.allMembers && uId !in c'.ownerMembers
      && forall x :: x in s.channels[channelId].ownerMembers && x != uId ==> x in c'.ownerMembers
  {
  }
}
