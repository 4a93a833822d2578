/** The per-channel standup state machine: start, the active query, buffered
    send, and the flush that the start timer triggers (an explicit transition
    here).  A flush with buffered lines posts one message built from the
    buffers and allocated from the workspace-wide id space. */
module Standups {
  import opened Base
  import opened Types
  import opened MessageIds

  /** Buffers stay in step, a running standup has a finish time, and a
      standup that is not running is exactly the default record. */
  predicate WellFormed(st: Standup)
  {
    && |st.handles| == |st.lines|
    && (st.isActive || st == DefaultStandup)
    && (st.isActive ==> st.timeFinish.Some?)
  }

  predicate StandupsWellFormed(s: Store)
  {
    forall k :: 0 <= k < |s.channels| ==> WellFormed(s.channels[k].standup)
  }

  // ---- start -----------------------------------------------------------------

  /** `standup/start`: token 403, unknown channel 400, negative length 400, a
      standup already running 400, caller not a member 403 — in that order.
      On success the standup runs until `now + length`, which is returned. */
  function StandupStart(s: Store, token: string, channelId: int, length: int, now: int)
    : (r: Result<(Store, int)>)
    ensures TokenUser(s, token).None? ==> r == Err(Forbidden)
    ensures TokenUser(s, token).Some? && FindChannel(s, channelId).None? ==> r == Err(BadRequest)
    ensures TokenUser(s, token).Some? && FindChannel(s, channelId).Some? ==>
      var k := FindChannel(s, channelId).value;
      var c := s.channels[k];
      var u := TokenUser(s, token).value;
      && (length < 0 ==> r == Err(BadRequest))
      && (length >= 0 && c.standup.isActive ==> r == Err(BadRequest))
      && (length >= 0 && !c.standup.isActive && u !in c.allMembers ==> r == Err(Forbidden))
      && (length >= 0 && !c.standup.isActive && u in c.allMembers ==>
            && r.Ok?
            && r.value.1 == now + length
            && r.value.0 == WithChannel(s, k, c.(standup := c.standup.(
                 isActive := true, timeFinish := Some(now + length), creator := u))))
  {
    var u :- TokenOf(s, token);
    var k :- ChannelOf(s, channelId);
    var c := s.channels[k];
    if length < 0 then Err(BadRequest)
    else if c.standup.isActive then Err(BadRequest)
    else if u !in c.allMembers then Err(Forbidden)
    else
      var finish := now + length;
      var st := c.standup.(isActive := true, timeFinish := Some(finish), creator := u);
      Ok((WithChannel(s, k, c.(standup := st)), finish))
  }

  // ---- the active query ------------------------------------------------------

  /** `standup/active`: token 403, unknown channel 400, non-member 403;
      otherwise whether a standup runs and when it ends (`None` when not
      running in a well-formed channel).  The store is not changed. */
  function StandupActive(s: Store, token: string, channelId: int): (r: Result<(bool, Option<int>)>)
    ensures TokenUser(s, token).None? ==> r == Err(Forbidden)
    ensures TokenUser(s, token).Some? && FindChannel(s, channelId).None? ==> r == Err(BadRequest)
    ensures TokenUser(s, token).Some? && FindChannel(s, channelId).Some? ==>
      var c := s.channels[FindChannel(s, channelId).value];
      && (TokenUser(s, token).value !in c.allMembers ==> r == Err(Forbidden))
      && (TokenUser(s, token).value in c.allMembers ==>
            r == Ok((c.standup.isActive, c.standup.timeFinish)))
  {
    var u :- TokenOf(s, token);
    var k :- ChannelOf(s, channelId);
    var c := s.channels[k];
    if u !in c.allMembers then Err(Forbidden)
    else Ok((c.standup.isActive, c.standup.timeFinish))
  }

  // ---- buffered send ---------------------------------------------------------

  /** `standup/send`: token 403, unknown channel 400, text over 1000 characters
      400, no standup running 400, non-member 403.  An empty text is accepted.
      Success buffers the caller's handle and the text; nothing else changes
      (no message, no statistics sample). */
  function StandupSend(s: Store, token: string, channelId: int, text: string): (r: Result<Store>)
    ensures TokenUser(s, token).None? ==> r == Err(Forbidden)
    ensures TokenUser(s, token).Some? && FindChannel(s, channelId).None? ==> r == Err(BadRequest)
    ensures TokenUser(s, token).Some? && FindChannel(s, channelId).Some? ==>
      var k := FindChannel(s, channelId).value;
      var c := s.channels[k];
      var u := TokenUser(s, token).value;
      && (Utf16Len(text) > 1000 ==> r == Err(BadRequest))
      && (Utf16Len(text) <= 1000 && !c.standup.isActive ==> r == Err(BadRequest))
      && (Utf16Len(text) <= 1000 && c.standup.isActive && u !in c.allMembers ==> r == Err(Forbidden))
      && (Utf16Len(text) <= 1000 && c.standup.isActive && u in c.allMembers ==>
            match HandleOf(s, u)
            case None => r == Err(Crashed)
            case Some(h) =>
              r == Ok(WithChannel(s, k, c.(standup := c.standup.(
                     handles := c.standup.handles + [h], lines := c.standup.lines + [text])))))
  {
    var u :- TokenOf(s, token);
    var k :- ChannelOf(s, channelId);
    var c := s.channels[k];
    if Utf16Len(text) > 1000 then Err(BadRequest)
    else if !c.standup.isActive then Err(BadRequest)
    else if u !in c.allMembers then Err(Forbidden)
    else
      match HandleOf(s, u)
      case None => Err(Crashed)
      case Some(h) =>
        var st := c.standup.(handles := c.standup.handles + [h], lines := c.standup.lines + [text]);
        Ok(WithChannel(s, k, c.(standup := st)))
  }

  // ---- flush -----------------------------------------------------------------

  /** One transcript entry. */
  function Entry(handle: string, line: string): string
  {
    handle + ": " + line + "\n"
  }

  /** The handle buffered with line `i`; JavaScript renders a missing one as
      the text "undefined". */
  function HandleAt(handles: seq<string>, i: nat): string
  {
    if i < |handles| then handles[i] else "undefined"
  }

  /** The standup message body: one entry per buffered line, in buffer order. */
  function Transcript(handles: seq<string>, lines: seq<string>): string
    decreases |lines|
  {
    if |lines| == 0 then ""
    else Transcript(handles, lines[..|lines| - 1]) + Entry(HandleAt(handles, |lines| - 1), lines[|lines| - 1])
  }

  /** Extra handles past the buffered lines do not change the transcript. */
  lemma {:induction false} TranscriptIgnoresLaterHandles(handles: seq<string>, more: seq<string>, lines: seq<string>)
    requires |lines| <= |handles|
    ensures Transcript(handles + more, lines) == Transcript(handles, lines)
    decreases |lines|
  {
    if |lines| > 0 {
      TranscriptIgnoresLaterHandles(handles, more, lines[..|lines| - 1]);
      assert HandleAt(handles + more, |lines| - 1) == HandleAt(handles, |lines| - 1);
    }
  }

  /** Buffering one more (handle, line) pair adds exactly one entry at the end
      of the transcript. */
  lemma TranscriptAppend(handles: seq<string>, lines: seq<string>, h: string, l: string)
    requires |handles| == |lines|
    ensures Transcript(handles + [h], lines + [l]) == Transcript(handles, lines) + Entry(h, l)
  {
    assert (lines + [l])[..|lines|] == lines;
    TranscriptIgnoresLaterHandles(handles, [h], lines);
  }

  /** The message a flush posts. */
  function StandupMessage(s: Store, st: Standup): (m: Message)
    requires st.timeFinish.Some?
    ensures m.messageId == NextMessageId(s) && m.uId == st.creator
    ensures m.timeSent == st.timeFinish.value && m.reacts == [] && !m.isPinned
  {
    Message(NextMessageId(s), st.creator, Transcript(st.handles, st.lines), st.timeFinish.value, [], false)
  }

  /** The timer callback, which looks the channel up again when it fires
      and does not check that the standup it finds is the one it was
      scheduled for.  A channel that is gone (the workspace was cleared in
      between) is a property read on `undefined`; thrown inside a timer, with
      no request to answer, it is an uncaught exception that stops the
      server, reported here as `Crashed`.  With no buffered line
      the standup is reset and nothing is posted; otherwise one message
      (sender the standup's creator, sent at its finish time, no reacts, not
      pinned) is appended and then the standup is reset.  No statistics
      sample is added.  Buffered lines without a finish time cannot arise from
      the handlers (`FlushOfWellFormedSucceeds`); the model reports `Crashed`
      there. */
  function StandupFlush(s: Store, channelId: int): (r: Result<Store>)
    ensures FindChannel(s, channelId).None? ==> r == Err(Crashed)
    ensures FindChannel(s, channelId).Some? ==>
      var k := FindChannel(s, channelId).value;
      var c := s.channels[k];
      && (r.Ok? <==> |c.standup.lines| == 0 || c.standup.timeFinish.Some?)
      && (r.Err? ==> r.code == Crashed)
      && (r.Ok? ==>
            && r.value.users == s.users && r.value.dms == s.dms && r.value.tokens == s.tokens
            && r.value.userStats == s.userStats && r.value.workspaceStats == s.workspaceStats
            && |r.value.channels| == |s.channels|
            && (forall j :: 0 <= j < |s.channels| && j != k ==> r.value.channels[j] == s.channels[j])
            && r.value.channels[k].standup == DefaultStandup
            && r.value.channels[k].(standup := c.standup, messages := c.messages) == c
            && (|c.standup.lines| == 0 ==> r.value.channels[k].messages == c.messages)
            && (|c.standup.lines| > 0 ==>
                  r.value.channels[k].messages == c.messages + [StandupMessage(s, c.standup)]))
  {
    match FindChannel(s, channelId)
    case None => Err(Crashed)
    case Some(k) =>
      var c := s.channels[k];
      if |c.standup.lines| == 0 then
        Ok(WithChannel(s, k, c.(standup := DefaultStandup)))
      else if c.standup.timeFinish.None? then Err(Crashed)
      else
        var m := StandupMessage(s, c.standup);
        Ok(WithChannel(s, k, c.(messages := c.messages + [m], standup := DefaultStandup)))
  }

  // ---- properties ------------------------------------------------------------

  /** Start keeps every standup well formed (a stopped standup has empty
      buffers, so the started one does too). */
  lemma StartKeepsWellFormed(s: Store, token: string, channelId: int, length: int, now: int)
    requires StandupsWellFormed(s)
    requires StandupStart(s, token, channelId, length, now).Ok?
    ensures StandupsWellFormed(StandupStart(s, token, channelId, length, now).value.0)
  {
  }

  /** Send keeps every standup well formed: both buffers grow by one. */
  lemma SendKeepsWellFormed(s: Store, token: string, channelId: int, text: string)
    requires StandupsWellFormed(s)
    requires StandupSend(s, token, channelId, text).Ok?
    ensures StandupsWellFormed(StandupSend(s, token, channelId, text).value)
  {
  }

  /** Flush leaves a well-formed store (the flushed channel holds the default
      record again). */
  lemma FlushKeepsWellFormed(s: Store, channelId: int)
    requires StandupsWellFormed(s)
    requires StandupFlush(s, channelId).Ok?
    ensures StandupsWellFormed(StandupFlush(s, channelId).value)
  {
  }

  /** The flushed message takes a fresh id, so ids stay unique. */
  lemma {:induction false} FlushKeepsIdsUnique(s: Store, channelId: int)
    requires MessageIdsUnique(s)
    requires StandupFlush(s, channelId).Ok?
    ensures MessageIdsUnique(StandupFlush(s, channelId).value)
  {
    var k := FindChannel(s, channelId).value;
    var c := s.channels[k];
    if |c.standup.lines| == 0 {
      ChannelIdsUpdate(s, k, c.(standup := DefaultStandup));
      assert IdLists(s)[k := MsgIds(c.messages)] == IdLists(s);
    } else {
      var m := StandupMessage(s, c.standup);
      ChannelAppendKeepsUnique(s, k, m);
      assert WithChannel(s, k, c.(messages := c.messages + [m], standup := DefaultStandup)).channels
        == WithChannel(s, k, c.(messages := c.messages + [m])).channels[k := c.(messages := c.messages + [m], standup := DefaultStandup)];
      ChannelIdsUpdate(s, k, c.(messages := c.messages + [m], standup := DefaultStandup));
      ChannelIdsUpdate(s, k, c.(messages := c.messages + [m]));
    }
  }

  /** On a store the handlers can reach, the flush fails only when the
      channel is gone. */
  lemma FlushOfWellFormedSucceeds(s: Store, channelId: int)
    requires StandupsWellFormed(s)
    ensures StandupFlush(s, channelId).Ok? <==> FindChannel(s, channelId).Some?
  {
    if FindChannel(s, channelId).Some? {
      var k := FindChannel(s, channelId).value;
      assert WellFormed(s.channels[k].standup);
    }
  }

  /** A timer that fires after the workspace was cleared finds no channel. */
  lemma FlushAfterClearCrashes(channelId: int)
    ensures StandupFlush(InitialStore(), channelId) == Err(Crashed)
  {
  }

  /** A timer that fires on a channel whose standup is not running (it was
      flushed already, or the id now names another channel) changes
      nothing. */
  lemma FlushOfIdleChangesNothing(s: Store, channelId: int)
    requires StandupsWellFormed(s)
    requires FindChannel(s, channelId).Some?
    requires !s.channels[FindChannel(s, channelId).value].standup.isActive
    ensures StandupFlush(s, channelId) == Ok(s)
  {
    var k := FindChannel(s, channelId).value;
    assert WellFormed(s.channels[k].standup);
    assert s.channels[k := s.channels[k]] == s.channels;
  }

  /** Once a start succeeds, the active query (by a member) reports the
      running standup and its finish time. */
  lemma StartThenActive(s: Store, token: string, channelId: int, length: int, now: int)
    requires StandupStart(s, token, channelId, length, now).Ok?
    ensures var s' := StandupStart(s, token, channelId, length, now).value.0;
      StandupActive(s', token, channelId) == Ok((true, Some(now + length)))
  {
    var k := FindChannel(s, channelId).value;
    var s' := StandupStart(s, token, channelId, length, now).value.0;
    assert s'.tokens == s.tokens;
    assert FindChannel(s', channelId) == FindChannel(s, channelId) by {
      assert forall j :: 0 <= j < |s.channels| ==> s'.channels[j].channelId == s.channels[j].channelId;
    }
  }

  /** A transcript holds one entry per buffered pair, in buffer order:
      start, two sends and a flush give "a: hi\nb: yo\n". */
  lemma TwoLineTranscript()
    ensures Transcript(["a", "b"], ["hi", "yo"]) == "a: hi\nb: yo\n"
  {
    TranscriptAppend(["a"], ["hi"], "b", "yo");
    assert ["a"] + ["b"] == ["a", "b"];
    assert ["hi"] + ["yo"] == ["hi", "yo"];
    assert ["hi"][..0] == [];
  }
}
