/** Channel messages and the operations on a message wherever it lives:
    send (with the standup redirect), edit, remove, react and unreact, share,
    pin and unpin, and the validation and id prediction of the delayed
    sends. */
module Messages {
  import opened Base
  import opened Types
  import opened MessageIds
  import opened Ledger
  import opened Standups
  import opened Dms

  // ---- message containers ----------------------------------------------------

  function MembersAt(s: Store, l: Loc): seq<int>
    requires ValidLoc(s, l)
  {
    match l
    case InChannel(k, _) => s.channels[k].allMembers
    case InDm(k, _) => s.dms[k].allMembers
  }

  function OwnersAt(s: Store, l: Loc): seq<int>
    requires ValidLoc(s, l)
  {
    match l
    case InChannel(k, _) => s.channels[k].ownerMembers
    case InDm(k, _) => s.dms[k].ownerMembers
  }

  /** Replace the message at `l`: that message is `m` afterwards and the rest
      of the store is as it was (see `UpdateAtElsewhere`). */
  function UpdateAt(s: Store, l: Loc, m: Message): (r: Store)
    requires ValidLoc(s, l)
    ensures ValidLoc(r, l) && MessageAt(r, l) == m
    ensures |r.channels| == |s.channels| && |r.dms| == |s.dms|
    ensures r.users == s.users && r.tokens == s.tokens
    ensures r.userStats == s.userStats && r.workspaceStats == s.workspaceStats
  {
    match l
    case InChannel(k, i) =>
      var c := s.channels[k];
      WithChannel(s, k, c.(messages := c.messages[i := m]))
    case InDm(k, i) =>
      var d := s.dms[k];
      WithDm(s, k, d.(messages := d.messages[i := m]))
  }

  /** Every other message and every membership list survives `UpdateAt`. */
  lemma UpdateAtElsewhere(s: Store, l: Loc, m: Message)
    requires ValidLoc(s, l)
    ensures forall l' :: ValidLoc(s, l') <==> ValidLoc(UpdateAt(s, l, m), l')
    ensures forall l' :: ValidLoc(s, l') && l' != l ==> MessageAt(UpdateAt(s, l, m), l') == MessageAt(s, l')
    ensures forall l' :: ValidLoc(s, l') ==>
      MembersAt(UpdateAt(s, l, m), l') == MembersAt(s, l') && OwnersAt(UpdateAt(s, l, m), l') == OwnersAt(s, l')
  {
  }

  /** Writing back the message that is already there changes nothing, so a
      second write undoes a first. */
  lemma UpdateAtTwice(s: Store, l: Loc, m: Message)
    requires ValidLoc(s, l)
    ensures UpdateAt(UpdateAt(s, l, m), l, MessageAt(s, l)) == s
  {
    match l
    case InChannel(k, i) =>
      assert s.channels[k].messages[i := m][i := MessageAt(s, l)] == s.channels[k].messages;
    case InDm(k, i) =>
      assert s.dms[k].messages[i := m][i := MessageAt(s, l)] == s.dms[k].messages;
  }

  lemma MsgIdsSet(ms: seq<Message>, i: nat, m: Message)
    requires i < |ms| && ms[i].messageId == m.messageId
    ensures MsgIds(ms[i := m]) == MsgIds(ms)
  {
  }

  lemma ChannelSetKeepsIds(s: Store, k: nat, i: nat, m: Message)
    requires k < |s.channels| && i < |s.channels[k].messages|
    requires s.channels[k].messages[i].messageId == m.messageId
    ensures IdLists(WithChannel(s, k, s.channels[k].(messages := s.channels[k].messages[i := m]))) == IdLists(s)
  {
    var c := s.channels[k];
    MsgIdsSet(c.messages, i, m);
    ChannelIdsUpdate(s, k, c.(messages := c.messages[i := m]));
    assert IdLists(s)[k] == MsgIds(c.messages);
  }

  lemma DmSetKeepsIds(s: Store, k: nat, i: nat, m: Message)
    requires k < |s.dms| && i < |s.dms[k].messages|
    requires s.dms[k].messages[i].messageId == m.messageId
    ensures IdLists(WithDm(s, k, s.dms[k].(messages := s.dms[k].messages[i := m]))) == IdLists(s)
  {
    var d := s.dms[k];
    MsgIdsSet(d.messages, i, m);
    DmIdsUpdate(s, k, d.(messages := d.messages[i := m]));
    assert IdLists(s)[|s.channels| + k] == MsgIds(d.messages);
  }

  /** Keeping the id of the message at `l` keeps every id list, hence every
      lookup by id. */
  lemma UpdateAtKeepsIds(s: Store, l: Loc, m: Message)
    requires ValidLoc(s, l) && m.messageId == MessageAt(s, l).messageId
    ensures IdLists(UpdateAt(s, l, m)) == IdLists(s)
    ensures forall id :: Locate(UpdateAt(s, l, m), id) == Locate(s, id)
  {
    if l.InChannel? {
      ChannelSetKeepsIds(s, l.k, l.i, m);
    } else {
      DmSetKeepsIds(s, l.k, l.i, m);
    }
    forall id ensures Locate(UpdateAt(s, l, m), id) == Locate(s, id) {
      LocateByIds(s, UpdateAt(s, l, m), id);
    }
  }

  /** The message with id `id`, or 400. */
  function LocateOf(s: Store, id: int): (r: Result<Loc>)
    ensures r.Ok? <==> Locate(s, id).Some?
    ensures r.Ok? ==> r.value == Locate(s, id).value && ValidLoc(s, r.value)
    ensures r.Err? ==> r.code == BadRequest
  {
    match Locate(s, id)
    case None => Err(BadRequest)
    case Some(l) => Ok(l)
  }

  // ---- send ------------------------------------------------------------------

  /** Append `m` to every channel whose id is `channelId`. */
  function AppendToChannels(chs: seq<Channel>, channelId: int, m: Message): (r: seq<Channel>)
    ensures |r| == |chs|
    ensures forall j :: 0 <= j < |chs| ==>
      r[j] == if chs[j].channelId == channelId then chs[j].(messages := chs[j].messages + [m]) else chs[j]
  {
    seq(|chs|, j requires 0 <= j < |chs| =>
      if chs[j].channelId == channelId then chs[j].(messages := chs[j].messages + [m]) else chs[j])
  }

  predicate ChannelIdsDistinct(s: Store)
  {
    forall j, k :: 0 <= j < k < |s.channels| ==> s.channels[j].channelId != s.channels[k].channelId
  }

  lemma AppendToChannelsIsOne(s: Store, channelId: int, m: Message)
    requires ChannelIdsDistinct(s) && FindChannel(s, channelId).Some?
    ensures var k := FindChannel(s, channelId).value;
      AppendToChannels(s.channels, channelId, m) == s.channels[k := s.channels[k].(messages := s.channels[k].messages + [m])]
  {
    var k := FindChannel(s, channelId).value;
    forall j | 0 <= j < |s.channels| && j != k ensures s.channels[j].channelId != channelId {
      if j < k { assert s.channels[j].channelId != s.channels[k].channelId; }
      else { assert s.channels[k].channelId != s.channels[j].channelId; }
    }
  }

  /** `message/send`: the standup query comes first (token 403, unknown
      channel 400, non-member 403).  While a standup runs the text is handed
      to the standup buffer and no id is returned.  Otherwise a text shorter
      than 1 or longer than 1000 characters is 400; the message gets the
      next workspace-wide id and the sender a message sample of +1. */
  function MessageSend(s: Store, token: string, channelId: int, text: string, now: int)
    : (r: Result<(Store, Option<int>)>)
    ensures StandupActive(s, token, channelId).Err? ==> r == Err(StandupActive(s, token, channelId).code)
    ensures StandupActive(s, token, channelId).Ok? && StandupActive(s, token, channelId).value.0 ==>
      match StandupSend(s, token, channelId, text)
      case Err(e) => r == Err(e)
      case Ok(s') => r == Ok((s', None))
    ensures StandupActive(s, token, channelId).Ok? && !StandupActive(s, token, channelId).value.0 ==>
      var u := TokenUser(s, token).value;
      && ((Utf16Len(text) < 1 || Utf16Len(text) > 1000) ==> r == Err(BadRequest))
      && (1 <= Utf16Len(text) <= 1000 ==> (r.Ok? <==> u in s.userStats))
      && (r.Ok? ==>
            var id := NextMessageId(s);
            && r.value.1 == Some(id)
            && r.value.0.channels == AppendToChannels(s.channels, channelId, NewMessage(id, u, text, now))
            && r.value.0.dms == s.dms && r.value.0.users == s.users && r.value.0.tokens == s.tokens
            && r.value.0.userStats == Bump(s.userStats, u, MessagesSent, 1, now))
  {
    var (active, _) :- StandupActive(s, token, channelId);
    if active then
      var s' :- StandupSend(s, token, channelId, text);
      Ok((s', None))
    else
      match TokenUser(s, token)
      case None => Err(Forbidden)
      case Some(u) =>
        if Utf16Len(text) < 1 || Utf16Len(text) > 1000 then Err(BadRequest)
        else
        var id := NextMessageId(s);
        var s1 := s.(channels := AppendToChannels(s.channels, channelId, NewMessage(id, u, text, now)));
        var s2 :- Record(s1, u, MessagesSent, 1, now);
        Ok((s2, Some(id)))
  }

  /** A message sent to a channel (distinct channel ids) becomes the last
      message of the channel found, and ids stay unique. */
  lemma MessageSendKeepsIdsUnique(s: Store, token: string, channelId: int, text: string, now: int)
    requires MessageIdsUnique(s) && ChannelIdsDistinct(s)
    requires MessageSend(s, token, channelId, text, now).Ok?
    ensures MessageIdsUnique(MessageSend(s, token, channelId, text, now).value.0)
    ensures var (s', id) := MessageSend(s, token, channelId, text, now).value;
      id.Some? ==>
        var k := FindChannel(s, channelId).value;
        s'.channels[k].messages == s.channels[k].messages + [NewMessage(id.value, TokenUser(s, token).value, text, now)]
  {
    var (s', id) := MessageSend(s, token, channelId, text, now).value;
    var k := FindChannel(s, channelId).value;
    if id.Some? {
      var m := NewMessage(id.value, TokenUser(s, token).value, text, now);
      AppendToChannelsIsOne(s, channelId, m);
      StoredAppendKeepsUnique(s, s', k, m);
    } else {
      StandupSendKeepsIds(s, token, channelId, text);
    }
  }

  /** A store whose channel `k` gained the message with the allocated id,
      and which is otherwise as before, keeps ids unique. */
  lemma StoredAppendKeepsUnique(s: Store, s': Store, k: nat, m: Message)
    requires MessageIdsUnique(s) && k < |s.channels| && m.messageId == NextMessageId(s)
    requires s'.channels == s.channels[k := s.channels[k].(messages := s.channels[k].messages + [m])]
    requires s'.dms == s.dms
    ensures MessageIdsUnique(s')
  {
    ChannelAppendKeepsUnique(s, k, m);
    assert IdLists(s') == IdLists(WithChannel(s, k, s.channels[k].(messages := s.channels[k].messages + [m])));
  }

  /** Buffering into a standup stores no message. */
  lemma StandupSendKeepsIds(s: Store, token: string, channelId: int, text: string)
    requires StandupSend(s, token, channelId, text).Ok?
    ensures IdLists(StandupSend(s, token, channelId, text).value) == IdLists(s)
  {
    var k := FindChannel(s, channelId).value;
    var s1 := StandupSend(s, token, channelId, text).value;
    ChannelIdsUpdate(s, k, s1.channels[k]);
  }

  // ---- remove ----------------------------------------------------------------

  /** JavaScript's `for (i in ms) if (ms[i].messageId === id) ms.splice(i, 1)`
      from index `i`: the element moving into a spliced slot is skipped. */
  function SpliceMatching(ms: seq<Message>, id: int, i: nat): (r: seq<Message>)
    ensures |r| <= |ms|
    decreases |ms| + 1 - i
  {
    if i >= |ms| then ms
    else if ms[i].messageId == id then SpliceMatching(RemoveAt(ms, i), id, i + 1)
    else SpliceMatching(ms, id, i + 1)
  }

  lemma {:induction false} SpliceMatchingNone(ms: seq<Message>, id: int, i: nat)
    requires forall j :: i <= j < |ms| ==> ms[j].messageId != id
    ensures SpliceMatching(ms, id, i) == ms
    decreases |ms| + 1 - i
  {
    if i < |ms| {
      SpliceMatchingNone(ms, id, i + 1);
    }
  }

  /** With exactly one match (at `c`), the loop removes exactly that one. */
  lemma {:induction false} SpliceMatchingOnce(ms: seq<Message>, id: int, i: nat, c: nat)
    requires i <= c < |ms| && ms[c].messageId == id
    requires forall j :: i <= j < |ms| && j != c ==> ms[j].messageId != id
    ensures SpliceMatching(ms, id, i) == RemoveAt(ms, c)
    decreases |ms| + 1 - i
  {
    if i < c {
      SpliceMatchingOnce(ms, id, i + 1, c);
    } else {
      var rest := RemoveAt(ms, c);
      forall j | c + 1 <= j < |rest| ensures rest[j].messageId != id {
        assert rest[j] == ms[j + 1];
      }
      SpliceMatchingNone(rest, id, c + 1);
    }
  }

  predicate InSomeChannel(s: Store, id: int)
  {
    exists k, i :: 0 <= k < |s.channels| && 0 <= i < |s.channels[k].messages| && s.channels[k].messages[i].messageId == id
  }

  predicate InSomeDm(s: Store, id: int)
  {
    exists k, i :: 0 <= k < |s.dms| && 0 <= i < |s.dms[k].messages| && s.dms[k].messages[i].messageId == id
  }

  /** The removal loops: every channel is swept when the id occurs in some
      channel, every DM when it occurs in some DM. */
  function Sweep(s: Store, id: int): (r: Store)
    ensures |r.channels| == |s.channels| && |r.dms| == |s.dms|
    ensures r.(channels := s.channels, dms := s.dms) == s
    ensures forall k :: 0 <= k < |s.channels| ==>
      r.channels[k] == (if InSomeChannel(s, id) then s.channels[k].(messages := SpliceMatching(s.channels[k].messages, id, 0)) else s.channels[k])
    ensures forall k :: 0 <= k < |s.dms| ==>
      r.dms[k] == (if InSomeDm(s, id) then s.dms[k].(messages := SpliceMatching(s.dms[k].messages, id, 0)) else s.dms[k])
  {
    var chs := if InSomeChannel(s, id) then
        seq(|s.channels|, k requires 0 <= k < |s.channels| =>
          s.channels[k].(messages := SpliceMatching(s.channels[k].messages, id, 0)))
      else s.channels;
    var dms := if InSomeDm(s, id) then
        seq(|s.dms|, k requires 0 <= k < |s.dms| =>
          s.dms[k].(messages := SpliceMatching(s.dms[k].messages, id, 0)))
      else s.dms;
    s.(channels := chs, dms := dms)
  }

  /** The message at `l` taken out of its container. */
  function DeleteAt(s: Store, l: Loc): (r: Store)
    requires ValidLoc(s, l)
  {
    match l
    case InChannel(k, i) =>
      var c := s.channels[k];
      WithChannel(s, k, c.(messages := RemoveAt(c.messages, i)))
    case InDm(k, i) =>
      var d := s.dms[k];
      WithDm(s, k, d.(messages := RemoveAt(d.messages, i)))
  }

  /** With unique ids the sweep leaves channel `k` as the deletion does. */
  lemma SweepChannel(s: Store, l: Loc, k: nat)
    requires MessageIdsUnique(s) && ValidLoc(s, l) && k < |s.channels|
    ensures Sweep(s, MessageAt(s, l).messageId).channels[k] == DeleteAt(s, l).channels[k]
  {
    var id := MessageAt(s, l).messageId;
    var ms := s.channels[k].messages;
    if l == InChannel(k, l.i) {
      forall j | 0 <= j < |ms| && j != l.i ensures ms[j].messageId != id {
        if ms[j].messageId == id { LocatedIsOnly(s, l, InChannel(k, j)); }
      }
      SpliceMatchingOnce(ms, id, 0, l.i);
    } else {
      forall j | 0 <= j < |ms| ensures ms[j].messageId != id {
        if ms[j].messageId == id { LocatedIsOnly(s, l, InChannel(k, j)); }
      }
      SpliceMatchingNone(ms, id, 0);
    }
  }

  /** With unique ids the sweep leaves DM `k` as the deletion does. */
  lemma SweepDm(s: Store, l: Loc, k: nat)
    requires MessageIdsUnique(s) && ValidLoc(s, l) && k < |s.dms|
    ensures Sweep(s, MessageAt(s, l).messageId).dms[k] == DeleteAt(s, l).dms[k]
  {
    var id := MessageAt(s, l).messageId;
    var ms := s.dms[k].messages;
    if l == InDm(k, l.i) {
      forall j | 0 <= j < |ms| && j != l.i ensures ms[j].messageId != id {
        if ms[j].messageId == id { LocatedIsOnly(s, l, InDm(k, j)); }
      }
      SpliceMatchingOnce(ms, id, 0, l.i);
    } else {
      forall j | 0 <= j < |ms| ensures ms[j].messageId != id {
        if ms[j].messageId == id { LocatedIsOnly(s, l, InDm(k, j)); }
      }
      SpliceMatchingNone(ms, id, 0);
    }
  }

  /** With unique ids the sweep deletes exactly the located message, and the
      remaining ids stay unique. */
  lemma SweepDeletesOne(s: Store, l: Loc)
    requires MessageIdsUnique(s) && ValidLoc(s, l)
    ensures Sweep(s, MessageAt(s, l).messageId) == DeleteAt(s, l)
    ensures MessageIdsUnique(DeleteAt(s, l))
  {
    var id := MessageAt(s, l).messageId;
    var r := Sweep(s, id);
    forall k | 0 <= k < |s.channels|
      ensures r.channels[k] == DeleteAt(s, l).channels[k]
    {
      SweepChannel(s, l, k);
    }
    forall k | 0 <= k < |s.dms|
      ensures r.dms[k] == DeleteAt(s, l).dms[k]
    {
      SweepDm(s, l, k);
    }
    DeleteKeepsUnique(s, l);
  }

  lemma DeleteKeepsUnique(s: Store, l: Loc)
    requires MessageIdsUnique(s) && ValidLoc(s, l)
    ensures MessageIdsUnique(DeleteAt(s, l))
  {
    match l
    case InChannel(k, i) => DeleteInChannelKeepsUnique(s, k, i);
    case InDm(k, i) => DeleteInDmKeepsUnique(s, k, i);
  }

  lemma DeleteInChannelKeepsUnique(s: Store, k: nat, i: nat)
    requires MessageIdsUnique(s) && ValidLoc(s, InChannel(k, i))
    ensures MessageIdsUnique(DeleteAt(s, InChannel(k, i)))
  {
    SlotHoldsId(s, InChannel(k, i));
    var c := s.channels[k];
    ChannelIdsUpdate(s, k, c.(messages := RemoveAt(c.messages, i)));
    MsgIdsRemove(c.messages, i);
    RemoveKeepsUnique(IdLists(s), k, i);
  }

  lemma DeleteInDmKeepsUnique(s: Store, k: nat, i: nat)
    requires MessageIdsUnique(s) && ValidLoc(s, InDm(k, i))
    ensures MessageIdsUnique(DeleteAt(s, InDm(k, i)))
  {
    SlotHoldsId(s, InDm(k, i));
    var d := s.dms[k];
    DmIdsUpdate(s, k, d.(messages := RemoveAt(d.messages, i)));
    MsgIdsRemove(d.messages, i);
    assert IdLists(s)[|s.channels| + k] == MsgIds(d.messages);
    RemoveKeepsUnique(IdLists(s), |s.channels| + k, i);
  }

  /** The caller may change a message they sent, or any message in a
      container they own. */
  predicate MayChange(s: Store, l: Loc, u: int)
    requires ValidLoc(s, l)
  {
    u in OwnersAt(s, l) || MessageAt(s, l).uId == u
  }

  /** `message/remove`: token 403, unknown id 400, caller neither sender nor
      owner of the container 403.  The message is swept out of its
      container; no statistics sample is taken. */
  function MessageRemove(s: Store, token: string, messageId: int): (r: Result<Store>)
    ensures TokenUser(s, token).None? ==> r == Err(Forbidden)
    ensures TokenUser(s, token).Some? && Locate(s, messageId).None? ==> r == Err(BadRequest)
    ensures TokenUser(s, token).Some? && Locate(s, messageId).Some? ==>
      var l := Locate(s, messageId).value;
      && (!MayChange(s, l, TokenUser(s, token).value) ==> r == Err(Forbidden))
      && (MayChange(s, l, TokenUser(s, token).value) ==> r == Ok(Sweep(s, messageId)))
  {
    var u :- TokenOf(s, token);
    var l :- LocateOf(s, messageId);
    if !MayChange(s, l, u) then Err(Forbidden)
    else Ok(Sweep(s, messageId))
  }

  /** With unique ids a removal deletes exactly the message with that id and
      keeps the remaining ids unique; every other message stays in order. */
  lemma MessageRemoveDeletesOne(s: Store, token: string, messageId: int)
    requires MessageIdsUnique(s)
    requires MessageRemove(s, token, messageId).Ok?
    ensures MessageRemove(s, token, messageId).value == DeleteAt(s, Locate(s, messageId).value)
    ensures MessageIdsUnique(MessageRemove(s, token, messageId).value)
  {
    SweepDeletesOne(s, Locate(s, messageId).value);
  }

  // ---- edit ------------------------------------------------------------------

  function SetText(ms: seq<Message>, id: int, text: string): (r: seq<Message>)
    ensures |r| == |ms|
    ensures forall i :: 0 <= i < |ms| ==> r[i] == if ms[i].messageId == id then ms[i].(text := text) else ms[i]
  {
    seq(|ms|, i requires 0 <= i < |ms| => if ms[i].messageId == id then ms[i].(text := text) else ms[i])
  }

  /** The editing loops: the text of every message with that id is replaced,
      in channels when the id occurs in a channel, in DMs when it occurs in
      a DM. */
  function Retext(s: Store, id: int, text: string): (r: Store)
    ensures |r.channels| == |s.channels| && |r.dms| == |s.dms|
    ensures r.(channels := s.channels, dms := s.dms) == s
    ensures forall k :: 0 <= k < |s.channels| ==>
      r.channels[k] == s.channels[k].(messages := SetText(s.channels[k].messages, id, text))
    ensures forall k :: 0 <= k < |s.dms| ==>
      r.dms[k] == s.dms[k].(messages := SetText(s.dms[k].messages, id, text))
  {
    var chs := seq(|s.channels|, k requires 0 <= k < |s.channels| =>
      s.channels[k].(messages := SetText(s.channels[k].messages, id, text)));
    var dms := seq(|s.dms|, k requires 0 <= k < |s.dms| =>
      s.dms[k].(messages := SetText(s.dms[k].messages, id, text)));
    s.(channels := chs, dms := dms)
  }

  /** `message/edit`: token 403, text over 1000 characters 400, unknown id
      400, caller neither sender nor owner 403.  An empty text removes the
      message; any other text replaces the message's text. */
  function MessageEdit(s: Store, token: string, messageId: int, text: string): (r: Result<Store>)
    ensures TokenUser(s, token).None? ==> r == Err(Forbidden)
    ensures TokenUser(s, token).Some? && Utf16Len(text) > 1000 ==> r == Err(BadRequest)
    ensures TokenUser(s, token).Some? && Utf16Len(text) <= 1000 && Locate(s, messageId).None? ==> r == Err(BadRequest)
    ensures TokenUser(s, token).Some? && Utf16Len(text) <= 1000 && Locate(s, messageId).Some? ==>
      var l := Locate(s, messageId).value;
      && (!MayChange(s, l, TokenUser(s, token).value) ==> r == Err(Forbidden))
      && (MayChange(s, l, TokenUser(s, token).value) && |text| == 0 ==> r == MessageRemove(s, token, messageId))
      && (MayChange(s, l, TokenUser(s, token).value) && Utf16Len(text) > 0 ==> r == Ok(Retext(s, messageId, text)))
  {
    var u :- TokenOf(s, token);
    if Utf16Len(text) > 1000 then Err(BadRequest)
    else
      var l :- LocateOf(s, messageId);
      if !MayChange(s, l, u) then Err(Forbidden)
      else if |text| == 0 then MessageRemove(s, token, messageId)
      else Ok(Retext(s, messageId, text))
  }

  lemma SetTextNone(ms: seq<Message>, id: int, text: string)
    requires forall j :: 0 <= j < |ms| ==> ms[j].messageId != id
    ensures SetText(ms, id, text) == ms
  {
  }

  lemma SetTextOne(ms: seq<Message>, id: int, text: string, i: nat)
    requires i < |ms| && ms[i].messageId == id
    requires forall j :: 0 <= j < |ms| && j != i ==> ms[j].messageId != id
    ensures SetText(ms, id, text) == ms[i := ms[i].(text := text)]
  {
  }

  /** With unique ids, retexting a located id is an update of that one
      message. */
  lemma RetextIsUpdate(s: Store, l: Loc, text: string)
    requires MessageIdsUnique(s) && ValidLoc(s, l)
    ensures Retext(s, MessageAt(s, l).messageId, text) == UpdateAt(s, l, MessageAt(s, l).(text := text))
  {
    var id := MessageAt(s, l).messageId;
    var r := Retext(s, id, text);
    var e := UpdateAt(s, l, MessageAt(s, l).(text := text));
    forall k | 0 <= k < |s.channels| ensures r.channels[k] == e.channels[k] {
      var ms := s.channels[k].messages;
      if l.InChannel? && l.k == k {
        forall j | 0 <= j < |ms| && j != l.i ensures ms[j].messageId != id {
          if ms[j].messageId == id { LocatedIsOnly(s, l, InChannel(k, j)); }
        }
        SetTextOne(ms, id, text, l.i);
      } else {
        forall j | 0 <= j < |ms| ensures ms[j].messageId != id {
          if ms[j].messageId == id { LocatedIsOnly(s, l, InChannel(k, j)); }
        }
        SetTextNone(ms, id, text);
      }
    }
    forall k | 0 <= k < |s.dms| ensures r.dms[k] == e.dms[k] {
      var ms := s.dms[k].messages;
      if l.InDm? && l.k == k {
        forall j | 0 <= j < |ms| && j != l.i ensures ms[j].messageId != id {
          if ms[j].messageId == id { LocatedIsOnly(s, l, InDm(k, j)); }
        }
        SetTextOne(ms, id, text, l.i);
      } else {
        forall j | 0 <= j < |ms| ensures ms[j].messageId != id {
          if ms[j].messageId == id { LocatedIsOnly(s, l, InDm(k, j)); }
        }
        SetTextNone(ms, id, text);
      }
    }
    assert r.channels == e.channels && r.dms == e.dms;
  }

  /** With unique ids an edit changes the text of the one message with that
      id and nothing else. */
  lemma MessageEditChangesOne(s: Store, token: string, messageId: int, text: string)
    requires MessageIdsUnique(s) && Utf16Len(text) > 0
    requires MessageEdit(s, token, messageId, text).Ok?
    ensures var l := Locate(s, messageId).value;
      MessageEdit(s, token, messageId, text).value == UpdateAt(s, l, MessageAt(s, l).(text := text))
  {
    RetextIsUpdate(s, Locate(s, messageId).value, text);
  }

  // ---- react / unreact -------------------------------------------------------

  /** The react slot with id 1 of a message, or a 500 where the handler reads
      a missing slot. */
  function ReactSlot(m: Message): (r: Result<nat>)
    ensures r.Ok? <==> exists j :: 0 <= j < |m.reacts| && m.reacts[j].reactId == 1
    ensures r.Ok? ==> r.value < |m.reacts| && m.reacts[r.value].reactId == 1
    ensures r.Ok? ==> forall j :: 0 <= j < r.value ==> m.reacts[j].reactId != 1
    ensures r.Err? ==> r.code == Crashed
  {
    match FirstIndex(m.reacts, (x: React) => x.reactId == 1)
    case None => Err(Crashed)
    case Some(j) => Ok(j)
  }

  /** The notification the sender of a message receives for a react. */
  function ReactNote(s: Store, l: Loc, reactor: string): Notification
    requires ValidLoc(s, l)
  {
    match l
    case InChannel(k, _) =>
      Notification(s.channels[k].channelId, -1, reactor + " reacted to your message in " + s.channels[k].name)
    case InDm(k, _) =>
      Notification(-1, s.dms[k].dmId, reactor + " reacted to your message in " + s.dms[k].name)
  }

  /** `message/react`: token 403, unknown id 400, react id other than 1 400,
      caller not a member of the container 400, no react slot 1 (500),
      caller already reacted 400.  The caller is appended to the slot, and
      the sender, when a member, is notified (a 500 when the sender's or the
      caller's record is missing). */
  function MessageReact(s: Store, token: string, messageId: int, reactId: int): (r: Result<Store>)
    ensures TokenUser(s, token).None? ==> r == Err(Forbidden)
    ensures TokenUser(s, token).Some? && Locate(s, messageId).None? ==> r == Err(BadRequest)
    ensures TokenUser(s, token).Some? && Locate(s, messageId).Some? ==>
      var u := TokenUser(s, token).value;
      var l := Locate(s, messageId).value;
      var m := MessageAt(s, l);
      && (reactId != 1 ==> r == Err(BadRequest))
      && (reactId == 1 && u !in MembersAt(s, l) ==> r == Err(BadRequest))
      && (reactId == 1 && u in MembersAt(s, l) && ReactSlot(m).Err? ==> r == Err(Crashed))
      && (reactId == 1 && u in MembersAt(s, l) && ReactSlot(m).Ok? ==>
            var j := ReactSlot(m).value;
            && (u in m.reacts[j].uIds ==> r == Err(BadRequest))
            && (u !in m.reacts[j].uIds ==>
                  var m' := m.(reacts := m.reacts[j := React(1, m.reacts[j].uIds + [u], true)]);
                  var s1 := UpdateAt(s, l, m');
                  && (m.uId !in MembersAt(s, l) ==> r == Ok(s1))
                  && (m.uId in MembersAt(s, l) ==>
                        (r.Ok? <==> IsUser(s, m.uId) && IsUser(s, u))
                        && (r.Ok? ==> r == Notify(s1, m.uId, ReactNote(s, l, HandleOf(s, u).value))))))
  {
    var u :- TokenOf(s, token);
    var l :- LocateOf(s, messageId);
    var m := MessageAt(s, l);
    if reactId != 1 then Err(BadRequest)
    else if u !in MembersAt(s, l) then Err(BadRequest)
    else
      var j :- ReactSlot(m);
      if u in m.reacts[j].uIds then Err(BadRequest)
      else
        var m' := m.(reacts := m.reacts[j := React(1, m.reacts[j].uIds + [u], true)]);
        var s1 := UpdateAt(s, l, m');
        if m.uId !in MembersAt(s, l) then Ok(s1)
        else if !IsUser(s, m.uId) then Err(Crashed)
        else match HandleOf(s, u)
          case None => Err(Crashed)
          case Some(h) => Notify(s1, m.uId, ReactNote(s, l, h))
  }

  /** `message/unreact`: token 403, unknown id 400, react id other than 1
      400, caller not a member 400, no react slot 1 (500), caller has not
      reacted 400.  The caller's first entry is spliced out of the slot and
      the slot's flag cleared. */
  function MessageUnreact(s: Store, token: string, messageId: int, reactId: int): (r: Result<Store>)
    ensures TokenUser(s, token).None? ==> r == Err(Forbidden)
    ensures TokenUser(s, token).Some? && Locate(s, messageId).None? ==> r == Err(BadRequest)
    ensures TokenUser(s, token).Some? && Locate(s, messageId).Some? ==>
      var u := TokenUser(s, token).value;
      var l := Locate(s, messageId).value;
      var m := MessageAt(s, l);
      && (reactId != 1 ==> r == Err(BadRequest))
      && (reactId == 1 && u !in MembersAt(s, l) ==> r == Err(BadRequest))
      && (reactId == 1 && u in MembersAt(s, l) && ReactSlot(m).Err? ==> r == Err(Crashed))
      && (reactId == 1 && u in MembersAt(s, l) && ReactSlot(m).Ok? ==>
            var j := ReactSlot(m).value;
            var ids := m.reacts[j].uIds;
            && (u !in ids ==> r == Err(BadRequest))
            && (u in ids ==>
                  r == Ok(UpdateAt(s, l, m.(reacts := m.reacts[j := React(1, RemoveAt(ids, IndexOf(ids, u)), false)])))))
  {
    var u :- TokenOf(s, token);
    var l :- LocateOf(s, messageId);
    var m := MessageAt(s, l);
    if reactId != 1 then Err(BadRequest)
    else if u !in MembersAt(s, l) then Err(BadRequest)
    else
      var j :- ReactSlot(m);
      var ids := m.reacts[j].uIds;
      if u !in ids then Err(BadRequest)
      else Ok(UpdateAt(s, l, m.(reacts := m.reacts[j := React(1, RemoveAt(ids, IndexOf(ids, u)), false)])))
  }

  /** What a successful react leaves behind: the reacted message in place of
      the original, every id where it was, the sessions untouched. */
  lemma ReactOutcome(s: Store, token: string, messageId: int) returns (s1: Store, l: Loc, j: nat, ids: seq<int>)
    requires MessageReact(s, token, messageId, 1).Ok?
    ensures s1 == MessageReact(s, token, messageId, 1).value
    ensures Locate(s, messageId) == Some(l) && ReactSlot(MessageAt(s, l)) == Ok(j)
    ensures ids == MessageAt(s, l).reacts[j].uIds
    ensures var u := TokenUser(s, token).value;
      var m := MessageAt(s, l);
      var m' := m.(reacts := m.reacts[j := React(1, ids + [u], true)]);
      && u !in ids && u in MembersAt(s, l)
      && s1.channels == UpdateAt(s, l, m').channels && s1.dms == UpdateAt(s, l, m').dms
      && s1.tokens == s.tokens
  {
    s1 := MessageReact(s, token, messageId, 1).value;
    l := Locate(s, messageId).value;
    var m := MessageAt(s, l);
    j := ReactSlot(m).value;
    ids := m.reacts[j].uIds;
  }

  /** A store that agrees with an id-keeping update on its containers
      locates the updated id at the same place. */
  lemma LocateAfterUpdate(s: Store, s1: Store, messageId: int, l: Loc, m': Message)
    requires Locate(s, messageId) == Some(l) && m'.messageId == messageId
    requires s1.channels == UpdateAt(s, l, m').channels && s1.dms == UpdateAt(s, l, m').dms
    ensures Locate(s1, messageId) == Some(l)
  {
    var s0 := UpdateAt(s, l, m');
    UpdateAtKeepsIds(s, l, m');
    assert IdLists(s1) == IdLists(s0);
    LocateByIds(s0, s1, messageId);
  }

  lemma UpdatedAt(s: Store, s1: Store, l: Loc, m': Message)
    requires ValidLoc(s, l)
    requires s1.channels == UpdateAt(s, l, m').channels && s1.dms == UpdateAt(s, l, m').dms
    ensures ValidLoc(s1, l) && MessageAt(s1, l) == m' && MembersAt(s1, l) == MembersAt(s, l)
  {
    UpdateAtElsewhere(s, l, m');
  }

  lemma ReactSlotKept(m: Message, j: nat, x: React)
    requires ReactSlot(m) == Ok(j) && x.reactId == 1
    ensures ReactSlot(m.(reacts := m.reacts[j := x])) == Ok(j)
  {
    assert m.(reacts := m.reacts[j := x]).reacts[j].reactId == 1;
  }

  /** The reacted message sits where the original was, with the same react
      slot, now ending with the caller. */
  lemma ReactedInPlace(s: Store, s1: Store, token: string, messageId: int, l: Loc, j: nat, ids: seq<int>)
    requires Locate(s, messageId) == Some(l) && ReactSlot(MessageAt(s, l)) == Ok(j)
    requires TokenUser(s, token).Some? && TokenUser(s, token).value in MembersAt(s, l)
    requires ids == MessageAt(s, l).reacts[j].uIds
    requires var m := MessageAt(s, l);
      var m' := m.(reacts := m.reacts[j := React(1, ids + [TokenUser(s, token).value], true)]);
      && s1.channels == UpdateAt(s, l, m').channels && s1.dms == UpdateAt(s, l, m').dms
      && s1.tokens == s.tokens
    ensures Locate(s1, messageId) == Some(l)
    ensures TokenUser(s1, token) == TokenUser(s, token)
    ensures TokenUser(s, token).value in MembersAt(s1, l)
    ensures ReactSlot(MessageAt(s1, l)) == Ok(j)
    ensures MessageAt(s1, l).reacts[j].uIds == ids + [TokenUser(s, token).value]
    ensures var m1 := MessageAt(s1, l); var m := MessageAt(s, l);
      m1.(reacts := m1.reacts[j := React(1, ids, false)]) == m.(reacts := m.reacts[j := React(1, ids, false)])
  {
    var m := MessageAt(s, l);
    var x := React(1, ids + [TokenUser(s, token).value], true);
    var m' := m.(reacts := m.reacts[j := x]);
    LocateAfterUpdate(s, s1, messageId, l, m');
    UpdatedAt(s, s1, l, m');
    ReactSlotKept(m, j, x);
    ReactRewrite(m, j, x, React(1, ids, false));
  }

  /** Writing a react slot twice leaves the second write. */
  lemma ReactRewrite(m: Message, j: nat, a: React, b: React)
    requires j < |m.reacts|
    ensures var m1 := m.(reacts := m.reacts[j := a]);
      m1.(reacts := m1.reacts[j := b]) == m.(reacts := m.reacts[j := b])
  {
    assert m.reacts[j := a][j := b] == m.reacts[j := b];
  }

  /** Unreacting a message whose react slot ends with the caller, who
      appears there once, drops that last entry. */
  lemma UnreactLast(s: Store, token: string, messageId: int, l: Loc, ids: seq<int>)
    requires TokenUser(s, token).Some? && Locate(s, messageId) == Some(l)
    requires TokenUser(s, token).value in MembersAt(s, l)
    requires ReactSlot(MessageAt(s, l)).Ok?
    requires var m := MessageAt(s, l); var u := TokenUser(s, token).value;
      m.reacts[ReactSlot(m).value].uIds == ids + [u] && u !in ids
    ensures var m := MessageAt(s, l); var j := ReactSlot(m).value;
      MessageUnreact(s, token, messageId, 1) == Ok(UpdateAt(s, l, m.(reacts := m.reacts[j := React(1, ids, false)])))
  {
    var u := TokenUser(s, token).value;
    assert IndexOf(ids + [u], u) == |ids| by {
      assert forall i :: 0 <= i < |ids| ==> (ids + [u])[i] != u;
    }
    assert RemoveAt(ids + [u], |ids|) == ids;
  }

  /** A second write at the same place overrides the first. */
  lemma UpdateAtOver(s: Store, s1: Store, l: Loc, a: Message, b: Message)
    requires ValidLoc(s, l)
    requires s1.channels == UpdateAt(s, l, a).channels && s1.dms == UpdateAt(s, l, a).dms
    ensures ValidLoc(s1, l)
    ensures UpdateAt(s1, l, b).channels == UpdateAt(s, l, b).channels
    ensures UpdateAt(s1, l, b).dms == UpdateAt(s, l, b).dms
  {
    match l
    case InChannel(k, i) =>
      assert s.channels[k].messages[i := a][i := b] == s.channels[k].messages[i := b];
    case InDm(k, i) =>
      assert s.dms[k].messages[i := a][i := b] == s.dms[k].messages[i := b];
  }

  /** Reacting and then unreacting as the same user succeeds, and every
      channel and DM is as before except that the react slot's flag is
      cleared: in particular the slot's user list is the one it had. */
  lemma ReactThenUnreact(s: Store, token: string, messageId: int)
    requires MessageReact(s, token, messageId, 1).Ok?
    ensures var s1 := MessageReact(s, token, messageId, 1).value;
      var l := Locate(s, messageId).value;
      var m := MessageAt(s, l);
      var j := ReactSlot(m).value;
      var restored := UpdateAt(s, l, m.(reacts := m.reacts[j := React(1, m.reacts[j].uIds, false)]));
      && MessageUnreact(s1, token, messageId, 1).Ok?
      && MessageUnreact(s1, token, messageId, 1).value.channels == restored.channels
      && MessageUnreact(s1, token, messageId, 1).value.dms == restored.dms
  {
    var s1, l, j, ids := ReactOutcome(s, token, messageId);
    ReactedInPlace(s, s1, token, messageId, l, j, ids);
    UnreactLast(s1, token, messageId, l, ids);
    var m := MessageAt(s, l);
    var u := TokenUser(s, token).value;
    var m' := m.(reacts := m.reacts[j := React(1, ids + [u], true)]);
    var m2 := m.(reacts := m.reacts[j := React(1, ids, false)]);
    UpdateAtOver(s, s1, l, m', m2);
  }

  // ---- pin / unpin -----------------------------------------------------------

  /** Pin and unpin permission: an owner of the container, or (for a channel
      message) a global owner.  For a channel message the caller's record is
      read, so a missing record is a 500. */
  function PinAllowed(s: Store, l: Loc, u: int): (r: Result<bool>)
    requires ValidLoc(s, l)
    ensures l.InChannel? && !IsUser(s, u) ==> r == Err(Crashed)
    ensures l.InChannel? && IsUser(s, u) ==> r == Ok(u in OwnersAt(s, l) || IsGlobalOwner(s, u))
    ensures l.InDm? ==> r == Ok(u in OwnersAt(s, l))
  {
    if l.InChannel? then
      var k :- UserOf(s, u);
      Ok(u in OwnersAt(s, l) || s.users[k].permissionId == GlobalOwner)
    else Ok(u in OwnersAt(s, l))
  }

  /** `message/pin` (`pin` true) and `message/unpin` (`pin` false): token 403,
      unknown id 400, caller not a member 400, message already in the
      requested state 400, caller not allowed 403; only `isPinned` changes. */
  function MessageSetPin(s: Store, token: string, messageId: int, pin: bool): (r: Result<Store>)
    ensures TokenUser(s, token).None? ==> r == Err(Forbidden)
    ensures TokenUser(s, token).Some? && Locate(s, messageId).None? ==> r == Err(BadRequest)
    ensures TokenUser(s, token).Some? && Locate(s, messageId).Some? ==>
      var u := TokenUser(s, token).value;
      var l := Locate(s, messageId).value;
      var m := MessageAt(s, l);
      && (u !in MembersAt(s, l) ==> r == Err(BadRequest))
      && (u in MembersAt(s, l) && m.isPinned == pin ==> r == Err(BadRequest))
      && (u in MembersAt(s, l) && m.isPinned != pin ==>
            match PinAllowed(s, l, u)
            case Err(e) => r == Err(e)
            case Ok(allowed) =>
              && (!allowed ==> r == Err(Forbidden))
              && (allowed ==> r == Ok(UpdateAt(s, l, m.(isPinned := pin)))))
  {
    var u :- TokenOf(s, token);
    var l :- LocateOf(s, messageId);
    var m := MessageAt(s, l);
    if u !in MembersAt(s, l) then Err(BadRequest)
    else if m.isPinned == pin then Err(BadRequest)
    else
      var allowed :- PinAllowed(s, l, u);
      if !allowed then Err(Forbidden)
      else Ok(UpdateAt(s, l, m.(isPinned := pin)))
  }

  function MessagePin(s: Store, token: string, messageId: int): (r: Result<Store>)
    ensures r == MessageSetPin(s, token, messageId, true)
  {
    MessageSetPin(s, token, messageId, true)
  }

  function MessageUnpin(s: Store, token: string, messageId: int): (r: Result<Store>)
    ensures r == MessageSetPin(s, token, messageId, false)
  {
    MessageSetPin(s, token, messageId, false)
  }

  /** Pinning and then unpinning as the same user gives back the store. */
  lemma PinThenUnpin(s: Store, token: string, messageId: int)
    requires MessagePin(s, token, messageId).Ok?
    ensures MessageUnpin(MessagePin(s, token, messageId).value, token, messageId) == Ok(s)
  {
    var l := SetPinOutcome(s, token, messageId, true);
    var m := MessageAt(s, l);
    var m1 := m.(isPinned := true);
    UpdateKeepsPinCheck(s, l, m1);
    UpdateAtTwice(s, l, m1);
    assert m1.(isPinned := false) == m;
  }

  /** A successful pin or unpin located the message, the caller was a
      member allowed to change it, and only that message's flag moved. */
  lemma SetPinOutcome(s: Store, token: string, messageId: int, pin: bool) returns (l: Loc)
    requires MessageSetPin(s, token, messageId, pin).Ok?
    ensures Locate(s, messageId) == Some(l)
    ensures var u := TokenUser(s, token).value; var m := MessageAt(s, l);
      && TokenUser(s, token).Some?
      && u in MembersAt(s, l) && m.isPinned != pin && PinAllowed(s, l, u) == Ok(true)
      && MessageSetPin(s, token, messageId, pin).value == UpdateAt(s, l, m.(isPinned := pin))
  {
    l := Locate(s, messageId).value;
  }

  /** Rewriting a message in place keeps where its id is found, who may see
      it and who may pin it. */
  lemma UpdateKeepsPinCheck(s: Store, l: Loc, m: Message)
    requires ValidLoc(s, l) && m.messageId == MessageAt(s, l).messageId
    ensures var s1 := UpdateAt(s, l, m);
      && Locate(s1, m.messageId) == Locate(s, m.messageId)
      && MembersAt(s1, l) == MembersAt(s, l)
      && forall u :: PinAllowed(s1, l, u) == PinAllowed(s, l, u)
  {
    UpdateAtKeepsIds(s, l, m);
    UpdateKeepsAccess(s, l, m);
  }

  lemma UpdateKeepsAccess(s: Store, l: Loc, m: Message)
    requires ValidLoc(s, l)
    ensures var s1 := UpdateAt(s, l, m);
      && MembersAt(s1, l) == MembersAt(s, l)
      && forall u :: PinAllowed(s1, l, u) == PinAllowed(s, l, u)
  {
    var s1 := UpdateAt(s, l, m);
    assert MembersAt(s1, l) == MembersAt(s, l) && OwnersAt(s1, l) == OwnersAt(s, l) by {
      match l
      case InChannel(k, i) =>
      case InDm(k, i) =>
    }
  }

  // ---- share -----------------------------------------------------------------

  /** The channel or DM a share targets: a channel when `dmId` is -1, else
      a DM. */
  function ShareTarget(s: Store, channelId: int, dmId: int): (r: Option<seq<int>>)
  {
    if dmId == -1 then
      match FindChannel(s, channelId)
      case None => None
      case Some(k) => Some(s.channels[k].allMembers)
    else
      match FindDm(s, dmId)
      case None => None
      case Some(k) => Some(s.dms[k].allMembers)
  }

  /** `message/share`: token 403, neither id -1 400, unknown target 400,
      caller not in the target 403, unknown message 400, caller not in the
      message's container 400, extra text over 1000 characters 400.  The
      shared body `original + " " + extra` is then sent through the channel
      or DM send, with its checks. */
  function MessageShare(s: Store, token: string, ogMessageId: int, text: string, channelId: int, dmId: int, now: int)
    : (r: Result<(Store, Option<int>)>)
    ensures TokenUser(s, token).None? ==> r == Err(Forbidden)
    ensures TokenUser(s, token).Some? && channelId != -1 && dmId != -1 ==> r == Err(BadRequest)
    ensures TokenUser(s, token).Some? && (channelId == -1 || dmId == -1) ==>
      var u := TokenUser(s, token).value;
      && (ShareTarget(s, channelId, dmId).None? ==> r == Err(BadRequest))
      && (ShareTarget(s, channelId, dmId).Some? && u !in ShareTarget(s, channelId, dmId).value ==> r == Err(Forbidden))
      && (ShareTarget(s, channelId, dmId).Some? && u in ShareTarget(s, channelId, dmId).value ==>
            && (Locate(s, ogMessageId).None? ==> r == Err(BadRequest))
            && (Locate(s, ogMessageId).Some? ==>
                  var l := Locate(s, ogMessageId).value;
                  var body := MessageAt(s, l).text + " " + text;
                  && (u !in MembersAt(s, l) ==> r == Err(BadRequest))
                  && (u in MembersAt(s, l) && Utf16Len(text) > 1000 ==> r == Err(BadRequest))
                  && (u in MembersAt(s, l) && Utf16Len(text) <= 1000 && dmId == -1 ==>
                        r == MessageSend(s, token, channelId, body, now))
                  && (u in MembersAt(s, l) && Utf16Len(text) <= 1000 && dmId != -1 ==>
                        match MessageSendDm(s, dmId, body, token, now)
                        case Err(e) => r == Err(e)
                        case Ok((s', id)) => r == Ok((s', Some(id))))))
  {
    var u :- TokenOf(s, token);
    if channelId != -1 && dmId != -1 then Err(BadRequest)
    else
      match ShareTarget(s, channelId, dmId)
      case None => Err(BadRequest)
      case Some(members) =>
        if u !in members then Err(Forbidden)
        else
          var l :- LocateOf(s, ogMessageId);
          if u !in MembersAt(s, l) then Err(BadRequest)
          else if Utf16Len(text) > 1000 then Err(BadRequest)
          else
            var body := MessageAt(s, l).text + " " + text;
            if dmId == -1 then MessageSend(s, token, channelId, body, now)
            else
              var (s', id) :- MessageSendDm(s, dmId, body, token, now);
              Ok((s', Some(id)))
  }

  /** A successful share into a DM stores the original text, a space, and
      the extra text as the DM's newest message. */
  lemma ShareIntoDmBody(s: Store, token: string, ogMessageId: int, text: string, dmId: int, now: int)
    requires DmIdsDistinct(s) && MessageIdsUnique(s)
    requires dmId != -1
    requires MessageShare(s, token, ogMessageId, text, -1, dmId, now).Ok?
    ensures var (s', id) := MessageShare(s, token, ogMessageId, text, -1, dmId, now).value;
      var k := FindDm(s, dmId).value;
      var og := MessageAt(s, Locate(s, ogMessageId).value);
      && id.Some?
      && s'.dms[k].messages == s.dms[k].messages
           + [NewMessage(id.value, TokenUser(s, token).value, og.text + " " + text, now)]
      && MessageIdsUnique(s')
  {
    var og := MessageAt(s, Locate(s, ogMessageId).value);
    var body := og.text + " " + text;
    ShareIntoDmIsSend(s, token, ogMessageId, text, dmId, now);
    MessageSendDmKeepsIdsUnique(s, dmId, body, token, now);
  }

  /** A successful share into a DM is the DM send of the shared body. */
  lemma ShareIntoDmIsSend(s: Store, token: string, ogMessageId: int, text: string, dmId: int, now: int)
    requires dmId != -1
    requires MessageShare(s, token, ogMessageId, text, -1, dmId, now).Ok?
    ensures Locate(s, ogMessageId).Some?
    ensures var body := MessageAt(s, Locate(s, ogMessageId).value).text + " " + text;
      && MessageSendDm(s, dmId, body, token, now).Ok?
      && var (s', id) := MessageSendDm(s, dmId, body, token, now).value;
         MessageShare(s, token, ogMessageId, text, -1, dmId, now).value == (s', Some(id))
  {
    var u := TokenUser(s, token).value;
    assert ShareTarget(s, -1, dmId).Some? && u in ShareTarget(s, -1, dmId).value;
    var l := Locate(s, ogMessageId).value;
    assert u in MembersAt(s, l) && Utf16Len(text) <= 1000;
  }

  // ---- delayed sends ---------------------------------------------------------

  /** `message/sendlater`: a time in the past 400 (checked before the
      token), token 403, a channel id outside the list positions 400, text
      length outside 1..1000 400, caller not a member of the channel at that
      position 403.  The answer is the id the next message would get now. */
  function MessageSendLater(s: Store, token: string, channelId: int, text: string, timeSent: int, now: int)
    : (r: Result<int>)
    ensures now > timeSent ==> r == Err(BadRequest)
    ensures now <= timeSent && TokenUser(s, token).None? ==> r == Err(Forbidden)
    ensures now <= timeSent && TokenUser(s, token).Some? ==>
      && (!(0 <= channelId < |s.channels|) ==> r == Err(BadRequest))
      && (0 <= channelId < |s.channels| && (Utf16Len(text) < 1 || Utf16Len(text) > 1000) ==> r == Err(BadRequest))
      && (0 <= channelId < |s.channels| && 1 <= Utf16Len(text) <= 1000 ==>
            && (TokenUser(s, token).value !in s.channels[channelId].allMembers ==> r == Err(Forbidden))
            && (TokenUser(s, token).value in s.channels[channelId].allMembers ==> r == Ok(NextMessageId(s))))
  {
    if now > timeSent then Err(BadRequest)
    else
      var u :- TokenOf(s, token);
      if !(0 <= channelId < |s.channels|) then Err(BadRequest)
      else if Utf16Len(text) < 1 || Utf16Len(text) > 1000 then Err(BadRequest)
      else if u !in s.channels[channelId].allMembers then Err(Forbidden)
      else Ok(NextMessageId(s))
  }

  /** `message/sendlaterdm`: token 403, text length outside 1..1000 400, a
      time in the past 400, unknown DM 400, the DM at position `dmId` missing
      (500), caller not a member of it 400.  The answer is the id the next
      message would get now. */
  function MessageSendLaterDm(s: Store, dmId: int, text: string, timeSent: int, token: string, now: int)
    : (r: Result<int>)
    ensures TokenUser(s, token).None? ==> r == Err(Forbidden)
    ensures TokenUser(s, token).Some? ==>
      && ((Utf16Len(text) < 1 || Utf16Len(text) > 1000) ==> r == Err(BadRequest))
      && (1 <= Utf16Len(text) <= 1000 && timeSent < now ==> r == Err(BadRequest))
      && (1 <= Utf16Len(text) <= 1000 && timeSent >= now && FindDm(s, dmId).None? ==> r == Err(BadRequest))
      && (1 <= Utf16Len(text) <= 1000 && timeSent >= now && FindDm(s, dmId).Some? ==>
            && (!(0 <= dmId < |s.dms|) ==> r == Err(Crashed))
            && (0 <= dmId < |s.dms| && TokenUser(s, token).value !in s.dms[dmId].allMembers ==> r == Err(BadRequest))
            && (0 <= dmId < |s.dms| && TokenUser(s, token).value in s.dms[dmId].allMembers ==> r == Ok(NextMessageId(s))))
  {
    var u :- TokenOf(s, token);
    if Utf16Len(text) < 1 || Utf16Len(text) > 1000 then Err(BadRequest)
    else if timeSent < now then Err(BadRequest)
    else
      var _ :- DmOf(s, dmId);
      var p :- DmAt(s, dmId);
      if u !in s.dms[p].allMembers then Err(BadRequest)
      else Ok(NextMessageId(s))
  }

  /** When the delayed send fires at `timeSent` on an unchanged store whose
      channel ids are positions and whose channel has no standup running, it
      produces exactly the id promised. */
  lemma SendLaterKeepsPromise(s: Store, token: string, channelId: int, text: string, timeSent: int, now: int)
    requires MessageSendLater(s, token, channelId, text, timeSent, now).Ok?
    requires FindChannel(s, channelId) == Some(channelId)
    requires !s.channels[channelId].standup.isActive
    requires TokenUser(s, token).value in s.userStats
    ensures MessageSend(s, token, channelId, text, timeSent).Ok?
    ensures MessageSend(s, token, channelId, text, timeSent).value.1
      == Some(MessageSendLater(s, token, channelId, text, timeSent, now).value)
  {
  }

  /** The same for a delayed DM send, on a store whose DM ids are
      positions. */
  lemma SendLaterDmKeepsPromise(s: Store, dmId: int, text: string, timeSent: int, token: string, now: int)
    requires MessageSendLaterDm(s, dmId, text, timeSent, token, now).Ok?
    requires FindDm(s, dmId) == Some(dmId)
    requires TokenUser(s, token).value in s.userStats
    ensures MessageSendDm(s, dmId, text, token, timeSent).Ok?
    ensures MessageSendDm(s, dmId, text, token, timeSent).value.1
      == MessageSendLaterDm(s, dmId, text, timeSent, token, now).value
  {
  }
}
