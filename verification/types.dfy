/** The workspace data model: one datatype per record the server keeps in its
    in-memory store, the initial (cleared) store, and the lookups every
    handler starts with. */
module Types {
  import opened Base

  datatype React = React(reactId: int, uIds: seq<int>, isThisUserReacted: bool)

  datatype Message = Message(
    messageId: int,
    uId: int,
    text: string,
    timeSent: int,
    reacts: seq<React>,
    isPinned: bool)

  /** Per-channel standup record. `timeFinish` is `None` where the server
      stores `null`; `creator` is -1 when no standup runs. */
  datatype Standup = Standup(
    isActive: bool,
    timeFinish: Option<int>,
    creator: int,
    handles: seq<string>,
    lines: seq<string>)

  const DefaultStandup := Standup(false, None, -1, [], [])

  datatype Channel = Channel(
    channelId: int,
    name: string,
    isPublic: bool,
    ownerMembers: seq<int>,
    allMembers: seq<int>,
    messages: seq<Message>,
    standup: Standup)

  datatype Dm = Dm(
    dmId: int,
    name: string,
    ownerMembers: seq<int>,
    allMembers: seq<int>,
    messages: seq<Message>)

  datatype Notification = Notification(channelId: int, dmId: int, text: string)

  const GlobalOwner := 1
  const GlobalMember := 2

  datatype User = User(
    authUserId: int,
    email: string,
    password: string,
    nameFirst: string,
    nameLast: string,
    handleStr: string,
    permissionId: int,
    profileImgUrl: string,
    notifications: seq<Notification>)

  /** A session: the token key stands for the stored (hashed) token string. */
  datatype Token = Token(uId: int, key: string)

  /** One sample of a statistics series. */
  datatype Sample = Sample(count: int, timeStamp: int)

  datatype UserStats = UserStats(
    channelsJoined: seq<Sample>,
    dmsJoined: seq<Sample>,
    messagesSent: seq<Sample>,
    involvementRate: real)

  datatype WorkspaceStats = WorkspaceStats(
    channelsExist: seq<Sample>,
    dmsExist: seq<Sample>,
    messagesExist: seq<Sample>,
    utilizationRate: real)

  datatype Store = Store(
    users: seq<User>,
    channels: seq<Channel>,
    tokens: seq<Token>,
    dms: seq<Dm>,
    userStats: map<int, UserStats>,
    workspaceStats: WorkspaceStats)

  /** The store after a reset: everything empty, utilization 0. */
  function InitialStore(): (s: Store)
    ensures |s.users| == 0 && |s.channels| == 0 && |s.tokens| == 0 && |s.dms| == 0
    ensures s.userStats == map[]
    ensures s.workspaceStats.channelsExist == [] && s.workspaceStats.dmsExist == []
    ensures s.workspaceStats.messagesExist == [] && s.workspaceStats.utilizationRate == 0.0
  {
    Store([], [], [], [], map[], WorkspaceStats([], [], [], 0.0))
  }

  // ---- lookups -------------------------------------------------------------

  /** The user a token belongs to: the first stored session with that key.
      An unknown token is the 403 every authenticated handler raises. */
  function TokenUser(s: Store, token: string): (r: Option<int>)
    ensures r.Some? <==> exists t :: t in s.tokens && t.key == token
    ensures r.Some? ==> Token(r.value, token) in s.tokens
  {
    match FirstIndex(s.tokens, (t: Token) => t.key == token)
    case None => None
    case Some(i) => Some(s.tokens[i].uId)
  }

  /** Position of the first channel whose `channelId` is `id`. */
  function FindChannel(s: Store, id: int): (r: Option<nat>)
    ensures r.Some? ==> r.value < |s.channels| && s.channels[r.value].channelId == id
    ensures r.None? <==> forall k :: 0 <= k < |s.channels| ==> s.channels[k].channelId != id
  {
    FirstIndex(s.channels, (c: Channel) => c.channelId == id)
  }

  /** Position of the first DM whose `dmId` is `id`. */
  function FindDm(s: Store, id: int): (r: Option<nat>)
    ensures r.Some? ==> r.value < |s.dms| && s.dms[r.value].dmId == id
    ensures r.None? <==> forall k :: 0 <= k < |s.dms| ==> s.dms[k].dmId != id
  {
    FirstIndex(s.dms, (d: Dm) => d.dmId == id)
  }

  /** Position of the first user whose `authUserId` is `id`. */
  function FindUser(s: Store, id: int): (r: Option<nat>)
    ensures r.Some? ==> r.value < |s.users| && s.users[r.value].authUserId == id
    ensures r.None? <==> forall k :: 0 <= k < |s.users| ==> s.users[k].authUserId != id
  {
    FirstIndex(s.users, (u: User) => u.authUserId == id)
  }

  /** User lookups only depend on the ids of the records. */
  lemma FindUserByIds(s: Store, s': Store, id: int)
    requires |s.users| == |s'.users|
    requires forall k :: 0 <= k < |s.users| ==> s.users[k].authUserId == s'.users[k].authUserId
    ensures FindUser(s, id) == FindUser(s', id)
  {
    FirstIndexAgree(s.users, (u: User) => u.authUserId == id, s'.users, (u: User) => u.authUserId == id);
  }

  /** No two user records share an id. */
  predicate UserIdsUnique(users: seq<User>)
  {
    forall i, j :: 0 <= i < j < |users| ==> users[i].authUserId != users[j].authUserId
  }

  predicate IsUser(s: Store, id: int)
  {
    FindUser(s, id).Some?
  }

  /** Global owner check: the first user record with that id has permission 1. */
  predicate IsGlobalOwner(s: Store, id: int)
  {
    match FindUser(s, id)
    case None => false
    case Some(k) => s.users[k].permissionId == GlobalOwner
  }

  /** The handle of a registered user. */
  function HandleOf(s: Store, id: int): (r: Option<string>)
    ensures r.Some? <==> IsUser(s, id)
  {
    match FindUser(s, id)
    case None => None
    case Some(k) => Some(s.users[k].handleStr)
  }

  /** The caller of a token, or the 403 every authenticated handler raises. */
  function TokenOf(s: Store, token: string): (r: Result<int>)
    ensures r.Ok? <==> TokenUser(s, token).Some?
    ensures r.Ok? ==> r.value == TokenUser(s, token).value
    ensures r.Err? ==> r.code == Forbidden
  {
    match TokenUser(s, token)
    case None => Err(Forbidden)
    case Some(u) => Ok(u)
  }

  /** The position of a channel, or 400. */
  function ChannelOf(s: Store, channelId: int): (r: Result<nat>)
    ensures r.Ok? <==> FindChannel(s, channelId).Some?
    ensures r.Ok? ==> r.value == FindChannel(s, channelId).value && r.value < |s.channels|
    ensures r.Err? ==> r.code == BadRequest
  {
    match FindChannel(s, channelId)
    case None => Err(BadRequest)
    case Some(k) => Ok(k)
  }

  /** The position of a DM, or 400. */
  function DmOf(s: Store, dmId: int): (r: Result<nat>)
    ensures r.Ok? <==> FindDm(s, dmId).Some?
    ensures r.Ok? ==> r.value == FindDm(s, dmId).value && r.value < |s.dms|
    ensures r.Err? ==> r.code == BadRequest
  {
    match FindDm(s, dmId)
    case None => Err(BadRequest)
    case Some(k) => Ok(k)
  }

  /** `data.channels[channelId]`: the channel at that position, where an
      index outside the list is a property read on `undefined` (500). */
  function ChannelAt(s: Store, channelId: int): (r: Result<nat>)
    ensures r.Ok? <==> 0 <= channelId < |s.channels|
    ensures r.Ok? ==> r.value == channelId
    ensures r.Err? ==> r.code == Crashed
  {
    if 0 <= channelId < |s.channels| then Ok(channelId) else Err(Crashed)
  }

  /** `data.dms[dmId]`, positional like `ChannelAt`. */
  function DmAt(s: Store, dmId: int): (r: Result<nat>)
    ensures r.Ok? <==> 0 <= dmId < |s.dms|
    ensures r.Ok? ==> r.value == dmId
    ensures r.Err? ==> r.code == Crashed
  {
    if 0 <= dmId < |s.dms| then Ok(dmId) else Err(Crashed)
  }

  /** The first user record with that id, or a 500 where the handler
      dereferences the missing record. */
  function UserOf(s: Store, id: int): (r: Result<nat>)
    ensures r.Ok? <==> IsUser(s, id)
    ensures r.Ok? ==> r.value == FindUser(s, id).value && r.value < |s.users|
    ensures r.Err? ==> r.code == Crashed
  {
    match FindUser(s, id)
    case None => Err(Crashed)
    case Some(k) => Ok(k)
  }

  /** Prepend `n` to the notification list of the first user with id `id`
      (every producer uses `unshift`, so the list is newest-first). */
  function Notify(s: Store, id: int, n: Notification): (r: Result<Store>)
    ensures r.Ok? <==> IsUser(s, id)
    ensures r.Ok? ==>
      var k := FindUser(s, id).value;
      && r.value == s.(users := s.users[k := s.users[k].(notifications := [n] + s.users[k].notifications)])
  {
    var k :- UserOf(s, id);
    Ok(s.(users := s.users[k := s.users[k].(notifications := [n] + s.users[k].notifications)]))
  }

  /** Two user lists that differ at most in notifications. */
  predicate SameButNotifications(a: seq<User>, b: seq<User>)
  {
    |a| == |b| && forall k :: 0 <= k < |a| ==> a[k].(notifications := b[k].notifications) == b[k]
  }

  /** Notifying changes no user id, so the same ids stay registered. */
  lemma NotifyKeepsUsers(s: Store, id: int, n: Notification)
    requires IsUser(s, id)
    ensures SameButNotifications(Notify(s, id, n).value.users, s.users)
    ensures forall x :: IsUser(Notify(s, id, n).value, x) <==> IsUser(s, x)
  {
    var s1 := Notify(s, id, n).value;
    assert forall k :: 0 <= k < |s.users| ==> s1.users[k].authUserId == s.users[k].authUserId;
    forall x ensures IsUser(s1, x) <==> IsUser(s, x) {
      assert FindUser(s1, x).None? <==> FindUser(s, x).None?;
    }
  }

  /** `Notify` for each id of `ids`, in order. */
  function NotifyAll(s: Store, ids: seq<int>, n: Notification): (r: Result<Store>)
    ensures r.Ok? <==> forall i :: 0 <= i < |ids| ==> IsUser(s, ids[i])
    ensures r.Ok? ==> r.value.channels == s.channels && r.value.dms == s.dms && r.value.tokens == s.tokens
    ensures r.Ok? ==> r.value.userStats == s.userStats && r.value.workspaceStats == s.workspaceStats
    ensures r.Ok? ==> SameButNotifications(r.value.users, s.users)
    decreases |ids|
  {
    if |ids| == 0 then Ok(s)
    else if !IsUser(s, ids[0]) then Err(Crashed)
    else
      var s1 := Notify(s, ids[0], n).value;
      NotifyKeepsUsers(s, ids[0], n);
      var r := NotifyAll(s1, ids[1..], n);
      AllUsersStep(s, s1, ids);
      if r.Ok? then SameButNotificationsTrans(r.value.users, s1.users, s.users); r else r
  }

  /** With the same ids registered, "every id of the list is a user" splits
      into the head before and the tail after. */
  lemma AllUsersStep(s: Store, s1: Store, ids: seq<int>)
    requires |ids| > 0 && IsUser(s, ids[0])
    requires forall x :: IsUser(s1, x) <==> IsUser(s, x)
    ensures (forall i :: 0 <= i < |ids| ==> IsUser(s, ids[i])) <==>
            (forall i :: 0 <= i < |ids[1..]| ==> IsUser(s1, ids[1..][i]))
  {
    assert forall i :: 1 <= i < |ids| ==> ids[i] == ids[1..][i - 1];
  }

  lemma SameButNotificationsTrans(a: seq<User>, b: seq<User>, c: seq<User>)
    requires SameButNotifications(a, b) && SameButNotifications(b, c)
    ensures SameButNotifications(a, c)
  {
    forall k | 0 <= k < |a| ensures a[k].(notifications := c[k].notifications) == c[k] {
      assert a[k].(notifications := b[k].notifications) == b[k];
      assert b[k].(notifications := c[k].notifications) == c[k];
    }
  }

  /** Replace the channel at position `k`. */
  function WithChannel(s: Store, k: nat, c: Channel): (r: Store)
    requires k < |s.channels|
    ensures r.channels == s.channels[k := c]
    ensures r.users == s.users && r.dms == s.dms && r.tokens == s.tokens
    ensures r.userStats == s.userStats && r.workspaceStats == s.workspaceStats
  {
    s.(channels := s.channels[k := c])
  }

  /** Replace the DM at position `k`. */
  function WithDm(s: Store, k: nat, d: Dm): (r: Store)
    requires k < |s.dms|
    ensures r.dms == s.dms[k := d]
    ensures r.users == s.users && r.channels == s.channels && r.tokens == s.tokens
    ensures r.userStats == s.userStats && r.workspaceStats == s.workspaceStats
  {
    s.(dms := s.dms[k := d])
  }
}
