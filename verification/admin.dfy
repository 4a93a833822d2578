/** Workspace administration: changing a user's global permission and
    removing a user.  The acting user is the owner of the LAST stored token
    with the caller's key, since both handlers overwrite their variable on
    every matching token. */
module Admin {
  import opened Base
  import opened Types
  import opened MessageIds
  import opened Auth
  import opened Dms

  /** The user behind the last token with this key. */
  function ActingUser(s: Store, token: string): (r: Option<int>)
    ensures r.Some? <==> TokenUser(s, token).Some?
    ensures r.Some? ==> exists i :: 0 <= i < |s.tokens| && s.tokens[i] == Token(r.value, token)
                                   && forall j :: i < j < |s.tokens| ==> s.tokens[j].key != token
  {
    match LastIndex(s.tokens, (t: Token) => t.key == token)
    case None => None
    case Some(i) => Some(s.tokens[i].uId)
  }

  /** The target is a global owner and the only one, which the removal
      refuses. */
  predicate OnlyGlobalTarget(s: Store, uId: int)
  {
    && CountGlobals(s.users, (u: User) => true) == 1
    && exists k :: 0 <= k < |s.users| && s.users[k].authUserId == uId && s.users[k].permissionId == GlobalOwner
  }

  /** Some record of the acting user is not a global owner (a user without
      any record passes). */
  predicate NotGlobalOwner(s: Store, u: int)
  {
    exists k :: 0 <= k < |s.users| && s.users[k].authUserId == u && s.users[k].permissionId != GlobalOwner
  }

  /** Number of records that satisfy `among` and hold global-owner permission. */
  function CountGlobals(users: seq<User>, among: User -> bool): (n: nat)
    ensures n <= |users|
    ensures n == 0 <==> forall k :: 0 <= k < |users| ==> !(among(users[k]) && users[k].permissionId == GlobalOwner)
    decreases |users|
  {
    if |users| == 0 then 0
    else
      assert forall k :: 1 <= k < |users| ==> users[k] == users[1..][k - 1];
      (if among(users[0]) && users[0].permissionId == GlobalOwner then 1 else 0) + CountGlobals(users[1..], among)
  }

  /** With distinct ids, counting one user's global records gives 1 exactly
      when that user is a global owner. */
  lemma {:induction false} CountGlobalsOfOne(users: seq<User>, k: nat)
    requires UserIdsUnique(users) && k < |users|
    ensures var id := users[k].authUserId;
      CountGlobals(users, (u: User) => u.authUserId == id)
        == if users[k].permissionId == GlobalOwner then 1 else 0
    decreases |users|
  {
    var id := users[k].authUserId;
    var among := (u: User) => u.authUserId == id;
    assert forall j :: 1 <= j < |users| ==> users[j] == users[1..][j - 1];
    if k == 0 {
      assert CountGlobals(users[1..], among) == 0;
    } else {
      CountGlobalsOfOne(users[1..], k - 1);
    }
  }

  // ---- permission change -----------------------------------------------------

  function SetPermission(users: seq<User>, uId: int, p: int): (r: seq<User>)
    ensures |r| == |users|
    ensures forall k :: 0 <= k < |users| ==>
      r[k] == if users[k].authUserId == uId then users[k].(permissionId := p) else users[k]
  {
    seq(|users|, k requires 0 <= k < |users| =>
      if users[k].authUserId == uId then users[k].(permissionId := p) else users[k])
  }

  /** `admin/userpermission/change`: token 403, unknown user 400, level other
      than 1 or 2 400, acting user not a global owner 403, target already at
      that level 400, target a global owner (one global record of theirs)
      400; otherwise every record of the target gets the new level. */
  function AdminPermissionChange(s: Store, uId: int, p: int, token: string): (r: Result<Store>)
    ensures TokenUser(s, token).None? ==> r == Err(Forbidden)
    ensures TokenUser(s, token).Some? && !IsUser(s, uId) ==> r == Err(BadRequest)
    ensures TokenUser(s, token).Some? && IsUser(s, uId) && p != GlobalOwner && p != GlobalMember
      ==> r == Err(BadRequest)
    ensures (TokenUser(s, token).Some? && IsUser(s, uId) && (p == GlobalOwner || p == GlobalMember)
             && NotGlobalOwner(s, ActingUser(s, token).value)) ==> r == Err(Forbidden)
    ensures r.Ok? ==>
      && TokenUser(s, token).Some? && IsUser(s, uId) && !NotGlobalOwner(s, ActingUser(s, token).value)
      && (forall k :: 0 <= k < |s.users| && s.users[k].authUserId == uId ==> s.users[k].permissionId != p)
      && r.value == s.(users := SetPermission(s.users, uId, p))
  {
    match TokenUser(s, token)
    case None => Err(Forbidden)
    case Some(_) =>
      if !IsUser(s, uId) then Err(BadRequest)
      else if p != GlobalOwner && p != GlobalMember then Err(BadRequest)
      else if NotGlobalOwner(s, ActingUser(s, token).value) then Err(Forbidden)
      else if exists k :: 0 <= k < |s.users| && s.users[k].authUserId == uId && s.users[k].permissionId == p then Err(BadRequest)
      else if CountGlobals(s.users, (u: User) => u.authUserId == uId) == 1 then Err(BadRequest)
      else Ok(s.(users := SetPermission(s.users, uId, p)))
  }

  /** With distinct user ids and an authorised caller, a change succeeds
      exactly when the target is not a global owner and is not already at
      the requested level: global owners can never be demoted, even when
      other global owners exist. */
  lemma PermissionChangeOutcome(s: Store, uId: int, p: int, token: string)
    requires UserIdsUnique(s.users)
    requires TokenUser(s, token).Some? && IsUser(s, uId) && (p == GlobalOwner || p == GlobalMember)
    requires !NotGlobalOwner(s, ActingUser(s, token).value)
    ensures var k := FindUser(s, uId).value;
      && (AdminPermissionChange(s, uId, p, token).Ok? <==>
            s.users[k].permissionId != p && s.users[k].permissionId != GlobalOwner)
      && (AdminPermissionChange(s, uId, p, token).Err? ==> AdminPermissionChange(s, uId, p, token).code == BadRequest)
  {
    var k := FindUser(s, uId).value;
    CountGlobalsOfOne(s.users, k);
    assert forall j :: 0 <= j < |s.users| && s.users[j].authUserId == uId ==> j == k;
  }

  /** After a successful change the target holds the requested level and no
      other record changed. */
  lemma PermissionChangeApplies(s: Store, uId: int, p: int, token: string)
    requires AdminPermissionChange(s, uId, p, token).Ok?
    ensures var s' := AdminPermissionChange(s, uId, p, token).value;
      && FindUser(s', uId) == FindUser(s, uId)
      && s'.users[FindUser(s', uId).value].permissionId == p
      && forall k :: 0 <= k < |s.users| && s.users[k].authUserId != uId ==> s'.users[k] == s.users[k]
  {
    var s' := AdminPermissionChange(s, uId, p, token).value;
    FindUserByIds(s, s', uId);
  }

  // ---- user removal ----------------------------------------------------------

  /** `for (i in xs) if (xs[i] === v) xs.splice(i, 1)` from index `i`: after a
      splice the element moving into the slot is never looked at. */
  function SpliceAll(xs: seq<int>, v: int, i: nat): (r: seq<int>)
    ensures |r| <= |xs|
    decreases |xs| + 1 - i
  {
    if i >= |xs| then xs
    else if xs[i] == v then SpliceAll(xs[..i] + xs[i + 1..], v, i + 1)
    else SpliceAll(xs, v, i + 1)
  }

  /** A user listed twice in a row survives the loop: one copy is left. */
  lemma SpliceAllLeavesPair(v: int)
    ensures SpliceAll([v, v], v, 0) == [v]
    ensures v in SpliceAll([v, v], v, 0)
  {
    assert [v, v][..0] + [v, v][1..] == [v];
  }

  lemma WithoutCons(x: int, rest: seq<int>, v: int)
    ensures Without([x] + rest, v) == if x == v then Without(rest, v) else [x] + Without(rest, v)
  {
    assert ([x] + rest)[1..] == rest;
  }

  /** No two adjacent copies of `v` from position `i` on. */
  predicate NoPairFrom(xs: seq<int>, v: int, i: nat)
  {
    forall j :: i <= j && j + 1 < |xs| ==> !(xs[j] == v && xs[j + 1] == v)
  }

  /** Splicing out a copy of `v` that is not followed by another keeps the
      rest of the list free of adjacent pairs. */
  lemma NoPairsAfterRemove(xs: seq<int>, v: int, i: nat)
    requires i + 1 < |xs| && NoPairFrom(xs, v, i)
    ensures NoPairFrom(xs[..i] + xs[i + 1..], v, i + 1)
  {
    var ys := xs[..i] + xs[i + 1..];
    forall j | i + 1 <= j && j + 1 < |ys|
      ensures !(ys[j] == v && ys[j + 1] == v)
    {
      assert ys[j] == xs[j + 1] && ys[j + 1] == xs[j + 2];
    }
  }

  /** The step past an element the loop keeps. */
  lemma KeepStep(xs: seq<int>, v: int, i: nat)
    requires i < |xs| && xs[i] != v
    requires SpliceAll(xs, v, i + 1) == xs[..i + 1] + Without(xs[i + 1..], v)
    ensures SpliceAll(xs, v, i) == xs[..i] + Without(xs[i..], v)
  {
    assert SpliceAll(xs, v, i) == SpliceAll(xs, v, i + 1);
    assert xs[i..] == [xs[i]] + xs[i + 1..];
    WithoutCons(xs[i], xs[i + 1..], v);
    assert xs[..i + 1] == xs[..i] + [xs[i]];
    ConcatAssoc(xs[..i], xs[i], Without(xs[i + 1..], v));
  }

  /** The filter drops a leading copy of `v` and keeps the element after it. */
  lemma WithoutPairHead(xs: seq<int>, v: int, i: nat)
    requires i + 1 < |xs| && xs[i] == v && xs[i + 1] != v
    ensures Without(xs[i..], v) == [xs[i + 1]] + Without(xs[i + 2..], v)
  {
    var b, c := xs[i + 1], xs[i + 2..];
    assert xs[i..] == [v] + ([b] + c);
    WithoutCons(v, [b] + c, v);
    WithoutCons(b, c, v);
  }

  /** The two halves of `xs` with position `i` spliced out, around `i + 1`. */
  lemma SplicedSlices(xs: seq<int>, i: nat)
    requires i + 1 < |xs|
    ensures (xs[..i] + xs[i + 1..])[..i + 1] == xs[..i] + [xs[i + 1]]
    ensures (xs[..i] + xs[i + 1..])[i + 1..] == xs[i + 2..]
  {
  }

  lemma ConcatAssoc(a: seq<int>, b: int, w: seq<int>)
    ensures (a + [b]) + w == a + ([b] + w)
  {
  }

  /** Splicing out a copy of `v` followed by a kept element: what is left
      for the loop to filter from `i + 1` on is what the filter from `i`
      keeps. */
  lemma SpliceStep(xs: seq<int>, v: int, i: nat)
    requires i + 1 < |xs| && xs[i] == v && xs[i + 1] != v
    ensures var ys := xs[..i] + xs[i + 1..];
      ys[..i + 1] + Without(ys[i + 1..], v) == xs[..i] + Without(xs[i..], v)
  {
    WithoutPairHead(xs, v, i);
    SplicedSlices(xs, i);
    ConcatAssoc(xs[..i], xs[i + 1], Without(xs[i + 2..], v));
  }

  /** Without two adjacent copies of `v`, the loop removes every copy, as
      the filter does. */
  lemma {:induction false} SpliceAllNoPairs(xs: seq<int>, v: int, i: nat)
    requires i <= |xs| && NoPairFrom(xs, v, i)
    ensures SpliceAll(xs, v, i) == xs[..i] + Without(xs[i..], v)
    decreases |xs| - i
  {
    if i == |xs| {
      assert xs[..i] == xs;
    } else if xs[i] != v {
      SpliceAllNoPairs(xs, v, i + 1);
      KeepStep(xs, v, i);
    } else if i + 1 == |xs| {
      assert xs[..i] + xs[i + 1..] == xs[..i];
      assert xs[i..] == [v];
      WithoutCons(v, [], v);
    } else {
      NoPairsAfterRemove(xs, v, i);
      SpliceAllNoPairs(xs[..i] + xs[i + 1..], v, i + 1);
      SpliceStep(xs, v, i);
      assert SpliceAll(xs, v, i) == SpliceAll(xs[..i] + xs[i + 1..], v, i + 1);
    }
  }

  /** The pair is reachable: a DM whose creator also lists themselves among
      the invitees has the creator twice at the head of its member list, and
      the loop as written would leave one copy there. */
  lemma CreatorListedTwice(s: Store, token: string, now: int)
    requires TokenUser(s, token).Some?
    requires DmCreate(s, token, [TokenUser(s, token).value], now).Ok?
    ensures var u := TokenUser(s, token).value;
      var members := DmCreate(s, token, [u], now).value.0.dms[|s.dms|].allMembers;
      && members == [u, u]
      && SpliceAll(members, u, 0) == [u]
      && Without(members, u) == []
  {
    var u := TokenUser(s, token).value;
    var s' := DmCreate(s, token, [u], now).value.0;
    assert s'.dms[|s.dms|].allMembers == [u, u] by {
      assert s'.dms[|s.dms|].allMembers == [u] + [u];
    }
    SpliceAllLeavesPair(u);
    WithoutCons(u, [u], u);
    WithoutCons(u, [], u);
    assert [u, u] == [u] + [u];
  }

  predicate NoAdjacentPair(xs: seq<int>, v: int)
  {
    forall j :: 0 <= j && j + 1 < |xs| ==> !(xs[j] == v && xs[j + 1] == v)
  }

  /** The corrected removal and the loop as written agree on every list in
      which the user never appears twice in a row. */
  lemma SpliceAllIsWithout(xs: seq<int>, v: int)
    requires NoAdjacentPair(xs, v)
    ensures SpliceAll(xs, v, 0) == Without(xs, v)
  {
    SpliceAllNoPairs(xs, v, 0);
    assert xs[0..] == xs;
  }

  /** Filtering distributes over concatenation. */
  lemma {:induction false} WithoutAppend(a: seq<int>, b: seq<int>, v: int)
    ensures Without(a + b, v) == Without(a, v) + Without(b, v)
    decreases |a|
  {
    if |a| == 0 {
      assert a + b == b;
    } else {
      assert (a + b)[0] == a[0] && (a + b)[1..] == a[1..] + b;
      WithoutAppend(a[1..], b, v);
    }
  }

  /** The splice loop removes nothing but copies of `v`: what is left, with
      `v` filtered out, is `xs` with `v` filtered out. */
  lemma {:induction false} SpliceAllKeepsOthers(xs: seq<int>, v: int, i: nat)
    ensures Without(SpliceAll(xs, v, i), v) == Without(xs, v)
    decreases |xs| + 1 - i
  {
    if i < |xs| && xs[i] == v {
      SpliceAllKeepsOthers(xs[..i] + xs[i + 1..], v, i + 1);
      assert xs == xs[..i] + ([v] + xs[i + 1..]);
      WithoutAppend(xs[..i], [v] + xs[i + 1..], v);
      WithoutCons(v, xs[i + 1..], v);
      WithoutAppend(xs[..i], xs[i + 1..], v);
    } else if i < |xs| {
      SpliceAllKeepsOthers(xs, v, i + 1);
    }
  }

  const RemovedText := "Removed user"

  /** The record a removed user keeps. */
  function Tombstone(u: User): User
  {
    u.(nameFirst := "Removed", nameLast := "user", email := "", handleStr := "")
  }

  function ScrubMessages(ms: seq<Message>, uId: int): (r: seq<Message>)
    ensures |r| == |ms|
    ensures forall i :: 0 <= i < |ms| ==>
      r[i] == if ms[i].uId == uId then ms[i].(text := RemovedText) else ms[i]
  {
    seq(|ms|, i requires 0 <= i < |ms| => if ms[i].uId == uId then ms[i].(text := RemovedText) else ms[i])
  }

  /** A channel after removal as written: both lists go through the splice
      loop and the user's messages are scrubbed. */
  function StripChannel(c: Channel, uId: int): Channel
  {
    c.(ownerMembers := SpliceAll(c.ownerMembers, uId, 0), allMembers := SpliceAll(c.allMembers, uId, 0),
       messages := ScrubMessages(c.messages, uId))
  }

  function StripDm(d: Dm, uId: int): Dm
  {
    d.(ownerMembers := SpliceAll(d.ownerMembers, uId, 0), allMembers := SpliceAll(d.allMembers, uId, 0),
       messages := ScrubMessages(d.messages, uId))
  }

  /** A channel after the intended removal: every copy of the user leaves
      both lists. */
  function StripChannelIntended(c: Channel, uId: int): Channel
  {
    c.(ownerMembers := Without(c.ownerMembers, uId), allMembers := Without(c.allMembers, uId),
       messages := ScrubMessages(c.messages, uId))
  }

  function StripDmIntended(d: Dm, uId: int): Dm
  {
    d.(ownerMembers := Without(d.ownerMembers, uId), allMembers := Without(d.allMembers, uId),
       messages := ScrubMessages(d.messages, uId))
  }

  function TombstoneAll(users: seq<User>, uId: int): (r: seq<User>)
    ensures |r| == |users|
    ensures forall k :: 0 <= k < |users| ==>
      r[k] == if users[k].authUserId == uId then Tombstone(users[k]) else users[k]
  {
    seq(|users|, k requires 0 <= k < |users| =>
      if users[k].authUserId == uId then Tombstone(users[k]) else users[k])
  }

  function StripChannels(chs: seq<Channel>, uId: int): (r: seq<Channel>)
    ensures |r| == |chs|
    ensures forall k :: 0 <= k < |chs| ==> r[k] == StripChannel(chs[k], uId)
  {
    seq(|chs|, k requires 0 <= k < |chs| => StripChannel(chs[k], uId))
  }

  function StripDms(dms: seq<Dm>, uId: int): (r: seq<Dm>)
    ensures |r| == |dms|
    ensures forall k :: 0 <= k < |dms| ==> r[k] == StripDm(dms[k], uId)
  {
    seq(|dms|, k requires 0 <= k < |dms| => StripDm(dms[k], uId))
  }

  function StripChannelsIntended(chs: seq<Channel>, uId: int): (r: seq<Channel>)
    ensures |r| == |chs|
    ensures forall k :: 0 <= k < |chs| ==> r[k] == StripChannelIntended(chs[k], uId)
  {
    seq(|chs|, k requires 0 <= k < |chs| => StripChannelIntended(chs[k], uId))
  }

  function StripDmsIntended(dms: seq<Dm>, uId: int): (r: seq<Dm>)
    ensures |r| == |dms|
    ensures forall k :: 0 <= k < |dms| ==> r[k] == StripDmIntended(dms[k], uId)
  {
    seq(|dms|, k requires 0 <= k < |dms| => StripDmIntended(dms[k], uId))
  }

  /** The tokens left after removal: the tokens sharing the key of the
      target's last token are filtered out of the original list; earlier
      tokens of the target survive. */
  function DropLastSession(tokens: seq<Token>, uId: int): (r: seq<Token>)
    ensures LastIndex(tokens, (t: Token) => t.uId == uId).None? ==> r == tokens
    ensures LastIndex(tokens, (t: Token) => t.uId == uId).Some? ==>
      r == DropKey(tokens, tokens[LastIndex(tokens, (t: Token) => t.uId == uId).value].key)
  {
    match LastIndex(tokens, (t: Token) => t.uId == uId)
    case None => tokens
    case Some(i) => DropKey(tokens, tokens[i].key)
  }

  /** `admin/user/remove`: token 403, unknown user 400, target the only
      global owner 400 (both before the caller check), acting user not a
      global owner 403.  The target's records become tombstones, every owner
      and member list goes through the splice loop (which misses a copy of
      the target right after another), their messages read "Removed user",
      and their last session ends. */
  function AdminUserRemove(s: Store, uId: int, token: string): (r: Result<Store>)
    ensures TokenUser(s, token).None? ==> r == Err(Forbidden)
    ensures TokenUser(s, token).Some? && !IsUser(s, uId) ==> r == Err(BadRequest)
    ensures (TokenUser(s, token).Some? && IsUser(s, uId)
             && CountGlobals(s.users, (u: User) => true) == 1
             && (exists k :: 0 <= k < |s.users| && s.users[k].authUserId == uId && s.users[k].permissionId == GlobalOwner))
      ==> r == Err(BadRequest)
    ensures TokenUser(s, token).Some? && IsUser(s, uId) && !OnlyGlobalTarget(s, uId) ==>
      && (r == Err(Forbidden) <==> NotGlobalOwner(s, ActingUser(s, token).value))
      && (r.Ok? <==> !NotGlobalOwner(s, ActingUser(s, token).value))
    ensures r.Ok? ==> TokenUser(s, token).Some? && IsUser(s, uId) && !NotGlobalOwner(s, ActingUser(s, token).value)
    ensures r.Ok? ==>
      var s' := r.value;
      && |s'.users| == |s.users|
      && (forall k :: 0 <= k < |s.users| ==>
            s'.users[k] == if s.users[k].authUserId == uId then Tombstone(s.users[k]) else s.users[k])
      && |s'.channels| == |s.channels| && |s'.dms| == |s.dms|
      && (forall k :: 0 <= k < |s.channels| ==> s'.channels[k] == StripChannel(s.channels[k], uId))
      && (forall k :: 0 <= k < |s.dms| ==> s'.dms[k] == StripDm(s.dms[k], uId))
      && s'.tokens == DropLastSession(s.tokens, uId)
      && s'.userStats == s.userStats && s'.workspaceStats == s.workspaceStats
  {
    match TokenUser(s, token)
    case None => Err(Forbidden)
    case Some(_) =>
      if !IsUser(s, uId) then Err(BadRequest)
      else if OnlyGlobalTarget(s, uId) then Err(BadRequest)
      else if NotGlobalOwner(s, ActingUser(s, token).value) then Err(Forbidden)
      else
        Ok(Store(TombstoneAll(s.users, uId), StripChannels(s.channels, uId), DropLastSession(s.tokens, uId),
                 StripDms(s.dms, uId), s.userStats, s.workspaceStats))
  }

  /** The removal the handler intends: the same checks and the same store as
      `AdminUserRemove`, except that every copy of the target leaves every
      owner and member list. */
  function AdminUserRemoveIntended(s: Store, uId: int, token: string): (r: Result<Store>)
    ensures r.Err? <==> AdminUserRemove(s, uId, token).Err?
    ensures r.Err? ==> r == AdminUserRemove(s, uId, token)
    ensures r.Ok? ==>
      var w := AdminUserRemove(s, uId, token).value;
      && r.value.users == w.users && r.value.tokens == w.tokens
      && r.value.userStats == w.userStats && r.value.workspaceStats == w.workspaceStats
      && |r.value.channels| == |w.channels| && |r.value.dms| == |w.dms|
      && (forall k :: 0 <= k < |w.channels| ==>
            r.value.channels[k] == w.channels[k].(ownerMembers := Without(s.channels[k].ownerMembers, uId),
                                                  allMembers := Without(s.channels[k].allMembers, uId)))
      && (forall k :: 0 <= k < |w.dms| ==>
            r.value.dms[k] == w.dms[k].(ownerMembers := Without(s.dms[k].ownerMembers, uId),
                                        allMembers := Without(s.dms[k].allMembers, uId)))
  {
    match AdminUserRemove(s, uId, token)
    case Err(c) => Err(c)
    case Ok(w) => Ok(w.(channels := StripChannelsIntended(s.channels, uId), dms := StripDmsIntended(s.dms, uId)))
  }

  /** After the intended removal the user is in no owner or member list, yet
      keeps a (tombstoned) record, so the id still names a user. */
  lemma RemovedUserIsGone(s: Store, uId: int, token: string)
    requires AdminUserRemoveIntended(s, uId, token).Ok?
    ensures var s' := AdminUserRemoveIntended(s, uId, token).value;
      && (forall k :: 0 <= k < |s'.channels| ==> uId !in s'.channels[k].ownerMembers && uId !in s'.channels[k].allMembers)
      && (forall k :: 0 <= k < |s'.dms| ==> uId !in s'.dms[k].ownerMembers && uId !in s'.dms[k].allMembers)
      && IsUser(s', uId)
      && HandleOf(s', uId) == Some("")
  {
    var s' := AdminUserRemoveIntended(s, uId, token).value;
    FindUserByIds(s, s', uId);
  }

  /** Removal as written keeps a tombstoned record for the target, and takes
      no one else out of any list: filtering the target out of a list after
      removal gives what filtering it out before did. */
  lemma RemoveKeepsOthersListed(s: Store, uId: int, token: string)
    requires AdminUserRemove(s, uId, token).Ok?
    ensures var s' := AdminUserRemove(s, uId, token).value;
      && IsUser(s', uId) && HandleOf(s', uId) == Some("")
      && (forall k :: 0 <= k < |s.channels| ==>
            && Without(s'.channels[k].ownerMembers, uId) == Without(s.channels[k].ownerMembers, uId)
            && Without(s'.channels[k].allMembers, uId) == Without(s.channels[k].allMembers, uId))
      && (forall k :: 0 <= k < |s.dms| ==>
            && Without(s'.dms[k].ownerMembers, uId) == Without(s.dms[k].ownerMembers, uId)
            && Without(s'.dms[k].allMembers, uId) == Without(s.dms[k].allMembers, uId))
  {
    var s' := AdminUserRemove(s, uId, token).value;
    FindUserByIds(s, s', uId);
    forall k | 0 <= k < |s.channels|
      ensures Without(s'.channels[k].ownerMembers, uId) == Without(s.channels[k].ownerMembers, uId)
      ensures Without(s'.channels[k].allMembers, uId) == Without(s.channels[k].allMembers, uId)
    {
      SpliceAllKeepsOthers(s.channels[k].ownerMembers, uId, 0);
      SpliceAllKeepsOthers(s.channels[k].allMembers, uId, 0);
    }
    forall k | 0 <= k < |s.dms|
      ensures Without(s'.dms[k].ownerMembers, uId) == Without(s.dms[k].ownerMembers, uId)
      ensures Without(s'.dms[k].allMembers, uId) == Without(s.dms[k].allMembers, uId)
    {
      SpliceAllKeepsOthers(s.dms[k].ownerMembers, uId, 0);
      SpliceAllKeepsOthers(s.dms[k].allMembers, uId, 0);
    }
  }

  /** Removal as written leaves the target in a DM that lists them twice in a
      row, as the one `CreatorListedTwice` builds does. */
  lemma RemoveLeavesRepeatedMember(s: Store, uId: int, token: string, k: nat)
    requires AdminUserRemove(s, uId, token).Ok?
    requires k < |s.dms| && s.dms[k].allMembers == [uId, uId]
    ensures AdminUserRemove(s, uId, token).value.dms[k].allMembers == [uId]
    ensures AdminUserRemoveIntended(s, uId, token).value.dms[k].allMembers == []
  {
    SpliceAllLeavesPair(uId);
    WithoutCons(uId, [uId], uId);
    WithoutCons(uId, [], uId);
    assert [uId, uId] == [uId] + [uId];
  }

  /** Where no list holds the target twice in a row, the removal as written
      and the intended one give the same store. */
  lemma RemoveAgreesWithoutPairs(s: Store, uId: int, token: string)
    requires AdminUserRemove(s, uId, token).Ok?
    requires forall k :: 0 <= k < |s.channels| ==>
      NoAdjacentPair(s.channels[k].ownerMembers, uId) && NoAdjacentPair(s.channels[k].allMembers, uId)
    requires forall k :: 0 <= k < |s.dms| ==>
      NoAdjacentPair(s.dms[k].ownerMembers, uId) && NoAdjacentPair(s.dms[k].allMembers, uId)
    ensures AdminUserRemoveIntended(s, uId, token) == AdminUserRemove(s, uId, token)
  {
    var w := AdminUserRemove(s, uId, token).value;
    var r := AdminUserRemoveIntended(s, uId, token).value;
    forall k | 0 <= k < |s.channels| ensures r.channels[k] == w.channels[k] {
      SpliceAllIsWithout(s.channels[k].ownerMembers, uId);
      SpliceAllIsWithout(s.channels[k].allMembers, uId);
    }
    forall k | 0 <= k < |s.dms| ensures r.dms[k] == w.dms[k] {
      SpliceAllIsWithout(s.dms[k].ownerMembers, uId);
      SpliceAllIsWithout(s.dms[k].allMembers, uId);
    }
    assert r.channels == w.channels && r.dms == w.dms;
    assert r == w;
  }

  /** Removal rewrites exactly the removed user's messages: message ids and
      positions stay, so every message is found where it was, and only its
      text may change. */
  lemma RemoveScrubsOnlyTheirMessages(s: Store, uId: int, token: string, l: Loc)
    requires AdminUserRemove(s, uId, token).Ok?
    requires ValidLoc(s, l)
    ensures var s' := AdminUserRemove(s, uId, token).value;
      && ValidLoc(s', l)
      && MessageAt(s', l) == if MessageAt(s, l).uId == uId then MessageAt(s, l).(text := RemovedText) else MessageAt(s, l)
  {
  }

  lemma ScrubKeepsIds(ms: seq<Message>, uId: int)
    ensures MsgIds(ScrubMessages(ms, uId)) == MsgIds(ms)
  {
  }

  /** Message ids are untouched by removal, so their uniqueness is kept. */
  lemma RemoveKeepsIdsUnique(s: Store, uId: int, token: string)
    requires AdminUserRemove(s, uId, token).Ok?
    ensures IdLists(AdminUserRemove(s, uId, token).value) == IdLists(s)
    ensures MessageIdsUnique(s) ==> MessageIdsUnique(AdminUserRemove(s, uId, token).value)
  {
    var s' := AdminUserRemove(s, uId, token).value;
    forall k | 0 <= k < |s.channels| ensures ChannelIdLists(s'.channels)[k] == ChannelIdLists(s.channels)[k] {
      ScrubKeepsIds(s.channels[k].messages, uId);
    }
    forall k | 0 <= k < |s.dms| ensures DmIdLists(s'.dms)[k] == DmIdLists(s.dms)[k] {
      ScrubKeepsIds(s.dms[k].messages, uId);
    }
    assert ChannelIdLists(s'.channels) == ChannelIdLists(s.channels);
    assert DmIdLists(s'.dms) == DmIdLists(s.dms);
  }

  /** Sessions whose key differs from that of the removed user's last token
      are unaffected. */
  lemma RemoveKeepsOtherSessions(s: Store, uId: int, token: string, other: string)
    requires AdminUserRemove(s, uId, token).Ok?
    requires forall i :: 0 <= i < |s.tokens| && s.tokens[i].uId == uId ==> s.tokens[i].key != other
    ensures TokenUser(AdminUserRemove(s, uId, token).value, other) == TokenUser(s, other)
  {
    var s' := AdminUserRemove(s, uId, token).value;
    DropLastKeepsOthers(s, s', uId, other);
  }

  /** Ending the user's last session leaves a key that none of their
      sessions use resolving as before. */
  lemma DropLastKeepsOthers(s: Store, s': Store, uId: int, other: string)
    requires s'.tokens == DropLastSession(s.tokens, uId)
    requires forall i :: 0 <= i < |s.tokens| && s.tokens[i].uId == uId ==> s.tokens[i].key != other
    ensures TokenUser(s', other) == TokenUser(s, other)
  {
    match LastIndex(s.tokens, (t: Token) => t.uId == uId)
    case None =>
      assert s'.tokens == s.tokens;
    case Some(i) =>
      DropKeyKeepsOthers(s.tokens, s.tokens[i].key, other);
  }
}
