/** Profiles and the profile setters.  The three setters validate their input
    and then write to the user record whose id is 0 rather than to the
    caller's record; the caller's token is only checked for validity. */
module Users {
  import opened Base
  import opened Types

  /** The profile view.  Its `userStats` field carries the permission id. */
  datatype Profile = Profile(
    uId: int,
    email: string,
    nameFirst: string,
    nameLast: string,
    handleStr: string,
    permissionId: int,
    profileImgUrl: string,
    userStats: int)

  /** `user/profile`: token 403, unknown user 400, otherwise the first record
      with that id. */
  function UserProfile(s: Store, token: string, uId: int): (r: Result<Profile>)
    ensures TokenUser(s, token).None? ==> r == Err(Forbidden)
    ensures TokenUser(s, token).Some? && !IsUser(s, uId) ==> r == Err(BadRequest)
    ensures TokenUser(s, token).Some? && IsUser(s, uId) ==> r.Ok?
    ensures r.Ok? ==>
      var u := s.users[FindUser(s, uId).value];
      && r.value.uId == uId == u.authUserId
      && r.value.email == u.email && r.value.nameFirst == u.nameFirst && r.value.nameLast == u.nameLast
      && r.value.handleStr == u.handleStr && r.value.permissionId == u.permissionId
      && r.value.profileImgUrl == u.profileImgUrl
      && r.value.userStats == u.permissionId
  {
    var _ :- TokenOf(s, token);
    match FindUser(s, uId)
    case None => Err(BadRequest)
    case Some(k) =>
      var u := s.users[k];
      Ok(Profile(uId, u.email, u.nameFirst, u.nameLast, u.handleStr, u.permissionId, u.profileImgUrl, u.permissionId))
  }

  /** The id the setters write to. */
  const SetterTarget := 0

  /** Apply `f` to every user record whose id is the setter target. */
  function UpdateTarget(users: seq<User>, f: User -> User): (r: seq<User>)
    ensures |r| == |users|
    ensures forall k :: 0 <= k < |users| ==>
      r[k] == if users[k].authUserId == SetterTarget then f(users[k]) else users[k]
  {
    seq(|users|, k requires 0 <= k < |users| =>
      if users[k].authUserId == SetterTarget then f(users[k]) else users[k])
  }

  predicate NameOk(name: string)
  {
    1 <= Utf16Len(name) <= 50
  }

  /** `user/profile/setname`: token 403, first name outside 1..50 400, last
      name outside 1..50 400; then user 0's names are replaced. */
  function UserSetName(s: Store, token: string, nameFirst: string, nameLast: string): (r: Result<Store>)
    ensures TokenUser(s, token).None? ==> r == Err(Forbidden)
    ensures TokenUser(s, token).Some? ==>
      (r.Ok? <==> NameOk(nameFirst) && NameOk(nameLast)) && (r.Err? ==> r.code == BadRequest)
    ensures r.Ok? ==>
      && r.value.(users := s.users) == s
      && |r.value.users| == |s.users|
      && forall k :: 0 <= k < |s.users| ==>
           r.value.users[k] == if s.users[k].authUserId == SetterTarget
             then s.users[k].(nameFirst := nameFirst, nameLast := nameLast) else s.users[k]
  {
    var _ :- TokenOf(s, token);
    if !NameOk(nameFirst) then Err(BadRequest)
    else if !NameOk(nameLast) then Err(BadRequest)
    else Ok(s.(users := UpdateTarget(s.users, (u: User) => u.(nameFirst := nameFirst, nameLast := nameLast))))
  }

  /** An email is taken when any record holds it. */
  predicate EmailTaken(s: Store, email: string)
  {
    exists k :: 0 <= k < |s.users| && s.users[k].email == email
  }

  /** `user/profile/setemail`: token 403, malformed email 400 (`isEmail` stands
      for the validator library), email already held by anyone 400; then user
      0's email is replaced. */
  function UserSetEmail(s: Store, token: string, email: string, isEmail: string -> bool): (r: Result<Store>)
    ensures TokenUser(s, token).None? ==> r == Err(Forbidden)
    ensures TokenUser(s, token).Some? ==>
      (r.Ok? <==> isEmail(email) && !EmailTaken(s, email)) && (r.Err? ==> r.code == BadRequest)
    ensures r.Ok? ==>
      && r.value.(users := s.users) == s
      && |r.value.users| == |s.users|
      && forall k :: 0 <= k < |s.users| ==>
           r.value.users[k] == if s.users[k].authUserId == SetterTarget
             then s.users[k].(email := email) else s.users[k]
  {
    var _ :- TokenOf(s, token);
    if !isEmail(email) then Err(BadRequest)
    else if EmailTaken(s, email) then Err(BadRequest)
    else Ok(s.(users := UpdateTarget(s.users, (u: User) => u.(email := email))))
  }

  predicate IsAlnum(c: char)
  {
    ('a' <= c <= 'z') || ('A' <= c <= 'Z') || ('0' <= c <= '9')
  }

  predicate HandleTaken(s: Store, handle: string)
  {
    exists k :: 0 <= k < |s.users| && s.users[k].handleStr == handle
  }

  /** `user/profile/sethandle`: token 403, length outside 3..20 400, a
      character outside [A-Za-z0-9] 400, handle already held 400; then user
      0's handle is replaced. */
  function UserSetHandle(s: Store, token: string, handle: string): (r: Result<Store>)
    ensures TokenUser(s, token).None? ==> r == Err(Forbidden)
    ensures TokenUser(s, token).Some? ==>
      (r.Ok? <==> 3 <= Utf16Len(handle) <= 20 && (forall i :: 0 <= i < |handle| ==> IsAlnum(handle[i])) && !HandleTaken(s, handle))
      && (r.Err? ==> r.code == BadRequest)
    ensures r.Ok? ==>
      && r.value.(users := s.users) == s
      && |r.value.users| == |s.users|
      && forall k :: 0 <= k < |s.users| ==>
           r.value.users[k] == if s.users[k].authUserId == SetterTarget
             then s.users[k].(handleStr := handle) else s.users[k]
  {
    var _ :- TokenOf(s, token);
    if Utf16Len(handle) < 3 || Utf16Len(handle) > 20 then Err(BadRequest)
    else if !(forall i :: 0 <= i < |handle| ==> IsAlnum(handle[i])) then Err(BadRequest)
    else if HandleTaken(s, handle) then Err(BadRequest)
    else Ok(s.(users := UpdateTarget(s.users, (u: User) => u.(handleStr := handle))))
  }

  /** Which session calls a setter makes no difference: any two valid tokens
      produce the same store. */
  lemma SettersIgnoreCaller(s: Store, t1: string, t2: string, nameFirst: string, nameLast: string,
                            email: string, isEmail: string -> bool, handle: string)
    requires TokenUser(s, t1).Some? && TokenUser(s, t2).Some?
    ensures UserSetName(s, t1, nameFirst, nameLast) == UserSetName(s, t2, nameFirst, nameLast)
    ensures UserSetEmail(s, t1, email, isEmail) == UserSetEmail(s, t2, email, isEmail)
    ensures UserSetHandle(s, t1, handle) == UserSetHandle(s, t2, handle)
  {
  }

  /** After a successful handle change by anyone, user 0 (if registered)
      holds the new handle and it was not held before. */
  lemma SetHandleTargetsUserZero(s: Store, token: string, handle: string)
    requires UserSetHandle(s, token, handle).Ok?
    requires IsUser(s, SetterTarget)
    ensures var s' := UserSetHandle(s, token, handle).value;
      HandleOf(s', SetterTarget) == Some(handle) && !HandleTaken(s, handle)
  {
    var s' := UserSetHandle(s, token, handle).value;
    var k := FindUser(s, SetterTarget).value;
    assert forall j :: 0 <= j < |s.users| ==> s'.users[j].authUserId == s.users[j].authUserId;
    FindUserByIds(s, s', SetterTarget);
  }

  datatype Member = Member(uId: int, email: string, nameFirst: string, nameLast: string, handleStr: string)

  function MemberOf(u: User): Member
  {
    Member(u.authUserId, u.email, u.nameFirst, u.nameLast, u.handleStr)
  }

  /** `users/all`: every user record, in storage order (removed users too). */
  function UsersAll(s: Store, token: string): (r: Result<seq<Member>>)
    ensures TokenUser(s, token).None? <==> r == Err(Forbidden)
    ensures TokenUser(s, token).Some? ==> r.Ok?
    ensures r.Ok? ==> |r.value| == |s.users|
    ensures r.Ok? ==> forall k :: 0 <= k < |s.users| ==>
      r.value[k].uId == s.users[k].authUserId && r.value[k].handleStr == s.users[k].handleStr
      && r.value[k].email == s.users[k].email
      && r.value[k].nameFirst == s.users[k].nameFirst && r.value[k].nameLast == s.users[k].nameLast
  {
    var _ :- TokenOf(s, token);
    Ok(seq(|s.users|, k requires 0 <= k < |s.users| => MemberOf(s.users[k])))
  }

  /** With distinct user ids, every entry of `users/all` is the profile that
      `user/profile` gives for its id. */
  lemma UsersAllMatchesProfiles(s: Store, token: string, k: nat)
    requires UsersAll(s, token).Ok? && UserIdsUnique(s.users) && k < |s.users|
    ensures var m := UsersAll(s, token).value[k];
      var p := UserProfile(s, token, m.uId);
      && p.Ok?
      && p.value.uId == m.uId && p.value.email == m.email
      && p.value.nameFirst == m.nameFirst && p.value.nameLast == m.nameLast
      && p.value.handleStr == m.handleStr
  {
    var id := s.users[k].authUserId;
    assert FindUser(s, id).Some?;
    var j := FindUser(s, id).value;
    assert s.users[j].authUserId == s.users[k].authUserId;
  }
}
