/** Direct messages: creation (named after the sorted member handles),
    listing, removal, details, leaving, sending, and newest-first paging. */
module Dms {
  import opened Base
  import opened Types
  import opened MessageIds
  import opened Ledger
  import opened Pages
  import opened Users
  import opened Text

  // ---- names -----------------------------------------------------------------

  /** A DM's name: the member handles in ascending order, joined by ", ". */
  function DmName(handles: seq<string>): (r: string)
    ensures |handles| == 1 ==> r == handles[0]
  {
    Join(Sort(handles), ", ")
  }

  /** The name is the handles in ascending order joined by ", ": any sorted
      arrangement of the same handles gives it. */
  lemma DmNameIsSortedJoin(handles: seq<string>, t: seq<string>)
    requires Sorted(t) && multiset(t) == multiset(handles)
    ensures DmName(handles) == Join(t, ", ")
  {
    SortedUnique(Sort(handles), t);
  }

  /** The name depends only on which handles there are, not on their order. */
  lemma DmNameOrderIndependent(a: seq<string>, b: seq<string>)
    requires multiset(a) == multiset(b)
    ensures DmName(a) == DmName(b)
  {
    SortedUnique(Sort(a), Sort(b));
  }

  // ---- duplicate detection ---------------------------------------------------

  predicate Distinct(xs: seq<int>)
  {
    forall i, j :: 0 <= i < j < |xs| ==> xs[i] != xs[j]
  }

  function Elements(xs: seq<int>): set<int>
  {
    set x | x in xs
  }

  /** `new Set(xs).size === xs.length` holds exactly when no value repeats. */
  lemma {:induction false} SetSizeIffDistinct(xs: seq<int>)
    ensures |Elements(xs)| <= |xs|
    ensures |Elements(xs)| == |xs| <==> Distinct(xs)
  {
    if |xs| > 0 {
      var t := xs[1..];
      SetSizeIffDistinct(t);
      ElementsCons(xs);
      DistinctCons(xs);
      if xs[0] in t {
        assert Elements(xs) == Elements(t);
      } else {
        assert |Elements(xs)| == 1 + |Elements(t)|;
      }
    }
  }

  lemma ElementsCons(xs: seq<int>)
    requires |xs| > 0
    ensures Elements(xs) == {xs[0]} + Elements(xs[1..])
  {
    assert xs == [xs[0]] + xs[1..];
  }

  lemma DistinctCons(xs: seq<int>)
    requires |xs| > 0
    ensures Distinct(xs) <==> xs[0] !in xs[1..] && Distinct(xs[1..])
  {
    var t := xs[1..];
    if xs[0] !in t && Distinct(t) {
      forall i, j | 0 <= i < j < |xs| ensures xs[i] != xs[j] {
        if i > 0 { assert xs[i] == t[i - 1] && xs[j] == t[j - 1]; }
        else { assert xs[j] == t[j - 1]; }
      }
    }
    if Distinct(xs) {
      forall i, j | 0 <= i < j < |t| ensures t[i] != t[j] {
        assert t[i] == xs[i + 1] && t[j] == xs[j + 1];
      }
    }
  }

  // ---- create ----------------------------------------------------------------

  /** Handle of a user, "" for an id without a record. */
  function HandleOrEmpty(s: Store, id: int): (h: string)
    ensures IsUser(s, id) ==> Some(h) == HandleOf(s, id)
  {
    match HandleOf(s, id)
    case None => ""
    case Some(h) => h
  }

  /** Handles of the listed users. */
  function HandlesOf(s: Store, ids: seq<int>): (r: seq<string>)
    ensures |r| == |ids|
    ensures forall i :: 0 <= i < |ids| ==> r[i] == HandleOrEmpty(s, ids[i])
  {
    MapSeq(ids, id => HandleOrEmpty(s, id))
  }

  /** The id a new DM gets: one more than the last stored DM's id, or 0. */
  function NextDmId(s: Store): (r: int)
    ensures |s.dms| == 0 ==> r == 0
    ensures |s.dms| > 0 ==> r == s.dms[|s.dms| - 1].dmId + 1
  {
    if |s.dms| == 0 then 0 else s.dms[|s.dms| - 1].dmId + 1
  }

  /** DM ids rise along the stored list. */
  predicate DmIdsIncreasing(s: Store)
  {
    forall i, j :: 0 <= i < j < |s.dms| ==> s.dms[i].dmId < s.dms[j].dmId
  }

  /** While DM ids rise along the list, the next id is above all of them, so
      it names no stored DM. */
  lemma NextDmIdIsFresh(s: Store)
    requires DmIdsIncreasing(s)
    ensures forall k :: 0 <= k < |s.dms| ==> s.dms[k].dmId < NextDmId(s)
  {
    forall k | 0 <= k < |s.dms| ensures s.dms[k].dmId < NextDmId(s) {
      if k < |s.dms| - 1 {
        assert s.dms[k].dmId < s.dms[|s.dms| - 1].dmId;
      }
    }
  }

  /** The notification an invitee of a new DM receives. */
  function AddedNote(dmId: int, owner: string, name: string): Notification
  {
    Notification(-1, dmId, owner + " added you to " + name)
  }

  /** The part of `dm/create` after its checks: notify the invitees (which
      reads the inviter's record), append the DM and record one sample per
      member.  Each step that finds no record is a 500. */
  function Enlist(s: Store, u: nat, uIds: seq<int>, now: int): (r: Result<(Store, int)>)
    requires u < |s.users|
    requires forall i :: 0 <= i < |uIds| ==> IsUser(s, uIds[i])
    ensures r.Ok? <==> (|uIds| == 0 || IsUser(s, u))
                       && u in s.userStats && forall i :: 0 <= i < |uIds| ==> uIds[i] in s.userStats
    ensures r.Err? ==> r.code == Crashed
    ensures r.Ok? ==>
      var (s', dmId) := r.value;
      && dmId == NextDmId(s)
      && s'.dms == s.dms + [Dm(dmId, DmName([s.users[u].handleStr] + HandlesOf(s, uIds)), [u], [u] + uIds, [])]
      && s'.channels == s.channels && s'.tokens == s.tokens && s'.workspaceStats == s.workspaceStats
      && SameButNotifications(s'.users, s.users)
      && s'.userStats == BumpAll(s.userStats, [u] + uIds, DmsJoined, 1, now)
  {
    var name := DmName([s.users[u].handleStr] + HandlesOf(s, uIds));
    var dmId := NextDmId(s);
    var s1 :- NotifyInvitees(s, u, uIds, dmId, name);
    var s2 := s1.(dms := s1.dms + [Dm(dmId, name, [u], [u] + uIds, [])]);
    RecordedMembers(s2.userStats, u, uIds);
    var s3 :- RecordAll(s2, [u] + uIds, DmsJoined, 1, now);
    Ok((s3, dmId))
  }

  /** The invitees' notifications, which name the inviter by the handle of
      the record with id `u`; no invitee means no lookup. */
  function NotifyInvitees(s: Store, u: int, uIds: seq<int>, dmId: int, name: string): (r: Result<Store>)
    requires forall i :: 0 <= i < |uIds| ==> IsUser(s, uIds[i])
    ensures r.Ok? <==> |uIds| == 0 || IsUser(s, u)
    ensures r.Err? ==> r.code == Crashed
    ensures r.Ok? ==>
      && r.value.channels == s.channels && r.value.dms == s.dms && r.value.tokens == s.tokens
      && r.value.userStats == s.userStats && r.value.workspaceStats == s.workspaceStats
      && SameButNotifications(r.value.users, s.users)
  {
    if |uIds| == 0 then Ok(s)
    else match HandleOf(s, u)
         case None => Err(Crashed)
         case Some(owner) => NotifyAll(s, uIds, AddedNote(dmId, owner, name))
  }

  /** Every member of `[u] + uIds` has a record exactly when `u` and every
      invitee has one. */
  lemma RecordedMembers(stats: map<int, UserStats>, u: int, uIds: seq<int>)
    ensures (forall i :: 0 <= i < |[u] + uIds| ==> ([u] + uIds)[i] in stats)
       <==> u in stats && forall i :: 0 <= i < |uIds| ==> uIds[i] in stats
  {
    assert ([u] + uIds)[0] == u;
    assert forall i :: 0 <= i < |uIds| ==> ([u] + uIds)[i + 1] == uIds[i];
  }

  /** `dm/create`: token 403, a repeated uId 400, an unregistered uId 400.
      The creator's handle is read at position `u` of the user list, and the
      inviter's handle (for the invitees' notifications) from the record with
      id `u`; a missing record there is a 500.  The DM gets the next DM id,
      owner list `[u]`, members `u` followed by `uIds`, no messages, and the
      name built from the members' handles; every member listed gets one DM
      sample of +1. */
  function DmCreate(s: Store, token: string, uIds: seq<int>, now: int): (r: Result<(Store, int)>)
    ensures TokenUser(s, token).None? ==> r == Err(Forbidden)
    ensures TokenUser(s, token).Some? && !Distinct(uIds) ==> r == Err(BadRequest)
    ensures TokenUser(s, token).Some? && Distinct(uIds) && (exists i :: 0 <= i < |uIds| && !IsUser(s, uIds[i]))
      ==> r == Err(BadRequest)
    ensures TokenUser(s, token).Some? && Distinct(uIds) && (forall i :: 0 <= i < |uIds| ==> IsUser(s, uIds[i])) ==>
      var u := TokenUser(s, token).value;
      && (r.Ok? <==> 0 <= u < |s.users| && (|uIds| == 0 || IsUser(s, u))
                     && u in s.userStats && forall i :: 0 <= i < |uIds| ==> uIds[i] in s.userStats)
      && (r.Err? ==> r.code == Crashed)
    ensures r.Ok? ==>
      var u := TokenUser(s, token).value;
      var members := [u] + uIds;
      var (s', dmId) := r.value;
      && Distinct(uIds)
      && (forall i :: 0 <= i < |uIds| ==> IsUser(s, uIds[i]))
      && 0 <= u < |s.users|
      && dmId == NextDmId(s)
      && s'.dms == s.dms + [Dm(dmId, DmName([s.users[u].handleStr] + HandlesOf(s, uIds)), [u], members, [])]
      && s'.channels == s.channels && s'.tokens == s.tokens && s'.workspaceStats == s.workspaceStats
      && SameButNotifications(s'.users, s.users)
      && s'.userStats == BumpAll(s.userStats, members, DmsJoined, 1, now)
  {
    var u :- TokenOf(s, token);
    SetSizeIffDistinct(uIds);
    if |Elements(uIds)| != |uIds| then Err(BadRequest)
    else if exists i :: 0 <= i < |uIds| && !IsUser(s, uIds[i]) then Err(BadRequest)
    else if !(0 <= u < |s.users|) then Err(Crashed)
    else Enlist(s, u, uIds, now)
  }

  /** Creation keeps DM ids rising, and the new DM's id is one no earlier DM
      carries. */
  lemma DmCreateKeepsIdsIncreasing(s: Store, token: string, uIds: seq<int>, now: int)
    requires DmIdsIncreasing(s)
    requires DmCreate(s, token, uIds, now).Ok?
    ensures var (s', dmId) := DmCreate(s, token, uIds, now).value;
      && DmIdsIncreasing(s')
      && (forall k :: 0 <= k < |s.dms| ==> s.dms[k].dmId != dmId)
  {
    var (s', dmId) := DmCreate(s, token, uIds, now).value;
    var d := s'.dms[|s.dms|];
    assert s'.dms == s.dms + [d] && d.dmId == dmId == NextDmId(s);
    AppendNextKeepsIncreasing(s, s', d);
  }

  /** Appending a DM under the next id keeps DM ids rising. */
  lemma AppendNextKeepsIncreasing(s: Store, s': Store, d: Dm)
    requires DmIdsIncreasing(s)
    requires s'.dms == s.dms + [d] && d.dmId == NextDmId(s)
    ensures DmIdsIncreasing(s')
    ensures forall k :: 0 <= k < |s.dms| ==> s.dms[k].dmId != d.dmId
  {
    NextDmIdIsFresh(s);
  }

  /** The name of a DM does not depend on the order in which the invitees
      are listed. */
  lemma DmCreateNameIgnoresOrder(s: Store, token: string, a: seq<int>, b: seq<int>, now: int)
    requires DmCreate(s, token, a, now).Ok? && DmCreate(s, token, b, now).Ok?
    requires multiset(a) == multiset(b)
    ensures DmCreate(s, token, a, now).value.0.dms[|s.dms|].name == DmCreate(s, token, b, now).value.0.dms[|s.dms|].name
  {
    var u := TokenUser(s, token).value;
    var ra := DmCreate(s, token, a, now).value.0;
    var rb := DmCreate(s, token, b, now).value.0;
    var ha := [s.users[u].handleStr] + HandlesOf(s, a);
    var hb := [s.users[u].handleStr] + HandlesOf(s, b);
    MapPermute(a, b, id => HandleOrEmpty(s, id));
    DmNameOrderIndependent(ha, hb);
    assert ra.dms[|s.dms|].name == DmName(ha);
    assert rb.dms[|s.dms|].name == DmName(hb);
  }

  /** After a DM is created, each member's DM count has grown by the number
      of times they are listed (once each when the creator did not list
      themselves), and the earlier samples are kept. */
  lemma DmCreateCounts(s: Store, token: string, uIds: seq<int>, now: int, v: int)
    requires DmCreate(s, token, uIds, now).Ok?
    requires v in s.userStats
    ensures var u := TokenUser(s, token).value;
      var before := SeriesOf(s.userStats[v], DmsJoined);
      var after := SeriesOf(DmCreate(s, token, uIds, now).value.0.userStats[v], DmsJoined);
      && Current(after) == Current(before) + Occurrences([u] + uIds, v)
      && before <= after
      && (u !in uIds && v in [u] + uIds ==> Current(after) == Current(before) + 1)
      && (v !in [u] + uIds ==> after == before)
  {
    var u := TokenUser(s, token).value;
    BumpAllSeries(s.userStats, [u] + uIds, DmsJoined, 1, now, v);
    if u !in uIds && v in [u] + uIds {
      OccursOnce([u] + uIds, v);
    }
  }

  /** In a list without repeats, a listed value occurs once. */
  lemma {:induction false} OccursOnce(xs: seq<int>, v: int)
    requires v in xs
    requires Distinct(xs[1..]) && xs[0] !in xs[1..]
    ensures Occurrences(xs, v) == 1
  {
    if xs[0] != v {
      assert v in xs[1..];
      var t := xs[1..];
      if t[0] == v {
        assert v !in t[1..] by {
          forall j | 0 <= j < |t[1..]| ensures t[1..][j] != v { assert t[1..][j] == t[j + 1]; }
        }
      } else {
        OccursOnce(t, v);
      }
    }
  }

  // ---- list ------------------------------------------------------------------

  datatype DmEntry = DmEntry(dmId: int, name: string)

  /** The DMs that `u` is a member of, in storage order. */
  function DmsWith(dms: seq<Dm>, u: int): (r: seq<DmEntry>)
    ensures |r| <= |dms|
    ensures forall e :: e in r <==> exists k :: 0 <= k < |dms| && u in dms[k].allMembers && e == DmEntry(dms[k].dmId, dms[k].name)
  {
    if |dms| == 0 then []
    else
      var rest := DmsWith(dms[1..], u);
      assert forall k :: 1 <= k < |dms| ==> dms[k] == dms[1..][k - 1];
      if u in dms[0].allMembers then [DmEntry(dms[0].dmId, dms[0].name)] + rest else rest
  }

  /** `dm/list`: token 403; otherwise the DMs the caller belongs to. */
  function DmList(s: Store, token: string): (r: Result<seq<DmEntry>>)
    ensures TokenUser(s, token).None? <==> r == Err(Forbidden)
    ensures TokenUser(s, token).Some? ==> r.Ok?
    ensures r.Ok? ==> forall e :: e in r.value <==>
      exists k :: 0 <= k < |s.dms| && TokenUser(s, token).value in s.dms[k].allMembers
                  && e == DmEntry(s.dms[k].dmId, s.dms[k].name)
  {
    var u :- TokenOf(s, token);
    Ok(DmsWith(s.dms, u))
  }

  predicate RisingIds(r: seq<DmEntry>)
  {
    forall i, j :: 0 <= i < j < |r| ==> r[i].dmId < r[j].dmId
  }

  /** While DM ids rise along the list, the listing is in rising id order,
      so no DM is listed twice. */
  lemma {:induction false} DmsWithInOrder(dms: seq<Dm>, u: int)
    requires forall i, j :: 0 <= i < j < |dms| ==> dms[i].dmId < dms[j].dmId
    ensures RisingIds(DmsWith(dms, u))
    decreases |dms|
  {
    if |dms| > 0 {
      var rest := DmsWith(dms[1..], u);
      DmsWithInOrder(dms[1..], u);
      forall e | e in rest ensures dms[0].dmId < e.dmId {
        var t := dms[1..];
        var k :| 0 <= k < |t| && u in t[k].allMembers && e == DmEntry(t[k].dmId, t[k].name);
        assert t[k] == dms[k + 1];
        assert dms[0].dmId < dms[k + 1].dmId;
      }
      if u !in dms[0].allMembers {
        assert DmsWith(dms, u) == rest;
      } else {
        assert DmsWith(dms, u) == [DmEntry(dms[0].dmId, dms[0].name)] + rest;
        var r := [DmEntry(dms[0].dmId, dms[0].name)] + rest;
        assert RisingIds(rest);
        forall i, j | 0 <= i < j < |r| ensures r[i].dmId < r[j].dmId {
          if i == 0 {
            assert r[j] == rest[j - 1] && rest[j - 1] in rest;
          } else {
            assert r[i] == rest[i - 1] && r[j] == rest[j - 1];
          }
        }
      }
    }
  }

  /** `dm/list` names each DM of the caller exactly once, in rising id
      order, when DM ids rise along the stored list. */
  lemma DmListOnce(s: Store, token: string)
    requires DmIdsIncreasing(s)
    requires DmList(s, token).Ok?
    ensures RisingIds(DmList(s, token).value)
  {
    assert DmList(s, token).value == DmsWith(s.dms, TokenUser(s, token).value);
    DmsWithInOrder(s.dms, TokenUser(s, token).value);
  }

  /** A successful `dm/create` shows the new DM in its creator's list. */
  lemma CreateThenListed(s: Store, token: string, uIds: seq<int>, now: int)
    requires DmCreate(s, token, uIds, now).Ok?
    ensures var (s', dmId) := DmCreate(s, token, uIds, now).value;
      && DmList(s', token).Ok?
      && DmEntry(dmId, s'.dms[|s.dms|].name) in DmList(s', token).value
  {
    var (s', dmId) := DmCreate(s, token, uIds, now).value;
    var u := TokenUser(s, token).value;
    assert s'.tokens == s.tokens;
    assert s'.dms[|s.dms|].dmId == dmId && u in s'.dms[|s.dms|].allMembers;
  }

  // ---- remove ----------------------------------------------------------------

  /** `dm/remove`: token 403, unknown DM 400, caller not a member 403, caller
      not an owner 403.  The DM is taken out of the list and every former
      member gets a DM sample of -1. */
  function DmRemove(s: Store, token: string, dmId: int, now: int): (r: Result<Store>)
    ensures TokenUser(s, token).None? ==> r == Err(Forbidden)
    ensures TokenUser(s, token).Some? && FindDm(s, dmId).None? ==> r == Err(BadRequest)
    ensures TokenUser(s, token).Some? && FindDm(s, dmId).Some? ==>
      var u := TokenUser(s, token).value;
      var k := FindDm(s, dmId).value;
      var d := s.dms[k];
      && (u !in d.allMembers ==> r == Err(Forbidden))
      && (u in d.allMembers && u !in d.ownerMembers ==> r == Err(Forbidden))
      && (u in d.ownerMembers && u in d.allMembers ==>
            && (r.Ok? <==> forall i :: 0 <= i < |d.allMembers| ==> d.allMembers[i] in s.userStats)
            && (r.Ok? ==>
                  && r.value.dms == RemoveAt(s.dms, k)
                  && r.value.channels == s.channels && r.value.users == s.users && r.value.tokens == s.tokens
                  && r.value.userStats == BumpAll(s.userStats, d.allMembers, DmsJoined, -1, now)))
  {
    var u :- TokenOf(s, token);
    var k :- DmOf(s, dmId);
    var d := s.dms[k];
    if u !in d.allMembers then Err(Forbidden)
    else if u !in d.ownerMembers then Err(Forbidden)
    else RecordAll(s.(dms := RemoveAt(s.dms, k)), d.allMembers, DmsJoined, -1, now)
  }

  /** Removing a DM drops its messages with it; the remaining ids stay
      unique. */
  lemma DmRemoveKeepsIdsUnique(s: Store, token: string, dmId: int, now: int)
    requires MessageIdsUnique(s)
    requires DmRemove(s, token, dmId, now).Ok?
    ensures MessageIdsUnique(DmRemove(s, token, dmId, now).value)
  {
    var k := DmRemoveOutcome(s, token, dmId, now);
    DropDmKeepsUnique(s, DmRemove(s, token, dmId, now).value, k);
  }

  /** Dropping a whole DM keeps the remaining ids unique. */
  lemma DropDmKeepsUnique(s: Store, s': Store, k: nat)
    requires MessageIdsUnique(s) && k < |s.dms|
    requires s'.channels == s.channels && s'.dms == RemoveAt(s.dms, k)
    ensures MessageIdsUnique(s')
  {
    var L := IdLists(s);
    DropKeepsUnique(L, |s.channels| + k);
    DmIdListsRemove(s.dms, k);
    RemoveAfter(ChannelIdLists(s.channels), DmIdLists(s.dms), k);
    assert IdLists(s') == RemoveAt(L, |s.channels| + k);
  }

  /** A successful removal takes out the DM found by id and keeps every
      channel. */
  lemma DmRemoveOutcome(s: Store, token: string, dmId: int, now: int) returns (k: nat)
    requires DmRemove(s, token, dmId, now).Ok?
    ensures FindDm(s, dmId) == Some(k)
    ensures DmRemove(s, token, dmId, now).value.channels == s.channels
    ensures DmRemove(s, token, dmId, now).value.dms == RemoveAt(s.dms, k)
  {
    k := FindDm(s, dmId).value;
  }

  lemma DmIdListsRemove(dms: seq<Dm>, k: nat)
    requires k < |dms|
    ensures DmIdLists(RemoveAt(dms, k)) == RemoveAt(DmIdLists(dms), k)
  {
  }

  /** Taking an element out of the second part of a concatenation. */
  lemma RemoveAfter<T>(a: seq<T>, b: seq<T>, k: nat)
    requires k < |b|
    ensures a + RemoveAt(b, k) == RemoveAt(a + b, |a| + k)
  {
  }

  // ---- details ---------------------------------------------------------------

  /** `dm/details`: token 403, unknown DM 400, caller not a member 403; then
      the name and one profile per member, in member order (a member without
      a user record makes the profile lookup fail with 400). */
  function DmDetails(s: Store, token: string, dmId: int): (r: Result<(string, seq<Profile>)>)
    ensures TokenUser(s, token).None? ==> r == Err(Forbidden)
    ensures TokenUser(s, token).Some? && FindDm(s, dmId).None? ==> r == Err(BadRequest)
    ensures TokenUser(s, token).Some? && FindDm(s, dmId).Some? ==>
      var d := s.dms[FindDm(s, dmId).value];
      && (TokenUser(s, token).value !in d.allMembers ==> r == Err(Forbidden))
      && (TokenUser(s, token).value in d.allMembers ==>
            && (r.Ok? <==> forall i :: 0 <= i < |d.allMembers| ==> IsUser(s, d.allMembers[i]))
            && (r.Err? ==> r.code == BadRequest)
            && (r.Ok? ==> (r.value.0 == d.name && |r.value.1| == |d.allMembers|
                  && forall i :: 0 <= i < |d.allMembers| ==>
                       Ok(r.value.1[i]) == UserProfile(s, token, d.allMembers[i]))))
  {
    var _ :- TokenOf(s, token);
    var k :- DmOf(s, dmId);
    var d := s.dms[k];
    if TokenUser(s, token).value !in d.allMembers then Err(Forbidden)
    else if exists i :: 0 <= i < |d.allMembers| && !IsUser(s, d.allMembers[i]) then Err(BadRequest)
    else
      Ok((d.name, seq(|d.allMembers|, i requires 0 <= i < |d.allMembers| =>
                    UserProfile(s, token, d.allMembers[i]).value)))
  }

  /** Right after `dm/create`, the creator's `dm/details` of the new DM gives
      its name and one profile per member: the creator first, then the
      invitees in the order given. */
  lemma CreateThenDetails(s: Store, token: string, uIds: seq<int>, now: int)
    requires DmIdsIncreasing(s)
    requires DmCreate(s, token, uIds, now).Ok?
    requires IsUser(s, TokenUser(s, token).value)
    ensures var (s', dmId) := DmCreate(s, token, uIds, now).value;
      var u := TokenUser(s, token).value;
      && DmDetails(s', token, dmId).Ok?
      && DmDetails(s', token, dmId).value.0 == s'.dms[|s.dms|].name
      && |DmDetails(s', token, dmId).value.1| == |uIds| + 1
      && DmDetails(s', token, dmId).value.1[0].uId == u
      && forall i :: 0 <= i < |uIds| ==> DmDetails(s', token, dmId).value.1[i + 1].uId == uIds[i]
  {
    var (s', dmId) := DmCreate(s, token, uIds, now).value;
    var u, d := DmCreateOutcome(s, token, uIds, now);
    AppendNextKeepsIncreasing(s, s', d);
    NewDmFound(s, s', d);
    MembersStayUsers(s, s', u, uIds);
    DetailsListMembers(s', token, dmId, |s.dms|);
    assert forall i :: 0 <= i < |uIds| ==> d.allMembers[i + 1] == uIds[i];
  }

  /** What a successful `dm/create` leaves: the sessions as they were, the
      new DM appended under the next id with the caller and the invitees as
      members, and the user records changed only in their notifications. */
  lemma DmCreateOutcome(s: Store, token: string, uIds: seq<int>, now: int) returns (u: int, d: Dm)
    requires DmCreate(s, token, uIds, now).Ok?
    ensures u == TokenUser(s, token).value
    ensures var (s', dmId) := DmCreate(s, token, uIds, now).value;
      && s'.tokens == s.tokens
      && s'.dms == s.dms + [d] && d.dmId == dmId == NextDmId(s)
      && d.allMembers == [u] + uIds
      && SameButNotifications(s'.users, s.users)
      && (forall i :: 0 <= i < |uIds| ==> IsUser(s, uIds[i]))
  {
    u := TokenUser(s, token).value;
    d := DmCreate(s, token, uIds, now).value.0.dms[|s.dms|];
  }

  /** Registered members stay registered when only notifications change. */
  lemma MembersStayUsers(s: Store, s': Store, u: int, uIds: seq<int>)
    requires SameButNotifications(s'.users, s.users)
    requires IsUser(s, u) && forall i :: 0 <= i < |uIds| ==> IsUser(s, uIds[i])
    ensures forall i :: 0 <= i < |[u] + uIds| ==> IsUser(s', ([u] + uIds)[i])
  {
    forall k | 0 <= k < |s.users| ensures s'.users[k].authUserId == s.users[k].authUserId {
      assert s'.users[k].(notifications := s.users[k].notifications) == s.users[k];
    }
    var ms := [u] + uIds;
    forall i | 0 <= i < |ms| ensures IsUser(s', ms[i]) {
      FindUserByIds(s, s', ms[i]);
      if i > 0 {
        assert ms[i] == uIds[i - 1];
      }
    }
  }

  /** A member's `dm/details` of a DM whose members are all registered
      succeeds, with one profile per member in member order. */
  lemma DetailsListMembers(s: Store, token: string, dmId: int, k: nat)
    requires TokenUser(s, token).Some? && FindDm(s, dmId) == Some(k)
    requires TokenUser(s, token).value in s.dms[k].allMembers
    requires forall i :: 0 <= i < |s.dms[k].allMembers| ==> IsUser(s, s.dms[k].allMembers[i])
    ensures DmDetails(s, token, dmId).Ok?
    ensures DmDetails(s, token, dmId).value.0 == s.dms[k].name
    ensures |DmDetails(s, token, dmId).value.1| == |s.dms[k].allMembers|
    ensures forall i :: 0 <= i < |s.dms[k].allMembers| ==> DmDetails(s, token, dmId).value.1[i].uId == s.dms[k].allMembers[i]
  {
  }

  /** A DM appended under an id no earlier DM carries is the one that id
      finds. */
  lemma NewDmFound(s: Store, s': Store, d: Dm)
    requires s'.dms == s.dms + [d]
    requires forall k :: 0 <= k < |s.dms| ==> s.dms[k].dmId != d.dmId
    ensures FindDm(s', d.dmId) == Some(|s.dms|)
  {
    assert s'.dms[|s.dms|] == d;
    assert forall k :: 0 <= k < |s.dms| ==> s'.dms[k] == s.dms[k];
  }

  // ---- leave -----------------------------------------------------------------

  /** JavaScript's `for (const x of xs) if (x === v) xs.splice(at, 1)` over a
      list that the loop itself shortens, from iteration index `i`.  The
      splice position is either fixed in advance (`Some`) or recomputed as
      `xs.indexOf(v)` on the current list (`None`). */
  function ForOfSplice(xs: seq<int>, v: int, fixed: Option<int>, i: nat): (r: seq<int>)
    ensures |r| <= |xs|
    decreases |xs| + 1 - i
  {
    if i >= |xs| then xs
    else if xs[i] == v then
      var at := if fixed.Some? then fixed.value else IndexOf(xs, v);
      ForOfSplice(Splice1(xs, at), v, fixed, i + 1)
    else ForOfSplice(xs, v, fixed, i + 1)
  }

  /** With no `v` left to visit, the loop changes nothing. */
  lemma {:induction false} ForOfSpliceNoMatch(xs: seq<int>, v: int, fixed: Option<int>, i: nat)
    requires forall j :: i <= j < |xs| ==> xs[j] != v
    ensures ForOfSplice(xs, v, fixed, i) == xs
    decreases |xs| + 1 - i
  {
    if i < |xs| {
      ForOfSpliceNoMatch(xs, v, fixed, i + 1);
    }
  }

  /** When `v` is met exactly once (at `c`), the loop splices once, at the
      fixed position or at the first occurrence of `v`. */
  lemma {:induction false} ForOfSpliceOnce(xs: seq<int>, v: int, fixed: Option<int>, i: nat, c: nat)
    requires i <= c < |xs| && xs[c] == v
    requires forall j :: i <= j < |xs| && j != c ==> xs[j] != v
    ensures ForOfSplice(xs, v, fixed, i) == Splice1(xs, if fixed.Some? then fixed.value else IndexOf(xs, v))
    decreases |xs| + 1 - i
  {
    if i < c {
      ForOfSpliceOnce(xs, v, fixed, i + 1, c);
    } else {
      var at := if fixed.Some? then fixed.value else IndexOf(xs, v);
      var ys := Splice1(xs, at);
      SpliceKeepsTailClean(xs, at, v, c);
      ForOfSpliceNoMatch(ys, v, fixed, c + 1);
      assert ForOfSplice(xs, v, fixed, c) == ForOfSplice(ys, v, fixed, c + 1);
    }
  }

  /** A splice does not bring `v` into the part of the list past `c` when
      it was not there before. */
  lemma SpliceKeepsTailClean(xs: seq<int>, at: int, v: int, c: nat)
    requires forall j :: c < j < |xs| ==> xs[j] != v
    ensures forall j :: c + 1 <= j < |Splice1(xs, at)| ==> Splice1(xs, at)[j] != v
  {
    forall j | c + 1 <= j < |Splice1(xs, at)| ensures Splice1(xs, at)[j] != v {
      SpliceShape(xs, at, j);
    }
  }

  /** What `splice(at, 1)` leaves at position `j`: the old element there or
      its successor. */
  lemma SpliceShape(xs: seq<int>, at: int, j: nat)
    requires j < |Splice1(xs, at)|
    ensures Splice1(xs, at)[j] == xs[j] || (j + 1 < |xs| && Splice1(xs, at)[j] == xs[j + 1])
  {
  }

  /** A member listed once leaves a list with only that one entry gone. */
  lemma LeaveSelf(xs: seq<int>, v: int)
    requires Occurrences(xs, v) <= 1
    ensures v !in ForOfSplice(xs, v, None, 0)
    ensures v in xs ==> ForOfSplice(xs, v, None, 0) == RemoveAt(xs, IndexOf(xs, v))
    ensures v !in xs ==> ForOfSplice(xs, v, None, 0) == xs
  {
    if v in xs {
      var c := IndexOf(xs, v);
      OnlyOccurrence(xs, v, c);
      ForOfSpliceOnce(xs, v, None, 0, c);
      var r := RemoveAt(xs, c);
      forall j | 0 <= j < |r| ensures r[j] != v {
        if j >= c { assert r[j] == xs[j + 1]; }
      }
    } else {
      ForOfSpliceNoMatch(xs, v, None, 0);
    }
  }

  /** With at most one occurrence, the first occurrence is the only one. */
  lemma {:induction false} OnlyOccurrence(xs: seq<int>, v: int, c: nat)
    requires Occurrences(xs, v) <= 1 && c < |xs| && xs[c] == v
    ensures forall j :: 0 <= j < |xs| && j != c ==> xs[j] != v
  {
    if c > 0 {
      assert xs[1..][c - 1] == v;
      OnlyOccurrence(xs[1..], v, c - 1);
      forall j | 1 <= j < |xs| && j != c ensures xs[j] != v { assert xs[j] == xs[1..][j - 1]; }
    } else {
      assert Occurrences(xs[1..], v) == 0;
      forall j | 1 <= j < |xs| ensures xs[j] != v { assert xs[j] == xs[1..][j - 1]; }
    }
  }

  /** `dm/leave`: token 403, unknown DM 400, caller not a member of it 403.
      The lists then edited are those of the DM at position `dmId` (a 500 when
      there is none), while the splice positions come from the DM found by
      id; the two are the same DM exactly when `FindDm(s, dmId) == dmId`.
      The caller gets a DM sample of -1. */
  function DmLeave(s: Store, dmId: int, token: string, now: int): (r: Result<Store>)
    ensures TokenUser(s, token).None? ==> r == Err(Forbidden)
    ensures TokenUser(s, token).Some? && FindDm(s, dmId).None? ==> r == Err(BadRequest)
    ensures TokenUser(s, token).Some? && FindDm(s, dmId).Some? ==>
      var u := TokenUser(s, token).value;
      var k := FindDm(s, dmId).value;
      && (u !in s.dms[k].allMembers ==> r == Err(Forbidden))
      && (u in s.dms[k].allMembers ==>
            (r.Ok? <==> 0 <= dmId < |s.dms| && u in s.userStats))
    ensures r.Ok? ==>
      var u := TokenUser(s, token).value;
      && r.value.channels == s.channels && r.value.users == s.users && r.value.tokens == s.tokens
      && |r.value.dms| == |s.dms|
      && (forall j :: 0 <= j < |s.dms| && j != dmId ==> r.value.dms[j] == s.dms[j])
      && r.value.dms[dmId].messages == s.dms[dmId].messages
      && r.value.dms[dmId].dmId == s.dms[dmId].dmId
      && r.value.userStats == Bump(s.userStats, u, DmsJoined, -1, now)
  {
    var u :- TokenOf(s, token);
    var k :- DmOf(s, dmId);
    if u !in s.dms[k].allMembers then Err(Forbidden)
    else
      var p :- DmAt(s, dmId);
      var d := s.dms[p];
      var owners := ForOfSplice(d.ownerMembers, u, if p == k then None else Some(IndexOf(s.dms[k].ownerMembers, u)), 0);
      var members := ForOfSplice(d.allMembers, u, if p == k then None else Some(IndexOf(s.dms[k].allMembers, u)), 0);
      LeaveWith(s, p, owners, members, u, now)
  }

  /** The last step of a leave: DM `p` gets the edited lists and the caller
      a DM sample of -1. */
  function LeaveWith(s: Store, p: nat, owners: seq<int>, members: seq<int>, u: int, now: int): (r: Result<Store>)
    requires p < |s.dms|
    ensures r.Ok? <==> u in s.userStats
    ensures r.Ok? ==>
      && r.value.channels == s.channels && r.value.users == s.users && r.value.tokens == s.tokens
      && r.value.dms == s.dms[p := s.dms[p].(ownerMembers := owners, allMembers := members)]
      && r.value.userStats == Bump(s.userStats, u, DmsJoined, -1, now)
  {
    Record(WithDm(s, p, s.dms[p].(ownerMembers := owners, allMembers := members)), u, DmsJoined, -1, now)
  }

  /** Leaving the DM whose id is also its position, when the caller is
      listed once in each list, takes the caller out of both lists and
      nothing else out. */
  lemma DmLeaveRemovesCaller(s: Store, dmId: int, token: string, now: int)
    requires DmLeave(s, dmId, token, now).Ok?
    requires FindDm(s, dmId) == Some(dmId)
    requires Occurrences(s.dms[dmId].allMembers, TokenUser(s, token).value) <= 1
    requires Occurrences(s.dms[dmId].ownerMembers, TokenUser(s, token).value) <= 1
    ensures var u := TokenUser(s, token).value;
      var d := s.dms[dmId];
      var d' := DmLeave(s, dmId, token, now).value.dms[dmId];
      && u !in d'.allMembers && u !in d'.ownerMembers
      && d'.allMembers == RemoveAt(d.allMembers, IndexOf(d.allMembers, u))
      && (u in d.ownerMembers ==> d'.ownerMembers == RemoveAt(d.ownerMembers, IndexOf(d.ownerMembers, u)))
      && (u !in d.ownerMembers ==> d'.ownerMembers == d.ownerMembers)
  {
    var u := TokenUser(s, token).value;
    LeaveSelf(s.dms[dmId].allMembers, u);
    LeaveSelf(s.dms[dmId].ownerMembers, u);
  }

  // ---- send ------------------------------------------------------------------

  /** A new DM message: one react slot (id 1, nobody), not pinned. */
  function NewMessage(id: int, u: int, text: string, now: int): Message
  {
    Message(id, u, text, now, [React(1, [], false)], false)
  }

  /** Append `m` to every DM whose id is `dmId`. */
  function AppendToDms(dms: seq<Dm>, dmId: int, m: Message): (r: seq<Dm>)
    ensures |r| == |dms|
    ensures forall j :: 0 <= j < |dms| ==>
      r[j] == if dms[j].dmId == dmId then dms[j].(messages := dms[j].messages + [m]) else dms[j]
  {
    seq(|dms|, j requires 0 <= j < |dms| =>
      if dms[j].dmId == dmId then dms[j].(messages := dms[j].messages + [m]) else dms[j])
  }

  /** No two DMs carry the same id. */
  predicate DmIdsDistinct(s: Store)
  {
    forall j, k :: 0 <= j < k < |s.dms| ==> s.dms[j].dmId != s.dms[k].dmId
  }

  /** With distinct DM ids, appending to "every DM with that id" is appending
      to the one found. */
  lemma AppendToDmsIsOne(s: Store, dmId: int, m: Message)
    requires DmIdsDistinct(s) && FindDm(s, dmId).Some?
    ensures var k := FindDm(s, dmId).value;
      AppendToDms(s.dms, dmId, m) == s.dms[k := s.dms[k].(messages := s.dms[k].messages + [m])]
  {
    var k := FindDm(s, dmId).value;
    forall j | 0 <= j < |s.dms| && j != k ensures s.dms[j].dmId != dmId {
      if j < k { assert s.dms[j].dmId != s.dms[k].dmId; }
      else { assert s.dms[k].dmId != s.dms[j].dmId; }
    }
  }

  /** `message/senddm`: token 403, unknown DM 400, caller not a member 403,
      text shorter than 1 or longer than 1000 characters 400.  The message
      gets the next workspace-wide message id and is appended to the DM; the
      sender gets a message sample of +1. */
  function MessageSendDm(s: Store, dmId: int, text: string, token: string, now: int): (r: Result<(Store, int)>)
    ensures TokenUser(s, token).None? ==> r == Err(Forbidden)
    ensures TokenUser(s, token).Some? && FindDm(s, dmId).None? ==> r == Err(BadRequest)
    ensures TokenUser(s, token).Some? && FindDm(s, dmId).Some? ==>
      var u := TokenUser(s, token).value;
      var k := FindDm(s, dmId).value;
      && (u !in s.dms[k].allMembers ==> r == Err(Forbidden))
      && (u in s.dms[k].allMembers && (Utf16Len(text) < 1 || Utf16Len(text) > 1000) ==> r == Err(BadRequest))
      && (u in s.dms[k].allMembers && 1 <= Utf16Len(text) <= 1000 ==> (r.Ok? <==> u in s.userStats))
    ensures r.Ok? ==>
      var u := TokenUser(s, token).value;
      var (s', id) := r.value;
      && id == NextMessageId(s)
      && (forall a, i :: 0 <= a < |IdLists(s)| && 0 <= i < |IdLists(s)[a]| ==> IdLists(s)[a][i] < id)
      && s'.dms == AppendToDms(s.dms, dmId, NewMessage(id, u, text, now))
      && s'.channels == s.channels && s'.users == s.users && s'.tokens == s.tokens
      && s'.userStats == Bump(s.userStats, u, MessagesSent, 1, now)
  {
    var u :- TokenOf(s, token);
    var k :- DmOf(s, dmId);
    if u !in s.dms[k].allMembers then Err(Forbidden)
    else if Utf16Len(text) < 1 || Utf16Len(text) > 1000 then Err(BadRequest)
    else
      var id := NextMessageId(s);
      var s1 := s.(dms := AppendToDms(s.dms, dmId, NewMessage(id, u, text, now)));
      var s2 :- Record(s1, u, MessagesSent, 1, now);
      Ok((s2, id))
  }

  /** Sending to a DM keeps the workspace's message ids unique (given that
      DM ids are distinct), and the new message is the DM's last. */
  lemma MessageSendDmKeepsIdsUnique(s: Store, dmId: int, text: string, token: string, now: int)
    requires MessageIdsUnique(s) && DmIdsDistinct(s)
    requires MessageSendDm(s, dmId, text, token, now).Ok?
    ensures var (s', id) := MessageSendDm(s, dmId, text, token, now).value;
      var k := FindDm(s, dmId).value;
      && MessageIdsUnique(s')
      && s'.dms[k].messages == s.dms[k].messages + [NewMessage(id, TokenUser(s, token).value, text, now)]
  {
    var (s', id) := MessageSendDm(s, dmId, text, token, now).value;
    var m := NewMessage(id, TokenUser(s, token).value, text, now);
    var k := FindDm(s, dmId).value;
    AppendToDmsIsOne(s, dmId, m);
    DmAppendKeepsUnique(s, k, m);
    assert IdLists(s') == IdLists(WithDm(s, k, s.dms[k].(messages := s.dms[k].messages + [m])));
  }

  // ---- messages --------------------------------------------------------------

  /** `dm/messages`: token 403, unknown DM 400, caller not a member 403; the
      DM read is the one at position `dmId` (500 when there is none); a start
      below 0 or beyond its message count 400.  The page lists up to 50
      messages newest first, and the listed messages' react flags are set
      for the caller in the store as well. */
  function DmMessages(s: Store, dmId: int, start: int, token: string): (r: Result<(Store, Page)>)
    ensures TokenUser(s, token).None? ==> r == Err(Forbidden)
    ensures TokenUser(s, token).Some? && FindDm(s, dmId).None? ==> r == Err(BadRequest)
    ensures TokenUser(s, token).Some? && FindDm(s, dmId).Some? ==>
      var u := TokenUser(s, token).value;
      var k := FindDm(s, dmId).value;
      && (u !in s.dms[k].allMembers ==> r == Err(Forbidden))
      && (u in s.dms[k].allMembers && !(0 <= dmId < |s.dms|) ==> r == Err(Crashed))
      && (u in s.dms[k].allMembers && 0 <= dmId < |s.dms| ==>
            (r.Ok? <==> 0 <= start <= |s.dms[dmId].messages|) && (r.Err? ==> r.code == BadRequest))
    ensures r.Ok? ==>
      var u := TokenUser(s, token).value;
      var ms := s.dms[dmId].messages;
      var page := r.value.1;
      && page.start == start
      && page.end == (if |ms| > start + PageSize then start + PageSize else -1)
      && |page.messages| == (if |ms| > start + PageSize then PageSize else |ms| - start)
      && (forall i :: 0 <= i < |page.messages| ==> page.messages[i] == MarkReacts(ms[|ms| - 1 - start - i], u))
      && r.value.0.channels == s.channels && r.value.0.users == s.users
      && IdLists(r.value.0) == IdLists(s)
  {
    var u :- TokenOf(s, token);
    var k :- DmOf(s, dmId);
    if u !in s.dms[k].allMembers then Err(Forbidden)
    else
      var p :- DmAt(s, dmId);
      var ms := s.dms[p].messages;
      if start > |ms| || start < 0 then Err(BadRequest)
      else
        var (marked, page) := PageOf(ms, start, u);
        var s' := WithDm(s, p, s.dms[p].(messages := marked));
        DmIdsUpdate(s, p, s.dms[p].(messages := marked));
        assert MsgIds(marked) == MsgIds(ms);
        Ok((s', page))
  }
}
