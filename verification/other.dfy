/** Workspace-wide odds and ends: resetting the store, searching every
    message, and reading one's notifications. */
module Other {
  import opened Base
  import opened Types
  import opened Text
  import opened MessageIds
  import opened Auth

  // ---- clear -----------------------------------------------------------------

  /** `clear`: back to the empty workspace (the stored photos are deleted too,
      which is file-system work outside this model). */
  function Clear(): (r: Store)
    ensures r == InitialStore()
  {
    InitialStore()
  }

  /** After a reset no session is valid, ids start again from 0, and the
      first user to register becomes the global owner. */
  lemma ClearStartsOver(token: string, email: string, password: string, nameFirst: string, nameLast: string,
                        key: string, now: int, isEmail: string -> bool)
    ensures TokenUser(Clear(), token).None?
    ensures NextMessageId(Clear()) == 0
    ensures MessageIdsUnique(Clear())
    ensures AuthRegister(Clear(), email, password, nameFirst, nameLast, key, now, isEmail).Ok? ==>
      var (s', id) := AuthRegister(Clear(), email, password, nameFirst, nameLast, key, now, isEmail).value;
      id == 0 && s'.users[0].permissionId == GlobalOwner
  {
    assert IdLists(Clear()) == [];
  }

  // ---- search ----------------------------------------------------------------

  /** The case-insensitive containment test of `search`. */
  predicate Matches(m: Message, query: string)
  {
    IsSubstring(ToLower(query), ToLower(m.text))
  }

  /** `ms.filter(m => Matches(m, query))`. */
  function FilterMatches(ms: seq<Message>, query: string): (r: seq<Message>)
    ensures |r| <= |ms|
    ensures forall m :: m in r <==> m in ms && Matches(m, query)
    decreases |ms|
  {
    if |ms| == 0 then []
    else
      var rest := FilterMatches(ms[1..], query);
      assert forall m :: m in ms <==> m == ms[0] || m in ms[1..] by {
        assert ms == [ms[0]] + ms[1..];
      }
      if Matches(ms[0], query) then [ms[0]] + rest else rest
  }

  lemma {:induction false} FilterConcat(a: seq<Message>, b: seq<Message>, query: string)
    ensures FilterMatches(a + b, query) == FilterMatches(a, query) + FilterMatches(b, query)
    decreases |a|
  {
    if |a| == 0 {
      assert a + b == b;
    } else {
      assert (a + b)[0] == a[0];
      assert (a + b)[1..] == a[1..] + b;
      FilterConcat(a[1..], b, query);
    }
  }

  /** The message lists in search order: channels, then DMs. */
  function Containers(s: Store): (L: seq<seq<Message>>)
    ensures |L| == |s.channels| + |s.dms|
    ensures forall k :: 0 <= k < |s.channels| ==> L[k] == s.channels[k].messages
    ensures forall k :: 0 <= k < |s.dms| ==> L[|s.channels| + k] == s.dms[k].messages
  {
    seq(|s.channels|, k requires 0 <= k < |s.channels| => s.channels[k].messages)
      + seq(|s.dms|, k requires 0 <= k < |s.dms| => s.dms[k].messages)
  }

  /** `m` sits somewhere in one of the lists. */
  predicate InLists(L: seq<seq<Message>>, m: Message)
  {
    exists a, i :: 0 <= a < |L| && 0 <= i < |L[a]| && L[a][i] == m
  }

  /** The loops as written: each list filtered, the results concatenated. */
  function SearchLoop(L: seq<seq<Message>>, query: string): (r: seq<Message>)
    ensures forall m :: m in r <==> Matches(m, query) && InLists(L, m)
    decreases |L|
  {
    if |L| == 0 then []
    else
      var rest := SearchLoop(L[1..], query);
      assert forall m :: InLists(L, m) <==> m in L[0] || InLists(L[1..], m) by {
        forall m ensures InLists(L, m) <==> m in L[0] || InLists(L[1..], m) {
          if InLists(L, m) {
            var a, i :| 0 <= a < |L| && 0 <= i < |L[a]| && L[a][i] == m;
            if a > 0 { assert L[1..][a - 1][i] == m; }
          }
          if InLists(L[1..], m) {
            var a, i :| 0 <= a < |L[1..]| && 0 <= i < |L[1..][a]| && L[1..][a][i] == m;
            assert L[a + 1][i] == m;
          }
          if m in L[0] {
            var i :| 0 <= i < |L[0]| && L[0][i] == m;
          }
        }
      }
      FilterMatches(L[0], query) + rest
  }

  function Concat(L: seq<seq<Message>>): seq<Message>
    decreases |L|
  {
    if |L| == 0 then [] else L[0] + Concat(L[1..])
  }

  /** Filtering list by list and concatenating is filtering the whole
      history, so the result keeps the storage order of all messages. */
  lemma {:induction false} SearchLoopIsFilter(L: seq<seq<Message>>, query: string)
    ensures SearchLoop(L, query) == FilterMatches(Concat(L), query)
    decreases |L|
  {
    if |L| > 0 {
      SearchLoopIsFilter(L[1..], query);
      FilterConcat(L[0], Concat(L[1..]), query);
    }
  }

  /** `search`: token 403, query length outside 1..1000 400; otherwise every
      message anywhere (membership is not checked) whose lower-cased text
      contains the lower-cased query.  The store is not changed. */
  function Search(s: Store, token: string, query: string): (r: Result<seq<Message>>)
    ensures TokenUser(s, token).None? ==> r == Err(Forbidden)
    ensures TokenUser(s, token).Some? ==> (r.Ok? <==> 1 <= Utf16Len(query) <= 1000) && (r.Err? ==> r.code == BadRequest)
    ensures r.Ok? ==> forall m :: m in r.value <==>
      Matches(m, query) && InHistory(s, m)
  {
    var _ :- TokenOf(s, token);
    if Utf16Len(query) < 1 || Utf16Len(query) > 1000 then Err(BadRequest)
    else
      forall m ensures InLists(Containers(s), m) <==> InHistory(s, m) {
        ContainersCover(s, m);
      }
      Ok(SearchLoop(Containers(s), query))
  }

  /** `m` is stored at some location of the workspace. */
  ghost predicate InHistory(s: Store, m: Message)
  {
    exists l :: ValidLoc(s, l) && MessageAt(s, l) == m
  }

  lemma ContainersCover(s: Store, m: Message)
    ensures InLists(Containers(s), m) <==> InHistory(s, m)
  {
    if InLists(Containers(s), m) {
      ListedIsStored(s, m);
    }
    if InHistory(s, m) {
      StoredIsListed(s, m);
    }
  }

  lemma ListedIsStored(s: Store, m: Message)
    requires InLists(Containers(s), m)
    ensures InHistory(s, m)
  {
    var L := Containers(s);
    var a, i :| 0 <= a < |L| && 0 <= i < |L[a]| && L[a][i] == m;
    if a < |s.channels| {
      assert ValidLoc(s, InChannel(a, i)) && MessageAt(s, InChannel(a, i)) == m;
    } else {
      var l := InDm(a - |s.channels|, i);
      assert ValidLoc(s, l) && MessageAt(s, l) == m;
    }
  }

  lemma StoredIsListed(s: Store, m: Message)
    requires InHistory(s, m)
    ensures InLists(Containers(s), m)
  {
    var L := Containers(s);
    var l :| ValidLoc(s, l) && MessageAt(s, l) == m;
    var a := if l.InChannel? then l.k else |s.channels| + l.k;
    assert L[a][l.i] == m;
  }

  lemma ToLowerIdempotent(q: string)
    ensures ToLower(ToLower(q)) == ToLower(q)
  {
  }

  /** The query's letter case makes no difference. */
  lemma SearchIgnoresCase(s: Store, token: string, query: string)
    ensures Search(s, token, query) == Search(s, token, ToLower(query))
  {
    var L := Containers(s);
    ToLowerIdempotent(query);
    Utf16LenSameShape(query, ToLower(query));
    assert forall m :: Matches(m, query) == Matches(m, ToLower(query));
    SearchLoopSameTest(L, query, ToLower(query));
  }

  lemma {:induction false} SearchLoopSameTest(L: seq<seq<Message>>, q1: string, q2: string)
    requires forall m :: Matches(m, q1) == Matches(m, q2)
    ensures SearchLoop(L, q1) == SearchLoop(L, q2)
    decreases |L|
  {
    if |L| > 0 {
      FilterSameTest(L[0], q1, q2);
      SearchLoopSameTest(L[1..], q1, q2);
    }
  }

  lemma {:induction false} FilterSameTest(ms: seq<Message>, q1: string, q2: string)
    requires forall m :: Matches(m, q1) == Matches(m, q2)
    ensures FilterMatches(ms, q1) == FilterMatches(ms, q2)
    decreases |ms|
  {
    if |ms| > 0 {
      FilterSameTest(ms[1..], q1, q2);
    }
  }

  // ---- notifications ---------------------------------------------------------

  const NotificationLimit := 20

  /** `notifications/get`: token 403, a caller without a user record crashes;
      otherwise the first 20 entries of the caller's list. */
  function NotificationsGet(s: Store, token: string): (r: Result<seq<Notification>>)
    ensures TokenUser(s, token).None? ==> r == Err(Forbidden)
    ensures TokenUser(s, token).Some? ==> (r.Ok? <==> IsUser(s, TokenUser(s, token).value))
    ensures r.Err? ==> TokenUser(s, token).Some? ==> r.code == Crashed
    ensures r.Ok? ==>
      var all := s.users[FindUser(s, TokenUser(s, token).value).value].notifications;
      && r.value <= all
      && |r.value| == if |all| < NotificationLimit then |all| else NotificationLimit
  {
    var u :- TokenOf(s, token);
    var k :- UserOf(s, u);
    Ok(Take(s.users[k].notifications, NotificationLimit))
  }

  /** Every producer prepends, so the entry just added is the first one the
      user reads back, followed by what was there before. */
  lemma NotifyThenNewestFirst(s: Store, token: string, n: Notification)
    requires TokenUser(s, token).Some? && IsUser(s, TokenUser(s, token).value)
    ensures var u := TokenUser(s, token).value;
      var s' := Notify(s, u, n).value;
      var before := NotificationsGet(s, token).value;
      && NotificationsGet(s', token).Ok?
      && NotificationsGet(s', token).value == [n] + Take(before, NotificationLimit - 1)
  {
    var u := TokenUser(s, token).value;
    var k := FindUser(s, u).value;
    var s' := Notify(s, u, n).value;
    NotifiedFoundAt(s, u, n);
    TakeCons(n, s.users[k].notifications, NotificationLimit);
  }

  /** After a notification the user is found at the same record, whose list
      now starts with it, and the sessions are unchanged. */
  lemma NotifiedFoundAt(s: Store, u: int, n: Notification)
    requires IsUser(s, u)
    ensures var s' := Notify(s, u, n).value; var k := FindUser(s, u).value;
      && s'.tokens == s.tokens
      && FindUser(s', u) == Some(k)
      && s'.users[k].notifications == [n] + s.users[k].notifications
  {
    var s' := Notify(s, u, n).value;
    assert forall j :: 0 <= j < |s.users| ==> s'.users[j].authUserId == s.users[j].authUserId;
    FindUserByIds(s, s', u);
  }

  lemma TakeCons<T>(x: T, xs: seq<T>, n: nat)
    requires n > 0
    ensures Take([x] + xs, n) == [x] + Take(xs, n - 1)
  {
  }
}
