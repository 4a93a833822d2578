/** Registration and logout.  Handles are derived from the user's names; the
    de-duplication step counts the handles that merely contain the new one
    and can hand out a handle that is already taken.  `AuthRegister` follows
    that rule; `AuthRegisterIntended` is the same registration with the
    smallest free numeric suffix, which keeps handles unique. */
module Auth {
  import opened Base
  import opened Types
  import opened Text
  import opened MessageIds
  import opened Ledger
  import opened Users

  // ---- handle generation -----------------------------------------------------

  predicate IsLowerAlnum(c: char)
  {
    ('a' <= c <= 'z') || ('0' <= c <= '9')
  }

  predicate AllLowerAlnum(s: string)
  {
    forall i :: 0 <= i < |s| ==> IsLowerAlnum(s[i])
  }

  /** `s.replace(/[^0-9a-z]/gi, '')` on lower-cased text: the characters
      outside [a-z0-9] are dropped, the rest keep their order. */
  function Keep(s: string): (r: string)
    ensures AllLowerAlnum(r)
    ensures |r| <= |s|
    ensures forall c :: c in r <==> c in s && IsLowerAlnum(c)
    ensures AllLowerAlnum(s) ==> r == s
    ensures |s| == 1 ==> r == (if IsLowerAlnum(s[0]) then s else "")
    decreases |s|
  {
    if |s| == 0 then ""
    else
      var rest := Keep(s[1..]);
      assert forall c :: c in s <==> c == s[0] || c in s[1..] by {
        assert s == [s[0]] + s[1..];
      }
      if IsLowerAlnum(s[0]) then
        assert s == [s[0]] + s[1..];
        [s[0]] + rest
      else rest
  }

  /** Filtering text piecewise filters the whole: together with the
      one-character case in `Keep`'s contract this says that the result is
      the kept characters of `s`, in their order. */
  lemma {:induction false} KeepAppend(a: string, b: string)
    ensures Keep(a + b) == Keep(a) + Keep(b)
    decreases |a|
  {
    if |a| == 0 {
      assert a + b == b;
    } else {
      assert (a + b)[0] == a[0] && (a + b)[1..] == a[1..] + b;
      KeepAppend(a[1..], b);
    }
  }

  /** Lower-case, keep [a-z0-9], cut to 20 characters. */
  function Normalize(s: string): string
  {
    Take(Keep(ToLower(s)), 20)
  }

  /** `handleGenerator`: the lower-cased concatenation of the two names with
      everything outside [a-z0-9] dropped, cut to its first 20 characters.
      The result has only ASCII characters, so its code-unit count is its
      character count and the 20-unit slice is a 20-character one. */
  function HandleGenerator(nameFirst: string, nameLast: string): (h: string)
    ensures AllLowerAlnum(h)
    ensures var k := Keep(ToLower(nameFirst + nameLast));
      && h <= k
      && |h| == (if |k| > 20 then 20 else |k|)
  {
    Normalize(nameFirst + nameLast)
  }

  /** A generated handle is already in normal form: generating again from it
      gives it back. */
  lemma NormalizeIdempotent(s: string)
    ensures Normalize(Normalize(s)) == Normalize(s)
  {
    var t := Normalize(s);
    assert AllLowerAlnum(t);
    assert ToLower(t) == t;
  }

  /** Names that are already short lower-case alphanumerics are used as they
      stand. */
  lemma GeneratorKeepsPlainNames(nameFirst: string, nameLast: string)
    requires AllLowerAlnum(nameFirst + nameLast) && |nameFirst + nameLast| <= 20
    ensures HandleGenerator(nameFirst, nameLast) == nameFirst + nameLast
  {
    var s := nameFirst + nameLast;
    assert ToLower(s) == s;
  }

  // ---- de-duplication --------------------------------------------------------

  function Handles(users: seq<User>): (r: seq<string>)
    ensures |r| == |users|
    ensures forall k :: 0 <= k < |users| ==> r[k] == users[k].handleStr
  {
    seq(|users|, k requires 0 <= k < |users| => users[k].handleStr)
  }

  /** How many existing handles contain `h` somewhere inside them. */
  function CountContaining(handles: seq<string>, h: string): (n: nat)
    ensures n <= |handles|
    ensures n == 0 <==> forall i :: 0 <= i < |handles| ==> !IsSubstring(h, handles[i])
    decreases |handles|
  {
    if |handles| == 0 then 0
    else
      assert forall i :: 1 <= i < |handles| ==> handles[i] == handles[1..][i - 1];
      (if IsSubstring(h, handles[0]) then 1 else 0) + CountContaining(handles[1..], h)
  }

  /** The suffix rule as written: with k > 0 handles containing `h`, the new
      handle is `h` followed by k - 1. */
  function AsWrittenHandle(handles: seq<string>, h: string): (r: string)
    ensures CountContaining(handles, h) == 0 ==> r == h
    ensures CountContaining(handles, h) > 0 ==> r == h + NatToString(CountContaining(handles, h) - 1)
  {
    var k := CountContaining(handles, h);
    if k == 0 then h else h + NatToString(k - 1)
  }

  /** Registering names (a, b1), then (a, b) twice: the third registration
      receives "ab1", which the first one already holds. */
  lemma AsWrittenHandleRepeats()
    ensures AsWrittenHandle([], "ab1") == "ab1"
    ensures AsWrittenHandle(["ab1"], "ab") == "ab0"
    ensures AsWrittenHandle(["ab1", "ab0"], "ab") == "ab1"
    ensures "ab1" in ["ab1", "ab0"]
  {
    assert "ab" <= "ab1";
    assert "ab" <= "ab0";
    assert CountContaining(["ab1"], "ab") == 1 by {
      assert ["ab1"][1..] == [];
    }
    assert CountContaining(["ab1", "ab0"], "ab") == 2 by {
      assert ["ab1", "ab0"][1..] == ["ab0"];
      assert ["ab0"][1..] == [];
    }
    assert NatToString(0) == "0";
    assert NatToString(1) == "1";
  }

  function Pow10(k: nat): (p: nat)
    ensures p >= 1
  {
    if k == 0 then 1 else 10 * Pow10(k - 1)
  }

  /** A number at least 10^k has more than k digits. */
  lemma {:induction false} DigitsOfLarge(n: nat, k: nat)
    requires n >= Pow10(k)
    ensures |NatToString(n)| > k
    decreases k
  {
    if k > 0 {
      DigitsOfLarge(n / 10, k - 1);
    }
  }

  function MaxLength(handles: seq<string>): (m: nat)
    ensures forall i :: 0 <= i < |handles| ==> |handles[i]| <= m
    decreases |handles|
  {
    if |handles| == 0 then 0
    else
      var rest := MaxLength(handles[1..]);
      assert forall i :: 1 <= i < |handles| ==> handles[i] == handles[1..][i - 1];
      if |handles[0]| > rest then |handles[0]| else rest
  }

  /** The first `m` in `n..bound` for which `h` + m is free; `bound` itself is
      known to be free. */
  function LeastFree(handles: seq<string>, h: string, n: nat, bound: nat): (m: nat)
    requires n <= bound
    requires h + NatToString(bound) !in handles
    ensures n <= m <= bound
    ensures h + NatToString(m) !in handles
    ensures forall j :: n <= j < m ==> h + NatToString(j) in handles
    decreases bound - n
  {
    if h + NatToString(n) !in handles then n
    else LeastFree(handles, h, n + 1, bound)
  }

  /** The de-duplication the registration intends: `h` itself when it is
      free, otherwise `h` followed by the smallest number that makes it free. */
  function UniqueHandle(handles: seq<string>, h: string): (r: string)
    ensures r !in handles
    ensures h !in handles ==> r == h
    ensures h in handles ==> exists n: nat :: (r == h + NatToString(n)
      && forall j: nat :: j < n ==> h + NatToString(j) in handles)
  {
    if h !in handles then h
    else
      var bound := Pow10(MaxLength(handles));
      DigitsOfLarge(bound, MaxLength(handles));
      assert forall i :: 0 <= i < |handles| ==> |handles[i]| < |h + NatToString(bound)|;
      var n := LeastFree(handles, h, 0, bound);
      h + NatToString(n)
  }

  /** Where no existing handle even contains the generated one, the rule as
      written and the intended rule agree. */
  lemma HandleRulesAgreeWhenUnrelated(handles: seq<string>, h: string)
    requires forall i :: 0 <= i < |handles| ==> !IsSubstring(h, handles[i])
    ensures AsWrittenHandle(handles, h) == UniqueHandle(handles, h) == h
  {
    assert IsSubstring(h, h);
  }

  // ---- register --------------------------------------------------------------

  /** Where a fresh user's picture points; the server URL in front of it is
      configuration and not part of this model. */
  const DefaultProfileImgUrl := "/profilePhoto/default-profilePhoto.jpg"

  function UserIds(users: seq<User>): (r: seq<int>)
    ensures |r| == |users|
    ensures forall k :: 0 <= k < |users| ==> r[k] == users[k].authUserId
  {
    seq(|users|, k requires 0 <= k < |users| => users[k].authUserId)
  }

  /** One more than the largest user id, or 0 for the first user. */
  function NextUserId(users: seq<User>): (id: nat)
    ensures forall k :: 0 <= k < |users| ==> users[k].authUserId < id
    ensures |users| == 0 ==> id == 0
    ensures id == 0 || exists k :: 0 <= k < |users| && users[k].authUserId == id - 1
  {
    MaxFrom(-1, UserIds(users)) + 1
  }

  /** The record a registration adds under `handle`, with the next id,
      global-owner permission when that id is 0, and a fresh statistics
      record and session. */
  function Enrol(s: Store, email: string, password: string, nameFirst: string, nameLast: string,
                 handle: string, key: string, now: int): (r: (Store, int))
    ensures var (s', id) := r;
      && (forall k :: 0 <= k < |s.users| ==> s.users[k].authUserId < id)
      && |s'.users| == |s.users| + 1
      && s'.users[..|s.users|] == s.users
      && (var u := s'.users[|s.users|];
          && u.authUserId == id && u.email == email && u.password == password
          && u.nameFirst == nameFirst && u.nameLast == nameLast
          && (u.permissionId == GlobalOwner <==> id == 0)
          && (u.permissionId == GlobalMember <==> id != 0)
          && u.handleStr == handle
          && u.notifications == [])
      && s'.tokens == s.tokens + [Token(id, key)]
      && s'.channels == s.channels && s'.dms == s.dms && s'.workspaceStats == s.workspaceStats
      && s'.userStats == s.userStats[id := SeedStats(now)]
  {
    var id := NextUserId(s.users);
    var perm := if id == 0 then GlobalOwner else GlobalMember;
    var u := User(id, email, password, nameFirst, nameLast, handle, perm, DefaultProfileImgUrl, []);
    assert (s.users + [u])[..|s.users|] == s.users;
    (s.(users := s.users + [u], tokens := s.tokens + [Token(id, key)],
        userStats := s.userStats[id := SeedStats(now)]), id)
  }

  /** The checks of `auth/register`, in their order; each failure is 400. */
  predicate RegisterOk(s: Store, email: string, password: string, nameFirst: string, nameLast: string,
                       isEmail: string -> bool)
  {
    isEmail(email) && !EmailTaken(s, email) && Utf16Len(password) >= 6
    && NameOk(nameFirst) && NameOk(nameLast)
  }

  /** `auth/register`: malformed email, email in use, password under 6
      characters, first or last name outside 1..50 are each 400.  The new
      user gets the next id, global-owner permission when that id is 0, the
      generated handle followed by k - 1 when k stored handles contain it,
      a fresh statistics record and a session. */
  function AuthRegister(s: Store, email: string, password: string, nameFirst: string, nameLast: string,
                        key: string, now: int, isEmail: string -> bool): (r: Result<(Store, int)>)
    ensures r.Ok? <==> isEmail(email) && !EmailTaken(s, email) && Utf16Len(password) >= 6
                       && NameOk(nameFirst) && NameOk(nameLast)
    ensures r.Err? ==> r.code == BadRequest
    ensures r.Ok? ==>
      var (s', id) := r.value;
      && (forall k :: 0 <= k < |s.users| ==> s.users[k].authUserId < id)
      && |s'.users| == |s.users| + 1
      && s'.users[..|s.users|] == s.users
      && (var u := s'.users[|s.users|];
          && u.authUserId == id && u.email == email && u.password == password
          && u.nameFirst == nameFirst && u.nameLast == nameLast
          && (u.permissionId == GlobalOwner <==> id == 0)
          && (u.permissionId == GlobalMember <==> id != 0)
          && u.handleStr == AsWrittenHandle(Handles(s.users), HandleGenerator(nameFirst, nameLast))
          && u.notifications == [])
      && s'.tokens == s.tokens + [Token(id, key)]
      && s'.channels == s.channels && s'.dms == s.dms && s'.workspaceStats == s.workspaceStats
      && s'.userStats == s.userStats[id := SeedStats(now)]
  {
    if !isEmail(email) then Err(BadRequest)
    else if EmailTaken(s, email) then Err(BadRequest)
    else if Utf16Len(password) < 6 then Err(BadRequest)
    else if !NameOk(nameFirst) then Err(BadRequest)
    else if !NameOk(nameLast) then Err(BadRequest)
    else
      var handle := AsWrittenHandle(Handles(s.users), HandleGenerator(nameFirst, nameLast));
      Ok(Enrol(s, email, password, nameFirst, nameLast, handle, key, now))
  }

  /** The registration the handle rule intends: the same checks and the same
      record as `AuthRegister`, except that the handle is the generated one
      with the smallest numeric suffix that no one holds. */
  function AuthRegisterIntended(s: Store, email: string, password: string, nameFirst: string, nameLast: string,
                                key: string, now: int, isEmail: string -> bool): (r: Result<(Store, int)>)
    ensures r.Ok? <==> AuthRegister(s, email, password, nameFirst, nameLast, key, now, isEmail).Ok?
    ensures r.Err? ==> r.code == BadRequest
    ensures r.Ok? ==>
      var (s', id) := r.value;
      var (w, wid) := AuthRegister(s, email, password, nameFirst, nameLast, key, now, isEmail).value;
      var n := |s.users|;
      && id == wid
      && |s'.users| == |w.users| == n + 1
      && s'.users[n].handleStr == UniqueHandle(Handles(s.users), HandleGenerator(nameFirst, nameLast))
      && s'.users[n].handleStr !in Handles(s.users)
      && s' == w.(users := w.users[n := w.users[n].(handleStr := s'.users[n].handleStr)])
  {
    if !RegisterOk(s, email, password, nameFirst, nameLast, isEmail) then Err(BadRequest)
    else
      var handle := UniqueHandle(Handles(s.users), HandleGenerator(nameFirst, nameLast));
      var (s', id) := Enrol(s, email, password, nameFirst, nameLast, handle, key, now);
      var (w, _) := Enrol(s, email, password, nameFirst, nameLast,
                          AsWrittenHandle(Handles(s.users), HandleGenerator(nameFirst, nameLast)), key, now);
      assert s'.users == w.users[|s.users| := w.users[|s.users|].(handleStr := handle)];
      Ok((s', id))
  }

  predicate HandlesUnique(users: seq<User>)
  {
    forall i, j :: 0 <= i < j < |users| ==> users[i].handleStr != users[j].handleStr
  }

  /** Registration keeps user ids pairwise distinct, and the new id finds the
      new record. */
  lemma RegisterKeepsIdsUnique(s: Store, email: string, password: string, nameFirst: string, nameLast: string,
                               key: string, now: int, isEmail: string -> bool)
    requires UserIdsUnique(s.users)
    requires AuthRegister(s, email, password, nameFirst, nameLast, key, now, isEmail).Ok?
    ensures var (s', id) := AuthRegister(s, email, password, nameFirst, nameLast, key, now, isEmail).value;
      UserIdsUnique(s'.users) && FindUser(s', id) == Some(|s.users|)
  {
    var (s', id) := AuthRegister(s, email, password, nameFirst, nameLast, key, now, isEmail).value;
    var n := |s.users|;
    var u := s'.users[n];
    assert s'.users == s.users + [u] by {
      assert s'.users == s'.users[..n] + [u];
    }
    AppendKeepsIdsUnique(s.users, u);
    FindNewcomer(s', n, id);
  }

  /** Right after registration, the new session's `user/profile` of the new
      id shows the registered email, names and handle, the default photo,
      and a permission of 1 exactly for the first user. */
  lemma RegisterThenProfile(s: Store, email: string, password: string, nameFirst: string, nameLast: string,
                            key: string, now: int, isEmail: string -> bool)
    requires AuthRegister(s, email, password, nameFirst, nameLast, key, now, isEmail).Ok?
    ensures var (s', id) := AuthRegister(s, email, password, nameFirst, nameLast, key, now, isEmail).value;
      var p := UserProfile(s', key, id);
      && p.Ok?
      && p.value.uId == id && p.value.email == email
      && p.value.nameFirst == nameFirst && p.value.nameLast == nameLast
      && p.value.handleStr == AsWrittenHandle(Handles(s.users), HandleGenerator(nameFirst, nameLast))
      && p.value.profileImgUrl == DefaultProfileImgUrl
      && (p.value.permissionId == GlobalOwner <==> id == 0)
  {
    var (s', id) := AuthRegister(s, email, password, nameFirst, nameLast, key, now, isEmail).value;
    var n := |s.users|;
    assert Token(id, key) in s'.tokens by {
      assert s'.tokens[|s.tokens|] == Token(id, key);
    }
    FindNewcomer(s', n, id);
  }

  /** With the registration as written, a store holding "ab1" and "ab0"
      gives names (a, b) the handle "ab1" a second time. */
  lemma RegisterRepeatsHandle(s: Store, email: string, password: string, key: string, now: int,
                              isEmail: string -> bool)
    requires Handles(s.users) == ["ab1", "ab0"]
    requires AuthRegister(s, email, password, "a", "b", key, now, isEmail).Ok?
    ensures var (s', _) := AuthRegister(s, email, password, "a", "b", key, now, isEmail).value;
      && s'.users[|s.users|].handleStr == "ab1"
      && s'.users[0].handleStr == "ab1"
      && !HandlesUnique(s'.users)
  {
    var (s', _) := AuthRegister(s, email, password, "a", "b", key, now, isEmail).value;
    assert HandleGenerator("a", "b") == "ab" by {
      GeneratorKeepsPlainNames("a", "b");
      assert "a" + "b" == "ab";
    }
    AsWrittenHandleRepeats();
    assert s'.users[0] == s.users[0] && s.users[0].handleStr == Handles(s.users)[0];
    assert |s.users| == 2;
  }

  /** The intended registration keeps user ids and handles pairwise
      distinct, and the new id finds the new record. */
  lemma IntendedRegisterKeepsUnique(s: Store, email: string, password: string, nameFirst: string, nameLast: string,
                                    key: string, now: int, isEmail: string -> bool)
    requires UserIdsUnique(s.users) && HandlesUnique(s.users)
    requires AuthRegisterIntended(s, email, password, nameFirst, nameLast, key, now, isEmail).Ok?
    ensures var (s', id) := AuthRegisterIntended(s, email, password, nameFirst, nameLast, key, now, isEmail).value;
      UserIdsUnique(s'.users) && HandlesUnique(s'.users) && FindUser(s', id) == Some(|s.users|)
  {
    var (s', id) := AuthRegisterIntended(s, email, password, nameFirst, nameLast, key, now, isEmail).value;
    var n := |s.users|;
    var u := s'.users[n];
    assert s'.users == s.users + [u] by {
      assert s'.users == s'.users[..n] + [u];
    }
    AppendKeepsIdsUnique(s.users, u);
    AppendKeepsHandlesUnique(s.users, u);
    FindNewcomer(s', n, id);
  }

  /** A record whose id exceeds every earlier id keeps ids distinct. */
  lemma AppendKeepsIdsUnique(users: seq<User>, u: User)
    requires UserIdsUnique(users)
    requires forall k :: 0 <= k < |users| ==> users[k].authUserId < u.authUserId
    ensures UserIdsUnique(users + [u])
  {
  }

  /** A record whose handle is new keeps handles distinct. */
  lemma AppendKeepsHandlesUnique(users: seq<User>, u: User)
    requires HandlesUnique(users)
    requires u.handleStr !in Handles(users)
    ensures HandlesUnique(users + [u])
  {
    var us := users + [u];
    forall i | 0 <= i < |users| ensures us[i].handleStr != u.handleStr {
      assert Handles(users)[i] == users[i].handleStr;
    }
  }

  /** The last record, whose id no earlier record carries, is the one its id
      finds. */
  lemma FindNewcomer(s: Store, n: nat, id: int)
    requires n < |s.users| && s.users[n].authUserId == id
    requires forall k :: 0 <= k < n ==> s.users[k].authUserId < id
    ensures FindUser(s, id) == Some(n)
  {
  }

  /** A newcomer's statistics start at zero in every series, and a fresh
      session key logs in as the newcomer. */
  lemma RegisterSeedsStats(s: Store, email: string, password: string, nameFirst: string, nameLast: string,
                           key: string, now: int, isEmail: string -> bool, w: Series)
    requires AuthRegister(s, email, password, nameFirst, nameLast, key, now, isEmail).Ok?
    requires forall t :: t in s.tokens ==> t.key != key
    ensures var (s', id) := AuthRegister(s, email, password, nameFirst, nameLast, key, now, isEmail).value;
      && SeriesOf(s'.userStats[id], w) == [Sample(0, now)]
      && Current(SeriesOf(s'.userStats[id], w)) == 0
      && TokenUser(s', key) == Some(id)
  {
    var (s', id) := AuthRegister(s, email, password, nameFirst, nameLast, key, now, isEmail).value;
    FreshKeyFinds(s, s', id, key);
  }

  /** A session appended under a key no earlier session uses is the one
      that key finds. */
  lemma FreshKeyFinds(s: Store, s': Store, id: int, key: string)
    requires s'.tokens == s.tokens + [Token(id, key)]
    requires forall t :: t in s.tokens ==> t.key != key
    ensures TokenUser(s', key) == Some(id)
  {
    var p := (t: Token) => t.key == key;
    assert s'.tokens[|s.tokens|] == Token(id, key);
    assert FirstIndex(s'.tokens, p) == Some(|s.tokens|) by {
      forall j | 0 <= j < |s.tokens| ensures !p(s'.tokens[j]) {
        assert s'.tokens[j] == s.tokens[j] && s.tokens[j] in s.tokens;
      }
    }
  }

  // ---- logout ----------------------------------------------------------------

  /** `tokens.filter(t => t.token !== key)`. */
  function DropKey(tokens: seq<Token>, key: string): (r: seq<Token>)
    ensures forall t :: t in r <==> t in tokens && t.key != key
    ensures |r| <= |tokens|
    ensures (forall t :: t in tokens ==> t.key != key) <==> r == tokens
    decreases |tokens|
  {
    if |tokens| == 0 then []
    else
      var rest := DropKey(tokens[1..], key);
      assert tokens == [tokens[0]] + tokens[1..];
      if tokens[0].key == key then
        assert tokens[0] !in rest;
        rest
      else [tokens[0]] + rest
  }

  /** The session of `key` in a token list, as the token check reads it. */
  function KeyOwner(tokens: seq<Token>, key: string): Option<int>
  {
    match FirstIndex(tokens, (t: Token) => t.key == key)
    case None => None
    case Some(i) => Some(tokens[i].uId)
  }

  /** The lookup inspects the first token, then the rest. */
  lemma KeyOwnerStep(tokens: seq<Token>, key: string)
    requires |tokens| > 0
    ensures KeyOwner(tokens, key) == if tokens[0].key == key then Some(tokens[0].uId) else KeyOwner(tokens[1..], key)
  {
    var p := (t: Token) => t.key == key;
    if !p(tokens[0]) {
      match FirstIndex(tokens[1..], p)
      case None =>
      case Some(i) => assert tokens[i + 1] == tokens[1..][i];
    }
  }

  /** Dropping one key leaves every other key's session as it was. */
  lemma {:induction false} DropKeyKeepsOthers(tokens: seq<Token>, key: string, other: string)
    requires other != key
    ensures KeyOwner(DropKey(tokens, key), other) == KeyOwner(tokens, other)
    decreases |tokens|
  {
    if |tokens| > 0 {
      var rest := DropKey(tokens[1..], key);
      DropKeyKeepsOthers(tokens[1..], key, other);
      KeyOwnerStep(tokens, other);
      if tokens[0].key != key {
        assert DropKey(tokens, key) == [tokens[0]] + rest;
        KeyOwnerStep([tokens[0]] + rest, other);
        assert ([tokens[0]] + rest)[1..] == rest;
      }
    }
  }

  /** `auth/logout`: 403 when no stored token has the key; otherwise every
      token with that key is removed. */
  function AuthLogout(s: Store, key: string): (r: Result<Store>)
    ensures r.Ok? <==> TokenUser(s, key).Some?
    ensures r.Err? ==> r.code == Forbidden
    ensures r.Ok? ==> r.value == s.(tokens := DropKey(s.tokens, key))
    ensures r.Ok? ==> TokenUser(r.value, key).None?
  {
    var kept := DropKey(s.tokens, key);
    if kept == s.tokens then Err(Forbidden) else Ok(s.(tokens := kept))
  }

  /** Logging out ends that session only. */
  lemma LogoutKeepsOtherSessions(s: Store, key: string, other: string)
    requires AuthLogout(s, key).Ok? && other != key
    ensures TokenUser(AuthLogout(s, key).value, other) == TokenUser(s, other)
  {
    DropKeyKeepsOthers(s.tokens, key, other);
  }
}
