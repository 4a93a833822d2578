/** The workspace-wide message identity space.  Every message-creating path
    (channel send, DM send, standup flush, share, and the ids that send-later
    hands back) scans every channel's and every DM's messages and answers
    1 + the largest `messageId` seen, or 0 when there is none.

    Identity is stated over `IdLists`: one list of message ids per container,
    channels first and DMs after, so that the uniqueness invariant does not
    depend on anything but ids. */
module MessageIds {
  import opened Base
  import opened Types

  // ---- id lists --------------------------------------------------------------

  function MsgIds(ms: seq<Message>): (r: seq<int>)
    ensures |r| == |ms|
    ensures forall i :: 0 <= i < |ms| ==> r[i] == ms[i].messageId
  {
    seq(|ms|, i requires 0 <= i < |ms| => ms[i].messageId)
  }

  function ChannelIdLists(chs: seq<Channel>): (r: seq<seq<int>>)
    ensures |r| == |chs|
    ensures forall k :: 0 <= k < |chs| ==> r[k] == MsgIds(chs[k].messages)
  {
    seq(|chs|, k requires 0 <= k < |chs| => MsgIds(chs[k].messages))
  }

  function DmIdLists(dms: seq<Dm>): (r: seq<seq<int>>)
    ensures |r| == |dms|
    ensures forall k :: 0 <= k < |dms| ==> r[k] == MsgIds(dms[k].messages)
  {
    seq(|dms|, k requires 0 <= k < |dms| => MsgIds(dms[k].messages))
  }

  /** The ids of every message in the workspace, one list per container. */
  function IdLists(s: Store): (r: seq<seq<int>>)
    ensures |r| == |s.channels| + |s.dms|
  {
    ChannelIdLists(s.channels) + DmIdLists(s.dms)
  }

  /** Some container holds a message with id `x`. */
  predicate HasId(L: seq<seq<int>>, x: int)
  {
    exists a, i :: 0 <= a < |L| && 0 <= i < |L[a]| && L[a][i] == x
  }

  /** No two message slots of the workspace carry the same id. */
  predicate UniqueIds(L: seq<seq<int>>)
  {
    forall a, i, b, j ::
      0 <= a < |L| && 0 <= i < |L[a]| && 0 <= b < |L| && 0 <= j < |L[b]| && L[a][i] == L[b][j]
      ==> a == b && i == j
  }

  // ---- the allocator ---------------------------------------------------------

  /** Running maximum of `acc` and the elements of `xs`. */
  function MaxFrom(acc: int, xs: seq<int>): (r: int)
    ensures r >= acc
    ensures forall i :: 0 <= i < |xs| ==> xs[i] <= r
    ensures r == acc || r in xs
    decreases |xs|
  {
    if |xs| == 0 then acc
    else MaxFrom(if xs[0] > acc then xs[0] else acc, xs[1..])
  }

  /** Running maximum of `acc` and every id of every container. */
  function MaxOver(acc: int, L: seq<seq<int>>): (r: int)
    ensures r >= acc
    ensures forall a, i :: 0 <= a < |L| && 0 <= i < |L[a]| ==> L[a][i] <= r
    ensures r == acc || HasId(L, r)
    decreases |L|
  {
    if |L| == 0 then acc
    else
      var m := MaxFrom(acc, L[0]);
      var r := MaxOver(m, L[1..]);
      assert forall a, i :: 1 <= a < |L| && 0 <= i < |L[a]| ==> L[a][i] == L[1..][a - 1][i];
      assert r == m ==> r == acc || HasId(L, r) by {
        if r == m && r != acc {
          var i :| 0 <= i < |L[0]| && L[0][i] == r;
        }
      }
      assert HasId(L[1..], r) ==> HasId(L, r) by {
        if HasId(L[1..], r) {
          var a, i :| 0 <= a < |L[1..]| && 0 <= i < |L[1..][a]| && L[1..][a][i] == r;
          assert L[a + 1][i] == r;
        }
      }
      r
  }

  /** The id the next message gets: one more than the largest id in any
      channel or DM, or 0 when there is none.  It is larger than every
      existing id, and (unless it is 0) its predecessor is an existing id. */
  function NextId(L: seq<seq<int>>): (r: nat)
    ensures forall a, i :: 0 <= a < |L| && 0 <= i < |L[a]| ==> L[a][i] < r
    ensures !HasId(L, r)
    ensures r == 0 || HasId(L, r - 1)
  {
    MaxOver(-1, L) + 1
  }

  function NextMessageId(s: Store): (r: nat)
  {
    NextId(IdLists(s))
  }

  // ---- uniqueness is kept by every kind of change ----------------------------

  /** Appending a fresh id to one container keeps ids unique. */
  lemma {:induction false} AppendFreshKeepsUnique(L: seq<seq<int>>, a: nat, x: int)
    requires UniqueIds(L) && a < |L| && !HasId(L, x)
    ensures UniqueIds(L[a := L[a] + [x]])
  {
    var L' := L[a := L[a] + [x]];
    forall b, i, c, j | 0 <= b < |L'| && 0 <= i < |L'[b]| && 0 <= c < |L'| && 0 <= j < |L'[c]| && L'[b][i] == L'[c][j]
      ensures b == c && i == j
    {
      var newB := b == a && i == |L[a]|;
      var newC := c == a && j == |L[a]|;
      if !newB {
        assert L'[b][i] == L[b][i];
      }
      if !newC {
        assert L'[c][j] == L[c][j];
      }
    }
  }

  /** Taking one message out of one container keeps ids unique. */
  lemma {:induction false} RemoveKeepsUnique(L: seq<seq<int>>, a: nat, i: nat)
    requires UniqueIds(L) && a < |L| && i < |L[a]|
    ensures UniqueIds(L[a := RemoveAt(L[a], i)])
  {
    var L' := L[a := RemoveAt(L[a], i)];
    forall b, p, c, q | 0 <= b < |L'| && 0 <= p < |L'[b]| && 0 <= c < |L'| && 0 <= q < |L'[c]| && L'[b][p] == L'[c][q]
      ensures b == c && p == q
    {
      var p0 := if b == a && p >= i then p + 1 else p;
      var q0 := if c == a && q >= i then q + 1 else q;
      assert L'[b][p] == L[b][p0];
      assert L'[c][q] == L[c][q0];
    }
  }

  /** Inserting an empty container (a new channel or DM) keeps ids unique. */
  lemma {:induction false} InsertEmptyKeepsUnique(L: seq<seq<int>>, k: nat)
    requires UniqueIds(L) && k <= |L|
    ensures UniqueIds(L[..k] + [[]] + L[k..])
  {
    var L' := L[..k] + [[]] + L[k..];
    forall b, p, c, q | 0 <= b < |L'| && 0 <= p < |L'[b]| && 0 <= c < |L'| && 0 <= q < |L'[c]| && L'[b][p] == L'[c][q]
      ensures b == c && p == q
    {
      assert b != k && c != k;
      var b0 := if b < k then b else b - 1;
      var c0 := if c < k then c else c - 1;
      assert L'[b] == L[b0];
      assert L'[c] == L[c0];
    }
  }

  /** Dropping a whole container (a removed DM) keeps ids unique. */
  lemma {:induction false} DropKeepsUnique(L: seq<seq<int>>, k: nat)
    requires UniqueIds(L) && k < |L|
    ensures UniqueIds(RemoveAt(L, k))
  {
    var L' := RemoveAt(L, k);
    forall b, p, c, q | 0 <= b < |L'| && 0 <= p < |L'[b]| && 0 <= c < |L'| && 0 <= q < |L'[c]| && L'[b][p] == L'[c][q]
      ensures b == c && p == q
    {
      var b0 := if b < k then b else b + 1;
      var c0 := if c < k then c else c + 1;
      assert L'[b] == L[b0];
      assert L'[c] == L[c0];
    }
  }

  // ---- message locations -----------------------------------------------------

  /** Where a message sits: channel or DM position, then message position. */
  datatype Loc = InChannel(k: nat, i: nat) | InDm(k: nat, i: nat)

  predicate ValidLoc(s: Store, l: Loc)
  {
    match l
    case InChannel(k, i) => k < |s.channels| && i < |s.channels[k].messages|
    case InDm(k, i) => k < |s.dms| && i < |s.dms[k].messages|
  }

  function MessageAt(s: Store, l: Loc): Message
    requires ValidLoc(s, l)
  {
    match l
    case InChannel(k, i) => s.channels[k].messages[i]
    case InDm(k, i) => s.dms[k].messages[i]
  }

  /** Index of the container of `l` within `IdLists`. */
  function Slot(s: Store, l: Loc): nat
  {
    match l
    case InChannel(k, _) => k
    case InDm(k, _) => |s.channels| + k
  }

  lemma SlotHoldsId(s: Store, l: Loc)
    requires ValidLoc(s, l)
    ensures Slot(s, l) < |IdLists(s)| && l.i < |IdLists(s)[Slot(s, l)]|
    ensures IdLists(s)[Slot(s, l)][l.i] == MessageAt(s, l).messageId
  {
    if l.InDm? {
      assert IdLists(s)[Slot(s, l)] == DmIdLists(s.dms)[l.k];
    }
  }

  function MsgIndex(ms: seq<Message>, id: int): Option<nat>
  {
    FirstIndex(ms, (m: Message) => m.messageId == id)
  }

  /** The message with id `id`, searching channels in order and then DMs, and
      within a container the first match — the order of the handlers' scans. */
  function Locate(s: Store, id: int): (r: Option<Loc>)
    ensures r.Some? ==> ValidLoc(s, r.value) && MessageAt(s, r.value).messageId == id
    ensures r.None? <==> forall l :: ValidLoc(s, l) ==> MessageAt(s, l).messageId != id
  {
    match FirstIndex(s.channels, (c: Channel) => MsgIndex(c.messages, id).Some?)
    case Some(k) => Some(InChannel(k, MsgIndex(s.channels[k].messages, id).value))
    case None =>
      match FirstIndex(s.dms, (d: Dm) => MsgIndex(d.messages, id).Some?)
      case Some(k) => Some(InDm(k, MsgIndex(s.dms[k].messages, id).value))
      case None =>
        assert forall l :: ValidLoc(s, l) ==> MessageAt(s, l).messageId != id by {
          forall l | ValidLoc(s, l) ensures MessageAt(s, l).messageId != id {
            if l.InChannel? {
              assert MsgIndex(s.channels[l.k].messages, id).None?;
            } else {
              assert MsgIndex(s.dms[l.k].messages, id).None?;
            }
          }
        }
        None
  }

  /** With unique ids, a message location is determined by its id. */
  lemma {:induction false} LocatedIsOnly(s: Store, l: Loc, l': Loc)
    requires UniqueIds(IdLists(s)) && ValidLoc(s, l) && ValidLoc(s, l')
    requires MessageAt(s, l).messageId == MessageAt(s, l').messageId
    ensures l == l'
  {
    SlotHoldsId(s, l);
    SlotHoldsId(s, l');
  }

  /** Which message a lookup by id finds depends only on the ids. */
  lemma MsgIndexByIds(ms: seq<Message>, ms': seq<Message>, id: int)
    requires MsgIds(ms) == MsgIds(ms')
    ensures MsgIndex(ms, id) == MsgIndex(ms', id)
  {
    assert forall i :: 0 <= i < |ms| ==> ms[i].messageId == MsgIds(ms)[i] == ms'[i].messageId;
    FirstIndexAgree(ms, (m: Message) => m.messageId == id, ms', (m: Message) => m.messageId == id);
  }

  /** Two stores with the same id lists locate every id at the same place. */
  lemma LocateByIds(s: Store, s': Store, id: int)
    requires |s.channels| == |s'.channels| && |s.dms| == |s'.dms|
    requires IdLists(s) == IdLists(s')
    ensures Locate(s, id) == Locate(s', id)
  {
    forall k | 0 <= k < |s.channels|
      ensures MsgIndex(s.channels[k].messages, id) == MsgIndex(s'.channels[k].messages, id)
    {
      assert IdLists(s)[k] == MsgIds(s.channels[k].messages);
      assert IdLists(s')[k] == MsgIds(s'.channels[k].messages);
      MsgIndexByIds(s.channels[k].messages, s'.channels[k].messages, id);
    }
    forall k | 0 <= k < |s.dms|
      ensures MsgIndex(s.dms[k].messages, id) == MsgIndex(s'.dms[k].messages, id)
    {
      assert IdLists(s)[|s.channels| + k] == MsgIds(s.dms[k].messages);
      assert IdLists(s')[|s.channels| + k] == MsgIds(s'.dms[k].messages);
      MsgIndexByIds(s.dms[k].messages, s'.dms[k].messages, id);
    }
    FirstIndexAgree(s.channels, (c: Channel) => MsgIndex(c.messages, id).Some?,
                    s'.channels, (c: Channel) => MsgIndex(c.messages, id).Some?);
    FirstIndexAgree(s.dms, (d: Dm) => MsgIndex(d.messages, id).Some?,
                    s'.dms, (d: Dm) => MsgIndex(d.messages, id).Some?);
  }

  // ---- how store updates move the id lists ------------------------------------

  /** The ids of the workspace are pairwise distinct. */
  predicate MessageIdsUnique(s: Store)
  {
    UniqueIds(IdLists(s))
  }

  lemma MsgIdsAppend(ms: seq<Message>, m: Message)
    ensures MsgIds(ms + [m]) == MsgIds(ms) + [m.messageId]
  {
  }

  lemma MsgIdsRemove(ms: seq<Message>, i: nat)
    requires i < |ms|
    ensures MsgIds(RemoveAt(ms, i)) == RemoveAt(MsgIds(ms), i)
  {
  }

  lemma ChannelIdsUpdate(s: Store, k: nat, c: Channel)
    requires k < |s.channels|
    ensures IdLists(WithChannel(s, k, c)) == IdLists(s)[k := MsgIds(c.messages)]
  {
    assert ChannelIdLists(s.channels[k := c]) == ChannelIdLists(s.channels)[k := MsgIds(c.messages)];
  }

  lemma DmIdsUpdate(s: Store, k: nat, d: Dm)
    requires k < |s.dms|
    ensures IdLists(WithDm(s, k, d)) == IdLists(s)[|s.channels| + k := MsgIds(d.messages)]
  {
    assert DmIdLists(s.dms[k := d]) == DmIdLists(s.dms)[k := MsgIds(d.messages)];
  }

  /** Storing a message with the allocated id into channel `k` keeps ids unique. */
  lemma {:induction false} ChannelAppendKeepsUnique(s: Store, k: nat, m: Message)
    requires MessageIdsUnique(s) && k < |s.channels| && m.messageId == NextMessageId(s)
    ensures MessageIdsUnique(WithChannel(s, k, s.channels[k].(messages := s.channels[k].messages + [m])))
  {
    var c := s.channels[k];
    ChannelIdsUpdate(s, k, c.(messages := c.messages + [m]));
    MsgIdsAppend(c.messages, m);
    AppendFreshKeepsUnique(IdLists(s), k, m.messageId);
  }

  /** Storing a message with the allocated id into DM `k` keeps ids unique. */
  lemma {:induction false} DmAppendKeepsUnique(s: Store, k: nat, m: Message)
    requires MessageIdsUnique(s) && k < |s.dms| && m.messageId == NextMessageId(s)
    ensures MessageIdsUnique(WithDm(s, k, s.dms[k].(messages := s.dms[k].messages + [m])))
  {
    var d := s.dms[k];
    var L := IdLists(s);
    var a := |s.channels| + k;
    DmIdsUpdate(s, k, d.(messages := d.messages + [m]));
    MsgIdsAppend(d.messages, m);
    DmSlotIds(s, k);
    assert IdLists(WithDm(s, k, d.(messages := d.messages + [m]))) == L[a := L[a] + [m.messageId]];
    AppendFreshKeepsUnique(L, a, m.messageId);
  }

  /** DM `k`'s ids sit after every channel's. */
  lemma DmSlotIds(s: Store, k: nat)
    requires k < |s.dms|
    ensures IdLists(s)[|s.channels| + k] == MsgIds(s.dms[k].messages)
  {
  }
}
