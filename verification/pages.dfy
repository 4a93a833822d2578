/** Newest-first pagination shared by channel and DM message listing: a page
    holds at most 50 messages counted back from the newest, and the caller's
    react flags are written into the listed messages (the handlers mutate the
    stored message objects they return). */
module Pages {
  import opened Base
  import opened Types

  const PageSize := 50

  datatype Page = Page(messages: seq<Message>, start: int, end: int)

  /** Every react's `isThisUserReacted` set to whether `u` reacted with it. */
  function MarkReacts(m: Message, u: int): (r: Message)
    ensures |r.reacts| == |m.reacts|
    ensures forall j :: 0 <= j < |m.reacts| ==>
      r.reacts[j].reactId == m.reacts[j].reactId && r.reacts[j].uIds == m.reacts[j].uIds
      && (r.reacts[j].isThisUserReacted <==> u in m.reacts[j].uIds)
    ensures r.(reacts := m.reacts) == m
  {
    m.(reacts := seq(|m.reacts|, j requires 0 <= j < |m.reacts| =>
      m.reacts[j].(isThisUserReacted := u in m.reacts[j].uIds)))
  }

  /** Marking twice is marking once: the flags depend only on the `uIds`. */
  lemma MarkIdempotent(m: Message, u: int)
    ensures MarkReacts(MarkReacts(m, u), u) == MarkReacts(m, u)
  {
    var once := MarkReacts(m, u);
    var twice := MarkReacts(once, u);
    assert twice.reacts == once.reacts;
  }

  /** One past the last reversed position a page starting at `start` lists. */
  function Ceiling(n: nat, start: nat): (c: nat)
    requires start <= n
    ensures start <= c <= n && c - start <= PageSize
    ensures c == n || c == start + PageSize
  {
    if n > start + PageSize then start + PageSize else n
  }

  /** `ms` with the messages at positions `lo .. hi-1` marked for `u`. */
  function MarkRange(ms: seq<Message>, lo: int, hi: int, u: int): (r: seq<Message>)
    ensures |r| == |ms|
    ensures forall i :: 0 <= i < |ms| ==> r[i] == if lo <= i < hi then MarkReacts(ms[i], u) else ms[i]
  {
    seq(|ms|, i requires 0 <= i < |ms| => if lo <= i < hi then MarkReacts(ms[i], u) else ms[i])
  }

  /** The page of `ms` (oldest first as stored) starting `start` messages back
      from the newest, together with the stored list after marking.  `end` is
      `start + 50` exactly when older messages remain, else -1. */
  function PageOf(ms: seq<Message>, start: nat, u: int): (r: (seq<Message>, Page))
    requires start <= |ms|
    ensures |r.0| == |ms|
    ensures forall i :: 0 <= i < |ms| ==> r.0[i].messageId == ms[i].messageId
    ensures forall i :: 0 <= i < |ms| ==> r.0[i] == ms[i] || r.0[i] == MarkReacts(ms[i], u)
    ensures r.1.start == start
    ensures r.1.end == (if |ms| > start + PageSize then start + PageSize else -1)
    ensures |r.1.messages| <= PageSize
    ensures |r.1.messages| == (if |ms| > start + PageSize then PageSize else |ms| - start)
    ensures forall i :: 0 <= i < |r.1.messages| ==>
      r.1.messages[i] == MarkReacts(ms[|ms| - 1 - start - i], u)
  {
    var n := |ms|;
    var hi := Ceiling(n, start);
    var marked := MarkRange(ms, n - hi, n - start, u);
    var listed := Reverse(marked)[start..hi];
    assert forall i :: 0 <= i < |listed| ==> listed[i] == marked[n - 1 - start - i];
    (marked, Page(listed, start, if n > start + PageSize then start + PageSize else -1))
  }

  /** Following `end` to the next page continues exactly where the previous
      page stopped: the two pages list consecutive messages, newest first. */
  lemma {:induction false} NextPageContinues(ms: seq<Message>, start: nat, u: int)
    requires start <= |ms|
    requires PageOf(ms, start, u).1.end != -1
    ensures var (ms', p) := PageOf(ms, start, u);
      var q := PageOf(ms', p.end as nat, u).1;
      var both := p.messages + q.messages;
      forall i :: 0 <= i < |both| ==> both[i] == MarkReacts(ms[|ms| - 1 - start - i], u)
  {
    var (ms', p) := PageOf(ms, start, u);
    var q := PageOf(ms', p.end as nat, u).1;
    var both := p.messages + q.messages;
    forall i | 0 <= i < |both|
      ensures both[i] == MarkReacts(ms[|ms| - 1 - start - i], u)
    {
      if i >= |p.messages| {
        var j := i - |p.messages|;
        var at := |ms| - 1 - start - i;
        assert both[i] == q.messages[j];
        assert q.messages[j] == MarkReacts(ms'[at], u);
        MarkIdempotent(ms[at], u);
      }
    }
  }
}
