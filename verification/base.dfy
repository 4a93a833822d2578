/** Shared building blocks: optional values, the HTTP-coded result type every
    operation returns, and the small sequence helpers the workspace needs. */
module Base {

  datatype Option<+T> = None | Some(value: T)

  /** The error outcomes of the handlers.  `Crashed` stands for an unhandled
      JavaScript exception (a property read on `undefined`), which the HTTP
      layer reports as status 500. */
  datatype Code = BadRequest | Forbidden | Crashed

  function Status(c: Code): (n: int)
    ensures n in {400, 403, 500}
  {
    match c
    case BadRequest => 400
    case Forbidden => 403
    case Crashed => 500
  }

  datatype Result<+T> = Ok(value: T) | Err(code: Code) {
    predicate IsFailure() { Err? }

    function PropagateFailure<U>(): Result<U>
      requires Err?
    {
      Err(code)
    }

    function Extract(): T
      requires Ok?
    {
      value
    }
  }

  /** Index of the first element satisfying `p`, as JavaScript's `findIndex`. */
  function FirstIndex<T>(xs: seq<T>, p: T -> bool): (r: Option<nat>)
    ensures r.Some? ==> r.value < |xs| && p(xs[r.value])
    ensures r.Some? ==> forall j :: 0 <= j < r.value ==> !p(xs[j])
    ensures r.None? <==> forall j :: 0 <= j < |xs| ==> !p(xs[j])
  {
    if |xs| == 0 then None
    else if p(xs[0]) then Some(0)
    else
      match FirstIndex(xs[1..], p)
      case None => None
      case Some(k) => Some(k + 1)
  }

  /** `FirstIndex` only looks at the predicate's verdicts. */
  lemma {:induction false} FirstIndexAgree<T, U>(xs: seq<T>, p: T -> bool, ys: seq<U>, q: U -> bool)
    requires |xs| == |ys|
    requires forall i :: 0 <= i < |xs| ==> p(xs[i]) == q(ys[i])
    ensures FirstIndex(xs, p) == FirstIndex(ys, q)
  {
    if |xs| > 0 && !p(xs[0]) {
      FirstIndexAgree(xs[1..], p, ys[1..], q);
    }
  }

  /** Index of the last element satisfying `p`: what a `for` loop that keeps
      overwriting its variable on every match ends with. */
  function LastIndex<T>(xs: seq<T>, p: T -> bool): (r: Option<nat>)
    ensures r.Some? ==> r.value < |xs| && p(xs[r.value])
    ensures r.Some? ==> forall j :: r.value < j < |xs| ==> !p(xs[j])
    ensures r.None? <==> forall j :: 0 <= j < |xs| ==> !p(xs[j])
    decreases |xs|
  {
    if |xs| == 0 then None
    else if p(xs[|xs| - 1]) then Some(|xs| - 1)
    else LastIndex(xs[..|xs| - 1], p)
  }

  /** `xs.filter(x => x !== v)`. */
  function Without(xs: seq<int>, v: int): (r: seq<int>)
    ensures v !in r
    ensures forall x :: x in r <==> x in xs && x != v
    ensures |r| <= |xs|
    ensures v !in xs ==> r == xs
  {
    if |xs| == 0 then []
    else if xs[0] == v then Without(xs[1..], v)
    else [xs[0]] + Without(xs[1..], v)
  }

  /** Filtering out a value just appended (and absent before) undoes the
      append. */
  lemma {:induction false} WithoutAppended(xs: seq<int>, v: int)
    requires v !in xs
    ensures Without(xs + [v], v) == xs
    decreases |xs|
  {
    if |xs| > 0 {
      assert (xs + [v])[1..] == xs[1..] + [v];
      WithoutAppended(xs[1..], v);
      assert xs == [xs[0]] + xs[1..];
    }
  }

  /** Number of occurrences of `v` in `xs`. */
  function Occurrences(xs: seq<int>, v: int): (n: nat)
    ensures n <= |xs|
    ensures n == 0 <==> v !in xs
  {
    if |xs| == 0 then 0
    else (if xs[0] == v then 1 else 0) + Occurrences(xs[1..], v)
  }

  /** `xs` with the element at position `i` taken out. */
  function RemoveAt<T>(xs: seq<T>, i: nat): (r: seq<T>)
    requires i < |xs|
    ensures |r| == |xs| - 1
    ensures forall j :: 0 <= j < i ==> r[j] == xs[j]
    ensures forall j :: i <= j < |r| ==> r[j] == xs[j + 1]
  {
    xs[..i] + xs[i + 1..]
  }

  /** JavaScript's `xs.splice(start, 1)`: a negative start counts from the end,
      a start at or past the end removes nothing. */
  function Splice1<T>(xs: seq<T>, start: int): (r: seq<T>)
    ensures 0 <= start < |xs| ==> r == RemoveAt(xs, start)
    ensures start >= |xs| ==> r == xs
    ensures |r| == |xs| || |r| == |xs| - 1
  {
    var k := if start < 0 then (if |xs| + start < 0 then 0 else |xs| + start) else start;
    if k < |xs| then RemoveAt(xs, k) else xs
  }

  /** `xs.indexOf(v)`: the first position of `v`, or -1. */
  function IndexOf(xs: seq<int>, v: int): (r: int)
    ensures -1 <= r < |xs|
    ensures r == -1 <==> v !in xs
    ensures r >= 0 ==> xs[r] == v && forall j :: 0 <= j < r ==> xs[j] != v
  {
    match FirstIndex(xs, x => x == v)
    case None => -1
    case Some(k) => k
  }

  function Reverse<T>(xs: seq<T>): (r: seq<T>)
    ensures |r| == |xs|
    ensures forall i :: 0 <= i < |xs| ==> r[i] == xs[|xs| - 1 - i]
  {
    if |xs| == 0 then [] else Reverse(xs[1..]) + [xs[0]]
  }

  function Take<T>(xs: seq<T>, n: nat): (r: seq<T>)
    ensures |r| == if n < |xs| then n else |xs|
    ensures r <= xs
  {
    if n < |xs| then xs[..n] else xs
  }

  /** Whether JavaScript stores `c` as a surrogate pair (a character outside
      the Basic Multilingual Plane). */
  predicate Astral(c: char)
  {
    c as int >= 0x1_0000
  }

  /** `s.length` in JavaScript: the number of UTF-16 code units, two for each
      astral character and one for every other. */
  function Utf16Len(s: string): (n: nat)
    ensures |s| <= n <= 2 * |s|
    ensures n == 0 <==> |s| == 0
  {
    if |s| == 0 then 0
    else (if Astral(s[0]) then 2 else 1) + Utf16Len(s[1..])
  }

  /** The code-unit length of a concatenation is the sum of the lengths. */
  lemma {:induction false} Utf16LenAppend(a: string, b: string)
    ensures Utf16Len(a + b) == Utf16Len(a) + Utf16Len(b)
    decreases |a|
  {
    if |a| > 0 {
      assert (a + b)[0] == a[0] && (a + b)[1..] == a[1..] + b;
      Utf16LenAppend(a[1..], b);
    } else {
      assert a + b == b;
    }
  }

  /** Text with no astral character has as many code units as characters. */
  lemma {:induction false} Utf16LenOfPlain(s: string)
    requires forall i :: 0 <= i < |s| ==> !Astral(s[i])
    ensures Utf16Len(s) == |s|
    decreases |s|
  {
    if |s| > 0 {
      Utf16LenOfPlain(s[1..]);
    }
  }

  /** Replacing characters one for one, astral by astral, keeps the length. */
  lemma {:induction false} Utf16LenSameShape(a: string, b: string)
    requires |a| == |b|
    requires forall i :: 0 <= i < |a| ==> Astral(a[i]) == Astral(b[i])
    ensures Utf16Len(a) == Utf16Len(b)
    decreases |a|
  {
    if |a| > 0 {
      Utf16LenSameShape(a[1..], b[1..]);
    }
  }

  /** One emoji is one character but two code units, so 600 of them exceed a
      1000-unit limit. */
  lemma EmojiCountsTwice()
    ensures |"\U{1F600}"| == 1 && Utf16Len("\U{1F600}") == 2
  {
  }

  /** `a.includes(b)` on strings: `b` occurs contiguously inside `a`. */
  predicate IsSubstring(b: string, a: string)
    decreases |a|
  {
    b <= a || (|a| > 0 && IsSubstring(b, a[1..]))
  }

  /** `xs.map(f)`. */
  function MapSeq<T, U>(xs: seq<T>, f: T -> U): (r: seq<U>)
    ensures |r| == |xs|
    ensures forall i :: 0 <= i < |xs| ==> r[i] == f(xs[i])
  {
    seq(|xs|, i requires 0 <= i < |xs| => f(xs[i]))
  }

  lemma MapAppend<T, U>(p: seq<T>, q: seq<T>, f: T -> U)
    ensures MapSeq(p + q, f) == MapSeq(p, f) + MapSeq(q, f)
  {
  }

  /** Taking out of `b` the element matching `a`'s head keeps the multisets
      equal. */
  lemma TakeOut<T>(a: seq<T>, b: seq<T>, j: nat) returns (b': seq<T>)
    requires |a| > 0 && j < |b| && b[j] == a[0] && multiset(a) == multiset(b)
    ensures b' == b[..j] + b[j + 1..]
    ensures multiset(a[1..]) == multiset(b')
  {
    b' := b[..j] + b[j + 1..];
    assert b == b[..j] + [b[j]] + b[j + 1..];
    assert multiset(b) == multiset(b[..j]) + multiset{b[j]} + multiset(b[j + 1..]);
    assert multiset(b') == multiset(b[..j]) + multiset(b[j + 1..]);
    assert multiset(b') == multiset(b) - multiset{b[j]};
    assert a == [a[0]] + a[1..];
    assert multiset(a) == multiset{a[0]} + multiset(a[1..]);
    assert multiset(a[1..]) == multiset(a) - multiset{a[0]};
  }

  /** Mapping a list with one element taken out drops that element's image
      from the multiset of images. */
  lemma MapRemoveOne<T, U>(b: seq<T>, j: nat, f: T -> U)
    requires j < |b|
    ensures multiset(MapSeq(b, f)) == multiset(MapSeq(b[..j] + b[j + 1..], f)) + multiset{f(b[j])}
  {
    var m := MapSeq(b, f);
    assert m == m[..j] + [m[j]] + m[j + 1..];
    assert m[..j] + m[j + 1..] == MapSeq(b[..j] + b[j + 1..], f);
  }

  lemma MapCons<T, U>(a: seq<T>, f: T -> U)
    requires |a| > 0
    ensures multiset(MapSeq(a, f)) == multiset(MapSeq(a[1..], f)) + multiset{f(a[0])}
  {
    var m := MapSeq(a, f);
    assert m == [m[0]] + m[1..];
    assert m[1..] == MapSeq(a[1..], f);
  }

  /** Mapping a permutation gives a permutation of the images. */
  lemma {:induction false} MapPermute<T, U>(a: seq<T>, b: seq<T>, f: T -> U)
    requires multiset(a) == multiset(b)
    ensures multiset(MapSeq(a, f)) == multiset(MapSeq(b, f))
    decreases |a|
  {
    if |a| > 0 {
      var x := a[0];
      assert x in multiset(b);
      var j :| 0 <= j < |b| && b[j] == x;
      var b' := TakeOut(a, b, j);
      MapPermute(a[1..], b', f);
      MapRemoveOne(b, j, f);
      MapCons(a, f);
    } else {
      assert |multiset(b)| == 0;
    }
  }
}
