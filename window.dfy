/**
  Sequences of outcomes and the sliding window over them.

  An outcome is a `bool`: `true` is a replication conflict, `false` a success,
  as in the bit set of the per-command tracker (bit set = conflict).
  This module holds only values and facts about them; the tracker and the
  registry that update state in place are built on top of it.
*/
module RecentWindow {

  /** Number of conflicts (set bits) in `s`: the population count. */
  function Count(s: seq<bool>): (r: nat)
    ensures r <= |s|
  {
    multiset(s)[true]
  }

  /** `n` outcomes, all successes: a bit set with every bit clear. */
  function Zeros(n: nat): (r: seq<bool>)
    ensures |r| == n
    ensures forall i :: 0 <= i < n ==> !r[i]
  {
    seq(n, _ => false)
  }

  /** `n` outcomes, all conflicts. */
  function Ones(n: nat): (r: seq<bool>)
    ensures |r| == n
    ensures forall i :: 0 <= i < n ==> r[i]
  {
    seq(n, _ => true)
  }

  function Min(a: nat, b: nat): nat { if a <= b then a else b }

  /** The last `min(n, |h|)` outcomes of `h`, oldest first. */
  function LastN(h: seq<bool>, n: nat): (r: seq<bool>)
    ensures |r| == Min(n, |h|)
    ensures h == h[..|h| - |r|] + r
  {
    if |h| <= n then h else h[|h| - n..]
  }

  /**
    The window as the tracker sees it: exactly `n` outcomes, the most recent
    last, where positions that no recorded outcome has reached yet are
    successes (the bit set starts all clear).
  */
  function Recent(h: seq<bool>, n: nat): (r: seq<bool>)
    ensures |r| == n
  {
    (Zeros(n) + h)[|h|..]
  }

  /**
    A circular buffer `w` read from slot `c` round to slot `c - 1`; when `c`
    is the cursor, this lists the slots from the oldest outcome to the newest.
  */
  function Rotated(w: seq<bool>, c: nat): (r: seq<bool>)
    requires c <= |w|
    ensures |r| == |w|
  {
    w[c..] + w[..c]
  }

  lemma {:induction false} CountAppend(a: seq<bool>, b: seq<bool>)
    ensures Count(a + b) == Count(a) + Count(b)
    decreases |b|
  {
    if b == [] {
      assert a + b == a;
    } else {
      var b' := b[..|b| - 1];
      assert (a + b)[..|a + b| - 1] == a + b';
      CountAppend(a, b');
    }
  }

  /** The population count of a circular buffer does not depend on where it is read from. */
  lemma {:induction false} CountRotated(w: seq<bool>, c: nat)
    requires c <= |w|
    ensures Count(Rotated(w, c)) == Count(w)
  {
    var front, back := w[..c], w[c..];
    assert Rotated(w, c) == back + front;
    assert front + back == w;
    CountAppend(back, front);
    CountAppend(front, back);
  }

  /** Overwriting one slot changes the population count by the difference of the two bits. */
  lemma CountUpdate(w: seq<bool>, c: nat, b: bool)
    requires c < |w|
    ensures Count(w[c := b]) == Count(w) - (if w[c] then 1 else 0) + (if b then 1 else 0)
  {
    var w' := w[c := b];
    assert w == w[..c] + [w[c]] + w[c + 1..];
    assert w' == w[..c] + [b] + w[c + 1..];
    CountAppend(w[..c] + [w[c]], w[c + 1..]);
    CountAppend(w[..c], [w[c]]);
    CountAppend(w[..c] + [b], w[c + 1..]);
    CountAppend(w[..c], [b]);
    assert Count([w[c]]) == (if w[c] then 1 else 0) by { assert [w[c]][..0] == []; }
    assert Count([b]) == (if b then 1 else 0) by { assert [b][..0] == []; }
  }

  /** Recording outcome `b` drops the oldest outcome of the window and appends `b`. */
  lemma RecentStep(h: seq<bool>, n: nat, b: bool)
    requires n > 0
    ensures Recent(h + [b], n) == Recent(h, n)[1..] + [b]
  {
    var z := Zeros(n);
    assert z + (h + [b]) == (z + h) + [b];
    assert ((z + h) + [b])[|h| + 1..] == (z + h)[|h| + 1..] + [b];
    assert (z + h)[|h|..][1..] == (z + h)[|h| + 1..];
  }

  /**
    Overwriting the slot at cursor `c` and advancing the cursor modulo the
    buffer length drops the oldest slot of the rotated view and appends `b`.
  */
  lemma RotatedStep(w: seq<bool>, c: nat, b: bool)
    requires c < |w|
    ensures Rotated(w[c := b], (c + 1) % |w|) == Rotated(w, c)[1..] + [b]
  {
    var w' := w[c := b];
    if c + 1 == |w| {
      assert (c + 1) % |w| == 0;
      assert w'[0..] + w'[..0] == w';
      assert w' == w[..c] + [b];
      assert Rotated(w, c) == [w[c]] + w[..c];
    } else {
      assert (c + 1) % |w| == c + 1;
      assert w'[c + 1..] == w[c + 1..];
      assert w'[..c + 1] == w[..c] + [b];
      assert Rotated(w, c) == [w[c]] + w[c + 1..] + w[..c];
    }
  }

  /** The window is the last `min(n, |h|)` outcomes preceded by never-written successes. */
  lemma RecentIsPaddedLastN(h: seq<bool>, n: nat)
    ensures Recent(h, n) == Zeros(n - |LastN(h, n)|) + LastN(h, n)
  {
    var z := Zeros(n);
    if |h| <= n {
      assert (z + h)[|h|..] == z[|h|..] + h;
      assert z[|h|..] == Zeros(n - |h|);
    } else {
      assert (z + h)[|h|..] == h[|h| - n..];
      assert Zeros(0) + h[|h| - n..] == h[|h| - n..];
    }
  }

  lemma {:induction false} CountZeros(n: nat)
    ensures Count(Zeros(n)) == 0
  {
    if n > 0 {
      assert Zeros(n) == Zeros(n - 1) + [false];
      CountZeros(n - 1);
    }
  }

  lemma {:induction false} CountOnes(n: nat)
    ensures Count(Ones(n)) == n
  {
    if n > 0 {
      assert Ones(n) == Ones(n - 1) + [true];
      CountOnes(n - 1);
    }
  }

  /** The conflicts in the window are exactly the conflicts among the last `min(n, |h|)` outcomes. */
  lemma CountRecent(h: seq<bool>, n: nat)
    ensures Count(Recent(h, n)) == Count(LastN(h, n))
  {
    var l := LastN(h, n);
    RecentIsPaddedLastN(h, n);
    CountAppend(Zeros(n - |l|), l);
    CountZeros(n - |l|);
  }

  /** Outcomes older than the last `n` have no effect on the window. */
  lemma RecentForgetsOlder(older: seq<bool>, h: seq<bool>, n: nat)
    requires |h| >= n
    ensures LastN(older + h, n) == LastN(h, n)
    ensures Recent(older + h, n) == Recent(h, n)
  {
    var oh := older + h;
    assert oh[|oh| - n..] == h[|h| - n..];
    RecentIsPaddedLastN(oh, n);
    RecentIsPaddedLastN(h, n);
  }
}
