/**
  The per-command conflict tracker (one `BedrockConflictMetrics` object).

  `Metrics` is the tracker's state as a value, `Record` and `Replay` specify
  what recording outcomes does to it, and the class `Tracker` keeps that
  state in place: a fixed-size bit set (an `array<bool>`, `true` = conflict),
  a cursor, two lifetime totals and the last verdict.
*/
module ConflictTracker {
  import opened RecentWindow

  /** The fields of one tracker, as a value. */
  datatype Metrics = Metrics(
    window: seq<bool>,
    cursor: nat,
    totalSuccessCount: nat,
    totalConflictCount: nat,
    lastCheckOK: bool)

  /** A window of `n` slots with the cursor on one of them. */
  predicate WellFormed(m: Metrics, n: nat)
  {
    n > 0 && |m.window| == n && m.cursor < n
  }

  /** A tracker as first created: every bit clear, cursor and totals at zero. */
  function Fresh(n: nat, lastCheckOK: bool): (m: Metrics)
    requires n > 0
    ensures WellFormed(m, n)
    ensures Count(m.window) == 0 && m.totalSuccessCount + m.totalConflictCount == 0
  {
    CountZeros(n);
    Metrics(Zeros(n), 0, 0, 0, lastCheckOK)
  }

  /**
    One recorded outcome (`success()` when `conflict` is false, `conflict()`
    when it is true): overwrite the slot at the cursor, bump the matching
    total, advance the cursor modulo the window size.
  */
  function Record(m: Metrics, conflict: bool): (m': Metrics)
    requires WellFormed(m, |m.window|)
    ensures WellFormed(m', |m.window|)
    ensures Count(m'.window) == Count(m.window) - (if m.window[m.cursor] then 1 else 0) + (if conflict then 1 else 0)
    ensures m'.totalSuccessCount + m'.totalConflictCount == m.totalSuccessCount + m.totalConflictCount + 1
    ensures m'.lastCheckOK == m.lastCheckOK
  {
    CountUpdate(m.window, m.cursor, conflict);
    Metrics(
      m.window[m.cursor := conflict],
      (m.cursor + 1) % |m.window|,
      m.totalSuccessCount + (if conflict then 0 else 1),
      m.totalConflictCount + (if conflict then 1 else 0),
      m.lastCheckOK)
  }

  /**
    The representation invariant: `m` is a tracker on which exactly the
    outcomes `h` have been recorded. Read from the cursor, its bit set lists
    the last `n` outcomes oldest first, slots never written reading as
    successes; its totals count every outcome of `h`.
  */
  predicate Reflects(m: Metrics, h: seq<bool>, n: nat)
  {
    && WellFormed(m, n)
    && Rotated(m.window, m.cursor) == Recent(h, n)
    && m.totalConflictCount == Count(h)
    && m.totalSuccessCount == |h| - Count(h)
  }

  /** A fresh tracker has recorded nothing. */
  lemma FreshReflects(n: nat, ok: bool)
    requires n > 0
    ensures Reflects(Fresh(n, ok), [], n)
  {
    assert Zeros(n)[0..] + Zeros(n)[..0] == Zeros(n);
    assert (Zeros(n) + [])[0..] == Zeros(n);
  }

  /** `success()` / `conflict()` record exactly one more outcome. */
  lemma RecordReflects(m: Metrics, h: seq<bool>, n: nat, conflict: bool)
    requires Reflects(m, h, n)
    ensures Reflects(Record(m, conflict), h + [conflict], n)
  {
    RotatedStep(m.window, m.cursor, conflict);
    RecentStep(h, n, conflict);
    assert (h + [conflict])[..|h|] == h;
  }

  /** The state of a fresh tracker after recording the outcomes `h` in order. */
  function Replay(h: seq<bool>, n: nat, lastCheckOK: bool): (m: Metrics)
    requires n > 0
    ensures Reflects(m, h, n)
    ensures m.lastCheckOK == lastCheckOK
    decreases |h|
  {
    if h == [] then
      FreshReflects(n, lastCheckOK);
      Fresh(n, lastCheckOK)
    else
      var h', b := h[..|h| - 1], h[|h| - 1];
      assert h' + [b] == h;
      var prev := Replay(h', n, lastCheckOK);
      RecordReflects(prev, h', n, b);
      Record(prev, b)
  }

  /**
    The population count of the bit set is the number of conflicts among the
    last `min(n, |h|)` recorded outcomes.
  */
  lemma RecentConflicts(m: Metrics, h: seq<bool>, n: nat)
    requires Reflects(m, h, n)
    ensures Count(m.window) == Count(LastN(h, n))
  {
    CountRotated(m.window, m.cursor);
    CountRecent(h, n);
  }

  /**
    Outcomes recorded before the last `n` are forgotten: a tracker that has
    also recorded `older` reads, from its cursor, the same window and the
    same count as one that has recorded only `h`.
  */
  lemma ForgetsOlder(m: Metrics, m': Metrics, older: seq<bool>, h: seq<bool>, n: nat)
    requires |h| >= n
    requires Reflects(m, older + h, n) && Reflects(m', h, n)
    ensures Rotated(m.window, m.cursor) == Rotated(m'.window, m'.cursor)
    ensures Count(m.window) == Count(m'.window)
  {
    RecentForgetsOlder(older, h, n);
    RecentConflicts(m, older + h, n);
    RecentConflicts(m', h, n);
  }

  /** `k <= n` conflicts on a fresh tracker: `k` recent conflicts and `n - k` recent successes. */
  lemma ConflictBurst(m: Metrics, k: nat, n: nat)
    requires k <= n && Reflects(m, Ones(k), n)
    ensures Count(m.window) == k
    ensures n - Count(m.window) == n - k
  {
    RecentConflicts(m, Ones(k), n);
    CountOnes(k);
  }

  /** `k` conflicts followed by `j` successes hold `k` conflicts. */
  lemma CountBurst(k: nat, j: nat)
    ensures Count(Ones(k) + Zeros(j)) == k
  {
    CountAppend(Ones(k), Zeros(j));
    CountOnes(k);
    CountZeros(j);
  }

  /** While at most `n` outcomes have been recorded, the bit set counts every conflict among them. */
  lemma NotYetFull(m: Metrics, h: seq<bool>, n: nat)
    requires |h| <= n && Reflects(m, h, n)
    ensures Count(m.window) == Count(h)
  {
    RecentConflicts(m, h, n);
  }

  /**
    After `k > 0` conflicts and then `j` successes the last `k + j` outcomes
    hold `k` conflicts; one more success pushes the oldest conflict out of
    them.
  */
  lemma SlideOut(k: nat, j: nat)
    requires 0 < k
    ensures LastN(Ones(k) + Zeros(j) + [false], k + j) == Ones(k - 1) + Zeros(j + 1)
    ensures Count(LastN(Ones(k) + Zeros(j) + [false], k + j)) == k - 1
  {
    var h' := Ones(k) + Zeros(j) + [false];
    assert Ones(k)[1..] == Ones(k - 1);
    assert Zeros(j) + [false] == Zeros(j + 1);
    assert h'[1..] == Ones(k)[1..] + (Zeros(j) + [false]);
    CountBurst(k - 1, j + 1);
  }

  /** After at least `n` successes in a row, no recent conflict is left, whatever came before. */
  lemma Recovery(m: Metrics, h: seq<bool>, j: nat, n: nat)
    requires n <= j && Reflects(m, h + Zeros(j), n)
    ensures Count(m.window) == 0
  {
    RecentConflicts(m, h + Zeros(j), n);
    RecentForgetsOlder(h, Zeros(j), n);
    assert LastN(Zeros(j), n) == Zeros(n);
    CountZeros(n);
  }

  /**
    One `BedrockConflictMetrics` object. `results` is the bit set of
    `results.Length` (COMMAND_COUNT) slots; its length never changes.
    `history` records every outcome ever recorded, oldest first.
  */
  class Tracker {
    const commandName: string
    const results: array<bool>
    var cursor: nat
    var totalSuccessCount: nat
    var totalConflictCount: nat
    var lastCheckOK: bool
    ghost var history: seq<bool>

    /** The tracker's fields as a value. */
    ghost function State(): Metrics
      reads this, results
    {
      Metrics(results[..], cursor, totalSuccessCount, totalConflictCount, lastCheckOK)
    }

    /** The shape of the fields: a non-empty bit set with the cursor on one of its slots. */
    ghost predicate Valid()
      reads this, results
    {
      WellFormed(State(), results.Length)
    }

    /** The fields are what recording `history` on a fresh tracker yields. */
    ghost predicate Faithful()
      reads this, results
    {
      Reflects(State(), history, results.Length)
    }

    constructor (name: string, commandCount: nat, initialLastCheckOK: bool)
      requires commandCount > 0
      ensures Valid() && Faithful() && fresh(results)
      ensures commandName == name && results.Length == commandCount
      ensures State() == Fresh(commandCount, initialLastCheckOK) && history == []
    {
      commandName := name;
      results := new bool[commandCount](_ => false);
      cursor, totalSuccessCount, totalConflictCount := 0, 0, 0;
      lastCheckOK := initialLastCheckOK;
      history := [];
      new;
      assert results[..] == Zeros(commandCount);
      FreshReflects(commandCount, initialLastCheckOK);
    }

    /** `success()`: clear the bit at the cursor, count a success, advance the cursor. */
    method Success()
      requires Valid()
      modifies this, results
      ensures Valid()
      ensures State() == Record(old(State()), false)
      ensures results[old(cursor)] == false
      ensures forall i :: 0 <= i < results.Length && i != old(cursor) ==> results[i] == old(results[i])
      ensures cursor == (old(cursor) + 1) % results.Length
      ensures totalSuccessCount == old(totalSuccessCount) + 1 && totalConflictCount == old(totalConflictCount)
      ensures lastCheckOK == old(lastCheckOK)
      ensures history == old(history) + [false]
      ensures old(Faithful()) ==> Faithful()
    {
      ghost var before := State();
      totalSuccessCount := totalSuccessCount + 1;
      results[cursor] := false;
      cursor := (cursor + 1) % results.Length;
      history := history + [false];
      assert State() == Record(before, false);
      if Reflects(before, old(history), results.Length) {
        RecordReflects(before, old(history), results.Length, false);
      }
    }

    /** `conflict()`: set the bit at the cursor, count a conflict, advance the cursor. */
    method Conflict()
      requires Valid()
      modifies this, results
      ensures Valid()
      ensures State() == Record(old(State()), true)
      ensures results[old(cursor)] == true
      ensures forall i :: 0 <= i < results.Length && i != old(cursor) ==> results[i] == old(results[i])
      ensures cursor == (old(cursor) + 1) % results.Length
      ensures totalConflictCount == old(totalConflictCount) + 1 && totalSuccessCount == old(totalSuccessCount)
      ensures lastCheckOK == old(lastCheckOK)
      ensures history == old(history) + [true]
      ensures old(Faithful()) ==> Faithful()
    {
      ghost var before := State();
      totalConflictCount := totalConflictCount + 1;
      results[cursor] := true;
      cursor := (cursor + 1) % results.Length;
      history := history + [true];
      assert State() == Record(before, true);
      if Reflects(before, old(history), results.Length) {
        RecordReflects(before, old(history), results.Length, true);
      }
    }

    /**
      `recentConflictCount()`: the population count of the bit set, which is
      the number of conflicts among the last `min(COMMAND_COUNT, |history|)`
      outcomes.
    */
    method RecentConflictCount() returns (r: nat)
      requires Valid()
      ensures r == Count(results[..]) && r <= results.Length
      ensures Faithful() ==> r == Count(LastN(history, results.Length))
    {
      r := 0;
      var i := 0;
      while i < results.Length
        invariant 0 <= i <= results.Length
        invariant r == Count(results[..i])
      {
        assert results[..i + 1][..i] == results[..i];
        if results[i] {
          r := r + 1;
        }
        i := i + 1;
      }
      assert results[..i] == results[..];
      if Faithful() {
        RecentConflicts(State(), history, results.Length);
      }
    }

    /**
      `recentSuccessCount()`: COMMAND_COUNT minus the recent conflicts, so
      slots never written count as successes.
    */
    method RecentSuccessCount() returns (r: int)
      requires Valid()
      ensures r + Count(results[..]) == results.Length && 0 <= r
      ensures Faithful() ==> r == (results.Length - |LastN(history, results.Length)|)
                                 + (|LastN(history, results.Length)| - Count(LastN(history, results.Length)))
    {
      var conflicts := RecentConflictCount();
      r := results.Length - conflicts;
    }

    /** `totalSuccessCount()`: every success ever recorded, window or not. */
    method TotalSuccessCount() returns (r: nat)
      requires Faithful()
      ensures r == |history| - Count(history)
    {
      r := totalSuccessCount;
    }

    /** `totalConflictCount()`: every conflict ever recorded, window or not. */
    method TotalConflictCount() returns (r: nat)
      requires Faithful()
      ensures r == Count(history)
    {
      r := totalConflictCount;
    }
  }
}
