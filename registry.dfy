/**
  The registry of trackers: the map from command name to its
  `BedrockConflictMetrics` object, and the three operations the database
  calls, `recordSuccess`, `recordConflict` and `multiWriteOK`.

  The map is an explicitly constructed `Registry` object rather than static
  storage, and each call runs to completion before the next one starts (the
  re-entrant lock that serializes them is not part of this model).
  COMMAND_COUNT, THRESHOLD and the initial `_lastCheckOK` of a new tracker
  are constructor parameters.
*/
module ConflictRegistry {
  import opened RecentWindow
  import opened ConflictTracker

  /** One call of `recordSuccess` (`conflict == false`) or `recordConflict` (`conflict == true`). */
  datatype Event = Event(name: string, conflict: bool)

  /** The outcomes recorded for `name` in the call log `log`, oldest first. */
  function Outcomes(log: seq<Event>, name: string): (h: seq<bool>)
    ensures |h| <= |log|
  {
    if log == [] then []
    else
      var e := log[|log| - 1];
      Outcomes(log[..|log| - 1], name) + (if e.name == name then [e.conflict] else [])
  }

  lemma OutcomesAppend(log: seq<Event>, e: Event, name: string)
    ensures Outcomes(log + [e], name) == Outcomes(log, name) + (if e.name == name then [e.conflict] else [])
  {
    assert (log + [e])[..|log|] == log;
  }

  /** The registry's map, with each tracker as a value. */
  type Table = map<string, Metrics>

  predicate TableOK(t: Table, n: nat)
  {
    n > 0 && forall k :: k in t ==> WellFormed(t[k], n)
  }

  /**
    `recordSuccess` / `recordConflict` on the map: find the tracker for
    `name`, creating it if it is absent, and record the outcome on it.
  */
  function RecordOutcome(t: Table, n: nat, initialLastCheckOK: bool, name: string, conflict: bool): (t': Table)
    requires TableOK(t, n)
    ensures TableOK(t', n)
    ensures t'.Keys == t.Keys + {name}
    ensures forall k :: k in t && k != name ==> t'[k] == t[k]
    ensures name in t ==> t'[name] == Record(t[name], conflict)
    ensures name !in t ==> t'[name] == Record(Fresh(n, initialLastCheckOK), conflict)
  {
    var m := if name in t then t[name] else Fresh(n, initialLastCheckOK);
    t[name := Record(m, conflict)]
  }

  /** `RecordOutcome` in two steps: insert a fresh tracker if `name` is absent, then record on `name`'s entry. */
  lemma RecordOutcomeSplit(t: Table, n: nat, initialLastCheckOK: bool, name: string, conflict: bool)
    requires TableOK(t, n)
    ensures var mid := if name in t then t else t[name := Fresh(n, initialLastCheckOK)];
            RecordOutcome(t, n, initialLastCheckOK, name, conflict) == mid[name := Record(mid[name], conflict)]
  {
    if name !in t {
      var f := Fresh(n, initialLastCheckOK);
      assert t[name := f][name := Record(f, conflict)] == t[name := Record(f, conflict)];
    }
  }

  /**
    `multiWriteOK` on the map: the verdict, and the map afterwards. An
    unknown name is allowed and creates nothing; a known name is allowed
    exactly when its recent conflicts are strictly below the threshold, and
    that verdict is stored in its tracker.
  */
  function Query(t: Table, threshold: int, name: string): (res: (bool, Table))
    ensures name !in t ==> res.0 && res.1 == t
    ensures name in t ==> res.0 == (Count(t[name].window) < threshold)
    ensures res.1.Keys == t.Keys
    ensures forall k :: k in t && k != name ==> res.1[k] == t[k]
    ensures name in t ==> res.1[name] == t[name].(lastCheckOK := res.0)
  {
    if name !in t then (true, t)
    else
      var ok := Count(t[name].window) < threshold;
      (ok, t[name := t[name].(lastCheckOK := ok)])
  }

  /**
    The map agrees with the call log: it holds an entry exactly for the
    names recorded at least once, and each entry is a tracker on which
    exactly that name's outcomes have been recorded.
  */
  ghost predicate Consistent(t: Table, log: seq<Event>, n: nat)
  {
    && n > 0
    && (forall k :: k in t <==> Outcomes(log, k) != [])
    && (forall k :: k in t ==> Reflects(t[k], Outcomes(log, k), n))
  }

  /** The empty map agrees with the empty log. */
  lemma EmptyConsistent(n: nat)
    requires n > 0
    ensures Consistent(map[], [], n)
  {
  }

  /** Recording an outcome keeps the map in step with the log extended by that call. */
  lemma RecordConsistent(t: Table, log: seq<Event>, n: nat, initialLastCheckOK: bool, name: string, conflict: bool)
    requires Consistent(t, log, n)
    ensures TableOK(t, n)
    ensures Consistent(RecordOutcome(t, n, initialLastCheckOK, name, conflict), log + [Event(name, conflict)], n)
  {
    var t' := RecordOutcome(t, n, initialLastCheckOK, name, conflict);
    forall k
      ensures k in t' <==> Outcomes(log + [Event(name, conflict)], k) != []
      ensures k in t' ==> Reflects(t'[k], Outcomes(log + [Event(name, conflict)], k), n)
    {
      RecordEntry(t, log, n, initialLastCheckOK, name, conflict, k);
    }
  }

  /** `RecordConsistent` for one key `k`. */
  lemma RecordEntry(t: Table, log: seq<Event>, n: nat, initialLastCheckOK: bool, name: string, conflict: bool, k: string)
    requires Consistent(t, log, n)
    ensures TableOK(t, n)
    ensures var t' := RecordOutcome(t, n, initialLastCheckOK, name, conflict);
            && (k in t' <==> Outcomes(log + [Event(name, conflict)], k) != [])
            && (k in t' ==> Reflects(t'[k], Outcomes(log + [Event(name, conflict)], k), n))
  {
    var e := Event(name, conflict);
    var t' := RecordOutcome(t, n, initialLastCheckOK, name, conflict);
    OutcomesAppend(log, e, k);
    if k == name {
      var h := Outcomes(log, name);
      assert Outcomes(log + [e], name) == h + [conflict];
      if name in t {
        RecordReflects(t[name], h, n, conflict);
      } else {
        assert h == [];
        FreshReflects(n, initialLastCheckOK);
        RecordReflects(Fresh(n, initialLastCheckOK), h, n, conflict);
      }
    } else {
      assert Outcomes(log + [e], k) == Outcomes(log, k);
      assert k in t' <==> k in t;
      if k in t {
        assert t'[k] == t[k];
      }
    }
  }

  /** A query keeps the map in step with the log: it records nothing. */
  lemma QueryConsistent(t: Table, log: seq<Event>, n: nat, threshold: int, name: string)
    requires Consistent(t, log, n)
    ensures Consistent(Query(t, threshold, name).1, log, n)
  {
    var t' := Query(t, threshold, name).1;
    forall k | k in t'
      ensures Reflects(t'[k], Outcomes(log, k), n)
    {
      assert Reflects(t[k], Outcomes(log, k), n);
    }
  }

  /**
    What the verdict means: a command name is allowed to multi-write exactly
    when it was never recorded, or fewer than `threshold` of its last
    `min(n, number recorded)` outcomes were conflicts.
  */
  lemma QueryMeaning(t: Table, log: seq<Event>, n: nat, threshold: int, name: string)
    requires Consistent(t, log, n)
    ensures Query(t, threshold, name).0
        == (Outcomes(log, name) == [] || Count(LastN(Outcomes(log, name), n)) < threshold)
  {
    if name in t {
      RecentConflicts(t[name], Outcomes(log, name), n);
    }
  }

  /**
    With COMMAND_COUNT 10 and THRESHOLD 3: once "Query" has recorded 3
    conflicts and then 7 successes it is denied (3 is not below 3); one more
    success pushes the oldest conflict out and it is allowed again.
  */
  lemma ThresholdExample(m: Metrics, m': Metrics)
    requires Reflects(m, Ones(3) + Zeros(7), 10)
    requires Reflects(m', Ones(3) + Zeros(7) + [false], 10)
    ensures Count(m.window) == 3 && !Query(map["Query" := m], 3, "Query").0
    ensures Count(m'.window) == 2 && Query(map["Query" := m'], 3, "Query").0
  {
    NotYetFull(m, Ones(3) + Zeros(7), 10);
    CountBurst(3, 7);
    RecentConflicts(m', Ones(3) + Zeros(7) + [false], 10);
    SlideOut(3, 7);
  }

  /**
    The registry object. `trackers` is `_conflictInfoMap`; each name maps to
    its own tracker, no two names share a tracker or a bit set. `Repr` is the
    registry together with every tracker and bit set it owns.
  */
  class Registry {
    const commandCount: nat
    const threshold: int
    const initialLastCheckOK: bool
    var trackers: map<string, Tracker>
    ghost var Repr: set<object>

    /**
      The shape of the registry, which only the registry's own fields decide:
      every tracker and its bit set are in `Repr`, each name has its own
      tracker and bit set of COMMAND_COUNT slots, named after it.
    */
    ghost predicate Shape()
      reads this
    {
      && this in Repr
      && commandCount > 0
      && (forall k :: k in trackers ==> trackers[k] in Repr && trackers[k].results in Repr)
      && (forall k, k' :: k in trackers && k' in trackers && k != k' ==>
            trackers[k] != trackers[k'] && trackers[k].results != trackers[k'].results)
      && (forall k :: k in trackers ==>
            trackers[k].commandName == k && trackers[k].results.Length == commandCount)
    }

    ghost predicate Valid()
      reads this, Repr
    {
      && Shape()
      && (forall k :: k in trackers ==> trackers[k].Valid())
    }

    /** The map with each tracker's fields as a value. */
    ghost function Model(): Table
      reads this, trackers.Values, set t | t in trackers.Values :: t.results
    {
      map k | k in trackers :: trackers[k].State()
    }

    constructor (commandCount: nat, threshold: int, initialLastCheckOK: bool)
      requires commandCount > 0
      ensures Valid() && fresh(Repr)
      ensures this.commandCount == commandCount && this.threshold == threshold
      ensures this.initialLastCheckOK == initialLastCheckOK
      ensures Model() == map[]
    {
      this.commandCount := commandCount;
      this.threshold := threshold;
      this.initialLastCheckOK := initialLastCheckOK;
      trackers := map[];
      Repr := {this};
    }

    /** `recordConflict(commandName)`: find or create the tracker, then record a conflict on it. */
    method RecordConflict(commandName: string)
      requires Valid()
      modifies Repr
      ensures Valid() && fresh(Repr - old(Repr))
      ensures Model() == RecordOutcome(old(Model()), commandCount, initialLastCheckOK, commandName, true)
    {
      ghost var before := Model();
      ModelOK();
      var it := FindOrCreate(commandName);
      GrowsByFresh(Repr, it, it.results);
      RecordOn(it, commandName, true);
      RecordOutcomeSplit(before, commandCount, initialLastCheckOK, commandName, true);
    }

    /** `recordSuccess(commandName)`: find or create the tracker, then record a success on it. */
    method RecordSuccess(commandName: string)
      requires Valid()
      modifies Repr
      ensures Valid() && fresh(Repr - old(Repr))
      ensures Model() == RecordOutcome(old(Model()), commandCount, initialLastCheckOK, commandName, false)
    {
      ghost var before := Model();
      ModelOK();
      var it := FindOrCreate(commandName);
      GrowsByFresh(Repr, it, it.results);
      RecordOn(it, commandName, false);
      RecordOutcomeSplit(before, commandCount, initialLastCheckOK, commandName, false);
    }

    /** A footprint that is unchanged or grew by two fresh objects grew only by fresh objects. */
    twostate lemma GrowsByFresh(new repr: set<object>, new a: object, new b: object)
      requires repr == old(Repr) || (repr == old(Repr) + {a, b} && fresh(a) && fresh(b))
      ensures fresh(repr - old(Repr))
    {
    }

    /** The map as a value holds well-formed trackers. */
    lemma ModelOK()
      requires Valid()
      ensures TableOK(Model(), commandCount)
    {
    }

    /**
      The lookup shared by the two record operations: the tracker for
      `name`, inserted in its initial state if it is absent.
    */
    method FindOrCreate(name: string) returns (it: Tracker)
      requires Valid()
      modifies this
      ensures Valid() && name in trackers && trackers[name] == it
      ensures name in old(trackers) ==> Repr == old(Repr)
      ensures name !in old(trackers) ==> Repr == old(Repr) + {it, it.results} && fresh(it) && fresh(it.results)
      ensures Model() == if name in old(Model()) then old(Model())
                         else old(Model())[name := Fresh(commandCount, initialLastCheckOK)]
    {
      if name !in trackers {
        ghost var before := Model();
        it := new Tracker(name, commandCount, initialLastCheckOK);
        trackers := trackers[name := it];
        Repr := Repr + {it, it.results};
        forall k | k in trackers && k != name
          ensures trackers[k] in Repr && trackers[k].results in Repr
          ensures trackers[k] != it && trackers[k].results != it.results
          ensures trackers[k].commandName == k && trackers[k].results.Length == commandCount
          ensures trackers[k].State() == before[k] && trackers[k].Valid()
        {
          var t := trackers[k];
          assert t == old(trackers[k]);
          assert t.State() == old(t.State()) && t.history == old(t.history);
          assert old(t.Valid());
        }
        Reassemble(before, name, Fresh(commandCount, initialLastCheckOK));
      } else {
        it := trackers[name];
      }
    }

    /**
      Record one outcome on the tracker already stored under `name`
      (`it->second.conflict()` / `it->second.success()`): that entry of the
      map records `conflict`, every other entry is unchanged.
    */
    method RecordOn(it: Tracker, name: string, conflict: bool)
      requires Valid() && name in trackers && trackers[name] == it
      modifies it, it.results
      ensures Valid()
      ensures Model() == old(Model())[name := Record(old(Model())[name], conflict)]
    {
      ghost var before := Model();
      if conflict {
        it.Conflict();
        forall k | k in trackers && k != name
          ensures trackers[k].State() == before[k] && trackers[k].Valid()
        {
          var t := trackers[k];
          assert t != it && t.results != it.results;
          assert t.State() == old(t.State()) && t.history == old(t.history);
          assert old(t.Valid());
        }
      } else {
        it.Success();
        forall k | k in trackers && k != name
          ensures trackers[k].State() == before[k] && trackers[k].Valid()
        {
          var t := trackers[k];
          assert t != it && t.results != it.results;
          assert t.State() == old(t.State()) && t.history == old(t.history);
          assert old(t.Valid());
        }
      }
      Reassemble(before, name, Record(before[name], conflict));
    }

    /**
      The proof step closing every operation: the registry has an entry for
      `name` on top of the keys of `before`, every other tracker still has its
      state in `before` and the structure of `Valid` holds, so the map as a
      value is `before` with `name`'s entry set to `m`.
    */
    lemma Reassemble(before: Table, name: string, m: Metrics)
      requires Shape() && name in trackers && trackers.Keys == before.Keys + {name}
      requires forall k :: k in trackers && k != name ==> trackers[k].State() == before[k] && trackers[k].Valid()
      requires trackers[name].State() == m && trackers[name].Valid()
      ensures Valid()
      ensures Model() == before[name := m]
    {
      ModelUpdate(before, name, m);
    }

    /** The map-as-value half of `Reassemble`. */
    lemma ModelUpdate(before: Table, name: string, m: Metrics)
      requires name in trackers && trackers.Keys == before.Keys + {name}
      requires forall k :: k in trackers && k != name ==> trackers[k].State() == before[k]
      requires trackers[name].State() == m
      ensures Model() == before[name := m]
    {
      var model, t' := Model(), before[name := m];
      assert model.Keys == t'.Keys;
      forall k | k in t'
        ensures model[k] == t'[k]
      {
        if k != name {
          assert model[k] == trackers[k].State() == before[k];
        }
      }
    }

    /**
      `multiWriteOK(commandName)`: look the name up without creating it; an
      unknown name is allowed, a known one is allowed exactly when its recent
      conflict count is below the threshold, and that verdict is stored.
    */
    method MultiWriteOK(commandName: string) returns (ok: bool)
      requires Valid()
      modifies Repr
      ensures Valid() && Repr == old(Repr)
      ensures (ok, Model()) == Query(old(Model()), threshold, commandName)
      ensures commandName in trackers && old(trackers[commandName].Faithful()) ==>
                ok == (Count(LastN(trackers[commandName].history, commandCount)) < threshold)
    {
      ghost var before := Model();
      if commandName !in trackers {
        ok := true;
      } else {
        var metric := trackers[commandName];
        var conflicts := metric.RecentConflictCount();
        ok := conflicts < threshold;
        assert Model() == before;
        assert Query(before, threshold, commandName)
            == (ok, before[commandName := before[commandName].(lastCheckOK := ok)]);
        StoreVerdict(metric, commandName, ok);
        assert Model() == before[commandName := before[commandName].(lastCheckOK := ok)];
      }
    }

    /**
      Store the verdict `ok` in the tracker under `name` (`_lastCheckOK`):
      that entry of the map changes only its last verdict, every other entry
      is unchanged.
    */
    method StoreVerdict(metric: Tracker, name: string, ok: bool)
      requires Valid() && name in trackers && trackers[name] == metric
      modifies metric
      ensures Valid() && metric.history == old(metric.history)
      ensures Model() == old(Model())[name := old(Model())[name].(lastCheckOK := ok)]
    {
      ghost var before := Model();
      ghost var st := metric.State();
      metric.lastCheckOK := ok;
      assert metric.State() == st.(lastCheckOK := ok);
      assert metric.Valid();
      forall k | k in trackers && k != name
        ensures trackers[k].State() == before[k] && trackers[k].Valid()
      {
        var t := trackers[k];
        assert t != metric && t.results != metric.results;
        assert t.State() == old(t.State()) && t.history == old(t.history);
        assert old(t.Valid());
      }
      Reassemble(before, name, before[name].(lastCheckOK := ok));
    }
  }
}
