/**
 * Manual memory management as a log: the engine deinitializes and
 * deallocates the selectors and user state it allocated itself, and the
 * model records each such release so that "released exactly once" can be
 * stated.
 */
module Memory {
  datatype MemoryEvent = Deinitialized(o: object) | Deallocated(o: object)

  /** How many times `ev` occurs in `log`. */
  function Occurrences(log: seq<MemoryEvent>, ev: MemoryEvent): (n: nat)
    ensures n <= |log|
    ensures n == 0 <==> ev !in log
  {
    if |log| == 0 then 0
    else (if log[0] == ev then 1 else 0) + Occurrences(log[1..], ev)
  }

  lemma {:induction false} OccurrencesOfConcat(a: seq<MemoryEvent>, b: seq<MemoryEvent>, ev: MemoryEvent)
    ensures Occurrences(a + b, ev) == Occurrences(a, ev) + Occurrences(b, ev)
  {
    if |a| == 0 {
      assert a + b == b;
    } else {
      assert (a + b)[1..] == a[1..] + b;
      OccurrencesOfConcat(a[1..], b, ev);
    }
  }

  /** How many times `log` deallocates `o`. */
  function Deallocations(log: seq<MemoryEvent>, o: object): nat
  {
    Occurrences(log, Deallocated(o))
  }

  /** `o` is deinitialized and deallocated once each, the deinitialization first. */
  predicate ReleasedOnce(log: seq<MemoryEvent>, o: object)
  {
    Occurrences(log, Deinitialized(o)) == 1 && Occurrences(log, Deallocated(o)) == 1 &&
    exists i, j :: 0 <= i < j < |log| && log[i] == Deinitialized(o) && log[j] == Deallocated(o)
  }

  /** A log that releases `o` and nothing else about `o` around it releases `o` exactly once. */
  lemma ReleasedOnceBetween(before: seq<MemoryEvent>, o: object, after: seq<MemoryEvent>)
    requires Deinitialized(o) !in before && Deallocated(o) !in before
    requires Deinitialized(o) !in after && Deallocated(o) !in after
    ensures ReleasedOnce(before + [Deinitialized(o), Deallocated(o)] + after, o)
  {
    var log := before + [Deinitialized(o), Deallocated(o)] + after;
    OccurrencesOfConcat(before, [Deinitialized(o), Deallocated(o)], Deinitialized(o));
    OccurrencesOfConcat(before + [Deinitialized(o), Deallocated(o)], after, Deinitialized(o));
    OccurrencesOfConcat(before, [Deinitialized(o), Deallocated(o)], Deallocated(o));
    OccurrencesOfConcat(before + [Deinitialized(o), Deallocated(o)], after, Deallocated(o));
    assert [Deinitialized(o), Deallocated(o)][1..] == [Deallocated(o)];
    assert log[|before|] == Deinitialized(o) && log[|before| + 1] == Deallocated(o);
  }

  /** Surrounding a log that releases `o` once with logs that never mention `o` keeps it released once. */
  lemma ReleasedOnceWithin(before: seq<MemoryEvent>, log: seq<MemoryEvent>, after: seq<MemoryEvent>, o: object)
    requires Deinitialized(o) !in before && Deallocated(o) !in before
    requires Deinitialized(o) !in after && Deallocated(o) !in after
    requires ReleasedOnce(log, o)
    ensures ReleasedOnce(before + log + after, o)
  {
    OccurrencesOfConcat(before, log, Deinitialized(o));
    OccurrencesOfConcat(before + log, after, Deinitialized(o));
    OccurrencesOfConcat(before, log, Deallocated(o));
    OccurrencesOfConcat(before + log, after, Deallocated(o));
    var i, j :| 0 <= i < j < |log| && log[i] == Deinitialized(o) && log[j] == Deallocated(o);
    assert (before + log + after)[|before| + i] == Deinitialized(o);
    assert (before + log + after)[|before| + j] == Deallocated(o);
  }

  /** Releasing each of `objects` in turn by deinitializing it and then deallocating it. */
  function ReleaseLog(objects: seq<object>): (log: seq<MemoryEvent>)
    ensures |log| == 2 * |objects|
  {
    if |objects| == 0 then []
    else [Deinitialized(objects[0]), Deallocated(objects[0])] + ReleaseLog(objects[1..])
  }

  /** Deinitializing each of `objects` in turn, without deallocating any. */
  function DeinitializeLog(objects: seq<object>): (log: seq<MemoryEvent>)
    ensures |log| == |objects|
  {
    if |objects| == 0 then []
    else [Deinitialized(objects[0])] + DeinitializeLog(objects[1..])
  }

  /** Deinitializing alone never deallocates anything. */
  lemma {:induction false} DeinitializeLogDeallocatesNothing(objects: seq<object>, o: object)
    ensures Deallocations(DeinitializeLog(objects), o) == 0
  {
    if |objects| > 0 {
      DeinitializeLogDeallocatesNothing(objects[1..], o);
      OccurrencesOfConcat([Deinitialized(objects[0])], DeinitializeLog(objects[1..]), Deallocated(o));
    }
  }

  /** An object not among `objects` does not appear in their release log. */
  lemma {:induction false} ReleaseLogMentionsOnlyItsObjects(objects: seq<object>, o: object)
    requires o !in objects
    ensures Deinitialized(o) !in ReleaseLog(objects) && Deallocated(o) !in ReleaseLog(objects)
  {
    if |objects| > 0 {
      ReleaseLogMentionsOnlyItsObjects(objects[1..], o);
    }
  }

  lemma {:induction false} ReleaseLogOfConcat(a: seq<object>, b: seq<object>)
    ensures ReleaseLog(a + b) == ReleaseLog(a) + ReleaseLog(b)
  {
    if |a| == 0 {
      assert a + b == b;
    } else {
      assert (a + b)[1..] == a[1..] + b;
      ReleaseLogOfConcat(a[1..], b);
    }
  }

  /** Releasing a run with `o` in the middle releases the run before it, then `o`, then the run after it. */
  lemma ReleaseLogAround(front: seq<object>, o: object, back: seq<object>)
    ensures ReleaseLog(front + [o] + back) == ReleaseLog(front) + [Deinitialized(o), Deallocated(o)] + ReleaseLog(back)
  {
    ReleaseLogOfConcat(front + [o], back);
    ReleaseLogOfConcat(front, [o]);
    assert [o][1..] == [];
  }

  /** In a sequence without repetitions, the element at `i` occurs neither before nor after `i`. */
  lemma DistinctSplit(objects: seq<object>, i: nat)
    requires i < |objects|
    requires forall j, k :: 0 <= j < k < |objects| ==> objects[j] != objects[k]
    ensures objects == objects[..i] + [objects[i]] + objects[i + 1..]
    ensures objects[i] !in objects[..i] && objects[i] !in objects[i + 1..]
  {
    var front, back := objects[..i], objects[i + 1..];
    assert forall j :: 0 <= j < |front| ==> front[j] != objects[i];
    assert forall j :: 0 <= j < |back| ==> back[j] == objects[i + 1 + j] != objects[i];
  }

  /** Releasing distinct objects in turn releases each of them exactly once. */
  lemma ReleaseLogReleasesEachOnce(objects: seq<object>, i: nat)
    requires i < |objects|
    requires forall j, k :: 0 <= j < k < |objects| ==> objects[j] != objects[k]
    ensures ReleasedOnce(ReleaseLog(objects), objects[i])
  {
    var o := objects[i];
    var front, back := objects[..i], objects[i + 1..];
    DistinctSplit(objects, i);
    ReleaseLogMentionsOnlyItsObjects(front, o);
    ReleaseLogMentionsOnlyItsObjects(back, o);
    ReleasedOnceBetween(ReleaseLog(front), o, ReleaseLog(back));
    ReleaseLogAround(front, o, back);
  }
}
