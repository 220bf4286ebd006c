/**
 * The daily trigger of the main loop.
 *
 * Two variables carry the loop: `newDay`, which starts true, and the last
 * processed date, which is only assigned when the body runs.  An iteration
 * runs the body (here an abstract "fire" event) when `newDay` holds, reading
 * the clock to fix the date it processes; at its end it reads the clock again
 * and sets `newDay` to whether that date is strictly later than the last
 * processed one.  The wall clock is an input: each iteration is given the two
 * dates its clock reads would return.
 */
module Scheduler {
  import opened Results

  /** A calendar day in the program's time zone, as a day number. */
  type Date = int

  /**
   * The clock readings of one iteration: `atBody` is the date the body reads
   * when it runs, `atEnd` the date read when `newDay` is recomputed.
   */
  datatype Observation = Observation(atBody: Date, atEnd: Date)

  /** Loop state: the `new_day` flag and the last processed date, if any. */
  datatype State = State(newDay: bool, last: Option<Date>)

  /** The state on entry to the loop, after every start or restart. */
  const Start: State := State(true, None)

  /** A state the loop can be in: the date is known whenever the body will not fix it. */
  predicate Ready(s: State) {
    s.newDay || s.last.Some?
  }

  /** What one iteration leaves behind, and the date it fired for, if it did. */
  datatype StepResult = StepResult(next: State, fired: Option<Date>)

  /** One iteration of the loop. */
  function Step(s: State, o: Observation): (r: StepResult)
    requires Ready(s)
    ensures r.next.last.Some?
    ensures r.fired.Some? <==> s.newDay
    ensures r.fired.Some? ==> r.fired == Some(o.atBody) && r.next.last == r.fired
    ensures r.fired.None? ==> r.next.last == s.last
    ensures r.next.newDay <==> r.next.last.value < o.atEnd
  {
    var fired := if s.newDay then Some(o.atBody) else None;
    var last := if s.newDay then Some(o.atBody) else s.last;
    StepResult(State(last.value < o.atEnd, last), fired)
  }

  /** The loop run over successive observations: one step result per iteration. */
  function Trace(s: State, obs: seq<Observation>): (tr: seq<StepResult>)
    requires Ready(s)
    ensures |tr| == |obs|
    ensures forall i :: 0 <= i < |tr| ==> tr[i].next.last.Some?
    decreases |obs|
  {
    if |obs| == 0 then []
    else
      var r := Step(s, obs[0]);
      [r] + Trace(r.next, obs[1..])
  }

  /** The last processed date after iteration `i`. */
  function LastAfter(tr: seq<StepResult>, i: nat): Date
    requires i < |tr| && tr[i].next.last.Some?
  {
    tr[i].next.last.value
  }

  /** The clock never goes backwards, within an iteration or from one to the next. */
  predicate Monotone(obs: seq<Observation>) {
    && (forall i :: 0 <= i < |obs| ==> obs[i].atBody <= obs[i].atEnd)
    && (forall i :: 0 < i < |obs| ==> obs[i - 1].atEnd <= obs[i].atBody)
  }

  /** Iteration `i` of a run continues from the state iteration `i - 1` left behind. */
  lemma {:induction false} TraceSteps(s: State, obs: seq<Observation>, i: nat)
    requires Ready(s) && 0 < i < |obs|
    ensures Trace(s, obs)[i] == Step(Trace(s, obs)[i - 1].next, obs[i])
    decreases i
  {
    var r := Step(s, obs[0]);
    assert Trace(s, obs)[i] == Trace(r.next, obs[1..])[i - 1];
    if i > 1 {
      TraceSteps(r.next, obs[1..], i - 1);
      assert Trace(s, obs)[i - 1] == Trace(r.next, obs[1..])[i - 2];
    }
  }

  /** The first iteration after a start fires, whatever the clock says. */
  lemma {:induction false} FirstIterationFires(obs: seq<Observation>)
    requires |obs| > 0
    ensures Trace(Start, obs)[0].fired == Some(obs[0].atBody)
    ensures LastAfter(Trace(Start, obs), 0) == obs[0].atBody
  {
    assert Trace(Start, obs)[0] == Step(Start, obs[0]);
  }

  /**
   * After the first iteration, an iteration fires exactly when the date read at
   * the end of the previous one is strictly later than the last processed date;
   * firing records the date the body read, and not firing keeps the old one.
   */
  lemma {:induction false} FiresIff(s: State, obs: seq<Observation>, i: nat)
    requires Ready(s) && 0 < i < |obs|
    ensures var tr := Trace(s, obs);
            && (tr[i].fired.Some? <==> LastAfter(tr, i - 1) < obs[i - 1].atEnd)
            && (tr[i].fired.Some? ==> tr[i].fired == Some(obs[i].atBody) && LastAfter(tr, i) == obs[i].atBody)
            && (tr[i].fired.None? ==> LastAfter(tr, i) == LastAfter(tr, i - 1))
  {
    TraceSteps(s, obs, i);
    if i == 1 {
      assert Trace(s, obs)[0] == Step(s, obs[0]);
    } else {
      TraceSteps(s, obs, i - 1);
    }
  }

  /** With a clock that never goes backwards, the last processed date never decreases. */
  lemma {:induction false} LastNonDecreasing(s: State, obs: seq<Observation>, i: nat, j: nat)
    requires Ready(s) && Monotone(obs) && i <= j < |obs|
    ensures LastAfter(Trace(s, obs), i) <= LastAfter(Trace(s, obs), j)
    decreases j
  {
    if i < j {
      LastNonDecreasing(s, obs, i, j - 1);
      FiresIff(s, obs, j);
    }
  }

  /**
   * With a clock that never goes backwards, every firing after the first is for
   * a date strictly later than that of any earlier firing.
   */
  lemma {:induction false} FireDatesIncrease(s: State, obs: seq<Observation>, i: nat, j: nat)
    requires Ready(s) && Monotone(obs) && i < j < |obs|
    requires Trace(s, obs)[i].fired.Some? && Trace(s, obs)[j].fired.Some?
    ensures Trace(s, obs)[i].fired.value < Trace(s, obs)[j].fired.value
  {
    var tr := Trace(s, obs);
    LastNonDecreasing(s, obs, i, j - 1);
    FiresIff(s, obs, j);
    if i == 0 {
      assert tr[0] == Step(s, obs[0]);
    } else {
      FiresIff(s, obs, i);
    }
  }

  /** Hence the body fires at most once for any calendar date. */
  lemma {:induction false} AtMostOncePerDate(s: State, obs: seq<Observation>, i: nat, j: nat)
    requires Ready(s) && Monotone(obs) && 0 <= i < |obs| && 0 <= j < |obs| && i != j
    requires Trace(s, obs)[i].fired.Some? && Trace(s, obs)[j].fired.Some?
    ensures Trace(s, obs)[i].fired != Trace(s, obs)[j].fired
  {
    if i < j {
      FireDatesIncrease(s, obs, i, j);
    } else {
      FireDatesIncrease(s, obs, j, i);
    }
  }

  /**
   * No observed day is left behind: by the end of the next iteration, the last
   * processed date has caught up with the date read at the end of this one.
   */
  lemma {:induction false} CatchesUp(s: State, obs: seq<Observation>, i: nat)
    requires Ready(s) && Monotone(obs) && i + 1 < |obs|
    ensures obs[i].atEnd <= LastAfter(Trace(s, obs), i + 1)
  {
    FiresIff(s, obs, i + 1);
  }

  /** Two iterations on the same date: the second one does not fire. */
  lemma {:induction false} SameDayExample(d: Date)
    ensures Trace(Start, [Observation(d, d), Observation(d, d)])[1].fired == None
  {
    FiresIff(Start, [Observation(d, d), Observation(d, d)], 1);
  }

  /** A clock that steps back over midnight makes the body fire twice for one date. */
  lemma {:induction false} BackwardClockRefires()
    ensures var tr := Trace(Start, [Observation(5, 6), Observation(5, 5)]);
            tr[0].fired == Some(5) && tr[1].fired == Some(5)
  {
    FiresIff(Start, [Observation(5, 6), Observation(5, 5)], 1);
  }
}
