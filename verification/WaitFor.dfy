/** The polling loop `waitForCondition` (src/tools.ts:99-192). Time is left open: what the
    condition answers, whether the timer fires while the loop is suspended and whether a deadline
    has passed when it is compared with the clock are given, attempt by attempt, as inputs. */
module WaitFor {
  import opened Wire

  /** `Stuck`: the condition throws or never answers, so the loop stays suspended. */
  datatype Answer = Yes | No | Die | Stuck

  /** What happens around one attempt; the last four only with a deadline set. */
  datatype Turn = Turn(ret: Answer, timerInCondition: bool, passedAfterCondition: bool,
                       timerInWait: bool, passedAfterWait: bool)

  /** The attempt fails and no deadline ends it; the timer may still fire while the loop sleeps. */
  predicate Survived(t: Turn, hasDeadline: bool) {
    t.ret.No? && (hasDeadline ==> !t.timerInCondition && !t.passedAfterCondition && !t.passedAfterWait)
  }

  predicate TimerInWait(t: Turn, hasDeadline: bool) {
    hasDeadline && t.timerInWait
  }

  /** A limit that is absent or not positive means no limit. */
  function Limit(maxAttempts: Option<real>): Option<real> {
    if maxAttempts.Some? && maxAttempts.value > 0.0 then maxAttempts else None
  }

  predicate Whole(r: real) {
    r == r.Floor as real
  }

  /** Attempt i is refused and nothing ends the wait before the next attempt. */
  predicate Undecided(t: Turn, i: nat, max: Option<real>, hasDeadline: bool) {
    Survived(t, hasDeadline) && !TimerInWait(t, hasDeadline) && max != Some(i as real)
  }

  /** The attempt with index j is within the limit and the first that decides the wait. */
  predicate Decides(turns: seq<Turn>, j: nat, max: Option<real>, hasDeadline: bool) {
    && j < |turns| && (max.Some? ==> (j + 1) as real <= max.value)
    && !Undecided(turns[j], j + 1, max, hasDeadline)
    && forall i :: 0 <= i < j ==> Undecided(turns[i], i + 1, max, hasDeadline)
  }

  /** No attempt that `turns` tells of decides, and a further one is within the limit. */
  predicate GoesOn(turns: seq<Turn>, max: Option<real>, hasDeadline: bool) {
    && (max.Some? ==> (|turns| + 1) as real <= max.value)
    && forall i :: 0 <= i < |turns| ==> Undecided(turns[i], i + 1, max, hasDeadline)
  }

  /** The condition never answers and no timer fires meanwhile. */
  predicate Hangs(t: Turn, hasDeadline: bool) {
    t.ret.Stuck? && !(hasDeadline && t.timerInCondition)
  }

  /** What the deciding attempt i resolves the wait to. */
  function Verdict(t: Turn, i: nat, hasDeadline: bool): real {
    if t.ret.Yes? && !(hasDeadline && t.timerInCondition) then i as real else -(i as real)
  }

  lemma DecidesOnce(turns: seq<Turn>, j: nat, max: Option<real>, hasDeadline: bool)
    requires Decides(turns, j, max, hasDeadline)
    ensures forall k: nat :: Decides(turns, k, max, hasDeadline) ==> k == j
    ensures !GoesOn(turns, max, hasDeadline)
  {
    hide Undecided;
    forall k: nat | Decides(turns, k, max, hasDeadline) ensures k == j {
      assert !(j < k) && !(k < j);
    }
  }

  lemma NoneDecides(turns: seq<Turn>, n: nat, max: Option<real>, hasDeadline: bool)
    requires n <= |turns| && forall i :: 0 <= i < n ==> Undecided(turns[i], i + 1, max, hasDeadline)
    requires n == |turns| || (max.Some? && (n + 1) as real > max.value)
    ensures forall k: nat :: !Decides(turns, k, max, hasDeadline)
  {
    hide Undecided;
    forall k: nat ensures !Decides(turns, k, max, hasDeadline) {
      if k < n {
        assert Undecided(turns[k], k + 1, max, hasDeadline);
      }
    }
  }

  /** The attempts with an index below n are over and the limit allows no further one. */
  predicate Exhausted(turns: seq<Turn>, n: nat, max: Option<real>, hasDeadline: bool) {
    && n <= |turns| && max.Some? && n as real < max.value < (n + 1) as real
    && (forall i :: 0 <= i < n ==> Survived(turns[i], hasDeadline))
    && (forall i :: 0 <= i < n - 1 ==> !TimerInWait(turns[i], hasDeadline))
  }

  /** How the attempts can end: one of them decides, the given turns run out, or the loop is left. */
  predicate Ended(turns: seq<Turn>, max: Option<real>, hasDeadline: bool,
                  resolves: seq<real>, attempts: nat, pastLoop: bool)
  {
    if pastLoop then
      && Exhausted(turns, attempts, max, hasDeadline)
      && resolves == if attempts > 0 && TimerInWait(turns[attempts - 1], hasDeadline)
                     then [-(attempts as real), -max.value] else [-max.value]
    else if attempts > 0 && Decides(turns, attempts - 1, max, hasDeadline) then
      var t := turns[attempts - 1];
      && !Exhausted(turns, attempts, max, hasDeadline)
      && (resolves == [] <==> Hangs(t, hasDeadline))
      && forall k :: 0 <= k < |resolves| ==> resolves[k] == Verdict(t, attempts, hasDeadline)
    else
      attempts == |turns| && resolves == [] && GoesOn(turns, max, hasDeadline)
  }

  /** The promise executor, for a positive limit or none. */
  method Execute(max: Option<real>, hasDeadline: bool, expiredAtEntry: bool, turns: seq<Turn>)
    returns (resolves: seq<real>, attempts: nat, pastLoop: bool)
    requires max.Some? ==> max.value > 0.0
    ensures expiredAtEntry ==> resolves == [0.0] && attempts == 0 && !pastLoop
    ensures !expiredAtEntry ==> Ended(turns, max, hasDeadline, resolves, attempts, pastLoop)
  {
    resolves, attempts, pastLoop := [], 0, false;
    var i := 1;
    var resolved := false;
    if expiredAtEntry {
      return [0.0], 0, false;
    }
    while max.None? || i as real <= max.value
      invariant 1 <= i && attempts == i - 1 <= |turns|
      invariant max.Some? ==> (i - 1) as real <= max.value
      invariant max.Some? && Whole(max.value) ==> (i - 1) as real < max.value
      invariant forall j :: 0 <= j < i - 1 ==> Survived(turns[j], hasDeadline) && max != Some((j + 1) as real)
      invariant forall j :: 0 <= j < i - 2 ==> !TimerInWait(turns[j], hasDeadline)
      invariant resolved <==> i > 1 && TimerInWait(turns[i - 2], hasDeadline)
      invariant resolves == if resolved then [-((i - 1) as real)] else []
      decreases |turns| + 1 - i
    {
      if resolved || i > |turns| {
        return;
      }
      attempts := i;
      var t := turns[i - 1];
      if hasDeadline && t.timerInCondition {
        resolved, resolves := true, resolves + [-(i as real)];
      }
      if resolved || t.ret.Stuck? {
        return;
      }
      if t.ret.Yes? {
        resolves := resolves + [i as real];
        return;
      }
      if t.ret.Die? || max == Some(i as real) {
        resolves := resolves + [-(i as real)];
        return;
      }
      if hasDeadline && t.passedAfterCondition {
        resolves := resolves + [-(i as real)];
        return;
      }
      if hasDeadline && t.timerInWait {
        resolved, resolves := true, resolves + [-(i as real)];
      }
      if hasDeadline && t.passedAfterWait {
        resolves := resolves + [-(i as real)];
        return;
      }
      i := i + 1;
    }
    resolves := resolves + [-max.value];
    pastLoop := true;
  }

  lemma DecidedMeans(turns: seq<Turn>, max: Option<real>, hasDeadline: bool,
                     resolves: seq<real>, attempts: nat, pastLoop: bool)
    requires Ended(turns, max, hasDeadline, resolves, attempts, pastLoop)
    ensures forall j: nat :: Decides(turns, j, max, hasDeadline) ==>
              && attempts == j + 1
              && if Hangs(turns[j], hasDeadline) then resolves == []
                 else resolves != [] && resolves[0] == Verdict(turns[j], j + 1, hasDeadline)
    ensures resolves == [] <==>
              || GoesOn(turns, max, hasDeadline)
              || exists j: nat :: Decides(turns, j, max, hasDeadline) && Hangs(turns[j], hasDeadline)
    ensures GoesOn(turns, max, hasDeadline) ==> attempts == |turns|
  {
    if attempts > 0 && Decides(turns, attempts - 1, max, hasDeadline) {
      DecidesOnce(turns, attempts - 1, max, hasDeadline);
    } else if pastLoop && attempts > 0 && TimerInWait(turns[attempts - 1], hasDeadline) {
      assert Decides(turns, attempts - 1, max, hasDeadline);
    } else {
      NoneDecides(turns, attempts, max, hasDeadline);
    }
  }

  lemma PastLoopMeans(turns: seq<Turn>, max: Option<real>, hasDeadline: bool,
                      resolves: seq<real>, attempts: nat, pastLoop: bool)
    requires Ended(turns, max, hasDeadline, resolves, attempts, pastLoop)
    ensures pastLoop <==>
              && max.Some? && !Whole(max.value) && max.value > 0.0
              && var last := max.value.Floor;
                 && last <= |turns|
                 && (forall j :: 0 <= j < last ==> Survived(turns[j], hasDeadline))
                 && (forall j :: 0 <= j < last - 1 ==> !TimerInWait(turns[j], hasDeadline))
    ensures pastLoop ==> attempts == max.value.Floor
  {
    hide Survived, TimerInWait;
    if max.Some? && !Whole(max.value) && max.value > 0.0 {
      var last := max.value.Floor;
      assert last as real < max.value < (last + 1) as real;
    }
  }

  lemma ValueMeans(turns: seq<Turn>, max: Option<real>, hasDeadline: bool,
                   resolves: seq<real>, attempts: nat, pastLoop: bool)
    requires Ended(turns, max, hasDeadline, resolves, attempts, pastLoop)
    ensures attempts <= |turns|
    ensures !pastLoop ==> forall j, k :: 0 <= j < k < |resolves| ==> resolves[j] == resolves[k]
    ensures pastLoop ==> resolves == if attempts > 0 && TimerInWait(turns[attempts - 1], hasDeadline)
                                     then [-(attempts as real), -max.value] else [-max.value]
    ensures resolves != [] ==> resolves[0] != 0.0
    ensures resolves != [] && resolves[0] > 0.0 ==>
              && attempts > 0 && resolves[0] == attempts as real && turns[attempts - 1].ret.Yes?
              && forall j :: 0 <= j < attempts - 1 ==> turns[j].ret.No?
    ensures resolves != [] && resolves[0] < 0.0 && !pastLoop ==>
              && attempts > 0 && resolves[0] == -(attempts as real)
              && (max.Some? ==> attempts as real <= max.value)
              && (forall j :: 0 <= j < attempts - 1 ==> turns[j].ret.No?)
              && (turns[attempts - 1].ret.Yes? ==> hasDeadline && turns[attempts - 1].timerInCondition)
              && (turns[attempts - 1].ret.Die? || max == Some(attempts as real) || hasDeadline)
  {
  }

  /** The condition answers false, and neither the timer fires nor the deadline passes. */
  predicate Refused(t: Turn, hasDeadline: bool) {
    && t.ret.No?
    && !(hasDeadline && (t.timerInCondition || t.passedAfterCondition || t.timerInWait || t.passedAfterWait))
  }

  /** What the wait resolves to, by the last attempt begun, whose number is n. */
  predicate LastAttempt(t: Turn, n: real, maxAttempts: Option<real>, hasDeadline: bool,
                        resolves: seq<real>, pastLoop: bool)
  {
    if hasDeadline && t.timerInCondition then Settles(resolves, -n)
    else match t.ret
      case Yes => Settles(resolves, n)
      case Die => Settles(resolves, -n)
      case Stuck => resolves == []
      case No =>
        if maxAttempts == Some(n) || !Refused(t, hasDeadline) then Settles(resolves, -n)
        else if pastLoop && maxAttempts.Some? then resolves == [-maxAttempts.value]
        else resolves == []
  }

  /** The promise takes the value of the first `resolve`. */
  predicate Settles(resolves: seq<real>, value: real) {
    resolves != [] && resolves[0] == value
  }

  lemma AttemptsMean(turns: seq<Turn>, maxAttempts: Option<real>, hasDeadline: bool,
                     resolves: seq<real>, attempts: nat, pastLoop: bool)
    requires Ended(turns, Limit(maxAttempts), hasDeadline, resolves, attempts, pastLoop)
    ensures attempts <= |turns| && forall j :: 0 <= j < attempts - 1 ==> Refused(turns[j], hasDeadline)
    ensures attempts > 0 ==>
              LastAttempt(turns[attempts - 1], attempts as real, maxAttempts, hasDeadline, resolves, pastLoop)
  {
  }

  lemma LimitMeans(turns: seq<Turn>, maxAttempts: Option<real>, hasDeadline: bool,
                   resolves: seq<real>, attempts: nat, pastLoop: bool)
    requires Ended(turns, Limit(maxAttempts), hasDeadline, resolves, attempts, pastLoop)
    ensures maxAttempts.Some? && maxAttempts.value > 0.0 ==> attempts as real <= maxAttempts.value
    ensures maxAttempts.Some? && 0.0 < maxAttempts.value <= |turns| as real ==>
              (forall t :: t in turns ==> !t.ret.Stuck?) ==> resolves != []
    ensures !hasDeadline && (maxAttempts.None? || maxAttempts.value <= 0.0) ==>
              (forall t :: t in turns ==> t.ret.No?) ==> resolves == [] && attempts == |turns|
  {
    if attempts > 0 && Decides(turns, attempts - 1, Limit(maxAttempts), hasDeadline) {
      assert turns[attempts - 1] in turns;
    }
  }

  /** A run of the loop as far as `turns` tells: the `resolve` calls in order, the number of
      attempts begun, and whether the resolve after the loop was reached. */
  method WaitForCondition(maxAttempts: Option<real>, hasDeadline: bool, expiredAtEntry: bool, turns: seq<Turn>)
    returns (resolves: seq<real>, attempts: nat, pastLoop: bool)
    // every resolve of one run carries the same value, but for the one after the loop
    ensures !pastLoop ==> forall j, k :: 0 <= j < k < |resolves| ==> resolves[j] == resolves[k]
    ensures attempts <= |turns|
    ensures !expiredAtEntry ==> Ended(turns, Limit(maxAttempts), hasDeadline, resolves, attempts, pastLoop)
    // a positive limit limits, and with enough turns some attempt decides; any other limit is none
    ensures maxAttempts.Some? && maxAttempts.value > 0.0 ==> attempts as real <= maxAttempts.value
    ensures !expiredAtEntry && maxAttempts.Some? && 0.0 < maxAttempts.value <= |turns| as real ==>
              (forall t :: t in turns ==> !t.ret.Stuck?) ==> resolves != []
    ensures !expiredAtEntry && !hasDeadline && (maxAttempts.None? || maxAttempts.value <= 0.0) ==>
              (forall t :: t in turns ==> t.ret.No?) ==> resolves == [] && attempts == |turns|
    // up to the last attempt begun the condition answers false, and neither timer nor deadline passes
    ensures forall j :: 0 <= j < attempts - 1 ==> Refused(turns[j], hasDeadline)
    // what the last attempt does
    ensures attempts > 0 ==>
              LastAttempt(turns[attempts - 1], attempts as real, maxAttempts, hasDeadline, resolves, pastLoop)
    // zero only for a deadline that had passed at entry
    ensures expiredAtEntry ==> resolves == [0.0] && attempts == 0
    ensures resolves != [] && resolves[0] == 0.0 ==> expiredAtEntry
    // the first attempt that decides the wait is the last one begun, and its verdict is the value
    ensures !expiredAtEntry ==>
              forall j: nat :: Decides(turns, j, Limit(maxAttempts), hasDeadline) ==>
                && attempts == j + 1
                && if Hangs(turns[j], hasDeadline) then resolves == []
                   else resolves != [] && resolves[0] == Verdict(turns[j], j + 1, hasDeadline)
    // nothing is resolved exactly when the condition hangs, or when it is to be asked again
    ensures resolves == [] <==>
              && !expiredAtEntry
              && (GoesOn(turns, Limit(maxAttempts), hasDeadline)
                  || exists j: nat :: Decides(turns, j, Limit(maxAttempts), hasDeadline)
                      && Hangs(turns[j], hasDeadline))
    ensures !expiredAtEntry && GoesOn(turns, Limit(maxAttempts), hasDeadline) ==> attempts == |turns|
    // a positive value is the number of the first attempt that answered true
    ensures resolves != [] && resolves[0] > 0.0 ==>
              && attempts > 0 && resolves[0] == attempts as real && turns[attempts - 1].ret.Yes?
              && forall j :: 0 <= j < attempts - 1 ==> turns[j].ret.No?
    // a negative one counts the attempts begun, none of which was accepted, and has a cause
    ensures resolves != [] && resolves[0] < 0.0 && !pastLoop ==>
              && attempts > 0 && resolves[0] == -(attempts as real)
              && (Limit(maxAttempts).Some? ==> attempts as real <= Limit(maxAttempts).value)
              && (forall j :: 0 <= j < attempts - 1 ==> turns[j].ret.No?)
              && (turns[attempts - 1].ret.Yes? ==> hasDeadline && turns[attempts - 1].timerInCondition)
              && (turns[attempts - 1].ret.Die? || Limit(maxAttempts) == Some(attempts as real) || hasDeadline)
    // the resolve after the loop is reached exactly when the limit is not a whole number and
    // that many attempts pass, the timer firing at most in the sleep after the last of them
    ensures pastLoop <==>
              && !expiredAtEntry && Limit(maxAttempts).Some? && !Whole(Limit(maxAttempts).value)
              && var last := Limit(maxAttempts).value.Floor;
                 && last <= |turns|
                 && (forall j :: 0 <= j < last ==> Survived(turns[j], hasDeadline))
                 && (forall j :: 0 <= j < last - 1 ==> !TimerInWait(turns[j], hasDeadline))
    ensures pastLoop ==>
              var last := Limit(maxAttempts).value.Floor;
              resolves == if 0 < last && TimerInWait(turns[last - 1], hasDeadline)
                          then [-(last as real), -Limit(maxAttempts).value] else [-Limit(maxAttempts).value]
  {
    var max := Limit(maxAttempts);
    resolves, attempts, pastLoop := Execute(max, hasDeadline, expiredAtEntry, turns);
    if !expiredAtEntry {
      hide Ended, GoesOn, Refused, LastAttempt;
      DecidedMeans(turns, max, hasDeadline, resolves, attempts, pastLoop);
      PastLoopMeans(turns, max, hasDeadline, resolves, attempts, pastLoop);
      ValueMeans(turns, max, hasDeadline, resolves, attempts, pastLoop);
      AttemptsMean(turns, maxAttempts, hasDeadline, resolves, attempts, pastLoop);
      LimitMeans(turns, maxAttempts, hasDeadline, resolves, attempts, pastLoop);
    }
  }

  // ----- what a negative value means

  /** The documented meaning: a negative value says that the condition asked to stop. */
  ghost predicate NegativeMeansStop(max: Option<real>, hasDeadline: bool) {
    forall turns: seq<Turn>, resolves: seq<real>, attempts: nat, pastLoop: bool ::
      Ended(turns, max, hasDeadline, resolves, attempts, pastLoop) && resolves != [] && resolves[0] < 0.0 ==>
        0 < attempts <= |turns| && turns[attempts - 1].ret.Die?
  }

  function Refusals(n: nat, late: bool): seq<Turn> {
    seq(n, _ => Turn(No, false, late, false, false))
  }

  lemma LimitIsNegative(max: Option<real>, hasDeadline: bool, n: nat)
    requires max.Some? && max.value > 0.0 && n == max.value.Floor
    ensures var pastLoop := !Whole(max.value);
            var value := if pastLoop then -max.value else -(n as real);
            Ended(Refusals(n, false), max, hasDeadline, [value], n, pastLoop) && value < 0.0
  {
    assert n as real <= max.value < (n + 1) as real;
  }

  lemma DeadlineIsNegative()
    ensures Ended(Refusals(1, true), None, true, [-1.0], 1, false)
  {
  }

  lemma OtherCause(turns: seq<Turn>, max: Option<real>, hasDeadline: bool, value: real, attempts: nat, pastLoop: bool)
    requires Ended(turns, max, hasDeadline, [value], attempts, pastLoop) && value < 0.0
    requires attempts == |turns| && forall k :: 0 <= k < |turns| ==> turns[k].ret.No?
    ensures !NegativeMeansStop(max, hasDeadline)
  {
    hide Ended;
    assert [value][0] == value;
  }

  /** It holds exactly without a limit and without a deadline. */
  lemma NegativeMeansStopExact(maxAttempts: Option<real>, hasDeadline: bool)
    ensures NegativeMeansStop(Limit(maxAttempts), hasDeadline) <==> Limit(maxAttempts).None? && !hasDeadline
  {
    var max := Limit(maxAttempts);
    hide GoesOn;
    if max.Some? {
      var n := max.value.Floor;
      LimitIsNegative(max, hasDeadline, n);
      var pastLoop := !Whole(max.value);
      OtherCause(Refusals(n, false), max, hasDeadline, if pastLoop then -max.value else -(n as real), n, pastLoop);
    } else if hasDeadline {
      DeadlineIsNegative();
      OtherCause(Refusals(1, true), max, hasDeadline, -1.0, 1, false);
    }
  }
}
