/** The reader loop (src/async-read-modes.ts:19-47) over the results that its successive
    `read` calls resolve to; one read is under way at a time. */
module ReadModes {
  import opened Wire
  import opened Tools

  datatype End = Done | Unexpected | Waiting

  predicate IsChunk(v: Value) { v.View? }
  predicate IsFailure(v: Value) { v == SRT_ERROR || v.Null? }

  /** The byte arrays among the results, in order. */
  function Received(results: seq<Value>): seq<seq<byte>> {
    if results == [] then []
    else
      var n := |results| - 1;
      if IsChunk(results[n]) then Received(results[..n]) + [results[n].bytes] else Received(results[..n])
  }

  function Failures(results: seq<Value>): seq<Value> {
    if results == [] then []
    else
      var n := |results| - 1;
      if IsFailure(results[n]) then Failures(results[..n]) + [results[n]] else Failures(results[..n])
  }

  lemma TakeOne(results: seq<Value>, k: nat)
    requires k < |results|
    ensures Received(results[..k + 1]) ==
            Received(results[..k]) + (if IsChunk(results[k]) then [results[k].bytes] else [])
    ensures Failures(results[..k + 1]) == Failures(results[..k]) + (if IsFailure(results[k]) then [results[k]] else [])
  {
    assert results[..k + 1][..k] == results[..k];
  }

  lemma ConcatOne(chunks: seq<seq<byte>>, c: seq<byte>)
    ensures (chunks + [c])[..|chunks|] == chunks && Concat(chunks + [c]) == Concat(chunks) + c
  {
    assert (chunks + [c])[..|chunks|] == chunks;
  }

  /** The first k reads have not brought enough. */
  predicate Short(results: seq<Value>, k: nat, minBytesRead: int)
    requires k <= |results|
  {
    |Concat(Received(results[..k]))| < minBytesRead
  }

  /** The loop returns after `used` reads: it went on up to there, and then had enough. */
  predicate EndsAfter(results: seq<Value>, used: nat, minBytesRead: int) {
    && used <= |results| && !Short(results, used, minBytesRead)
    && forall k :: 0 <= k < used ==> Short(results, k, minBytesRead) && (IsChunk(results[k]) || IsFailure(results[k]))
  }

  /** The loop after the first `used` reads. */
  ghost predicate Progress(results: seq<Value>, used: nat, minBytesRead: int,
                           chunks: seq<seq<byte>>, errors: seq<Value>)
  {
    && used <= |results|
    && chunks == Received(results[..used]) && errors == Failures(results[..used])
    && (forall k :: 0 <= k < used ==> Short(results, k, minBytesRead))
    && (forall k :: 0 <= k < used ==> IsChunk(results[k]) || IsFailure(results[k]))
  }

  lemma NoneRead(results: seq<Value>, minBytesRead: int)
    ensures Progress(results, 0, minBytesRead, [], []) && Concat([]) == []
  {
  }

  lemma OneRead(results: seq<Value>, used: nat, minBytesRead: int, chunks: seq<seq<byte>>, errors: seq<Value>)
    requires Progress(results, used, minBytesRead, chunks, errors) && used < |results|
             && |Concat(chunks)| < minBytesRead
    ensures Short(results, used, minBytesRead)
    ensures IsChunk(results[used]) ==>
              && Progress(results, used + 1, minBytesRead, chunks + [results[used].bytes], errors)
              && |Concat(chunks + [results[used].bytes])| == |Concat(chunks)| + |results[used].bytes|
    ensures IsFailure(results[used]) ==> Progress(results, used + 1, minBytesRead, chunks, errors + [results[used]])
    ensures !IsChunk(results[used]) && !IsFailure(results[used]) ==>
              chunks == Received(results[..used + 1]) && errors == Failures(results[..used + 1])
  {
    hide Received, Failures, Concat;
    TakeOne(results, used);
    if IsChunk(results[used]) {
      ConcatOne(chunks, results[used].bytes);
    }
  }

  /** The read that reached the target brought a chunk, and it was needed. */
  lemma LastRead(results: seq<Value>, used: nat, minBytesRead: int, chunks: seq<seq<byte>>, errors: seq<Value>)
    requires Progress(results, used, minBytesRead, chunks, errors) && used > 0 && |Concat(chunks)| >= minBytesRead
    ensures IsChunk(results[used - 1]) && chunks != [] && |Concat(chunks[..|chunks| - 1])| < minBytesRead
    ensures |Concat(chunks)| == |Concat(chunks[..|chunks| - 1])| + |results[used - 1].bytes|
  {
    hide Received, Failures, Concat;
    TakeOne(results, used - 1);
    assert Short(results, used - 1, minBytesRead);
    if IsChunk(results[used - 1]) {
      ConcatOne(Received(results[..used - 1]), results[used - 1].bytes);
    } else {
      assert Received(results[..used - 1]) + [] == Received(results[..used - 1]);
    }
  }

  lemma ProgressMeans(results: seq<Value>, used: nat, minBytesRead: int, chunks: seq<seq<byte>>, errors: seq<Value>)
    requires Progress(results, used, minBytesRead, chunks, errors)
    ensures used <= |results| && chunks == Received(results[..used]) && errors == Failures(results[..used])
    ensures forall k :: 0 <= k < used ==> Short(results, k, minBytesRead)
    ensures forall k :: 0 <= k < used ==> IsChunk(results[k]) || IsFailure(results[k])
  {
  }

  lemma NotOver(results: seq<Value>, used: nat, minBytesRead: int, chunks: seq<seq<byte>>)
    requires used == |results| && chunks == Received(results[..used]) && |Concat(chunks)| < minBytesRead
    requires forall k :: 0 <= k < used ==> Short(results, k, minBytesRead)
    ensures forall u: nat :: !EndsAfter(results, u, minBytesRead)
  {
    hide Received, Concat;
    assert Short(results, used, minBytesRead);
  }

  lemma NotRead(results: seq<Value>, used: nat, minBytesRead: int)
    requires 0 < used <= |results| && !IsChunk(results[used - 1]) && !IsFailure(results[used - 1])
    requires forall k :: 0 <= k < used ==> Short(results, k, minBytesRead)
    ensures forall u: nat :: !EndsAfter(results, u, minBytesRead)
  {
    hide Short;
  }

  lemma Over(results: seq<Value>, used: nat, minBytesRead: int, chunks: seq<seq<byte>>)
    requires used <= |results| && chunks == Received(results[..used]) && |Concat(chunks)| >= minBytesRead
    requires forall k :: 0 <= k < used ==> Short(results, k, minBytesRead)
    requires forall k :: 0 <= k < used ==> IsChunk(results[k]) || IsFailure(results[k])
    ensures EndsAfter(results, used, minBytesRead)
    ensures forall u: nat :: EndsAfter(results, u, minBytesRead) ==> u == used
  {
    hide Received, Concat;
    assert !Short(results, used, minBytesRead);
  }

  /** Where the byte arrays among the first n results are. */
  lemma {:induction false} ReceivedAt(results: seq<Value>, n: nat) returns (at: seq<nat>)
    requires n <= |results|
    ensures Increasing(at, n) && |at| == |Received(results[..n])|
    ensures forall j :: 0 <= j < |at| ==> results[at[j]].View? && Received(results[..n])[j] == results[at[j]].bytes
    ensures forall i :: 0 <= i < n ==> (i in at <==> results[i].View?)
  {
    at := [];
    if n > 0 {
      at := ReceivedAt(results, n - 1);
      TakeOne(results, n - 1);
      hide Received;
      if results[n - 1].View? {
        assert n - 1 !in at;
        at := at + [n - 1];
      }
    }
  }

  /** Where the failed reads are. */
  lemma {:induction false} FailuresAt(results: seq<Value>, n: nat) returns (at: seq<nat>)
    requires n <= |results|
    ensures Increasing(at, n) && |at| == |Failures(results[..n])|
    ensures forall j :: 0 <= j < |at| ==> Failures(results[..n])[j] == results[at[j]]
    ensures forall i :: 0 <= i < n ==> (i in at <==> results[i] == Num(-1) || results[i] == Null)
  {
    at := [];
    if n > 0 {
      at := FailuresAt(results, n - 1);
      TakeOne(results, n - 1);
      hide Failures;
      if results[n - 1] == Num(-1) || results[n - 1] == Null {
        assert n - 1 !in at;
        at := at + [n - 1];
      }
    }
  }

  /** How the loop can end; `Waiting` where the results observed so far run out. */
  ghost predicate Outcome(results: seq<Value>, used: nat, minBytesRead: int,
                          chunks: seq<seq<byte>>, errors: seq<Value>, end: End)
  {
    && used <= |results| && chunks == Received(results[..used]) && errors == Failures(results[..used])
    && (forall k :: 0 <= k < used ==> Short(results, k, minBytesRead))
    && (forall k :: 0 <= k < used - 1 ==> IsChunk(results[k]) || IsFailure(results[k]))
    && match end
       case Done => EndsAfter(results, used, minBytesRead)
       case Unexpected => used > 0 && !IsChunk(results[used - 1]) && !IsFailure(results[used - 1])
       case Waiting =>
         && used == |results| && |Concat(chunks)| < minBytesRead
         && (used > 0 ==> IsChunk(results[used - 1]) || IsFailure(results[used - 1]))
  }

  lemma OutcomeWaiting(results: seq<Value>, used: nat, minBytesRead: int, chunks: seq<seq<byte>>, errors: seq<Value>)
    requires Progress(results, used, minBytesRead, chunks, errors)
    requires used == |results| && |Concat(chunks)| < minBytesRead
    ensures Outcome(results, used, minBytesRead, chunks, errors, Waiting)
  {
  }

  lemma OutcomeUnexpected(results: seq<Value>, used: nat, minBytesRead: int, chunks: seq<seq<byte>>, errors: seq<Value>)
    requires Progress(results, used, minBytesRead, chunks, errors)
    requires used < |results| && |Concat(chunks)| < minBytesRead
    requires !IsChunk(results[used]) && !IsFailure(results[used])
    ensures Outcome(results, used + 1, minBytesRead, chunks, errors, Unexpected)
  {
    OneRead(results, used, minBytesRead, chunks, errors);
    hide Received, Failures, Concat, Short;
  }

  lemma OutcomeDone(results: seq<Value>, used: nat, minBytesRead: int, chunks: seq<seq<byte>>, errors: seq<Value>)
    requires Progress(results, used, minBytesRead, chunks, errors) && |Concat(chunks)| >= minBytesRead
    ensures Outcome(results, used, minBytesRead, chunks, errors, Done)
  {
    hide Received, Failures, Concat;
  }

  /** What the contract of ReadChunks says of the reads made. */
  lemma OutcomeReads(results: seq<Value>, used: nat, minBytesRead: int,
                     chunks: seq<seq<byte>>, errors: seq<Value>, end: End)
    requires Outcome(results, used, minBytesRead, chunks, errors, end)
    ensures used <= |results| && chunks == Received(results[..used]) && errors == Failures(results[..used])
    ensures forall k :: 0 <= k < used ==> Short(results, k, minBytesRead)
    ensures end.Unexpected? <==>
              used > 0 && !results[used - 1].View? && results[used - 1] != Num(-1) && results[used - 1] != Null
    ensures forall i :: 0 <= i < used - 1 ==> results[i].View? || results[i] == Num(-1) || results[i] == Null
  {
    hide Received, Failures, Concat, Short;
  }

  /** And of the end. */
  lemma OutcomeEnd(results: seq<Value>, used: nat, minBytesRead: int,
                   chunks: seq<seq<byte>>, errors: seq<Value>, end: End)
    requires Outcome(results, used, minBytesRead, chunks, errors, end)
    ensures end.Done? ==> EndsAfter(results, used, minBytesRead) && |Concat(chunks)| >= minBytesRead
    ensures forall u: nat :: EndsAfter(results, u, minBytesRead) ==> end.Done? && used == u
    ensures end.Done? && used > 0 ==>
              && IsChunk(results[used - 1]) && chunks != [] && |Concat(chunks[..|chunks| - 1])| < minBytesRead
              && |Concat(chunks)| == |Concat(chunks[..|chunks| - 1])| + |results[used - 1].bytes|
    ensures end.Done? && used == 0 <==> minBytesRead <= 0
    ensures end.Waiting? ==> used == |results| && |Concat(chunks)| < minBytesRead
  {
    match end
    case Done =>
      Over(results, used, minBytesRead, chunks);
      NoBytesYet(results);
      if used > 0 {
        LastRead(results, used, minBytesRead, chunks, errors);
      }
    case Unexpected =>
      NotRead(results, used, minBytesRead);
      ShortAtStart(results, minBytesRead);
    case Waiting =>
      NotOver(results, used, minBytesRead, chunks);
      NoBytesYet(results);
      ShortAtStart(results, minBytesRead);
  }

  lemma ShortAtStart(results: seq<Value>, minBytesRead: int)
    ensures Short(results, 0, minBytesRead) <==> minBytesRead > 0
  {
  }

  /** `results` is what the reads resolve to as far as the run is observed; `used` is how many
      reads were made, `errors` the arguments of the `onError` calls. The flag that would leave the
      loop after a failure is never set, so the branch on it is not reached. */
  method ReadChunks(results: seq<Value>, minBytesRead: int, readBufSize: nat)
    returns (chunks: seq<seq<byte>>, errors: seq<Value>, used: nat, end: End,
             ghost at: seq<nat>, ghost failedAt: seq<nat>)
    ensures used <= |results|
    // the chunks are the byte arrays among the results used, the errors those that are -1 or null
    ensures Increasing(at, used) && |at| == |chunks| && Increasing(failedAt, used) && |failedAt| == |errors|
    ensures forall j :: 0 <= j < |at| ==> results[at[j]].View? && chunks[j] == results[at[j]].bytes
    ensures forall i :: 0 <= i < used ==> (i in at <==> results[i].View?)
    ensures forall j :: 0 <= j < |failedAt| ==> errors[j] == results[failedAt[j]]
    ensures forall i :: 0 <= i < used ==> (i in failedAt <==> results[i] == Num(-1) || results[i] == Null)
    // any other result ends the loop with the exception, and only the last one used can be such
    ensures end.Unexpected? <==>
              used > 0 && !results[used - 1].View? && results[used - 1] != Num(-1) && results[used - 1] != Null
    ensures forall i :: 0 <= i < used - 1 ==> results[i].View? || results[i] == Num(-1) || results[i] == Null
    // nothing read is lost, repeated or reordered, and onError ran once per failed read
    ensures chunks == Received(results[..used]) && errors == Failures(results[..used])
    ensures end.Done? ==> |Concat(chunks)| >= minBytesRead
    ensures end.Done? ==> EndsAfter(results, used, minBytesRead)
    ensures forall u: nat :: EndsAfter(results, u, minBytesRead) ==> end.Done? && used == u
    // the loop stops at the first read that reaches the target
    ensures forall k :: 0 <= k < used ==> Short(results, k, minBytesRead)
    ensures end.Done? && used > 0 ==>
              IsChunk(results[used - 1]) && chunks != [] && |Concat(chunks[..|chunks| - 1])| < minBytesRead
    // native reads are no longer than asked for, so the target is overshot by less than one read
    ensures end.Done? && used > 0 && |results[used - 1].bytes| <= readBufSize ==>
              |Concat(chunks)| <= minBytesRead - 1 + readBufSize
    ensures end.Done? && used == 0 <==> minBytesRead <= 0
    ensures end.Unexpected? <==> used > 0 && !IsChunk(results[used - 1]) && !IsFailure(results[used - 1])
    ensures end.Waiting? ==> used == |results| && |Concat(chunks)| < minBytesRead
  {
    hide Progress, Concat, Received, Failures, Short, EndsAfter, Outcome, Increasing;
    var bytesRead := 0;
    chunks, errors, used, end := [], [], 0, Done;
    var anyFailures := false;
    NoneRead(results, minBytesRead);
    while bytesRead < minBytesRead
      invariant used <= |results| && !anyFailures && end.Done?
      invariant bytesRead == |Concat(chunks)|
      invariant Progress(results, used, minBytesRead, chunks, errors)
      decreases |results| - used
    {
      if used == |results| {
        OutcomeWaiting(results, used, minBytesRead, chunks, errors);
        end := Waiting;
        break;
      }
      var readReturn := results[used];
      OneRead(results, used, minBytesRead, chunks, errors);
      if IsChunk(readReturn) {
        bytesRead := bytesRead + |readReturn.bytes|;
        chunks := chunks + [readReturn.bytes];
      } else if anyFailures {
        break;
      } else if IsFailure(readReturn) {
        errors := errors + [readReturn];
      } else {
        OutcomeUnexpected(results, used, minBytesRead, chunks, errors);
        used := used + 1;
        end := Unexpected;
        break;
      }
      used := used + 1;
    }
    if end.Done? {
      OutcomeDone(results, used, minBytesRead, chunks, errors);
    }
    OutcomeReads(results, used, minBytesRead, chunks, errors, end);
    OutcomeEnd(results, used, minBytesRead, chunks, errors, end);
    at := ReceivedAt(results, used);
    failedAt := FailuresAt(results, used);
  }

  /** Failing reads never end the loop: the branch that should is not reached. */
  lemma {:induction false} OnlyFailures(results: seq<Value>, used: nat, minBytesRead: int)
    requires minBytesRead > 0 && forall k :: 0 <= k < |results| ==> IsFailure(results[k])
    ensures used <= |results| ==> Received(results[..used]) == []
    ensures !EndsAfter(results, used, minBytesRead)
  {
    if 0 < used <= |results| {
      OnlyFailures(results, used - 1, minBytesRead);
      TakeOne(results, used - 1);
    }
  }

  // ----- how much more than asked for is read

  /** Native reads return no more bytes than they are asked for. */
  predicate ReadsAtMost(results: seq<Value>, readBufSize: nat) {
    forall k :: 0 <= k < |results| && IsChunk(results[k]) ==> |results[k].bytes| <= readBufSize
  }

  /** The bytes that the loop has read beyond the minimum when it returns after `used` reads. */
  function Overshoot(results: seq<Value>, used: nat, minBytesRead: int): int
    requires used <= |results|
  {
    |Concat(Received(results[..used]))| - minBytesRead
  }

  /** Reads of one byte up to one byte short of the minimum, and then a full one. */
  function WorstStream(minBytesRead: int, readBufSize: nat): seq<Value> {
    var n := if minBytesRead > 0 then minBytesRead - 1 else 0;
    seq(n, _ => View(0, [0])) + [View(0, seq(readBufSize, _ => 0))]
  }

  lemma {:induction false} SingleBytes(results: seq<Value>, k: nat)
    requires k <= |results| && forall i :: 0 <= i < k ==> results[i] == View(0, [0])
    ensures |Concat(Received(results[..k]))| == k
  {
    if k > 0 {
      SingleBytes(results, k - 1);
      TakeOne(results, k - 1);
      ConcatOne(Received(results[..k - 1]), [0]);
    }
  }

  lemma WorstOvershoot(minBytesRead: int, readBufSize: nat)
    requires minBytesRead > 0 && readBufSize > 0
    ensures var w := WorstStream(minBytesRead, readBufSize);
            && ReadsAtMost(w, readBufSize) && EndsAfter(w, minBytesRead, minBytesRead)
            && Overshoot(w, minBytesRead, minBytesRead) == readBufSize - 1
  {
    var w, n := WorstStream(minBytesRead, readBufSize), minBytesRead - 1;
    hide Received, Concat;
    forall k | 0 <= k <= n ensures Short(w, k, minBytesRead) {
      SingleBytes(w, k);
    }
    SingleBytes(w, n);
    TakeOne(w, n);
    ConcatOne(Received(w[..n]), w[n].bytes);
  }

  lemma OvershootBelowBuffer(results: seq<Value>, used: nat, minBytesRead: int, readBufSize: nat)
    requires minBytesRead > 0 && ReadsAtMost(results, readBufSize) && EndsAfter(results, used, minBytesRead)
    ensures 0 <= Overshoot(results, used, minBytesRead) < readBufSize
  {
    hide Failures, Concat, Received;
    NoBytesYet(results);
    LastRead(results, used, minBytesRead, Received(results[..used]), Failures(results[..used]));
  }

  lemma NoBytesYet(results: seq<Value>)
    ensures |Concat(Received(results[..0]))| == 0
  {
  }

  ghost predicate OvershootBelow(minBytesRead: int, readBufSize: nat, bound: int) {
    forall results: seq<Value>, used: nat ::
      ReadsAtMost(results, readBufSize) && EndsAfter(results, used, minBytesRead) ==>
        Overshoot(results, used, minBytesRead) < bound
  }

  /** The documented bound: whatever is read, the amount exceeds the minimum by less than `mtu`. It
      holds exactly when no read can bring more than `mtu` bytes; without a positive minimum nothing
      is read, and with reads of no bytes the loop does not return. */
  lemma DocumentedBoundExact(minBytesRead: int, readBufSize: nat, mtu: int)
    ensures OvershootBelow(minBytesRead, readBufSize, mtu) <==>
            if minBytesRead <= 0 then -minBytesRead < mtu else readBufSize == 0 || readBufSize <= mtu
  {
    hide ReadsAtMost, Short, Overshoot;
    if minBytesRead <= 0 {
      NothingAsked(minBytesRead, readBufSize);
    } else if readBufSize > 0 {
      WorstOvershoot(minBytesRead, readBufSize);
    }
    if minBytesRead > 0 {
      forall results: seq<Value>, used: nat | ReadsAtMost(results, readBufSize)
          && EndsAfter(results, used, minBytesRead)
        ensures Overshoot(results, used, minBytesRead) < readBufSize && readBufSize > 0
      {
        OvershootBelowBuffer(results, used, minBytesRead, readBufSize);
      }
    }
  }

  lemma NothingAsked(minBytesRead: int, readBufSize: nat)
    requires minBytesRead <= 0
    ensures ReadsAtMost([], readBufSize) && EndsAfter([], 0, minBytesRead)
    ensures forall results: seq<Value>, used: nat :: EndsAfter(results, used, minBytesRead) ==>
              Overshoot(results, used, minBytesRead) == -minBytesRead
  {
    forall results: seq<Value>, used: nat | EndsAfter(results, used, minBytesRead)
      ensures Overshoot(results, used, minBytesRead) == -minBytesRead
    {
      NoBytesYet(results);
      assert !Short(results, 0, minBytesRead);
    }
  }

  const DEFAULT_MTU_SIZE := 1316
  const READ_BUF_SIZE := 16 * 1024

  /** With the default arguments the documented bound fails: one read may fill the whole buffer. */
  lemma DefaultsBreakTheBound()
    ensures exists results, used: nat ::
              && ReadsAtMost(results, READ_BUF_SIZE) && EndsAfter(results, used, DEFAULT_MTU_SIZE)
              && Overshoot(results, used, DEFAULT_MTU_SIZE) >= DEFAULT_MTU_SIZE
  {
    hide ReadsAtMost, EndsAfter, Overshoot, WorstStream;
    WorstOvershoot(DEFAULT_MTU_SIZE, READ_BUF_SIZE);
  }
}
