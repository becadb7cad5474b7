/** The adaptive batch size of packages/node/src/ethereum/ethers/json-rpc-batch-provider.ts. */
module AdaptiveSize {
  import opened Collections

  const INTERVAL: nat := 10
  const MAX_ADAPTED := 10

  /** The three fields that `adjustBatchSize` updates. */
  datatype Sizes = Sizes(batchSize: int, successes: nat, failures: nat)

  function Adjust(s: Sizes, success: bool): Sizes {
    var successes := s.successes + (if success then 1 else 0);
    var failures := s.failures + (if success then 0 else 1);
    var total := successes + failures;
    if total % INTERVAL != 0 then Sizes(s.batchSize, successes, failures)
    else
      var rate := successes as real / total as real;
      var size := if rate < 0.9 && s.batchSize > 1 then s.batchSize - 1
                  else if rate > 0.95 && s.batchSize < MAX_ADAPTED then s.batchSize + 1
                  else s.batchSize;
      Sizes(size, 0, 0)
  }

  /** A whole sequence of reported outcomes. */
  function AdjustAll(s: Sizes, outcomes: seq<bool>): Sizes {
    if outcomes == [] then s
    else Adjust(AdjustAll(s, outcomes[..|outcomes| - 1]), outcomes[|outcomes| - 1])
  }

  // ---------- the windowed specification ----------

  function Successes(outcomes: seq<bool>): (n: nat)
    ensures n <= |outcomes|
  {
    if outcomes == [] then 0
    else Successes(outcomes[..|outcomes| - 1]) + (if outcomes[|outcomes| - 1] then 1 else 0)
  }

  /** One full window: at most 8 successes lowers the size, exactly 10 raises it, 9 keeps it. */
  function AfterWindow(size: int, window: seq<bool>): int
    requires |window| == INTERVAL
  {
    if Successes(window) <= 8 then Lowered(size)
    else if Successes(window) == 10 then Raised(size)
    else size
  }

  function Lowered(size: int): int {
    if size > 1 then size - 1 else size
  }

  function Raised(size: int): int {
    if size < MAX_ADAPTED then size + 1 else size
  }

  /** Consecutive windows of ten, the unfinished one ignored. */
  function SizeAfter(size: int, log: seq<bool>): int
    decreases |log|
  {
    if |log| < INTERVAL then size
    else SizeAfter(AfterWindow(size, log[..INTERVAL]), log[INTERVAL..])
  }

  /** The outcomes of the unfinished window. */
  function Unfinished(log: seq<bool>): (r: seq<bool>)
    ensures |r| == |log| % INTERVAL
  {
    log[|log| - |log| % INTERVAL..]
  }

  /** The fields that the log of outcomes since configuration determines. */
  function SizesAfter(size: int, log: seq<bool>): Sizes {
    var open := Unfinished(log);
    Sizes(SizeAfter(size, log), Successes(open), |open| - Successes(open))
  }

  lemma {:induction false} SizeAfterOneMore(size: int, log: seq<bool>, o: bool)
    ensures SizeAfter(size, log + [o]) ==
      if |log| % INTERVAL == INTERVAL - 1 then AfterWindow(SizeAfter(size, log), Unfinished(log) + [o])
      else SizeAfter(size, log)
    decreases |log|
  {
    if |log| >= INTERVAL {
      SizeAfterOneMore(AfterWindow(size, log[..INTERVAL]), log[INTERVAL..], o);
      assert (log + [o])[..INTERVAL] == log[..INTERVAL];
      assert (log + [o])[INTERVAL..] == log[INTERVAL..] + [o];
      assert Unfinished(log[INTERVAL..]) == Unfinished(log);
    } else if |log| == INTERVAL - 1 {
      assert Unfinished(log) + [o] == (log + [o])[..INTERVAL];
      assert (log + [o])[INTERVAL..] == [];
    }
  }

  lemma {:induction false} SuccessesOneMore(log: seq<bool>, o: bool)
    ensures Successes(log + [o]) == Successes(log) + (if o then 1 else 0)
  {
  }

  /** The success rate of a full window, compared without division. */
  lemma RateOfWindow(successes: nat)
    requires successes <= INTERVAL
    ensures var rate := successes as real / INTERVAL as real;
      (rate < 0.9 <==> successes <= 8) && (rate > 0.95 <==> successes == 10)
  {
  }

  /** Main result: the fields are, after every call, what the windows of the log say. */
  lemma AdjustIsWindowed(size: int, log: seq<bool>, o: bool)
    ensures Adjust(SizesAfter(size, log), o) == SizesAfter(size, log + [o])
  {
    SizeAfterOneMore(size, log, o);
    SuccessesOneMore(Unfinished(log), o);
    if |log| % INTERVAL == INTERVAL - 1 {
      assert Unfinished(log + [o]) == [];
      RateOfWindow(Successes(Unfinished(log) + [o]));
    } else {
      assert Unfinished(log + [o]) == Unfinished(log) + [o];
    }
  }

  lemma {:induction false} AdjustAllIsWindowed(size: int, log: seq<bool>, outcomes: seq<bool>)
    ensures AdjustAll(SizesAfter(size, log), outcomes) == SizesAfter(size, log + outcomes)
  {
    if outcomes == [] {
      assert log + outcomes == log;
    } else {
      var front, last := outcomes[..|outcomes| - 1], outcomes[|outcomes| - 1];
      AdjustAllIsWindowed(size, log, front);
      AdjustIsWindowed(size, log + front, last);
      assert log + front + [last] == log + outcomes;
    }
  }

  /** Configuring a size keeps the counters: the unfinished window carries over. */
  lemma ConfigureCarriesWindow(size: int, size': int, log: seq<bool>)
    ensures SizesAfter(size', Unfinished(log)) == SizesAfter(size, log).(batchSize := size')
  {
  }

  // ---------- bounds ----------

  lemma {:induction false} SizeStaysInBounds(size: int, log: seq<bool>)
    ensures Min(1, size) <= SizeAfter(size, log) <= Max(10, size)
    decreases |log|
  {
    if |log| >= INTERVAL {
      SizeStaysInBounds(AfterWindow(size, log[..INTERVAL]), log[INTERVAL..]);
    }
  }

  // ---------- steady providers ----------

  function Repeat(o: bool, n: nat): (r: seq<bool>)
    ensures |r| == n && forall i :: 0 <= i < n ==> r[i] == o
  {
    seq(n, _ => o)
  }

  lemma {:induction false} SuccessesOfRepeat(o: bool, log: seq<bool>)
    requires forall i :: 0 <= i < |log| ==> log[i] == o
    ensures Successes(log) == if o then |log| else 0
  {
    if log != [] {
      SuccessesOfRepeat(o, log[..|log| - 1]);
    }
  }

  /** k windows of success raise a size of at most 10 to min(10, size + k). */
  lemma {:induction false} SteadySuccess(size: int, k: nat)
    requires size <= 10
    ensures SizeAfter(size, Repeat(true, INTERVAL * k)) == Min(10, size + k)
    decreases k
  {
    if k > 0 {
      var log := Repeat(true, INTERVAL * k);
      SuccessesOfRepeat(true, log[..INTERVAL]);
      assert log[INTERVAL..] == Repeat(true, INTERVAL * (k - 1));
      SteadySuccess(Raised(size), k - 1);
    }
  }

  /** k windows of failure lower a size of at least 1 to max(1, size - k). */
  lemma {:induction false} SteadyFailure(size: int, k: nat)
    requires size >= 1
    ensures SizeAfter(size, Repeat(false, INTERVAL * k)) == Max(1, size - k)
    decreases k
  {
    if k > 0 {
      var log := Repeat(false, INTERVAL * k);
      SuccessesOfRepeat(false, log[..INTERVAL]);
      assert log[INTERVAL..] == Repeat(false, INTERVAL * (k - 1));
      SteadyFailure(Lowered(size), k - 1);
    }
  }
}
