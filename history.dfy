/** The calculation history as values: one record per successful calculation,
    and what a sequence of calls does to the history. The Calculator class
    is specified against `Step`; the lemmas here say what any sequence of its
    calls leaves in the history. */
module History {
  import opened Arithmetic

  /** One line of the history: the operator, both operands and the result. */
  datatype Entry = Entry(op: Op, a: real, b: real, result: real)

  /** An entry records a calculation that succeeded with the recorded result. */
  predicate Consistent(e: Entry) {
    Evaluate(e.op, e.a, e.b) == Ok(e.result)
  }

  /** A call on the calculator that can change its history. */
  datatype Call = Compute(op: Op, a: real, b: real) | Clear

  /** A call that appends to the history: a calculation other than a
      division by zero. */
  predicate Succeeds(c: Call) {
    c.Compute? && !(c.op == Over && c.b == 0.0)
  }

  /** The entries a single call appends: for a successful calculation, one
      true record of that calculation's operator and operands. */
  function Record(c: Call): (r: seq<Entry>)
    ensures |r| == if Succeeds(c) then 1 else 0
    ensures forall e <- r :: Consistent(e)
    ensures forall e <- r :: c.Compute? && e.op == c.op && e.a == c.a && e.b == c.b
  {
    match c
    case Clear => []
    case Compute(op, a, b) =>
      match Evaluate(op, a, b)
      case Ok(v) => [Entry(op, a, b, v)]
      case Err(_) => []
  }

  /** The history after one call, given the history before it. */
  function Step(h: seq<Entry>, c: Call): seq<Entry> {
    if c.Clear? then [] else h + Record(c)
  }

  /** The history after a sequence of calls, in order, starting from `h`. */
  function Run(h: seq<Entry>, calls: seq<Call>): seq<Entry>
    decreases |calls|
  {
    if calls == [] then h
    else Step(Run(h, calls[..|calls| - 1]), calls[|calls| - 1])
  }

  /** The entries the successful calls of `calls` append, in call order. */
  function Recorded(calls: seq<Call>): seq<Entry>
    decreases |calls|
  {
    if calls == [] then []
    else Recorded(calls[..|calls| - 1]) + Record(calls[|calls| - 1])
  }

  /** The calls after the last `Clear` (all of them if there is none). */
  function SinceLastClear(calls: seq<Call>): seq<Call>
    decreases |calls|
  {
    if calls == [] then []
    else if calls[|calls| - 1].Clear? then []
    else SinceLastClear(calls[..|calls| - 1]) + [calls[|calls| - 1]]
  }

  /** The number of calls in `calls` that succeed. */
  function Successes(calls: seq<Call>): nat
    decreases |calls|
  {
    if calls == [] then 0
    else Successes(calls[..|calls| - 1]) + (if Succeeds(calls[|calls| - 1]) then 1 else 0)
  }

  /** A successful calculation appends exactly one consistent entry at the end
      and leaves the earlier entries as they were; a division by zero leaves
      the history unchanged. */
  lemma StepAppendsOne(h: seq<Entry>, op: Op, a: real, b: real)
    ensures op == Over && b == 0.0 ==> Step(h, Compute(op, a, b)) == h
    ensures !(op == Over && b == 0.0) ==>
      var h' := Step(h, Compute(op, a, b));
      |h'| == |h| + 1 && h'[..|h|] == h && h'[|h|] == Entry(op, a, b, h'[|h|].result)
      && Consistent(h'[|h|])
  {
  }

  /** Clearing twice is the same as clearing once, and leaves nothing. */
  lemma ClearIdempotent(h: seq<Entry>)
    ensures Step(Step(h, Clear), Clear) == Step(h, Clear) == []
  {
  }

  /** Each call appends exactly the entries it records, so the recorded
      entries are as many as the successful calls. */
  lemma {:induction false} RecordedLength(calls: seq<Call>)
    ensures |Recorded(calls)| == Successes(calls)
    decreases |calls|
  {
    if calls != [] {
      RecordedLength(calls[..|calls| - 1]);
    }
  }

  /** Every recorded entry is a consistent record of its calculation. */
  lemma {:induction false} RecordedConsistent(calls: seq<Call>)
    ensures forall e <- Recorded(calls) :: Consistent(e)
    decreases |calls|
  {
    if calls != [] {
      RecordedConsistent(calls[..|calls| - 1]);
    }
  }

  /** The history after `calls` is the entries of the successful calls since
      the last clear, in call order, after the starting history if no clear
      was made. */
  lemma {:induction false} RunSinceLastClear(h: seq<Entry>, calls: seq<Call>)
    ensures Run(h, calls) == (if Clear in calls then [] else h) + Recorded(SinceLastClear(calls))
    decreases |calls|
  {
    if calls != [] {
      var init, last := calls[..|calls| - 1], calls[|calls| - 1];
      assert calls == init + [last];
      RunSinceLastClear(h, init);
      if !last.Clear? {
        var s := SinceLastClear(init) + [last];
        assert SinceLastClear(calls) == s;
        assert s[..|s| - 1] == SinceLastClear(init);
        assert Recorded(s) == Recorded(SinceLastClear(init)) + Record(last);
        assert (Clear in calls) == (Clear in init);
      }
    }
  }

  /** Since construction (an empty history) or the last clear, the history
      holds one entry per successful call. */
  lemma {:induction false} FreshRunLength(calls: seq<Call>)
    ensures |Run([], calls)| == Successes(SinceLastClear(calls))
  {
    RunSinceLastClear([], calls);
    RecordedLength(SinceLastClear(calls));
  }

  /** The calls never put an inconsistent entry into a consistent history. */
  lemma {:induction false} RunKeepsConsistent(h: seq<Entry>, calls: seq<Call>)
    requires forall e <- h :: Consistent(e)
    ensures forall e <- Run(h, calls) :: Consistent(e)
  {
    RunSinceLastClear(h, calls);
    RecordedConsistent(SinceLastClear(calls));
  }

  /** Running two batches of calls one after the other is running them
      together. */
  lemma {:induction false} RunConcat(h: seq<Entry>, xs: seq<Call>, ys: seq<Call>)
    ensures Run(h, xs + ys) == Run(Run(h, xs), ys)
    decreases |ys|
  {
    if ys == [] {
      assert xs + ys == xs;
    } else {
      var init := ys[..|ys| - 1];
      assert (xs + ys)[..|xs + ys| - 1] == xs + init;
      RunConcat(h, xs, init);
    }
  }
}
