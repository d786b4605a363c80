/** The Calculator of example_package: four arithmetic operations, each of
    which appends a record of itself to the calculator's history, and the
    accessors of that history. */
module ExamplePackage {
  import opened Arithmetic
  import opened History

  class Calculator {
    /** The calculations made since construction or the last clear, oldest
        first. */
    var history: seq<Entry>

    /** Every recorded entry is a true record of a successful calculation. */
    ghost predicate Valid()
      reads this
    {
      forall e <- history :: Consistent(e)
    }

    /** A new calculator has an empty history. */
    constructor ()
      ensures history == [] && Valid()
    {
      history := [];
    }

    /** Returns `a + b` and records it. */
    method Add(a: real, b: real) returns (r: real)
      modifies this
      ensures r == a + b
      ensures history == old(history) + [Entry(Plus, a, b, r)]
      ensures history == Step(old(history), Compute(Plus, a, b))
      ensures old(Valid()) ==> Valid()
    {
      r := a + b;
      history := history + [Entry(Plus, a, b, r)];
    }

    /** Returns `a - b` and records it. */
    method Subtract(a: real, b: real) returns (r: real)
      modifies this
      ensures r == a - b
      ensures history == old(history) + [Entry(Minus, a, b, r)]
      ensures history == Step(old(history), Compute(Minus, a, b))
      ensures old(Valid()) ==> Valid()
    {
      r := a - b;
      history := history + [Entry(Minus, a, b, r)];
    }

    /** Returns `a * b` and records it. */
    method Multiply(a: real, b: real) returns (r: real)
      modifies this
      ensures r == a * b
      ensures history == old(history) + [Entry(Times, a, b, r)]
      ensures history == Step(old(history), Compute(Times, a, b))
      ensures old(Valid()) ==> Valid()
    {
      r := a * b;
      history := history + [Entry(Times, a, b, r)];
    }

    /** Returns `a / b` and records it; a zero divisor raises a ValueError
        before anything is recorded. */
    method Divide(a: real, b: real) returns (r: Result<real>)
      modifies this
      ensures b == 0.0 ==> r == Err(ValueError(DivideByZeroMessage)) && history == old(history)
      ensures b != 0.0 ==> r == Ok(a / b) && history == old(history) + [Entry(Over, a, b, a / b)]
      ensures history == Step(old(history), Compute(Over, a, b))
      ensures old(Valid()) ==> Valid()
    {
      if b == 0.0 {
        return Err(ValueError(DivideByZeroMessage));
      }
      var result := a / b;
      history := history + [Entry(Over, a, b, result)];
      r := Ok(result);
    }

    /** A new list holding the history; the calculator is left as it was. */
    method GetHistory() returns (copy: array<Entry>)
      ensures fresh(copy)
      ensures copy[..] == history
    {
      var h := history;
      copy := new Entry[|h|](i requires 0 <= i < |h| => h[i]);
    }

    /** Empties the history; clearing an empty history changes nothing. */
    method ClearHistory()
      modifies this
      ensures history == [] && Valid()
      ensures history == Step(old(history), Clear)
    {
      history := [];
    }
  }

  /** Performs `calls` on `c` in order, each through the method that models
      it; the history ends as `Run` says, so the lemmas about `Run` hold of
      the calculator. */
  method Replay(c: Calculator, calls: seq<Call>)
    modifies c
    ensures c.history == Run(old(c.history), calls)
  {
    var i := 0;
    while i < |calls|
      invariant 0 <= i <= |calls|
      invariant c.history == Run(old(c.history), calls[..i])
    {
      assert calls[..i + 1][..i] == calls[..i];
      match calls[i] {
        case Clear =>
          c.ClearHistory();
        case Compute(op, a, b) =>
          match op {
            case Plus => var r := c.Add(a, b);
            case Minus => var r := c.Subtract(a, b);
            case Times => var r := c.Multiply(a, b);
            case Over => var r := c.Divide(a, b);
          }
      }
      i := i + 1;
    }
    assert calls[..i] == calls;
  }

  /** On a new calculator, any sequence of calls leaves one entry per
      successful call since the last clear, each a true record. */
  method FreshReplay(calls: seq<Call>) returns (h: seq<Entry>)
    ensures |h| == Successes(SinceLastClear(calls))
    ensures h == Recorded(SinceLastClear(calls))
    ensures forall e <- h :: Consistent(e)
  {
    var c := new Calculator();
    Replay(c, calls);
    h := c.history;
    FreshRunLength(calls);
    RunSinceLastClear([], calls);
    RunKeepsConsistent([], calls);
  }

  /** Writing into the list GetHistory returned leaves the calculator's
      history as it was. */
  method SnapshotIsIndependent(c: Calculator, e: Entry) returns (copy: array<Entry>)
    ensures fresh(copy) && copy.Length == |c.history|
    ensures copy.Length > 0 ==> copy[0] == e
    ensures c.history == old(c.history)
  {
    copy := c.GetHistory();
    if copy.Length > 0 {
      copy[0] := e;
    }
  }

  /** Two calculations on a new calculator leave two entries, in call order. */
  method HistoryScenario() returns (h: seq<Entry>)
    ensures h == [Entry(Plus, 2.0, 3.0, 5.0), Entry(Times, 4.0, 5.0, 20.0)]
  {
    var c := new Calculator();
    var sum := c.Add(2.0, 3.0);
    var product := c.Multiply(4.0, 5.0);
    var copy := c.GetHistory();
    h := copy[..];
  }

  /** Two entries are recorded, and none are left after a clear. */
  method ClearScenario() returns (before: nat, after: nat)
    ensures before == 2 && after == 0
  {
    var c := new Calculator();
    var sum := c.Add(1.0, 1.0);
    var difference := c.Subtract(5.0, 3.0);
    var copy := c.GetHistory();
    before := copy.Length;
    c.ClearHistory();
    copy := c.GetHistory();
    after := copy.Length;
  }

  /** Dividing by zero raises "Cannot divide by zero" and records nothing. */
  method DivideByZeroScenario() returns (r: Result<real>, h: seq<Entry>)
    ensures r.Err? && r.error.message == "Cannot divide by zero"
    ensures h == []
  {
    var c := new Calculator();
    r := c.Divide(5.0, 0.0);
    h := c.history;
  }
}
