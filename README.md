# Calculator of example_package, in Dafny

This project models the `Calculator` class of the example package
(`example_package/src/example_package/calculator.py`). A calculator holds a
mutable list, `history`. Each of `add`, `subtract`, `multiply` and `divide`
computes its result and appends one record of the calculation to the end of
that list. `divide` raises `ValueError("Cannot divide by zero")` on a zero
divisor, and it does so before anything is appended. `get_history` returns a
copy of the list, and `clear_history` empties it in place.

The model is split into three modules:

- `Arithmetic` (`arithmetic.dfy`) holds the operators `Plus`, `Minus`,
  `Times` and `Over`, the `ValueError` error, and `Evaluate`, which gives the
  value of one calculation on exact reals or the error.
- `History` (`history.dfy`) holds a history entry as a record
  `Entry(op, a, b, result)` and a call as `Compute(op, a, b) | Clear`. It
  defines `Step`, the history after one call, and `Run`, the history after a
  sequence of calls. It also holds the lemmas about what any sequence of calls
  leaves in the history.
- `ExamplePackage` (`calculator.dfy`) holds the class `Calculator` with a
  mutable field `history: seq<Entry>`. Every method that changes the history
  has `modifies this` and states the new history twice: explicitly, and as
  `Step` of the old history. The client method `Replay` performs any sequence
  of calls through these methods and proves that the history ends as `Run`
  says. `FreshReplay` then uses the `Run` lemmas to state, for a new
  calculator, the entries and their number after any sequence of calls. The
  file also has client methods that replay the package's history, clear and
  divide-by-zero tests against the contracts.

Numbers are exact `real`s, so `a / b` is the exact quotient. A division by
zero is modelled as the result `Err(ValueError(...))` instead of an
exception.

## Model

| member | source | states |
|---|---|---|
| `Arithmetic.Evaluate` | example_package/src/example_package/calculator.py:85-87 | only a division by zero fails, and it fails with the message "Cannot divide by zero"; a successful quotient multiplied by the divisor gives back the dividend |
| `Arithmetic.Inverses` | example_package/src/example_package/calculator.py:40-89 | in the exact-real model of the four operations, subtraction undoes addition and addition undoes subtraction; for a non-zero divisor, division undoes multiplication and multiplication undoes division (the float program does not have this property, see Left out) |
| `History.Record` | example_package/src/example_package/calculator.py:41-88 | a call appends one entry exactly when it succeeds (a calculation other than a division by zero); that entry carries the call's own operator and operands and the true result |
| `History.StepAppendsOne` | example_package/src/example_package/calculator.py:40-89 | a successful calculation adds exactly one consistent entry `(op, a, b, result)` at the end and leaves the earlier entries unchanged; a division by zero leaves the history unchanged |
| `History.ClearIdempotent` | example_package/src/example_package/calculator.py:99-101 | clearing leaves an empty history, and clearing again changes nothing |
| `History.RecordedLength` | example_package/tests/test_calculator.py:47-57 | the entries recorded for a sequence of calls are as many as its successful calls |
| `History.RecordedConsistent` | example_package/src/example_package/calculator.py:40-89 | every recorded entry holds the true result of its operator and operands |
| `History.RunSinceLastClear` | example_package/src/example_package/calculator.py:21-101 | after any sequence of calls, the history is the entries of the successful calls since the last clear, in call order; with no clear, they come after the starting history |
| `History.FreshRunLength` | example_package/tests/test_calculator.py:47-69 | starting from a new calculator, the history length equals the number of successful calls since the last clear |
| `History.RunKeepsConsistent` | example_package/src/example_package/calculator.py:40-101 | no sequence of calls puts an entry into the history that is not a true record of its calculation |
| `History.RunConcat` | example_package/src/example_package/calculator.py:40-101 | running two batches of calls one after the other is the same as running them together |
| `ExamplePackage.Calculator.constructor` | example_package/src/example_package/calculator.py:21-23 | a new calculator has an empty history |
| `ExamplePackage.Calculator.Add` | example_package/src/example_package/calculator.py:40-42 | returns `a + b`; the new history is the old one with `(+, a, b, a + b)` appended, which is `Step` of the old history |
| `ExamplePackage.Calculator.Subtract` | example_package/src/example_package/calculator.py:54-56 | returns `a - b`; the new history is the old one with `(-, a, b, a - b)` appended |
| `ExamplePackage.Calculator.Multiply` | example_package/src/example_package/calculator.py:68-70 | returns `a * b`; the new history is the old one with `(*, a, b, a * b)` appended |
| `ExamplePackage.Calculator.Divide` | example_package/src/example_package/calculator.py:85-89 | a zero divisor gives the "Cannot divide by zero" error and leaves the history unchanged; otherwise it returns `a / b` and appends `(/, a, b, a / b)` |
| `ExamplePackage.Calculator.GetHistory` | example_package/src/example_package/calculator.py:91-97 | returns a newly allocated list equal to the history and changes nothing |
| `ExamplePackage.Calculator.ClearHistory` | example_package/src/example_package/calculator.py:99-101 | the history becomes empty, whatever it was |
| `ExamplePackage.Replay` | example_package/src/example_package/calculator.py:40-101 | performing any sequence of calls through `Add`, `Subtract`, `Multiply`, `Divide` and `ClearHistory` leaves the calculator's history equal to `Run` of its old history over those calls |
| `ExamplePackage.FreshReplay` | example_package/tests/test_calculator.py:47-69 | on a new calculator, any sequence of method calls leaves exactly the entries of the successful calls since the last clear, in call order, one per successful call, each a true record |
| `ExamplePackage.SnapshotIsIndependent` | example_package/src/example_package/calculator.py:97 | writing into the list returned by `GetHistory` leaves the calculator's history as it was |
| `ExamplePackage.HistoryScenario` | example_package/tests/test_calculator.py:47-57 | `add(2, 3)` then `multiply(4, 5)` on a new calculator leave exactly the entries `2 + 3 = 5` and `4 * 5 = 20`, in that order |
| `ExamplePackage.ClearScenario` | example_package/tests/test_calculator.py:60-69 | two calculations leave two entries, and after `clear_history` none are left |
| `ExamplePackage.DivideByZeroScenario` | example_package/tests/test_calculator.py:40-44 | `divide(5, 0)` raises "Cannot divide by zero" and records nothing |

## Left out

- Python's `int`/`float` distinction (the `Number` union) and IEEE-754 rounding are not modelled. All arithmetic is on exact reals, so the float division `a / b` is the exact quotient.
- The history strings (`f"{a} + {b} = {result}"`) are not modelled. Each entry is the record of its four fields, and the string is only a rendering of them. How Python prints a number (`5` as against `5.0`) is therefore not modelled.
- Aliasing of the public `history` attribute is not modelled. In Python, a caller holding `calc.history` itself, rather than a copy, sees `clear_history` empty that same list. In the model the field is a value that the methods reassign.
- The rest of the package (`core/data_processor.py`, `__init__.py`) is not part of this model. The data processor is floating-point numerics delegated to numpy, and `__init__.py` holds only constants and re-exports.
- Direct assignment to `calc.history` from outside the class is possible in the model, but only of `seq<Entry>` values. The non-string entries or non-list values that Python allows there are not modelled. Because any client may assign the field, the methods do not require the `Valid` invariant, and they only preserve it when it already holds.
- `Arithmetic.Inverses` holds only of the exact-real model. The float program does not satisfy it: `add(0.1, 0.2)` gives 0.30000000000000004, and subtracting 0.2 from that gives 0.10000000000000003, not 0.1.
