# Arithmetic drill: answer checking and page scoring

A Dafny model of the scoring core of a command-line arithmetic drill for
second graders. The program reads "pages" of operations such as `12 x 7`,
one per line. It asks the user for each answer and checks it. It counts the
answers given within two minutes of the start of the page. At the end it
reports the wrong ones and appends a row to a CSV log.

The model covers that core in `main.go`:

- `review.dfy`: `reviewOperationResult`, which splits a line on single
  spaces, reads tokens 0 and 2 with `strconv.Atoi`, dispatches on token 1
  (`+`, `-`, `x`, `/`) and compares with the user's answer. It is pure
  functions, with lemmas for every error case.
- `session.dfy`: the page. `readFileLines` (the split on newlines), the
  readiness loop, the three loops of `processOperations` as methods proved
  against specification functions (`CountFast`, `CountCorrect`,
  `Incorrect`), and the CSV row built by `saveResultInCSVFile`.
- `go_int.dfy`: Go's `int` on a 64-bit platform. It gives the range, the
  wrap-around of `+ - *`, and `/`, which truncates toward zero; Dafny's own
  `/` is Euclidean. `MinInt64 / -1` wraps back to `MinInt64`, as the Go
  specification says.
- `strconv.dfy`: `strconv.Atoi` (optional sign, decimal digits, `int` range)
  and `strconv.Itoa`, which writes the one canonical decimal text of a
  number, with the round trip `Atoi(Itoa(n)) == Some(n)`.
- `options.dfy`: the `Option` type that stands for Go's `(value, err)`
  results.
- `strings.dfy`: `strings.Split` for a one-character separator, and
  `strings.Join`, its inverse in both directions.

Inputs the program reads from the console or the clock are parameters.
The user's answers are a sequence of `int`. The elapsed times are a sequence
of nanosecond counts: `elapsed[i]` is `time.Since(starTime)` taken just
after the `i`-th answer. The date is an opaque string.

The model follows the code where its behaviour is surprising:

- The code does not report a division by zero, a malformed line or an
  unknown operator as distinct errors. The first two give `(false, 0)`. An unknown operator
  gives the answer 0 and counts as correct when the user typed 0.
- The wrong count in the log is `60 - correct`, whatever the page's length.

Two consequences of the code follow from the lemmas. A page file that ends
with a newline has one more line than it has operations, and that empty line
is always scored wrong. A page saved with Windows line endings has every
line rejected, because the carriage return stays on the right operand.

## Model

| member | source | states |
|---|---|---|
| `GoInt.Wrap` | main.go:138-144 | the result is a Go `int`, congruent to the true value modulo 2^64, and equal to it whenever it fits |
| `GoInt.TruncDiv` | main.go:138 | the quotient leaves a remainder of the dividend's sign that is smaller than the divisor in magnitude, i.e. it truncates toward zero; it is no larger in magnitude than the dividend |
| `GoInt.TruncDivUnique` | main.go:138 | those remainder conditions determine the quotient uniquely |
| `GoInt.GoDiv` | main.go:138 | Go's `/`: the truncated quotient, except `MinInt64 / -1`, which is `MinInt64` |
| `GoInt.QuotientInRange` | main.go:138 | apart from `MinInt64 / -1`, the quotient of two `int` values is an `int` |
| `Strconv.Atoi` | main.go:121-129 | a parsed value comes from a non-empty string of digits after at most one leading sign, and is the value of those digits, negated after a `-` |
| `Strconv.AtoiSignedDigits` | main.go:121-129 | conversely, every optional sign followed by digits (leading zeros allowed) whose value fits in an `int` is parsed as that value |
| `Strconv.NatDigits` | main.go:97-101 | the digits are non-empty, all decimal, have no leading zero, and their value is the number |
| `Strconv.Itoa` | main.go:97-101 | the text is non-empty and starts with `-` exactly for negative numbers |
| `Strconv.ItoaCanonical` | main.go:97-101 | the text is the canonical decimal form: `-` exactly for negative numbers, then digits whose value is the magnitude, with no leading zero unless the number is 0 |
| `Strconv.DecimalIsItoa` | main.go:97-101 | that canonical form is unique: any text in it is the text `Itoa` writes |
| `Strconv.AtoiItoa` | main.go:101 | every `int` written by `Itoa` is read back by `Atoi` as the same value |
| `Strings.Split` | main.go:116 | there is always at least one piece, and no piece contains the separator |
| `Strings.JoinSplit` | main.go:116 | joining the pieces with the separator restores the string |
| `Strings.SplitJoin` | main.go:116 | splitting a join of separator-free pieces gives back exactly those pieces |
| `Strings.SplitTrailingSeparator` | main.go:174 | a trailing separator adds exactly one empty piece at the end |
| `Review.ReviewOperationResult` | main.go:115-149 | a verdict marked correct always equals the user's answer; fewer than three tokens give `(false, 0)` |
| `Review.Arithmetic` | main.go:132-145 | ordinary arithmetic is defined exactly for the four operators, excluding a zero divisor |
| `Review.Evaluate` | main.go:131-145 | for `+ - x /` the operator switch equals ordinary arithmetic with truncating division, wrapped to an `int`, and exactly that when the value fits; any other operator gives Go's zero value 0 |
| `Review.BadOperand` | main.go:121-129 | a token 0 or token 2 that is not an integer (an empty token included) gives `(false, 0)` whatever the answer |
| `Review.DivisionByZero` | main.go:133-136 | `/` with right operand 0 gives `(false, 0)` whatever the answer, so the answer 0 is scored incorrect |
| `Review.ValidOperator` | main.go:126-147 | for `+ - x /` the answer is the sum, difference, product or truncated quotient (wrapped), and the verdict is correct exactly when the user gave it |
| `Review.UnknownOperator` | main.go:131-147 | any other operator gives answer 0 and is correct exactly when the user answered 0 |
| `Review.WellFormedLine` | main.go:115-149 | a line written as `<int> <op> <int>` with single spaces, plus any further tokens, is scored by ordinary arithmetic; the error verdicts arise only from division by zero and unknown operators |
| `Review.TokensOfLine` | main.go:116-126 | such a line splits back into its tokens and its operands are read back |
| `Review.ExtraTokensIgnored` | main.go:116-117 | tokens after the third do not change the verdict |
| `Review.CarriageReturnRejected` | main.go:126-129 | a line of three space-free tokens that keeps a carriage return after the newline split (Windows line endings) is rejected with `(false, 0)` whatever the answer |
| `Review.SampleSum` | main.go:139-147 | `4 + 5` answered 9 gives `(true, 9)`; answered 1 gives `(false, 9)` |
| `Review.SampleDivisionByZero` | main.go:133-136 | `10 / 0` answered 0 gives `(false, 0)` |
| `Review.SampleBadLine` | main.go:116-119 | `bad line` gives `(false, 0)` |
| `Session.ReadFileLines` | main.go:174 | the lines contain no newline and joined with newlines give back the content |
| `Session.TrailingNewline` | main.go:174 | a page whose every line ends with a newline reads back as its lines plus one empty line, which is scored `(false, 0)` |
| `Session.Scored` | main.go:56-65 | the record built for a line keeps the line as read |
| `Session.AwaitReadiness` | main.go:35-42 | the loop ends exactly when some input is `yes`, after the first such input; otherwise the input runs out |
| `Session.CountFast` | main.go:57-60 | the fast count is at most the number of answers |
| `Session.CountCorrect` | main.go:69-74 | the correct count is at most the number of results |
| `Session.Incorrect` | main.go:79-83 | the reported results are all incorrect, all taken from the page, and number exactly the results minus the correct ones |
| `Session.ProcessOperations` | main.go:44-83 | one result per line, in line order, each the line with its `reviewOperationResult` verdict; the fast count, the correct count and the incorrect list are those of the specification functions, and both counts are at most the number of lines |
| `Session.ScoreLines` | main.go:44-67 | the answering loop appends one result per line and counts the answers given before two minutes from the page start |
| `Session.CountCorrectOperations` | main.go:69-74 | the counting loop returns the number of correct results |
| `Session.SelectIncorrect` | main.go:79-83 | the reporting loop returns the incorrect results in order |
| `Session.FastPrefix` | main.go:47-60 | with non-decreasing answer times, the fast answers are exactly the first `CountFast` ones: the window is measured from the page start |
| `Session.IncorrectConcat` | main.go:69-83 | the incorrect list and the correct count distribute over splitting the page in two, so page order is kept |
| `Session.IncorrectMembers` | main.go:79-83 | a result is reported exactly when it is one of the page's results and is not correct |
| `Session.WrongOperations` | main.go:97 | for a non-negative correct count, wrong plus correct is 60, and wrong is negative exactly when more than 60 were correct |
| `Session.LogRow` | main.go:97-101 | the row has five columns in the order page name, correct count, wrong count, fast count, date; each count column is the canonical decimal text of its value and reads back as that value |
| `Session.SampleWindow` | main.go:57-60 | an answer at 119 s is fast and one at 121 s is not |

## Left out

- Directory listing (`getFiles`) and the loop over pages in `main`: directory I/O. The model scores one page.
- `os.ReadFile`: file I/O. `ReadFileLines` takes the content as a string.
- Console prompts and reads: interactive I/O. Answers and readiness inputs are sequences. A failed read exits the process, which is modelled only as the readiness input running out (`None`).
- Session.ProcessOperations: requires exactly one answer and one elapsed time per line. In the program a missing answer is a read error, and the program exits.
- Printing of the totals and of each incorrect operation with its correct answer: console output. The model returns the incorrect results that would be printed.
- Opening, writing, flushing and closing `record.csv`, and the CSV quoting done by `encoding/csv`: file I/O and a library writer. `LogRow` gives the row's fields.
- `time.Now`, `time.Since` and date formatting: wall clock. Elapsed times are an input sequence and the date is a string parameter.
- `log.Fatalf` exits: process termination, not logic.
- Strconv.Atoi: models the base-10 syntax (optional sign, digits, `int` range) and not the library's other details, such as its error values. Characters stand for bytes.
- Strconv.Itoa: its own ensures fixes only the sign; that the text is the canonical decimal form is stated by `ItoaCanonical` and `DecimalIsItoa`, so that proofs that only read numbers back do not carry the digit-level facts.
- Session.Scored: its own ensures states only that the line is kept; that the other two fields are the line's `reviewOperationResult` verdict is stated by `ProcessOperations` for every line, because the fuller ensures made the answering loop's proof unstable.
- Session.AwaitReadiness: each input is one successfully scanned word. `fmt.Scanln`'s own failures on an empty line or a line of several words are not modelled.
- Session.CountCorrectOperations and Session.ScoreLines: the counters are unbounded naturals. A Go `int` counter could only wrap after 2^63 lines.
