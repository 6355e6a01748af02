/** One page of the drill (`processOperations`, `readFileLines` and the row
    built by `saveResultInCSVFile` in main.go): the page's lines, the answers
    given, the time of each answer since the page started, and the summary
    that goes into the log. */
module Session {
  import opened GoInt
  import opened Options
  import opened Strconv
  import opened Strings
  import opened Review

  /** One scored operation: the line as read, and its verdict. */
  datatype OperationResult = OperationResult(operation: string, isCorrect: bool, answer: Int64)

  /** `2 * time.Minute`: a `time.Duration` counts nanoseconds. */
  const TwoMinutes: int := 2 * 60 * 1_000_000_000

  /** The number of operations a page is assumed to hold when the log row
      derives the wrong count; the page's real length plays no part. */
  const OperationsPerPage: int := 60

  /** `readFileLines`: the file content split on newlines. A file that ends
      with a newline gives an empty last line. */
  function ReadFileLines(content: string): (lines: seq<string>)
    ensures |lines| >= 1
    ensures forall i :: 0 <= i < |lines| ==> '\n' !in lines[i]
    ensures Join(lines, '\n') == content
  {
    JoinSplit(content, '\n');
    Split(content, '\n')
  }

  /** A page written as separate lines, each followed by a newline, is read
      back as those lines plus one empty line, and that empty line is scored
      `(false, 0)` whatever the answer to it. */
  lemma TrailingNewline(operations: seq<string>, userAnswer: Int64)
    requires |operations| >= 1
    requires forall i :: 0 <= i < |operations| ==> '\n' !in operations[i]
    ensures ReadFileLines(Join(operations, '\n') + "\n") == operations + [""]
    ensures ReviewOperationResult("", userAnswer) == Verdict(false, 0)
  {
    SplitJoin(operations, '\n');
    SplitTrailingSeparator(Join(operations, '\n'), '\n');
  }

  /** The readiness loop: answers are read until one is exactly `yes`. The
      result is how many were read, or `None` when the input ends first (a
      read error, on which the program exits). */
  method AwaitReadiness(inputs: seq<string>) returns (consumed: Option<nat>)
    ensures consumed.Some? <==> "yes" in inputs
    ensures consumed.Some? ==>
              0 < consumed.value <= |inputs| && inputs[consumed.value - 1] == "yes" &&
              "yes" !in inputs[..consumed.value - 1]
  {
    var isReady := "";
    var i := 0;
    while isReady != "yes"
      invariant 0 <= i <= |inputs|
      invariant isReady != "yes" ==> "yes" !in inputs[..i]
      invariant isReady == "yes" ==> 0 < i && inputs[i - 1] == "yes" && "yes" !in inputs[..i - 1]
      decreases |inputs| - i
    {
      if i == |inputs| {
        assert inputs[..i] == inputs;
        return None;
      }
      assert inputs[..i + 1] == inputs[..i] + [inputs[i]];
      isReady := inputs[i];
      i := i + 1;
    }
    assert inputs[i - 1] in inputs;
    consumed := Some(i);
  }

  /** The result recorded for one line and the answer given to it. */
  function Scored(line: string, userAnswer: Int64): (r: OperationResult)
    ensures r.operation == line
  {
    var verdict := ReviewOperationResult(line, userAnswer);
    OperationResult(line, verdict.isCorrect, verdict.answer)
  }

  /** The number of answers given before the two-minute mark. */
  function CountFast(elapsed: seq<int>): (n: nat)
    ensures n <= |elapsed|
  {
    if elapsed == [] then 0
    else CountFast(elapsed[..|elapsed| - 1]) + (if elapsed[|elapsed| - 1] < TwoMinutes then 1 else 0)
  }

  /** The number of correct results. */
  function CountCorrect(results: seq<OperationResult>): (n: nat)
    ensures n <= |results|
  {
    if results == [] then 0
    else CountCorrect(results[..|results| - 1]) + (if results[|results| - 1].isCorrect then 1 else 0)
  }

  /** The results that were not correct, in page order. */
  function Incorrect(results: seq<OperationResult>): (wrong: seq<OperationResult>)
    ensures |wrong| == |results| - CountCorrect(results)
    ensures forall i :: 0 <= i < |wrong| ==> !wrong[i].isCorrect && wrong[i] in results
  {
    if results == [] then []
    else
      var last := results[|results| - 1];
      var before := Incorrect(results[..|results| - 1]);
      if last.isCorrect then before else before + [last]
  }

  /** The body of `processOperations` without its I/O: one result per line,
      built from the line and its answer; the count of answers given within
      the first two minutes of the page; the number of correct results; and
      the incorrect ones, in page order, that the program prints with their
      correct answers. `elapsed[i]` is the time from the start of the page to
      just after the `i`-th answer. The program's three loops are the three
      methods below. */
  method ProcessOperations(lines: seq<string>, answers: seq<Int64>, elapsed: seq<int>)
    returns (operationResults: seq<OperationResult>, solvedInLessTwoMinutes: nat,
             correctOperations: nat, incorrectOperations: seq<OperationResult>)
    requires |answers| == |lines| && |elapsed| == |lines|
    ensures |operationResults| == |lines|
    ensures forall i :: 0 <= i < |lines| ==>
              operationResults[i].operation == lines[i] &&
              Verdict(operationResults[i].isCorrect, operationResults[i].answer)
                == ReviewOperationResult(lines[i], answers[i])
    ensures solvedInLessTwoMinutes == CountFast(elapsed) <= |lines|
    ensures correctOperations == CountCorrect(operationResults) <= |lines|
    ensures incorrectOperations == Incorrect(operationResults)
  {
    operationResults, solvedInLessTwoMinutes := ScoreLines(lines, answers, elapsed);
    forall i | 0 <= i < |lines|
      ensures Verdict(operationResults[i].isCorrect, operationResults[i].answer)
                == ReviewOperationResult(lines[i], answers[i])
    {
      assert operationResults[i] == Scored(lines[i], answers[i]);
    }
    correctOperations := CountCorrectOperations(operationResults);
    incorrectOperations := SelectIncorrect(operationResults);
  }

  /** The answering loop: review each line with its answer, count the answers
      given within two minutes of the page start, and append the result. */
  method ScoreLines(lines: seq<string>, answers: seq<Int64>, elapsed: seq<int>)
    returns (operationResults: seq<OperationResult>, solvedInLessTwoMinutes: nat)
    requires |answers| == |lines| && |elapsed| == |lines|
    ensures |operationResults| == |lines|
    ensures forall i :: 0 <= i < |lines| ==> operationResults[i] == Scored(lines[i], answers[i])
    ensures solvedInLessTwoMinutes == CountFast(elapsed)
  {
    operationResults, solvedInLessTwoMinutes := [], 0;
    for i := 0 to |lines|
      invariant |operationResults| == i
      invariant forall k :: 0 <= k < i ==> operationResults[k] == Scored(lines[k], answers[k])
      invariant solvedInLessTwoMinutes == CountFast(elapsed[..i])
    {
      var result := Scored(lines[i], answers[i]);
      assert elapsed[..i + 1][..i] == elapsed[..i];
      if elapsed[i] < TwoMinutes {
        solvedInLessTwoMinutes := solvedInLessTwoMinutes + 1;
      }
      operationResults := operationResults + [result];
    }
    assert elapsed[..|lines|] == elapsed;
  }

  /** The counting loop over the results. */
  method CountCorrectOperations(operationResults: seq<OperationResult>) returns (correctOperations: nat)
    ensures correctOperations == CountCorrect(operationResults)
  {
    correctOperations := 0;
    for i := 0 to |operationResults|
      invariant correctOperations == CountCorrect(operationResults[..i])
    {
      assert operationResults[..i + 1][..i] == operationResults[..i];
      if operationResults[i].isCorrect {
        correctOperations := correctOperations + 1;
      }
    }
    assert operationResults[..|operationResults|] == operationResults;
  }

  /** The reporting loop: the results that are not correct, in order. */
  method SelectIncorrect(operationResults: seq<OperationResult>) returns (incorrectOperations: seq<OperationResult>)
    ensures incorrectOperations == Incorrect(operationResults)
  {
    incorrectOperations := [];
    for i := 0 to |operationResults|
      invariant incorrectOperations == Incorrect(operationResults[..i])
    {
      assert operationResults[..i + 1][..i] == operationResults[..i];
      if !operationResults[i].isCorrect {
        incorrectOperations := incorrectOperations + [operationResults[i]];
      }
    }
    assert operationResults[..|operationResults|] == operationResults;
  }

  /** With answer times that never decrease, the fast answers are exactly the
      first `CountFast(elapsed)` ones: the two-minute window is measured from
      the start of the page, not from the previous answer. */
  lemma {:induction false} FastPrefix(elapsed: seq<int>)
    requires forall i, j :: 0 <= i <= j < |elapsed| ==> elapsed[i] <= elapsed[j]
    ensures forall i :: 0 <= i < |elapsed| ==> (i < CountFast(elapsed) <==> elapsed[i] < TwoMinutes)
  {
    if elapsed != [] {
      var init := elapsed[..|elapsed| - 1];
      FastPrefix(init);
      if elapsed[|elapsed| - 1] < TwoMinutes {
        AllFast(init, elapsed[|elapsed| - 1]);
      }
    }
  }

  lemma {:induction false} AllFast(elapsed: seq<int>, bound: int)
    requires bound < TwoMinutes
    requires forall i :: 0 <= i < |elapsed| ==> elapsed[i] <= bound
    ensures CountFast(elapsed) == |elapsed|
  {
    if elapsed != [] {
      AllFast(elapsed[..|elapsed| - 1], bound);
    }
  }

  /** Selecting the incorrect results keeps page order: it distributes over
      splitting the page in two. */
  lemma {:induction false} IncorrectConcat(a: seq<OperationResult>, b: seq<OperationResult>)
    ensures Incorrect(a + b) == Incorrect(a) + Incorrect(b)
    ensures CountCorrect(a + b) == CountCorrect(a) + CountCorrect(b)
  {
    if b != [] {
      var b' := b[..|b| - 1];
      assert (a + b)[..|a + b| - 1] == a + b';
      IncorrectConcat(a, b');
    } else {
      assert a + b == a;
    }
  }

  /** A result is reported as incorrect exactly when it is one of the page's
      results and is not correct. */
  lemma {:induction false} IncorrectMembers(results: seq<OperationResult>, x: OperationResult)
    ensures x in Incorrect(results) <==> x in results && !x.isCorrect
  {
    if results != [] {
      var init := results[..|results| - 1];
      IncorrectMembers(init, x);
      assert results == init + [results[|results| - 1]];
    }
  }

  /** The wrong count of the log row, `60 - correctOperations` in Go's `int`
      arithmetic: the complement against a full page of 60, however many
      lines the page had, and negative when more than 60 were right. */
  function WrongOperations(correctOperations: Int64): (w: Int64)
    ensures 0 <= correctOperations ==>
              w + correctOperations == OperationsPerPage && (w < 0 <==> correctOperations > OperationsPerPage)
  {
    Wrap(OperationsPerPage - correctOperations)
  }

  /** The CSV row: page name, correct count, wrong count, fast count and
      date, in that order, each count written so that it reads back as the
      same `int`. */
  function LogRow(filename: string, correctOperations: Int64, lessTwoMinutes: Int64, date: string): (row: seq<string>)
    ensures |row| == 5 && row[0] == filename && row[4] == date
    ensures Decimal(row[1], correctOperations) && Decimal(row[2], WrongOperations(correctOperations))
    ensures Decimal(row[3], lessTwoMinutes)
    ensures Atoi(row[1]) == Some(correctOperations)
    ensures Atoi(row[2]) == Some(WrongOperations(correctOperations))
    ensures Atoi(row[3]) == Some(lessTwoMinutes)
  {
    var wrongOperations := WrongOperations(correctOperations);
    var correctText, wrongText, fastText := Itoa(correctOperations), Itoa(wrongOperations), Itoa(lessTwoMinutes);
    assert Atoi(correctText) == Some(correctOperations) by { AtoiItoa(correctOperations); }
    assert Atoi(wrongText) == Some(wrongOperations) by { AtoiItoa(wrongOperations); }
    assert Atoi(fastText) == Some(lessTwoMinutes) by { AtoiItoa(lessTwoMinutes); }
    assert Decimal(correctText, correctOperations) by { ItoaCanonical(correctOperations); }
    assert Decimal(wrongText, wrongOperations) by { ItoaCanonical(wrongOperations); }
    assert Decimal(fastText, lessTwoMinutes) by { ItoaCanonical(lessTwoMinutes); }
    var row := [filename, correctText, wrongText, fastText, date];
    row
  }

  /** The two-minute window at its edge: an answer at 119 s is fast, one at
      121 s is not. */
  lemma SampleWindow()
    ensures CountFast([119 * 1_000_000_000, 121 * 1_000_000_000]) == 1
  {
  }
}
