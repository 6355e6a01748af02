/** Checking one operation line such as `"12 x 7"` against the user's answer
    (`reviewOperationResult` in main.go). */
module Review {
  import opened GoInt
  import opened Options
  import opened Strconv
  import opened Strings

  /** What the check returns: whether the answer was right, and the answer
      the program reports as the correct one. */
  datatype Verdict = Verdict(isCorrect: bool, answer: Int64)

  /** The verdict for every line the program cannot evaluate. */
  const Rejected := Verdict(false, 0)

  predicate IsOperator(op: string) { op == "+" || op == "-" || op == "x" || op == "/" }

  /** The operator switch, in Go's `int` arithmetic: sums, differences and
      products wrap around, and division truncates. For the four operators it
      is ordinary arithmetic wrapped to an `int`, and exactly that whenever the
      true value fits; an operator outside the switch leaves the answer at
      Go's zero value. */
  function Evaluate(a: Int64, op: string, b: Int64): (r: Int64)
    requires op == "/" ==> b != 0
    ensures IsOperator(op) ==> r == Wrap(Arithmetic(a, op, b).value)
    ensures IsOperator(op) && MinInt64 <= Arithmetic(a, op, b).value <= MaxInt64 ==>
              r == Arithmetic(a, op, b).value
    ensures !IsOperator(op) ==> r == 0
  {
    if op == "/" then
      OverflowingQuotient();
      GoDiv(a, b)
    else if op == "+" then Wrap(a + b)
    else if op == "x" then Wrap(a * b)
    else if op == "-" then Wrap(a - b)
    else 0
  }

  /** `MinInt64 / -1` is `-MinInt64` in ordinary arithmetic, which wraps to
      the `MinInt64` that Go's `/` gives. */
  lemma OverflowingQuotient()
    ensures TruncDiv(MinInt64, -1) == -MinInt64 && Wrap(-MinInt64) == MinInt64
  {
    TruncDivUnique(MinInt64, -1, -MinInt64);
    assert -MinInt64 - Modulus == MinInt64;
  }

  /** `reviewOperationResult`: split the line on single spaces, read tokens 0
      and 2 as integers, evaluate token 1 and compare with the answer. A line
      with fewer than three tokens, a token 0 or 2 that is not an integer, or
      a division by zero is rejected with `(false, 0)`; tokens after the third
      are ignored. */
  function ReviewOperationResult(operation: string, userAnswer: Int64): (r: Verdict)
    ensures r.isCorrect ==> r.answer == userAnswer
    ensures |Split(operation, ' ')| < 3 ==> r == Rejected
  {
    var parts := Split(operation, ' ');
    if |parts| < 3 then Rejected
    else
      match Atoi(parts[0])
      case None => Rejected
      case Some(first) =>
        match Atoi(parts[2])
        case None => Rejected
        case Some(second) =>
          if parts[1] == "/" && second == 0 then Rejected
          else
            var correct := Evaluate(first, parts[1], second);
            Verdict(userAnswer == correct, correct)
  }

  /** The value of `a op b` in ordinary integer arithmetic, with division
      truncating toward zero; `None` for division by zero and for anything that
      is not one of the four operators. */
  function Arithmetic(a: int, op: string, b: int): (v: Option<int>)
    ensures v.Some? <==> IsOperator(op) && !(op == "/" && b == 0)
  {
    if op == "+" then Some(a + b)
    else if op == "-" then Some(a - b)
    else if op == "x" then Some(a * b)
    else if op == "/" && b != 0 then Some(TruncDiv(a, b))
    else None
  }

  /** An operand that is not an integer (an empty token from a double space
      included): the verdict is `(false, 0)` whatever the answer. */
  lemma BadOperand(operation: string, userAnswer: Int64)
    requires |Split(operation, ' ')| >= 3
    requires Atoi(Split(operation, ' ')[0]).None? || Atoi(Split(operation, ' ')[2]).None?
    ensures ReviewOperationResult(operation, userAnswer) == Rejected
  {
  }

  /** Division by zero: the verdict is `(false, 0)` whatever the answer, so
      even the answer 0 is scored incorrect. */
  lemma DivisionByZero(operation: string, userAnswer: Int64)
    requires |Split(operation, ' ')| >= 3
    requires Atoi(Split(operation, ' ')[0]).Some?
    requires Split(operation, ' ')[1] == "/" && Atoi(Split(operation, ' ')[2]) == Some(0)
    ensures ReviewOperationResult(operation, userAnswer) == Rejected
  {
  }

  /** A supported operator on two integer operands: the answer is the sum,
      the difference, the product or the truncated quotient (wrapped to an
      `int`), and the verdict is right exactly when the user gave it. */
  lemma ValidOperator(operation: string, userAnswer: Int64, a: Int64, b: Int64)
    requires |Split(operation, ' ')| >= 3
    requires Atoi(Split(operation, ' ')[0]) == Some(a) && Atoi(Split(operation, ' ')[2]) == Some(b)
    requires IsOperator(Split(operation, ' ')[1]) && !(Split(operation, ' ')[1] == "/" && b == 0)
    ensures var r := ReviewOperationResult(operation, userAnswer);
            var v := Arithmetic(a, Split(operation, ' ')[1], b).value;
            r.answer == Wrap(v) &&
            (MinInt64 <= v <= MaxInt64 ==> r.answer == v) &&
            (r.isCorrect <==> userAnswer == r.answer)
  {
  }

  /** An operator outside the four: the answer stays 0, so the verdict is
      right exactly when the user answered 0. */
  lemma UnknownOperator(operation: string, userAnswer: Int64)
    requires |Split(operation, ' ')| >= 3
    requires Atoi(Split(operation, ' ')[0]).Some? && Atoi(Split(operation, ' ')[2]).Some?
    requires !IsOperator(Split(operation, ' ')[1])
    ensures ReviewOperationResult(operation, userAnswer) == Verdict(userAnswer == 0, 0)
  {
  }

  /** The line the page format describes, `<int> <op> <int>`, written with
      `Itoa` and single spaces and possibly followed by more tokens: the
      review reads the operands back and scores it by ordinary arithmetic. */
  lemma WellFormedLine(a: Int64, op: string, b: Int64, extra: seq<string>, userAnswer: Int64)
    requires ' ' !in op
    requires forall i :: 0 <= i < |extra| ==> ' ' !in extra[i]
    ensures var r := ReviewOperationResult(Join([Itoa(a), op, Itoa(b)] + extra, ' '), userAnswer);
            match Arithmetic(a, op, b)
            case None => r == (if IsOperator(op) then Rejected else Verdict(userAnswer == 0, 0))
            case Some(v) =>
              r.answer == Wrap(v) && (MinInt64 <= v <= MaxInt64 ==> r.answer == v) &&
              (r.isCorrect <==> userAnswer == r.answer)
  {
    var line := Join([Itoa(a), op, Itoa(b)] + extra, ' ');
    TokensOfLine(a, op, b, extra);
    if Arithmetic(a, op, b).Some? {
      ValidOperator(line, userAnswer, a, b);
    } else if IsOperator(op) {
      DivisionByZero(line, userAnswer);
    } else {
      UnknownOperator(line, userAnswer);
    }
  }

  /** Such a line splits back into its tokens, and its operands read back. */
  lemma TokensOfLine(a: Int64, op: string, b: Int64, extra: seq<string>)
    requires ' ' !in op
    requires forall i :: 0 <= i < |extra| ==> ' ' !in extra[i]
    ensures var parts := Split(Join([Itoa(a), op, Itoa(b)] + extra, ' '), ' ');
            |parts| >= 3 && Atoi(parts[0]) == Some(a) && parts[1] == op && Atoi(parts[2]) == Some(b)
  {
    var parts := [Itoa(a), op, Itoa(b)] + extra;
    NoSpaceInItoa(a);
    NoSpaceInItoa(b);
    assert forall i :: 0 <= i < |parts| ==> ' ' !in parts[i] by {
      forall i | 0 <= i < |parts| ensures ' ' !in parts[i] {
        if i >= 3 { assert parts[i] == extra[i - 3]; }
      }
    }
    SplitJoin(parts, ' ');
    AtoiItoa(a);
    AtoiItoa(b);
  }

  lemma NoSpaceInItoa(n: int)
    ensures ' ' !in Itoa(n)
  {
    var s := Itoa(n);
    if n < 0 {
      var m: nat := -n;
      assert s == "-" + NatDigits(m);
      assert AllDigits(NatDigits(m));
    } else {
      assert AllDigits(s);
    }
  }

  /** Tokens after the third do not change the verdict. */
  lemma ExtraTokensIgnored(tokens: seq<string>, extra: seq<string>, userAnswer: Int64)
    requires |tokens| == 3
    requires forall i :: 0 <= i < |tokens| ==> ' ' !in tokens[i]
    requires forall i :: 0 <= i < |extra| ==> ' ' !in extra[i]
    ensures ReviewOperationResult(Join(tokens + extra, ' '), userAnswer)
         == ReviewOperationResult(Join(tokens, ' '), userAnswer)
  {
    SplitJoin(tokens + extra, ' ');
    SplitJoin(tokens, ' ');
    assert (tokens + extra)[..3] == tokens;
  }

  /** A page saved with Windows line endings keeps a carriage return at the
      end of each line after the split on newlines; the right operand then is
      not an integer, so the line is rejected whatever the answer. */
  lemma CarriageReturnRejected(left: string, op: string, right: string, userAnswer: Int64)
    requires ' ' !in left && ' ' !in op && ' ' !in right
    ensures ReviewOperationResult(left + " " + op + " " + right + "\r", userAnswer) == Rejected
  {
    var last := right + "\r";
    var parts := [left, op, last];
    var line := left + " " + op + " " + right + "\r";
    assert parts[1..] == [op, last] && parts[1..][1..] == [last];
    assert Join(parts[1..][1..], ' ') == last;
    assert Join(parts[1..], ' ') == op + " " + last;
    assert Join(parts, ' ') == left + " " + (op + " " + last);
    assert line == left + " " + (op + " " + last);
    SplitJoin(parts, ' ');
    TrailingNonDigit(last);
  }

  /** Sample checks: a right and a wrong answer to `4 + 5`. */
  lemma SampleSum()
    ensures ReviewOperationResult("4 + 5", 9) == Verdict(true, 9)
    ensures ReviewOperationResult("4 + 5", 1) == Verdict(false, 9)
  {
    assert Itoa(4) == "4" && Itoa(5) == "5";
    assert [Itoa(4), "+", Itoa(5)] + [] == [Itoa(4), "+", Itoa(5)];
    assert Join([Itoa(4), "+", Itoa(5)], ' ') == "4 + 5";
    assert Arithmetic(4, "+", 5) == Some(9);
    WellFormedLine(4, "+", 5, [], 9);
    WellFormedLine(4, "+", 5, [], 1);
  }

  /** A division by zero is scored `(false, 0)`, even for the answer 0. */
  lemma SampleDivisionByZero()
    ensures ReviewOperationResult("10 / 0", 0) == Rejected
  {
    assert Itoa(0) == "0";
    assert NatDigits(10) == NatDigits(1) + ['0'];
    assert Itoa(10) == "10";
    assert [Itoa(10), "/", Itoa(0)] + [] == [Itoa(10), "/", Itoa(0)];
    assert Join([Itoa(10), "/", Itoa(0)], ' ') == "10 / 0";
    WellFormedLine(10, "/", 0, [], 0);
  }

  /** A line of two words has too few tokens. */
  lemma SampleBadLine()
    ensures ReviewOperationResult("bad line", 0) == Rejected
  {
    assert Join(["bad", "line"], ' ') == "bad line";
    SplitJoin(["bad", "line"], ' ');
  }
}
