/** The equation generator of the quiz: two operands and an operator drawn at
    random, turned into the question shown to the player and the integer
    answer the game expects. The random draws are parameters (`Draw`). */
module Equations {

  /** One quiz question: the text shown and the answer it is checked against. */
  datatype Equation = Equation(question: string, answer: int)

  /** The inclusive range of `Random.nextInt(1, 20)`, from which both operands are drawn. */
  const MinOperand: int := 1
  const MaxOperand: int := 19

  /** The operator list the generator picks from, in its source order. */
  const Operators: seq<string> := ["+", "-", "*", "/"]

  /** The outcome of the three random draws made by one call of the generator:
      two operands and the index of the operator picked from `Operators`. */
  datatype Draw = Draw(num1: int, num2: int, operatorIndex: int)

  /** What the random source can produce: operands in [1, 19] and an index
      into the four-element operator list. */
  predicate ValidDraw(d: Draw)
  {
    && MinOperand <= d.num1 <= MaxOperand
    && MinOperand <= d.num2 <= MaxOperand
    && 0 <= d.operatorIndex < |Operators|
  }

  /** The decimal digit character for `d`. */
  function DigitChar(d: nat): (c: char)
    requires d < 10
    ensures '0' <= c <= '9' && (c as int) - ('0' as int) == d
  {
    "0123456789"[d]
  }

  /** Decimal rendering of a natural number, as Kotlin's string templates print it. */
  function NatToString(n: nat): (s: string)
    ensures |s| >= 1
    ensures forall i :: 0 <= i < |s| ==> '0' <= s[i] <= '9'
    ensures (s[0] == '0') == (n == 0)
    ensures n == 0 ==> s == "0"
    decreases n
  {
    if n < 10 then [DigitChar(n)] else NatToString(n / 10) + [DigitChar(n % 10)]
  }

  /** The value of a string of decimal digits, read most significant digit first. */
  function DigitsValue(s: string): (v: nat)
    requires forall i :: 0 <= i < |s| ==> '0' <= s[i] <= '9'
  {
    if s == [] then 0
    else DigitsValue(s[..|s| - 1]) * 10 + ((s[|s| - 1] as int) - ('0' as int))
  }

  /** Reading back the rendering of `n` gives `n`: the question shows the operands faithfully. */
  lemma {:induction false} NatToStringRoundTrip(n: nat)
    ensures DigitsValue(NatToString(n)) == n
  {
    if n >= 10 {
      NatToStringRoundTrip(n / 10);
      var s := NatToString(n);
      assert s[..|s| - 1] == NatToString(n / 10);
    }
  }

  /** Decimal rendering of an integer, with a leading '-' for negatives. */
  function IntToString(n: int): (s: string)
    ensures |s| >= 1
    ensures (s[0] == '-') == (n < 0)
  {
    if n < 0 then "-" + NatToString(-n) else NatToString(n)
  }

  /** The question text `"<num1> <symbol> <num2> = ?"`. */
  function Question(num1: int, symbol: string, num2: int): string
  {
    IntToString(num1) + " " + symbol + " " + IntToString(num2) + " = ?"
  }

  /** Where the parts of `a + " " + symbol + " " + b + " = ?"` sit. */
  lemma TemplateLayout(a: string, symbol: string, b: string)
    ensures var q := a + " " + symbol + " " + b + " = ?";
      && |q| == |a| + |symbol| + |b| + 6
      && q[..|a|] == a && q[|a|] == ' '
      && q[|a| + 1..|a| + 1 + |symbol|] == symbol
      && q[|a| + 1 + |symbol| + 1..|q| - 4] == b
      && q[|q| - 4..] == " = ?"
  {
    var q := a + " " + symbol + " " + b + " = ?";
    var head := a + " " + symbol + " ";
    assert q == head + (b + " = ?");
    assert q[..|head|] == head && q[|head|..] == b + " = ?";
    assert head[..|a|] == a && head[|a|] == ' ';
    assert head[|a| + 1..|a| + 1 + |symbol|] == symbol;
  }

  /** How a question reads: the first operand and a space, the symbol, a
      space, the second operand and the closing `" = ?"`; for the positive
      operands the generator draws, each operand's digits read back to it. */
  lemma QuestionLayout(num1: int, symbol: string, num2: int)
    requires num1 >= 0 && num2 >= 0
    ensures var q, a, b := Question(num1, symbol, num2), NatToString(num1), NatToString(num2);
      && |q| == |a| + |symbol| + |b| + 6
      && q[..|a|] == a && q[|a|] == ' '
      && q[|a| + 1..|a| + 1 + |symbol|] == symbol
      && q[|a| + 1 + |symbol| + 1..|q| - 4] == b
      && q[|q| - 4..] == " = ?"
      && DigitsValue(a) == num1 && DigitsValue(b) == num2
  {
    TemplateLayout(NatToString(num1), symbol, NatToString(num2));
    NatToStringRoundTrip(num1);
    NatToStringRoundTrip(num2);
  }

  /** `generateEquation` once its random draws are made: the `when` over the
      operator symbol, including the `else` branch that falls back to addition.
      Division is Kotlin `Int` division; with both operands positive it
      truncates exactly as Dafny's `/` does, so the answer is the whole quotient. */
  function GenerateEquation(num1: int, num2: int, operator: string): (e: Equation)
    requires MinOperand <= num1 <= MaxOperand && MinOperand <= num2 <= MaxOperand
    ensures operator == "-" ==> e.answer + num2 == num1
    ensures operator == "*" ==> e.answer == num1 * num2
    ensures operator !in ["-", "*", "/"] ==> e.answer == num1 + num2
    ensures operator in Operators ==> e.question == Question(num1, operator, num2)
    ensures operator !in Operators ==> e.question == Question(num1, "+", num2)
  {
    if operator == "+" then Equation(Question(num1, "+", num2), num1 + num2)
    else if operator == "-" then Equation(Question(num1, "-", num2), num1 - num2)
    else if operator == "*" then Equation(Question(num1, "*", num2), num1 * num2)
    else if operator == "/" then Equation(Question(num1, "/", num2), num1 / num2)
    else Equation(Question(num1, "+", num2), num1 + num2)
  }

  /** For positive operands, `/` is the truncated quotient: the largest whole
      `q` with `b * q <= a`. */
  lemma TruncatedQuotient(a: int, b: int)
    requires MinOperand <= a <= MaxOperand && MinOperand <= b <= MaxOperand
    ensures 0 <= a / b <= a && b * (a / b) <= a < b * (a / b + 1)
  {
    var q, m := a / b, a % b;
    assert a == b * q + m && 0 <= m < b;
    assert b * (q + 1) == b * q + b;
  }

  /** The answer to a division question is the quotient truncated toward zero. */
  lemma DivisionAnswer(num1: int, num2: int)
    requires MinOperand <= num1 <= MaxOperand && MinOperand <= num2 <= MaxOperand
    ensures var q := GenerateEquation(num1, num2, "/").answer;
      0 <= q <= num1 && num2 * q <= num1 < num2 * (q + 1)
  {
    assert GenerateEquation(num1, num2, "/").answer == num1 / num2;
    TruncatedQuotient(num1, num2);
  }

  /** Whatever the operator, the answer lies in [1 - 19, 19 * 19] = [-18, 361]. */
  lemma AnswerBounds(num1: int, num2: int, operator: string)
    requires MinOperand <= num1 <= MaxOperand && MinOperand <= num2 <= MaxOperand
    ensures MinOperand - MaxOperand <= GenerateEquation(num1, num2, operator).answer <= MaxOperand * MaxOperand
  {
    if operator == "*" {
      assert num1 * num2 <= MaxOperand * num2 <= MaxOperand * MaxOperand;
    } else if operator == "/" {
      DivisionAnswer(num1, num2);
    }
  }

  /** One call of `generateEquation` with the given draws. */
  function Generate(d: Draw): (e: Equation)
    requires ValidDraw(d)
    ensures e.question == Question(d.num1, Operators[d.operatorIndex], d.num2)
  {
    GenerateEquation(d.num1, d.num2, Operators[d.operatorIndex])
  }

  /** Every drawn operator is one the `when` names, so the fallback branch is
      never taken, and the answer is the operator's own result; the divisor of
      a division is at least 1. */
  lemma DrawnAnswer(d: Draw)
    requires ValidDraw(d)
    ensures d.num2 >= 1
    ensures d.operatorIndex == 0 ==> Generate(d).answer == d.num1 + d.num2
    ensures d.operatorIndex == 1 ==> Generate(d).answer == d.num1 - d.num2
    ensures d.operatorIndex == 2 ==> Generate(d).answer == d.num1 * d.num2
    ensures d.operatorIndex == 3 ==> Generate(d).answer == d.num1 / d.num2
  {
  }

  /** The stored answer of a division is the truncated quotient, so it can
      differ from the exact quotient of the question shown: "7 / 2 = ?" expects 3. */
  lemma DivisionTruncates()
    ensures Generate(Draw(7, 2, 3)).answer == 3
    ensures 2 * Generate(Draw(7, 2, 3)).answer != 7
  {
  }
}
