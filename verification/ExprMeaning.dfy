/** What the texts accepted by ExprEval compute, in plain arithmetic: the decimal numbers and
    `%value%`, the five operators and the two signs, their precedence, and blanks between them. */
module ExprMeaning {
  import opened Wrappers
  import opened ExprEval

  // ── Writing a tree ─────────────────────────────────────────────────

  function Sign(b: BinOp): string {
    match b case Add => "+" case Sub => "-" case Mul => "*" case Div => "/" case Mod => "%"
  }

  /** A tree as text, with `sep` behind every token. */
  function Show(e: Expr, sep: string): string {
    match e
    case Lit(n) => (if n >= 0 then Text(n) else "") + sep
    case Value => "%value%" + sep
    case Paren(i) => "(" + sep + (Show(i, sep) + (")" + sep))
    case Un(u, p) => (if u == Neg then "-" else "!") + sep + Show(p, sep)
    case Bin(b, l, r) => Show(l, sep) + (Sign(b) + sep + Show(r, sep))
  }

  predicate Blank(sep: string) { forall i :: 0 <= i < |sep| ==> IsBlank(sep[i]) }

  lemma {:induction false} BlanksSkipped(due: bool, sep: string, rest: string)
    requires Blank(sep)
    ensures Lex(due, sep + rest) == Lex(due, rest)
    decreases |sep|
  {
    if sep == "" {
      assert sep + rest == rest;
    } else {
      assert (sep + rest)[1..] == sep[1..] + rest;
      BlanksSkipped(due, sep[1..], rest);
    }
  }

  // What follows a number: nothing, or a character that is no digit.
  predicate Ends(rest: string) { rest == "" || !IsDigit(rest[0]) }

  lemma TextDigits(n: nat)
    ensures AllDigits(Text(n))
  {
    forall k | 0 <= k < |Text(n)| ensures IsDigit(Text(n)[k]) {
      assert Text(n)[k] in Text(n);
    }
  }

  lemma {:induction false} DecimalOfText(n: nat)
    ensures AllDigits(Text(n)) && Decimal(Text(n)) == n
  {
    TextDigits(n);
    if n >= 10 {
      DecimalOfText(n / 10);
      assert Text(n)[..|Text(n)| - 1] == Text(n / 10);
    } else {
      assert Text(n)[..0] == "";
    }
  }

  lemma TextToken(n: nat, rest: string)
    requires n <= INT32_MAX && Ends(rest)
    ensures NextToken(true, Text(n) + rest) == Some((TLit(n), |Text(n)|))
  {
    var s := Text(n) + rest;
    assert s[..|Text(n)|] == Text(n);
    assert s[0] in Text(n);
    RunIs(s, |Text(n)|);
    DecimalOfText(n);
  }

  // Lexing one token off the front, and the blanks behind it.
  lemma TokenOff(due: bool, head: string, t: Token, sep: string, rest: string)
    requires head != "" && !IsBlank(head[0]) && Blank(sep)
    requires NextToken(due, head + (sep + rest)) == Some((t, |head|))
    ensures Lex(due, head + (sep + rest)) == Joined([t], Lex(DueAfter(t), rest))
  {
    var s := head + (sep + rest);
    assert s[|head|..] == sep + rest;
    BlanksSkipped(DueAfter(t), sep, rest);
  }

  function Joined(a: seq<Token>, b: Option<seq<Token>>): Option<seq<Token>> {
    match b case None => None case Some(ts) => Some(a + ts)
  }

  lemma JoinedTwice(a: seq<Token>, b: seq<Token>, c: Option<seq<Token>>)
    ensures Joined(a, Joined(b, c)) == Joined(a + b, c)
  {
    if c.Some? { assert a + (b + c.value) == (a + b) + c.value; }
  }

  lemma SepEnds(sep: string, rest: string)
    requires Blank(sep) && Ends(rest)
    ensures Ends(sep + rest)
  {
  }

  lemma SignToken(b: BinOp, rest: string)
    ensures NextToken(false, Sign(b) + rest) == Some((TBin(b), 1)) && |Sign(b)| == 1 && !IsBlank(Sign(b)[0]) && !IsDigit(Sign(b)[0])
  {
  }

  lemma OpenToken(rest: string)
    ensures NextToken(true, "(" + rest) == Some((TOpen, 1))
    ensures NextToken(false, ")" + rest) == Some((TClose, 1))
  {
  }

  lemma UnaryToken(rest: string)
    ensures NextToken(true, "-" + rest) == Some((TUn(Neg), 1))
    ensures NextToken(true, "!" + rest) == Some((TUn(Not), 1))
  {
  }

  /** Lexing a tree's text gives the tree's tokens. */
  lemma {:induction false} LexShow(e: Expr, level: nat, sep: string, rest: string)
    requires WellFormed(e, level) && Blank(sep) && Ends(rest)
    ensures Lex(true, Show(e, sep) + rest) == Joined(Flatten(e), Lex(false, rest))
    decreases e, 1
  {
    match e
    case Lit(n) => LexNumber(n, sep, rest);
    case Value => LexValue(sep, rest);
    case Paren(i) => LexParen(i, sep, rest);
    case Un(u, p) => LexUnary(u, p, sep, rest);
    case Bin(b, l, r) => LexBinary(b, l, r, sep, rest);
  }

  lemma LexNumber(n: nat, sep: string, rest: string)
    requires n <= INT32_MAX && Blank(sep) && Ends(rest)
    ensures Lex(true, Show(Lit(n), sep) + rest) == Joined([TLit(n)], Lex(false, rest))
  {
    SepEnds(sep, rest);
    TextToken(n, sep + rest);
    assert Text(n)[0] in Text(n);
    TokenOff(true, Text(n), TLit(n), sep, rest);
    assert Show(Lit(n), sep) + rest == Text(n) + (sep + rest);
  }

  lemma LexValue(sep: string, rest: string)
    requires Blank(sep)
    ensures Lex(true, Show(Value, sep) + rest) == Joined([TValue], Lex(false, rest))
  {
    assert "%value%" <= "%value%" + (sep + rest);
    TokenOff(true, "%value%", TValue, sep, rest);
    assert Show(Value, sep) + rest == "%value%" + (sep + rest);
  }

  lemma {:induction false} LexParen(i: Expr, sep: string, rest: string)
    requires WellFormed(i, 1) && Blank(sep) && Ends(rest)
    ensures Lex(true, Show(Paren(i), sep) + rest) == Joined(Flatten(Paren(i)), Lex(false, rest))
    decreases i, 2
  {
    var tail := ")" + (sep + rest);
    var inner := Show(i, sep) + tail;
    Enclosed(sep, Show(i, sep), rest);
    OpenToken(sep + inner);
    TokenOff(true, "(", TOpen, sep, inner);
    LexShow(i, 1, sep, tail);
    OpenToken(sep + rest);
    TokenOff(false, ")", TClose, sep, rest);
    JoinedThrice([TOpen], Flatten(i), [TClose], Lex(false, rest));
  }

  lemma Enclosed(sep: string, x: string, rest: string)
    ensures ("(" + sep + (x + (")" + sep))) + rest == "(" + (sep + (x + (")" + (sep + rest))))
  {
  }

  lemma Between(x: string, sign: string, sep: string, y: string, rest: string)
    ensures (x + (sign + sep + y)) + rest == x + (sign + (sep + (y + rest)))
  {
  }

  lemma JoinedThrice(a: seq<Token>, b: seq<Token>, c: seq<Token>, d: Option<seq<Token>>)
    ensures Joined(a, Joined(b, Joined(c, d))) == Joined(a + b + c, d)
  {
    JoinedTwice(b, c, d);
    JoinedTwice(a, b + c, d);
    assert a + (b + c) == a + b + c;
  }

  lemma {:induction false} LexUnary(u: UnOp, p: Expr, sep: string, rest: string)
    requires WellFormed(p, 4) && Blank(sep) && Ends(rest)
    ensures Lex(true, Show(Un(u, p), sep) + rest) == Joined(Flatten(Un(u, p)), Lex(false, rest))
    decreases p, 2
  {
    var head := if u == Neg then "-" else "!";
    var inner := Show(p, sep) + rest;
    assert Show(Un(u, p), sep) + rest == head + (sep + inner);
    UnaryToken(sep + inner);
    TokenOff(true, head, TUn(u), sep, inner);
    LexShow(p, 4, sep, rest);
    JoinedTwice([TUn(u)], Flatten(p), Lex(false, rest));
  }

  lemma {:induction false} LexBinary(b: BinOp, l: Expr, r: Expr, sep: string, rest: string)
    requires WellFormed(l, Prec(b)) && WellFormed(r, Prec(b) + 1) && Blank(sep) && Ends(rest)
    ensures Lex(true, Show(Bin(b, l, r), sep) + rest) == Joined(Flatten(Bin(b, l, r)), Lex(false, rest))
    decreases Bin(b, l, r), 0
  {
    var right := Show(r, sep) + rest;
    var tail := Sign(b) + (sep + right);
    LexSign(b, sep, right);
    LexShow(l, Prec(b), sep, tail);
    LexShow(r, Prec(b) + 1, sep, rest);
    BinaryParts(b, l, r, sep, rest, Show(l, sep) + tail);
    JoinedThrice(Flatten(l), [TBin(b)], Flatten(r), Lex(false, rest));
  }

  lemma BinaryParts(b: BinOp, l: Expr, r: Expr, sep: string, rest: string, text: string)
    requires text == Show(l, sep) + (Sign(b) + (sep + (Show(r, sep) + rest)))
    ensures Show(Bin(b, l, r), sep) + rest == text
    ensures Flatten(Bin(b, l, r)) == Flatten(l) + [TBin(b)] + Flatten(r)
  {
    Between(Show(l, sep), Sign(b), sep, Show(r, sep), rest);
  }

  lemma LexSign(b: BinOp, sep: string, right: string)
    requires Blank(sep)
    ensures Ends(Sign(b) + (sep + right))
    ensures Lex(false, Sign(b) + (sep + right)) == Joined([TBin(b)], Lex(true, right))
  {
    SignToken(b, sep + right);
    TokenOff(false, Sign(b), TBin(b), sep, right);
  }

  /** Every tree of the grammar has a text: with blanks in front and behind every token it is
      accepted exactly when the tree is within the caps, and computes the tree. */
  lemma ShowComputes(e: Expr, sep: string, value: int32)
    requires WellFormed(e, 1) && Blank(sep)
    ensures Drive(Start, sep + Show(e, sep)).Some? <==> WithinCaps(e)
    ensures WithinCaps(e) ==> Outcome(sep + Show(e, sep), value) == Eval(e, value)
    ensures WithinCaps(e) ==> Drive(Start, sep + Show(e, sep)) == Some(Postfix(e))
  {
    var s := Show(e, sep);
    BlanksSkipped(true, sep, s);
    LexShow(e, 1, sep, "");
    assert s + "" == s && Flatten(e) + [] == Flatten(e);
    DriveCorrect(sep + s);
    assert Spells(sep + s, e);
    if WithinCaps(e) { CompiledProgramComputesTree(sep + s, e, value); }
  }

  /** What a text gives for a value: none when it is refused, or divides by zero. */
  function Outcome(text: string, value: int32): Option<int32> {
    match Drive(Start, text) case None => None case Some(code) => Result(code, value)
  }

  // ── Plain arithmetic ───────────────────────────────────────────────

  /** An operand: a number in decimal, or the trigger's value. */
  datatype Operand = Number(n: nat) | Trigger

  predicate Fit(a: Operand) { a.Number? ==> a.n <= INT32_MAX }

  function Spelled(a: Operand): string {
    match a case Number(n) => Text(n) case Trigger => "%value%"
  }

  function Worth(a: Operand, value: int32): int {
    match a case Number(n) => n case Trigger => value
  }

  /** `r` is `v`, or the end of the 32-bit range that `v` is past. */
  predicate Saturates(v: int, r: Option<int32>) {
    r.Some?
    && (v > 0x7FFF_FFFF ==> r.value == 0x7FFF_FFFF)
    && (v < -0x8000_0000 ==> r.value == -0x8000_0000)
    && (-0x8000_0000 <= v <= 0x7FFF_FFFF ==> r.value == v)
  }

  /** `q` is x divided by y without its fraction, and `m` what is left over, with the sign of x. */
  predicate Divides(x: int, y: int, q: int, m: int) {
    x == y * q + m && (x >= 0 ==> 0 <= m) && (x <= 0 ==> m <= 0)
    && (if y > 0 then -y < m < y else y < m < -y)
  }

  function Tree(a: Operand): Expr
    requires Fit(a)
  {
    match a case Number(n) => Lit(n) case Trigger => Value
  }

  lemma OperandIs(a: Operand, sep: string, value: int32)
    requires Fit(a)
    ensures WellFormed(Tree(a), 4) && Show(Tree(a), sep) == Spelled(a) + sep && Eval(Tree(a), value) == Some(Worth(a, value))
    ensures |Postfix(Tree(a))| == 1 && Nest(Tree(a)) == 0 && NoLiteralZero(Tree(a))
    ensures Strip(Tree(a)) == Lit(0) <==> a == Number(0)
  {
  }

  /** a + b, a - b and a * b of two operands, exact up to the ends of the range. */
  lemma SumDifferenceProduct(a: Operand, b: Operand, sep: string, value: int32)
    requires Fit(a) && Fit(b) && Blank(sep)
    ensures Saturates(Worth(a, value) + Worth(b, value), Outcome(sep + Spelled(a) + sep + "+" + sep + Spelled(b) + sep, value))
    ensures Saturates(Worth(a, value) - Worth(b, value), Outcome(sep + Spelled(a) + sep + "-" + sep + Spelled(b) + sep, value))
    ensures Saturates(Worth(a, value) * Worth(b, value), Outcome(sep + Spelled(a) + sep + "*" + sep + Spelled(b) + sep, value))
  {
    BinaryText(Add, "+", a, b, sep, value);
    BinaryText(Sub, "-", a, b, sep, value);
    BinaryText(Mul, "*", a, b, sep, value);
  }

  lemma BinaryText(o: BinOp, sign: string, a: Operand, b: Operand, sep: string, value: int32)
    requires Fit(a) && Fit(b) && Blank(sep) && sign == Sign(o) && !((o == Div || o == Mod) && b == Number(0))
    ensures Drive(Start, sep + Spelled(a) + sep + sign + sep + Spelled(b) + sep).Some?
    ensures Outcome(sep + Spelled(a) + sep + sign + sep + Spelled(b) + sep, value) == ApplyBin(o, Worth(a, value), Worth(b, value))
  {
    OperandIs(a, sep, value);
    OperandIs(b, sep, value);
    var e := Bin(o, Tree(a), Tree(b));
    Spaced(sep, Spelled(a), sign, Spelled(b));
    ShowComputes(e, sep, value);
  }

  lemma Spaced(sep: string, x: string, sign: string, y: string)
    ensures sep + x + sep + sign + sep + y + sep == sep + ((x + sep) + (sign + sep + (y + sep)))
  {
  }

  /** a / b and a % b: refused when b is the literal 0, without a result when the value is 0, and
      else the quotient without its fraction and the remainder. */
  lemma QuotientRemainder(a: Operand, b: Operand, sep: string, value: int32)
    requires Fit(a) && Fit(b) && Blank(sep)
    ensures var x, y := Worth(a, value), Worth(b, value);
            var over, left := sep + Spelled(a) + sep + "/" + sep + Spelled(b) + sep, sep + Spelled(a) + sep + "%" + sep + Spelled(b) + sep;
            && (Drive(Start, over).Some? <==> b != Number(0)) && (Drive(Start, left).Some? <==> b != Number(0))
            && (y == 0 ==> Outcome(over, value) == None && Outcome(left, value) == None)
            && (y != 0 ==> exists q, m :: Divides(x, y, q, m) && Saturates(q, Outcome(over, value)) && Saturates(m, Outcome(left, value)))
  {
    if b == Number(0) {
      RefusedText(Div, "/", a, sep);
      RefusedText(Mod, "%", a, sep);
    } else {
      BinaryText(Div, "/", a, b, sep, value);
      BinaryText(Mod, "%", a, b, sep, value);
      var x, y := Worth(a, value), Worth(b, value);
      if y != 0 {
        TruncatedDivision(x, y);
        assert Divides(x, y, TruncDiv(x, y), TruncMod(x, y));
      }
    }
  }

  lemma RefusedText(o: BinOp, sign: string, a: Operand, sep: string)
    requires Fit(a) && Blank(sep) && sign == Sign(o) && (o == Div || o == Mod)
    ensures Drive(Start, sep + Spelled(a) + sep + sign + sep + Text(0) + sep).None?
  {
    OperandIs(a, sep, 0);
    OperandIs(Number(0), sep, 0);
    var e := Bin(o, Tree(a), Lit(0));
    Spaced(sep, Spelled(a), sign, Text(0));
    ShowComputes(e, sep, 0);
  }

  /** -a changes the sign, of the least number to the greatest; !a is 1 for 0 and else 0. */
  lemma SignAndNot(a: Operand, sep: string, value: int32)
    requires Fit(a) && Blank(sep)
    ensures Saturates(-Worth(a, value), Outcome(sep + "-" + sep + Spelled(a) + sep, value))
    ensures Outcome(sep + "!" + sep + Spelled(a) + sep, value) == Some(if Worth(a, value) == 0 then 1 else 0)
  {
    OperandIs(a, sep, value);
    var e, f := Un(Neg, Tree(a)), Un(Not, Tree(a));
    Signed(sep, "-", Spelled(a));
    Signed(sep, "!", Spelled(a));
    ShowComputes(e, sep, value);
    ShowComputes(f, sep, value);
  }

  lemma Signed(sep: string, sign: string, x: string)
    ensures sep + sign + sep + x + sep == sep + (sign + sep + (x + sep))
  {
  }

  /** a + b * c takes the product first. */
  lemma SumOfProduct(a: Operand, b: Operand, c: Operand, value: int32)
    requires Fit(a) && Fit(b) && Fit(c)
    ensures var p := Outcome(Spelled(b) + "*" + Spelled(c), value);
            && Saturates(Worth(b, value) * Worth(c, value), p)
            && Saturates(Worth(a, value) + p.value, Outcome(Spelled(a) + "+" + Spelled(b) + "*" + Spelled(c), value))
  {
    LastTexts(Tree(a), Tree(b), Tree(c), Add, Mul, Spelled(a), Spelled(b), Spelled(c));
    LastTrees(a, b, c, Add, Mul);
    PairComputes(Mul, b, c, value);
    OperandIs(a, "", value);
    EvalOf(Add, Tree(a), Bin(Mul, Tree(b), Tree(c)), value);
    CompoundComputes(Bin(Add, Tree(a), Bin(Mul, Tree(b), Tree(c))), value);
  }

  /** a - b - c takes the first two first. */
  lemma DifferenceFirst(a: Operand, b: Operand, c: Operand, value: int32)
    requires Fit(a) && Fit(b) && Fit(c)
    ensures var p := Outcome(Spelled(a) + "-" + Spelled(b), value);
            && Saturates(Worth(a, value) - Worth(b, value), p)
            && Saturates(p.value - Worth(c, value), Outcome(Spelled(a) + "-" + Spelled(b) + "-" + Spelled(c), value))
  {
    LeftTexts(Tree(a), Tree(b), Tree(c), Sub, Sub, Spelled(a), Spelled(b), Spelled(c));
    LeftTrees(a, b, c, Sub, Sub);
    PairComputes(Sub, a, b, value);
    OperandIs(c, "", value);
    EvalOf(Sub, Bin(Sub, Tree(a), Tree(b)), Tree(c), value);
    CompoundComputes(Bin(Sub, Bin(Sub, Tree(a), Tree(b)), Tree(c)), value);
  }

  /** (a + b) * c takes the sum first. */
  lemma ProductOfSum(a: Operand, b: Operand, c: Operand, value: int32)
    requires Fit(a) && Fit(b) && Fit(c)
    ensures var p := Outcome(Spelled(a) + "+" + Spelled(b), value);
            && Saturates(Worth(a, value) + Worth(b, value), p)
            && Saturates(p.value * Worth(c, value), Outcome("(" + Spelled(a) + "+" + Spelled(b) + ")" + "*" + Spelled(c), value))
  {
    var sum := Bin(Add, Tree(a), Tree(b));
    PairComputes(Add, a, b, value);
    OperandIs(a, "", value);
    OperandIs(b, "", value);
    OperandIs(c, "", value);
    LeftTexts(Tree(a), Tree(b), Tree(c), Add, Mul, Spelled(a), Spelled(b), Spelled(c));
    GroupTree(sum, Tree(c));
    EvalOf(Mul, Paren(sum), Tree(c), value);
    CompoundComputes(Bin(Mul, Paren(sum), Tree(c)), value);
  }

  lemma GroupTree(i: Expr, r: Expr)
    requires Plain(i) && PlainLeaf(r) && NoLiteralZero(i) && NoLiteralZero(r)
    ensures WellFormed(Bin(Mul, Paren(i), r), 1) && WithinCaps(Bin(Mul, Paren(i), r))
  {
    Weaken(r, 4, 3);
    Weaken(i, Prec(i.b), 1);
    Enclosing(i, 2);
  }

  /** -a * b changes the sign first. */
  lemma SignFirst(a: Operand, b: Operand, value: int32)
    requires Fit(a) && Fit(b)
    ensures var p := Outcome("-" + Spelled(a), value);
            && Saturates(-Worth(a, value), p)
            && Saturates(p.value * Worth(b, value), Outcome("-" + Spelled(a) + "*" + Spelled(b), value))
  {
    OperandIs(a, "", value);
    OperandIs(b, "", value);
    var e := Un(Neg, Tree(a));
    SignTexts(Tree(a), Tree(b), Spelled(a), Spelled(b));
    SignTree(Tree(a), Tree(b));
    CompoundComputes(e, value);
    EvalOf(Mul, e, Tree(b), value);
    CompoundComputes(Bin(Mul, e, Tree(b)), value);
  }

  lemma SignTexts(l: Expr, r: Expr, x: string, y: string)
    requires Show(l, "") == x && Show(r, "") == y
    ensures Show(Un(Neg, l), "") == "-" + x && Show(Bin(Mul, Un(Neg, l), r), "") == "-" + x + "*" + y
  {
    ShowTight(Mul, Un(Neg, l), r);
    assert "-" + "" == "-";
    assert ("-" + x) + ("*" + y) == "-" + x + "*" + y;
  }

  lemma SignTree(l: Expr, r: Expr)
    requires PlainLeaf(l) && PlainLeaf(r) && NoLiteralZero(l) && NoLiteralZero(r)
    ensures WellFormed(Un(Neg, l), 1) && WithinCaps(Un(Neg, l))
    ensures WellFormed(Bin(Mul, Un(Neg, l), r), 1) && WithinCaps(Bin(Mul, Un(Neg, l), r))
  {
    Weaken(r, 4, 3);
  }

  lemma EvalOf(o: BinOp, l: Expr, r: Expr, value: int32)
    requires Eval(l, value).Some? && Eval(r, value).Some?
    ensures Eval(Bin(o, l, r), value) == ApplyBin(o, Eval(l, value).value, Eval(r, value).value)
    ensures Eval(Paren(l), value) == Eval(l, value)
  {
  }

  lemma PairComputes(o: BinOp, a: Operand, b: Operand, value: int32)
    requires Fit(a) && Fit(b) && o != Div && o != Mod
    ensures Eval(Bin(o, Tree(a), Tree(b)), value) == ApplyBin(o, Worth(a, value), Worth(b, value))
    ensures Outcome(Spelled(a) + Sign(o) + Spelled(b), value) == ApplyBin(o, Worth(a, value), Worth(b, value))
    ensures Plain(Bin(o, Tree(a), Tree(b))) && NoLiteralZero(Bin(o, Tree(a), Tree(b)))
  {
    OperandIs(a, "", value);
    OperandIs(b, "", value);
    PairIs(o, a, b);
    EvalOf(o, Tree(a), Tree(b), value);
    PairText(o, Tree(a), Tree(b), Spelled(a), Spelled(b));
    PairCaps(o, Tree(a), Tree(b));
    CompoundComputes(Bin(o, Tree(a), Tree(b)), value);
  }

  lemma PairText(o: BinOp, l: Expr, r: Expr, x: string, y: string)
    requires Show(l, "") == x + "" && Show(r, "") == y + ""
    ensures Show(Bin(o, l, r), "") == x + Sign(o) + y
  {
    ShowTight(o, l, r);
    assert x + "" == x && y + "" == y && x + Sign(o) + y == x + (Sign(o) + y);
  }

  lemma PairCaps(o: BinOp, l: Expr, r: Expr)
    requires Plain(Bin(o, l, r)) && NoLiteralZero(l) && NoLiteralZero(r) && o != Div && o != Mod
    ensures NoLiteralZero(Bin(o, l, r)) && WellFormed(Bin(o, l, r), 1) && WithinCaps(Bin(o, l, r))
  {
    Weaken(Bin(o, l, r), Prec(o), 1);
  }

  lemma CompoundComputes(e: Expr, value: int32)
    requires WellFormed(e, 1) && WithinCaps(e)
    ensures Outcome(Show(e, ""), value) == Eval(e, value)
  {
    ShowComputes(e, "", value);
    assert "" + Show(e, "") == Show(e, "");
  }

  predicate IsSign(c: char) { c == '+' || c == '-' || c == '*' || c == '/' || c == '%' }
  predicate IsSumSign(c: char) { c == '+' || c == '-' }

  function OpOf(c: char): (b: BinOp)
    requires IsSign(c)
    ensures Sign(b) == [c]
  {
    if c == '+' then Add else if c == '-' then Sub else if c == '*' then Mul else if c == '/' then Div else Mod
  }

  /** Two operators in a row: the program is that of a + (b * c) when a sum comes before a product,
      and of (a * b) + c or (a - b) - c in any other case. */
  lemma Precedence(a: Operand, b: Operand, c: Operand, s: char, t: char)
    requires Fit(a) && Fit(b) && Fit(c) && IsSign(s) && IsSign(t)
    ensures Drive(Start, Spelled(a) + [s] + Spelled(b) + [t] + Spelled(c)) ==
            if IsSumSign(s) && !IsSumSign(t)
            then Drive(Start, Spelled(a) + [s] + "(" + Spelled(b) + [t] + Spelled(c) + ")")
            else Drive(Start, "(" + Spelled(a) + [s] + Spelled(b) + ")" + [t] + Spelled(c))
  {
    OperandIs(a, "", 0);
    OperandIs(b, "", 0);
    OperandIs(c, "", 0);
    if IsSumSign(s) && !IsSumSign(t) {
      ProductLast(a, b, c, OpOf(s), OpOf(t));
    } else {
      LeftFirst(a, b, c, OpOf(s), OpOf(t));
    }
  }

  lemma ProductLast(a: Operand, b: Operand, c: Operand, o: BinOp, p: BinOp)
    requires Fit(a) && Fit(b) && Fit(c) && (o == Add || o == Sub) && p != Add && p != Sub
    ensures Drive(Start, Spelled(a) + Sign(o) + Spelled(b) + Sign(p) + Spelled(c)) ==
            Drive(Start, Spelled(a) + Sign(o) + "(" + Spelled(b) + Sign(p) + Spelled(c) + ")")
  {
    LastTexts(Tree(a), Tree(b), Tree(c), o, p, Spelled(a), Spelled(b), Spelled(c));
    LastTrees(a, b, c, o, p);
    var inner := Bin(p, Tree(b), Tree(c));
    SameProgram(Bin(o, Tree(a), inner), Bin(o, Tree(a), Paren(inner)));
  }

  lemma LastTexts(l: Expr, m: Expr, r: Expr, o: BinOp, p: BinOp, x: string, y: string, z: string)
    requires Show(l, "") == x && Show(m, "") == y && Show(r, "") == z
    ensures Show(Bin(o, l, Bin(p, m, r)), "") == x + Sign(o) + y + Sign(p) + z
    ensures Show(Bin(o, l, Paren(Bin(p, m, r))), "") == x + Sign(o) + "(" + y + Sign(p) + z + ")"
  {
    ShowTight(p, m, r);
    ShowTight(o, l, Bin(p, m, r));
    ShowTight(o, l, Paren(Bin(p, m, r)));
    Tight(x, Sign(o), y, Sign(p), z);
  }

  lemma LastTrees(a: Operand, b: Operand, c: Operand, o: BinOp, p: BinOp)
    requires Fit(a) && Fit(b) && Fit(c) && (o == Add || o == Sub) && p != Add && p != Sub
    ensures Show(Tree(a), "") == Spelled(a) && Show(Tree(b), "") == Spelled(b) && Show(Tree(c), "") == Spelled(c)
    ensures var inner := Bin(p, Tree(b), Tree(c));
            var e, f := Bin(o, Tree(a), inner), Bin(o, Tree(a), Paren(inner));
            WellFormed(e, 1) && WellFormed(f, 1) && Postfix(e) == Postfix(f) && (WithinCaps(e) <==> WithinCaps(f))
  {
    OperandIs(a, "", 0);
    OperandIs(b, "", 0);
    OperandIs(c, "", 0);
    PairIs(p, b, c);
    ParenRight(o, Tree(a), Bin(p, Tree(b), Tree(c)));
  }

  // Two operands and an operator.
  predicate Plain(e: Expr) {
    e.Bin? && |Postfix(e)| == 3 && Nest(e) == 0 && WellFormed(e, Prec(e.b))
  }

  predicate PlainLeaf(e: Expr) {
    |Postfix(e)| == 1 && Nest(e) == 0 && WellFormed(e, 4)
  }

  lemma PairIs(o: BinOp, a: Operand, b: Operand)
    requires Fit(a) && Fit(b)
    ensures Plain(Bin(o, Tree(a), Tree(b)))
  {
    OperandIs(a, "", 0);
    OperandIs(b, "", 0);
  }

  lemma ParenRight(o: BinOp, l: Expr, i: Expr)
    requires PlainLeaf(l) && Plain(i) && Prec(o) < Prec(i.b)
    ensures var e, f := Bin(o, l, i), Bin(o, l, Paren(i));
            WellFormed(e, 1) && WellFormed(f, 1) && Postfix(e) == Postfix(f) && (WithinCaps(e) <==> WithinCaps(f))
  {
    Weaken(l, 4, Prec(o));
    Weaken(i, Prec(i.b), Prec(o) + 1);
    Weaken(i, Prec(i.b), 1);
    Enclosing(i, Prec(o) + 1);
  }

  lemma ParenLeft(p: BinOp, i: Expr, r: Expr)
    requires Plain(i) && PlainLeaf(r) && Prec(i.b) >= Prec(p)
    ensures var e, f := Bin(p, i, r), Bin(p, Paren(i), r);
            WellFormed(e, 1) && WellFormed(f, 1) && Postfix(e) == Postfix(f) && (WithinCaps(e) <==> WithinCaps(f))
  {
    Weaken(r, 4, Prec(p) + 1);
    Weaken(i, Prec(i.b), Prec(p));
    Weaken(i, Prec(i.b), 1);
    Enclosing(i, Prec(p));
  }

  lemma Enclosing(i: Expr, level: nat)
    ensures Postfix(Paren(i)) == Postfix(i) && Nest(Paren(i)) == Nest(i) + 1
    ensures NoLiteralZero(Paren(i)) <==> NoLiteralZero(i)
    ensures Strip(Paren(i)) == Strip(i)
    ensures WellFormed(i, 1) ==> WellFormed(Paren(i), level)
  {
  }

  lemma LeftFirst(a: Operand, b: Operand, c: Operand, o: BinOp, p: BinOp)
    requires Fit(a) && Fit(b) && Fit(c) && !((o == Add || o == Sub) && p != Add && p != Sub)
    ensures Drive(Start, Spelled(a) + Sign(o) + Spelled(b) + Sign(p) + Spelled(c)) ==
            Drive(Start, "(" + Spelled(a) + Sign(o) + Spelled(b) + ")" + Sign(p) + Spelled(c))
  {
    LeftTexts(Tree(a), Tree(b), Tree(c), o, p, Spelled(a), Spelled(b), Spelled(c));
    LeftTrees(a, b, c, o, p);
    var inner := Bin(o, Tree(a), Tree(b));
    SameProgram(Bin(p, inner, Tree(c)), Bin(p, Paren(inner), Tree(c)));
  }

  lemma LeftTexts(l: Expr, m: Expr, r: Expr, o: BinOp, p: BinOp, x: string, y: string, z: string)
    requires Show(l, "") == x && Show(m, "") == y && Show(r, "") == z
    ensures Show(Bin(p, Bin(o, l, m), r), "") == x + Sign(o) + y + Sign(p) + z
    ensures Show(Bin(p, Paren(Bin(o, l, m)), r), "") == "(" + x + Sign(o) + y + ")" + Sign(p) + z
  {
    ShowTight(o, l, m);
    ShowTight(p, Bin(o, l, m), r);
    ShowTight(p, Paren(Bin(o, l, m)), r);
    Tight(x, Sign(o), y, Sign(p), z);
  }

  lemma LeftTrees(a: Operand, b: Operand, c: Operand, o: BinOp, p: BinOp)
    requires Fit(a) && Fit(b) && Fit(c) && !((o == Add || o == Sub) && p != Add && p != Sub)
    ensures Show(Tree(a), "") == Spelled(a) && Show(Tree(b), "") == Spelled(b) && Show(Tree(c), "") == Spelled(c)
    ensures var inner := Bin(o, Tree(a), Tree(b));
            var e, f := Bin(p, inner, Tree(c)), Bin(p, Paren(inner), Tree(c));
            WellFormed(e, 1) && WellFormed(f, 1) && Postfix(e) == Postfix(f) && (WithinCaps(e) <==> WithinCaps(f))
  {
    OperandIs(a, "", 0);
    OperandIs(b, "", 0);
    OperandIs(c, "", 0);
    PairIs(o, a, b);
    ParenLeft(p, Bin(o, Tree(a), Tree(b)), Tree(c));
  }

  lemma ShowTight(b: BinOp, l: Expr, r: Expr)
    ensures Show(Bin(b, l, r), "") == Show(l, "") + (Sign(b) + Show(r, ""))
    ensures Show(Paren(Bin(b, l, r)), "") == "(" + (Show(Bin(b, l, r), "") + ")")
  {
    assert Sign(b) + "" == Sign(b) && "(" + "" == "(" && ")" + "" == ")";
  }

  lemma SameProgram(e: Expr, f: Expr)
    requires WellFormed(e, 1) && WellFormed(f, 1)
    requires Postfix(e) == Postfix(f) && (WithinCaps(e) <==> WithinCaps(f))
    ensures Drive(Start, Show(e, "")) == Drive(Start, Show(f, ""))
  {
    ShowComputes(e, "", 0);
    ShowComputes(f, "", 0);
    assert "" + Show(e, "") == Show(e, "") && "" + Show(f, "") == Show(f, "");
  }

  lemma Tight(x: string, s: string, y: string, t: string, z: string)
    ensures x + s + y + t + z == x + (s + (y + (t + z))) == (x + (s + y)) + (t + z)
    ensures x + s + "(" + y + t + z + ")" == x + (s + ("(" + ((y + (t + z)) + ")")))
    ensures "(" + x + s + y + ")" + t + z == ("(" + ((x + (s + y)) + ")")) + (t + z)
  {
    var u := y + (t + z);
    assert y + t + z == u && x + s + y + t + z == x + (s + u);
    assert x + s + "(" + y + t + z + ")" == x + (s + ("(" + (u + ")")));
    var v := x + (s + y);
    assert x + s + y == v;
    assert "(" + x + s + y + ")" + t + z == ("(" + (v + ")")) + (t + z);
  }
}
