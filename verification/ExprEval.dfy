/** The value-expression compiler of the rule engine: a non-recursive
    shunting-yard that turns text into RPN, and the fixed-stack machine that
    runs it.

    The grammar is stated once, on trees (`WellFormed`, `Flatten`); `Compile`
    is proved to accept exactly the texts of that grammar that stay within the
    caps and divide by no literal zero, and the program it emits is proved to
    compute `Eval` of the tree. */
module ExprEval {
  import opened Wrappers

  const INT32_MAX: int := 0x7FFF_FFFF
  const INT32_MIN: int := -0x8000_0000
  const TEXT_MAX: nat := 48
  const OPS_MAX: nat := 12
  const STACK_MAX: nat := 8
  const PAREN_MAX: nat := 6

  type int32 = x: int | INT32_MIN <= x <= INT32_MAX
  type int64 = x: int | -0x8000_0000_0000_0000 <= x <= 0x7FFF_FFFF_FFFF_FFFF

  datatype UnOp = Neg | Not
  datatype BinOp = Add | Sub | Mul | Div | Mod

  /** One program cell. `Corrupt` stands for every code byte past the last
      operation: a program can reach the evaluator damaged. */
  datatype Op =
    | PushImm(imm: int32)
    | PushVal
    | Unary(u: UnOp)
    | Binary(b: BinOp)
    | Corrupt

  // ── The grammar ───────────────────────────────────────────────────────

  datatype Expr =
    | Lit(n: int32)
    | Value
    | Paren(inner: Expr)
    | Un(u: UnOp, operand: Expr)
    | Bin(b: BinOp, left: Expr, right: Expr)

  function Prec(b: BinOp): (p: nat)
    ensures p == 1 || p == 2
  {
    if b == Add || b == Sub then 1 else 2
  }

  /** Level 1 is a sum, 2 a product, 3 a unary, 4 a primary. */
  predicate WellFormed(e: Expr, level: nat) {
    match e
    case Lit(n) => 0 <= n
    case Value => true
    case Paren(i) => WellFormed(i, 1)
    case Un(_, p) => level <= 3 && WellFormed(p, 4)
    case Bin(b, l, r) => level <= Prec(b) && WellFormed(l, Prec(b)) && WellFormed(r, Prec(b) + 1)
  }

  datatype Token = TLit(n: int32) | TValue | TUn(u: UnOp) | TBin(b: BinOp) | TOpen | TClose

  function Flatten(e: Expr): seq<Token> {
    match e
    case Lit(n) => [TLit(n)]
    case Value => [TValue]
    case Paren(i) => [TOpen] + Flatten(i) + [TClose]
    case Un(u, p) => [TUn(u)] + Flatten(p)
    case Bin(b, l, r) => Flatten(l) + [TBin(b)] + Flatten(r)
  }

  function Postfix(e: Expr): (c: seq<Op>)
    ensures |c| > 0
  {
    match e
    case Lit(n) => [PushImm(n)]
    case Value => [PushVal]
    case Paren(i) => Postfix(i)
    case Un(u, p) => Postfix(p) + [Unary(u)]
    case Bin(b, l, r) => Postfix(l) + Postfix(r) + [Binary(b)]
  }

  /** How deep the parentheses nest. */
  function Nest(e: Expr): nat {
    match e
    case Lit(_) => 0
    case Value => 0
    case Paren(i) => 1 + Nest(i)
    case Un(_, p) => Nest(p)
    case Bin(_, l, r) => Max(Nest(l), Nest(r))
  }

  function Max(a: nat, b: nat): nat { if a < b then b else a }

  function Strip(e: Expr): Expr {
    if e.Paren? then Strip(e.inner) else e
  }

  /** No division or modulo has the literal zero, bare or in parentheses, as
      its divisor. */
  predicate NoLiteralZero(e: Expr) {
    match e
    case Lit(_) => true
    case Value => true
    case Paren(i) => NoLiteralZero(i)
    case Un(_, p) => NoLiteralZero(p)
    case Bin(b, l, r) =>
      && NoLiteralZero(l) && NoLiteralZero(r)
      && ((b == Div || b == Mod) ==> Strip(r) != Lit(0))
  }

  lemma {:induction false} LastOfPostfix(e: Expr)
    ensures Postfix(e)[|Postfix(e)| - 1] == PushImm(0) <==> Strip(e) == Lit(0)
  {
    if e.Paren? {
      LastOfPostfix(e.inner);
    }
  }

  lemma {:induction false} Weaken(e: Expr, level: nat, lower: nat)
    requires WellFormed(e, level) && lower <= level
    ensures WellFormed(e, lower)
  {
  }

  // ── Reading tokens off the text ───────────────────────────────────────

  predicate IsDigit(c: char) { '0' <= c <= '9' }
  predicate IsBlank(c: char) { c == ' ' || c == '\t' }

  function DigitRun(s: string): (n: nat)
    ensures n <= |s|
    ensures forall i :: 0 <= i < n ==> IsDigit(s[i])
    ensures n < |s| ==> !IsDigit(s[n])
  {
    if s == [] || !IsDigit(s[0]) then 0 else 1 + DigitRun(s[1..])
  }

  function DigitValue(c: char): nat
    requires IsDigit(c)
  {
    c as int - '0' as int
  }

  function Decimal(s: string): nat
    requires forall i :: 0 <= i < |s| ==> IsDigit(s[i])
  {
    if s == [] then 0 else Decimal(s[..|s| - 1]) * 10 + DigitValue(s[|s| - 1])
  }

  lemma {:induction false} DecimalGrows(s: string, n: nat)
    requires forall i :: 0 <= i < |s| ==> IsDigit(s[i])
    requires n <= |s|
    ensures Decimal(s[..n]) <= Decimal(s)
    decreases |s| - n
  {
    if n == |s| {
      assert s[..n] == s;
    } else {
      DecimalGrows(s, n + 1);
      assert s[..n + 1][..n] == s[..n];
    }
  }

  const VALUE_WORD: string := "%value%"

  /** The token at the head of `s`, and how many characters it takes. What a
      character means depends on whether an operand is due: `-` is unary there
      and `%` starts `%value%`. */
  function NextToken(operandDue: bool, s: string): (r: Option<(Token, nat)>)
    requires s != []
    ensures r.Some? ==> 1 <= r.value.1 <= |s|
    ensures r.Some? && r.value.0.TLit? ==> 0 <= r.value.0.n
  {
    var c := s[0];
    if operandDue then
      if IsDigit(c) then
        var n := DigitRun(s);
        var v := Decimal(s[..n]);
        if v > INT32_MAX then None else Some((TLit(v), n))
      else if VALUE_WORD <= s then Some((TValue, 7))
      else if c == '-' then Some((TUn(Neg), 1))
      else if c == '!' then Some((TUn(Not), 1))
      else if c == '(' then Some((TOpen, 1))
      else None
    else
      match OpOfChar(c)
      case Some(b) => Some((TBin(b), 1))
      case None => if c == ')' then Some((TClose, 1)) else None
  }

  function OpOfChar(c: char): Option<BinOp> {
    if c == '+' then Some(Add)
    else if c == '-' then Some(Sub)
    else if c == '*' then Some(Mul)
    else if c == '/' then Some(Div)
    else if c == '%' then Some(Mod)
    else None
  }

  predicate DueAfter(t: Token) { t.TUn? || t.TBin? || t.TOpen? }

  function Lex(operandDue: bool, s: string): Option<seq<Token>>
    decreases |s|
  {
    if s == [] then Some([])
    else if IsBlank(s[0]) then Lex(operandDue, s[1..])
    else
      match NextToken(operandDue, s)
      case None => None
      case Some(tn) =>
        match Lex(DueAfter(tn.0), s[tn.1..])
        case None => None
        case Some(rest) => Some([tn.0] + rest)
  }

  /** `text` spells the tree `e`. */
  ghost predicate Spells(text: string, e: Expr) {
    WellFormed(e, 1) && Lex(true, text) == Some(Flatten(e))
  }

  /** What `Compile` demands of a grammatical text. */
  predicate WithinCaps(e: Expr) {
    |Postfix(e)| <= OPS_MAX && Nest(e) <= PAREN_MAX && NoLiteralZero(e)
  }

  // ── The shunting-yard, token by token ─────────────────────────────────

  datatype StackOp = SUn(u: UnOp) | SBin(b: BinOp) | SOpen

  function StackPrec(o: StackOp): nat {
    match o
    case SUn(_) => 3
    case SBin(b) => Prec(b)
    case SOpen => 0
  }

  function OpOf(o: StackOp): Op
    requires !o.SOpen?
  {
    match o
    case SUn(u) => Unary(u)
    case SBin(b) => Binary(b)
  }

  datatype State = State(prog: seq<Op>, depth: int, ops: seq<StackOp>, paren: nat, operandDue: bool, pending: bool)

  const Start := State([], 0, [], 0, true, false)

  function Emit(st: State, o: Op): Option<State> {
    if |st.prog| >= OPS_MAX then None
    else
      match o
      case PushImm(_) => if st.depth >= STACK_MAX then None else Some(st.(prog := st.prog + [o], depth := st.depth + 1))
      case PushVal => if st.depth >= STACK_MAX then None else Some(st.(prog := st.prog + [o], depth := st.depth + 1))
      case Unary(_) => if st.depth < 1 then None else Some(st.(prog := st.prog + [o]))
      case _ => if st.depth < 2 then None else Some(st.(prog := st.prog + [o], depth := st.depth - 1))
  }

  predicate LiteralZeroDivisor(prog: seq<Op>, o: StackOp) {
    (o == SBin(Div) || o == SBin(Mod)) && |prog| > 0 && prog[|prog| - 1] == PushImm(0)
  }

  function PopEmit(st: State): Option<State>
    requires |st.ops| > 0 && !st.ops[|st.ops| - 1].SOpen?
  {
    var o := st.ops[|st.ops| - 1];
    if LiteralZeroDivisor(st.prog, o) then None
    else Emit(st.(ops := st.ops[..|st.ops| - 1]), OpOf(o))
  }

  predicate Pops(ops: seq<StackOp>, p: nat) {
    |ops| > 0 && !ops[|ops| - 1].SOpen? && StackPrec(ops[|ops| - 1]) >= p
  }

  function PopWhile(st: State, p: nat): (r: Option<State>)
    ensures r.Some? ==> !Pops(r.value.ops, p) && |r.value.ops| <= |st.ops|
    ensures r.Some? ==> r.value.paren == st.paren && r.value.operandDue == st.operandDue && r.value.pending == st.pending
    decreases |st.ops|
  {
    if !Pops(st.ops, p) then Some(st)
    else
      match PopEmit(st)
      case None => None
      case Some(st') => PopWhile(st', p)
  }

  function Step(st: State, t: Token): (r: Option<State>)
    ensures r.Some? ==> r.value.operandDue == DueAfter(t)
  {
    if st.operandDue then
      match t
      case TLit(n) =>
        (match Emit(st, PushImm(n)) case None => None case Some(s) => Some(s.(operandDue := false, pending := false)))
      case TValue =>
        (match Emit(st, PushVal) case None => None case Some(s) => Some(s.(operandDue := false, pending := false)))
      case TUn(u) => if st.pending then None else Some(st.(ops := st.ops + [SUn(u)], pending := true))
      case TOpen =>
        if st.paren + 1 > PAREN_MAX then None
        else Some(st.(ops := st.ops + [SOpen], paren := st.paren + 1, pending := false))
      case _ => None
    else
      match t
      case TBin(b) =>
        (match PopWhile(st, Prec(b))
         case None => None
         case Some(s) => Some(s.(ops := s.ops + [SBin(b)], operandDue := true, pending := false)))
      case TClose =>
        if st.paren == 0 then None
        else
          (match PopWhile(st, 1)
           case None => None
           case Some(s) => if s.ops == [] then None else Some(s.(ops := s.ops[..|s.ops| - 1], paren := s.paren - 1)))
      case _ => None
  }

  function Finish(st: State): Option<seq<Op>> {
    if st.operandDue then None
    else
      match PopWhile(st, 1)
      case None => None
      case Some(s) => if s.ops == [] && s.depth == 1 && |s.prog| > 0 then Some(s.prog) else None
  }

  function Run(st: State, ts: seq<Token>): Option<seq<Op>>
    decreases |ts|
  {
    if ts == [] then Finish(st)
    else
      match Step(st, ts[0])
      case None => None
      case Some(st') => Run(st', ts[1..])
  }

  /** The same machine fed from the text, as the source runs it. */
  function Drive(st: State, s: string): Option<seq<Op>>
    decreases |s|
  {
    if s == [] then Finish(st)
    else if IsBlank(s[0]) then Drive(st, s[1..])
    else
      match NextToken(st.operandDue, s)
      case None => None
      case Some(tn) =>
        match Step(st, tn.0)
        case None => None
        case Some(st') => Drive(st', s[tn.1..])
  }

  /** Reading and parsing in one pass is parsing what was read. */
  lemma {:induction false} DriveIsRunOfLex(st: State, s: string)
    ensures Drive(st, s) == match Lex(st.operandDue, s) case None => None case Some(ts) => Run(st, ts)
    decreases |s|
  {
    if s == [] {
    } else if IsBlank(s[0]) {
      DriveIsRunOfLex(st, s[1..]);
    } else if NextToken(st.operandDue, s).Some? {
      var (t, n) := NextToken(st.operandDue, s).value;
      var rest := Lex(DueAfter(t), s[n..]);
      if Step(st, t).Some? {
        DriveIsRunOfLex(Step(st, t).value, s[n..]);
      }
      if rest.Some? {
        assert ([t] + rest.value)[1..] == rest.value;
      }
    }
  }

  // ── Completeness: every grammatical text within the caps is accepted ──

  function MaxDepth(e: Expr): (d: nat)
    ensures d >= 1
  {
    match e
    case Lit(_) => 1
    case Value => 1
    case Paren(i) => MaxDepth(i)
    case Un(_, p) => MaxDepth(p)
    case Bin(_, l, r) => Max(MaxDepth(l), 1 + MaxDepth(r))
  }

  /** The operation cap already bounds the stack: the depth cap never decides. */
  lemma {:induction false} DepthFollowsFromOps(e: Expr)
    ensures 2 * MaxDepth(e) <= |Postfix(e)| + 1
  {
    match e
    case Lit(_) =>
    case Value =>
    case Paren(i) => DepthFollowsFromOps(i);
    case Un(_, p) => DepthFollowsFromOps(p);
    case Bin(_, l, r) =>
      DepthFollowsFromOps(l);
      DepthFollowsFromOps(r);
  }

  // Operators still on the stack after the last token of a tree, and what has
  // been emitted by then.
  function ResidualOps(e: Expr): seq<StackOp> {
    match e
    case Un(u, _) => [SUn(u)]
    case Bin(b, _, r) => [SBin(b)] + ResidualOps(r)
    case _ => []
  }

  function ResidualCode(e: Expr): seq<Op> {
    match e
    case Un(_, p) => Postfix(p)
    case Bin(_, l, r) => Postfix(l) + ResidualCode(r)
    case _ => Postfix(e)
  }

  function ResidualDepth(e: Expr): nat {
    match e
    case Bin(_, _, r) => 1 + ResidualDepth(r)
    case _ => 1
  }

  function After(st: State, e: Expr): State {
    st.(prog := st.prog + ResidualCode(e), depth := st.depth + ResidualDepth(e),
        ops := st.ops + ResidualOps(e), operandDue := false, pending := false)
  }

  function Done(st: State, e: Expr): State {
    st.(prog := st.prog + Postfix(e), depth := st.depth + 1, operandDue := false, pending := false)
  }

  function TopPrec(ops: seq<StackOp>): nat {
    if ops == [] then 0 else StackPrec(ops[|ops| - 1])
  }

  // The room a tree needs when it is parsed from `st`.
  ghost predicate Fits(st: State, e: Expr, level: nat) {
    && WellFormed(e, level) && 1 <= level <= 4 && NoLiteralZero(e)
    && 0 <= st.depth && st.depth + MaxDepth(e) <= STACK_MAX
    && |st.prog| + |Postfix(e)| <= OPS_MAX
    && st.paren + Nest(e) <= PAREN_MAX
    && TopPrec(st.ops) < level
  }

  function LeftDone(st: State, b: BinOp, l: Expr): State {
    st.(prog := st.prog + Postfix(l), depth := st.depth + 1, ops := st.ops + [SBin(b)], operandDue := true, pending := false)
  }

  lemma FitsParts(st: State, e: Expr, level: nat)
    requires e.Bin? && Fits(st, e, level)
    ensures Fits(st, e.left, Prec(e.b))
    ensures Fits(LeftDone(st, e.b, e.left), e.right, Prec(e.b) + 1)
    ensures After(st, e) == After(LeftDone(st, e.b, e.left), e.right)
  {
    var st1 := LeftDone(st, e.b, e.left);
    assert st1.ops[|st1.ops| - 1] == SBin(e.b);
    assert st.ops + ([SBin(e.b)] + ResidualOps(e.right)) == st1.ops + ResidualOps(e.right);
    assert st.prog + (Postfix(e.left) + ResidualCode(e.right)) == st1.prog + ResidualCode(e.right);
  }

  /** Popping what a tree left on the stack completes its program. */
  lemma {:induction false} Collapse(st: State, e: Expr, level: nat, p: nat)
    requires Fits(st, e, level) && p <= level
    ensures PopWhile(After(st, e), p) == PopWhile(Done(st, e), p)
    decreases e
  {
    match e
    case Un(u, q) =>
      CloseUnary(st, e, level);
    case Bin(b, l, r) =>
      FitsParts(st, e, level);
      Collapse(LeftDone(st, b, l), r, Prec(b) + 1, p);
      CloseBinary(st, e, level);
    case _ =>
      assert st.ops + [] == st.ops;
  }

  lemma Snoc<T>(s: seq<T>, x: T)
    ensures (s + [x])[..|s + [x]| - 1] == s && (s + [x])[|s + [x]| - 1] == x
  {
  }

  lemma Assoc<T>(a: seq<T>, b: seq<T>, c: seq<T>)
    ensures (a + b) + c == a + (b + c)
  {
  }

  lemma CloseUnary(st: State, e: Expr, level: nat)
    requires Fits(st, e, level) && e.Un?
    ensures |After(st, e).ops| > 0 && After(st, e).ops[|After(st, e).ops| - 1] == SUn(e.u)
    ensures PopEmit(After(st, e)) == Some(Done(st, e))
  {
    Snoc(st.ops, SUn(e.u));
    Assoc(st.prog, Postfix(e.operand), [Unary(e.u)]);
  }

  lemma NoZeroEmitted(prog: seq<Op>, b: BinOp, l: Expr, r: Expr)
    requires NoLiteralZero(Bin(b, l, r))
    ensures !LiteralZeroDivisor(prog + Postfix(r), SBin(b))
  {
    LastOfPostfix(r);
    LastOfConcat(prog, Postfix(r));
  }

  lemma PopBinOp(d: State, ops: seq<StackOp>, b: BinOp)
    requires d.ops == ops + [SBin(b)] && !LiteralZeroDivisor(d.prog, SBin(b)) && |d.prog| < OPS_MAX && d.depth >= 2
    ensures PopEmit(d) == Some(d.(ops := ops, prog := d.prog + [Binary(b)], depth := d.depth - 1))
  {
    Snoc(ops, SBin(b));
  }

  lemma CloseBinary(st: State, e: Expr, level: nat)
    requires Fits(st, e, level) && e.Bin?
    ensures var d := Done(LeftDone(st, e.b, e.left), e.right);
            |d.ops| > 0 && d.ops[|d.ops| - 1] == SBin(e.b) && PopEmit(d) == Some(Done(st, e))
  {
    var (b, l, r) := (e.b, e.left, e.right);
    NoZeroEmitted(st.prog + Postfix(l), b, l, r);
    PopBinOp(Done(LeftDone(st, b, l), r), st.ops, b);
    Assoc(st.prog, Postfix(l), Postfix(r));
    Assoc(st.prog, Postfix(l) + Postfix(r), [Binary(b)]);
  }

  lemma LastOfConcat<T>(a: seq<T>, b: seq<T>)
    requires |b| > 0
    ensures |a + b| > 0 && (a + b)[|a + b| - 1] == b[|b| - 1]
  {
  }

  lemma {:induction false} ConsumeTree(st: State, e: Expr, level: nat, rest: seq<Token>)
    requires Fits(st, e, level) && st.operandDue
    requires st.pending ==> level == 4
    ensures Run(st, Flatten(e) + rest) == Run(After(st, e), rest)
    decreases e, 1
  {
    match e
    case Lit(n) => ConsumeLeaf(st, e, level, rest);
    case Value => ConsumeLeaf(st, e, level, rest);
    case Paren(i) => ConsumeParen(st, e, level, rest);
    case Un(u, q) => ConsumeUnary(st, e, level, rest);
    case Bin(b, l, r) => ConsumeBin(st, e, level, rest);
  }

  lemma RunHead(st: State, t: Token, rest: seq<Token>)
    requires Step(st, t).Some?
    ensures Run(st, [t] + rest) == Run(Step(st, t).value, rest)
  {
    assert ([t] + rest)[1..] == rest;
  }

  lemma ConsumeLeaf(st: State, e: Expr, level: nat, rest: seq<Token>)
    requires Fits(st, e, level) && st.operandDue && (e.Lit? || e.Value?)
    ensures Run(st, Flatten(e) + rest) == Run(After(st, e), rest)
  {
    assert st.ops + [] == st.ops;
    RunHead(st, Flatten(e)[0], rest);
  }

  lemma {:induction false} ConsumeParen(st: State, e: Expr, level: nat, rest: seq<Token>)
    requires Fits(st, e, level) && st.operandDue && e.Paren?
    ensures Run(st, Flatten(e) + rest) == Run(After(st, e), rest)
    decreases e, 0
  {
    var i := e.inner;
    var st1 := Opened(st);
    OpenFits(st, e, level);
    assert Flatten(e) + rest == [TOpen] + (Flatten(i) + ([TClose] + rest));
    RunHead(st, TOpen, Flatten(i) + ([TClose] + rest));
    ConsumeTree(st1, i, 1, [TClose] + rest);
    CloseParen(st, e, level);
    RunHead(After(st1, i), TClose, rest);
  }

  function Opened(st: State): State {
    st.(ops := st.ops + [SOpen], paren := st.paren + 1, pending := false)
  }

  lemma OpenFits(st: State, e: Expr, level: nat)
    requires Fits(st, e, level) && st.operandDue && e.Paren?
    ensures Step(st, TOpen) == Some(Opened(st)) && Fits(Opened(st), e.inner, 1)
  {
    assert Opened(st).ops[|Opened(st).ops| - 1] == SOpen;
  }

  lemma CloseParen(st: State, e: Expr, level: nat)
    requires Fits(st, e, level) && st.operandDue && e.Paren?
    ensures Step(After(Opened(st), e.inner), TClose) == Some(After(st, e))
  {
    OpenFits(st, e, level);
    Collapse(Opened(st), e.inner, 1, 1);
    CloseAt(st, e);
  }

  lemma CloseAt(st: State, e: Expr)
    requires e.Paren?
    requires PopWhile(After(Opened(st), e.inner), 1) == PopWhile(Done(Opened(st), e.inner), 1)
    ensures Step(After(Opened(st), e.inner), TClose) == Some(After(st, e))
  {
    var d := Done(Opened(st), e.inner);
    Snoc(st.ops, SOpen);
    PopNothing(d, 1);
    StepAtOpen(After(Opened(st), e.inner), d);
    CloseDone(st, e);
  }

  lemma CloseDone(st: State, e: Expr)
    requires e.Paren?
    ensures Done(Opened(st), e.inner).(ops := st.ops, paren := st.paren) == After(st, e)
  {
    assert st.ops + [] == st.ops;
  }

  lemma PopNothing(st: State, p: nat)
    requires !Pops(st.ops, p)
    ensures PopWhile(st, p) == Some(st)
  {
  }

  lemma StepAtOpen(st: State, popped: State)
    requires !st.operandDue && st.paren > 0 && PopWhile(st, 1) == Some(popped) && popped.ops != []
    ensures Step(st, TClose) == Some(popped.(ops := popped.ops[..|popped.ops| - 1], paren := popped.paren - 1))
  {
    var s := PopWhile(st, 1).value;
    assert s == popped;
  }

  lemma {:induction false} ConsumeUnary(st: State, e: Expr, level: nat, rest: seq<Token>)
    requires Fits(st, e, level) && st.operandDue && !st.pending && e.Un?
    ensures Run(st, Flatten(e) + rest) == Run(After(st, e), rest)
    decreases e, 0
  {
    var q := e.operand;
    var st1 := st.(ops := st.ops + [SUn(e.u)], pending := true);
    UnaryFits(st, e, level);
    assert Flatten(e) + rest == [TUn(e.u)] + (Flatten(q) + rest);
    RunHead(st, TUn(e.u), Flatten(q) + rest);
    ConsumeTree(st1, q, 4, rest);
  }

  lemma UnaryFits(st: State, e: Expr, level: nat)
    requires Fits(st, e, level) && st.operandDue && !st.pending && e.Un?
    ensures var st1 := st.(ops := st.ops + [SUn(e.u)], pending := true);
            Step(st, TUn(e.u)) == Some(st1) && Fits(st1, e.operand, 4) && After(st1, e.operand) == After(st, e)
  {
    Snoc(st.ops, SUn(e.u));
    assert st.ops + [SUn(e.u)] + [] == st.ops + [SUn(e.u)];
  }

  lemma {:induction false} ConsumeBin(st: State, e: Expr, level: nat, rest: seq<Token>)
    requires Fits(st, e, level) && st.operandDue && !st.pending && e.Bin?
    ensures Run(st, Flatten(e) + rest) == Run(After(st, e), rest)
    decreases e, 0
  {
    var (b, l, r) := (e.b, e.left, e.right);
    FitsParts(st, e, level);
    var tail := [TBin(b)] + (Flatten(r) + rest);
    assert Flatten(e) + rest == Flatten(l) + tail;
    ConsumeTree(st, l, Prec(b), tail);
    Collapse(st, l, Prec(b), Prec(b));
    assert PopWhile(Done(st, l), Prec(b)) == Some(Done(st, l));
    assert Step(After(st, l), TBin(b)) == Some(LeftDone(st, b, l));
    RunHead(After(st, l), TBin(b), Flatten(r) + rest);
    ConsumeTree(LeftDone(st, b, l), r, Prec(b) + 1, rest);
  }

  /** Every tree within the caps is accepted, with exactly its postfix. */
  lemma AcceptsTree(e: Expr)
    requires WellFormed(e, 1) && WithinCaps(e)
    ensures Run(Start, Flatten(e)) == Some(Postfix(e))
  {
    DepthFollowsFromOps(e);
    assert Flatten(e) + [] == Flatten(e);
    ConsumeTree(Start, e, 1, []);
    Collapse(Start, e, 1, 1);
    assert [] + Postfix(e) == Postfix(e);
  }

  // ── Soundness: an accepted text is grammatical and within the caps ────

  // The stack with the operands each operator waits on: a ghost view of a
  // parse in progress.
  datatype Frame = FBin(left: Expr, b: BinOp) | FUn(u: UnOp) | FOpen

  function FrameOp(f: Frame): StackOp {
    match f
    case FBin(_, b) => SBin(b)
    case FUn(u) => SUn(u)
    case FOpen => SOpen
  }

  function Ops(fs: seq<Frame>): (r: seq<StackOp>)
    ensures |r| == |fs|
  {
    if fs == [] then [] else Ops(fs[..|fs| - 1]) + [FrameOp(fs[|fs| - 1])]
  }

  function Code(fs: seq<Frame>): seq<Op> {
    if fs == [] then []
    else Code(fs[..|fs| - 1]) + (if fs[|fs| - 1].FBin? then Postfix(fs[|fs| - 1].left) else [])
  }

  function Depth(fs: seq<Frame>): nat {
    if fs == [] then 0 else Depth(fs[..|fs| - 1]) + (if fs[|fs| - 1].FBin? then 1 else 0)
  }

  function Opens(fs: seq<Frame>): nat {
    if fs == [] then 0 else Opens(fs[..|fs| - 1]) + (if fs[|fs| - 1].FOpen? then 1 else 0)
  }

  function Spelled(fs: seq<Frame>): seq<Token> {
    if fs == [] then []
    else
      Spelled(fs[..|fs| - 1]) +
      (match fs[|fs| - 1]
       case FBin(l, b) => Flatten(l) + [TBin(b)]
       case FUn(u) => [TUn(u)]
       case FOpen => [TOpen])
  }

  predicate FramesOk(fs: seq<Frame>) {
    if fs == [] then true
    else
      var base := fs[..|fs| - 1];
      && FramesOk(base)
      && match fs[|fs| - 1]
         case FBin(l, b) =>
           TopPrec(Ops(base)) < Prec(b) && WellFormed(l, Prec(b)) && NoLiteralZero(l) && Opens(base) + Nest(l) <= PAREN_MAX
         case FUn(_) => TopPrec(Ops(base)) < 3
         case FOpen => Opens(base) < PAREN_MAX
  }

  predicate Waiting(st: State, fs: seq<Frame>) {
    && st.operandDue && FramesOk(fs) && st.ops == Ops(fs) && st.prog == Code(fs)
    && st.depth == Depth(fs) && st.paren == Opens(fs)
    && (st.pending <==> TopPrec(Ops(fs)) == 3)
  }

  // `p` is the loosest binding already closed into `top`.
  predicate Holding(st: State, fs: seq<Frame>, top: Expr, p: nat) {
    && !st.operandDue && FramesOk(fs) && st.ops == Ops(fs) && st.prog == Code(fs) + Postfix(top)
    && st.depth == Depth(fs) + 1 && st.paren == Opens(fs)
    && WellFormed(top, p) && WellFormed(top, TopPrec(Ops(fs)) + 1)
    && NoLiteralZero(top) && Opens(fs) + Nest(top) <= PAREN_MAX
  }

  lemma OpensBound(fs: seq<Frame>)
    requires FramesOk(fs)
    ensures Opens(fs) <= PAREN_MAX && TopPrec(Ops(fs)) <= 3
  {
  }

  lemma PopOne(st: State, fs: seq<Frame>, top: Expr, p: nat) returns (fs': seq<Frame>, top': Expr)
    requires Holding(st, fs, top, p) && 1 <= p && Pops(st.ops, p) && PopEmit(st).Some?
    ensures Holding(PopEmit(st).value, fs', top', p)
    ensures Spelled(fs') + Flatten(top') == Spelled(fs) + Flatten(top)
    ensures |fs'| < |fs|
  {
    fs' := fs[..|fs| - 1];
    if fs[|fs| - 1].FBin? {
      top' := Bin(fs[|fs| - 1].b, fs[|fs| - 1].left, top);
      PopBinary(st, fs, top, p);
    } else {
      top' := Un(fs[|fs| - 1].u, top);
      PopUnary(st, fs, top, p);
    }
  }

  lemma PopBinary(st: State, fs: seq<Frame>, top: Expr, p: nat)
    requires Holding(st, fs, top, p) && 1 <= p && Pops(st.ops, p) && PopEmit(st).Some? && fs[|fs| - 1].FBin?
    ensures var top' := Bin(fs[|fs| - 1].b, fs[|fs| - 1].left, top);
            && Holding(PopEmit(st).value, fs[..|fs| - 1], top', p)
            && Spelled(fs[..|fs| - 1]) + Flatten(top') == Spelled(fs) + Flatten(top)
  {
    var FBin(l, b) := fs[|fs| - 1];
    Snoc(Ops(fs[..|fs| - 1]), SBin(b));
    BinaryCode(fs, top);
    DivisorCode(Code(fs), top, b);
    BinaryTokens(fs, top);
    BinaryTree(fs, top);
  }

  lemma NilRight<T>(s: seq<T>)
    ensures s + [] == s
  {
  }

  lemma HeadTail<T>(s: seq<T>)
    requires s != []
    ensures [s[0]] + s[1..] == s
  {
  }

  lemma Regroup<T>(a: seq<T>, l: seq<T>, t: seq<T>, z: seq<T>)
    ensures ((a + l) + t) + z == a + ((l + t) + z)
  {
    Assoc(a, l, t);
    Assoc(a, l + t, z);
  }

  lemma BinaryCode(fs: seq<Frame>, top: Expr)
    requires fs != [] && fs[|fs| - 1].FBin?
    ensures var FBin(l, b) := fs[|fs| - 1];
            (Code(fs) + Postfix(top)) + [Binary(b)] == Code(fs[..|fs| - 1]) + Postfix(Bin(b, l, top))
  {
    var FBin(l, b) := fs[|fs| - 1];
    Regroup(Code(fs[..|fs| - 1]), Postfix(l), Postfix(top), [Binary(b)]);
  }

  lemma DivisorCode(code: seq<Op>, top: Expr, b: BinOp)
    ensures LiteralZeroDivisor(code + Postfix(top), SBin(b)) <==> (b == Div || b == Mod) && Strip(top) == Lit(0)
  {
    LastOfConcat(code, Postfix(top));
    LastOfPostfix(top);
  }

  lemma BinaryTree(fs: seq<Frame>, top: Expr)
    requires FramesOk(fs) && fs != [] && fs[|fs| - 1].FBin?
    requires WellFormed(top, TopPrec(Ops(fs)) + 1) && NoLiteralZero(top) && Opens(fs) + Nest(top) <= PAREN_MAX
    ensures var FBin(l, b) := fs[|fs| - 1];
            var base := fs[..|fs| - 1];
            && FramesOk(base) && Ops(fs) == Ops(base) + [SBin(b)] && Depth(fs) == Depth(base) + 1 && Opens(fs) == Opens(base)
            && WellFormed(Bin(b, l, top), Prec(b)) && WellFormed(Bin(b, l, top), TopPrec(Ops(base)) + 1)
            && (((b == Div || b == Mod) ==> Strip(top) != Lit(0)) ==> NoLiteralZero(Bin(b, l, top)))
            && Opens(base) + Nest(Bin(b, l, top)) <= PAREN_MAX
  {
  }

  lemma BinaryTokens(fs: seq<Frame>, top: Expr)
    requires fs != [] && fs[|fs| - 1].FBin?
    ensures Spelled(fs[..|fs| - 1]) + Flatten(Bin(fs[|fs| - 1].b, fs[|fs| - 1].left, top)) == Spelled(fs) + Flatten(top)
  {
    var FBin(l, b) := fs[|fs| - 1];
    Assoc(Spelled(fs[..|fs| - 1]), Flatten(l) + [TBin(b)], Flatten(top));
  }

  lemma PopUnary(st: State, fs: seq<Frame>, top: Expr, p: nat)
    requires Holding(st, fs, top, p) && 1 <= p && Pops(st.ops, p) && PopEmit(st).Some? && fs[|fs| - 1].FUn?
    ensures var top' := Un(fs[|fs| - 1].u, top);
            && Holding(PopEmit(st).value, fs[..|fs| - 1], top', p)
            && Spelled(fs[..|fs| - 1]) + Flatten(top') == Spelled(fs) + Flatten(top)
  {
    var base := fs[..|fs| - 1];
    var u := fs[|fs| - 1].u;
    Snoc(Ops(base), SUn(u));
    assert Code(fs) == Code(base);
    Assoc(Code(base), Postfix(top), [Unary(u)]);
    Assoc(Spelled(base), [TUn(u)], Flatten(top));
  }

  lemma {:induction false} PopWhileHolds(st: State, fs: seq<Frame>, top: Expr, p: nat) returns (fs': seq<Frame>, top': Expr)
    requires Holding(st, fs, top, p) && 1 <= p && PopWhile(st, p).Some?
    ensures Holding(PopWhile(st, p).value, fs', top', p)
    ensures Spelled(fs') + Flatten(top') == Spelled(fs) + Flatten(top)
    decreases |fs|
  {
    if Pops(st.ops, p) {
      var fs1, top1 := PopOne(st, fs, top, p);
      fs', top' := PopWhileHolds(PopEmit(st).value, fs1, top1, p);
    } else {
      fs', top' := fs, top;
    }
  }

  lemma FinishSound(st: State, fs: seq<Frame>, top: Expr) returns (e: Expr)
    requires Holding(st, fs, top, 1) && Finish(st).Some?
    ensures WellFormed(e, 1) && Flatten(e) == Spelled(fs) + Flatten(top)
    ensures Postfix(e) == Finish(st).value && NoLiteralZero(e) && Nest(e) <= PAREN_MAX
  {
    var fs', top' := PopWhileHolds(st, fs, top, 1);
    assert fs' == [];
    assert [] + Flatten(top') == Flatten(top');
    assert [] + Postfix(top') == Postfix(top');
    e := top';
  }

  ghost predicate View(st: State, fs: seq<Frame>, top: Option<Expr>) {
    if top.None? then Waiting(st, fs) else Holding(st, fs, top.value, 4)
  }

  function SpelledAll(fs: seq<Frame>, top: Option<Expr>): seq<Token> {
    Spelled(fs) + (if top.None? then [] else Flatten(top.value))
  }

  // One token keeps the view.
  lemma StepWaiting(st: State, fs: seq<Frame>, t: Token) returns (fs': seq<Frame>, top: Option<Expr>)
    requires Waiting(st, fs) && Step(st, t).Some? && (t.TLit? ==> 0 <= t.n)
    ensures View(Step(st, t).value, fs', top) && SpelledAll(fs', top) == Spelled(fs) + [t]
  {
    match t
    case TLit(n) => fs', top := fs, Some(Lit(n)); PushLeaf(st, fs, PushImm(n), Lit(n), Step(st, t).value);
    case TValue => fs', top := fs, Some(Value); PushLeaf(st, fs, PushVal, Value, Step(st, t).value);
    case TUn(u) => fs', top := fs + [FUn(u)], None; PushUnary(st, fs, u);
    case TOpen => fs', top := fs + [FOpen], None; PushOpen(st, fs);
  }

  // A number or `%value%`: `z` is the state after it.
  lemma PushLeaf(st: State, fs: seq<Frame>, o: Op, e: Expr, z: State)
    requires Waiting(st, fs) && Emit(st, o).Some? && z == Emit(st, o).value.(operandDue := false, pending := false)
    requires (e.Lit? && o == PushImm(e.n) && e.n >= 0) || (e.Value? && o == PushVal)
    ensures Holding(z, fs, e, 4)
  {
    OpensBound(fs);
  }

  lemma PushUnary(st: State, fs: seq<Frame>, u: UnOp)
    requires Waiting(st, fs) && !st.pending
    ensures Waiting(st.(ops := st.ops + [SUn(u)], pending := true), fs + [FUn(u)])
    ensures Spelled(fs + [FUn(u)]) == Spelled(fs) + [TUn(u)]
  {
    OpensBound(fs);
    Snoc(fs, FUn(u));
    Snoc(Ops(fs), SUn(u));
  }

  lemma PushOpen(st: State, fs: seq<Frame>)
    requires Waiting(st, fs) && st.paren < PAREN_MAX
    ensures Waiting(st.(ops := st.ops + [SOpen], paren := st.paren + 1, pending := false), fs + [FOpen])
    ensures Spelled(fs + [FOpen]) == Spelled(fs) + [TOpen]
  {
    Snoc(fs, FOpen);
    Snoc(Ops(fs), SOpen);
  }

  lemma StepBinary(st: State, fs: seq<Frame>, top: Expr, b: BinOp) returns (fs': seq<Frame>)
    requires Holding(st, fs, top, 4) && Step(st, TBin(b)).Some?
    ensures Waiting(Step(st, TBin(b)).value, fs') && Spelled(fs') == Spelled(fs) + Flatten(top) + [TBin(b)]
  {
    Weaken(top, 4, Prec(b));
    var fs1, top1 := PopWhileHolds(st, fs, top, Prec(b));
    fs' := fs1 + [FBin(top1, b)];
    PushBinary(PopWhile(st, Prec(b)).value, fs1, top1, b);
  }

  lemma PushBinary(st: State, fs: seq<Frame>, top: Expr, b: BinOp)
    requires Holding(st, fs, top, Prec(b)) && !Pops(st.ops, Prec(b))
    ensures Waiting(st.(ops := st.ops + [SBin(b)], operandDue := true, pending := false), fs + [FBin(top, b)])
    ensures Spelled(fs + [FBin(top, b)]) == Spelled(fs) + Flatten(top) + [TBin(b)]
  {
    Snoc(fs, FBin(top, b));
    Assoc(Spelled(fs), Flatten(top), [TBin(b)]);
  }

  lemma StepClose(st: State, fs: seq<Frame>, top: Expr) returns (fs': seq<Frame>, top': Expr)
    requires Holding(st, fs, top, 4) && Step(st, TClose).Some?
    ensures Holding(Step(st, TClose).value, fs', top', 4)
    ensures Spelled(fs') + Flatten(top') == Spelled(fs) + Flatten(top) + [TClose]
  {
    Weaken(top, 4, 1);
    var fs1, top1 := PopWhileHolds(st, fs, top, 1);
    fs', top' := fs1[..|fs1| - 1], Paren(top1);
    CloseFrame(PopWhile(st, 1).value, fs1, top1);
  }

  lemma CloseFrame(st: State, fs: seq<Frame>, top: Expr)
    requires Holding(st, fs, top, 1) && !Pops(st.ops, 1) && st.ops != []
    ensures fs[|fs| - 1] == FOpen
    ensures Holding(st.(ops := st.ops[..|st.ops| - 1], paren := st.paren - 1), fs[..|fs| - 1], Paren(top), 4)
    ensures Spelled(fs[..|fs| - 1]) + Flatten(Paren(top)) == Spelled(fs) + Flatten(top) + [TClose]
  {
    var base := fs[..|fs| - 1];
    assert fs[|fs| - 1] == FOpen;
    OpensBound(base);
    assert Code(fs) == Code(base);
    assert st.ops[..|st.ops| - 1] == Ops(base);
    CloseTokens(fs, top);
  }

  lemma CloseTokens(fs: seq<Frame>, top: Expr)
    requires fs != [] && fs[|fs| - 1] == FOpen
    ensures Spelled(fs[..|fs| - 1]) + Flatten(Paren(top)) == Spelled(fs) + Flatten(top) + [TClose]
  {
    var (x, y) := (Spelled(fs[..|fs| - 1]), Flatten(top));
    Assoc(x, [TOpen], y);
    Assoc(x, [TOpen] + y, [TClose]);
  }

  lemma StepSound(st: State, fs: seq<Frame>, top: Option<Expr>, t: Token) returns (fs': seq<Frame>, top': Option<Expr>)
    requires View(st, fs, top) && Step(st, t).Some? && (t.TLit? ==> 0 <= t.n)
    ensures View(Step(st, t).value, fs', top') && SpelledAll(fs', top') == SpelledAll(fs, top) + [t]
  {
    if top.None? {
      fs', top' := StepWaiting(st, fs, t);
      assert Spelled(fs) + [] == Spelled(fs);
    } else if t.TBin? {
      fs' := StepBinary(st, fs, top.value, t.b);
      top' := None;
      assert Spelled(fs') + [] == Spelled(fs');
    } else {
      var x;
      fs', x := StepClose(st, fs, top.value);
      top' := Some(x);
    }
  }

  lemma {:induction false} RunSound(st: State, ts: seq<Token>, fs: seq<Frame>, top: Option<Expr>) returns (e: Expr)
    requires View(st, fs, top) && Run(st, ts).Some?
    requires forall i :: 0 <= i < |ts| && ts[i].TLit? ==> 0 <= ts[i].n
    ensures WellFormed(e, 1) && Postfix(e) == Run(st, ts).value && NoLiteralZero(e) && Nest(e) <= PAREN_MAX
    ensures Flatten(e) == SpelledAll(fs, top) + ts
    decreases |ts|
  {
    if ts == [] {
      Weaken(top.value, 4, 1);
      e := FinishSound(st, fs, top.value);
      NilRight(SpelledAll(fs, top));
    } else {
      var fs', top' := StepSound(st, fs, top, ts[0]);
      Assoc(SpelledAll(fs, top), [ts[0]], ts[1..]);
      HeadTail(ts);
      e := RunSound(Step(st, ts[0]).value, ts[1..], fs', top');
    }
  }

  lemma {:induction false} LexLiterals(operandDue: bool, s: string)
    requires Lex(operandDue, s).Some?
    ensures forall i :: 0 <= i < |Lex(operandDue, s).value| && Lex(operandDue, s).value[i].TLit? ==> 0 <= Lex(operandDue, s).value[i].n
    decreases |s|
  {
    if s != [] {
      if IsBlank(s[0]) {
        LexLiterals(operandDue, s[1..]);
      } else {
        var (t, n) := NextToken(operandDue, s).value;
        LexLiterals(DueAfter(t), s[n..]);
      }
    }
  }

  lemma RunBounded(st: State, ts: seq<Token>)
    requires Run(st, ts).Some? && |st.prog| <= OPS_MAX
    ensures |Run(st, ts).value| <= OPS_MAX
    decreases |ts|
  {
    if ts == [] {
      PopBounded(st, 1);
    } else {
      if !st.operandDue && ts[0].TBin? {
        PopBounded(st, Prec(ts[0].b));
      } else if !st.operandDue {
        PopBounded(st, 1);
      }
      RunBounded(Step(st, ts[0]).value, ts[1..]);
    }
  }

  lemma PopBounded(st: State, p: nat)
    requires |st.prog| <= OPS_MAX
    ensures PopWhile(st, p).Some? ==> |PopWhile(st, p).value.prog| <= OPS_MAX
    decreases |st.ops|
  {
    if Pops(st.ops, p) && PopEmit(st).Some? {
      PopBounded(PopEmit(st).value, p);
    }
  }

  // ── The grammar is unambiguous ────────────────────────────────────────

  // `pre` cannot be the front of a longer tree of this level.
  predicate Delimits(pre: seq<Token>, level: nat) {
    pre == [] ||
    match pre[|pre| - 1]
    case TOpen => true
    case TBin(b) => Prec(b) < level
    case TUn(_) => level == 4
    case _ => false
  }

  lemma DropLast(a: seq<Token>, x: Token, b: seq<Token>, y: Token)
    requires a + [x] == b + [y]
    ensures a == b && x == y
  {
    assert (a + [x])[..|a|] == a && (a + [x])[|a|] == x;
    assert (b + [y])[..|b|] == b && (b + [y])[|b|] == y;
  }

  lemma RegroupBin(pre: seq<Token>, e: Expr)
    requires e.Bin?
    ensures pre + Flatten(e) == (pre + Flatten(e.left) + [TBin(e.b)]) + Flatten(e.right)
  {
  }

  lemma RegroupUn(pre: seq<Token>, e: Expr)
    requires e.Un?
    ensures pre + Flatten(e) == (pre + [TUn(e.u)]) + Flatten(e.operand)
  {
  }

  lemma RegroupParen(pre: seq<Token>, e: Expr)
    requires e.Paren?
    ensures pre + Flatten(e) == (pre + [TOpen] + Flatten(e.inner)) + [TClose]
  {
  }

  /** Two trees with the same tokens are the same tree. */
  lemma {:induction false} Unambiguous(e: Expr, f: Expr, level: nat, pre: seq<Token>, pref: seq<Token>)
    requires WellFormed(e, level) && WellFormed(f, level) && 1 <= level <= 4
    requires Delimits(pre, level) && Delimits(pref, level)
    requires pre + Flatten(e) == pref + Flatten(f)
    ensures e == f && pre == pref
    decreases e, f, 1
  {
    if e.Bin? && f.Bin? && Prec(e.b) == Prec(f.b) {
      RegroupBin(pre, e);
      RegroupBin(pref, f);
      var (l, r) := (pre + Flatten(e.left), pref + Flatten(f.left));
      Unambiguous(e.right, f.right, Prec(e.b) + 1, l + [TBin(e.b)], r + [TBin(f.b)]);
      DropLast(l, TBin(e.b), r, TBin(f.b));
      Unambiguous(e.left, f.left, Prec(e.b), pre, pref);
    } else if e.Bin? && (f.Bin? ==> Prec(e.b) < Prec(f.b)) {
      RegroupBin(pre, e);
      var l := pre + Flatten(e.left) + [TBin(e.b)];
      assert l[|l| - 1] == TBin(e.b);
      Tighter(f, level, Prec(e.b) + 1);
      Unambiguous(e.right, f, Prec(e.b) + 1, l, pref);
      assert false;
    } else if f.Bin? {
      RegroupBin(pref, f);
      var r := pref + Flatten(f.left) + [TBin(f.b)];
      assert r[|r| - 1] == TBin(f.b);
      Tighter(e, level, Prec(f.b) + 1);
      Unambiguous(e, f.right, Prec(f.b) + 1, pre, r);
      assert false;
    } else if e.Un? && f.Un? {
      RegroupUn(pre, e);
      RegroupUn(pref, f);
      Unambiguous(e.operand, f.operand, 4, pre + [TUn(e.u)], pref + [TUn(f.u)]);
      DropLast(pre, TUn(e.u), pref, TUn(f.u));
    } else if e.Un? {
      RegroupUn(pre, e);
      Unambiguous(e.operand, f, 4, pre + [TUn(e.u)], pref);
      assert false;
    } else if f.Un? {
      RegroupUn(pref, f);
      Unambiguous(e, f.operand, 4, pre, pref + [TUn(f.u)]);
      assert false;
    } else {
      UnambiguousPrimary(e, f, level, pre, pref);
    }
  }

  lemma Tighter(e: Expr, level: nat, higher: nat)
    requires WellFormed(e, level) && higher <= 3
    requires e.Bin? ==> higher <= Prec(e.b)
    ensures WellFormed(e, higher)
  {
  }

  lemma {:induction false} UnambiguousPrimary(e: Expr, f: Expr, level: nat, pre: seq<Token>, pref: seq<Token>)
    requires WellFormed(e, level) && WellFormed(f, level)
    requires pre + Flatten(e) == pref + Flatten(f) && !e.Bin? && !f.Bin? && !e.Un? && !f.Un?
    ensures e == f && pre == pref
    decreases e, f, 0
  {
    LastToken(pre, e);
    LastToken(pref, f);
    if e.Paren? {
      RegroupParen(pre, e);
      RegroupParen(pref, f);
      DropLast(pre + [TOpen] + Flatten(e.inner), TClose, pref + [TOpen] + Flatten(f.inner), TClose);
      Unambiguous(e.inner, f.inner, 1, pre + [TOpen], pref + [TOpen]);
      DropLast(pre, TOpen, pref, TOpen);
    } else {
      DropLast(pre, Flatten(e)[0], pref, Flatten(f)[0]);
    }
  }

  lemma LastToken(pre: seq<Token>, e: Expr)
    requires !e.Bin? && !e.Un?
    ensures var s := pre + Flatten(e); |s| > 0 && s[|s| - 1] == (match e case Lit(n) => TLit(n) case Value => TValue case _ => TClose)
  {
  }

  /** The text machine accepts exactly the spelled trees within the caps. */
  lemma DriveCorrect(text: string)
    ensures Drive(Start, text).Some? ==>
              exists e :: Spells(text, e) && WithinCaps(e) && Drive(Start, text).value == Postfix(e)
    ensures forall e :: Spells(text, e) ==>
              Drive(Start, text) == if WithinCaps(e) then Some(Postfix(e)) else None
  {
    DriveIsRunOfLex(Start, text);
    if Drive(Start, text).Some? {
      var ts := Lex(true, text).value;
      LexLiterals(true, text);
      RunBounded(Start, ts);
      var e := RunSound(Start, ts, [], None);
      assert SpelledAll([], None) + ts == ts;
      assert Spells(text, e);
    }
    forall e | Spells(text, e)
      ensures Drive(Start, text) == if WithinCaps(e) then Some(Postfix(e)) else None
    {
      if WithinCaps(e) {
        AcceptsTree(e);
      } else if Drive(Start, text).Some? {
        var ts := Lex(true, text).value;
        LexLiterals(true, text);
        RunBounded(Start, ts);
        var e' := RunSound(Start, ts, [], None);
        assert SpelledAll([], None) + ts == ts;
        assert [] + Flatten(e) == [] + Flatten(e');
        Unambiguous(e, e', 1, [], []);
      }
    }
  }

  // ── What a tree is worth ──────────────────────────────────────────────

  function Clamp(v: int): int32 {
    if v > INT32_MAX then INT32_MAX else if v < INT32_MIN then INT32_MIN else v
  }

  function Abs(x: int): nat { if x < 0 then -x else x }

  // C's division drops the fraction; Dafny's own rounds so that the remainder
  // is never negative.
  function TruncDiv(a: int, b: int): int
    requires b != 0
  {
    var q := Abs(a) / Abs(b);
    if (a < 0) == (b < 0) then q else -q
  }

  function TruncMod(a: int, b: int): int
    requires b != 0
  {
    a - b * TruncDiv(a, b)
  }

  /** The remainder is smaller than the divisor and has the dividend's sign. */
  lemma TruncatedDivision(a: int, b: int)
    requires b != 0
    ensures a == b * TruncDiv(a, b) + TruncMod(a, b)
    ensures Abs(TruncMod(a, b)) < Abs(b)
    ensures a >= 0 ==> TruncMod(a, b) >= 0
    ensures a <= 0 ==> TruncMod(a, b) <= 0
  {
    var m: int, n: int := Abs(a), Abs(b);
    assert m == n * (m / n) + m % n;
    assert b * TruncDiv(a, b) == if a < 0 then -(n * (m / n)) else n * (m / n);
  }

  function ApplyUn(u: UnOp, x: int32): int32 {
    match u
    case Neg => Clamp(-(x as int))
    case Not => if x == 0 then 1 else 0
  }

  function ApplyBin(b: BinOp, x: int32, y: int32): Option<int32> {
    match b
    case Add => Some(Clamp(x + y))
    case Sub => Some(Clamp(x - y))
    case Mul => Some(Clamp(x * y))
    case Div => if y == 0 then None else Some(Clamp(TruncDiv(x, y)))
    case Mod => if y == 0 then None else Some(Clamp(TruncMod(x, y)))
  }

  function Eval(e: Expr, value: int32): Option<int32> {
    match e
    case Lit(n) => Some(n)
    case Value => Some(value)
    case Paren(i) => Eval(i, value)
    case Un(u, p) => (match Eval(p, value) case None => None case Some(x) => Some(ApplyUn(u, x)))
    case Bin(b, l, r) =>
      match (Eval(l, value), Eval(r, value))
      case (Some(x), Some(y)) => ApplyBin(b, x, y)
      case _ => None
  }

  predicate IsPart(d: Expr, e: Expr) {
    d == e ||
    match e
    case Lit(_) => false
    case Value => false
    case Paren(i) => IsPart(d, i)
    case Un(_, p) => IsPart(d, p)
    case Bin(_, l, r) => IsPart(d, l) || IsPart(d, r)
  }

  predicate ZeroDivisor(d: Expr, value: int32) {
    d.Bin? && (d.b == Div || d.b == Mod) && Eval(d.right, value) == Some(0)
  }

  lemma {:induction false} PartOfPart(d: Expr, m: Expr, e: Expr)
    requires IsPart(d, m) && IsPart(m, e)
    ensures IsPart(d, e)
    decreases e
  {
    if m != e {
      match e
      case Paren(i) => PartOfPart(d, m, i);
      case Un(_, p) => PartOfPart(d, m, p);
      case Bin(_, l, r) => if IsPart(m, l) { PartOfPart(d, m, l); } else { PartOfPart(d, m, r); }
    }
  }

  /** Evaluation fails exactly when some divisor in the tree is zero. */
  lemma {:induction false} FailsOnZeroDivisor(e: Expr, value: int32)
    ensures Eval(e, value).None? <==> exists d :: IsPart(d, e) && ZeroDivisor(d, value)
  {
    match e
    case Lit(_) =>
    case Value =>
    case Paren(i) => FailsOnZeroDivisor(i, value);
    case Un(_, p) => FailsOnZeroDivisor(p, value);
    case Bin(b, l, r) =>
      FailsOnZeroDivisor(l, value);
      FailsOnZeroDivisor(r, value);
      assert IsPart(l, l) && IsPart(r, r) && IsPart(e, e);
      if ApplyBinFails(b, l, r, value) {
        assert ZeroDivisor(e, value);
      }
  }

  predicate ApplyBinFails(b: BinOp, l: Expr, r: Expr, value: int32) {
    Eval(l, value).Some? && Eval(r, value).Some? && ApplyBin(b, Eval(l, value).value, Eval(r, value).value).None?
  }

  // ── The stack machine ─────────────────────────────────────────────────

  /** One cell, on a stack of at most `STACK_MAX` numbers. */
  function Exec1(o: Op, value: int32, st: seq<int32>): (r: Option<seq<int32>>)
    ensures r.Some? && |st| <= STACK_MAX ==> |r.value| <= STACK_MAX
  {
    var n := |st|;
    match o
    case PushImm(i) => if n >= STACK_MAX then None else Some(st + [i])
    case PushVal => if n >= STACK_MAX then None else Some(st + [value])
    case Unary(u) => if n < 1 then None else Some(st[..n - 1] + [ApplyUn(u, st[n - 1])])
    case Binary(b) =>
      if n < 2 then None
      else
        (match ApplyBin(b, st[n - 2], st[n - 1])
         case None => None
         case Some(x) => Some(st[..n - 2] + [x]))
    case Corrupt => None
  }

  function Exec(prog: seq<Op>, value: int32, st: seq<int32>): Option<seq<int32>> {
    if prog == [] then Some(st)
    else
      match Exec1(prog[0], value, st)
      case None => None
      case Some(st') => Exec(prog[1..], value, st')
  }

  /** What `Evaluate` returns for any program, damaged ones included. */
  function Result(prog: seq<Op>, value: int32): Option<int32> {
    if |prog| == 0 || |prog| > OPS_MAX then None
    else
      match Exec(prog, value, [])
      case None => None
      case Some(st) => if |st| == 1 then Some(st[0]) else None
  }

  lemma {:induction false} ExecConcat(p: seq<Op>, q: seq<Op>, value: int32, st: seq<int32>)
    ensures Exec(p + q, value, st) == match Exec(p, value, st) case None => None case Some(m) => Exec(q, value, m)
    decreases |p|
  {
    if p == [] {
      assert p + q == q;
    } else {
      assert (p + q)[1..] == p[1..] + q;
      if Exec1(p[0], value, st).Some? {
        ExecConcat(p[1..], q, value, Exec1(p[0], value, st).value);
      }
    }
  }

  lemma ExecHead(code: seq<Op>, i: nat, value: int32, st: seq<int32>)
    requires i < |code|
    ensures Exec(code[i..], value, st) ==
            match Exec1(code[i], value, st) case None => None case Some(st') => Exec(code[i + 1..], value, st')
  {
    assert code[i..][1..] == code[i + 1..];
  }

  lemma ExecOne(o: Op, value: int32, st: seq<int32>)
    ensures Exec([o], value, st) == Exec1(o, value, st)
  {
  }

  /** Running the postfix of a tree pushes the tree's value. */
  lemma {:induction false} PostfixComputes(e: Expr, value: int32, st: seq<int32>)
    requires |st| + MaxDepth(e) <= STACK_MAX
    ensures Exec(Postfix(e), value, st) == match Eval(e, value) case None => None case Some(x) => Some(st + [x])
    decreases e
  {
    match e
    case Lit(n) => ExecOne(PushImm(n), value, st);
    case Value => ExecOne(PushVal, value, st);
    case Paren(i) => PostfixComputes(i, value, st);
    case Un(u, p) =>
      PostfixComputes(p, value, st);
      ExecConcat(Postfix(p), [Unary(u)], value, st);
      if Eval(p, value).Some? {
        ExecOne(Unary(u), value, st + [Eval(p, value).value]);
        assert (st + [Eval(p, value).value])[..|st|] == st;
      }
    case Bin(b, l, r) =>
      PostfixComputes(l, value, st);
      ExecConcat(Postfix(l) + Postfix(r), [Binary(b)], value, st);
      ExecConcat(Postfix(l), Postfix(r), value, st);
      if Eval(l, value).Some? {
        var st1 := st + [Eval(l, value).value];
        PostfixComputes(r, value, st1);
        if Eval(r, value).Some? {
          var st2 := st1 + [Eval(r, value).value];
          ExecOne(Binary(b), value, st2);
          assert st2[..|st2| - 2] == st;
        }
      }
  }

  /** Compiler correctness: for every grammatical text within the caps and
      every value, the program `Drive` emits computes the tree, and it fails
      exactly when some divisor is zero. */
  lemma CompiledProgramComputesTree(text: string, e: Expr, value: int32)
    requires Spells(text, e) && WithinCaps(e)
    ensures Drive(Start, text).Some?
    ensures Result(Drive(Start, text).value, value) == Eval(e, value)
    ensures Result(Drive(Start, text).value, value).None? <==> exists d :: IsPart(d, e) && ZeroDivisor(d, value)
  {
    DriveCorrect(text);
    DepthFollowsFromOps(e);
    PostfixComputes(e, value, []);
    FailsOnZeroDivisor(e, value);
  }

  // ── The source's own form ─────────────────────────────────────────────

  class ExprProg {
    var count: nat
    const ops: array<Op>

    constructor ()
      ensures fresh(this) && fresh(ops) && ops.Length == OPS_MAX && count == 0
    {
      ops := new Op[OPS_MAX](_ => Corrupt);
      count := 0;
    }

    ghost predicate Valid()
      reads this
    {
      ops.Length == OPS_MAX
    }

    function Code(): seq<Op>
      requires count <= ops.Length
      reads this, ops
    {
      ops[..count]
    }
  }

  // The emitter: the op cap and the simulated stack depth.
  method EmitOp(out: ExprProg, depth: int, o: Op, ghost st: State) returns (ok: bool, depth': int)
    requires out.Valid() && out.count <= OPS_MAX && st.prog == out.Code() && st.depth == depth
    modifies out, out.ops
    ensures out.Valid() && out.count <= OPS_MAX
    ensures Emit(st, o) == if ok then Some(st.(prog := out.Code(), depth := depth')) else None
    ensures !ok ==> out.Code() == old(out.Code())
  {
    if out.count >= OPS_MAX {
      return false, depth;
    }
    depth' := depth;
    if o.PushImm? || o.PushVal? {
      if depth >= STACK_MAX { return false, depth; }
      depth' := depth + 1;
    } else if o.Unary? {
      if depth < 1 { return false, depth; }
    } else {
      if depth < 2 { return false, depth; }
      depth' := depth - 1;
    }
    out.ops[out.count] := o;
    out.count := out.count + 1;
    assert out.Code() == old(out.Code()) + [o];
    ok := true;
  }

  // Pops one operator into the program, unless it would divide by the literal
  // zero just emitted.
  method PopOp(out: ExprProg, opstk: array<StackOp>, osp: nat, depth: int, ghost st: State)
      returns (ok: bool, depth': int)
    requires out.Valid() && out.count <= OPS_MAX && 0 < osp <= opstk.Length && !opstk[osp - 1].SOpen?
    requires st.prog == out.Code() && st.depth == depth && st.ops == opstk[..osp]
    modifies out, out.ops
    ensures out.Valid() && out.count <= OPS_MAX
    ensures PopEmit(st) == if ok then Some(st.(prog := out.Code(), depth := depth', ops := opstk[..osp - 1])) else None
  {
    var op := opstk[osp - 1];
    assert st.ops[..osp - 1] == opstk[..osp - 1];
    if (op == SBin(Div) || op == SBin(Mod)) && out.count > 0 && out.ops[out.count - 1] == PushImm(0) {
      return false, depth;
    }
    ok, depth' := EmitOp(out, depth, OpOf(op), st.(ops := opstk[..osp - 1]));
  }

  // The pop loop all three places share: before a binary operator of
  // precedence `p`, and (with 1) before `)` and at the end.
  method PopOps(out: ExprProg, opstk: array<StackOp>, osp0: nat, depth0: int, p: nat, ghost st: State)
      returns (ok: bool, osp: nat, depth: int)
    requires out.Valid() && out.count <= OPS_MAX && osp0 <= opstk.Length
    requires st.prog == out.Code() && st.depth == depth0 && st.ops == opstk[..osp0]
    modifies out, out.ops
    ensures out.Valid() && out.count <= OPS_MAX && osp <= osp0
    ensures PopWhile(st, p) == if ok then Some(st.(prog := out.Code(), depth := depth, ops := opstk[..osp])) else None
  {
    osp, depth := osp0, depth0;
    ghost var cur := st;
    while osp > 0 && !opstk[osp - 1].SOpen? && StackPrec(opstk[osp - 1]) >= p
      invariant osp <= osp0 && out.Valid() && out.count <= OPS_MAX
      invariant cur == st.(prog := out.Code(), depth := depth, ops := opstk[..osp])
      invariant PopWhile(st, p) == PopWhile(cur, p)
      decreases osp
    {
      PopWhileHead(cur, p);
      ok, depth := PopOp(out, opstk, osp, depth, cur);
      if !ok {
        return false, osp, depth;
      }
      osp := osp - 1;
      cur := cur.(prog := out.Code(), depth := depth, ops := opstk[..osp]);
    }
    PopNothing(cur, p);
    ok := true;
  }

  lemma PopWhileHead(st: State, p: nat)
    requires Pops(st.ops, p)
    ensures PopWhile(st, p) == match PopEmit(st) case None => None case Some(s) => PopWhile(s, p)
  {
  }

  // The compiler's locals beside the program and the operator stack.
  datatype Locals = Locals(osp: nat, depth: int, paren: nat, operandDue: bool, pendingUnary: bool)

  function StateOf(code: seq<Op>, stack: seq<StackOp>, r: Locals): State
    requires r.osp <= |stack|
  {
    State(code, r.depth, stack[..r.osp], r.paren, r.operandDue, r.pendingUnary)
  }

  // What one token does to the locals: `s'` is the state after it.
  ghost predicate TokenTaken(s: State, rest: string, taken: int, s': State)
    requires rest != []
  {
    && NextToken(s.operandDue, rest).Some?
    && NextToken(s.operandDue, rest).value.1 == taken
    && Step(s, NextToken(s.operandDue, rest).value.0) == Some(s')
  }

  ghost predicate TokenRefused(s: State, rest: string)
    requires rest != []
  {
    NextToken(s.operandDue, rest).None? || Step(s, NextToken(s.operandDue, rest).value.0).None?
  }

  lemma NumberToken(s: State, rest: string)
    requires rest != [] && s.operandDue && IsDigit(rest[0])
    ensures var n := DigitRun(rest);
            NextToken(s.operandDue, rest) ==
            if Decimal(rest[..n]) > INT32_MAX then None else Some((TLit(Decimal(rest[..n])), n))
  {
  }

  // While an operand is due: a number.
  method TakeNumber(text: string, i: nat, out: ExprProg, r: Locals, ghost stack: seq<StackOp>)
      returns (ok: bool, j: nat, r': Locals)
    requires out.Valid() && out.count <= OPS_MAX && i < |text| && r.osp <= |stack| && r.operandDue && IsDigit(text[i])
    modifies out, out.ops
    ensures out.Valid() && out.count <= OPS_MAX && r'.osp == r.osp
    ensures ok ==> i < j <= |text| && TokenTaken(StateOf(old(out.Code()), stack, r), text[i..], j - i, StateOf(out.Code(), stack, r'))
    ensures !ok ==> TokenRefused(StateOf(old(out.Code()), stack, r), text[i..])
  {
    r' := r;
    ghost var rest, s := text[i..], StateOf(out.Code(), stack, r);
    NumberToken(s, rest);
    var v;
    v, j := ReadInteger(text, i);
    assert rest[..DigitRun(rest)] == text[i..i + DigitRun(rest)];
    if v > INT32_MAX {
      assert NextToken(true, rest).None?;
      return false, j, r;
    }
    assert NextToken(true, rest) == Some((TLit(v), j - i));
    var depth;
    ok, depth := EmitOp(out, r.depth, PushImm(v), s);
    r' := r.(depth := depth, operandDue := false, pendingUnary := false);
    assert ok ==> Step(s, TLit(v)) == Some(StateOf(out.Code(), stack, r'));
    assert !ok ==> Step(s, TLit(v)).None?;
  }

  // `%value%`.
  method TakeValue(text: string, i: nat, out: ExprProg, r: Locals, ghost stack: seq<StackOp>)
      returns (ok: bool, r': Locals)
    requires out.Valid() && out.count <= OPS_MAX && i < |text| && r.osp <= |stack| && r.operandDue
    requires |text| - i >= 7 && text[i..i + 7] == VALUE_WORD
    modifies out, out.ops
    ensures out.Valid() && out.count <= OPS_MAX && r'.osp == r.osp
    ensures ok ==> TokenTaken(StateOf(old(out.Code()), stack, r), text[i..], 7, StateOf(out.Code(), stack, r'))
    ensures !ok ==> TokenRefused(StateOf(old(out.Code()), stack, r), text[i..])
  {
    ghost var rest, s := text[i..], StateOf(out.Code(), stack, r);
    assert VALUE_WORD <= rest && rest[0] == VALUE_WORD[0];
    assert NextToken(true, rest) == Some((TValue, 7));
    var depth;
    ok, depth := EmitOp(out, r.depth, PushVal, s);
    r' := r.(depth := depth, operandDue := false, pendingUnary := false);
    assert ok ==> Step(s, TValue) == Some(StateOf(out.Code(), stack, r'));
    assert !ok ==> Step(s, TValue).None?;
  }

  // A unary operator, unless one is pending already.
  method TakeUnary(text: string, i: nat, opstk: array<StackOp>, r: Locals, ghost code: seq<Op>) returns (ok: bool, r': Locals)
    requires i < |text| && r.osp < opstk.Length && r.operandDue && (text[i] == '-' || text[i] == '!')
    modifies opstk
    ensures ok ==> r'.osp == r.osp + 1 &&
                   TokenTaken(StateOf(code, old(opstk[..]), r), text[i..], 1, StateOf(code, opstk[..], r'))
    ensures !ok ==> TokenRefused(StateOf(code, old(opstk[..]), r), text[i..])
  {
    var u := if text[i] == '-' then Neg else Not;
    ghost var rest, s := text[i..], StateOf(code, opstk[..], r);
    assert rest[0] == text[i] && VALUE_WORD[0] == '%';
    assert NextToken(true, rest) == Some((TUn(u), 1));
    if r.pendingUnary {
      assert Step(s, TUn(u)).None?;
      return false, r;
    }
    opstk[r.osp] := SUn(u);
    ok, r' := true, r.(osp := r.osp + 1, pendingUnary := true);
    assert opstk[..][..r.osp + 1] == s.ops + [SUn(u)];
    assert Step(s, TUn(u)) == Some(StateOf(code, opstk[..], r'));
  }

  // `(`, within the cap.
  method TakeOpen(text: string, i: nat, opstk: array<StackOp>, r: Locals, ghost code: seq<Op>) returns (ok: bool, r': Locals)
    requires i < |text| && r.osp < opstk.Length && r.operandDue && text[i] == '('
    modifies opstk
    ensures ok ==> r'.osp == r.osp + 1 &&
                   TokenTaken(StateOf(code, old(opstk[..]), r), text[i..], 1, StateOf(code, opstk[..], r'))
    ensures !ok ==> TokenRefused(StateOf(code, old(opstk[..]), r), text[i..])
  {
    ghost var rest, s := text[i..], StateOf(code, opstk[..], r);
    assert rest[0] == text[i] && VALUE_WORD[0] == '%';
    assert NextToken(true, rest) == Some((TOpen, 1));
    if r.paren + 1 > PAREN_MAX {
      assert Step(s, TOpen).None?;
      return false, r;
    }
    opstk[r.osp] := SOpen;
    ok, r' := true, r.(osp := r.osp + 1, paren := r.paren + 1, pendingUnary := false);
    assert opstk[..][..r.osp + 1] == s.ops + [SOpen];
    assert Step(s, TOpen) == Some(StateOf(code, opstk[..], r'));
  }

  lemma ValueHead(text: string, i: nat)
    requires i <= |text|
    ensures VALUE_WORD <= text[i..] ==> |text| - i >= 7 && text[i..i + 7] == VALUE_WORD
  {
  }

  lemma NoOperand(rest: string)
    requires rest != [] && !IsDigit(rest[0]) && !(VALUE_WORD <= rest)
    requires rest[0] != '-' && rest[0] != '!' && rest[0] != '('
    ensures NextToken(true, rest).None?
  {
  }

  // The branch taken while an operand is due.
  method TakeOperand(text: string, i: nat, out: ExprProg, opstk: array<StackOp>, r: Locals)
      returns (ok: bool, j: nat, r': Locals)
    requires out.Valid() && out.count <= OPS_MAX && i < |text| && r.osp < opstk.Length && r.operandDue
    modifies out, out.ops, opstk
    ensures out.Valid() && out.count <= OPS_MAX
    ensures ok ==> i < j <= |text| && r'.osp <= r.osp + 1 &&
                   TokenTaken(StateOf(old(out.Code()), old(opstk[..]), r), text[i..], j - i, StateOf(out.Code(), opstk[..], r'))
    ensures !ok ==> TokenRefused(StateOf(old(out.Code()), old(opstk[..]), r), text[i..])
  {
    j := i + 1;
    if IsDigit(text[i]) {
      ok, j, r' := TakeNumber(text, i, out, r, opstk[..]);
    } else if |text| - i >= 7 && text[i..i + 7] == VALUE_WORD {
      ok, r' := TakeValue(text, i, out, r, opstk[..]);
      j := i + 7;
    } else if text[i] == '-' || text[i] == '!' {
      ok, r' := TakeUnary(text, i, opstk, r, out.Code());
    } else if text[i] == '(' {
      ok, r' := TakeOpen(text, i, opstk, r, out.Code());
    } else {
      ValueHead(text, i);
      NoOperand(text[i..]);
      ok, r' := false, r;
    }
  }

  // After an operand: a binary operator.
  method TakeBinary(text: string, i: nat, out: ExprProg, opstk: array<StackOp>, r: Locals)
      returns (ok: bool, r': Locals)
    requires out.Valid() && out.count <= OPS_MAX && i < |text| && r.osp < opstk.Length && !r.operandDue
    requires OpOfChar(text[i]).Some?
    modifies out, out.ops, opstk
    ensures out.Valid() && out.count <= OPS_MAX
    ensures ok ==> r'.osp <= r.osp + 1 &&
                   TokenTaken(StateOf(old(out.Code()), old(opstk[..]), r), text[i..], 1, StateOf(out.Code(), opstk[..], r'))
    ensures !ok ==> TokenRefused(StateOf(old(out.Code()), old(opstk[..]), r), text[i..])
  {
    r' := r;
    ghost var st := StateOf(out.Code(), opstk[..], r);
    assert st.ops == opstk[..r.osp];
    var b := OpOfChar(text[i]).value;
    assert NextToken(false, text[i..]) == Some((TBin(b), 1));
    var osp, depth;
    ok, osp, depth := PopOps(out, opstk, r.osp, r.depth, Prec(b), st);
    if !ok {
      assert Step(st, TBin(b)).None?;
      return;
    }
    ghost var kept := opstk[..osp];
    opstk[osp] := SBin(b);
    r' := r.(osp := osp + 1, depth := depth, operandDue := true, pendingUnary := false);
    assert opstk[..][..osp + 1] == kept + [SBin(b)];
    assert Step(st, TBin(b)) == Some(StateOf(out.Code(), opstk[..], r'));
  }

  // After an operand: `)`.
  method TakeClose(text: string, i: nat, out: ExprProg, opstk: array<StackOp>, r: Locals)
      returns (ok: bool, r': Locals)
    requires out.Valid() && out.count <= OPS_MAX && i < |text| && r.osp < opstk.Length && !r.operandDue
    requires text[i] == ')'
    modifies out, out.ops
    ensures out.Valid() && out.count <= OPS_MAX
    ensures ok ==> r'.osp <= r.osp &&
                   TokenTaken(StateOf(old(out.Code()), opstk[..], r), text[i..], 1, StateOf(out.Code(), opstk[..], r'))
    ensures !ok ==> TokenRefused(StateOf(old(out.Code()), opstk[..], r), text[i..])
  {
    r' := r;
    ghost var st := StateOf(out.Code(), opstk[..], r);
    assert st.ops == opstk[..r.osp];
    assert NextToken(false, text[i..]) == Some((TClose, 1));
    if r.paren == 0 {
      assert Step(st, TClose).None?;
      return false, r;
    }
    var osp, depth;
    ok, osp, depth := PopOps(out, opstk, r.osp, r.depth, 1, st);
    if !ok || osp == 0 {
      assert Step(st, TClose).None?;
      return false, r;
    }
    r' := r.(osp := osp - 1, depth := depth, paren := r.paren - 1);
    assert opstk[..osp][..osp - 1] == opstk[..][..osp - 1];
    assert Step(st, TClose) == Some(StateOf(out.Code(), opstk[..], r'));
  }

  // One token, in the branch its place calls for.
  method TakeToken(text: string, i: nat, out: ExprProg, opstk: array<StackOp>, r: Locals)
      returns (ok: bool, j: nat, r': Locals)
    requires out.Valid() && out.count <= OPS_MAX && i < |text| && r.osp < opstk.Length
    modifies out, out.ops, opstk
    ensures out.Valid() && out.count <= OPS_MAX
    ensures ok ==> i < j <= |text| && r'.osp <= r.osp + 1 &&
                   TokenTaken(StateOf(old(out.Code()), old(opstk[..]), r), text[i..], j - i, StateOf(out.Code(), opstk[..], r'))
    ensures !ok ==> TokenRefused(StateOf(old(out.Code()), old(opstk[..]), r), text[i..])
  {
    j := i + 1;
    if r.operandDue {
      ok, j, r' := TakeOperand(text, i, out, opstk, r);
    } else if OpOfChar(text[i]).Some? {
      ok, r' := TakeBinary(text, i, out, opstk, r);
    } else if text[i] == ')' {
      ok, r' := TakeClose(text, i, out, opstk, r);
    } else {
      assert NextToken(false, text[i..]).None?;
      ok, r' := false, r;
    }
  }

  // The end of the text: everything still on the operator stack is emitted.
  method TakeEnd(out: ExprProg, opstk: array<StackOp>, r: Locals) returns (ok: bool)
    requires out.Valid() && out.count <= OPS_MAX && r.osp <= opstk.Length
    modifies out, out.ops
    ensures out.Valid() && out.count <= OPS_MAX
    ensures Finish(StateOf(old(out.Code()), opstk[..], r)) == if ok then Some(out.Code()) else None
  {
    if r.operandDue {
      return false;
    }
    ghost var st := StateOf(out.Code(), opstk[..], r);
    assert st.ops == opstk[..r.osp];
    var osp, depth;
    ok, osp, depth := PopOps(out, opstk, r.osp, r.depth, 1, st);
    ok := ok && osp == 0 && depth == 1 && out.count > 0;
  }

  lemma DriveTakes(st: State, rest: string, taken: int, st': State)
    requires rest != [] && !IsBlank(rest[0]) && TokenTaken(st, rest, taken, st')
    ensures Drive(st, rest) == Drive(st', rest[taken..])
  {
  }

  lemma DriveRefuses(st: State, rest: string)
    requires rest != [] && !IsBlank(rest[0]) && TokenRefused(st, rest)
    ensures Drive(st, rest) == None
  {
  }

  // One blank or one token.
  method TakeNext(text: string, i: nat, out: ExprProg, opstk: array<StackOp>, r: Locals)
      returns (ok: bool, j: nat, r': Locals)
    requires out.Valid() && out.count <= OPS_MAX && i < |text| && r.osp < opstk.Length
    modifies out, out.ops, opstk
    ensures out.Valid() && out.count <= OPS_MAX && i < j && (ok ==> j <= |text| && r'.osp <= r.osp + 1)
    ensures Drive(StateOf(old(out.Code()), old(opstk[..]), r), text[i..]) ==
            if ok then Drive(StateOf(out.Code(), opstk[..], r'), text[j..]) else None
  {
    ok, j, r' := true, i + 1, r;
    ghost var rest, st := text[i..], StateOf(out.Code(), opstk[..], r);
    if !IsBlank(text[i]) {
      ok, j, r' := TakeToken(text, i, out, opstk, r);
      if !ok {
        DriveRefuses(st, rest);
        return false, i + 1, r;
      }
      DriveTakes(st, rest, j - i, StateOf(out.Code(), opstk[..], r'));
    }
    assert rest[j - i..] == text[j..];
  }

  // The compiler's loop computes `Drive`.
  method CompileText(text: string, out: ExprProg) returns (ok: bool)
    requires out.Valid() && out.count == 0 && |text| <= TEXT_MAX
    modifies out, out.ops
    ensures out.Valid() && out.count <= OPS_MAX
    ensures Drive(Start, text) == if ok then Some(out.Code()) else None
  {
    assert out.Code() == [];
    var opstk := new StackOp[TEXT_MAX](_ => SOpen);
    var r := Locals(0, 0, 0, true, false);
    assert StateOf(out.Code(), opstk[..], r) == Start;
    var i := 0;
    while i < |text|
      invariant 0 <= i <= |text| && r.osp <= i && opstk.Length == TEXT_MAX
      invariant out.Valid() && out.count <= OPS_MAX && fresh(opstk)
      invariant Drive(Start, text) == Drive(StateOf(out.Code(), opstk[..], r), text[i..])
    {
      ok, i, r := TakeNext(text, i, out, opstk, r);
      if !ok { return false; }
    }
    ok := TakeEnd(out, opstk, r);
  }

  /** Compiles `text`; true exactly for a grammatical text within the caps,
      whose postfix is then in `out`. The source's guard against a full
      operator stack cannot fire: each entry cost a character. */
  method Compile(text: string, out: ExprProg) returns (ok: bool)
    requires out.Valid()
    modifies out, out.ops
    ensures out.Valid() && out.count <= OPS_MAX
    ensures ok <==> |text| <= TEXT_MAX && Drive(Start, text).Some?
    ensures ok ==> Drive(Start, text) == Some(out.Code())
    ensures ok <==> |text| <= TEXT_MAX && exists e :: Spells(text, e) && WithinCaps(e)
    ensures ok ==> forall e :: Spells(text, e) ==> out.Code() == Postfix(e)
  {
    out.count := 0;
    if |text| > TEXT_MAX {
      return false;
    }
    DriveCorrect(text);
    ok := CompileText(text, out);
  }

  predicate AllDigits(s: string) {
    forall k :: 0 <= k < |s| ==> IsDigit(s[k])
  }

  lemma DigitsNext(text: string, i: nat, j: nat)
    requires i <= j < |text| && AllDigits(text[i..j]) && IsDigit(text[j])
    ensures AllDigits(text[i..j + 1]) && Decimal(text[i..j + 1]) == Decimal(text[i..j]) * 10 + DigitValue(text[j])
  {
    assert text[i..j + 1] == text[i..j] + [text[j]];
    Snoc(text[i..j], text[j]);
  }

  lemma RunIs(s: string, k: nat)
    requires k <= |s| && AllDigits(s[..k])
    ensures k <= DigitRun(s) && (k == |s| || !IsDigit(s[k]) ==> DigitRun(s) == k)
  {
    forall m | 0 <= m < k ensures IsDigit(s[m]) {
      assert s[..k][m] == s[m];
    }
  }

  lemma RunOverflows(text: string, i: nat, j: nat)
    requires i <= j <= |text| && AllDigits(text[i..j]) && Decimal(text[i..j]) > INT32_MAX
    ensures AllDigits(text[i..i + DigitRun(text[i..])]) && Decimal(text[i..i + DigitRun(text[i..])]) > INT32_MAX
  {
    var rest := text[i..];
    var run := rest[..DigitRun(rest)];
    assert rest[..j - i] == text[i..j];
    RunIs(rest, j - i);
    assert run == text[i..i + DigitRun(rest)] && run[..j - i] == text[i..j];
    RunDigits(rest);
    DecimalGrows(run, j - i);
  }

  lemma RunDigits(s: string)
    ensures AllDigits(s[..DigitRun(s)])
  {
    forall k | 0 <= k < DigitRun(s) ensures IsDigit(s[..DigitRun(s)][k]) {
      assert s[..DigitRun(s)][k] == s[k];
    }
  }

  // The digit loop: stops early once the value cannot fit.
  method ReadInteger(text: string, i: nat) returns (v: nat, j: nat)
    requires i < |text| && IsDigit(text[i])
    ensures v <= INT32_MAX ==> j == i + DigitRun(text[i..]) && v == Decimal(text[i..j])
    ensures v > INT32_MAX ==> Decimal(text[i..i + DigitRun(text[i..])]) > INT32_MAX
    ensures i < j <= |text|
  {
    v, j := 0, i;
    while j < |text| && IsDigit(text[j])
      invariant i <= j <= |text| && AllDigits(text[i..j])
      invariant v == Decimal(text[i..j]) && v <= INT32_MAX
    {
      DigitsNext(text, i, j);
      v := v * 10 + DigitValue(text[j]);
      j := j + 1;
      if v > INT32_MAX {
        RunOverflows(text, i, j);
        return;
      }
    }
    assert text[i..][..j - i] == text[i..j];
    RunIs(text[i..], j - i);
  }

  // One cell of the evaluator's switch.
  method Cell(o: Op, value: int32, st: array<int32>, sp: nat) returns (ok: bool, sp': nat)
    requires st.Length == STACK_MAX && sp <= STACK_MAX
    modifies st
    ensures sp' <= STACK_MAX
    ensures Exec1(o, value, old(st[..sp])) == if ok then Some(st[..sp']) else None
  {
    ok, sp' := false, sp;
    ghost var was := st[..sp];
    match o {
      case PushImm(imm) =>
        if sp >= STACK_MAX { return; }
        st[sp] := imm;
        sp' := sp + 1;
        assert st[..sp'] == was + [imm];
      case PushVal =>
        if sp >= STACK_MAX { return; }
        st[sp] := value;
        sp' := sp + 1;
        assert st[..sp'] == was + [value];
      case Unary(u) =>
        if sp < 1 { return; }
        if u == Neg {
          var r: int64 := -(st[sp - 1] as int);
          st[sp - 1] := Clamp(r);
        } else {
          st[sp - 1] := if st[sp - 1] == 0 then 1 else 0;
        }
        assert st[..sp'] == was[..sp - 1] + [ApplyUn(u, was[sp - 1])];
      case Binary(b) =>
        if sp < 2 { return; }
        var x, y := st[sp - 2], st[sp - 1];
        if (b == Div || b == Mod) && y == 0 { return; }
        var r := Wide(b, x, y);
        st[sp - 2] := Clamp(r);
        sp' := sp - 1;
        assert st[..sp'] == was[..sp - 2] + [Clamp(r)];
      case Corrupt =>
        return;
    }
    ok := true;
  }

  /** Runs a program, damaged ones included; every intermediate fits an
      int64. */
  method Evaluate(p: ExprProg, value: int32) returns (ok: bool, result: int32)
    requires p.Valid()
    ensures ok <==> p.count <= OPS_MAX && Result(p.Code(), value).Some?
    ensures ok ==> Result(p.Code(), value) == Some(result)
  {
    result := 0;
    if p.count == 0 || p.count > OPS_MAX {
      return false, 0;
    }
    var st: array<int32> := new int32[STACK_MAX](_ => 0);
    var sp: nat := 0;
    var i := 0;
    ghost var code := p.Code();
    assert code[0..] == code && st[..0] == [];
    while i < p.count
      invariant i <= p.count && sp <= STACK_MAX
      invariant Exec(code, value, []) == Exec(code[i..], value, st[..sp])
    {
      ExecHead(code, i, value, st[..sp]);
      ok, sp := Cell(p.ops[i], value, st, sp);
      if !ok {
        return false, 0;
      }
      i := i + 1;
    }
    if sp != 1 {
      return false, 0;
    }
    return true, st[0];
  }

  /** The unclamped result of an operation on two int32s: always an int64. */
  function Wide(b: BinOp, x: int32, y: int32): (r: int64)
    requires (b == Div || b == Mod) ==> y != 0
    ensures ApplyBin(b, x, y) == Some(Clamp(r))
  {
    match b
    case Add => x + y
    case Sub => x - y
    case Mul => ProductBound(x, y); x * y
    case Div => QuotientBound(x, y); TruncDiv(x, y)
    case Mod => TruncatedDivision(x, y); TruncMod(x, y)
  }

  lemma NatProduct(x: nat, y: nat, m: nat)
    requires x <= m && y <= m
    ensures 0 <= x * y <= m * m
  {
    MulLe(x, m, y);
    MulLe(y, m, m);
  }

  lemma MulLe(a: nat, b: nat, c: nat)
    requires a <= b
    ensures 0 <= a * c <= b * c && c * a == a * c
  {
    var d: nat := b - a;
    assert (a + d) * c == a * c + d * c;
  }

  lemma ProductBound(x: int, y: int)
    requires INT32_MIN <= x <= INT32_MAX && INT32_MIN <= y <= INT32_MAX
    ensures -0x8000_0000_0000_0000 <= x * y <= 0x7FFF_FFFF_FFFF_FFFF
  {
    NatProduct(Abs(x), Abs(y), 0x8000_0000);
    assert x * y == Abs(x) * Abs(y) || x * y == -(Abs(x) * Abs(y));
  }

  lemma MulGrows(n: nat, q: nat)
    requires n > 0
    ensures q <= n * q
  {
    assert n * q == (n - 1) * q + q;
  }

  lemma NatQuotient(m: nat, q: nat, n: nat)
    requires n > 0 && q == m / n
    ensures q <= m
  {
    MulGrows(n, q);
  }

  lemma QuotientBound(a: int, b: int)
    requires b != 0
    ensures Abs(TruncDiv(a, b)) <= Abs(a)
  {
    NatQuotient(Abs(a), Abs(a) / Abs(b), Abs(b));
  }
}
