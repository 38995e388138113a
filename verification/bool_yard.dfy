/**
 The shunting-yard translation of lib/tst_bool_expr.c as a machine that takes one
 token at a time, and the proof that it recognises exactly the language of
 BoolGrammar and produces its reverse Polish notation.
 */
module BoolYard {
  import opened BoolGrammar

  /** The operator seen last; the start of the expression is TST_OP_NONE. */
  datatype Prev = Start | After(op: Op)

  datatype Error = ExpectedOperation | ExpectedVarOrRPar | ExpectedVarOrLPar | MissingLPar | MissingRPar | Unfinished

  /** `out` and `ops` are the two work arrays; `ops` ends with the top of the stack. */
  datatype Yard =
    | Running(out: seq<Token>, ops: seq<Token>, prev: Prev)
    | Failed(at: nat, why: Error)

  /** check_one: an operand cannot follow. */
  predicate CheckOne(p: Prev) {
    match p
    case Start => false
    case After(op) => !(op.And? || op.Or? || op.Not? || op.LPar?)
  }

  /** check_two: an operand has just ended. */
  predicate CheckTwo(p: Prev) {
    p.After? && (p.op.Var? || p.op.RPar?)
  }

  predicate TopIs(ops: seq<Token>, op: Op) {
    ops != [] && ops[|ops| - 1].op == op
  }

  function Pop(ops: seq<Token>): seq<Token>
    requires ops != []
  {
    ops[..|ops| - 1]
  }

  function Top(ops: seq<Token>): Token
    requires ops != []
  {
    ops[|ops| - 1]
  }

  /** Moves negations from the top of the stack to the output. */
  function PopNots(out: seq<Token>, ops: seq<Token>): (seq<Token>, seq<Token>)
    decreases |ops|
  {
    if TopIs(ops, Not) then PopNots(out + [Top(ops)], Pop(ops)) else (out, ops)
  }

  datatype Popped = Popped(out: seq<Token>, ops: seq<Token>) | NotFound

  /** Moves operators to the output until a left parenthesis, which is dropped. */
  function PopToPar(out: seq<Token>, ops: seq<Token>): Popped
    decreases |ops|
  {
    if ops == [] then NotFound
    else if Top(ops).op.LPar? then Popped(out, Pop(ops))
    else PopToPar(out + [Top(ops)], Pop(ops))
  }

  function Step(y: Yard, t: Token): Yard {
    if y.Failed? then y
    else match t.op
      case Var =>
        if CheckOne(y.prev) then Failed(t.at, ExpectedOperation)
        else var (out, ops) := PopNots(y.out + [t], y.ops); Running(out, ops, After(Var))
      case LPar =>
        if CheckOne(y.prev) then Failed(t.at, ExpectedOperation)
        else Running(y.out, y.ops + [t], After(LPar))
      case RPar =>
        if !CheckTwo(y.prev) then Failed(t.at, ExpectedVarOrRPar)
        else (match PopToPar(y.out, y.ops)
              case NotFound => Failed(t.at, MissingLPar)
              case Popped(out0, ops0) =>
                var (out, ops) := PopNots(out0, ops0); Running(out, ops, After(RPar)))
      case Not =>
        if CheckOne(y.prev) then Failed(t.at, ExpectedOperation)
        else Running(y.out, y.ops + [t], After(Not))
      case _ =>
        if !CheckTwo(y.prev) then Failed(t.at, ExpectedVarOrLPar)
        else if TopIs(y.ops, And) || TopIs(y.ops, Or)
        then Running(y.out + [Top(y.ops)], Pop(y.ops) + [t], After(t.op))
        else Running(y.out, y.ops + [t], After(t.op))
  }

  const Empty := Running([], [], Start)

  function Run(y: Yard, toks: seq<Token>): Yard
    decreases |toks|
  {
    if toks == [] then y else Step(Run(y, toks[..|toks| - 1]), toks[|toks| - 1])
  }

  datatype Outcome = Rpn(out: seq<Token>) | Error(at: nat, why: Error)

  function PopAll(out: seq<Token>, ops: seq<Token>): Outcome
    decreases |ops|
  {
    if ops == [] then Rpn(out)
    else if Top(ops).op.LPar? then Outcome.Error(Top(ops).at, MissingRPar)
    else PopAll(out + [Top(ops)], Pop(ops))
  }

  /** shunting_yard as a whole. */
  function Translate(toks: seq<Token>): Outcome
    requires toks != []
  {
    var y := Run(Empty, toks);
    var last := toks[|toks| - 1];
    if y.Failed? then Outcome.Error(y.at, y.why)
    else if !CheckTwo(After(last.op)) then Outcome.Error(last.at, Unfinished)
    else PopAll(y.out, y.ops)
  }

  lemma {:induction false} RunConcat(y: Yard, x: seq<Token>, z: seq<Token>)
    ensures Run(y, x + z) == Run(Run(y, x), z)
    decreases |z|
  {
    if z == [] {
      assert x + z == x;
    } else {
      RunConcat(y, x, z[..|z| - 1]);
      assert (x + z)[..|x + z| - 1] == x + z[..|z| - 1];
    }
  }

  lemma RunOne(y: Yard, t: Token)
    ensures Run(y, [t]) == Step(y, t)
  {
  }

  // ----- Every expression is accepted, with its RPN as the output -----

  function LastExpr(e: Expr): Op {
    match e
    case One(t) => LastTerm(t)
    case Chain(_, _, t) => LastTerm(t)
  }

  function LastTerm(t: Term): Op {
    match t
    case V(_) => Var
    case N(_, u) => LastTerm(u)
    case P(_, _, _) => RPar
  }

  /** The part of the RPN an expression has put out when its last token is read. */
  function Partial(e: Expr): seq<Token> {
    match e
    case One(t) => RpnTerm(t)
    case Chain(l, _, t) => RpnExpr(l) + RpnTerm(t)
  }

  /** The operator still on the stack by then. */
  function Pending(e: Expr): seq<Token> {
    match e
    case One(_) => []
    case Chain(_, op, _) => [op]
  }

  /** The stack below an expression: empty, or a left parenthesis on top. */
  predicate Bottom(ops: seq<Token>) {
    ops == [] || TopIs(ops, LPar)
  }

  lemma PopNotsPush(out: seq<Token>, ops: seq<Token>, t: Token)
    requires t.op.Not?
    ensures PopNots(out, ops + [t]) == PopNots(out + [t], ops)
  {
  }

  /** The machine after reading a term. */
  function AfterTerm(t: Term, y: Yard): Yard
    requires y.Running?
  {
    var (out, ops) := PopNots(y.out + RpnTerm(t), y.ops);
    Running(out, ops, After(LastTerm(t)))
  }

  /** The machine after reading an expression. */
  function AfterExpr(e: Expr, y: Yard): Yard
    requires y.Running?
  {
    Running(y.out + Partial(e), y.ops + Pending(e), After(LastExpr(e)))
  }

  lemma NotResult(tok: Token, u: Term, y: Yard)
    requires tok.op.Not? && y.Running?
    ensures AfterTerm(u, Running(y.out, y.ops + [tok], After(Not))) == AfterTerm(N(tok, u), y)
  {
    PopNotsPush(y.out + RpnTerm(u), y.ops, tok);
    assert y.out + RpnTerm(u) + [tok] == y.out + RpnTerm(N(tok, u));
  }

  lemma CloseStep(y: Yard, close: Token, out: seq<Token>, ops: seq<Token>)
    requires close.op.RPar? && y.Running? && CheckTwo(y.prev) && PopToPar(y.out, y.ops) == Popped(out, ops)
    ensures Step(y, close) == var (o, p) := PopNots(out, ops); Running(o, p, After(RPar))
  {
  }

  lemma ParResult(open: Token, e: Expr, close: Token, y: Yard)
    requires open.op.LPar? && close.op.RPar? && WfExpr(e) && y.Running? && CheckTwo(After(LastExpr(e)))
    ensures Step(AfterExpr(e, Running(y.out, y.ops + [open], After(LPar))), close) == AfterTerm(P(open, e, close), y)
  {
    PopPending(e, y.out, y.ops, open);
    CloseStep(AfterExpr(e, Running(y.out, y.ops + [open], After(LPar))), close, y.out + RpnExpr(e), y.ops);
  }

  lemma ChainResult(l: Expr, op: Token, t: Term, y: Yard)
    requires !op.op.Not? && y.Running?
    ensures AfterTerm(t, Running(y.out + RpnExpr(l), y.ops + [op], After(op.op))) == AfterExpr(Chain(l, op, t), y)
  {
  }

  lemma OneResult(t: Term, y: Yard)
    requires y.Running? && Bottom(y.ops)
    ensures AfterTerm(t, y) == AfterExpr(One(t), y)
  {
  }

  lemma {:induction false} LastIsOperand(t: Term)
    ensures CheckTwo(After(LastTerm(t)))
  {
    match t
    case V(_) =>
    case N(_, u) => LastIsOperand(u);
    case P(_, _, _) =>
  }

  lemma RunCons(y: Yard, t: Token, toks: seq<Token>)
    ensures Run(y, [t] + toks) == Run(Step(y, t), toks)
  {
    RunConcat(y, [t], toks);
    RunOne(y, t);
  }

  lemma RunSnoc(y: Yard, toks: seq<Token>, t: Token)
    ensures Run(y, toks + [t]) == Step(Run(y, toks), t)
  {
  }

  lemma RunEnclosed(y: Yard, open: Token, toks: seq<Token>, close: Token)
    ensures Run(y, [open] + toks + [close]) == Step(Run(Step(y, open), toks), close)
  {
    RunSnoc(y, [open] + toks, close);
    RunCons(y, open, toks);
  }

  lemma OpenPar(y: Yard, open: Token)
    requires open.op.LPar? && y.Running? && !CheckOne(y.prev)
    ensures Step(y, open) == Running(y.out, y.ops + [open], After(LPar))
  {
  }

  lemma {:induction false} ReadTerm(t: Term, y: Yard)
    requires WfTerm(t) && y.Running? && !CheckOne(y.prev)
    ensures Run(y, FlatTerm(t)) == AfterTerm(t, y)
    decreases t
  {
    match t
    case V(tok) => RunOne(y, tok);
    case N(tok, u) =>
      RunCons(y, tok, FlatTerm(u));
      ReadTerm(u, Running(y.out, y.ops + [tok], After(Not)));
      NotResult(tok, u, y);
    case P(open, e, close) =>
      ReadExpr(e, Running(y.out, y.ops + [open], After(LPar)));
      OpenPar(y, open);
      RunEnclosed(y, open, FlatExpr(e), close);
      LastIsOperand(if e.One? then e.term else e.right);
      ParResult(open, e, close, y);
  }

  lemma {:induction false} ReadExpr(e: Expr, y: Yard)
    requires WfExpr(e) && y.Running? && !CheckOne(y.prev) && Bottom(y.ops)
    ensures Run(y, FlatExpr(e)) == AfterExpr(e, y)
    decreases e
  {
    match e
    case One(t) =>
      ReadTerm(t, y);
      OneResult(t, y);
    case Chain(l, op, t) =>
      RunConcat(y, FlatExpr(l) + [op], FlatTerm(t));
      RunSnoc(y, FlatExpr(l), op);
      ReadExpr(l, y);
      LastIsOperand(if l.One? then l.term else l.right);
      PushOp(l, y.out, y.ops, op);
      ReadTerm(t, Running(y.out + RpnExpr(l), y.ops + [op], After(op.op)));
      ChainResult(l, op, t, y);
  }

  lemma PopPending(e: Expr, out: seq<Token>, ops: seq<Token>, open: Token)
    requires WfExpr(e) && open.op.LPar?
    ensures PopToPar(out + Partial(e), ops + [open] + Pending(e)) == Popped(out + RpnExpr(e), ops)
  {
  }

  lemma PushOp(l: Expr, out: seq<Token>, ops: seq<Token>, op: Token)
    requires WfExpr(l) && (op.op.And? || op.op.Or?) && Bottom(ops)
    requires CheckTwo(After(LastExpr(l)))
    ensures Step(Running(out + Partial(l), ops + Pending(l), After(LastExpr(l))), op)
            == Running(out + RpnExpr(l), ops + [op], After(op.op))
  {
  }

  lemma LastOfFlat(e: Expr)
    requires WfExpr(e)
    ensures FlatExpr(e) != [] && FlatExpr(e)[|FlatExpr(e)| - 1].op == LastExpr(e)
  {
    match e
    case One(t) => LastOfFlatTerm(t);
    case Chain(_, _, t) => LastOfFlatTerm(t);
  }

  lemma {:induction false} LastOfFlatTerm(t: Term)
    requires WfTerm(t)
    ensures FlatTerm(t) != [] && FlatTerm(t)[|FlatTerm(t)| - 1].op == LastTerm(t)
  {
    match t
    case V(_) =>
    case N(_, u) => LastOfFlatTerm(u);
    case P(_, _, _) =>
  }

  lemma PopLast(e: Expr)
    requires WfExpr(e)
    ensures PopAll(Partial(e), Pending(e)) == Rpn(RpnExpr(e))
  {
  }

  /** Every expression of the language is accepted and becomes its RPN. */
  lemma Complete(toks: seq<Token>, e: Expr)
    requires Generates(toks, e)
    ensures toks != [] && Translate(toks) == Rpn(RpnExpr(e))
  {
    ReadExpr(e, Empty);
    LastOfFlat(e);
    LastIsOperand(if e.One? then e.term else e.right);
    PopLast(e);
    assert [] + Partial(e) == Partial(e) && [] + Pending(e) == Pending(e);
  }
}
