/**
 The loops of lib/tst_bool_expr.c: shunting_yard over its two work arrays, the list of
 tokens it links together, and the 16-slot stack machine that evaluates the list.
 */
module BoolMachine {
  import opened BoolGrammar
  import opened BoolYard
  import opened BoolSound

  const MAX_STACK := 16

  /** Following `next` from `head` visits exactly these tokens; -1 ends the list. */
  ghost predicate Linked(next: seq<int>, head: int, toks: seq<Token>)
    decreases |toks|
  {
    if toks == [] then head == -1
    else head == toks[0].at && 0 <= head < |next| && Linked(next, next[head], toks[1..])
  }

  // ----- shunting_yard -----

  lemma UniqueToken(buf: seq<Token>, t: Token)
    requires Indexed(buf) && t in buf
    ensures multiset(buf)[t] == 1
  {
    var i := t.at;
    assert buf[i] == t;
    assert buf == buf[..i] + [t] + buf[i + 1..];
    assert t !in buf[..i] && t !in buf[i + 1..];
  }

  /** The output names every token at most once, and only tokens of the buffer. */
  ghost predicate Distinct(out: seq<Token>, buf: seq<Token>) {
    && (forall i :: 0 <= i < |out| ==> out[i].at < |buf| && buf[out[i].at] == out[i])
    && (forall i, j :: 0 <= i < j < |out| ==> out[i].at != out[j].at)
  }

  lemma OnceEach(s: seq<Token>, i: int, j: int)
    requires 0 <= i < j < |s| && s[i] == s[j]
    ensures multiset(s)[s[i]] >= 2
  {
    assert s == s[..j] + [s[j]] + s[j + 1..];
    assert s[..j][i] == s[i];
  }

  lemma OutputDistinct(buf: seq<Token>, out: seq<Token>)
    requires buf != [] && Indexed(buf) && Translate(buf) == Rpn(out)
    ensures Distinct(out, buf) && out != []
  {
    var e := Sound(buf);
    Complete(buf, e);
    RpnNotEmpty(e);
    forall i | 0 <= i < |out| ensures out[i] in buf {
      RpnPermutes(e, out[i]);
      assert out[i] in multiset(out);
      assert out[i] in multiset(buf);
    }
    forall i, j | 0 <= i < j < |out| ensures out[i].at != out[j].at {
      if out[i].at == out[j].at {
        assert out[i] == buf[out[i].at] == out[j];
        OnceEach(out, i, j);
        UniqueToken(buf, out[i]);
        RpnPermutes(e, out[i]);
      }
    }
  }

  lemma {:induction false} RpnNotEmpty(e: Expr)
    ensures RpnExpr(e) != []
  {
    match e
    case One(t) => RpnTermNotEmpty(t);
    case Chain(_, _, _) =>
  }

  lemma {:induction false} RpnTermNotEmpty(t: Term)
    ensures RpnTerm(t) != []
  {
    match t
    case V(_) =>
    case N(_, _) =>
    case P(_, e, _) => RpnNotEmpty(e);
  }

  /** The inner loop that moves negations from the stack to the output. */
  method MoveNots(out: array<Token>, outPos: nat, ops: array<Token>, opsPos: nat) returns (outPos': nat, opsPos': nat)
    requires out != ops && opsPos <= ops.Length && outPos + opsPos <= out.Length
    modifies out
    ensures outPos' + opsPos' == outPos + opsPos && opsPos' <= opsPos
    ensures (out[..outPos'], ops[..opsPos']) == PopNots(old(out[..outPos]), ops[..opsPos])
  {
    outPos', opsPos' := outPos, opsPos;
    while opsPos' > 0 && ops[opsPos' - 1].op.Not?
      invariant outPos' + opsPos' == outPos + opsPos && opsPos' <= opsPos
      invariant PopNots(out[..outPos'], ops[..opsPos']) == PopNots(old(out[..outPos]), ops[..opsPos])
    {
      ghost var before := out[..outPos'];
      ghost var stack := ops[..opsPos'];
      opsPos' := opsPos' - 1;
      out[outPos'] := ops[opsPos'];
      outPos' := outPos' + 1;
      assert out[..outPos'] == before + [Top(stack)];
      assert ops[..opsPos'] == Pop(stack);
    }
  }

  /** The inner loop that moves operators until it has taken a left parenthesis off the stack. */
  method MoveToPar(out: array<Token>, outPos: nat, ops: array<Token>, opsPos: nat)
    returns (found: bool, outPos': nat, opsPos': nat)
    requires out != ops && opsPos <= ops.Length && outPos + opsPos <= out.Length
    modifies out
    ensures outPos' + opsPos' <= outPos + opsPos && opsPos' <= opsPos
    ensures PopToPar(old(out[..outPos]), ops[..opsPos])
            == if found then Popped(out[..outPos'], ops[..opsPos']) else NotFound
    ensures found ==> outPos' + opsPos' < outPos + opsPos
  {
    outPos', opsPos' := outPos, opsPos;
    while true
      invariant outPos' + opsPos' == outPos + opsPos && opsPos' <= opsPos
      invariant PopToPar(out[..outPos'], ops[..opsPos']) == PopToPar(old(out[..outPos]), ops[..opsPos])
      decreases opsPos'
    {
      if opsPos' == 0 {
        return false, outPos', opsPos';
      }
      ghost var before := out[..outPos'];
      ghost var stack := ops[..opsPos'];
      opsPos' := opsPos' - 1;
      assert ops[..opsPos'] == Pop(stack);
      if ops[opsPos'].op.LPar? {
        return true, outPos', opsPos';
      }
      out[outPos'] := ops[opsPos'];
      outPos' := outPos' + 1;
      assert out[..outPos'] == before + [Top(stack)];
    }
  }

  /** One token of the main loop: what becomes of the two arrays. */
  method ReadToken(buf: seq<Token>, i: nat, out: array<Token>, outPos: nat, ops: array<Token>, opsPos: nat, prev: Prev)
    returns (ok: bool, why: Error, outPos': nat, opsPos': nat)
    requires out != ops && i < |buf| && Indexed(buf)
    requires outPos + opsPos <= i && |buf| == ops.Length && |buf| < out.Length
    modifies out, ops
    ensures outPos' + opsPos' <= i + 1
    ensures Step(Running(old(out[..outPos]), old(ops[..opsPos]), prev), buf[i])
            == if ok then Running(out[..outPos'], ops[..opsPos'], After(buf[i].op)) else Failed(i, why)
  {
    var t := buf[i];
    ok, why, outPos', opsPos' := true, ExpectedOperation, outPos, opsPos;
    match t.op
    case Var =>
      if CheckOne(prev) {
        ok := false;
      } else {
        out[outPos] := t;
        assert out[..outPos + 1] == old(out[..outPos]) + [t];
        outPos', opsPos' := MoveNots(out, outPos + 1, ops, opsPos);
      }
    case LPar =>
      if CheckOne(prev) {
        ok := false;
      } else {
        ops[opsPos] := t;
        opsPos' := opsPos + 1;
        assert ops[..opsPos'] == old(ops[..opsPos]) + [t];
      }
    case RPar =>
      if !CheckTwo(prev) {
        ok, why := false, ExpectedVarOrRPar;
      } else {
        ok, outPos', opsPos' := MoveToPar(out, outPos, ops, opsPos);
        if !ok {
          why := MissingLPar;
        } else {
          outPos', opsPos' := MoveNots(out, outPos', ops, opsPos');
        }
      }
    case Not =>
      if CheckOne(prev) {
        ok := false;
      } else {
        ops[opsPos] := t;
        opsPos' := opsPos + 1;
        assert ops[..opsPos'] == old(ops[..opsPos]) + [t];
      }
    case _ =>
      if !CheckTwo(prev) {
        ok, why := false, ExpectedVarOrLPar;
      } else {
        outPos', opsPos' := PushBinary(t, out, outPos, ops, opsPos);
      }
  }

  method PushBinary(t: Token, out: array<Token>, outPos: nat, ops: array<Token>, opsPos: nat)
    returns (outPos': nat, opsPos': nat)
    requires out != ops && opsPos < ops.Length && outPos + opsPos < out.Length
    modifies out, ops
    ensures outPos' + opsPos' == outPos + opsPos + 1
    ensures var out0, ops0 := old(out[..outPos]), old(ops[..opsPos]);
      if TopIs(ops0, And) || TopIs(ops0, Or)
      then out[..outPos'] == out0 + [Top(ops0)] && ops[..opsPos'] == Pop(ops0) + [t]
      else out[..outPos'] == out0 && ops[..opsPos'] == ops0 + [t]
  {
    outPos', opsPos' := outPos, opsPos;
    if opsPos > 0 && (ops[opsPos - 1].op.And? || ops[opsPos - 1].op.Or?) {
      opsPos' := opsPos - 1;
      out[outPos] := ops[opsPos'];
      outPos' := outPos + 1;
      assert out[..outPos'] == old(out[..outPos]) + [ops[opsPos - 1]];
    }
    ops[opsPos'] := t;
    opsPos' := opsPos' + 1;
    assert ops[..opsPos'] == ops[..opsPos' - 1] + [t];
  }

  /** Pops what is left on the stack; an unclosed parenthesis is an error. */
  method Flush(out: array<Token>, outPos: nat, ops: array<Token>, opsPos: nat) returns (r: Outcome, outPos': nat)
    requires out != ops && opsPos <= ops.Length && outPos + opsPos <= out.Length
    modifies out
    ensures r == PopAll(old(out[..outPos]), ops[..opsPos])
    ensures outPos' <= outPos + opsPos
    ensures r.Rpn? ==> r.out == out[..outPos']
  {
    outPos' := outPos;
    var opsPos': nat := opsPos;
    while opsPos' > 0
      invariant outPos' + opsPos' == outPos + opsPos && opsPos' <= opsPos
      invariant PopAll(out[..outPos'], ops[..opsPos']) == PopAll(old(out[..outPos]), ops[..opsPos])
    {
      ghost var before := out[..outPos'];
      ghost var stack := ops[..opsPos'];
      opsPos' := opsPos' - 1;
      assert ops[..opsPos'] == Pop(stack);
      if ops[opsPos'].op.LPar? {
        return Outcome.Error(ops[opsPos'].at, MissingRPar), outPos';
      }
      out[outPos'] := ops[opsPos'];
      outPos' := outPos' + 1;
      assert out[..outPos'] == before + [Top(stack)];
    }
    r := Rpn(out[..outPos']);
  }

  function Successor(toks: seq<Token>, k: nat): int {
    if k + 1 < |toks| then toks[k + 1].at else -1
  }

  /** The next pointer of every output token names its successor. */
  ghost predicate Chained(next: seq<int>, toks: seq<Token>, n: nat)
    requires n <= |toks|
  {
    forall k :: 0 <= k < n && 0 <= toks[k].at < |next| ==> next[toks[k].at] == Successor(toks, k)
  }

  lemma {:induction false} ChainedIsLinked(next: seq<int>, toks: seq<Token>, from: nat)
    requires from < |toks| && Chained(next, toks, |toks|)
    requires forall k :: 0 <= k < |toks| ==> toks[k].at < |next|
    ensures Linked(next, toks[from].at, toks[from..])
    decreases |toks| - from
  {
    assert toks[from..][0] == toks[from] && toks[from..][1..] == toks[from + 1..];
    assert next[toks[from].at] == Successor(toks, from);
    if from + 1 < |toks| {
      ChainedIsLinked(next, toks, from + 1);
    }
  }

  /** Links the output tokens into a list. */
  method Link(buf: seq<Token>, out: array<Token>, outPos: nat, next: array<int>) returns (head: int)
    requires outPos < out.Length && outPos > 0 && next.Length == |buf| && Distinct(out[..outPos], buf)
    modifies next
    ensures Linked(next[..], head, out[..outPos])
  {
    ghost var toks := out[..outPos];
    var j := 0;
    while j < outPos
      invariant j <= outPos && Chained(next[..], toks, j)
    {
      assert toks[j] == out[j];
      next[out[j].at] := if j + 1 < outPos then out[j + 1].at else -1;
      assert j + 1 < outPos ==> toks[j + 1] == out[j + 1];
      j := j + 1;
    }
    head := out[0].at;
    ChainedIsLinked(next[..], toks, 0);
    assert toks[0..] == toks && toks[0] == out[0];
  }

  lemma RunNext(buf: seq<Token>, i: nat)
    requires i < |buf|
    ensures Run(Empty, buf[..i + 1]) == Step(Run(Empty, buf[..i]), buf[i])
  {
    RunSnoc(Empty, buf[..i], buf[i]);
    assert buf[..i] + [buf[i]] == buf[..i + 1];
  }

  lemma RunFails(buf: seq<Token>, i: nat)
    requires i <= |buf| && Run(Empty, buf[..i]).Failed?
    ensures Run(Empty, buf) == Run(Empty, buf[..i])
  {
    RunConcat(Empty, buf[..i], buf[i..]);
    assert buf[..i] + buf[i..] == buf;
    FailedStays(Run(Empty, buf[..i]), buf[i..]);
  }

  /** The machine's state after the first `i` tokens. */
  ghost predicate Reached(buf: seq<Token>, i: nat, y: Yard)
    requires i <= |buf|
  {
    Run(Empty, buf[..i]) == y
  }

  /** ReadToken, said of the machine's run. */
  method ReadNext(buf: seq<Token>, i: nat, out: array<Token>, outPos: nat, ops: array<Token>, opsPos: nat, prev: Prev)
    returns (ok: bool, why: Error, outPos': nat, opsPos': nat)
    requires out != ops && i < |buf| && Indexed(buf)
    requires outPos + opsPos <= i && |buf| == ops.Length && |buf| < out.Length
    requires Reached(buf, i, Running(out[..outPos], ops[..opsPos], prev))
    modifies out, ops
    ensures outPos' + opsPos' <= i + 1
    ensures if ok then Reached(buf, i + 1, Running(out[..outPos'], ops[..opsPos'], After(buf[i].op)))
            else Reached(buf, |buf|, Failed(i, why))
  {
    RunNext(buf, i);
    ok, why, outPos', opsPos' := ReadToken(buf, i, out, outPos, ops, opsPos, prev);
    if !ok {
      RunFails(buf, i + 1);
      assert buf[..|buf|] == buf;
    }
  }

  /** The main loop of shunting_yard. */
  method ReadAll(buf: seq<Token>, out: array<Token>, ops: array<Token>)
    returns (y: Yard, outPos: nat, opsPos: nat)
    requires out != ops && Indexed(buf) && |buf| == ops.Length && |buf| < out.Length
    modifies out, ops
    ensures Reached(buf, |buf|, y) && outPos + opsPos <= |buf|
    ensures y.Running? ==> y.out == out[..outPos] && y.ops == ops[..opsPos]
  {
    opsPos, outPos := 0, 0;
    var prev := Start;
    var i := 0;
    assert buf[..0] == [];
    while i < |buf|
      invariant i <= |buf| && outPos + opsPos <= i
      invariant Reached(buf, i, Running(out[..outPos], ops[..opsPos], prev))
    {
      var ok, why;
      ok, why, outPos, opsPos := ReadNext(buf, i, out, outPos, ops, opsPos, prev);
      if !ok {
        return Failed(i, why), outPos, opsPos;
      }
      prev := After(buf[i].op);
      i := i + 1;
    }
    y := Running(out[..outPos], ops[..opsPos], prev);
  }

  /**
   shunting_yard: neither work array overflows, the outcome is that of the translation,
   and on success the list in `next` is the reverse Polish notation.
   */
  method ShuntingYard(buf: seq<Token>, next: array<int>) returns (r: Outcome, head: int)
    requires buf != [] && Indexed(buf) && next.Length == |buf|
    modifies next
    ensures r == Translate(buf)
    ensures r.Rpn? ==> Linked(next[..], head, r.out)
  {
    head := -1;
    var ops := new Token[|buf|];
    var out := new Token[|buf| + 1];
    var y, outPos, opsPos := ReadAll(buf, out, ops);
    assert buf[..|buf|] == buf;
    if y.Failed? {
      return Outcome.Error(y.at, y.why), head;
    }
    if !CheckTwo(After(buf[|buf| - 1].op)) {
      return Outcome.Error(buf[|buf| - 1].at, Unfinished), head;
    }
    r, outPos := Flush(out, outPos, ops, opsPos);
    if r.Rpn? {
      OutputDistinct(buf, r.out);
      head := Link(buf, out, outPos, next);
    }
  }

  // ----- tst_bool_expr_eval -----

  /** The stack machine; `Aborted` is the return value -1, `Underflow` must not happen. */
  datatype Machine = Stack(values: seq<int>) | Aborted | Underflow

  /** One token of the RPN. */
  function Tick(t: Token, env: Token -> int, stack: seq<int>): Machine {
    var n := |stack|;
    match t.op
    case Var => if n >= MAX_STACK || env(t) == -1 then Aborted else Stack(stack + [env(t)])
    case Not => if n < 1 then Underflow else Stack(stack[n - 1 := Truth(stack[n - 1] == 0)])
    case And =>
      if n < 2 then Underflow
      else Stack(stack[..n - 2] + [Truth(stack[n - 1] != 0 && stack[n - 2] != 0)])
    case Or =>
      if n < 2 then Underflow
      else Stack(stack[..n - 2] + [Truth(stack[n - 1] != 0 || stack[n - 2] != 0)])
    case _ => Stack(stack)
  }

  function Exec(rpn: seq<Token>, env: Token -> int, stack: seq<int>): Machine
    decreases |rpn|
  {
    if rpn == [] then Stack(stack)
    else
      var m := Tick(rpn[0], env, stack);
      if m.Stack? then Exec(rpn[1..], env, m.values) else m
  }

  /** No variable of the expression maps to -1. */
  predicate DefinedExpr(e: Expr, env: Token -> int) {
    match e
    case One(t) => DefinedTerm(t, env)
    case Chain(l, _, t) => DefinedExpr(l, env) && DefinedTerm(t, env)
  }

  predicate DefinedTerm(t: Term, env: Token -> int) {
    match t
    case V(tok) => env(tok) != -1
    case N(_, u) => DefinedTerm(u, env)
    case P(_, e, _) => DefinedExpr(e, env)
  }

  /** Evaluating an expression pushes its value, or aborts. */
  function AfterEval(fine: bool, value: int, rest: seq<Token>, env: Token -> int, stack: seq<int>): Machine {
    if fine then Exec(rest, env, stack + [value]) else Aborted
  }

  lemma ExecNot(v: int, tok: Token, rest: seq<Token>, env: Token -> int, stack: seq<int>)
    requires tok.op.Not?
    ensures Exec([tok] + rest, env, stack + [v]) == Exec(rest, env, stack + [Truth(v == 0)])
  {
    assert ([tok] + rest)[1..] == rest;
    assert (stack + [v])[|stack| := Truth(v == 0)] == stack + [Truth(v == 0)];
  }

  lemma ExecBinary(x: int, y: int, op: Token, rest: seq<Token>, env: Token -> int, stack: seq<int>)
    requires op.op.And? || op.op.Or?
    ensures Exec([op] + rest, env, stack + [x] + [y]) == Exec(rest, env, stack + [Apply(op.op, x, y)])
  {
    var both := stack + [x] + [y];
    assert ([op] + rest)[0] == op && ([op] + rest)[1..] == rest;
    assert both[..|stack|] == stack && both[|stack|] == x && both[|stack| + 1] == y;
  }

  lemma {:induction false} ExecExpr(e: Expr, rest: seq<Token>, env: Token -> int, stack: seq<int>)
    requires WfExpr(e)
    ensures Exec(RpnExpr(e) + rest, env, stack)
            == AfterEval(DefinedExpr(e, env) && |stack| + NeedExpr(e) <= MAX_STACK, ValueExpr(e, env), rest, env, stack)
    decreases e
  {
    match e
    case One(t) => ExecTerm(t, rest, env, stack);
    case Chain(l, op, t) =>
      var x, y := ValueExpr(l, env), ValueTerm(t, env);
      assert RpnExpr(e) + rest == RpnExpr(l) + (RpnTerm(t) + ([op] + rest));
      ExecExpr(l, RpnTerm(t) + ([op] + rest), env, stack);
      ExecTerm(t, [op] + rest, env, stack + [x]);
      ExecBinary(x, y, op, rest, env, stack);
  }

  lemma {:induction false} ExecTerm(t: Term, rest: seq<Token>, env: Token -> int, stack: seq<int>)
    requires WfTerm(t)
    ensures Exec(RpnTerm(t) + rest, env, stack)
            == AfterEval(DefinedTerm(t, env) && |stack| + NeedTerm(t) <= MAX_STACK, ValueTerm(t, env), rest, env, stack)
    decreases t
  {
    match t
    case V(tok) => assert ([tok] + rest)[1..] == rest;
    case N(tok, u) =>
      assert RpnTerm(t) + rest == RpnTerm(u) + ([tok] + rest);
      ExecTerm(u, [tok] + rest, env, stack);
      ExecNot(ValueTerm(u, env), tok, rest, env, stack);
    case P(_, e, _) => ExecExpr(e, rest, env, stack);
  }

  /** With every variable defined the value is never the error code. */
  lemma {:induction false} DefinedValue(e: Expr, env: Token -> int)
    requires DefinedExpr(e, env)
    ensures ValueExpr(e, env) != -1
    decreases e
  {
    match e
    case One(t) => DefinedValueTerm(t, env);
    case Chain(_, _, _) =>
  }

  lemma {:induction false} DefinedValueTerm(t: Term, env: Token -> int)
    requires DefinedTerm(t, env)
    ensures ValueTerm(t, env) != -1
    decreases t
  {
    match t
    case V(_) =>
    case N(_, _) =>
    case P(_, e, _) => DefinedValue(e, env);
  }

  /** What tst_bool_expr_eval returns. */
  function Returned(m: Machine): int
    requires m.Aborted? || (m.Stack? && m.values != [])
  {
    if m.Aborted? then -1 else m.values[0]
  }

  /**
   The machine never underflows on an expression.  It returns -1 exactly when some
   variable maps to -1 or more than 16 values have to be held at once; otherwise it
   returns the left-associative value of the expression as it was written.
   */
  lemma EvalMeaning(e: Expr, env: Token -> int)
    requires WfExpr(e)
    ensures var m := Exec(RpnExpr(e), env, []);
      && (m.Aborted? || (m.Stack? && m.values != []))
      && (Returned(m) == -1 <==> !DefinedExpr(e, env) || NeedExpr(e) > MAX_STACK)
      && (Returned(m) != -1 ==> Returned(m) == ValueExpr(e, env))
  {
    ExecExpr(e, [], env, []);
    assert RpnExpr(e) + [] == RpnExpr(e);
    if DefinedExpr(e, env) {
      DefinedValue(e, env);
    }
  }

  /** Parentheses nested at most 14 deep never exhaust the stack; 15 levels can. */
  lemma NestingLimit(e: Expr, env: Token -> int)
    requires WfExpr(e) && DefinedExpr(e, env) && NestExpr(e) <= MAX_STACK - 2
    ensures Exec(RpnExpr(e), env, []) == Stack([ValueExpr(e, env)])
  {
    NeedWithinNest(e);
    ExecExpr(e, [], env, []);
    assert RpnExpr(e) + [] == RpnExpr(e);
  }

  lemma NestingLimitReached(env: Token -> int)
    ensures var e := Nested(MAX_STACK - 1);
      WfExpr(e) && NestExpr(e) == MAX_STACK - 1 && Exec(RpnExpr(e), env, []).Aborted?
  {
    NeedReached(MAX_STACK - 1);
    var e := Nested(MAX_STACK - 1);
    ExecExpr(e, [], env, []);
    assert RpnExpr(e) + [] == RpnExpr(e);
  }

  /** The switch inside the evaluation loop; `pos` is the index of the topmost value. */
  method TickInPlace(t: Token, env: Token -> int, stack: array<int>, pos: int) returns (ok: bool, pos': int)
    requires stack.Length == MAX_STACK && -1 <= pos < MAX_STACK
    requires !Tick(t, env, stack[..pos + 1]).Underflow?
    modifies stack
    ensures -1 <= pos' < MAX_STACK
    ensures Tick(t, env, old(stack[..pos + 1])) == if ok then Stack(stack[..pos' + 1]) else Aborted
  {
    ok, pos' := true, pos;
    ghost var m := Tick(t, env, stack[..pos + 1]);
    match t.op
    case Not =>
      stack[pos] := Truth(stack[pos] == 0);
      assert stack[..pos' + 1] == m.values;
    case Or =>
      stack[pos - 1] := Truth(stack[pos] != 0 || stack[pos - 1] != 0);
      pos' := pos - 1;
      assert stack[..pos' + 1] == m.values;
    case And =>
      stack[pos - 1] := Truth(stack[pos] != 0 && stack[pos - 1] != 0);
      pos' := pos - 1;
      assert stack[..pos' + 1] == m.values;
    case Var =>
      if pos + 1 >= MAX_STACK {
        ok := false;
      } else {
        pos' := pos + 1;
        stack[pos'] := env(t);
        ok := stack[pos'] != -1;
        assert stack[..pos' + 1] == old(stack[..pos + 1]) + [env(t)];
      }
    case _ =>
  }

  /** tst_bool_expr_eval over the linked list. */
  method Eval(buf: seq<Token>, next: seq<int>, head: int, env: Token -> int, ghost rpn: seq<Token>) returns (r: int)
    requires |next| == |buf| && Linked(next, head, rpn)
    requires forall k :: 0 <= k < |rpn| ==> rpn[k].at < |buf| && buf[rpn[k].at] == rpn[k]
    requires var m := Exec(rpn, env, []); m.Aborted? || (m.Stack? && m.values != [])
    ensures r == Returned(Exec(rpn, env, []))
  {
    var stack := new int[MAX_STACK];
    var pos := -1;
    var i := head;
    ghost var rest := rpn;
    assert stack[..0] == [];
    while i != -1
      invariant -1 <= pos < MAX_STACK
      invariant Linked(next, i, rest)
      invariant forall k :: 0 <= k < |rest| ==> rest[k].at < |buf| && buf[rest[k].at] == rest[k]
      invariant Exec(rest, env, stack[..pos + 1]) == Exec(rpn, env, [])
      decreases |rest|
    {
      assert buf[i] == rest[0];
      var ok;
      ok, pos := TickInPlace(buf[i], env, stack, pos);
      if !ok {
        return -1;
      }
      rest := rest[1..];
      i := next[i];
    }
    r := stack[0];
  }
}
