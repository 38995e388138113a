/**
 The other half of the recogniser: whatever the machine of BoolYard accepts is an
 expression, and it gives up at the first token that no expression can continue with.
 */
module BoolSound {
  import opened BoolGrammar
  import opened BoolYard

  /** A left operand with its operator, if there is one. */
  datatype Left = NoLeft | Left(e: Expr, op: Token)

  /** An operand still to come: what is to its left and the negations before it. */
  datatype Frame = Frame(left: Left, nots: seq<Token>)

  datatype Layer = Layer(frame: Frame, open: Token)

  /** A prefix of an expression: the open parentheses around it, and either a wanted or a finished operand. */
  datatype Parse = Wanting(outer: seq<Layer>, top: Frame) | Having(outer: seq<Layer>, cur: Expr)

  predicate WfLeft(l: Left) {
    l.Left? ==> WfExpr(l.e) && (l.op.op.And? || l.op.op.Or?)
  }

  predicate AllNots(nots: seq<Token>) {
    forall i :: 0 <= i < |nots| ==> nots[i].op.Not?
  }

  predicate WfFrame(f: Frame) {
    WfLeft(f.left) && AllNots(f.nots)
  }

  predicate WfOuter(outer: seq<Layer>) {
    forall i :: 0 <= i < |outer| ==> WfFrame(outer[i].frame) && outer[i].open.op.LPar?
  }

  predicate WfParse(p: Parse) {
    WfOuter(p.outer) && if p.Wanting? then WfFrame(p.top) else WfExpr(p.cur)
  }

  function FlatLeft(l: Left): seq<Token> {
    if l.NoLeft? then [] else FlatExpr(l.e) + [l.op]
  }

  function FlatFrame(f: Frame): seq<Token> {
    FlatLeft(f.left) + f.nots
  }

  function FlatOuter(outer: seq<Layer>): seq<Token> {
    if outer == [] then []
    else FlatOuter(outer[..|outer| - 1]) + FlatFrame(outer[|outer| - 1].frame) + [outer[|outer| - 1].open]
  }

  function FlatParse(p: Parse): seq<Token> {
    FlatOuter(p.outer) + if p.Wanting? then FlatFrame(p.top) else FlatExpr(p.cur)
  }

  /** What such a prefix leaves on the operator stack. */
  function OpsLeft(l: Left): seq<Token> {
    if l.NoLeft? then [] else [l.op]
  }

  function OpsOuter(outer: seq<Layer>): seq<Token> {
    if outer == [] then []
    else OpsOuter(outer[..|outer| - 1]) + OpsLeft(outer[|outer| - 1].frame.left)
         + outer[|outer| - 1].frame.nots + [outer[|outer| - 1].open]
  }

  function OpsParse(p: Parse): seq<Token> {
    OpsOuter(p.outer) + if p.Wanting? then OpsLeft(p.top.left) + p.top.nots else Pending(p.cur)
  }

  // ----- Growing a prefix -----

  function Wrap(nots: seq<Token>, t: Term): Term {
    if nots == [] then t else N(nots[0], Wrap(nots[1..], t))
  }

  function Attach(f: Frame, t: Term): Expr {
    if f.left.NoLeft? then One(Wrap(f.nots, t)) else Chain(f.left.e, f.left.op, Wrap(f.nots, t))
  }

  /** The grammar allows t after the prefix. */
  predicate Fits(p: Parse, t: Token) {
    match t.op
    case Var => p.Wanting?
    case LPar => p.Wanting?
    case Not => p.Wanting?
    case RPar => p.Having? && p.outer != []
    case _ => p.Having?
  }

  function Grow(p: Parse, t: Token): Parse
    requires Fits(p, t)
  {
    match t.op
    case Var => Having(p.outer, Attach(p.top, V(t)))
    case LPar => Wanting(p.outer + [Layer(p.top, t)], Frame(NoLeft, []))
    case Not => Wanting(p.outer, p.top.(nots := p.top.nots + [t]))
    case RPar =>
      var inner := p.outer[|p.outer| - 1];
      Having(p.outer[..|p.outer| - 1], Attach(inner.frame, P(inner.open, p.cur, t)))
    case _ => Wanting(p.outer, Frame(Left(p.cur, t), []))
  }

  lemma {:induction false} WrapFlat(nots: seq<Token>, t: Term)
    requires AllNots(nots) && WfTerm(t)
    ensures WfTerm(Wrap(nots, t)) && FlatTerm(Wrap(nots, t)) == nots + FlatTerm(t)
  {
    if nots == [] {
      assert nots + FlatTerm(t) == FlatTerm(t);
    } else {
      WrapFlat(nots[1..], t);
      assert [nots[0]] + (nots[1..] + FlatTerm(t)) == nots + FlatTerm(t);
    }
  }

  lemma AttachFlat(f: Frame, t: Term)
    requires WfFrame(f) && WfTerm(t)
    ensures WfExpr(Attach(f, t)) && FlatExpr(Attach(f, t)) == FlatFrame(f) + FlatTerm(t)
  {
    WrapFlat(f.nots, t);
    if f.left.NoLeft? {
      assert FlatFrame(f) == f.nots;
    } else {
      assert FlatFrame(f) + FlatTerm(t) == FlatLeft(f.left) + (f.nots + FlatTerm(t));
    }
  }

  lemma GrowFlat(p: Parse, t: Token)
    requires WfParse(p) && Fits(p, t)
    ensures WfParse(Grow(p, t)) && FlatParse(Grow(p, t)) == FlatParse(p) + [t]
  {
    match t.op
    case Var =>
      AttachFlat(p.top, V(t));
      assert FlatOuter(p.outer) + (FlatFrame(p.top) + [t]) == FlatParse(p) + [t];
    case LPar =>
      GrowFlatOpen(p, t);
    case Not =>
      assert FlatFrame(p.top.(nots := p.top.nots + [t])) == FlatFrame(p.top) + [t];
      assert FlatOuter(p.outer) + (FlatFrame(p.top) + [t]) == FlatParse(p) + [t];
    case RPar =>
      GrowFlatClose(p, t);
    case _ =>
      assert FlatFrame(Frame(Left(p.cur, t), [])) == FlatExpr(p.cur) + [t];
      assert FlatOuter(p.outer) + (FlatExpr(p.cur) + [t]) == FlatParse(p) + [t];
  }

  lemma GrowFlatOpen(p: Parse, t: Token)
    requires WfParse(p) && Fits(p, t) && t.op.LPar?
    ensures WfParse(Grow(p, t)) && FlatParse(Grow(p, t)) == FlatParse(p) + [t]
  {
  }

  lemma GrowFlatClose(p: Parse, t: Token)
    requires WfParse(p) && Fits(p, t) && t.op.RPar?
    ensures WfParse(Grow(p, t)) && FlatParse(Grow(p, t)) == FlatParse(p) + [t]
  {
    var inner, rest := p.outer[|p.outer| - 1], p.outer[..|p.outer| - 1];
    var u := P(inner.open, p.cur, t);
    AttachFlat(inner.frame, u);
    var a, b, c := FlatOuter(rest), FlatFrame(inner.frame), FlatExpr(p.cur);
    assert FlatTerm(u) == [inner.open] + c + [t];
    assert FlatOuter(p.outer) == a + b + [inner.open];
    assert a + (b + ([inner.open] + c + [t])) == a + b + [inner.open] + c + [t];
  }

  // ----- The machine follows the prefix -----

  lemma {:induction false} PopNotsAll(out: seq<Token>, base: seq<Token>, nots: seq<Token>)
    requires AllNots(nots) && !TopIs(base, Not)
    ensures PopNots(out, base + nots).1 == base
    decreases |nots|
  {
    if nots == [] {
      assert base + nots == base;
    } else {
      assert Pop(base + nots) == base + nots[..|nots| - 1];
      PopNotsAll(out + [Top(base + nots)], base, nots[..|nots| - 1]);
    }
  }

  lemma OuterTop(outer: seq<Layer>, l: Left)
    requires WfOuter(outer) && WfLeft(l)
    ensures !TopIs(OpsOuter(outer) + OpsLeft(l), Not)
  {
  }

  lemma AttachPending(f: Frame, t: Term)
    ensures Pending(Attach(f, t)) == OpsLeft(f.left)
  {
  }

  /** The machine stands where the prefix says. */
  ghost predicate Follows(y: Yard, p: Parse) {
    y.Running? && WfParse(p) && y.ops == OpsParse(p) && (CheckTwo(y.prev) <==> p.Having?)
  }

  lemma FollowOperand(y: Yard, p: Parse, out: seq<Token>, t: Term)
    requires Follows(y, p) && p.Wanting?
    ensures PopNots(out, y.ops).1 == OpsOuter(p.outer) + Pending(Attach(p.top, t))
  {
    OuterTop(p.outer, p.top.left);
    assert y.ops == (OpsOuter(p.outer) + OpsLeft(p.top.left)) + p.top.nots;
    PopNotsAll(out, OpsOuter(p.outer) + OpsLeft(p.top.left), p.top.nots);
    AttachPending(p.top, t);
  }

  /** Popping to the parenthesis finds the innermost open one, or none at all. */
  lemma PopToOpen(out: seq<Token>, outer: seq<Layer>, cur: Expr)
    requires WfOuter(outer) && WfExpr(cur)
    ensures var r := PopToPar(out, OpsOuter(outer) + Pending(cur));
      if outer == [] then r.NotFound?
      else r.Popped? && r.ops == OpsParse(Wanting(outer[..|outer| - 1], outer[|outer| - 1].frame))
  {
  }

  lemma FollowVar(y: Yard, p: Parse, t: Token)
    requires Follows(y, p) && t.op.Var? && p.Wanting?
    ensures Follows(Step(y, t), Grow(p, t))
  {
    FollowOperand(y, p, y.out + [t], V(t));
    GrowFlat(p, t);
  }

  lemma GrowOpenOps(p: Parse, t: Token)
    requires t.op.LPar? && p.Wanting?
    ensures OpsParse(Grow(p, t)) == OpsParse(p) + [t]
  {
  }

  lemma FollowOpen(y: Yard, p: Parse, t: Token)
    requires Follows(y, p) && t.op.LPar? && p.Wanting?
    ensures Follows(Step(y, t), Grow(p, t))
  {
    GrowFlat(p, t);
    GrowOpenOps(p, t);
  }

  lemma FollowNot(y: Yard, p: Parse, t: Token)
    requires Follows(y, p) && t.op.Not? && p.Wanting?
    ensures Follows(Step(y, t), Grow(p, t))
  {
  }

  lemma FollowClose(y: Yard, p: Parse, t: Token)
    requires Follows(y, p) && t.op.RPar? && p.Having? && p.outer != []
    ensures Follows(Step(y, t), Grow(p, t))
  {
    PopToOpen(y.out, p.outer, p.cur);
    var r := PopToPar(y.out, y.ops);
    var inner, rest := p.outer[|p.outer| - 1], p.outer[..|p.outer| - 1];
    var q := Wanting(rest, inner.frame);
    FollowOperand(Running(r.out, r.ops, Start), q, r.out, P(inner.open, p.cur, t));
    GrowFlat(p, t);
  }

  lemma BinaryOps(outer: seq<Layer>, cur: Expr, t: Token)
    requires WfOuter(outer) && WfExpr(cur)
    ensures var ops := OpsOuter(outer) + Pending(cur);
      (if TopIs(ops, And) || TopIs(ops, Or) then Pop(ops) + [t] else ops + [t]) == OpsOuter(outer) + [t]
  {
  }

  lemma GrowBinaryOps(p: Parse, t: Token)
    requires (t.op.And? || t.op.Or?) && p.Having?
    ensures OpsParse(Grow(p, t)) == OpsOuter(p.outer) + [t]
  {
  }

  lemma StepBinary(y: Yard, t: Token)
    requires (t.op.And? || t.op.Or?) && y.Running? && CheckTwo(y.prev)
    ensures Step(y, t).Running? && !CheckTwo(Step(y, t).prev)
    ensures Step(y, t).ops == if TopIs(y.ops, And) || TopIs(y.ops, Or) then Pop(y.ops) + [t] else y.ops + [t]
  {
  }

  lemma FollowBinary(y: Yard, p: Parse, t: Token)
    requires Follows(y, p) && (t.op.And? || t.op.Or?) && p.Having?
    ensures Follows(Step(y, t), Grow(p, t))
  {
    GrowFlat(p, t);
    StepBinary(y, t);
    BinaryOps(p.outer, p.cur, t);
    GrowBinaryOps(p, t);
  }

  /** The machine goes on exactly when the grammar allows the token. */
  lemma FollowStep(y: Yard, p: Parse, t: Token)
    requires Follows(y, p)
    ensures Step(y, t).Running? <==> Fits(p, t)
    ensures Fits(p, t) ==> Follows(Step(y, t), Grow(p, t))
  {
    if Fits(p, t) {
      match t.op
      case Var => FollowVar(y, p, t);
      case LPar => FollowOpen(y, p, t);
      case Not => FollowNot(y, p, t);
      case RPar => FollowClose(y, p, t);
      case _ => FollowBinary(y, p, t);
    } else if p.Having? && t.op.RPar? {
      PopToOpen(y.out, p.outer, p.cur);
    }
  }

  const NoTokens := Wanting([], Frame(NoLeft, []))

  lemma StartFollows()
    ensures Follows(Empty, NoTokens) && FlatParse(NoTokens) == []
  {
  }

  lemma GrowRun(front: seq<Token>, t: Token, q: Parse) returns (p: Parse)
    requires Follows(Run(Empty, front), q) && FlatParse(q) == front && Run(Empty, front + [t]).Running?
    ensures Follows(Run(Empty, front + [t]), p) && FlatParse(p) == front + [t]
  {
    RunSnoc(Empty, front, t);
    FollowStep(Run(Empty, front), q, t);
    GrowFlat(q, t);
    p := Grow(q, t);
  }

  /** As long as the machine runs, what it has read is a prefix of some expression. */
  lemma {:induction false} RunFollows(toks: seq<Token>) returns (p: Parse)
    requires Run(Empty, toks).Running?
    ensures Follows(Run(Empty, toks), p) && FlatParse(p) == toks
    decreases |toks|
  {
    if toks == [] {
      StartFollows();
      p := NoTokens;
    } else {
      var front, t := toks[..|toks| - 1], toks[|toks| - 1];
      assert front + [t] == toks;
      var q := RunFollows(front);
      p := GrowRun(front, t, q);
    }
  }

  // ----- Soundness -----

  lemma {:induction false} PopAllRefuses(out: seq<Token>, ops: seq<Token>, i: nat)
    requires i < |ops| && ops[i].op.LPar?
    ensures PopAll(out, ops).Error?
    decreases |ops|
  {
    if !Top(ops).op.LPar? {
      PopAllRefuses(out + [Top(ops)], Pop(ops), i);
    }
  }

  lemma LastPrev(toks: seq<Token>)
    requires toks != [] && Run(Empty, toks).Running?
    ensures Run(Empty, toks).prev == After(toks[|toks| - 1].op)
  {
  }

  lemma OpenRemains(outer: seq<Layer>)
    requires WfOuter(outer) && outer != []
    ensures OpsOuter(outer) != [] && Top(OpsOuter(outer)).op.LPar?
  {
  }

  /** Whatever is accepted is an expression. */
  lemma Sound(toks: seq<Token>) returns (e: Expr)
    requires toks != [] && Translate(toks).Rpn?
    ensures Generates(toks, e)
  {
    var y := Run(Empty, toks);
    var p := RunFollows(toks);
    LastPrev(toks);
    e := p.cur;
    if p.outer != [] {
      OpenRemains(p.outer);
      PopAllRefuses(y.out, y.ops, |OpsOuter(p.outer)| - 1);
    }
    assert [] + FlatExpr(e) == FlatExpr(e);
  }

  /**
   The translation succeeds exactly on the expressions of the language, and then its
   output is the reverse Polish notation of any way to read them.
   */
  lemma Recognises(toks: seq<Token>)
    requires toks != []
    ensures Translate(toks).Rpn? <==> InLanguage(toks)
    ensures forall e :: Generates(toks, e) ==> Translate(toks) == Rpn(RpnExpr(e))
  {
    if Translate(toks).Rpn? {
      var e := Sound(toks);
      assert Generates(toks, e);
    }
    forall e | Generates(toks, e) ensures Translate(toks) == Rpn(RpnExpr(e)) {
      Complete(toks, e);
    }
  }

  // ----- Where it fails -----

  function Closers(n: nat): seq<Token> {
    if n == 0 then [] else [Token(RPar, ")", 0)] + Closers(n - 1)
  }

  lemma Shunt(x: seq<Token>, t: Token, z: seq<Token>)
    ensures x + [t] + z == x + ([t] + z)
  {
  }

  /** A prefix with an operand in place only needs its parentheses closed. */
  lemma {:induction false} CloseAll(p: Parse) returns (e: Expr)
    requires WfParse(p) && p.Having?
    ensures Generates(FlatParse(p) + Closers(|p.outer|), e)
    decreases |p.outer|
  {
    if p.outer == [] {
      e := p.cur;
      assert [] + FlatExpr(e) + [] == FlatExpr(e);
    } else {
      var t := Token(RPar, ")", 0);
      var q := Grow(p, t);
      GrowFlat(p, t);
      e := CloseAll(q);
      Shunt(FlatParse(p), t, Closers(|q.outer|));
    }
  }

  lemma Completable(p: Parse) returns (rest: seq<Token>, e: Expr)
    requires WfParse(p)
    ensures Generates(FlatParse(p) + rest, e)
  {
    if p.Having? {
      e := CloseAll(p);
      rest := Closers(|p.outer|);
    } else {
      var v := Token(Var, "v", 0);
      GrowFlat(p, v);
      e := CloseAll(Grow(p, v));
      rest := [v] + Closers(|p.outer|);
      assert FlatParse(p) + [v] + Closers(|p.outer|) == FlatParse(p) + rest;
    }
  }

  ghost predicate Extends(toks: seq<Token>, rest: seq<Token>) {
    InLanguage(toks + rest)
  }

  /** The tokens read so far are the beginning of some expression. */
  ghost predicate Viable(toks: seq<Token>) {
    exists rest :: Extends(toks, rest)
  }

  lemma {:induction false} FailedStays(y: Yard, toks: seq<Token>)
    requires y.Failed?
    ensures Run(y, toks) == y
    decreases |toks|
  {
    if toks != [] {
      FailedStays(y, toks[..|toks| - 1]);
    }
  }

  /** The machine runs exactly as long as what it has read can still become an expression. */
  lemma RunsWhileViable(toks: seq<Token>)
    ensures Run(Empty, toks).Running? <==> Viable(toks)
  {
    if Run(Empty, toks).Running? {
      var p := RunFollows(toks);
      var rest, e := Completable(p);
      assert Generates(toks + rest, e);
      assert Extends(toks, rest);
    } else {
      forall rest | Extends(toks, rest) ensures false {
        var e :| Generates(toks + rest, e);
        Complete(toks + rest, e);
        RunConcat(Empty, toks, rest);
        FailedStays(Run(Empty, toks), rest);
      }
    }
  }

  /** Every token knows its place in the buffer. */
  ghost predicate Indexed(toks: seq<Token>) {
    forall i :: 0 <= i < |toks| ==> toks[i].at == i
  }

  lemma {:induction false} FailPlace(toks: seq<Token>)
    requires Indexed(toks) && Run(Empty, toks).Failed?
    ensures var y := Run(Empty, toks);
      y.at < |toks| && Run(Empty, toks[..y.at]).Running? && Run(Empty, toks[..y.at + 1]).Failed?
    decreases |toks|
  {
    var n := |toks| - 1;
    if Run(Empty, toks[..n]).Failed? {
      FailPlace(toks[..n]);
      var at := Run(Empty, toks).at;
      assert toks[..n][..at] == toks[..at] && toks[..n][..at + 1] == toks[..at + 1];
    } else {
      assert toks[..n + 1] == toks;
    }
  }

  /**
   The token an error is reported for: the first one after which no expression is
   possible any more, or, when everything read so far is fine, the last token or an
   unclosed parenthesis.
   */
  lemma ErrorPlace(toks: seq<Token>)
    requires toks != [] && Indexed(toks) && Translate(toks).Error?
    ensures var r := Translate(toks);
      && r.at < |toks|
      && if r.why.Unfinished? || r.why.MissingRPar?
         then Viable(toks) && (if r.why.Unfinished? then r.at == |toks| - 1 else toks[r.at].op.LPar?)
         else Viable(toks[..r.at]) && !Viable(toks[..r.at + 1])
  {
    var r := Translate(toks);
    var y := Run(Empty, toks);
    RunsWhileViable(toks);
    if y.Failed? {
      FailPlace(toks);
      FailKind(toks);
      RunsWhileViable(toks[..y.at]);
      RunsWhileViable(toks[..y.at + 1]);
    } else if CheckTwo(After(toks[|toks| - 1].op)) {
      RunKeeps(toks);
      PopAllBlames(y.out, y.ops, toks);
    }
  }

  lemma {:induction false} FailKind(toks: seq<Token>)
    requires Run(Empty, toks).Failed?
    ensures var y := Run(Empty, toks); !y.why.Unfinished? && !y.why.MissingRPar?
    decreases |toks|
  {
    if Run(Empty, toks[..|toks| - 1]).Failed? {
      FailKind(toks[..|toks| - 1]);
    }
  }

  lemma {:induction false} PopNotsKeeps(out: seq<Token>, ops: seq<Token>)
    ensures PopNots(out, ops).1 <= ops
    decreases |ops|
  {
    if TopIs(ops, Not) {
      PopNotsKeeps(out + [Top(ops)], Pop(ops));
    }
  }

  lemma {:induction false} PopToParKeeps(out: seq<Token>, ops: seq<Token>)
    ensures PopToPar(out, ops).Popped? ==> PopToPar(out, ops).ops <= ops
    decreases |ops|
  {
    if ops != [] && !Top(ops).op.LPar? {
      PopToParKeeps(out + [Top(ops)], Pop(ops));
    }
  }

  predicate AllFrom(ops: seq<Token>, toks: seq<Token>) {
    forall i :: 0 <= i < |ops| ==> ops[i] in toks
  }

  lemma StepKeeps(y: Yard, t: Token, toks: seq<Token>)
    requires y.Running? && AllFrom(y.ops, toks) && Step(y, t).Running?
    ensures AllFrom(Step(y, t).ops, toks + [t])
  {
    if t.op.Var? {
      PopNotsKeeps(y.out + [t], y.ops);
    } else if t.op.RPar? {
      PopToParKeeps(y.out, y.ops);
      var r := PopToPar(y.out, y.ops);
      PopNotsKeeps(r.out, r.ops);
    }
  }

  /** The stack only ever holds tokens that were read. */
  lemma {:induction false} RunKeeps(toks: seq<Token>)
    requires Run(Empty, toks).Running?
    ensures AllFrom(Run(Empty, toks).ops, toks)
    decreases |toks|
  {
    if toks != [] {
      var front := toks[..|toks| - 1];
      RunKeeps(front);
      StepKeeps(Run(Empty, front), toks[|toks| - 1], front);
      assert front + [toks[|toks| - 1]] == toks;
    }
  }

  lemma {:induction false} PopAllBlames(out: seq<Token>, ops: seq<Token>, toks: seq<Token>)
    requires AllFrom(ops, toks) && Indexed(toks) && PopAll(out, ops).Error?
    ensures var r := PopAll(out, ops); r.why.MissingRPar? && r.at < |toks| && toks[r.at].op.LPar?
    decreases |ops|
  {
    if !Top(ops).op.LPar? {
      PopAllBlames(out + [Top(ops)], Pop(ops), toks);
    }
  }
}
