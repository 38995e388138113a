/**
 The language of kernel-config constraints and its meaning:

   E ::= T | E op T      T ::= VAR | ! T | ( E )

 where the two operators & and | have the same precedence and associate to the left.
 */
module BoolGrammar {

  datatype Op = Not | And | Or | Var | LPar | RPar

  /** A token; `at` is its index in the token buffer. */
  datatype Token = Token(op: Op, text: string, at: nat)

  datatype Expr = One(term: Term) | Chain(left: Expr, op: Token, right: Term)

  datatype Term = V(tok: Token) | N(tok: Token, inner: Term) | P(open: Token, body: Expr, close: Token)

  /** Every token stands where the grammar allows it. */
  predicate WfExpr(e: Expr) {
    match e
    case One(t) => WfTerm(t)
    case Chain(l, op, t) => WfExpr(l) && (op.op.And? || op.op.Or?) && WfTerm(t)
  }

  predicate WfTerm(t: Term) {
    match t
    case V(tok) => tok.op.Var?
    case N(tok, u) => tok.op.Not? && WfTerm(u)
    case P(open, e, close) => open.op.LPar? && WfExpr(e) && close.op.RPar?
  }

  /** The tokens in the order they are written. */
  function FlatExpr(e: Expr): seq<Token> {
    match e
    case One(t) => FlatTerm(t)
    case Chain(l, op, t) => FlatExpr(l) + [op] + FlatTerm(t)
  }

  function FlatTerm(t: Term): seq<Token> {
    match t
    case V(tok) => [tok]
    case N(tok, u) => [tok] + FlatTerm(u)
    case P(open, e, close) => [open] + FlatExpr(e) + [close]
  }

  /** Reverse Polish notation. */
  function RpnExpr(e: Expr): seq<Token> {
    match e
    case One(t) => RpnTerm(t)
    case Chain(l, op, t) => RpnExpr(l) + RpnTerm(t) + [op]
  }

  function RpnTerm(t: Term): seq<Token> {
    match t
    case V(tok) => [tok]
    case N(tok, u) => RpnTerm(u) + [tok]
    case P(_, e, _) => RpnExpr(e)
  }

  predicate Generates(toks: seq<Token>, e: Expr) {
    WfExpr(e) && FlatExpr(e) == toks
  }

  /** The token string is an expression of the language. */
  ghost predicate InLanguage(toks: seq<Token>) {
    exists e :: Generates(toks, e)
  }

  // ----- Meaning, with C truth values -----

  function Truth(b: bool): int {
    if b then 1 else 0
  }

  function Apply(op: Op, x: int, y: int): int {
    if op.And? then Truth(x != 0 && y != 0) else Truth(x != 0 || y != 0)
  }

  function ValueExpr(e: Expr, env: Token -> int): int {
    match e
    case One(t) => ValueTerm(t, env)
    case Chain(l, op, t) => Apply(op.op, ValueExpr(l, env), ValueTerm(t, env))
  }

  function ValueTerm(t: Term, env: Token -> int): int {
    match t
    case V(tok) => env(tok)
    case N(_, u) => Truth(ValueTerm(u, env) == 0)
    case P(_, e, _) => ValueExpr(e, env)
  }

  // ----- Sizes -----

  function Max(x: int, y: int): int {
    if x < y then y else x
  }

  /** How deep parentheses nest. */
  function NestExpr(e: Expr): nat {
    match e
    case One(t) => NestTerm(t)
    case Chain(l, _, t) => Max(NestExpr(l), NestTerm(t))
  }

  function NestTerm(t: Term): nat {
    match t
    case V(_) => 0
    case N(_, u) => NestTerm(u)
    case P(_, e, _) => 1 + NestExpr(e)
  }

  /** How many values a stack machine holds at once while evaluating. */
  function NeedExpr(e: Expr): (n: nat)
    ensures n >= 1
  {
    match e
    case One(t) => NeedTerm(t)
    case Chain(l, _, t) => Max(NeedExpr(l), 1 + NeedTerm(t))
  }

  function NeedTerm(t: Term): (n: nat)
    ensures n >= 1
  {
    match t
    case V(_) => 1
    case N(_, u) => NeedTerm(u)
    case P(_, e, _) => NeedExpr(e)
  }

  /** Two more than the nesting is always enough. */
  lemma {:induction false} NeedWithinNest(e: Expr)
    ensures NeedExpr(e) <= NestExpr(e) + 2
  {
    match e
    case One(t) => NeedWithinNestTerm(t);
    case Chain(l, _, t) => NeedWithinNest(l); NeedWithinNestTerm(t);
  }

  lemma {:induction false} NeedWithinNestTerm(t: Term)
    ensures NeedTerm(t) <= NestTerm(t) + 1
  {
    match t
    case V(_) =>
    case N(_, u) => NeedWithinNestTerm(u);
    case P(_, e, _) => NeedWithinNest(e);
  }

  /** v & ( v & ( ... v & v ) ): the bound is reached for every depth. */
  function Nested(depth: nat): Expr {
    var v, and := Token(Var, "v", 0), Token(And, "&", 0);
    Chain(One(V(v)), and, if depth == 0 then V(v) else P(Token(LPar, "(", 0), Nested(depth - 1), Token(RPar, ")", 0)))
  }

  lemma {:induction false} NeedReached(depth: nat)
    ensures WfExpr(Nested(depth))
    ensures NestExpr(Nested(depth)) == depth && NeedExpr(Nested(depth)) == depth + 2
  {
    if depth > 0 {
      NeedReached(depth - 1);
    }
  }

  // ----- The tokens of an expression -----

  function Occurrences(t: Token, toks: seq<Token>): nat {
    multiset(toks)[t]
  }

  predicate IsPar(t: Token) {
    t.op.LPar? || t.op.RPar?
  }

  lemma Enclosed(t: Token, open: Token, toks: seq<Token>, close: Token)
    requires open.op.LPar? && close.op.RPar? && !IsPar(t)
    ensures Occurrences(t, [open] + toks + [close]) == Occurrences(t, toks)
  {
  }

  /** The RPN is a permutation of the tokens other than parentheses. */
  lemma {:induction false} RpnPermutes(e: Expr, t: Token)
    requires WfExpr(e)
    ensures Occurrences(t, RpnExpr(e)) == if IsPar(t) then 0 else Occurrences(t, FlatExpr(e))
  {
    match e
    case One(u) => RpnPermutesTerm(u, t);
    case Chain(l, op, u) =>
      RpnPermutes(l, t);
      RpnPermutesTerm(u, t);
  }

  lemma {:induction false} RpnPermutesTerm(u: Term, t: Token)
    requires WfTerm(u)
    ensures Occurrences(t, RpnTerm(u)) == if IsPar(t) then 0 else Occurrences(t, FlatTerm(u))
  {
    match u
    case V(_) =>
    case N(_, v) => RpnPermutesTerm(v, t);
    case P(open, e, close) =>
      RpnPermutes(e, t);
      if !IsPar(t) {
        Enclosed(t, open, FlatExpr(e), close);
      }
  }
}
