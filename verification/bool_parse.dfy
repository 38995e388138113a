/**
 tst_bool_expr_parse and tst_bool_expr_eval as a client sees them: from the text of an
 expression to its value.
 */
module BoolParse {
  import opened BoolGrammar
  import opened BoolYard
  import opened BoolSound
  import opened BoolMachine
  import opened BoolTokens

  /** A compiled expression: its tokens and the links between them. */
  datatype Compiled = Compiled(buf: seq<Token>, next: seq<int>, head: int)

  /** The links of a compiled expression spell the reverse Polish notation of its text. */
  ghost predicate Compiles(c: Compiled, expr: string) {
    && c.buf == Tokens(expr) && c.buf != [] && |c.next| == |c.buf|
    && Translate(c.buf).Rpn? && Linked(c.next, c.head, Translate(c.buf).out)
  }

  /** tst_bool_expr_parse: compiles exactly the expressions of the language. */
  method Parse(expr: string) returns (ok: bool, c: Compiled)
    ensures ok <==> InLanguage(Tokens(expr))
    ensures ok ==> Compiles(c, expr)
  {
    c := Compiled([], [], -1);
    var none := new Token[0];
    var cnt := Tokenize(expr, none, false);
    if cnt == 0 {
      if InLanguage(Tokens(expr)) {
        ghost var e :| Generates(Tokens(expr), e);
        Complete(Tokens(expr), e);
      }
      return false, c;
    }
    var buf := new Token[cnt];
    cnt := Tokenize(expr, buf, true);
    assert buf[..cnt] == buf[..];
    var next := new int[cnt];
    var r, head := ShuntingYard(buf[..], next);
    Recognises(buf[..]);
    ok := r.Rpn?;
    if ok {
      c := Compiled(buf[..], next[..], head);
    }
  }

  /**
   tst_bool_expr_eval: the value of the expression as it was written, or -1 if a variable
   is undefined or more than 16 values have to be held at once.
   */
  method Evaluate(c: Compiled, env: Token -> int, ghost expr: string) returns (r: int)
    requires Compiles(c, expr)
    ensures forall e :: Generates(Tokens(expr), e) ==>
      r == if DefinedExpr(e, env) && NeedExpr(e) <= MAX_STACK then ValueExpr(e, env) else -1
  {
    ghost var rpn := Translate(c.buf).out;
    OutputDistinct(c.buf, rpn);
    Recognises(c.buf);
    ghost var e := Sound(c.buf);
    EvalMeaning(e, env);
    r := Eval(c.buf, c.next, c.head, env, rpn);
    forall d | Generates(Tokens(expr), d)
      ensures r == if DefinedExpr(d, env) && NeedExpr(d) <= MAX_STACK then ValueExpr(d, env) else -1
    {
      EvalMeaning(d, env);
    }
  }
}
