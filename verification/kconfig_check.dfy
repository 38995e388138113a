/**
 tst_kconfig_check from end to end: constraints are parsed, their variables validated and
 collected, the config is read, and every constraint is evaluated.
 */
module KconfigCheck {
  import opened BoolGrammar
  import opened BoolYard
  import opened BoolMachine
  import opened BoolTokens
  import opened BoolParse
  import opened KconfigLines
  import opened KconfigVars
  import BoolSound
  import KconfigRead

  // ----- validate_var -----

  predicate IsAlnum(c: char) {
    'A' <= c <= 'Z' || 'a' <= c <= 'z' || '0' <= c <= '9'
  }

  /** A quoted string, or one character followed by letters and digits. */
  predicate ValidValue(v: string) {
    && v != ""
    && if v[0] == '"' then |v| >= 2 && v[|v| - 1] == '"' && forall i :: 0 < i < |v| - 1 ==> v[i] != '"'
       else forall i :: 1 <= i < |v| ==> IsAlnum(v[i])
  }

  predicate ValidVar(text: string) {
    && CONFIG <= text && (forall i :: |CONFIG| <= i < IdLen(text) ==> IsNameChar(text[i]))
    && (HasValue(text) ==> ValidValue(ValueOf(text)))
  }

  lemma {:induction false} IdLenPast(text: string, n: nat)
    requires n <= |text| && forall i :: 0 <= i < n ==> text[i] != '='
    ensures IdLen(text) >= n
  {
    if n > 0 {
      IdLenPast(text[1..], n - 1);
    }
  }

  method ValidateValue(v: string) returns (ok: bool)
    ensures ok <==> ValidValue(v)
  {
    if v == "" {
      return false;
    }
    var i := 1;
    if v[0] == '"' {
      while i < |v| && v[i] != '"'
        invariant 1 <= i <= |v| && forall k :: 0 < k < i ==> v[k] != '"'
      {
        i := i + 1;
      }
      return i == |v| - 1;
    }
    while i < |v| && IsAlnum(v[i])
      invariant 1 <= i <= |v| && forall k :: 1 <= k < i ==> IsAlnum(v[k])
    {
      i := i + 1;
    }
    ok := i == |v|;
  }

  /** validate_var */
  method ValidateVar(text: string) returns (ok: bool)
    ensures ok <==> ValidVar(text)
  {
    var i := |CONFIG|;
    if !(CONFIG <= text) {
      return false;
    }
    assert forall k :: 0 <= k < i ==> text[k] == CONFIG[k] != '=';
    while i < |text| && text[i] != '='
      invariant |CONFIG| <= i <= |text|
      invariant forall k :: 0 <= k < i ==> text[k] != '='
      invariant forall k :: |CONFIG| <= k < i ==> IsNameChar(text[k])
    {
      if !IsNameChar(text[i]) {
        IdLenPast(text, i + 1);
        return false;
      }
      i := i + 1;
    }
    IdLenIs(text, i);
    if i == |text| {
      return true;
    }
    ok := ValidateValue(text[i + 1..]);
  }

  // ----- The constraints -----

  ghost predicate Parses(text: string) {
    InLanguage(Tokens(text))
  }

  /** The reverse Polish notation of a constraint. */
  ghost predicate IsRpn(text: string, rpn: seq<Token>) {
    Tokens(text) != [] && Translate(Tokens(text)) == Rpn(rpn)
  }

  ghost predicate ValidVars(rpn: seq<Token>) {
    forall k :: 0 <= k < |rpn| && rpn[k].op.Var? ==> ValidVar(rpn[k].text)
  }

  ghost predicate AllRpn(texts: seq<string>, rpns: seq<seq<Token>>) {
    |rpns| == |texts| && forall i :: 0 <= i < |texts| ==> IsRpn(texts[i], rpns[i])
  }

  ghost predicate AllList(cs: seq<Compiled>, rpns: seq<seq<Token>>) {
    |cs| == |rpns| && forall i :: 0 <= i < |cs| ==> Lists(cs[i], rpns[i])
  }

  ghost predicate AllCompiled(cs: seq<Compiled>, texts: seq<string>) {
    |cs| == |texts| && forall i :: 0 <= i < |cs| ==> Compiles(cs[i], texts[i])
  }

  method ParseOne(text: string) returns (ok: bool, c: Compiled, ghost rpn: seq<Token>)
    ensures ok <==> Parses(text)
    ensures ok ==> Compiles(c, text) && Lists(c, rpn) && IsRpn(text, rpn)
  {
    ok, c := Parse(text);
    rpn := [];
    if ok {
      rpn := Translate(c.buf).out;
      OutputDistinct(c.buf, rpn);
    }
  }

  method ParseAll(texts: seq<string>) returns (ok: bool, cs: seq<Compiled>, ghost rpns: seq<seq<Token>>)
    ensures ok <==> forall i :: 0 <= i < |texts| ==> Parses(texts[i])
    ensures ok ==> AllCompiled(cs, texts) && AllList(cs, rpns) && AllRpn(texts, rpns)
  {
    cs, rpns := [], [];
    for i := 0 to |texts|
      invariant |cs| == i == |rpns| && (forall k :: 0 <= k < i ==> Parses(texts[k]))
      invariant forall k :: 0 <= k < i ==> Compiles(cs[k], texts[k])
      invariant forall k :: 0 <= k < i ==> Lists(cs[k], rpns[k])
      invariant forall k :: 0 <= k < i ==> IsRpn(texts[k], rpns[k])
    {
      ghost var rpn;
      var c;
      ok, c, rpn := ParseOne(texts[i]);
      if !ok {
        return;
      }
      cs, rpns := cs + [c], rpns + [rpn];
    }
    ok := true;
  }

  method ValidateOne(c: Compiled, ghost rpn: seq<Token>) returns (ok: bool)
    requires Lists(c, rpn)
    ensures ok <==> ValidVars(rpn)
  {
    ok := true;
    var j := c.head;
    ghost var k := 0;
    assert rpn[0..] == rpn;
    while j != -1
      invariant 0 <= k <= |rpn| && Linked(c.next, j, rpn[k..])
      invariant ok <==> ValidVars(rpn[..k])
      decreases |rpn| - k
    {
      NextToken(rpn, k);
      assert rpn[..k + 1] == rpn[..k] + [rpn[k]];
      if c.buf[j].op.Var? {
        var fine := ValidateVar(c.buf[j].text);
        ok := ok && fine;
      }
      j := c.next[j];
      k := k + 1;
    }
    assert rpn[..k] == rpn;
  }

  /** validate_vars */
  method ValidateAll(cs: seq<Compiled>, ghost rpns: seq<seq<Token>>) returns (ok: bool)
    requires AllList(cs, rpns)
    ensures ok <==> forall i :: 0 <= i < |rpns| ==> ValidVars(rpns[i])
  {
    ok := true;
    for i := 0 to |cs|
      invariant ok <==> forall k :: 0 <= k < i ==> ValidVars(rpns[k])
    {
      var fine := ValidateOne(cs[i], rpns[i]);
      ok := ok && fine;
    }
  }

  ghost function TotalVars(rpns: seq<seq<Token>>): nat {
    if rpns == [] then 0 else TotalVars(rpns[..|rpns| - 1]) + VarCount(rpns[|rpns| - 1])
  }

  lemma TotalNext(rpns: seq<seq<Token>>, i: nat)
    requires i < |rpns|
    ensures TotalVars(rpns[..i + 1]) == TotalVars(rpns[..i]) + VarCount(rpns[i])
  {
    assert rpns[..i + 1][..i] == rpns[..i];
  }

  lemma {:induction false} TotalPrefix(rpns: seq<seq<Token>>, i: nat)
    requires i <= |rpns|
    ensures TotalVars(rpns[..i]) <= TotalVars(rpns)
    decreases |rpns| - i
  {
    if i < |rpns| {
      TotalPrefix(rpns, i + 1);
      TotalNext(rpns, i);
    } else {
      assert rpns[..i] == rpns;
    }
  }

  /** get_var_cnt */
  method CountAll(cs: seq<Compiled>, ghost rpns: seq<seq<Token>>) returns (cnt: nat)
    requires AllList(cs, rpns)
    ensures cnt == TotalVars(rpns)
  {
    cnt := 0;
    for i := 0 to |cs|
      invariant cnt == TotalVars(rpns[..i])
    {
      TotalNext(rpns, i);
      var n := CountVars(cs[i], rpns[i]);
      cnt := cnt + n;
    }
    assert rpns[..|cs|] == rpns;
  }

  // ----- Collecting the variables of all constraints -----

  ghost function AllIds(rpns: seq<seq<Token>>): set<string> {
    if rpns == [] then {} else AllIds(rpns[..|rpns| - 1]) + Ids(rpns[|rpns| - 1])
  }

  ghost predicate AllLinked(privs: seq<seq<int>>, rpns: seq<seq<Token>>, vars: seq<KVar>) {
    |privs| <= |rpns| && forall i :: 0 <= i < |privs| ==> LinkedTo(privs[i], rpns[i], vars)
  }

  lemma LinkedGrows(privs: seq<seq<int>>, rpns: seq<seq<Token>>, vars: seq<KVar>, vars': seq<KVar>)
    requires AllLinked(privs, rpns, vars) && vars <= vars'
    ensures AllLinked(privs, rpns, vars')
  {
  }

  /** What is done after the first `i` constraints. */
  ghost predicate Collected(privs: seq<seq<int>>, rpns: seq<seq<Token>>, i: nat, vars: seq<KVar>) {
    && i <= |rpns| && |privs| == i && (forall k :: 0 <= k < i ==> ShortIds(rpns[k]))
    && Populated(vars, AllIds(rpns[..i])) && AllLinked(privs, rpns, vars)
  }

  lemma CollectFirst(rpns: seq<seq<Token>>)
    ensures Collected([], rpns, 0, []) && TotalVars(rpns[..0]) == 0
  {
  }

  lemma CollectNext(privs: seq<seq<int>>, rpns: seq<seq<Token>>, i: nat, vars: seq<KVar>, priv: seq<int>, vars': seq<KVar>)
    requires i < |rpns| && Collected(privs, rpns, i, vars) && vars <= vars' && ShortIds(rpns[i])
    requires Populated(vars', AllIds(rpns[..i]) + Ids(rpns[i])) && LinkedTo(priv, rpns[i], vars')
    ensures Collected(privs + [priv], rpns, i + 1, vars')
  {
    assert rpns[..i + 1][..i] == rpns[..i];
    LinkedGrows(privs, rpns, vars, vars');
  }

  lemma CollectEnd(privs: seq<seq<int>>, rpns: seq<seq<Token>>, vars: seq<KVar>)
    requires Collected(privs, rpns, |rpns|, vars)
    ensures (forall k :: 0 <= k < |rpns| ==> ShortIds(rpns[k]))
    ensures Populated(vars, AllIds(rpns)) && AllLinked(privs, rpns, vars)
  {
    assert rpns[..|rpns|] == rpns;
  }

  /** populate_vars: distinct names, and every variable token linked to its own. */
  method PopulateAll(cs: seq<Compiled>, ghost rpns: seq<seq<Token>>, vars: array<KVar>)
    returns (ok: bool, cnt: nat, privs: seq<seq<int>>)
    requires AllList(cs, rpns) && TotalVars(rpns) <= vars.Length
    modifies vars
    ensures ok <==> forall i :: 0 <= i < |rpns| ==> ShortIds(rpns[i])
    ensures cnt <= vars.Length
    ensures ok ==> |privs| == |rpns| && Populated(vars[..cnt], AllIds(rpns)) && AllLinked(privs, rpns, vars[..cnt])
  {
    ok, cnt, privs := true, 0, [];
    assert vars[..0] == [];
    CollectFirst(rpns);
    for i := 0 to |cs|
      invariant |privs| == i && cnt <= TotalVars(rpns[..i]) <= TotalVars(rpns)
      invariant Collected(privs, rpns, i, vars[..cnt])
    {
      TotalNext(rpns, i);
      TotalPrefix(rpns, i + 1);
      ghost var was := vars[..cnt];
      var priv;
      ok, cnt, priv := Populate(cs[i], rpns[i], vars, cnt, AllIds(rpns[..i]));
      if !ok {
        return;
      }
      CollectNext(privs, rpns, i, was, priv, vars[..cnt]);
      privs := privs + [priv];
    }
    CollectEnd(privs, rpns, vars[..cnt]);
  }

  // ----- Evaluating the constraints -----

  /** What a variable token is worth under a config. */
  function Env(lines: seq<string>): Token -> int {
    (t: Token) => Map(t.text, KconfigRead.Lookup(Unset, lines, IdOf(t.text)))
  }

  /** What map makes of a variable token through its link. */
  function LinkEnv(vars: seq<KVar>, priv: seq<int>): Token -> int {
    (t: Token) =>
      if t.at < |priv| && 0 <= priv[t.at] < |vars| then Map(t.text, vars[priv[t.at]].setting) else 0
  }

  /** The constraint is true under the config, within the evaluator's stack. */
  ghost predicate Satisfied(text: string, lines: seq<string>) {
    exists e :: Generates(Tokens(text), e) && NeedExpr(e) <= MAX_STACK && ValueExpr(e, Env(lines)) == 1
  }

  ghost predicate Agree(toks: seq<Token>, f: Token -> int, g: Token -> int) {
    forall k :: 0 <= k < |toks| && toks[k].op.Var? ==> f(toks[k]) == g(toks[k])
  }

  lemma AgreeParts(a: seq<Token>, b: seq<Token>, f: Token -> int, g: Token -> int)
    requires Agree(a + b, f, g)
    ensures Agree(a, f, g) && Agree(b, f, g)
  {
    forall k | 0 <= k < |a| && a[k].op.Var? ensures f(a[k]) == g(a[k]) {
      assert (a + b)[k] == a[k];
    }
    forall k | 0 <= k < |b| && b[k].op.Var? ensures f(b[k]) == g(b[k]) {
      assert (a + b)[|a| + k] == b[k];
    }
  }

  /** The value depends on the variable tokens only. */
  lemma {:induction false} ValueAgrees(e: Expr, f: Token -> int, g: Token -> int)
    requires WfExpr(e) && Agree(RpnExpr(e), f, g)
    ensures ValueExpr(e, f) == ValueExpr(e, g)
  {
    match e
    case One(t) => ValueAgreesTerm(t, f, g);
    case Chain(l, op, t) =>
      AgreeParts(RpnExpr(l) + RpnTerm(t), [op], f, g);
      AgreeParts(RpnExpr(l), RpnTerm(t), f, g);
      ValueAgrees(l, f, g);
      ValueAgreesTerm(t, f, g);
  }

  lemma {:induction false} ValueAgreesTerm(t: Term, f: Token -> int, g: Token -> int)
    requires WfTerm(t) && Agree(RpnTerm(t), f, g)
    ensures ValueTerm(t, f) == ValueTerm(t, g)
  {
    match t
    case V(tok) => assert RpnTerm(t)[0] == tok;
    case N(tok, u) =>
      AgreeParts(RpnTerm(u), [tok], f, g);
      ValueAgreesTerm(u, f, g);
    case P(_, e, _) => ValueAgrees(e, f, g);
  }

  /** map never reports an undefined variable. */
  lemma {:induction false} AlwaysDefined(e: Expr, env: Token -> int)
    requires forall t :: env(t) != -1
    ensures DefinedExpr(e, env)
  {
    match e
    case One(t) => AlwaysDefinedTerm(t, env);
    case Chain(l, _, t) =>
      AlwaysDefined(l, env);
      AlwaysDefinedTerm(t, env);
  }

  lemma {:induction false} AlwaysDefinedTerm(t: Term, env: Token -> int)
    requires forall t :: env(t) != -1
    ensures DefinedTerm(t, env)
  {
    match t
    case V(_) =>
    case N(_, u) => AlwaysDefinedTerm(u, env);
    case P(_, e, _) => AlwaysDefined(e, env);
  }

  /** Every variable holds what the config says. */
  ghost predicate Settled(vars: seq<KVar>, lines: seq<string>) {
    forall k :: 0 <= k < |vars| ==> vars[k].setting == KconfigRead.Lookup(Unset, lines, vars[k].id)
  }

  lemma EnvsAgree(rpn: seq<Token>, priv: seq<int>, vars: seq<KVar>, lines: seq<string>)
    requires LinkedTo(priv, rpn, vars) && Settled(vars, lines)
    ensures Agree(rpn, LinkEnv(vars, priv), Env(lines))
  {
  }

  /** What the evaluator returns for a constraint, in terms of the config. */
  lemma EvalMeans(text: string, rpn: seq<Token>, env: Token -> int, lines: seq<string>, e: Expr)
    requires IsRpn(text, rpn) && Agree(rpn, env, Env(lines)) && Generates(Tokens(text), e)
    requires forall t :: env(t) != -1
    ensures DefinedExpr(e, env) && ValueExpr(e, env) == ValueExpr(e, Env(lines))
  {
    Complete(Tokens(text), e);
    ValueAgrees(e, env, Env(lines));
    AlwaysDefined(e, env);
  }

  method EvalOne(c: Compiled, ghost text: string, ghost rpn: seq<Token>, priv: seq<int>, vars: seq<KVar>,
                 ghost lines: seq<string>) returns (r: int)
    requires Compiles(c, text) && IsRpn(text, rpn) && LinkedTo(priv, rpn, vars) && Settled(vars, lines)
    ensures r == 1 <==> Satisfied(text, lines)
  {
    var env := LinkEnv(vars, priv);
    r := Evaluate(c, env, text);
    EnvsAgree(rpn, priv, vars, lines);
    ghost var e := BoolSound.Sound(Tokens(text));
    EvalMeans(text, rpn, env, lines, e);
    forall d | Generates(Tokens(text), d) ensures DefinedExpr(d, env) && ValueExpr(d, env) == ValueExpr(d, Env(lines)) {
      EvalMeans(text, rpn, env, lines, d);
    }
  }

  method EvalAll(cs: seq<Compiled>, ghost texts: seq<string>, ghost rpns: seq<seq<Token>>, privs: seq<seq<int>>,
                 vars: seq<KVar>, ghost lines: seq<string>) returns (ok: bool)
    requires AllCompiled(cs, texts) && AllRpn(texts, rpns) && |privs| == |rpns| && AllLinked(privs, rpns, vars)
    requires Settled(vars, lines)
    ensures ok <==> forall i :: 0 <= i < |texts| ==> Satisfied(texts[i], lines)
  {
    ok := true;
    for i := 0 to |cs|
      invariant ok <==> forall k :: 0 <= k < i ==> Satisfied(texts[k], lines)
    {
      var val := EvalOne(cs[i], texts[i], rpns[i], privs[i], vars, lines);
      if val != 1 {
        ok := false;
      }
    }
  }

  // ----- tst_kconfig_check -----

  datatype Result = Broken | Passed | NotPassed

  /** A constraint the check accepts: an expression over valid, short variable names. */
  ghost predicate Acceptable(text: string) {
    Parses(text) && forall rpn :: IsRpn(text, rpn) ==> ValidVars(rpn) && ShortIds(rpn)
  }

  lemma AllAcceptable(texts: seq<string>, rpns: seq<seq<Token>>)
    requires AllRpn(texts, rpns) && forall i :: 0 <= i < |texts| ==> Parses(texts[i])
    ensures (forall i :: 0 <= i < |texts| ==> Acceptable(texts[i])) <==>
      (forall i :: 0 <= i < |rpns| ==> ValidVars(rpns[i])) && (forall i :: 0 <= i < |rpns| ==> ShortIds(rpns[i]))
  {
  }

  /** No option is on two lines. */
  ghost predicate AtMostOnce(lines: seq<string>) {
    forall i, j, id :: 0 <= i < j < |lines| ==> !(KconfigRead.Defines(lines[i], id) && KconfigRead.Defines(lines[j], id))
  }

  /** What the variables say after reading: the lines read, or all of them if none repeats. */
  lemma ReadSettles(vars: seq<KVar>, seen: set<string>, lines: seq<string>, after: seq<KVar>) returns (read: seq<string>)
    requires Populated(vars, seen) && after == KconfigRead.ReadAll(vars, lines[..KconfigRead.Stop(vars, lines, 0)])
    ensures Settled(after, read) && read <= lines && (AtMostOnce(lines) ==> read == lines)
    ensures |after| == |vars| && forall k :: 0 <= k < |vars| ==> after[k].id == vars[k].id
  {
    read := lines[..KconfigRead.Stop(vars, lines, 0)];
    if AtMostOnce(lines) {
      assert KconfigRead.OncePerOption(lines, KconfigRead.Names(vars));
      KconfigRead.EarlyStop(vars, lines);
      read := lines;
    }
    forall k | 0 <= k < |vars|
      ensures after[k] == KVar(vars[k].id, KconfigRead.Lookup(Unset, read, vars[k].id))
    {
      KconfigRead.ReadAllLooksUp(vars, read, k);
    }
  }

  /** A variable token of the constraint names the option. */
  ghost predicate Mentions(text: string, id: string) {
    exists k :: 0 <= k < |Tokens(text)| && Tokens(text)[k].op.Var? && IdOf(Tokens(text)[k].text) == id
  }

  /** A value the config gives to an option some constraint mentions runs into the end of the line buffer. */
  ghost predicate Spills(texts: seq<string>, line: string) {
    Meaning(line).Overrun? && exists i :: 0 <= i < |texts| && Mentions(texts[i], Meaning(line).id)
  }

  lemma {:induction false} IdsMentioned(text: string, rpn: seq<Token>, id: string)
    requires Distinct(rpn, Tokens(text)) && id in Ids(rpn)
    ensures Mentions(text, id)
  {
    var last := rpn[|rpn| - 1];
    if last.op.Var? && IdOf(last.text) == id {
      assert Tokens(text)[last.at] == last;
    } else {
      IdsMentioned(text, rpn[..|rpn| - 1], id);
    }
  }

  lemma {:induction false} AllIdsMentioned(texts: seq<string>, cs: seq<Compiled>, rpns: seq<seq<Token>>, id: string)
    returns (i: nat)
    requires AllCompiled(cs, texts) && AllList(cs, rpns) && id in AllIds(rpns)
    ensures i < |texts| && Mentions(texts[i], id)
    decreases |rpns|
  {
    i := |rpns| - 1;
    if id in Ids(rpns[i]) {
      IdsMentioned(texts[i], rpns[i], id);
    } else {
      i := AllIdsMentioned(texts[..i], cs[..i], rpns[..i], id);
    }
  }

  lemma NothingOverruns(texts: seq<string>, cs: seq<Compiled>, rpns: seq<seq<Token>>, vars: seq<KVar>, lines: seq<string>)
    requires AllCompiled(cs, texts) && AllList(cs, rpns) && Populated(vars, AllIds(rpns))
    requires forall i :: 0 <= i < |lines| ==> !Spills(texts, lines[i])
    ensures KconfigRead.NoOverrun(vars, lines)
  {
    forall i | 0 <= i < |lines| && Meaning(lines[i]).Overrun? ensures !Overruns(vars, lines[i]) {
      var id := Meaning(lines[i]).id;
      KconfigRead.NamesIn(vars, id);
      if id in AllIds(rpns) {
        var j := AllIdsMentioned(texts, cs, rpns, id);
      }
    }
  }

  lemma LinkedById(privs: seq<seq<int>>, rpns: seq<seq<Token>>, vars: seq<KVar>, after: seq<KVar>)
    requires AllLinked(privs, rpns, vars) && |after| == |vars|
    requires forall k :: 0 <= k < |vars| ==> after[k].id == vars[k].id
    ensures AllLinked(privs, rpns, after)
  {
  }

  /**
   tst_kconfig_check: it breaks exactly on a constraint it does not accept; otherwise it
   passes if and only if every constraint is true under the lines read.  When no option
   is on two lines, those stand for the whole config.
   */
  method Check(texts: seq<string>, lines: seq<string>) returns (r: Result, ghost read: seq<string>)
    requires texts != [] && forall i :: 0 <= i < |lines| ==> !Spills(texts, lines[i])
    ensures r.Broken? <==> !(forall i :: 0 <= i < |texts| ==> Acceptable(texts[i]))
    ensures read <= lines && (AtMostOnce(lines) ==> read == lines)
    ensures !r.Broken? ==> (r.Passed? <==> forall i :: 0 <= i < |texts| ==> Satisfied(texts[i], read))
  {
    read := lines;
    var parsed, cs, rpns := ParseAll(texts);
    if !parsed {
      return Broken, lines;
    }
    AllAcceptable(texts, rpns);
    var valid := ValidateAll(cs, rpns);
    if !valid {
      return Broken, lines;
    }
    var total := CountAll(cs, rpns);
    var vars := new KVar[total](_ => KVar("", Unset));
    var ok, cnt, privs := PopulateAll(cs, rpns, vars);
    if !ok {
      return Broken, lines;
    }
    ghost var before := vars[..cnt];
    NothingOverruns(texts, cs, rpns, before, lines);
    KconfigRead.Read(lines, vars, cnt);
    read := ReadSettles(before, AllIds(rpns), lines, vars[..cnt]);
    LinkedById(privs, rpns, before, vars[..cnt]);
    var passed := EvalAll(cs, texts, rpns, privs, vars[..cnt], read);
    r := if passed then Passed else NotPassed;
  }
}
