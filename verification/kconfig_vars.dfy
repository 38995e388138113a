/**
 The variables of a set of constraints: populate_vars, which collects them from the
 compiled expressions, and map, which says whether one is satisfied.
 */
module KconfigVars {
  import opened BoolGrammar
  import opened BoolMachine
  import opened BoolParse
  import opened KconfigLines
  import KconfigRead

  /** The room for a name, its terminator included. */
  const ID_SIZE := 64

  /** get_len: the name ends before the first '='. */
  function IdLen(text: string): (n: nat)
    ensures n <= |text|
  {
    if text == "" || text[0] == '=' then 0 else 1 + IdLen(text[1..])
  }

  function IdOf(text: string): string {
    text[..IdLen(text)]
  }

  /** Whether the constraint gives a value. */
  predicate HasValue(text: string) {
    IdLen(text) < |text|
  }

  function ValueOf(text: string): string
    requires HasValue(text)
  {
    text[IdLen(text) + 1..]
  }

  /** map; an empty value compares like m. */
  function Map(text: string, setting: Setting): int {
    if setting.Unset? then 0
    else if !HasValue(text) then Truth(setting.Yes? || setting.Module?)
    else
      var val := ValueOf(text);
      if val == "" || val == "m" then Truth(setting.Module?)
      else if val == "y" then Truth(setting.Yes?)
      else if val == "n" then Truth(setting.No?)
      else Truth(setting == Value(val))
  }

  /** How a config spells a setting. */
  function Spelled(setting: Setting): string {
    match setting
    case Unset => ""
    case Yes => "y"
    case Module => "m"
    case No => "n"
    case Value(text) => text
  }

  /** A value is never empty, y or m. */
  predicate Proper(setting: Setting) {
    setting.Value? ==> setting.text != "" && setting.text != "y" && setting.text != "m"
  }

  lemma {:induction false} SkipStops(s: string)
    ensures Skip(s) == "" || !IsSpace(Skip(s)[0])
  {
    if s != "" && IsSpace(s[0]) {
      SkipStops(s[1..]);
    }
  }

  lemma MeaningProper(line: string)
    ensures Meaning(line).Def? ==> Proper(Meaning(line).setting)
  {
    var v := StrStr(Skip(line), CONFIG);
    var eq := Skip(v[NameLen(v)..]);
    if eq != "" {
      SkipStops(eq[1..]);
    }
  }

  lemma {:induction false} LookupProper(lines: seq<string>, id: string)
    ensures Proper(KconfigRead.Lookup(Unset, lines, id))
  {
    if lines != [] {
      MeaningProper(lines[|lines| - 1]);
      LookupProper(lines[..|lines| - 1], id);
    }
  }

  /**
   Under any config a bare name asks for y or m, and a name with a value asks for an option
   spelled that way, except that an explicit n in the config is never what "=n" asks for.
   */
  lemma {:induction false} MapMeans(text: string, lines: seq<string>)
    requires HasValue(text) ==> ValueOf(text) != ""
    ensures var setting := KconfigRead.Lookup(Unset, lines, IdOf(text));
      && (Map(text, setting) == 0 || Map(text, setting) == 1)
      && (!HasValue(text) ==> (Map(text, setting) == 1 <==> setting.Yes? || setting.Module?))
      && (HasValue(text) ==>
            (Map(text, setting) == 1 <==> Spelled(setting) == ValueOf(text) && setting != Value("n")))
  {
    LookupProper(lines, IdOf(text));
  }

  lemma {:induction false} IdLenIs(text: string, n: nat)
    requires n <= |text| && (forall i :: 0 <= i < n ==> text[i] != '=') && (n < |text| ==> text[n] == '=')
    ensures IdLen(text) == n
  {
    if n > 0 {
      IdLenIs(text[1..], n - 1);
    }
  }

  /** Such a config: the option is spelled n, and a constraint that asks for n is not met. */
  lemma ExplicitNo(id: string)
    requires IsName(id)
    ensures KconfigRead.Lookup(Unset, [Assignment(id, "n")], id) == Value("n")
    ensures IdOf(id + "=n") == id && HasValue(id + "=n") && Spelled(Value("n")) == ValueOf(id + "=n")
    ensures Map(id + "=n", Value("n")) == 0
  {
    AssignmentMeans(id, "n");
    assert forall i :: 0 <= i < |id| ==> IsNameChar(id[i]) && id[i] != '=';
    IdLenIs(id + "=n", |id|);
  }

  // ----- Collecting the variables -----

  function VarCount(toks: seq<Token>): nat {
    if toks == [] then 0 else VarCount(toks[..|toks| - 1]) + if toks[|toks| - 1].op.Var? then 1 else 0
  }

  /** The tokens of a compiled expression in the order of its list. */
  ghost predicate Lists(c: Compiled, rpn: seq<Token>) {
    |c.next| == |c.buf| && Linked(c.next, c.head, rpn) && Distinct(rpn, c.buf)
  }

  method CountVars(c: Compiled, ghost rpn: seq<Token>) returns (cnt: nat)
    requires Lists(c, rpn)
    ensures cnt == VarCount(rpn)
  {
    cnt := 0;
    var j := c.head;
    ghost var k := 0;
    assert rpn[0..] == rpn;
    while j != -1
      invariant 0 <= k <= |rpn| && Linked(c.next, j, rpn[k..]) && cnt == VarCount(rpn[..k])
      decreases |rpn| - k
    {
      assert rpn[k..][0] == rpn[k] && rpn[k..][1..] == rpn[k + 1..];
      assert rpn[..k + 1][..k] == rpn[..k];
      if c.buf[j].op.Var? {
        cnt := cnt + 1;
      }
      j := c.next[j];
      k := k + 1;
    }
    assert rpn[..k] == rpn;
  }

  /** find_var */
  method FindVar(vars: array<KVar>, cnt: nat, id: string) returns (k: int)
    requires cnt <= vars.Length
    ensures k == -1 ==> !Named(vars[..cnt], id)
    ensures k != -1 ==> 0 <= k < cnt && vars[k].id == id
  {
    for i := 0 to cnt
      invariant forall h :: 0 <= h < i ==> vars[h].id != id
    {
      if vars[i].id == id {
        return i;
      }
    }
    k := -1;
  }

  /** The variables are distinct, unset, and named exactly by what has been seen. */
  ghost predicate Populated(vars: seq<KVar>, seen: set<string>) {
    && KconfigRead.Distinct(vars) && (forall i :: 0 <= i < |vars| ==> vars[i].setting.Unset?)
    && KconfigRead.Names(vars) == seen
  }

  /** The names used by the variable tokens. */
  function Ids(toks: seq<Token>): set<string> {
    if toks == [] then {}
    else
      var last := toks[|toks| - 1];
      Ids(toks[..|toks| - 1]) + if last.op.Var? then {IdOf(last.text)} else {}
  }

  predicate ShortIds(toks: seq<Token>) {
    forall k :: 0 <= k < |toks| && toks[k].op.Var? ==> IdLen(toks[k].text) + 1 < ID_SIZE
  }

  /** Every variable token is linked to the variable with its own name. */
  ghost predicate LinkedTo(priv: seq<int>, toks: seq<Token>, vars: seq<KVar>) {
    forall k :: 0 <= k < |toks| && toks[k].op.Var? ==>
      toks[k].at < |priv| && 0 <= priv[toks[k].at] < |vars| && vars[priv[toks[k].at]].id == IdOf(toks[k].text)
  }

  lemma AddName(vars: seq<KVar>, seen: set<string>, v: KVar)
    requires Populated(vars, seen) && !Named(vars, v.id) && v.setting.Unset?
    ensures Populated(vars + [v], seen + {v.id})
  {
  }

  /** The variable for one token, new or already there. */
  method Intern(text: string, vars: array<KVar>, cnt: nat, ghost seen: set<string>) returns (k: nat, cnt': nat)
    requires cnt < vars.Length && Populated(vars[..cnt], seen)
    modifies vars
    ensures cnt <= cnt' <= cnt + 1 && k < cnt' && vars[k].id == IdOf(text)
    ensures vars[..cnt] == old(vars[..cnt]) && Populated(vars[..cnt'], seen + {IdOf(text)})
  {
    ghost var before := vars[..cnt];
    vars[cnt] := KVar(IdOf(text), Unset);
    assert vars[..cnt] == before;
    var found := FindVar(vars, cnt, vars[cnt].id);
    KconfigRead.NamesIn(before, IdOf(text));
    if found != -1 {
      assert before[found].id == IdOf(text);
      assert seen + {IdOf(text)} == seen;
      return found, cnt;
    }
    AddName(before, seen, vars[cnt]);
    assert vars[..cnt + 1] == before + [vars[cnt]];
    return cnt, cnt + 1;
  }

  /** What is done after the first `k` tokens of an expression; `base` was there before. */
  ghost predicate Progress(priv: seq<int>, rpn: seq<Token>, k: nat, vars: seq<KVar>, seen: set<string>, base: seq<KVar>) {
    && k <= |rpn| && ShortIds(rpn[..k]) && base <= vars
    && Populated(vars, seen + Ids(rpn[..k])) && LinkedTo(priv, rpn[..k], vars)
  }

  lemma Start(priv: seq<int>, rpn: seq<Token>, vars: seq<KVar>, seen: set<string>)
    requires Populated(vars, seen)
    ensures Progress(priv, rpn, 0, vars, seen, vars)
  {
  }

  lemma Finish(priv: seq<int>, rpn: seq<Token>, vars: seq<KVar>, seen: set<string>, base: seq<KVar>)
    requires Progress(priv, rpn, |rpn|, vars, seen, base)
    ensures ShortIds(rpn) && base <= vars && Populated(vars, seen + Ids(rpn)) && LinkedTo(priv, rpn, vars)
  {
    assert rpn[..|rpn|] == rpn;
  }

  lemma Skipped(priv: seq<int>, rpn: seq<Token>, k: nat, vars: seq<KVar>, seen: set<string>, base: seq<KVar>)
    requires k < |rpn| && !rpn[k].op.Var? && Progress(priv, rpn, k, vars, seen, base)
    ensures Progress(priv, rpn, k + 1, vars, seen, base)
  {
    NextToken(rpn, k);
    assert rpn[..k + 1] == rpn[..k] + [rpn[k]];
    assert seen + Ids(rpn[..k]) == seen + Ids(rpn[..k + 1]);
  }

  lemma Linking(priv: seq<int>, rpn: seq<Token>, k: nat, was: seq<KVar>, vars: seq<KVar>, v: nat, seen: set<string>,
                base: seq<KVar>)
    requires k < |rpn| && rpn[k].op.Var? && IdLen(rpn[k].text) + 1 < ID_SIZE && Progress(priv, rpn, k, was, seen, base)
    requires forall i, j :: 0 <= i < j < |rpn| ==> rpn[i].at != rpn[j].at
    requires was <= vars && Populated(vars, seen + Ids(rpn[..k]) + {IdOf(rpn[k].text)})
    requires rpn[k].at < |priv| && v < |vars| && vars[v].id == IdOf(rpn[k].text)
    ensures Progress(priv[rpn[k].at := v], rpn, k + 1, vars, seen, base)
  {
    NextToken(rpn, k);
    RelinkedTo(priv, rpn, k, was, vars, v);
    assert seen + Ids(rpn[..k]) + {IdOf(rpn[k].text)} == seen + Ids(rpn[..k + 1]);
    assert rpn[..k + 1] == rpn[..k] + [rpn[k]];
  }

  /** One token of the list; fails if the name is too long. */
  method PopulateToken(t: Token, ghost rpn: seq<Token>, ghost k: nat, vars: array<KVar>, cnt: nat, priv: seq<int>,
                       ghost seen: set<string>, ghost base: seq<KVar>)
    returns (ok: bool, cnt': nat, priv': seq<int>)
    requires k < |rpn| && t == rpn[k] && t.at < |priv| && cnt <= vars.Length && (t.op.Var? ==> cnt < vars.Length)
    requires forall i, j :: 0 <= i < j < |rpn| ==> rpn[i].at != rpn[j].at
    requires Progress(priv, rpn, k, vars[..cnt], seen, base)
    modifies vars
    ensures ok <==> !(t.op.Var? && IdLen(t.text) + 1 >= ID_SIZE)
    ensures cnt <= cnt' <= cnt + (if t.op.Var? then 1 else 0) && |priv'| == |priv|
    ensures ok ==> Progress(priv', rpn, k + 1, vars[..cnt'], seen, base)
  {
    ok, cnt', priv' := true, cnt, priv;
    if !t.op.Var? {
      Skipped(priv, rpn, k, vars[..cnt], seen, base);
      return;
    }
    if IdLen(t.text) + 1 >= ID_SIZE {
      return false, cnt, priv;
    }
    ghost var was := vars[..cnt];
    var v;
    v, cnt' := Intern(t.text, vars, cnt, seen + Ids(rpn[..k]));
    priv' := priv[t.at := v];
    assert was <= vars[..cnt'];
    Linking(priv, rpn, k, was, vars[..cnt'], v, seen, base);
  }

  /** populate_vars for one expression; `priv` holds the links of its tokens. */
  method Populate(c: Compiled, ghost rpn: seq<Token>, vars: array<KVar>, cnt: nat, ghost seen: set<string>)
    returns (ok: bool, cnt': nat, priv: seq<int>)
    requires Lists(c, rpn) && cnt + VarCount(rpn) <= vars.Length && Populated(vars[..cnt], seen)
    modifies vars
    ensures ok <==> ShortIds(rpn)
    ensures cnt <= cnt' <= cnt + VarCount(rpn)
    ensures ok ==> old(vars[..cnt]) <= vars[..cnt']
    ensures ok ==> Populated(vars[..cnt'], seen + Ids(rpn)) && LinkedTo(priv, rpn, vars[..cnt'])
  {
    ok, cnt', priv := true, cnt, seq(|c.buf|, _ => -1);
    ghost var base := vars[..cnt];
    var j := c.head;
    ghost var k := 0;
    Start(priv, rpn, base, seen);
    assert rpn[0..] == rpn && rpn[..0] == [];
    while j != -1
      invariant 0 <= k <= |rpn| && Linked(c.next, j, rpn[k..]) && |priv| == |c.buf|
      invariant cnt <= cnt' <= cnt + VarCount(rpn[..k]) <= cnt + VarCount(rpn)
      invariant Progress(priv, rpn, k, vars[..cnt'], seen, base)
      decreases |rpn| - k
    {
      NextToken(rpn, k);
      CountPrefix(rpn, k + 1);
      ok, cnt', priv := PopulateToken(c.buf[j], rpn, k, vars, cnt', priv, seen, base);
      if !ok {
        return;
      }
      j := c.next[j];
      k := k + 1;
    }
    Finish(priv, rpn, vars[..cnt'], seen, base);
  }

  lemma NextToken(rpn: seq<Token>, k: nat)
    requires k < |rpn|
    ensures rpn[k..][0] == rpn[k] && rpn[k..][1..] == rpn[k + 1..] && rpn[..k + 1][..k] == rpn[..k]
    ensures VarCount(rpn[..k + 1]) == VarCount(rpn[..k]) + if rpn[k].op.Var? then 1 else 0
    ensures Ids(rpn[..k + 1]) == Ids(rpn[..k]) + if rpn[k].op.Var? then {IdOf(rpn[k].text)} else {}
  {
  }

  lemma {:induction false} CountPrefix(rpn: seq<Token>, k: nat)
    requires k <= |rpn|
    ensures VarCount(rpn[..k]) <= VarCount(rpn)
  {
    if k < |rpn| {
      CountPrefix(rpn[..|rpn| - 1], k);
      assert rpn[..|rpn| - 1][..k] == rpn[..k];
    } else {
      assert rpn[..k] == rpn;
    }
  }

  /** A new link leaves those of the other tokens alone. */
  lemma RelinkedTo(priv: seq<int>, rpn: seq<Token>, k: nat, was: seq<KVar>, vars: seq<KVar>, v: nat)
    requires k < |rpn| && (forall i, j :: 0 <= i < j < |rpn| ==> rpn[i].at != rpn[j].at)
    requires LinkedTo(priv, rpn[..k], was) && was <= vars
    requires rpn[k].at < |priv| && v < |vars| && vars[v].id == IdOf(rpn[k].text)
    ensures LinkedTo(priv[rpn[k].at := v], rpn[..k + 1], vars)
  {
  }
}
