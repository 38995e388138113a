/**
 The tokenizer of lib/tst_bool_expr.c.  Operators and parentheses are tokens of one
 character, blanks separate, and a double quote hides everything up to its partner.
 */
module BoolTokens {
  import opened BoolGrammar
  import opened BoolSound

  predicate IsOpChar(c: char) {
    c == '(' || c == ')' || c == '!' || c == '&' || c == '|'
  }

  predicate IsBlank(c: char) {
    c == '\t' || c == ' '
  }

  /** char_to_op */
  function CharToOp(c: char): Op {
    if c == '(' then LPar
    else if c == ')' then RPar
    else if c == '&' then And
    else if c == '|' then Or
    else if c == '!' then Not
    else Var
  }

  /** Characters taken by a quoted stretch: up to the next quote, or to the end. */
  function QuoteLen(s: string): (n: nat)
    requires s != ""
    ensures 1 <= n <= |s|
  {
    if |s| == 1 then 1 else if s[1] == '"' then 2 else 1 + QuoteLen(s[1..])
  }

  /** new_tok: an empty stretch is no token. */
  function Word(cur: string): seq<string> {
    if cur == "" then [] else [cur]
  }

  /** The tokens of `cur` followed by `s`, `cur` being the token read so far. */
  function Scan(cur: string, s: string): seq<string>
    decreases |s|
  {
    if s == "" then Word(cur)
    else if IsOpChar(s[0]) then Word(cur) + [[s[0]]] + Scan("", s[1..])
    else if IsBlank(s[0]) then Word(cur) + Scan("", s[1..])
    else if s[0] == '"' then Scan(cur + s[..QuoteLen(s)], s[QuoteLen(s)..])
    else Scan(cur + [s[0]], s[1..])
  }

  function Number(texts: seq<string>): (toks: seq<Token>)
    requires forall i :: 0 <= i < |texts| ==> texts[i] != ""
    ensures |toks| == |texts| && Indexed(toks)
    ensures forall i :: 0 <= i < |texts| ==> toks[i] == Token(CharToOp(texts[i][0]), texts[i], i)
  {
    seq(|texts|, i requires 0 <= i < |texts| => Token(CharToOp(texts[i][0]), texts[i], i))
  }

  // ----- What tokens look like -----

  /** No operator, blank or unpaired quote outside of quotes. */
  predicate Plain(t: string)
    decreases |t|
  {
    if t == "" then true
    else if IsOpChar(t[0]) || IsBlank(t[0]) then false
    else if t[0] == '"' then
      var n := QuoteLen(t);
      n >= 2 && t[n - 1] == '"' && Plain(t[n..])
    else Plain(t[1..])
  }

  /** Plain up to a quote that is never closed. */
  predicate Unclosed(t: string)
    decreases |t|
  {
    if t == "" || IsOpChar(t[0]) || IsBlank(t[0]) then false
    else if t[0] == '"' then
      var n := QuoteLen(t);
      if n >= 2 && t[n - 1] == '"' then Unclosed(t[n..]) else true
    else Unclosed(t[1..])
  }

  predicate IsToken(t: string) {
    (|t| == 1 && IsOpChar(t[0])) || (t != "" && Plain(t))
  }

  /** Proper tokens, except that the last one may leave a quote open. */
  predicate WfTexts(ts: seq<string>) {
    forall i :: 0 <= i < |ts| ==> IsToken(ts[i]) || (i == |ts| - 1 && Unclosed(ts[i]))
  }

  lemma {:induction false} QuoteLenConcat(s: string, rest: string)
    requires s != "" && QuoteLen(s) >= 2 && s[QuoteLen(s) - 1] == '"'
    ensures QuoteLen(s + rest) == QuoteLen(s)
    decreases |s|
  {
    if s[1] != '"' {
      assert (s + rest)[1..] == s[1..] + rest;
      QuoteLenConcat(s[1..], rest);
    }
  }

  /** Reading a plain stretch only lengthens the current token. */
  lemma {:induction false} ScanPlain(cur: string, t: string, rest: string)
    requires Plain(t)
    ensures Scan(cur, t + rest) == Scan(cur + t, rest)
    decreases |t|
  {
    if t == "" {
      assert t + rest == rest && cur + t == cur;
    } else if t[0] == '"' {
      var n := QuoteLen(t);
      QuoteLenConcat(t, rest);
      assert (t + rest)[..n] == t[..n] && (t + rest)[n..] == t[n..] + rest;
      ScanPlain(cur + t[..n], t[n..], rest);
      assert cur + t[..n] + t[n..] == cur + t;
    } else {
      assert (t + rest)[1..] == t[1..] + rest;
      ScanPlain(cur + [t[0]], t[1..], rest);
      assert cur + [t[0]] + t[1..] == cur + t;
    }
  }

  /** A quote left open swallows the rest. */
  lemma {:induction false} ScanUnclosed(cur: string, t: string)
    requires Unclosed(t)
    ensures Scan(cur, t) == [cur + t]
    decreases |t|
  {
    if t[0] == '"' {
      var n := QuoteLen(t);
      if n >= 2 && t[n - 1] == '"' {
        ScanUnclosed(cur + t[..n], t[n..]);
        assert cur + t[..n] + t[n..] == cur + t;
      } else {
        QuoteOpen(t);
        assert t[..n] == t && t[n..] == "";
      }
    } else {
      ScanUnclosed(cur + [t[0]], t[1..]);
      assert cur + [t[0]] + t[1..] == cur + t;
    }
  }

  lemma {:induction false} QuoteOpen(s: string)
    requires s != "" && !(QuoteLen(s) >= 2 && s[QuoteLen(s) - 1] == '"')
    ensures QuoteLen(s) == |s|
    decreases |s|
  {
    if |s| > 1 {
      QuoteOpen(s[1..]);
    }
  }

  lemma {:induction false} PlainConcat(x: string, y: string)
    requires Plain(x)
    ensures Plain(x + y) == Plain(y) && (Unclosed(y) ==> Unclosed(x + y))
    decreases |x|
  {
    if x == "" {
      assert x + y == y;
    } else if x[0] == '"' {
      var n := QuoteLen(x);
      QuoteLenConcat(x, y);
      assert (x + y)[n..] == x[n..] + y;
      PlainConcat(x[n..], y);
    } else {
      assert (x + y)[1..] == x[1..] + y;
      PlainConcat(x[1..], y);
    }
  }

  lemma {:induction false} QuoteLenPrefix(s: string)
    requires s != "" && QuoteLen(s) >= 2 && s[QuoteLen(s) - 1] == '"'
    ensures QuoteLen(s[..QuoteLen(s)]) == QuoteLen(s)
    decreases |s|
  {
    if s[1] != '"' {
      QuoteLenPrefix(s[1..]);
      assert s[..QuoteLen(s)][1..] == s[1..][..QuoteLen(s[1..])];
    }
  }

  lemma QuotedPlain(s: string)
    requires s != "" && s[0] == '"' && QuoteLen(s) >= 2 && s[QuoteLen(s) - 1] == '"'
    ensures Plain(s[..QuoteLen(s)])
  {
    var q := s[..QuoteLen(s)];
    QuoteLenPrefix(s);
    assert q[QuoteLen(q)..] == "";
  }

  lemma WordWf(cur: string)
    requires Plain(cur)
    ensures forall i :: 0 <= i < |Word(cur)| ==> IsToken(Word(cur)[i])
  {
  }

  lemma WfConcat(x: seq<string>, y: seq<string>)
    requires forall i :: 0 <= i < |x| ==> IsToken(x[i])
    requires WfTexts(y)
    ensures WfTexts(x + y)
  {
  }

  /** Every token the scanner produces is well formed. */
  lemma {:induction false} ScanWf(cur: string, s: string)
    requires Plain(cur)
    ensures WfTexts(Scan(cur, s))
    decreases |s|
  {
    if s == "" {
      WordWf(cur);
    } else if IsOpChar(s[0]) {
      ScanWf("", s[1..]);
      WordWf(cur);
      WfConcat(Word(cur) + [[s[0]]], Scan("", s[1..]));
    } else if IsBlank(s[0]) {
      ScanWf("", s[1..]);
      WordWf(cur);
      WfConcat(Word(cur), Scan("", s[1..]));
    } else if s[0] == '"' {
      ScanQuoteWf(cur, s);
      if QuoteLen(s) >= 2 && s[QuoteLen(s) - 1] == '"' {
        ScanWf(cur + s[..QuoteLen(s)], s[QuoteLen(s)..]);
      }
    } else {
      assert Plain([s[0]]) by { assert [s[0]][1..] == ""; }
      PlainConcat(cur, [s[0]]);
      ScanWf(cur + [s[0]], s[1..]);
    }
  }

  lemma ScanQuoteWf(cur: string, s: string)
    requires Plain(cur) && s != "" && s[0] == '"'
    ensures if QuoteLen(s) >= 2 && s[QuoteLen(s) - 1] == '"' then Plain(cur + s[..QuoteLen(s)])
            else WfTexts(Scan(cur, s))
  {
    var n := QuoteLen(s);
    if n >= 2 && s[n - 1] == '"' {
      QuotedPlain(s);
      PlainConcat(cur, s[..n]);
    } else {
      QuoteOpen(s);
      PlainConcat(cur, s);
      assert s[..n] == s && s[n..] == "";
      assert Scan(cur, s) == [cur + s];
    }
  }

  // ----- Round trip -----

  /** The texts with a blank between each two, the way tst_bool_expr_print writes them. */
  function Render(ts: seq<string>): string {
    if ts == [] then "" else if |ts| == 1 then ts[0] else ts[0] + " " + Render(ts[1..])
  }

  lemma ScanToken(t: string, rest: string)
    requires IsToken(t)
    ensures Scan("", t + (" " + rest)) == [t] + Scan("", rest)
  {
    var more := " " + rest;
    assert more[1..] == rest;
    if |t| == 1 && IsOpChar(t[0]) {
      assert (t + more)[1..] == more;
      assert [t[0]] == t;
      assert Scan("", more) == [] + Scan("", rest);
    } else {
      ScanPlain("", t, more);
      assert "" + t == t;
    }
  }

  lemma ScanLast(t: string)
    requires IsToken(t) || Unclosed(t)
    ensures Scan("", t) == [t]
  {
    if |t| == 1 && IsOpChar(t[0]) {
      assert t[1..] == "" && [t[0]] == t;
    } else if Plain(t) {
      ScanPlain("", t, "");
      assert t + "" == t && "" + t == t;
    } else {
      ScanUnclosed("", t);
      assert "" + t == t;
    }
  }

  lemma {:induction false} ScanRender(ts: seq<string>)
    requires WfTexts(ts)
    ensures Scan("", Render(ts)) == ts
    decreases |ts|
  {
    if |ts| == 1 {
      ScanLast(ts[0]);
    } else if ts != [] {
      forall i | 0 <= i < |ts[1..]| ensures IsToken(ts[1..][i]) || (i == |ts[1..]| - 1 && Unclosed(ts[1..][i])) {
        assert ts[1..][i] == ts[i + 1];
      }
      ScanRender(ts[1..]);
      ScanToken(ts[0], Render(ts[1..]));
      assert ts[0] + " " + Render(ts[1..]) == ts[0] + (" " + Render(ts[1..]));
      assert [ts[0]] + ts[1..] == ts;
    }
  }

  /** Printing tokens and reading them again gives them back exactly when they are well formed. */
  lemma RoundTrip(ts: seq<string>)
    ensures Scan("", Render(ts)) == ts <==> WfTexts(ts)
  {
    ScanWf("", Render(ts));
    if WfTexts(ts) {
      ScanRender(ts);
    }
  }

  lemma NotEmpty(ts: seq<string>)
    requires WfTexts(ts)
    ensures forall i :: 0 <= i < |ts| ==> ts[i] != ""
  {
  }

  /** The tokens of an expression string. */
  function Tokens(expr: string): (toks: seq<Token>)
    ensures Indexed(toks)
  {
    ScanWf("", expr);
    NotEmpty(Scan("", expr));
    Number(Scan("", expr))
  }

  // ----- The loop -----

  /** The first |texts| slots of the buffer hold these tokens. */
  ghost predicate Holds(buf: seq<Token>, texts: seq<string>) {
    && |texts| <= |buf|
    && forall k :: 0 <= k < |texts| ==> texts[k] != "" && buf[k] == Token(CharToOp(texts[k][0]), texts[k], k)
  }

  /** new_tok; without a buffer to fill it only counts. */
  method NewTok(buf: array<Token>, fill: bool, last: nat, text: string, ghost done: seq<string>) returns (last': nat)
    requires last == |done| && (fill ==> Holds(buf[..], done) && last + |Word(text)| <= buf.Length)
    modifies buf
    ensures last' == |done + Word(text)| && (fill ==> Holds(buf[..], done + Word(text)))
  {
    last' := last;
    if |text| == 0 {
      assert done + Word(text) == done;
      return;
    }
    if fill {
      buf[last] := Token(CharToOp(text[0]), text, last);
    }
    last' := last + 1;
  }

  /** The tokens still to come fit behind the ones already there. */
  lemma Room(done: seq<string>, x: seq<string>, y: seq<string>, all: seq<string>)
    requires all == done + (x + y)
    ensures |done| + |x| <= |all| && all == (done + x) + y
  {
  }

  /** The inner loop over a quoted stretch; leaves i at its last character. */
  method SkipQuote(expr: string, i: nat) returns (k: nat)
    requires i < |expr|
    ensures i <= k < |expr| && k + 1 == i + QuoteLen(expr[i..])
  {
    k := i;
    while k + 1 < |expr| && expr[k + 1] != '"'
      invariant i <= k < |expr|
      invariant k + QuoteLen(expr[k..]) == i + QuoteLen(expr[i..])
    {
      assert expr[k..][1..] == expr[k + 1..];
      k := k + 1;
    }
    if k + 1 < |expr| {
      k := k + 1;
    }
  }

  /** The token that an operator ends, and the operator. */
  method NewOp(buf: array<Token>, fill: bool, last: nat, text: string, op: char, ghost done: seq<string>)
    returns (last': nat)
    requires last == |done| && (fill ==> Holds(buf[..], done) && last + |Word(text)| + 1 <= buf.Length)
    modifies buf
    ensures last' == |done + Word(text) + [[op]]| && (fill ==> Holds(buf[..], done + Word(text) + [[op]]))
  {
    last' := NewTok(buf, fill, last, text, done);
    last' := NewTok(buf, fill, last', [op], done + Word(text));
  }

  lemma Sliced(expr: string, j: nat, i: nat, m: nat)
    requires j <= i <= m <= |expr|
    ensures expr[j..i] + expr[i..][..m - i] == expr[j..m] && expr[i..][m - i..] == expr[m..]
  {
  }

  /** An operator ends the current token and is one itself. */
  lemma ScanOp(cur: string, s: string)
    requires s != "" && IsOpChar(s[0])
    ensures Scan(cur, s) == (Word(cur) + [[s[0]]]) + Scan("", s[1..])
  {
  }

  /** tokenize: counts the tokens and, when asked to, stores them. */
  method Tokenize(expr: string, buf: array<Token>, fill: bool) returns (cnt: nat)
    requires fill ==> buf.Length >= |Tokens(expr)|
    modifies buf
    ensures cnt == |Tokens(expr)|
    ensures fill ==> buf[..cnt] == Tokens(expr)
  {
    ghost var all := Scan("", expr);
    ghost var done: seq<string> := [];
    ghost var cur, rest := "", expr;
    var i, j := 0, 0;
    cnt := 0;
    while i < |expr|
      invariant 0 <= j <= i <= |expr| && cur == expr[j..i] && rest == expr[i..]
      invariant all == done + Scan(cur, rest)
      invariant cnt == |done| && (fill ==> Holds(buf[..], done))
      decreases |expr| - i
    {
      ghost var tail := expr[i + 1..];
      assert rest[1..] == tail;
      if IsOpChar(expr[i]) {
        ScanOp(cur, rest);
        Room(done, Word(cur) + [[expr[i]]], Scan("", tail), all);
        cnt := NewOp(buf, fill, cnt, expr[j..i], expr[i], done);
        assert done + Word(cur) + [[expr[i]]] == done + (Word(cur) + [[expr[i]]]);
        done := done + Word(cur) + [[expr[i]]];
        i := i + 1;
        j, cur, rest := i, "", tail;
      } else if IsBlank(expr[i]) {
        Room(done, Word(cur), Scan("", tail), all);
        cnt := NewTok(buf, fill, cnt, expr[j..i], done);
        done := done + Word(cur);
        i := i + 1;
        j, cur, rest := i, "", tail;
      } else if expr[i] == '"' {
        var k := SkipQuote(expr, i);
        ghost var n := QuoteLen(rest);
        Sliced(expr, j, i, k + 1);
        cur, rest := cur + rest[..n], rest[n..];
        i := k + 1;
      } else {
        Sliced(expr, j, i, i + 1);
        assert rest[..1] == [rest[0]];
        cur, rest := cur + [rest[0]], tail;
        i := i + 1;
      }
    }
    Room(done, Word(cur), [], all);
    cnt := NewTok(buf, fill, cnt, expr[j..i], done);
  }
}
