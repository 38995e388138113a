/**
 Reading a kernel config: kconfig_parse_line and tst_kconfig_read over the lines of the
 file, each of which ends in a newline.
 */
module KconfigLines {

  /** What a config says about an option; Unset is a choice of 0. */
  datatype Setting = Unset | Yes | Module | No | Value(text: string)

  /** tst_kconfig_var */
  datatype KVar = KVar(id: string, setting: Setting)

  /** What a line defines; Overrun is a value that no blank ends. */
  datatype Def = Nothing | Def(id: string, setting: Setting) | Overrun(id: string)

  const CONFIG := "CONFIG_"
  const NOT_SET := "is not set"

  predicate IsSpace(c: char) {
    c == ' ' || c == '\t' || c == '\n' || c == '\r' || c == '\U{B}' || c == '\U{C}'
  }

  predicate IsNameChar(c: char) {
    'A' <= c <= 'Z' || '0' <= c <= '9' || c == '_'
  }

  /** The rest from the first character that is not a blank. */
  function Skip(s: string): string {
    if s != "" && IsSpace(s[0]) then Skip(s[1..]) else s
  }

  /** strstr: the rest from the first occurrence, or the empty string. */
  function StrStr(s: string, pat: string): string {
    if s == "" || pat <= s then s else StrStr(s[1..], pat)
  }

  function NameLen(s: string): (n: nat)
    ensures n <= |s|
  {
    if s != "" && IsNameChar(s[0]) then 1 + NameLen(s[1..]) else 0
  }

  function WordLen(s: string): (n: nat)
    ensures n <= |s|
  {
    if s != "" && !IsSpace(s[0]) then 1 + WordLen(s[1..]) else 0
  }

  function Classify(v: string): Setting {
    if v == "y" then Yes else if v == "m" then Module else Value(v)
  }

  /** The value behind the name of an option, if there is one. */
  function ValueDef(id: string, rest: string): Def {
    var eq := Skip(rest);
    if eq == "" || eq[0] != '=' then Nothing
    else
      var val := Skip(eq[1..]);
      var n := WordLen(val);
      if n == |val| then Overrun(id) else Def(id, Classify(val[..n]))
  }

  /** What a line defines, whichever options are asked for. */
  function Meaning(line: string): Def {
    var s := Skip(line);
    var comment := s != "" && s[0] == '#';
    if comment && StrStr(s, NOT_SET) == "" then Nothing
    else
      var v := StrStr(s, CONFIG);
      var n := NameLen(v);
      if v == "" then Nothing
      else if comment then Def(v[..n], No)
      else ValueDef(v[..n], v[n..])
  }

  // ----- Lines as the kernel writes them -----

  predicate NoSpace(s: string) {
    forall i :: 0 <= i < |s| ==> !IsSpace(s[i])
  }

  predicate IsName(id: string) {
    CONFIG <= id && forall i :: 0 <= i < |id| ==> IsNameChar(id[i])
  }

  function Assignment(id: string, v: string): string {
    id + "=" + v + "\n"
  }

  function Disabled(id: string): string {
    "# " + id + " is not set\n"
  }

  lemma {:induction false} NameLenOf(id: string, rest: string)
    requires (forall i :: 0 <= i < |id| ==> IsNameChar(id[i])) && (rest == "" || !IsNameChar(rest[0]))
    ensures NameLen(id + rest) == |id|
  {
    if id == "" {
      assert id + rest == rest;
    } else {
      assert (id + rest)[1..] == id[1..] + rest;
      NameLenOf(id[1..], rest);
    }
  }

  lemma {:induction false} WordLenOf(v: string, rest: string)
    requires NoSpace(v) && rest != "" && IsSpace(rest[0])
    ensures WordLen(v + rest) == |v|
  {
    if v == "" {
      assert v + rest == rest;
    } else {
      assert (v + rest)[1..] == v[1..] + rest;
      WordLenOf(v[1..], rest);
    }
  }

  lemma {:induction false} WordNoSpace(s: string)
    ensures NoSpace(s[..WordLen(s)])
  {
    if s != "" && !IsSpace(s[0]) {
      WordNoSpace(s[1..]);
      assert s[..WordLen(s)] == [s[0]] + s[1..][..WordLen(s[1..])];
    }
  }

  lemma {:induction false} StrStrFinds(a: string, pat: string, b: string)
    requires pat != ""
    ensures StrStr(a + pat + b, pat) != ""
  {
    var s := a + pat + b;
    assert a == "" ==> pat <= s;
    if !(pat <= s) {
      assert s[1..] == a[1..] + pat + b;
      StrStrFinds(a[1..], pat, b);
    }
  }

  /** An assignment defines what it says if and only if its value holds no blank. */
  lemma AssignmentMeans(id: string, v: string)
    requires IsName(id) && v != ""
    ensures Meaning(Assignment(id, v)) == Def(id, Classify(v)) <==> NoSpace(v)
  {
    var line := Assignment(id, v);
    var rest := "=" + v + "\n";
    assert line == id + rest;
    assert line[0] == 'C' && Skip(line) == line && line[0] != '#';
    assert CONFIG <= line;
    NameLenOf(id, rest);
    assert line[..|id|] == id && line[|id|..] == rest;
    assert rest[1..] == v + "\n";
    ValueMeans(id, v, rest);
  }

  lemma ValueMeans(id: string, v: string, rest: string)
    requires v != "" && rest == "=" + v + "\n"
    ensures ValueDef(id, rest) == Def(id, Classify(v)) <==> NoSpace(v)
  {
    assert rest[0] == '=' && rest[1..] == v + "\n";
    var tail := v + "\n";
    if NoSpace(v) {
      assert tail[0] == v[0];
      WordLenOf(v, "\n");
      assert tail[..|v|] == v;
    } else {
      var val := Skip(tail);
      WordNoSpace(val);
      assert val[..WordLen(val)] != v;
    }
  }

  lemma {:induction false} StrStrAt(s: string, pat: string, i: nat)
    requires i < |s| && pat != "" && pat <= s[i..] && forall j :: 0 <= j < i ==> s[j] != pat[0]
    ensures StrStr(s, pat) == s[i..]
  {
    if i > 0 {
      assert !(pat <= s) by {
        assert s[0] != pat[0];
      }
      StrStrAt(s[1..], pat, i - 1);
    }
  }

  lemma CommentMeans(line: string, v: string, n: nat)
    requires line != "" && line[0] == '#' && StrStr(line, NOT_SET) != ""
    requires StrStr(line, CONFIG) == v != "" && NameLen(v) == n
    ensures Meaning(line) == Def(v[..n], No)
  {
  }

  /** An option that stands behind the sign and a blank. */
  lemma OptionAt(line: string, id: string, rest: string)
    requires |line| >= 2 && line[0] == '#' && line[1] == ' ' && line[2..] == id + rest
    requires IsName(id) && rest != "" && !IsNameChar(rest[0])
    ensures StrStr(line, CONFIG) == line[2..] && NameLen(line[2..]) == |id| && line[2..][..|id|] == id
  {
    StrStrAt(line, CONFIG, 2);
    NameLenOf(id, rest);
  }

  /** The comment for a disabled option says so. */
  lemma DisabledMeans(id: string)
    requires IsName(id)
    ensures Meaning(Disabled(id)) == Def(id, No)
  {
    var line := Disabled(id);
    assert line == ("# " + id + " ") + NOT_SET + "\n";
    StrStrFinds("# " + id + " ", NOT_SET, "\n");
    assert line[2..] == id + " is not set\n";
    OptionAt(line, id, " is not set\n");
    CommentMeans(line, line[2..], |id|);
  }

  // ----- One line -----

  /** The variables after a definition: the first of that name, or all of them for a value. */
  function SetFrom(vars: seq<KVar>, i: nat, id: string, setting: Setting): (r: seq<KVar>)
    requires i <= |vars|
    ensures |r| == |vars|
    decreases |vars| - i
  {
    if i == |vars| then vars
    else if vars[i].id != id then SetFrom(vars, i + 1, id, setting)
    else if setting.Value? then SetFrom(vars[i := KVar(id, setting)], i + 1, id, setting)
    else vars[i := KVar(id, setting)]
  }

  function Assign(vars: seq<KVar>, d: Def): (r: seq<KVar>)
    ensures |r| == |vars|
  {
    if d.Def? then SetFrom(vars, 0, d.id, d.setting) else vars
  }

  predicate Named(vars: seq<KVar>, id: string) {
    exists i :: 0 <= i < |vars| && vars[i].id == id
  }

  /** The line counts as found: its option is asked for and is y, m or not set. */
  predicate Hits(vars: seq<KVar>, d: Def) {
    d.Def? && !d.setting.Value? && Named(vars, d.id)
  }

  /** The value of an option that is asked for runs into the end of the line buffer. */
  predicate Overruns(vars: seq<KVar>, line: string) {
    Meaning(line).Overrun? && Named(vars, Meaning(line).id)
  }

  method SkipSpaces(line: string, i: nat) returns (k: nat)
    requires i <= |line|
    ensures i <= k <= |line| && line[k..] == Skip(line[i..])
  {
    k := i;
    while k < |line| && IsSpace(line[k])
      invariant i <= k <= |line| && Skip(line[k..]) == Skip(line[i..])
    {
      assert line[k..][1..] == line[k + 1..];
      k := k + 1;
    }
  }

  method NameEnd(line: string, i: nat) returns (k: nat)
    requires i <= |line|
    ensures k == i + NameLen(line[i..]) <= |line|
  {
    k := i;
    while k < |line| && IsNameChar(line[k])
      invariant i <= k <= |line| && k + NameLen(line[k..]) == i + NameLen(line[i..])
    {
      assert line[k..][1..] == line[k + 1..];
      k := k + 1;
    }
  }

  method WordEnd(line: string, i: nat) returns (k: nat)
    requires i <= |line|
    ensures k == i + WordLen(line[i..]) <= |line|
  {
    k := i;
    while k < |line| && !IsSpace(line[k])
      invariant i <= k <= |line| && k + WordLen(line[k..]) == i + WordLen(line[i..])
    {
      assert line[k..][1..] == line[k + 1..];
      k := k + 1;
    }
  }

  lemma DropTake<T>(s: seq<T>, i: nat, j: nat)
    requires i <= j <= |s|
    ensures s[i..][..j - i] == s[i..j]
  {
  }

  /** The value of an option whose name ends at the start of `rest`. */
  method ReadValue(id: string, rest: string) returns (d: Def)
    requires !ValueDef(id, rest).Overrun?
    ensures d == ValueDef(id, rest)
  {
    var eq := SkipSpaces(rest, 0);
    assert rest[0..] == rest;
    if eq == |rest| || rest[eq] != '=' {
      return Nothing;
    }
    var val := SkipSpaces(rest, eq + 1);
    assert rest[eq..][1..] == rest[eq + 1..];
    var end := WordEnd(rest, val);
    DropTake(rest, val, end);
    d := Def(id, Classify(rest[val..end]));
  }

  /** kconfig_parse_line, for the first `len` variables */
  method ParseLine(line: string, vars: array<KVar>, len: nat) returns (hit: bool)
    requires len <= vars.Length && !Overruns(vars[..len], line)
    modifies vars
    ensures vars[..len] == Assign(old(vars[..len]), Meaning(line)) && vars[len..] == old(vars[len..])
    ensures hit == Hits(old(vars[..len]), Meaning(line))
  {
    var start := SkipSpaces(line, 0);
    assert line[0..] == line;
    var s := line[start..];
    var comment := s != "" && s[0] == '#';
    if comment && StrStr(s, NOT_SET) == "" {
      return false;
    }
    var v := StrStr(s, CONFIG);
    if v == "" {
      return false;
    }
    var n := NameEnd(v, 0);
    assert v[0..] == v;
    hit := SetVars(v[..n], v[n..], comment, vars, len);
  }

  /** The loop over the variables. */
  method SetVars(id: string, rest: string, comment: bool, vars: array<KVar>, len: nat) returns (hit: bool)
    requires len <= vars.Length && (comment || !ValueDef(id, rest).Overrun? || !Named(vars[..len], id))
    modifies vars
    ensures vars[len..] == old(vars[len..])
    ensures var d := if comment then Def(id, No) else ValueDef(id, rest);
      vars[..len] == Assign(old(vars[..len]), d) && hit == Hits(old(vars[..len]), d)
  {
    ghost var d := if comment then Def(id, No) else ValueDef(id, rest);
    ghost var before := vars[..len];
    for i := 0 to len
      invariant vars[len..] == old(vars[len..])
      invariant forall k :: 0 <= k < len ==> vars[k].id == before[k].id
      invariant d.Def? ==> SetFrom(vars[..len], i, d.id, d.setting) == Assign(before, d)
      invariant !d.Def? || !d.setting.Value? ==> vars[..len] == before && forall k :: 0 <= k < i ==> before[k].id != id
    {
      if vars[i].id == id {
        assert before[i].id == id;
        if comment {
          vars[i] := KVar(id, No);
          return true;
        }
        var def := ReadValue(id, rest);
        if def == Nothing {
          return false;
        }
        ghost var was := vars[..len];
        vars[i] := KVar(id, def.setting);
        assert vars[..len] == was[i := KVar(id, def.setting)];
        if !def.setting.Value? {
          return true;
        }
      }
    }
    hit := false;
  }
}
