/**
 tst_kconfig_read: what the variables hold after the lines of a file, and when stopping
 early is harmless.
 */
module KconfigRead {
  import opened KconfigLines

  /** The variables after all the lines. */
  function ReadAll(vars: seq<KVar>, lines: seq<string>): (r: seq<KVar>)
    ensures |r| == |vars|
    decreases |lines|
  {
    if lines == [] then vars else ReadAll(Assign(vars, Meaning(lines[0])), lines[1..])
  }

  function Found(vars: seq<KVar>, line: string): nat {
    if Hits(vars, Meaning(line)) then 1 else 0
  }

  /** How many of the lines are read when `found` variables have been counted before. */
  function Stop(vars: seq<KVar>, lines: seq<string>, found: nat): (n: nat)
    ensures n <= |lines|
    decreases |lines|
  {
    if lines == [] then 0
    else
      var found' := found + Found(vars, lines[0]);
      if found' == |vars| then 1 else 1 + Stop(Assign(vars, Meaning(lines[0])), lines[1..], found')
  }

  ghost predicate NoOverrun(vars: seq<KVar>, lines: seq<string>) {
    forall i :: 0 <= i < |lines| ==> !Overruns(vars, lines[i])
  }

  /** tst_kconfig_read, for the first `len` variables */
  method Read(lines: seq<string>, vars: array<KVar>, len: nat)
    requires len <= vars.Length && NoOverrun(vars[..len], lines)
    modifies vars
    ensures var before := old(vars[..len]); vars[..len] == ReadAll(before, lines[..Stop(before, lines, 0)])
    ensures vars[len..] == old(vars[len..])
  {
    ghost var rest := lines;
    ghost var left := Stop(vars[..len], lines, 0);
    ghost var goal := ReadAll(vars[..len], lines[..left]);
    var found, i := 0, 0;
    while i < |lines|
      invariant 0 <= i <= |lines| && rest == lines[i..] && vars[len..] == old(vars[len..])
      invariant NoOverrun(vars[..len], lines)
      invariant left == Stop(vars[..len], rest, found) && goal == ReadAll(vars[..len], rest[..left])
    {
      ReadPrefix(vars[..len], rest, left);
      NoOverrunStays(vars[..len], lines, i);
      var hit := ParseLine(lines[i], vars, len);
      rest, left := rest[1..], left - 1;
      if hit {
        found := found + 1;
      }
      if found == len {
        return;
      }
      i := i + 1;
    }
  }

  lemma ReadPrefix(vars: seq<KVar>, lines: seq<string>, n: nat)
    requires 1 <= n <= |lines|
    ensures ReadAll(vars, lines[..n]) == ReadAll(Assign(vars, Meaning(lines[0])), lines[1..][..n - 1])
  {
    assert lines[..n][1..] == lines[1..][..n - 1];
  }

  // ----- What the variables hold -----

  predicate Distinct(vars: seq<KVar>) {
    forall i, j :: 0 <= i < j < |vars| ==> vars[i].id != vars[j].id
  }

  predicate Defines(line: string, id: string) {
    Meaning(line).Def? && Meaning(line).id == id
  }

  /** What the last line that names an option says about it. */
  function Lookup(init: Setting, lines: seq<string>, id: string): Setting {
    if lines == [] then init
    else
      var last := lines[|lines| - 1];
      if Defines(last, id) then Meaning(last).setting else Lookup(init, lines[..|lines| - 1], id)
  }

  lemma {:induction false} SetFromAt(vars: seq<KVar>, i: nat, id: string, setting: Setting, k: nat)
    requires i <= |vars| && Distinct(vars) && k < |vars|
    ensures SetFrom(vars, i, id, setting)[k] == if k >= i && vars[k].id == id then KVar(id, setting) else vars[k]
    decreases |vars| - i
  {
    if i < |vars| {
      if vars[i].id != id {
        SetFromAt(vars, i + 1, id, setting, k);
      } else if setting.Value? {
        SetFromAt(vars[i := KVar(id, setting)], i + 1, id, setting, k);
      }
    }
  }

  /** With distinct names a definition sets exactly the variable it names. */
  lemma AssignAt(vars: seq<KVar>, line: string)
    requires Distinct(vars)
    ensures var r := Assign(vars, Meaning(line));
      && Distinct(r) && (forall k :: 0 <= k < |vars| ==> r[k].id == vars[k].id)
      && forall k :: 0 <= k < |vars| ==>
           r[k].setting == if Defines(line, vars[k].id) then Meaning(line).setting else vars[k].setting
  {
    var d := Meaning(line);
    if d.Def? {
      forall k | 0 <= k < |vars|
        ensures Assign(vars, d)[k] == if vars[k].id == d.id then KVar(d.id, d.setting) else vars[k]
      {
        SetFromAt(vars, 0, d.id, d.setting, k);
      }
    }
  }

  lemma {:induction false} LookupCons(init: Setting, line: string, rest: seq<string>, id: string)
    ensures Lookup(init, [line] + rest, id)
         == Lookup(if Defines(line, id) then Meaning(line).setting else init, rest, id)
  {
    var lines := [line] + rest;
    if rest == [] {
      assert lines[..0] == [];
    } else {
      assert lines[..|lines| - 1] == [line] + rest[..|rest| - 1];
      LookupCons(init, line, rest[..|rest| - 1], id);
    }
  }

  /** After all the lines each variable holds what the last line naming it says. */
  lemma {:induction false} ReadAllLooksUp(vars: seq<KVar>, lines: seq<string>, k: nat)
    requires Distinct(vars) && k < |vars|
    ensures ReadAll(vars, lines)[k] == KVar(vars[k].id, Lookup(vars[k].setting, lines, vars[k].id))
    decreases |lines|
  {
    if lines != [] {
      AssignAt(vars, lines[0]);
      var next := Assign(vars, Meaning(lines[0]));
      ReadAllLooksUp(next, lines[1..], k);
      assert lines == [lines[0]] + lines[1..];
      LookupCons(vars[k].setting, lines[0], lines[1..], vars[k].id);
    }
  }

  // ----- Stopping early -----

  /** No two lines are about the same option among these. */
  ghost predicate OncePerOption(lines: seq<string>, ids: set<string>) {
    forall i, j, id :: 0 <= i < j < |lines| && id in ids ==> !(Defines(lines[i], id) && Defines(lines[j], id))
  }

  ghost predicate Untouched(lines: seq<string>, id: string) {
    forall j :: 0 <= j < |lines| ==> !Defines(lines[j], id)
  }

  lemma {:induction false} UntouchedStays(vars: seq<KVar>, lines: seq<string>)
    requires Distinct(vars) && forall i :: 0 <= i < |vars| ==> Untouched(lines, vars[i].id)
    ensures ReadAll(vars, lines) == vars
  {
    if lines != [] {
      AssignAt(vars, lines[0]);
      assert Assign(vars, Meaning(lines[0])) == vars;
      forall i | 0 <= i < |vars| ensures Untouched(lines[1..], vars[i].id) {
        assert Untouched(lines, vars[i].id);
      }
      UntouchedStays(vars, lines[1..]);
    }
  }

  function Names(vars: seq<KVar>): set<string> {
    if vars == [] then {} else Names(vars[..|vars| - 1]) + {vars[|vars| - 1].id}
  }

  lemma {:induction false} NamesIn(vars: seq<KVar>, id: string)
    ensures id in Names(vars) <==> Named(vars, id)
  {
    if vars != [] {
      var front := vars[..|vars| - 1];
      NamesIn(front, id);
      if Named(vars, id) {
        var i :| 0 <= i < |vars| && vars[i].id == id;
        assert i < |front| ==> front[i].id == id;
      }
    }
  }

  lemma {:induction false} NamesCount(vars: seq<KVar>)
    requires Distinct(vars)
    ensures |Names(vars)| == |vars|
  {
    if vars != [] {
      NamesCount(vars[..|vars| - 1]);
      NamesIn(vars[..|vars| - 1], vars[|vars| - 1].id);
    }
  }

  lemma FullSubset(s: set<string>, t: set<string>)
    requires s <= t && |s| >= |t|
    ensures s == t
  {
    assert t == s + (t - s);
  }

  /** The names counted so far are those of the variables that no later line is about. */
  ghost predicate Counted(vars: seq<KVar>, lines: seq<string>, hit: set<string>) {
    hit <= Names(vars) && forall id :: id in hit ==> Untouched(lines, id)
  }

  lemma SameNames(vars: seq<KVar>, line: string)
    requires Distinct(vars)
    ensures Names(Assign(vars, Meaning(line))) == Names(vars)
  {
    var r := Assign(vars, Meaning(line));
    AssignAt(vars, line);
    forall id ensures id in Names(r) <==> id in Names(vars) {
      NamesIn(r, id);
      NamesIn(vars, id);
    }
  }

  /** Once every name is counted, the lines left change nothing. */
  lemma AllCounted(vars: seq<KVar>, lines: seq<string>, hit: set<string>)
    requires Distinct(vars) && Counted(vars, lines, hit) && |hit| == |vars|
    ensures ReadAll(vars, lines) == vars
  {
    NamesCount(vars);
    FullSubset(hit, Names(vars));
    forall i | 0 <= i < |vars| ensures Untouched(lines, vars[i].id) {
      NamesIn(vars, vars[i].id);
    }
    UntouchedStays(vars, lines);
  }

  /** The names counted after one more line. */
  lemma CountLine(vars: seq<KVar>, lines: seq<string>, hit: set<string>) returns (next: seq<KVar>, hit': set<string>)
    requires Distinct(vars) && OncePerOption(lines, Names(vars)) && lines != [] && Counted(vars, lines, hit)
    ensures next == Assign(vars, Meaning(lines[0])) && Distinct(next) && OncePerOption(lines[1..], Names(next))
    ensures Counted(next, lines[1..], hit') && |hit'| == |hit| + Found(vars, lines[0])
  {
    next := Assign(vars, Meaning(lines[0]));
    AssignAt(vars, lines[0]);
    var d := Meaning(lines[0]);
    SameNames(vars, lines[0]);
    hit' := hit;
    if Hits(vars, d) {
      NamesIn(vars, d.id);
      assert Defines(lines[0], d.id) && d.id !in hit;
      hit' := hit + {d.id};
    }
    forall id | id in hit' ensures Untouched(lines[1..], id) {
      forall j | 0 <= j < |lines[1..]| ensures !Defines(lines[1..][j], id) {
        assert lines[1..][j] == lines[j + 1];
      }
    }
  }

  lemma {:induction false} StopHarmless(vars: seq<KVar>, lines: seq<string>, hit: set<string>)
    requires Distinct(vars) && OncePerOption(lines, Names(vars)) && Counted(vars, lines, hit)
    ensures ReadAll(vars, lines[..Stop(vars, lines, |hit|)]) == ReadAll(vars, lines)
    decreases |lines|
  {
    if lines != [] {
      var next, hit' := CountLine(vars, lines, hit);
      var rest := lines[1..];
      ReadPrefix(vars, lines, Stop(vars, lines, |hit|));
      if |hit'| == |vars| {
        AllCounted(next, rest, hit');
        assert rest[..0] == [];
      } else {
        StopHarmless(next, rest, hit');
      }
    } else {
      assert lines[..0] == lines;
    }
  }

  /** When no two lines are about the same variable, stopping early loses nothing. */
  lemma EarlyStop(vars: seq<KVar>, lines: seq<string>)
    requires Distinct(vars) && OncePerOption(lines, Names(vars))
    ensures ReadAll(vars, lines[..Stop(vars, lines, 0)]) == ReadAll(vars, lines)
  {
    StopHarmless(vars, lines, {});
  }

  // ----- Where it stops, and what that loses -----

  /** A line that counts as found: it gives y, m or n to one of the names. */
  predicate Settles(line: string, names: set<string>) {
    var d := Meaning(line);
    d.Def? && !d.setting.Value? && d.id in names
  }

  function Settling(lines: seq<string>, names: set<string>): nat {
    if lines == [] then 0
    else Settling(lines[..|lines| - 1], names) + if Settles(lines[|lines| - 1], names) then 1 else 0
  }

  /** `n` lines are the fewest, at least one, of which `wanted` give y, m or n to a name; or there is no such n. */
  ghost predicate StopsAt(lines: seq<string>, names: set<string>, wanted: nat, n: nat) {
    && n <= |lines|
    && (forall k :: 1 <= k < n ==> Settling(lines[..k], names) != wanted)
    && (n < |lines| ==> n >= 1 && Settling(lines[..n], names) == wanted)
  }

  lemma {:induction false} SettlingCons(line: string, rest: seq<string>, names: set<string>)
    ensures Settling([line] + rest, names) == (if Settles(line, names) then 1 else 0) + Settling(rest, names)
  {
    var lines := [line] + rest;
    if rest == [] {
      assert lines[..0] == [];
    } else {
      assert lines[..|lines| - 1] == [line] + rest[..|rest| - 1];
      SettlingCons(line, rest[..|rest| - 1], names);
    }
  }

  lemma {:induction false} SetFromIds(vars: seq<KVar>, i: nat, id: string, setting: Setting, k: nat)
    requires i <= |vars| && k < |vars|
    ensures SetFrom(vars, i, id, setting)[k].id == vars[k].id
    decreases |vars| - i
  {
    if i < |vars| {
      if vars[i].id != id {
        SetFromIds(vars, i + 1, id, setting, k);
      } else if setting.Value? {
        SetFromIds(vars[i := KVar(id, setting)], i + 1, id, setting, k);
      }
    }
  }

  /** Names stay, and whether a line counts depends on them alone. */
  lemma NamesStay(vars: seq<KVar>, line: string)
    ensures Names(Assign(vars, Meaning(line))) == Names(vars)
    ensures Found(vars, line) == if Settles(line, Names(vars)) then 1 else 0
  {
    var d := Meaning(line);
    var r := Assign(vars, d);
    forall k | 0 <= k < |vars| ensures r[k].id == vars[k].id {
      if d.Def? {
        SetFromIds(vars, 0, d.id, d.setting, k);
      }
    }
    forall id ensures id in Names(r) <==> id in Names(vars) {
      NamesIn(r, id);
      NamesIn(vars, id);
      assert forall k :: 0 <= k < |vars| ==> (r[k].id == id <==> vars[k].id == id);
    }
    if d.Def? {
      NamesIn(vars, d.id);
    }
  }

  lemma NoOverrunStays(vars: seq<KVar>, lines: seq<string>, i: nat)
    requires NoOverrun(vars, lines) && i < |lines|
    ensures !Overruns(vars, lines[i]) && NoOverrun(Assign(vars, Meaning(lines[i])), lines)
  {
    var next := Assign(vars, Meaning(lines[i]));
    NamesStay(vars, lines[i]);
    forall k | 0 <= k < |lines| && Meaning(lines[k]).Overrun? ensures !Overruns(next, lines[k]) {
      NamesIn(next, Meaning(lines[k]).id);
      NamesIn(vars, Meaning(lines[k]).id);
    }
  }

  lemma PrefixSettles(lines: seq<string>, names: set<string>, k: nat)
    requires 1 <= k <= |lines|
    ensures Settling(lines[..k], names)
         == (if Settles(lines[0], names) then 1 else 0) + Settling(lines[1..][..k - 1], names)
  {
    assert lines[..k] == [lines[0]] + lines[1..][..k - 1];
    SettlingCons(lines[0], lines[1..][..k - 1], names);
  }

  lemma {:induction false} StopCounts(vars: seq<KVar>, lines: seq<string>, found: nat, n: nat)
    requires n == Stop(vars, lines, found)
    ensures forall k :: 1 <= k < n ==> found + Settling(lines[..k], Names(vars)) != |vars|
    ensures n < |lines| ==> n >= 1 && found + Settling(lines[..n], Names(vars)) == |vars|
    decreases |lines|
  {
    if lines != [] {
      var names := Names(vars);
      NamesStay(vars, lines[0]);
      var found' := found + Found(vars, lines[0]);
      var next := Assign(vars, Meaning(lines[0]));
      assert Settling(lines[1..][..0], names) == 0;
      if found' == |vars| {
        PrefixSettles(lines, names, 1);
      } else {
        StopCounts(next, lines[1..], found', n - 1);
        forall k | 1 <= k < n ensures found + Settling(lines[..k], names) != |vars| {
          PrefixSettles(lines, names, k);
        }
        if n < |lines| {
          PrefixSettles(lines, names, n);
        }
      }
    }
  }

  /** Where reading stops, in terms of lines and names. */
  lemma StopIsLeast(vars: seq<KVar>, lines: seq<string>)
    ensures StopsAt(lines, Names(vars), |vars|, Stop(vars, lines, 0))
  {
    StopCounts(vars, lines, 0, Stop(vars, lines, 0));
  }

  /** Only one number of lines fits the description. */
  lemma StopUnique(lines: seq<string>, names: set<string>, wanted: nat, n: nat, m: nat)
    requires StopsAt(lines, names, wanted, n) && StopsAt(lines, names, wanted, m)
    ensures n == m
  {
  }

  /** The last line about an option. */
  ghost predicate LastFor(lines: seq<string>, j: nat, id: string) {
    j < |lines| && Defines(lines[j], id) && forall i :: j < i < |lines| ==> !Defines(lines[i], id)
  }

  lemma {:induction false} LookupLast(init: Setting, lines: seq<string>, id: string, j: nat)
    requires LastFor(lines, j, id)
    ensures Lookup(init, lines, id) == Meaning(lines[j]).setting
  {
    if j < |lines| - 1 {
      LookupLast(init, lines[..|lines| - 1], id, j);
    }
  }

  lemma {:induction false} LookupEarlier(init: Setting, lines: seq<string>, id: string, n: nat)
    requires n <= |lines| && forall j :: n <= j < |lines| ==> !Defines(lines[j], id)
    ensures Lookup(init, lines, id) == Lookup(init, lines[..n], id)
  {
    if n < |lines| {
      var front := lines[..|lines| - 1];
      LookupEarlier(init, front, id, n);
      assert front[..n] == lines[..n];
    } else {
      assert lines[..n] == lines;
    }
  }

  lemma {:induction false} SomeLast(lines: seq<string>, id: string, i: nat) returns (j: nat)
    requires i < |lines| && Defines(lines[i], id)
    ensures i <= j && LastFor(lines, j, id)
    decreases |lines| - i
  {
    if k :| i < k < |lines| && Defines(lines[k], id) {
      j := SomeLast(lines, id, k);
    } else {
      j := i;
    }
  }

  /** No line behind the first `n` is the last word on a variable and says something new. */
  ghost predicate NothingNew(vars: seq<KVar>, lines: seq<string>, n: nat)
    requires n <= |lines|
  {
    forall k, j :: 0 <= k < |vars| && n <= j < |lines| && LastFor(lines, j, vars[k].id) ==>
      Meaning(lines[j]).setting == Lookup(vars[k].setting, lines[..n], vars[k].id)
  }

  lemma LookupSame(vars: seq<KVar>, lines: seq<string>, n: nat, k: nat)
    requires n <= |lines| && k < |vars|
    ensures Lookup(vars[k].setting, lines[..n], vars[k].id) == Lookup(vars[k].setting, lines, vars[k].id) <==>
      forall j :: n <= j < |lines| && LastFor(lines, j, vars[k].id) ==>
        Meaning(lines[j]).setting == Lookup(vars[k].setting, lines[..n], vars[k].id)
  {
    var init, id := vars[k].setting, vars[k].id;
    if i :| n <= i < |lines| && Defines(lines[i], id) {
      var j := SomeLast(lines, id, i);
      LookupLast(init, lines, id, j);
    } else {
      LookupEarlier(init, lines, id, n);
    }
    forall j | n <= j < |lines| && LastFor(lines, j, id)
      ensures Meaning(lines[j]).setting == Lookup(init, lines, id)
    {
      LookupLast(init, lines, id, j);
    }
  }

  /**
   Stopping early loses nothing if and only if no line behind the stop is the last one about
   a variable while giving it another setting than the lines before.
   */
  lemma EarlyStopExactly(vars: seq<KVar>, lines: seq<string>, n: nat)
    requires Distinct(vars) && StopsAt(lines, Names(vars), |vars|, n)
    ensures n == Stop(vars, lines, 0)
    ensures ReadAll(vars, lines[..n]) == ReadAll(vars, lines) <==> NothingNew(vars, lines, n)
  {
    StopIsLeast(vars, lines);
    StopUnique(lines, Names(vars), |vars|, n, Stop(vars, lines, 0));
    forall k | 0 <= k < |vars|
      ensures ReadAll(vars, lines[..n])[k] == ReadAll(vars, lines)[k] <==>
        Lookup(vars[k].setting, lines[..n], vars[k].id) == Lookup(vars[k].setting, lines, vars[k].id)
    {
      ReadAllLooksUp(vars, lines[..n], k);
      ReadAllLooksUp(vars, lines, k);
    }
    forall k | 0 <= k < |vars|
      ensures Lookup(vars[k].setting, lines[..n], vars[k].id) == Lookup(vars[k].setting, lines, vars[k].id) <==>
        forall j :: n <= j < |lines| && LastFor(lines, j, vars[k].id) ==>
          Meaning(lines[j]).setting == Lookup(vars[k].setting, lines[..n], vars[k].id)
    {
      LookupSame(vars, lines, n, k);
    }
  }

  /** An option on two lines is counted twice, and the last variable is never reached. */
  lemma EarlyStopLoses(a: string, b: string)
    requires IsName(a) && IsName(b) && a != b
    ensures var vars := [KVar(a, Unset), KVar(b, Unset)];
      var lines := [Assignment(a, "y"), Assignment(a, "y"), Assignment(b, "y")];
      && Stop(vars, lines, 0) == 2
      && ReadAll(vars, lines[..2])[1].setting == Unset
      && ReadAll(vars, lines)[1].setting == Yes
  {
    var vars := [KVar(a, Unset), KVar(b, Unset)];
    var la, lb := Assignment(a, "y"), Assignment(b, "y");
    var lines := [la, la, lb];
    AssignmentMeans(a, "y");
    AssignmentMeans(b, "y");
    AssignAt(vars, la);
    var one := Assign(vars, Meaning(la));
    assert vars[0].id == a && one[0].id == a;
    assert lines[1..] == [la, lb];
    assert lines[1..][1..] == [lb];
    var two := [la, la];
    assert lines[..2] == two && two[..1] == [la] && [la][..0] == [];
    assert Lookup(Unset, two, b) == Lookup(Unset, [la], b) == Unset;
    ReadAllLooksUp(vars, two, 1);
    ReadAllLooksUp(vars, lines, 1);
  }
}
