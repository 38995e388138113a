/**
 The registry as the library has it, two arrays updated in place, and the loops of
 cgroup_find_ctrl, cgroup_root_scan and tst_cg_scan over them.
 */
module CgroupScan {
  import opened CgroupRegistry

  /** How a scan ends: normally, or with what made it break off. */
  datatype Status = Fine | Broke(why: Outcome)

  /** Where the letters of a word end. */
  method LettersEnd(word: string) returns (l: nat)
    ensures l == NameLen(word)
  {
    l := 0;
    assert word[0..] == word;
    while l < |word| && IsNameChar(word[l])
      invariant 0 <= l <= |word| && l + NameLen(word[l..]) == NameLen(word)
    {
      assert word[l..][1..] == word[l + 1..];
      l := l + 1;
    }
  }

  method FirstMatch(letters: string) returns (k: nat)
    ensures k == FirstWith(letters, 0)
  {
    k := 0;
    while k < CTRLS && !(letters <= NAMES[k])
      invariant k <= CTRLS && FirstWith(letters, k) == FirstWith(letters, 0)
    {
      k := k + 1;
    }
  }

  /** cgroup_find_ctrl: the controller a word names, as a set of at most one. */
  method FindCtrl(word: string) returns (wellFormed: bool, f: Field)
    ensures wellFormed <==> WellFormed(word)
    ensures f == Ctrl(word)
  {
    var l := LettersEnd(word);
    if l < |word| && word[l] != '\n' {
      return false, {};
    }
    var k := FirstMatch(word[..l]);
    return true, if k == CTRLS then {} else {k};
  }

  lemma WordsNext(words: seq<string>, i: nat)
    requires i < |words|
    ensures FieldOf(words[..i + 1]) == FieldOf(words[..i]) + Ctrl(words[i])
    ensures AllWellFormed(words[..i + 1]) <==> AllWellFormed(words[..i]) && WellFormed(words[i])
  {
    assert words[..i + 1][..i] == words[..i];
  }

  /** The controllers named by the words. */
  method Collect(words: seq<string>) returns (ok: bool, f: Field)
    ensures ok <==> AllWellFormed(words)
    ensures f == FieldOf(words)
  {
    ok, f := true, {};
    for i := 0 to |words|
      invariant (ok <==> AllWellFormed(words[..i])) && f == FieldOf(words[..i])
    {
      WordsNext(words, i);
      var fine, g := FindCtrl(words[i]);
      ok, f := ok && fine, f + g;
    }
    assert words[..|words|] == words;
  }

  class Registry {
    const roots: array<Root>
    const refs: array<int>

    ghost function View(): Reg
      reads roots, refs
    {
      Reg(roots[..], refs[..])
    }

    ghost predicate Valid()
      reads roots, refs
    {
      Sized(View()) && exists n :: Partition(View(), n)
    }

    constructor ()
      ensures fresh(roots) && fresh(refs) && View() == Fresh() && Valid()
    {
      roots := new Root[ROOTS_MAX + 1](_ => EMPTY);
      refs := new int[CTRLS](_ => -1);
      new;
      assert View() == Fresh();
      FreshPartition();
    }

    /** Fills in a root and points its controllers at it. */
    method Enter(r: nat, root: Root)
      requires Sized(View()) && r < ROOTS_MAX
      modifies roots, refs
      ensures View() == Record(old(View()), r, root)
    {
      ghost var s := View();
      roots[r] := root;
      for c := 0 to refs.Length
        modifies refs
        invariant forall d :: 0 <= d < |s.refs| ==> refs[d] == if d < c && d in root.field then r else s.refs[d]
      {
        if c in root.field {
          refs[c] := r;
        }
      }
      assert refs[..] == Record(s, r, root).refs;
    }

    /** The loop over the V1 roots. */
    method FindPlace(f: Field) returns (p: Place)
      requires Sized(View())
      ensures p == Search(View(), f, 1)
    {
      var r := 1;
      while !roots[r].ver.NoVer?
        invariant 1 <= r <= ROOTS_MAX && Search(View(), f, r) == Search(View(), f, 1)
        decreases ROOTS_MAX - r
      {
        if f * roots[r].field != {} {
          return if f == roots[r].field then Same else Clash;
        }
        r := r + 1;
      }
      p := Free(r);
    }

    /** cgroup_root_scan for V1 */
    method ScanV1(m: Mount) returns (st: Status)
      requires Sized(View())
      modifies roots, refs
      ensures CgroupRegistry.ScanV1(old(View()), m) == if st.Fine? then Done(View()) else st.why
      ensures st.Broke? ==> View() == old(View()) && !st.why.Done?
    {
      var _, f := Collect(m.opts);
      if f == {} {
        return Fine;
      }
      var p := FindPlace(f);
      match p
      case Same => return Fine;
      case Clash => return Broke(Overlap);
      case Free(r) =>
        if r >= ROOTS_MAX {
          return Broke(TooMany);
        }
        Enter(r, Root(V1, m.dir, f, "noprefix" in m.opts, false, false));
        return Fine;
    }

    /** cgroup_root_scan for V2 */
    method ScanV2(m: Mount) returns (st: Status)
      requires Sized(View())
      modifies roots, refs
      ensures CgroupRegistry.ScanV2(old(View()), m) == if st.Fine? then Done(View()) else st.why
      ensures st.Broke? ==> View() == old(View()) && !st.why.Done?
    {
      var ok, f := Collect(m.controllers);
      if !ok {
        return Broke(BadName);
      }
      if !roots[0].ver.NoVer? && f == roots[0].field {
        return Fine;
      }
      if roots[0].field != {} {
        return Broke(Changed);
      }
      Enter(0, Root(V2, m.dir, f, false, "nsdelegate" in m.opts, "memory_recursiveprot" in m.opts));
      return Fine;
    }

    /** One line of the mount table. */
    method ScanLine(m: Mount) returns (st: Status)
      requires Sized(View())
      modifies roots, refs
      ensures Sized(View())
      ensures ScanOne(old(View()), m) == if st.Fine? then Done(View()) else st.why
      ensures st.Broke? ==> View() == old(View()) && !st.why.Done?
    {
      ScanKeepsSize(View(), m);
      st := Fine;
      if "cgroup" <= m.ty {
        if m.ty == "cgroup" {
          st := ScanV1(m);
        } else {
          st := ScanV2(m);
        }
      }
    }

    /** tst_cg_scan: the registry stays a partition, and the outcome is that of the run. */
    method Scan(mounts: seq<Mount>) returns (st: Status)
      requires Valid()
      modifies roots, refs
      ensures Valid()
      ensures Run(old(View()), mounts) == if st.Fine? then Done(View()) else st.why
    {
      ghost var s := View();
      ghost var n :| Partition(s, n);
      st := Fine;
      for i := 0 to |mounts|
        invariant st.Fine? && Sized(View()) && Run(s, mounts[..i]) == Done(View()) && Partition(View(), n)
      {
        assert mounts[..i + 1][..i] == mounts[..i];
        ghost var was := View();
        st := ScanLine(mounts[i]);
        if st.Broke? {
          RunBreaks(s, mounts, i + 1);
          return;
        }
        n := ScanPartition(was, n, mounts[i]);
      }
      assert mounts[..|mounts|] == mounts;
    }
  }

  /** A run that breaks off stays broken off. */
  lemma {:induction false} RunBreaks(s: Reg, mounts: seq<Mount>, i: nat)
    requires i <= |mounts| && !Run(s, mounts[..i]).Done?
    ensures Run(s, mounts) == Run(s, mounts[..i])
    decreases |mounts| - i
  {
    if i < |mounts| {
      assert mounts[..i + 1][..i] == mounts[..i];
      RunBreaks(s, mounts, i + 1);
    } else {
      assert mounts[..i] == mounts;
    }
  }
}
