/**
 The registry of mounted cgroup hierarchies in lib/tst_cgroup.c: which controllers each
 root holds and which root each controller belongs to.  A bit field of controllers is
 the set of their indices.
 */
module CgroupRegistry {

  /** The controllers by index; index 0 stands for the files every hierarchy has. */
  const NAMES := [
    "cgroup", "memory", "cpu", "cpuset", "dmem", "io", "pids", "hugetlb", "cpuacct", "devices", "freezer",
    "net_cls", "net_prio", "blkio", "misc", "perf_event", "debug", "rdma", "base"]

  const CTRLS_MAX := 18

  /** The one with index 0 included. */
  const CTRLS := CTRLS_MAX + 1

  const ROOTS_MAX := CTRLS_MAX + 1

  datatype Ver = NoVer | V1 | V2

  type Field = set<nat>

  datatype Root = Root(ver: Ver, path: string, field: Field, noPrefix: bool, nsdelegate: bool, recursiveProt: bool)

  /** The roots, the first of them for V2, and the root of each controller, -1 for none. */
  datatype Reg = Reg(roots: seq<Root>, refs: seq<int>)

  /** A line of the mount table: its options, and for V2 the words of cgroup.controllers. */
  datatype Mount = Mount(ty: string, dir: string, opts: seq<string>, controllers: seq<string>)

  datatype Outcome = Done(s: Reg) | BadName | Changed | Overlap | TooMany

  // ----- Names -----

  predicate IsNameChar(c: char) {
    c == '_' || 'a' <= c <= 'z'
  }

  function NameLen(s: string): (n: nat)
    ensures n <= |s|
  {
    if s != "" && IsNameChar(s[0]) then 1 + NameLen(s[1..]) else 0
  }

  /** A name of letters, ended by the word or by a newline. */
  predicate WellFormed(word: string) {
    NameLen(word) == |word| || word[NameLen(word)] == '\n'
  }

  predicate AllWellFormed(words: seq<string>) {
    words == [] || (AllWellFormed(words[..|words| - 1]) && WellFormed(words[|words| - 1]))
  }

  /** The first controller from `i` on whose name starts with these letters. */
  function FirstWith(letters: string, i: nat): (k: nat)
    requires i <= CTRLS
    ensures i <= k <= CTRLS
    decreases CTRLS - i
  {
    if i == CTRLS || letters <= NAMES[i] then i else FirstWith(letters, i + 1)
  }

  /** cgroup_find_ctrl for a well-formed word: the controllers it adds to a field. */
  function Ctrl(word: string): (f: Field)
    ensures forall c :: c in f ==> c <= CTRLS_MAX
  {
    if !WellFormed(word) then {}
    else
      var k := FirstWith(word[..NameLen(word)], 0);
      if k == CTRLS then {} else {k}
  }

  /** The field built by the loop over the words. */
  function FieldOf(words: seq<string>): (f: Field)
    ensures forall c :: c in f ==> c <= CTRLS_MAX
  {
    if words == [] then {} else FieldOf(words[..|words| - 1]) + Ctrl(words[|words| - 1])
  }

  lemma NotPrefix(a: string, b: string, i: nat)
    requires i < |a| && (|b| <= i || a[i] != b[i])
    ensures !(a <= b)
  {
  }

  /** No name is the beginning of an earlier one. */
  lemma NamesDiffer(j: nat, k: nat)
    requires j < k < CTRLS
    ensures !(NAMES[k] <= NAMES[j])
  {
    var a, b := NAMES[k], NAMES[j];
    if a[0] != b[0] {
      NotPrefix(a, b, 0);
    } else if a[1] != b[1] {
      NotPrefix(a, b, 1);
    } else if a[2] != b[2] {
      NotPrefix(a, b, 2);
    } else {
      NotPrefix(a, b, if a[0] == 'n' then 4 else 3);
    }
  }

  lemma {:induction false} LettersOnly(s: string)
    requires forall i :: 0 <= i < |s| ==> IsNameChar(s[i])
    ensures NameLen(s) == |s|
  {
    if s != "" {
      LettersOnly(s[1..]);
    }
  }

  lemma {:induction false} FirstIs(k: nat, i: nat)
    requires i <= k < CTRLS
    ensures FirstWith(NAMES[k], i) == k
    decreases k - i
  {
    if i < k {
      NamesDiffer(i, k);
      FirstIs(k, i + 1);
    }
  }

  /** Every controller is found by its own name, although names are compared as beginnings. */
  lemma FoundByName(k: nat)
    requires k < CTRLS
    ensures WellFormed(NAMES[k]) && Ctrl(NAMES[k]) == {k}
  {
    LettersOnly(NAMES[k]);
    FirstIs(k, 0);
    assert NAMES[k][..|NAMES[k]|] == NAMES[k];
  }

  lemma NamedField(k: nat)
    requires k < CTRLS
    ensures AllWellFormed([NAMES[k]]) && FieldOf([NAMES[k]]) == {k}
  {
    FoundByName(k);
    assert [NAMES[k]][..0] == [];
  }

  // ----- cgroup_root_scan -----

  const EMPTY := Root(NoVer, "", {}, false, false, false)

  function Fresh(): Reg {
    Reg(seq(ROOTS_MAX + 1, _ => EMPTY), seq(CTRLS, _ => -1))
  }

  /** The shape of the two arrays; the last root always stays free. */
  predicate Sized(s: Reg) {
    |s.roots| == ROOTS_MAX + 1 && |s.refs| == CTRLS && s.roots[ROOTS_MAX].ver.NoVer?
  }

  datatype Place = Same | Clash | Free(r: nat)

  /** The loop over the V1 roots. */
  function Search(s: Reg, f: Field, r: nat): (p: Place)
    requires Sized(s) && r <= ROOTS_MAX
    ensures p.Free? ==> r <= p.r <= ROOTS_MAX
    decreases ROOTS_MAX - r
  {
    if s.roots[r].ver.NoVer? then Free(r)
    else if f * s.roots[r].field == {} then Search(s, f, r + 1)
    else if f == s.roots[r].field then Same
    else Clash
  }

  /** Records a root and makes it the root of its controllers. */
  function Record(s: Reg, r: nat, root: Root): Reg
    requires r < |s.roots|
  {
    Reg(s.roots[r := root], seq(|s.refs|, c requires 0 <= c < |s.refs| => if c in root.field then r else s.refs[c]))
  }

  function ScanV2(s: Reg, m: Mount): Outcome
    requires Sized(s)
  {
    var f := FieldOf(m.controllers);
    if !AllWellFormed(m.controllers) then BadName
    else if !s.roots[0].ver.NoVer? && f == s.roots[0].field then Done(s)
    else if s.roots[0].field != {} then Changed
    else Done(Record(s, 0, Root(V2, m.dir, f, false, "nsdelegate" in m.opts, "memory_recursiveprot" in m.opts)))
  }

  function ScanV1(s: Reg, m: Mount): Outcome
    requires Sized(s)
  {
    var f := FieldOf(m.opts);
    if f == {} then Done(s)
    else
      match Search(s, f, 1)
      case Same => Done(s)
      case Clash => Overlap
      case Free(r) =>
        if r >= ROOTS_MAX then TooMany
        else Done(Record(s, r, Root(V1, m.dir, f, "noprefix" in m.opts, false, false)))
  }

  /** One line of the mount table; every registry that occurs is sized. */
  function ScanOne(s: Reg, m: Mount): Outcome {
    if !Sized(s) || !("cgroup" <= m.ty) then Done(s) else if m.ty == "cgroup" then ScanV1(s, m) else ScanV2(s, m)
  }

  // ----- The invariant -----

  /** The V1 roots are those from 1 to `n`. */
  ghost predicate Prefix(s: Reg, n: nat) {
    && Sized(s) && n < ROOTS_MAX && !s.roots[0].ver.V1? && (s.roots[0].ver.NoVer? ==> s.roots[0].field == {})
    && (forall i :: 1 <= i <= n ==> s.roots[i].ver.V1? && s.roots[i].field != {})
    && (forall i :: n < i <= ROOTS_MAX ==> s.roots[i].ver.NoVer?)
  }

  ghost predicate Disjoint(s: Reg, n: nat)
    requires |s.roots| > n
  {
    forall i, j :: 1 <= i < j <= n ==> s.roots[i].field !! s.roots[j].field
  }

  ghost predicate Known(s: Reg) {
    forall i, c :: 0 <= i < |s.roots| && c in s.roots[i].field ==> c <= CTRLS_MAX
  }

  /** Back references lead to a root that has the controller; a controller of a root has one. */
  ghost predicate Referenced(s: Reg)
    requires Sized(s)
  {
    && (forall c :: 0 <= c < |s.refs| && s.refs[c] != -1 ==>
          0 <= s.refs[c] < ROOTS_MAX && !s.roots[s.refs[c]].ver.NoVer? && c in s.roots[s.refs[c]].field)
    && (forall i, c :: 0 <= i < ROOTS_MAX && !s.roots[i].ver.NoVer? && c in s.roots[i].field && c < |s.refs| ==>
          s.refs[c] != -1)
  }

  ghost predicate Partition(s: Reg, n: nat) {
    Prefix(s, n) && Disjoint(s, n) && Known(s) && Referenced(s)
  }

  lemma FreshPartition()
    ensures Partition(Fresh(), 0)
  {
  }

  lemma MeetEmpty(f: Field, g: Field)
    requires f * g == {}
    ensures f !! g
  {
    forall c | c in f ensures c !in g {
      assert c !in f * g;
    }
  }

  /** The search ends behind the last V1 root, having met only disjoint fields. */
  lemma {:induction false} SearchEnds(s: Reg, n: nat, f: Field, r: nat)
    requires Prefix(s, n) && 1 <= r <= n + 1
    ensures var p := Search(s, f, r);
      && (p.Free? ==> p.r == n + 1 && forall i :: r <= i <= n ==> f !! s.roots[i].field)
      && (p.Same? ==> exists i :: r <= i <= n && s.roots[i].field == f)
    decreases n + 1 - r
  {
    if r <= n && f * s.roots[r].field == {} {
      SearchEnds(s, n, f, r + 1);
      MeetEmpty(f, s.roots[r].field);
    }
  }

  lemma RecordV1(s: Reg, n: nat, root: Root)
    requires Partition(s, n) && n + 1 < ROOTS_MAX && root.ver.V1? && root.field != {}
    requires (forall c :: c in root.field ==> c <= CTRLS_MAX) && forall i :: 1 <= i <= n ==> root.field !! s.roots[i].field
    ensures Partition(Record(s, n + 1, root), n + 1)
  {
  }

  lemma RecordV2(s: Reg, n: nat, root: Root)
    requires Partition(s, n) && s.roots[0].field == {} && root.ver.V2? && forall c :: c in root.field ==> c <= CTRLS_MAX
    ensures Partition(Record(s, 0, root), n)
  {
  }

  /** Every line of the mount table keeps the partition. */
  lemma ScanPartition(s: Reg, n: nat, m: Mount) returns (n': nat)
    requires Partition(s, n) && ScanOne(s, m).Done?
    ensures Partition(ScanOne(s, m).s, n')
  {
    n' := n;
    if m.ty == "cgroup" {
      var f := FieldOf(m.opts);
      SearchEnds(s, n, f, 1);
      if f != {} && Search(s, f, 1).Free? {
        RecordV1(s, n, Root(V1, m.dir, f, "noprefix" in m.opts, false, false));
        n' := n + 1;
      }
    } else if "cgroup" <= m.ty && ScanOne(s, m).s != s {
      var f := FieldOf(m.controllers);
      RecordV2(s, n, Root(V2, m.dir, f, false, "nsdelegate" in m.opts, "memory_recursiveprot" in m.opts));
    }
  }

  lemma ScanKeepsSize(s: Reg, m: Mount)
    requires Sized(s)
    ensures ScanOne(s, m).Done? ==> Sized(ScanOne(s, m).s)
  {
  }

  // ----- Runs -----

  /** Line after line, until one breaks off. */
  function RunBy(scan: (Reg, Mount) -> Outcome, s: Reg, mounts: seq<Mount>): Outcome {
    if mounts == [] then Done(s)
    else
      var o := RunBy(scan, s, mounts[..|mounts| - 1]);
      if o.Done? then scan(o.s, mounts[|mounts| - 1]) else o
  }

  /** tst_cg_scan over any number of mount tables, one after the other. */
  function Run(s: Reg, mounts: seq<Mount>): Outcome {
    RunBy(ScanOne, s, mounts)
  }

  lemma RunSnoc(scan: (Reg, Mount) -> Outcome, s: Reg, mounts: seq<Mount>, m: Mount)
    ensures var o := RunBy(scan, s, mounts); RunBy(scan, s, mounts + [m]) == if o.Done? then scan(o.s, m) else o
  {
    assert (mounts + [m])[..|mounts|] == mounts;
  }

  ghost predicate Keeps(scan: (Reg, Mount) -> Outcome, inv: Reg -> bool) {
    forall s, m :: inv(s) && scan(s, m).Done? ==> inv(scan(s, m).s)
  }

  /** What every line keeps holds after every run. */
  lemma {:induction false} RunKeeps(scan: (Reg, Mount) -> Outcome, inv: Reg -> bool, s: Reg, mounts: seq<Mount>)
    requires Keeps(scan, inv) && inv(s)
    ensures var o := RunBy(scan, s, mounts); o.Done? ==> inv(o.s)
    decreases |mounts|
  {
    if mounts != [] {
      RunKeeps(scan, inv, s, mounts[..|mounts| - 1]);
    }
  }

  /** What one line brings about and the lines of the table keep holds after a run over it. */
  lemma {:induction false} RunGets(scan: (Reg, Mount) -> Outcome, inv: Reg -> bool, got: Reg -> bool,
                                   s: Reg, mounts: seq<Mount>, k: nat)
    requires Keeps(scan, inv) && inv(s) && k < |mounts| && RunBy(scan, s, mounts).Done?
    requires forall s :: inv(s) && scan(s, mounts[k]).Done? ==> got(scan(s, mounts[k]).s)
    requires forall s, m :: inv(s) && m in mounts && got(s) && scan(s, m).Done? ==> got(scan(s, m).s)
    ensures got(RunBy(scan, s, mounts).s)
    decreases |mounts|
  {
    var front := mounts[..|mounts| - 1];
    RunKeeps(scan, inv, s, front);
    if k < |front| {
      RunGets(scan, inv, got, s, front, k);
    }
  }

  /** What no line does in a state that all lines keep, no run does. */
  lemma {:induction false} RunNever(scan: (Reg, Mount) -> Outcome, inv: Reg -> bool, bad: Outcome,
                                    s: Reg, mounts: seq<Mount>)
    requires inv(s) && !bad.Done?
    requires forall s, m :: inv(s) && m in mounts ==> scan(s, m) != bad && (scan(s, m).Done? ==> inv(scan(s, m).s))
    ensures var o := RunBy(scan, s, mounts); o != bad && (o.Done? ==> inv(o.s))
    decreases |mounts|
  {
    if mounts != [] {
      RunNever(scan, inv, bad, s, mounts[..|mounts| - 1]);
    }
  }

  /** Lines that change nothing or stop change nothing until one stops. */
  lemma {:induction false} RunIdle(scan: (Reg, Mount) -> Outcome, stops: Mount -> bool, stop: Outcome,
                                   s: Reg, mounts: seq<Mount>)
    requires !stop.Done?
    requires forall k :: 0 <= k < |mounts| ==> scan(s, mounts[k]) == if stops(mounts[k]) then stop else Done(s)
    ensures RunBy(scan, s, mounts) == if exists m :: m in mounts && stops(m) then stop else Done(s)
    decreases |mounts|
  {
    if mounts != [] {
      var front, last := mounts[..|mounts| - 1], mounts[|mounts| - 1];
      RunIdle(scan, stops, stop, s, front);
      assert forall m :: m in mounts <==> m in front || m == last;
    }
  }

  ghost predicate Parted(s: Reg) {
    exists n :: Partition(s, n)
  }

  lemma ScanParts()
    ensures Keeps(ScanOne, s => Parted(s))
  {
    forall s, m | Parted(s) && ScanOne(s, m).Done? ensures Parted(ScanOne(s, m).s) {
      var n :| Partition(s, n);
      var n' := ScanPartition(s, n, m);
    }
  }

  /**
   The registry is a partition after every run: the V1 roots are a contiguous stretch with
   non-empty pairwise disjoint controllers, and back references are right.
   */
  lemma RunPartition(s: Reg, n: nat, mounts: seq<Mount>) returns (n': nat)
    requires Partition(s, n) && Run(s, mounts).Done?
    ensures Partition(Run(s, mounts).s, n')
  {
    ScanParts();
    RunKeeps(ScanOne, s => Parted(s), s, mounts);
    n' :| Partition(Run(s, mounts).s, n');
  }

  // ----- Scanning again -----

  predicate IsV1(m: Mount) {
    m.ty == "cgroup"
  }

  predicate IsV2(m: Mount) {
    "cgroup" <= m.ty && m.ty != "cgroup"
  }

  /** Some V1 root has exactly these controllers, or there are none. */
  ghost predicate Holds(s: Reg, f: Field) {
    f == {} || exists i :: 1 <= i < |s.roots| && s.roots[i].ver.V1? && s.roots[i].field == f
  }

  lemma {:induction false} SearchSame(s: Reg, n: nat, f: Field, i: nat, r: nat)
    requires Partition(s, n) && 1 <= r <= i <= n && s.roots[i].field == f
    ensures Search(s, f, r).Same?
    decreases i - r
  {
    if r < i {
      assert s.roots[r].field !! s.roots[i].field;
      assert f * s.roots[r].field == {};
      SearchSame(s, n, f, i, r + 1);
    } else {
      assert f * f == f;
    }
  }

  /** A V1 mount whose controllers are held is discarded. */
  lemma HeldDiscarded(s: Reg, n: nat, m: Mount)
    requires Partition(s, n) && IsV1(m) && Holds(s, FieldOf(m.opts))
    ensures ScanOne(s, m) == Done(s)
  {
    var f := FieldOf(m.opts);
    if f != {} {
      var i :| 1 <= i < |s.roots| && s.roots[i].ver.V1? && s.roots[i].field == f;
      assert i <= n;
      SearchSame(s, n, f, i, 1);
    }
  }

  lemma ScanHolds(s: Reg, n: nat, m: Mount, t: Reg)
    requires Partition(s, n) && ScanOne(s, m) == Done(t)
    ensures IsV1(m) ==> Holds(t, FieldOf(m.opts))
    ensures forall f :: Holds(s, f) ==> Holds(t, f)
  {
    if IsV1(m) {
      var f := FieldOf(m.opts);
      SearchEnds(s, n, f, 1);
      if f != {} && Search(s, f, 1).Free? {
        assert t.roots[n + 1].field == f && t.roots[n + 1].ver.V1?;
      }
    }
    forall f | Holds(s, f) ensures Holds(t, f) {
      if f != {} {
        var i :| 1 <= i < |s.roots| && s.roots[i].ver.V1? && s.roots[i].field == f;
        SearchEnds(s, n, FieldOf(m.opts), 1);
        assert t.roots[i] == s.roots[i];
      }
    }
  }

  /** After a scan the controllers of every V1 mount in the table are held. */
  lemma RunHolds(s: Reg, n: nat, mounts: seq<Mount>, k: nat, f: Field)
    requires Partition(s, n) && Run(s, mounts).Done? && k < |mounts| && IsV1(mounts[k]) && f == FieldOf(mounts[k].opts)
    ensures Holds(Run(s, mounts).s, f)
  {
    ScanParts();
    forall r, m | Parted(r) && ScanOne(r, m).Done?
      ensures m == mounts[k] || Holds(r, f) ==> Holds(ScanOne(r, m).s, f)
    {
      var n :| Partition(r, n);
      ScanHolds(r, n, m, ScanOne(r, m).s);
    }
    RunGets(ScanOne, r => Parted(r), r => Holds(r, f), s, mounts, k);
  }

  /** What a V2 mount leaves in the V2 root; other mounts leave it alone. */
  lemma ScanV2Root(s: Reg, n: nat, m: Mount, t: Reg)
    requires Partition(s, n) && ScanOne(s, m) == Done(t)
    ensures !IsV2(m) ==> t.roots[0] == s.roots[0]
    ensures IsV2(m) ==> t.roots[0].ver.V2? && t.roots[0].field == FieldOf(m.controllers)
    ensures IsV2(m) ==> AllWellFormed(m.controllers)
    ensures IsV2(m) && s.roots[0].field != {} ==> t.roots[0] == s.roots[0]
  {
  }

  /** The V2 root has these controllers, or they are none. */
  predicate Agrees(s: Reg, f: Field) {
    Sized(s) && s.roots[0].ver.V2? && (f == {} || f == s.roots[0].field)
  }

  /** Every V2 mount of a scanned table had no controllers or those now recorded. */
  lemma RunV2(s: Reg, n: nat, mounts: seq<Mount>, k: nat, f: Field)
    requires Partition(s, n) && Run(s, mounts).Done?
    requires k < |mounts| && IsV2(mounts[k]) && f == FieldOf(mounts[k].controllers)
    ensures Agrees(Run(s, mounts).s, f) && AllWellFormed(mounts[k].controllers)
  {
    ScanParts();
    forall r, m | Parted(r) && ScanOne(r, m).Done?
      ensures m == mounts[k] || Agrees(r, f) ==> Agrees(ScanOne(r, m).s, f)
      ensures m == mounts[k] ==> AllWellFormed(m.controllers)
    {
      var n :| Partition(r, n);
      ScanV2Root(r, n, m, ScanOne(r, m).s);
    }
    RunGets(ScanOne, r => Parted(r), r => Agrees(r, f) && AllWellFormed(mounts[k].controllers), s, mounts, k);
  }

  /** All V2 mounts of the table list the same controllers. */
  ghost predicate Alike(mounts: seq<Mount>, f: Field) {
    forall k :: 0 <= k < |mounts| && IsV2(mounts[k]) ==> FieldOf(mounts[k].controllers) == f
  }

  predicate Records(s: Reg, f: Field) {
    Sized(s) && s.roots[0].field == f
  }

  lemma AlikeRecorded(s: Reg, n: nat, mounts: seq<Mount>, k: nat, f: Field)
    requires Partition(s, n) && Run(s, mounts).Done? && k < |mounts| && IsV2(mounts[k]) && Alike(mounts, f)
    ensures Records(Run(s, mounts).s, f)
  {
    ScanParts();
    forall r, m | Parted(r) && m in mounts && ScanOne(r, m).Done?
      ensures m == mounts[k] || Records(r, f) ==> Records(ScanOne(r, m).s, f)
    {
      var n :| Partition(r, n);
      ScanV2Root(r, n, m, ScanOne(r, m).s);
    }
    RunGets(ScanOne, r => Parted(r), r => Records(r, f), s, mounts, k);
  }

  /** A V2 mount with other controllers than those recorded. */
  predicate Differs(s: Reg, m: Mount) {
    IsV2(m) && !Records(s, FieldOf(m.controllers))
  }

  /** What a mount of a scanned table does to a second scan. */
  lemma RescanOne(s: Reg, n: nat, mounts: seq<Mount>, t: Reg, n': nat, k: nat)
    requires Partition(s, n) && Run(s, mounts) == Done(t) && Partition(t, n') && k < |mounts|
    ensures ScanOne(t, mounts[k]) == if Differs(t, mounts[k]) then Changed else Done(t)
  {
    if IsV1(mounts[k]) {
      RunHolds(s, n, mounts, k, FieldOf(mounts[k].opts));
      HeldDiscarded(t, n', mounts[k]);
    } else if IsV2(mounts[k]) {
      RunV2(s, n, mounts, k, FieldOf(mounts[k].controllers));
    }
  }

  lemma RescanRun(s: Reg, n: nat, mounts: seq<Mount>, t: Reg)
    requires Partition(s, n) && Run(s, mounts) == Done(t)
    ensures Sized(t) && Run(t, mounts) == if Alike(mounts, t.roots[0].field) then Done(t) else Changed
  {
    var n' := RunPartition(s, n, mounts);
    forall k | 0 <= k < |mounts| ensures ScanOne(t, mounts[k]) == if Differs(t, mounts[k]) then Changed else Done(t) {
      RescanOne(s, n, mounts, t, n', k);
    }
    RunIdle(ScanOne, m => Differs(t, m), Changed, t, mounts);
  }

  /**
   Scanning the same mounts again changes nothing, if and only if all V2 mounts among them
   list the same controllers; otherwise the second scan breaks off.
   */
  lemma Rescan(s: Reg, n: nat, mounts: seq<Mount>, t: Reg)
    requires Partition(s, n) && Run(s, mounts) == Done(t)
    ensures Run(t, mounts) == Done(t) <==> exists f :: Alike(mounts, f)
    ensures Run(t, mounts) == Done(t) || Run(t, mounts) == Changed
  {
    RescanRun(s, n, mounts, t);
    if f :| Alike(mounts, f) {
      if k :| 0 <= k < |mounts| && IsV2(mounts[k]) {
        AlikeRecorded(s, n, mounts, k, f);
      }
      assert Alike(mounts, t.roots[0].field);
    }
  }

  /** A V2 mount without controllers before one with some: the table is scanned, and breaks off the next time. */
  lemma TwoKinds(s: Reg, n: nat, bare: Mount, full: Mount) returns (t: Reg)
    requires Partition(s, n) && s.roots[0].field == {} && IsV2(bare) && IsV2(full)
    requires AllWellFormed(bare.controllers) && AllWellFormed(full.controllers)
    requires FieldOf(bare.controllers) == {} != FieldOf(full.controllers)
    ensures Run(s, [bare, full]) == Done(t) && Run(t, [bare, full]) == Changed
  {
    var mounts := [bare, full];
    RunSnoc(ScanOne, s, [], bare);
    RunSnoc(ScanOne, s, [bare], full);
    assert [] + [bare] == [bare] && [bare] + [full] == mounts;
    t := Run(s, mounts).s;
    Rescan(s, n, mounts, t);
    assert mounts[0] == bare && mounts[1] == full;
    assert forall f :: !Alike(mounts, f);
  }

  /** Whichever controller the second mount has. */
  lemma RescanBreaks(k: nat, bare: Mount, full: Mount) returns (t: Reg)
    requires k < CTRLS && bare == Mount("cgroup2", "", [], []) && full == Mount("cgroup2", "", [], [NAMES[k]])
    ensures Run(Fresh(), [bare, full]) == Done(t) && Run(t, [bare, full]) == Changed
  {
    NamedField(k);
    FreshPartition();
    t := TwoKinds(Fresh(), 0, bare, full);
  }

  // ----- The limit -----

  function Union(fields: seq<Field>): Field {
    if fields == [] then {} else Union(fields[..|fields| - 1]) + fields[|fields| - 1]
  }

  function UpTo(k: nat): Field {
    if k == 0 then {0} else UpTo(k - 1) + {k}
  }

  lemma {:induction false} UpToCount(k: nat)
    ensures |UpTo(k)| == k + 1 && forall c: nat :: c in UpTo(k) <==> c <= k
  {
    if k > 0 {
      UpToCount(k - 1);
      forall c: nat ensures c in UpTo(k) <==> c <= k {
        assert c in UpTo(k) <==> c in UpTo(k - 1) || c == k;
      }
    }
  }

  ghost predicate Apart(fields: seq<Field>) {
    && (forall i :: 0 <= i < |fields| ==> fields[i] != {})
    && forall i, j :: 0 <= i < j < |fields| ==> fields[i] !! fields[j]
  }

  lemma {:induction false} UnionIn(fields: seq<Field>, c: nat)
    ensures c in Union(fields) <==> exists i :: 0 <= i < |fields| && c in fields[i]
  {
    if fields != [] {
      var front := fields[..|fields| - 1];
      UnionIn(front, c);
      if i :| 0 <= i < |fields| && c in fields[i] {
        assert i < |front| ==> c in front[i];
      }
    }
  }

  lemma AddCount(a: Field, f: Field)
    requires a !! f && f != {}
    ensures |a + f| >= |a| + 1
  {
  }

  /** Disjoint non-empty fields hold at least as many controllers as there are fields. */
  lemma {:induction false} UnionCount(fields: seq<Field>)
    requires Apart(fields)
    ensures |Union(fields)| >= |fields|
  {
    if fields != [] {
      var front, last := fields[..|fields| - 1], fields[|fields| - 1];
      UnionCount(front);
      forall c | c in Union(front) ensures c !in last {
        UnionIn(front, c);
      }
      AddCount(Union(front), last);
    }
  }

  lemma SubsetCount(a: Field, b: Field)
    requires a <= b && |a| >= |b|
    ensures a == b
  {
    assert b == a + (b - a);
  }

  /** 19 disjoint non-empty sets of 19 controllers leave none out. */
  lemma NoneLeft(fields: seq<Field>, c: nat)
    requires Apart(fields) && |fields| == CTRLS_MAX + 1 && c <= CTRLS_MAX
    requires forall i, d :: 0 <= i < |fields| && d in fields[i] ==> d <= CTRLS_MAX
    ensures exists i :: 0 <= i < |fields| && c in fields[i]
  {
    UnionCount(fields);
    UpToCount(CTRLS_MAX);
    forall d | d in Union(fields) ensures d in UpTo(CTRLS_MAX) {
      UnionIn(fields, d);
    }
    SubsetCount(Union(fields), UpTo(CTRLS_MAX));
    UnionIn(fields, c);
  }

  /**
   The limit fires if and only if all 18 V1 roots are taken and the controllers found are
   in none of them.  Then every controller is taken, the one with index 0 included.
   */
  lemma LimitExactly(s: Reg, n: nat, m: Mount)
    requires Partition(s, n)
    ensures ScanOne(s, m).TooMany? <==> IsV1(m) && n == CTRLS_MAX && New(s, n, FieldOf(m.opts))
    ensures ScanOne(s, m).TooMany? ==> 0 in FieldOf(m.opts) || exists i :: 1 <= i <= n && 0 in s.roots[i].field
  {
    LimitIff(s, n, m);
    if ScanOne(s, m).TooMany? {
      AllTaken(s, n, FieldOf(m.opts));
    }
  }

  lemma LimitIff(s: Reg, n: nat, m: Mount)
    requires Prefix(s, n)
    ensures ScanOne(s, m).TooMany? <==> IsV1(m) && n == CTRLS_MAX && New(s, n, FieldOf(m.opts))
  {
    var f := FieldOf(m.opts);
    if IsV1(m) {
      SearchEnds(s, n, f, 1);
      if New(s, n, f) {
        SearchFree(s, n, f, 1);
      }
    }
  }

  /** Controllers no V1 root has. */
  ghost predicate New(s: Reg, n: nat, f: Field)
    requires n < |s.roots|
  {
    f != {} && forall i :: 1 <= i <= n ==> f !! s.roots[i].field
  }

  lemma {:induction false} SearchFree(s: Reg, n: nat, f: Field, r: nat)
    requires Prefix(s, n) && 1 <= r <= n + 1 && forall i :: 1 <= i <= n ==> f !! s.roots[i].field
    ensures Search(s, f, r) == Free(n + 1)
    decreases n + 1 - r
  {
    if r <= n {
      assert f * s.roots[r].field == {};
      SearchFree(s, n, f, r + 1);
    }
  }

  lemma AllTaken(s: Reg, n: nat, f: Field)
    requires Partition(s, n) && n == CTRLS_MAX && New(s, n, f) && forall c :: c in f ==> c <= CTRLS_MAX
    ensures 0 in f || exists i :: 1 <= i <= n && 0 in s.roots[i].field
  {
    var fields := seq(n + 1, i requires 0 <= i <= n => if i == 0 then f else s.roots[i].field);
    NoneLeft(fields, 0);
    var i :| 0 <= i < |fields| && 0 in fields[i];
    assert i > 0 ==> 0 in s.roots[i].field;
  }

  /** No V1 root has the controller with index 0. */
  ghost predicate NoZero(s: Reg) {
    forall i :: 1 <= i < |s.roots| ==> 0 !in s.roots[i].field
  }

  lemma ScanNoZero(s: Reg, n: nat, m: Mount)
    requires Partition(s, n) && NoZero(s) && (IsV1(m) ==> 0 !in FieldOf(m.opts))
    ensures !ScanOne(s, m).TooMany? && (ScanOne(s, m).Done? ==> NoZero(ScanOne(s, m).s))
  {
    LimitExactly(s, n, m);
    SearchEnds(s, n, FieldOf(m.opts), 1);
  }

  /** No run of scans reaches the limit unless some V1 mount names the controller with index 0. */
  lemma LimitNeedsZero(mounts: seq<Mount>)
    requires forall k :: 0 <= k < |mounts| && IsV1(mounts[k]) ==> 0 !in FieldOf(mounts[k].opts)
    ensures var o := Run(Fresh(), mounts); !o.TooMany? && (o.Done? ==> NoZero(o.s))
  {
    ScanParts();
    forall s, m | Parted(s) && NoZero(s) && m in mounts
      ensures ScanOne(s, m) != TooMany && (ScanOne(s, m).Done? ==> NoZero(ScanOne(s, m).s))
    {
      var n :| Partition(s, n);
      ScanNoZero(s, n, m);
    }
    FreshPartition();
    RunNever(ScanOne, s => Parted(s) && NoZero(s), TooMany, Fresh(), mounts);
  }

  // ----- A table that reaches the limit -----

  /** A mount of the one controller with that index. */
  function Single(k: nat): Mount {
    Mount("cgroup", "", if k < CTRLS then [NAMES[k]] else [], [])
  }

  /** The mounts from 1 to `k`. */
  function Climb(mount: nat -> Mount, k: nat): seq<Mount> {
    if k == 0 then [] else Climb(mount, k - 1) + [mount(k)]
  }

  function Singles(k: nat): seq<Mount> {
    Climb(Single, k)
  }

  /** Root after root, each with the one controller of its own index. */
  ghost predicate Filled(s: Reg, k: nat) {
    Partition(s, k) && forall i :: 1 <= i <= k ==> s.roots[i].field == {i}
  }

  lemma FillNext(s: Reg, k: nat) returns (t: Reg)
    requires 1 <= k <= CTRLS_MAX && Filled(s, k - 1)
    ensures ScanOne(s, Single(k)) == Done(t) && Filled(t, k)
  {
    NamedField(k);
    SearchFree(s, k - 1, {k}, 1);
    var root := Root(V1, "", {k}, "noprefix" in Single(k).opts, false, false);
    RecordV1(s, k - 1, root);
    t := Record(s, k, root);
  }

  /** Each mount leads on from what the one before has reached. */
  ghost predicate Advances(scan: (Reg, Mount) -> Outcome, mount: nat -> Mount, at: (Reg, nat) -> bool, max: nat) {
    forall s, k: nat :: k < max && at(s, k) ==> scan(s, mount(k + 1)).Done? && at(scan(s, mount(k + 1)).s, k + 1)
  }

  lemma {:induction false} RunUp(scan: (Reg, Mount) -> Outcome, mount: nat -> Mount, at: (Reg, nat) -> bool, max: nat,
                                 s: Reg, k: nat)
    requires Advances(scan, mount, at, max) && at(s, 0) && k <= max
    ensures var o := RunBy(scan, s, Climb(mount, k)); o.Done? && at(o.s, k)
    decreases k
  {
    if k > 0 {
      RunUp(scan, mount, at, max, s, k - 1);
      RunSnoc(scan, s, Climb(mount, k - 1), mount(k));
      assert at(RunBy(scan, s, Climb(mount, k - 1)).s, k - 1);
    }
  }

  lemma SinglesAdvance()
    ensures Advances(ScanOne, Single, (s, k: nat) => Filled(s, k), CTRLS_MAX)
  {
    forall s, k: nat | k < CTRLS_MAX && Filled(s, k)
      ensures ScanOne(s, Single(k + 1)).Done? && Filled(ScanOne(s, Single(k + 1)).s, k + 1)
    {
      var t := FillNext(s, k + 1);
    }
  }

  /** One mount per controller from 1 on fills one root each. */
  lemma SinglesFill(s: Reg, k: nat)
    requires k <= CTRLS_MAX && Filled(s, 0)
    ensures var o := Run(s, Singles(k)); o.Done? && Filled(o.s, k)
  {
    SinglesAdvance();
    RunUp(ScanOne, Single, (s, k: nat) => Filled(s, k), CTRLS_MAX, s, k);
  }

  lemma OneTooMany(t: Reg, k: nat, m: Mount)
    requires k == CTRLS_MAX && Filled(t, k) && m == Single(0)
    ensures ScanOne(t, m) == TooMany
  {
    NamedField(0);
    LimitExactly(t, k, m);
  }

  /** Naming the controller with index 0 as well exceeds the limit. */
  lemma LimitReached()
    ensures Run(Fresh(), Singles(CTRLS_MAX) + [Single(0)]) == TooMany
  {
    FreshPartition();
    SinglesFill(Fresh(), CTRLS_MAX);
    OneTooMany(Run(Fresh(), Singles(CTRLS_MAX)).s, CTRLS_MAX, Single(0));
    RunSnoc(ScanOne, Fresh(), Singles(CTRLS_MAX), Single(0));
  }
}
