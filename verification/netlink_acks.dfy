/**
 Matching the kernel's replies with the messages sent: tst_netlink_check_acks, and the
 loops of tst_netlink_recv that split the bytes received into messages.
 */
module NetlinkAcks {
  import opened NetlinkWire
  import opened NetlinkBuilder
  import opened NetlinkMessages

  /** A reply: its sequence number and, for an error message, its error code. */
  datatype Reply = Reply(seqno: nat, error: int)

  datatype Verdict = Acked | Refused(errno: int) | Missing(seqno: nat)

  /** The sequence numbers of the messages that asked for an acknowledgement. */
  function Wanted(msgs: seq<Msg>): seq<nat> {
    if msgs == [] then []
    else (if HasFlag(msgs[0].flags, NLM_F_ACK) then [msgs[0].seqno] else []) + Wanted(msgs[1..])
  }

  /** The first reply from `j` on that is an error or has the sequence number. */
  function Scan(res: seq<Reply>, j: nat, seqno: nat): (k: nat)
    requires j <= |res|
    ensures j <= k <= |res|
    ensures forall i :: j <= i < k ==> res[i].error == 0 && res[i].seqno != seqno
    ensures k < |res| ==> res[k].error != 0 || res[k].seqno == seqno
    decreases |res| - j
  {
    if j == |res| || res[j].error != 0 || res[j].seqno == seqno then j else Scan(res, j + 1, seqno)
  }

  function Check(wanted: seq<nat>, res: seq<Reply>, j: nat): Verdict
    requires j <= |res|
  {
    if wanted == [] then Acked
    else
      var k := Scan(res, j, wanted[0]);
      if k == |res| then Missing(wanted[0])
      else if res[k].error != 0 then Refused(-res[k].error)
      else Check(wanted[1..], res, k)
  }

  // ----- What the verdict means -----

  ghost predicate NoError(res: seq<Reply>, from: nat, to: nat) {
    forall i :: from <= i < to && i < |res| ==> res[i].error == 0
  }

  /** Positions of replies to the messages, one after the other from `j` on. */
  ghost predicate Answers(wanted: seq<nat>, res: seq<Reply>, j: nat, ps: seq<nat>) {
    && |ps| == |wanted|
    && (forall k :: 0 <= k < |ps| ==> j <= ps[k] < |res| && res[ps[k]].seqno == wanted[k])
    && (forall k, l :: 0 <= k < l < |ps| ==> ps[k] <= ps[l])
    && (ps != [] ==> NoError(res, j, ps[|ps| - 1] + 1))
  }

  lemma {:induction false} AckedAnswers(wanted: seq<nat>, res: seq<Reply>, j: nat) returns (ps: seq<nat>)
    requires j <= |res| && Check(wanted, res, j).Acked?
    ensures Answers(wanted, res, j, ps)
  {
    if wanted == [] {
      ps := [];
    } else {
      var k := Scan(res, j, wanted[0]);
      var rest := AckedAnswers(wanted[1..], res, k);
      ps := [k] + rest;
    }
  }

  lemma {:induction false} AnswersAcked(wanted: seq<nat>, res: seq<Reply>, j: nat, ps: seq<nat>)
    requires j <= |res| && Answers(wanted, res, j, ps)
    ensures Check(wanted, res, j).Acked?
  {
    if wanted != [] {
      var k := Scan(res, j, wanted[0]);
      assert k <= ps[0] <= ps[|ps| - 1];
      assert res[k].error == 0;
      AnswersAcked(wanted[1..], res, k, ps[1..]);
    }
  }

  /**
   The check succeeds if and only if the messages have replies at non-decreasing
   positions, with no error at or before the last of them.
   */
  lemma AckedExactly(wanted: seq<nat>, res: seq<Reply>)
    ensures Check(wanted, res, 0).Acked? <==> exists ps :: Answers(wanted, res, 0, ps)
  {
    if Check(wanted, res, 0).Acked? {
      var ps := AckedAnswers(wanted, res, 0);
    }
    forall ps | Answers(wanted, res, 0, ps) ensures Check(wanted, res, 0).Acked? {
      AnswersAcked(wanted, res, 0, ps);
    }
  }

  /** A refusal reports the first error among all replies; a missing reply means there was none. */
  lemma {:induction false} FirstError(wanted: seq<nat>, res: seq<Reply>, j: nat) returns (k: nat)
    requires j <= |res| && NoError(res, 0, j)
    ensures var v := Check(wanted, res, j);
      && (v.Refused? ==> k < |res| && NoError(res, 0, k) && res[k].error != 0 && v.errno == -res[k].error)
      && (v.Missing? ==> NoError(res, 0, |res|) && v.seqno in wanted)
  {
    k := j;
    if wanted != [] {
      k := Scan(res, j, wanted[0]);
      if k < |res| && res[k].error == 0 {
        k := FirstError(wanted[1..], res, k);
      }
    }
  }

  // ----- The loops -----

  /** One round of the walk. */
  lemma WalkStep(b: seq<byte>, at: nat, end: nat) returns (next: nat, rest: seq<Msg>)
    requires end <= |b| && ReadMsg(b, at).Found? && at + LenAt(b, at) <= end
    ensures next == at + Align(LenAt(b, at)) && rest == Walk(b, next, end)
    ensures Walk(b, at, end) == [ReadMsg(b, at).m] + rest
  {
    next := at + Align(LenAt(b, at));
    rest := Walk(b, next, end);
  }

  lemma WantedCons(m: Msg, rest: seq<Msg>)
    ensures Wanted([m] + rest) == (if HasFlag(m.flags, NLM_F_ACK) then [m.seqno] else []) + Wanted(rest)
  {
  }

  /** tst_netlink_recv: counts the messages, then records them. */
  method Parse(buffer: seq<byte>) returns (ret: seq<Msg>)
    ensures ret == Walk(buffer, 0, |buffer|)
  {
    var count := CountMessages(buffer);
    var at: nat := 0;
    ret := [];
    ghost var rest := Walk(buffer, 0, |buffer|);
    ghost var all := rest;
    for i := 0 to count
      invariant |ret| == i && ret + rest == all && rest == Walk(buffer, at, |buffer|)
    {
      assert rest != [];
      var msg := ReadMsg(buffer, at).m;
      ghost var next, rest' := WalkStep(buffer, at, |buffer|);
      LastFirst(ret, msg, rest');
      ret := ret + [msg];
      at := at + Align(LenAt(buffer, at));
      assert at == next;
      rest := rest';
    }
  }

  method CountMessages(buffer: seq<byte>) returns (count: nat)
    ensures count == |Walk(buffer, 0, |buffer|)|
  {
    var at: nat := 0;
    count := 0;
    ghost var rest := Walk(buffer, 0, |buffer|);
    ghost var all := |rest|;
    while at < |buffer| && ReadMsg(buffer, at).Found?
      invariant rest == Walk(buffer, at, |buffer|) && count + |rest| == all
      decreases |buffer| - at
    {
      ghost var next, rest' := WalkStep(buffer, at, |buffer|);
      at := at + Align(LenAt(buffer, at));
      assert at == next;
      rest := rest';
      count := count + 1;
    }
  }

  /** tst_netlink_check_acks, over the bytes of the last batch. */
  method CheckAcks(buffer: seq<byte>, datalen: nat, res: seq<Reply>) returns (v: Verdict)
    requires datalen <= |buffer|
    ensures v == Check(Wanted(Walk(buffer, 0, datalen)), res, 0)
  {
    var at: nat, j: nat := 0, 0;
    ghost var rest := Walk(buffer, 0, datalen);
    ghost var goal := Check(Wanted(rest), res, 0);
    while at < datalen && ReadMsg(buffer, at).Found? && at + LenAt(buffer, at) <= datalen
      invariant j <= |res| && rest == Walk(buffer, at, datalen) && Check(Wanted(rest), res, j) == goal
      decreases datalen - at
    {
      var msg := ReadMsg(buffer, at).m;
      ghost var next, rest' := WalkStep(buffer, at, datalen);
      WantedCons(msg, rest');
      if HasFlag(msg.flags, NLM_F_ACK) {
        CheckCons(msg.seqno, Wanted(rest'), res, j);
        j := FindReply(res, j, msg.seqno);
        if j < |res| && res[j].error != 0 {
          return Refused(-res[j].error);
        }
        if j == |res| {
          return Missing(msg.seqno);
        }
      } else {
        assert [] + Wanted(rest') == Wanted(rest');
      }
      at := at + Align(LenAt(buffer, at));
      assert at == next;
      rest := rest';
    }
    v := Acked;
  }

  method FindReply(res: seq<Reply>, from: nat, seqno: nat) returns (j: nat)
    requires from <= |res|
    ensures j == Scan(res, from, seqno)
  {
    j := from;
    while j < |res| && res[j].error == 0 && res[j].seqno != seqno
      invariant from <= j <= |res| && Scan(res, j, seqno) == Scan(res, from, seqno)
    {
      j := j + 1;
    }
  }

  lemma CheckCons(seqno: nat, wanted: seq<nat>, res: seq<Reply>, j: nat)
    requires j <= |res|
    ensures var k := Scan(res, j, seqno);
      Check([seqno] + wanted, res, j) ==
        if k == |res| then Missing(seqno)
        else if res[k].error != 0 then Refused(-res[k].error)
        else Check(wanted, res, k)
  {
  }
}