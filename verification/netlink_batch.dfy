/**
 Whole batches: any sequence of message and attribute additions on an idle context, and
 what tst_netlink_send puts on the wire for it.
 */
module NetlinkBatch {
  import opened NetlinkWire
  import opened NetlinkBuilder
  import opened NetlinkMessages
  import Attrs = NetlinkAttrs

  datatype Op =
    | Message(h: Header, payload: seq<byte>, moved: bool)
    | Attribute(ty: nat, data: Data)
    | List(list: NetlinkWire.Attrs)

  function Step(c: Ctx, op: Op): Outcome {
    match op
    case Message(h, payload, moved) => AddMessage(c, moved, h, payload)
    case Attribute(ty, data) => AddAttr(c, Align(c.datalen), ty, data)
    case List(l) =>
      var r := Attrs.AddList(AddAttr, c, l);
      if r.ret < 0 then Failed else Done(r.c)
  }

  function Run(c: Ctx, ops: seq<Op>): Outcome {
    if ops == [] then Done(c)
    else
      var o := Run(c, ops[..|ops| - 1]);
      if o.Failed? then o else Step(o.c, ops[|ops| - 1])
  }

  /** The arguments fit their C types, and the data stays below the limit. */
  predicate Admits(c: Ctx, op: Op) {
    match op
    case Message(h, payload, _) => h.ty < U16 && h.flags < U16 && Align(c.datalen) + HDRLEN + |payload| < LIMIT
    case Attribute(ty, data) => ty < U16 && Align(c.datalen) + NLA_HDRLEN + |data| < LIMIT
    case List(l) => NetlinkWire.Typed(l) && Attrs.Space(Align(c.datalen), l)
  }

  ghost predicate AdmitsAll(c: Ctx, ops: seq<Op>) {
    ops != [] ==>
      var front := ops[..|ops| - 1];
      AdmitsAll(c, front) && (Run(c, front).Done? ==> Admits(Run(c, front).c, ops[|ops| - 1]))
  }

  /** The messages among the operations. */
  function Heads(ops: seq<Op>): (r: seq<Op>)
    ensures forall i :: 0 <= i < |r| ==> r[i].Message?
  {
    if ops == [] then []
    else
      var front, last := Heads(ops[..|ops| - 1]), ops[|ops| - 1];
      if last.Message? then front + [last] else front
  }

  /** Sequence numbers count up on 32 bits. */
  function SeqNo(first: nat, i: nat): nat {
    if i == 0 then first else Next(SeqNo(first, i - 1))
  }

  lemma {:induction false} SeqNoMod(first: nat, i: nat)
    requires first < U32
    ensures SeqNo(first, i) == (first + i) % U32
  {
    if i > 0 {
      SeqNoMod(first, i - 1);
      NextMod(first + i - 1);
    }
  }

  lemma NextMod(n: nat)
    ensures Next(n % U32) == (n + 1) % U32
  {
  }

  /** A message as its operation asked for it, with attributes behind the payload. */
  ghost predicate Comes(m: Msg, op: Op, multi: bool, seqno: nat, pid: nat) {
    && op.Message? && m.ty == op.h.ty && m.flags == (if multi then WithMulti(op.h.flags) else op.h.flags)
    && m.seqno == seqno && m.pid == pid && op.payload <= m.body
  }

  ghost predicate Matches(msgs: seq<Msg>, heads: seq<Op>, first: nat, pid: nat) {
    |msgs| == |heads| &&
    forall i :: 0 <= i < |msgs| ==> Comes(msgs[i], heads[i], |heads| > 1, SeqNo(first, i), pid)
  }

  // ----- What every operation keeps -----

  lemma MsgGrown(b: seq<byte>, b': seq<byte>, off: nat, m: Msg, at: nat, end: nat) returns (m': Msg)
    requires MsgAt(b, off, m) && Keeps(b, b', off, at) && off + HDRLEN + |m.body| <= at
    requires off + HDRLEN + |m.body| <= end <= |b'| && LenAt(b', off) == end - off
    ensures MsgAt(b', off, m') && m' == m.(body := m'.body) && m.body <= m'.body && |m'.body| == end - off - HDRLEN
  {
    MsgAtLen(b, off, m);
    m' := m.(body := b'[off + HDRLEN..end]);
    KeepsSlice(b, b', off, at, off + 4, off + 6);
    KeepsSlice(b, b', off, at, off + 6, off + 8);
    KeepsSlice(b, b', off, at, off + 8, off + 12);
    KeepsSlice(b, b', off, at, off + 12, off + 16);
    KeepsSlice(b, b', off, at, off + HDRLEN, off + HDRLEN + |m.body|);
  }

  lemma FrontKept(b: seq<byte>, b': seq<byte>, front: seq<Msg>, off: nat, at: nat)
    requires Laid(b, front) && off == Span(front) <= at && Keeps(b, b', off, at)
    ensures Laid(b', front)
  {
    KeepsSlice(b, b', off, at, 0, off);
    assert b'[..off] == b'[0..off] && b[..off] == b[0..off];
    LaidKept(b, b', front, off);
  }

  /** Adding attributes extends the body of the last message and nothing else. */
  lemma GrownBuilt(c: Ctx, c': Ctx, front: seq<Msg>, last: Msg, at: nat) returns (last': Msg)
    requires Built(c, front, last) && Cursor(c') && Extends(c, c', at) && c.datalen <= at && c.datalen <= c'.datalen
    ensures Built(c', front, last') && last' == last.(body := last'.body) && last.body <= last'.body
  {
    FrontKept(c.buf, c'.buf, front, c.cur.off, at);
    last' := MsgGrown(c.buf, c'.buf, c.cur.off, last, at, c'.datalen);
  }

  /** A batch begun on `c0`, with the messages it holds so far. */
  ghost predicate Stage(c0: Ctx, c: Ctx, front: seq<Msg>, last: Msg, heads: seq<Op>) {
    && Built(c, front, last) && Matches(front + [last], heads, c0.seqno, c0.pid)
    && c.seqno == SeqNo(c0.seqno, |heads|) && c.pid == c0.pid
  }

  lemma StageFirst(c0: Ctx, op: Op, c: Ctx) returns (m: Msg)
    requires Idle(c0) && c0.seqno < U32 && c0.pid < U32 && op.Message? && Admits(c0, op) && Step(c0, op) == Done(c)
    ensures Stage(c0, c, [], m, [op]) && m.body == op.payload
  {
    var at := Align(c0.datalen);
    AlignBelow(c0.datalen, |c0.buf|);
    var size := Align(HDRLEN + |op.payload|);
    var buf := GrowBuf(c0.buf, at, size);
    m := Msg(op.h.ty, op.h.flags, c0.seqno, c0.pid, op.payload);
    AddMessageFirst(c0, op.moved, op.h, op.payload, at, size, buf);
    FirstBuilt(buf, m);
    assert SeqNo(c0.seqno, 1) == Next(SeqNo(c0.seqno, 0));
    assert [] + [m] == [m];
  }

  lemma {:induction false} SeqNoBound(first: nat, i: nat)
    requires first < U32
    ensures SeqNo(first, i) < U32
  {
  }

  lemma MatchesNext(front: seq<Msg>, last: Msg, m: Msg, heads: seq<Op>, op: Op, first: nat, pid: nat)
    requires Matches(front + [last], heads, first, pid) && Comes(m, op, true, SeqNo(first, |heads|), pid)
    ensures Matches(front + [Flagged(last)] + [m], heads + [op], first, pid)
  {
  }

  lemma MatchesGrown(front: seq<Msg>, last: Msg, last': Msg, heads: seq<Op>, first: nat, pid: nat)
    requires Matches(front + [last], heads, first, pid) && last' == last.(body := last'.body) && last.body <= last'.body
    ensures Matches(front + [last'], heads, first, pid)
  {
  }

  /** Adding to a batch that has begun never fails and flags the last message. */
  lemma MessageBuilt(c: Ctx, front: seq<Msg>, last: Msg, moved: bool, h: Header, payload: seq<byte>)
    returns (c': Ctx, m: Msg)
    requires Built(c, front, last) && c.seqno < U32 && c.pid < U32 && Admits(c, Message(h, payload, moved))
    ensures AddMessage(c, moved, h, payload) == Done(c') && Built(c', front + [Flagged(last)], m)
    ensures m == Msg(h.ty, WithMulti(h.flags), c.seqno, c.pid, payload) && c'.seqno == Next(c.seqno) && c'.pid == c.pid
  {
    var at := Align(c.datalen);
    BuiltCursor(c, front, last);
    AlignBelow(c.datalen, |c.buf|);
    var size := Align(HDRLEN + |payload|);
    var buf := GrowBuf(c.buf, at, size);
    m := Msg(h.ty, WithMulti(h.flags), c.seqno, c.pid, payload);
    AddMessageNext(c, moved, h, payload, at, size, buf);
    c' := NextBuilt(c, front, last, buf, at, m);
  }

  lemma StageNext(c0: Ctx, c: Ctx, front: seq<Msg>, last: Msg, heads: seq<Op>, op: Op) returns (c': Ctx, m: Msg)
    requires Stage(c0, c, front, last, heads) && c0.seqno < U32 && c0.pid < U32 && op.Message? && Admits(c, op)
    ensures Step(c, op) == Done(c') && Stage(c0, c', front + [Flagged(last)], m, heads + [op]) && m.body == op.payload
  {
    SeqNoBound(c0.seqno, |heads|);
    c', m := MessageBuilt(c, front, last, op.moved, op.h, op.payload);
    MatchesNext(front, last, m, heads, op, c0.seqno, c0.pid);
  }

  /** An attribute or a list of attributes goes into the last message. */
  lemma StageAttrs(c0: Ctx, c: Ctx, front: seq<Msg>, last: Msg, heads: seq<Op>, op: Op, c': Ctx) returns (last': Msg)
    requires Stage(c0, c, front, last, heads) && !op.Message? && Admits(c, op) && Step(c, op) == Done(c')
    ensures Stage(c0, c', front, last', heads) && last.body <= last'.body
  {
    var at := Align(c.datalen);
    BuiltCursor(c, front, last);
    Attrs.CursorPlaced(c);
    if op.Attribute? {
      AddAttrEffect(c, at, op.ty, op.data);
    } else {
      Attrs.AddAttrAdds();
      Attrs.ListGrows(AddAttr, c, at, op.list);
    }
    last' := GrownBuilt(c, c', front, last, at);
    MatchesGrown(front, last, last', heads, c0.seqno, c0.pid);
  }

  /** Without a message nothing is ever added. */
  lemma {:induction false} NoHeads(c0: Ctx, ops: seq<Op>)
    requires Idle(c0) && Heads(ops) == [] && Run(c0, ops).Done?
    ensures Run(c0, ops) == Done(c0)
  {
    if ops != [] {
      NoHeads(c0, ops[..|ops| - 1]);
      var op := ops[|ops| - 1];
      if op.List? && op.list.Item? {
        assert Attrs.AddItem(AddAttr, c0, Align(c0.datalen), op.list).ret == -1;
      }
    }
  }

  /** After any operations the context holds exactly the messages asked for. */
  lemma {:induction false} Batch(c0: Ctx, ops: seq<Op>, c: Ctx) returns (front: seq<Msg>, last: Msg)
    requires Idle(c0) && c0.seqno < U32 && c0.pid < U32 && AdmitsAll(c0, ops)
    requires Heads(ops) != [] && Run(c0, ops) == Done(c)
    ensures Stage(c0, c, front, last, Heads(ops))
    decreases |ops|
  {
    var front', op := ops[..|ops| - 1], ops[|ops| - 1];
    var c1 := Run(c0, front').c;
    if Heads(front') == [] {
      NoHeads(c0, front');
      front := [];
      last := StageFirst(c0, op, c);
      assert Heads(ops) == [op];
    } else {
      front, last := Batch(c0, front', c1);
      if op.Message? {
        var c', m := StageNext(c0, c1, front, last, Heads(front'), op);
        front, last := front + [Flagged(last)], m;
      } else {
        last := StageAttrs(c0, c1, front, last, Heads(front'), op, c);
      }
    }
  }

  /**
   The builder invariant, over every run: the current message starts at a multiple of 4
   and ends the data, and walking the buffer visits exactly the messages added, in order,
   with their types, consecutive sequence numbers and payloads, flagged NLM_F_MULTI if
   and only if there is more than one or the caller said so.
   */
  lemma BatchInvariant(c0: Ctx, ops: seq<Op>)
    requires Idle(c0) && c0.seqno < U32 && c0.pid < U32 && AdmitsAll(c0, ops)
    requires Heads(ops) != [] && Run(c0, ops).Done?
    ensures var c := Run(c0, ops).c;
      && Cursor(c) && c.pid == c0.pid && c.seqno == SeqNo(c0.seqno, |Heads(ops)|)
      && Matches(Walk(c.buf, 0, c.datalen), Heads(ops), c0.seqno, c0.pid)
  {
    var c := Run(c0, ops).c;
    var front, last := Batch(c0, ops, c);
    BuiltCursor(c, front, last);
    MsgAtLen(c.buf, Span(front), last);
    WalkAll(c.buf, front, last, c.datalen);
  }

  /** On its own, too, adding a message leaves one that ends the data. */
  lemma MessageCursor(c: Ctx, moved: bool, h: Header, payload: seq<byte>)
    requires (Idle(c) || Cursor(c)) && c.seqno < U32 && c.pid < U32 && Admits(c, Message(h, payload, moved))
    ensures var o := AddMessage(c, moved, h, payload);
      o.Done? ==> Cursor(o.c) && o.c.seqno < U32 && o.c.pid == c.pid
  {
    var at, size := Align(c.datalen), Align(HDRLEN + |payload|);
    AlignBelow(c.datalen, |c.buf|);
    AlignMod(c.datalen);
    var buf := GrowBuf(c.buf, at, size);
    if c.cur.Null? {
      var m := Msg(h.ty, h.flags, c.seqno, c.pid, payload);
      AddMessageFirst(c, moved, h, payload, at, size, buf);
      MsgWritten(buf, 0, m);
      MsgAtLen(MsgBytes(buf, 0, m), 0, m);
    } else {
      var m := Msg(h.ty, WithMulti(h.flags), c.seqno, c.pid, payload);
      var off := c.cur.off;
      AddMessageNext(c, moved, h, payload, at, size, buf);
      LenKept(c.buf, buf, off, c.datalen);
      AddNextIs(buf, off, at, m);
      MsgWritten(FlagBytes(buf, off), at, m);
      MsgAtLen(MsgBytes(FlagBytes(buf, off), at, m), at, m);
    }
  }

  // ----- Where adding a message goes wrong -----

  /** The buffer has no room for the message behind what is in it. */
  predicate Grows(c: Ctx, payload: seq<byte>) {
    |c.buf| < Align(c.datalen) + Align(HDRLEN + |payload|)
  }

  /**
   Adding a message fails if and only if there is no current message, the buffer has to
   grow and reallocation moves it: then the null pointer is moved along and followed.
   */
  lemma FaultsExactly(c: Ctx, moved: bool, h: Header, payload: seq<byte>)
    requires Idle(c) || Cursor(c)
    ensures AddMessage(c, moved, h, payload).Failed? <==> c.cur.Null? && Grows(c, payload) && moved
  {
    var at := Align(c.datalen);
    AlignBelow(c.datalen, |c.buf|);
    var buf := GrowBuf(c.buf, at, Align(HDRLEN + |payload|));
    if c.cur.At? {
      var off, len := c.cur.off, c.datalen - c.cur.off;
      assert c.buf[off..off + 4] == buf[..|c.buf|][off..off + 4] == buf[off..off + 4];
      AlignSum(off, len, c.datalen);
    }
  }

  /** A fresh context faults on the first payload above 1008 bytes, if it is moved. */
  lemma FirstMessageFault(h: Header, payload: seq<byte>, pid: nat)
    ensures AddMessage(Ctx(Zeros(1024), 0, Null, 0, pid), true, h, payload).Failed? <==> |payload| > 1008
  {
  }

  // ----- Sending -----

  datatype Sent = NotSent | Sent(c: Ctx, bytes: seq<byte>)

  /** The flags of the current message, the NLMSG_DONE, are cleared and the data goes out. */
  function SendDone(c: Ctx): Sent {
    if !c.cur.At? || c.cur.off + HDRLEN > |c.buf| || c.datalen > |c.buf| then NotSent
    else
      var buf := Put(c.buf, c.cur.off + 6, Put16(0));
      Sent(c.(buf := buf, cur := Null), buf[..c.datalen])
  }

  /** tst_netlink_send, for a sendmsg that takes all the data. */
  function Send(c: Ctx, moved: bool): Sent {
    if !c.cur.At? || c.cur.off + HDRLEN > |c.buf| || c.datalen > |c.buf| then NotSent
    else if !HasFlag(FlagsAt(c.buf, c.cur.off), NLM_F_MULTI) then Sent(c.(cur := Null), c.buf[..c.datalen])
    else
      var o := AddMessage(c, moved, Header(NLMSG_DONE, 0), []);
      if o.Failed? then NotSent else SendDone(o.c)
  }

  lemma SendIsDone(c: Ctx, moved: bool, c': Ctx)
    requires Cursor(c) && HasFlag(FlagsAt(c.buf, c.cur.off), NLM_F_MULTI)
    requires AddMessage(c, moved, Header(NLMSG_DONE, 0), []) == Done(c')
    ensures Send(c, moved) == SendDone(c')
  {
  }

  lemma SendDoneIs(c: Ctx, buf: seq<byte>)
    requires Cursor(c) && buf == Put(c.buf, c.cur.off + 6, Put16(0))
    ensures var c' := c.(buf := buf, cur := Null); Idle(c') && SendDone(c) == Sent(c', buf[..c.datalen])
  {
  }

  /** The bytes up to the end of the last message walk like the buffer. */
  lemma BytesWalk(b: seq<byte>, front: seq<Msg>, last: Msg, n: nat, bytes: seq<byte>)
    requires Laid(b, front) && MsgAt(b, Span(front), last) && n == Span(front) + HDRLEN + |last.body| <= |b|
    requires bytes == b[..n]
    ensures Walk(bytes, 0, n) == front + [last]
  {
    assert bytes[..n] == b[..n];
    LaidKept(b, bytes, front, n);
    MsgKept(b, bytes, Span(front), last, n);
    WalkAll(bytes, front, last, n);
  }

  /** A batch of one unflagged message goes out as it is. */
  lemma SendPlain(c: Ctx, front: seq<Msg>, last: Msg, moved: bool)
    requires Built(c, front, last) && !HasFlag(last.flags, NLM_F_MULTI)
    ensures var s := Send(c, moved);
      && s.Sent? && Idle(s.c) && s.c.datalen == |s.bytes| && s.c.seqno == c.seqno && s.c.pid == c.pid
      && Walk(s.bytes, 0, |s.bytes|) == front + [last]
  {
    MsgAtLen(c.buf, Span(front), last);
    BytesWalk(c.buf, front, last, c.datalen, c.buf[..c.datalen]);
  }

  lemma DoneWalk(c: Ctx, front: seq<Msg>, m: Msg, done: Msg)
    requires Built(c, front, m) && done == m.(flags := 0)
    ensures var s := SendDone(c);
      && s.Sent? && Idle(s.c) && s.c.datalen == |s.bytes| && s.c.seqno == c.seqno && s.c.pid == c.pid
      && Walk(s.bytes, 0, |s.bytes|) == front + [done]
  {
    var off := Span(front);
    MsgAtLen(c.buf, off, m);
    var buf := Put(c.buf, off + 6, Put16(0));
    FlagsWritten(c.buf, off, m, 0, buf);
    LaidKept(c.buf, buf, front, off);
    BytesWalk(buf, front, done, c.datalen, buf[..c.datalen]);
  }

  /** A flagged batch gets an unflagged NLMSG_DONE behind it. */
  lemma SendMulti(c: Ctx, front: seq<Msg>, last: Msg, moved: bool, done: Msg)
    requires Built(c, front, last) && HasFlag(last.flags, NLM_F_MULTI) && Align(c.datalen) + HDRLEN < LIMIT
    requires c.seqno < U32 && c.pid < U32 && done == Msg(NLMSG_DONE, 0, c.seqno, c.pid, [])
    ensures var s := Send(c, moved);
      && s.Sent? && Idle(s.c) && s.c.datalen == |s.bytes| && s.c.seqno == Next(c.seqno) && s.c.pid == c.pid
      && Walk(s.bytes, 0, |s.bytes|) == front + [last] + [done]
  {
    MsgAtLen(c.buf, Span(front), last);
    BuiltCursor(c, front, last);
    var c', m := MessageBuilt(c, front, last, moved, Header(NLMSG_DONE, 0), []);
    SendIsDone(c, moved, c');
    assert Flagged(last) == last;
    DoneWalk(c', front + [last], m, done);
  }

  /** What a batch looks like on the wire. */
  ghost predicate Framed(msgs: seq<Msg>, multi: bool, wire: seq<Msg>, seqno: nat, pid: nat) {
    if multi then
      && wire == msgs + [Msg(NLMSG_DONE, 0, seqno, pid, [])]
      && forall i :: 0 <= i < |msgs| ==> HasFlag(msgs[i].flags, NLM_F_MULTI)
    else |msgs| == 1 && wire == msgs && !HasFlag(msgs[0].flags, NLM_F_MULTI)
  }

  /**
   Framing, over every run: a batch of several messages, or of one the caller flagged,
   is sent with NLM_F_MULTI on all of them and an unflagged NLMSG_DONE behind them; any
   other batch is sent as it is.  The context is idle again.
   */
  lemma SendFrames(c0: Ctx, ops: seq<Op>, moved: bool)
    requires Idle(c0) && c0.seqno < U32 && c0.pid < U32 && AdmitsAll(c0, ops)
    requires Heads(ops) != [] && Run(c0, ops).Done? && Align(Run(c0, ops).c.datalen) + HDRLEN < LIMIT
    ensures var c, heads := Run(c0, ops).c, Heads(ops);
      var s, multi := Send(c, moved), |heads| > 1 || HasFlag(heads[0].h.flags, NLM_F_MULTI);
      && s.Sent? && Idle(s.c) && s.c.datalen == |s.bytes| && c.datalen <= |c.buf|
      && Framed(Walk(c.buf, 0, c.datalen), multi, Walk(s.bytes, 0, |s.bytes|), c.seqno, c.pid)
  {
    var c, heads := Run(c0, ops).c, Heads(ops);
    var front, last := Batch(c0, ops, c);
    var msgs := front + [last];
    MsgAtLen(c.buf, Span(front), last);
    WalkAll(c.buf, front, last, c.datalen);
    SeqNoBound(c0.seqno, |heads|);
    assert msgs[|front|] == last && Comes(last, heads[|front|], |heads| > 1, SeqNo(c0.seqno, |front|), c0.pid);
    if HasFlag(last.flags, NLM_F_MULTI) {
      SendMulti(c, front, last, moved, Msg(NLMSG_DONE, 0, c.seqno, c.pid, []));
    } else {
      SendPlain(c, front, last, moved);
    }
  }
}