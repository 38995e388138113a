/**
 Batches of messages: tst_netlink_add_message, the framing done by tst_netlink_send, and
 the walk over a buffer that tst_netlink_recv and tst_netlink_check_acks share.
 */
module NetlinkMessages {
  import opened NetlinkWire
  import opened NetlinkBuilder

  datatype Msg = Msg(ty: nat, flags: nat, seqno: nat, pid: nat, body: seq<byte>)

  /** Every field fits its place in nlmsghdr. */
  predicate Typed(m: Msg) {
    m.ty < U16 && m.flags < U16 && m.seqno < U32 && m.pid < U32 && HDRLEN + |m.body| < U32
  }

  function TypeAt(buf: seq<byte>, off: nat): nat
    requires off + HDRLEN <= |buf|
  {
    Get16(buf[off + 4..off + 6])
  }

  function SeqAt(buf: seq<byte>, off: nat): nat
    requires off + HDRLEN <= |buf|
  {
    Get32(buf[off + 8..off + 12])
  }

  function PidAt(buf: seq<byte>, off: nat): nat
    requires off + HDRLEN <= |buf|
  {
    Get32(buf[off + 12..off + 16])
  }

  datatype Found = Nothing | Found(m: Msg)

  /** NLMSG_OK: the message at `off`, if it is complete. */
  function ReadMsg(b: seq<byte>, off: nat): Found {
    if off + HDRLEN > |b| || LenAt(b, off) < HDRLEN || off + LenAt(b, off) > |b| then Nothing
    else Found(Msg(TypeAt(b, off), FlagsAt(b, off), SeqAt(b, off), PidAt(b, off),
                   b[off + HDRLEN..off + LenAt(b, off)]))
  }

  ghost predicate MsgAt(b: seq<byte>, off: nat, m: Msg) {
    ReadMsg(b, off) == Found(m)
  }

  lemma MsgAtLen(b: seq<byte>, off: nat, m: Msg)
    requires MsgAt(b, off, m)
    ensures off + HDRLEN + |m.body| <= |b| && LenAt(b, off) == HDRLEN + |m.body|
  {
  }

  lemma MsgAtBody(b: seq<byte>, off: nat, m: Msg, end: nat)
    requires MsgAt(b, off, m) && end == off + HDRLEN + |m.body|
    ensures end <= |b| && m.body == b[off + HDRLEN..end]
  {
  }

  // ----- The walk -----

  /** NLMSG_OK / NLMSG_NEXT over the bytes from `at` to `end`. */
  function Walk(b: seq<byte>, at: nat, end: nat): seq<Msg>
    requires end <= |b|
    decreases end - at
  {
    var found := ReadMsg(b, at);
    if found.Nothing? || at + HDRLEN + |found.m.body| > end then []
    else [found.m] + Walk(b, at + Align(HDRLEN + |found.m.body|), end)
  }

  /** How far the messages reach, the last one padded. */
  function Span(msgs: seq<Msg>): nat {
    if msgs == [] then 0 else Span(msgs[..|msgs| - 1]) + Align(HDRLEN + |msgs[|msgs| - 1].body|)
  }

  /** The messages stand one behind the other from the start of the buffer. */
  ghost predicate Laid(b: seq<byte>, msgs: seq<Msg>) {
    msgs != [] ==>
      var front := msgs[..|msgs| - 1]; Laid(b, front) && MsgAt(b, Span(front), msgs[|msgs| - 1])
  }

  lemma SpanSnoc(front: seq<Msg>, m: Msg)
    ensures Span(front + [m]) == Span(front) + Align(HDRLEN + |m.body|)
  {
  }

  lemma LaidSnoc(b: seq<byte>, front: seq<Msg>, m: Msg)
    ensures Laid(b, front + [m]) <==> Laid(b, front) && MsgAt(b, Span(front), m)
  {
  }

  lemma {:induction false} SpanAligned(msgs: seq<Msg>)
    ensures Span(msgs) % 4 == 0
  {
    if msgs != [] {
      SpanAligned(msgs[..|msgs| - 1]);
      AlignMod(HDRLEN + |msgs[|msgs| - 1].body|);
    }
  }

  lemma MsgKept(b: seq<byte>, b': seq<byte>, off: nat, m: Msg, n: nat)
    requires MsgAt(b, off, m) && n <= |b| && n <= |b'| && b[..n] == b'[..n] && off + HDRLEN + |m.body| <= n
    ensures MsgAt(b', off, m)
  {
    forall lo, hi | 0 <= lo <= hi <= n ensures b'[lo..hi] == b[lo..hi] {
      assert b'[lo..hi] == b'[..n][lo..hi];
      assert b[lo..hi] == b[..n][lo..hi];
    }
  }

  lemma {:induction false} LaidKept(b: seq<byte>, b': seq<byte>, msgs: seq<Msg>, n: nat)
    requires Laid(b, msgs) && n <= |b| && n <= |b'| && b[..n] == b'[..n] && Span(msgs) <= n
    ensures Laid(b', msgs)
  {
    if msgs != [] {
      var front, last := msgs[..|msgs| - 1], msgs[|msgs| - 1];
      LaidKept(b, b', front, n);
      MsgKept(b, b', Span(front), last, n);
    }
  }

  /** The walk from `at` on visits the messages. */
  ghost predicate Visits(b: seq<byte>, at: nat, end: nat, msgs: seq<Msg>) {
    end <= |b| && Walk(b, at, end) == msgs
  }

  lemma WalkOne(b: seq<byte>, at: nat, m: Msg, end: nat, rest: seq<Msg>)
    requires MsgAt(b, at, m) && at + HDRLEN + |m.body| <= end && Visits(b, at + Align(HDRLEN + |m.body|), end, rest)
    ensures Visits(b, at, end, [m] + rest)
  {
  }

  lemma LastFirst<T>(front: seq<T>, last: T, rest: seq<T>)
    ensures front + [last] + rest == front + ([last] + rest)
  {
  }

  lemma LaidLast(b: seq<byte>, msgs: seq<Msg>) returns (front: seq<Msg>, last: Msg, at: nat)
    requires Laid(b, msgs) && msgs != []
    ensures msgs == front + [last] && Laid(b, front) && at == Span(front) && MsgAt(b, at, last)
    ensures Span(msgs) == at + Align(HDRLEN + |last.body|)
  {
    front, last := msgs[..|msgs| - 1], msgs[|msgs| - 1];
    at := Span(front);
  }

  /** The walk visits the messages, and then whatever it finds behind them. */
  lemma {:induction false} WalkFront(b: seq<byte>, msgs: seq<Msg>, end: nat, rest: seq<Msg>)
    requires Laid(b, msgs) && Span(msgs) <= end && Visits(b, Span(msgs), end, rest)
    ensures Visits(b, 0, end, msgs + rest)
    decreases |msgs|
  {
    if msgs == [] {
      assert msgs + rest == rest;
    } else {
      var front, last, at := LaidLast(b, msgs);
      WalkOne(b, at, last, end, rest);
      WalkFront(b, front, end, [last] + rest);
      LastFirst(front, last, rest);
    }
  }

  /** Walking the buffer visits exactly the messages in it. */
  lemma WalkAll(b: seq<byte>, front: seq<Msg>, last: Msg, end: nat)
    requires Laid(b, front) && MsgAt(b, Span(front), last) && end == Span(front) + HDRLEN + |last.body|
    ensures Walk(b, 0, end) == front + [last]
  {
    assert Visits(b, Span(front) + Align(HDRLEN + |last.body|), end, []);
    WalkOne(b, Span(front), last, end, []);
    WalkFront(b, front, end, [last]);
  }

  // ----- Adding messages -----

  /** The buffer with a message written at `off`. */
  function MsgBytes(buf: seq<byte>, off: nat, m: Msg): (r: seq<byte>)
    requires off + HDRLEN + |m.body| <= |buf|
    ensures |r| == |buf|
  {
    Put(buf, off, HeaderBytes(HDRLEN + |m.body|, m.ty, m.flags, m.seqno, m.pid) + m.body)
  }

  /** ctx->seq++ on 32 bits */
  function Next(seqno: nat): nat {
    if seqno + 1 < U32 then seqno + 1 else 0
  }

  /** The first message of a batch. */
  function AddFirst(buf: seq<byte>, m: Msg): Ctx
    requires HDRLEN + |m.body| <= |buf|
  {
    Ctx(MsgBytes(buf, 0, m), HDRLEN + |m.body|, At(0), Next(m.seqno), m.pid)
  }

  /** The buffer with NLM_F_MULTI set in the message at `off`. */
  function FlagBytes(buf: seq<byte>, off: nat): (r: seq<byte>)
    requires off + HDRLEN <= |buf|
    ensures |r| == |buf|
  {
    Put(buf, off + 6, Put16(WithMulti(FlagsAt(buf, off))))
  }

  /** A further message, behind the current one. */
  function AddNext(buf: seq<byte>, off: nat, at: nat, m: Msg): Outcome {
    if off + HDRLEN > |buf| then Failed
    else
      var next := off + Align(LenAt(buf, off));
      if next + HDRLEN + |m.body| > |buf| then Failed
      else Done(Ctx(MsgBytes(FlagBytes(buf, off), next, m), at + HDRLEN + |m.body|, At(next), Next(m.seqno), m.pid))
  }

  /** tst_netlink_add_message; it fails only by following a null pointer that was moved. */
  function AddMessage(c: Ctx, moved: bool, h: Header, payload: seq<byte>): Outcome {
    var at := Align(c.datalen);
    if at > |c.buf| then Failed
    else
      var buf := GrowBuf(c.buf, at, Align(HDRLEN + |payload|));
      match GrowCur(c.cur, |buf| > |c.buf|, moved)
      case Wild => Failed
      case Null => Done(AddFirst(buf, Msg(h.ty, h.flags, c.seqno, c.pid, payload)))
      case At(off) => AddNext(buf, off, at, Msg(h.ty, WithMulti(h.flags), c.seqno, c.pid, payload))
  }

  /** With a current message, adding one grows the buffer and writes behind it. */
  lemma AddMessageNext(c: Ctx, moved: bool, h: Header, payload: seq<byte>, at: nat, size: nat, buf: seq<byte>)
    requires c.cur.At? && at == Align(c.datalen) <= |c.buf| && size == Align(HDRLEN + |payload|)
    requires buf == GrowBuf(c.buf, at, size)
    ensures AddMessage(c, moved, h, payload)
         == AddNext(buf, c.cur.off, at, Msg(h.ty, WithMulti(h.flags), c.seqno, c.pid, payload))
  {
  }

  /** Without one, it starts a batch, unless growing has moved the null pointer. */
  lemma AddMessageFirst(c: Ctx, moved: bool, h: Header, payload: seq<byte>, at: nat, size: nat, buf: seq<byte>)
    requires c.cur.Null? && at == Align(c.datalen) <= |c.buf| && size == Align(HDRLEN + |payload|)
    requires buf == GrowBuf(c.buf, at, size)
    ensures AddMessage(c, moved, h, payload) ==
      if |buf| > |c.buf| && moved then Failed
      else Done(AddFirst(buf, Msg(h.ty, h.flags, c.seqno, c.pid, payload)))
  {
  }

  // ----- What adding messages does -----

  lemma HeaderFields(b: seq<byte>, off: nat, m: Msg)
    requires Typed(m) && off + HDRLEN + |m.body| <= |b|
    requires b[off..off + HDRLEN] == HeaderBytes(HDRLEN + |m.body|, m.ty, m.flags, m.seqno, m.pid)
    requires b[off + HDRLEN..off + HDRLEN + |m.body|] == m.body
    ensures MsgAt(b, off, m)
  {
    var len, h := HDRLEN + |m.body|, b[off..off + HDRLEN];
    SliceOfSlice(b, off, HDRLEN, 0, 4);
    SliceOfSlice(b, off, HDRLEN, 4, 6);
    SliceOfSlice(b, off, HDRLEN, 6, 8);
    SliceOfSlice(b, off, HDRLEN, 8, 12);
    SliceOfSlice(b, off, HDRLEN, 12, 16);
    FieldSlices(Put32(len), Put16(m.ty), Put16(m.flags), Put32(m.seqno), Put32(m.pid), h);
    Get32Put32(len);
    Get16Put16(m.ty);
    Get16Put16(m.flags);
    Get32Put32(m.seqno);
    Get32Put32(m.pid);
  }

  lemma FieldSlices(a: seq<byte>, b: seq<byte>, c: seq<byte>, d: seq<byte>, e: seq<byte>, h: seq<byte>)
    requires |a| == 4 && |b| == 2 && |c| == 2 && |d| == 4 && |e| == 4 && h == a + b + c + d + e
    ensures h[0..4] == a && h[4..6] == b && h[6..8] == c && h[8..12] == d && h[12..16] == e
  {
  }

  lemma MsgWritten(buf: seq<byte>, off: nat, m: Msg)
    requires Typed(m) && off + HDRLEN + |m.body| <= |buf|
    ensures MsgAt(MsgBytes(buf, off, m), off, m) && MsgBytes(buf, off, m)[..off] == buf[..off]
  {
    var head := HeaderBytes(HDRLEN + |m.body|, m.ty, m.flags, m.seqno, m.pid);
    WrittenSlices(buf, off, head, m.body, MsgBytes(buf, off, m));
    HeaderFields(MsgBytes(buf, off, m), off, m);
  }

  lemma WrittenSlices(buf: seq<byte>, off: nat, head: seq<byte>, body: seq<byte>, r: seq<byte>)
    requires |head| == HDRLEN && off + HDRLEN + |body| <= |buf| && r == Put(buf, off, head + body)
    ensures r[..off] == buf[..off] && r[off..off + HDRLEN] == head
    ensures r[off + HDRLEN..off + HDRLEN + |body|] == body
  {
  }

  /** The context holds the messages, and the last of them is the current one. */
  ghost predicate Built(c: Ctx, front: seq<Msg>, last: Msg) {
    && c.cur == At(Span(front)) && Laid(c.buf, front) && MsgAt(c.buf, Span(front), last)
    && c.datalen == Span(front) + HDRLEN + |last.body| < LIMIT && |c.buf| % 4 == 0
  }

  lemma BuiltCursor(c: Ctx, front: seq<Msg>, last: Msg)
    requires Built(c, front, last)
    ensures Cursor(c)
  {
    SpanAligned(front);
  }

  lemma FirstBuilt(buf: seq<byte>, m: Msg)
    requires Typed(m) && HDRLEN + |m.body| <= |buf| && |buf| % 4 == 0 && HDRLEN + |m.body| < LIMIT
    ensures Built(AddFirst(buf, m), [], m)
  {
    MsgWritten(buf, 0, m);
  }

  /** The flags of a message set to `f`. */
  lemma FlagsWritten(b: seq<byte>, off: nat, m: Msg, f: nat, b': seq<byte>)
    requires MsgAt(b, off, m) && f < U16 && b' == Put(b, off + 6, Put16(f))
    ensures MsgAt(b', off, m.(flags := f)) && b'[..off] == b[..off]
  {
    MsgAtLen(b, off, m);
    Get16Put16(f);
    PutThere(b, off + 6, Put16(f));
    PutOther(b, off + 6, Put16(f), 0, off);
    PutOther(b, off + 6, Put16(f), off, off + 4);
    PutOther(b, off + 6, Put16(f), off + 4, off + 6);
    PutOther(b, off + 6, Put16(f), off + 8, off + 12);
    PutOther(b, off + 6, Put16(f), off + 12, off + 16);
    PutOther(b, off + 6, Put16(f), off + HDRLEN, off + HDRLEN + |m.body|);
  }

  /** The last message, behind those in front, survives as one of the front. */
  lemma LaidNext(b: seq<byte>, b': seq<byte>, front: seq<Msg>, last: Msg, next: nat)
    requires Laid(b, front) && MsgAt(b, Span(front), last)
    requires next == Span(front) + Align(HDRLEN + |last.body|) <= |b| && next <= |b'| && b'[..next] == b[..next]
    ensures Laid(b', front + [last]) && Span(front + [last]) == next
  {
    LaidKept(b, b', front, next);
    MsgKept(b, b', Span(front), last, next);
    LaidSnoc(b', front, last);
    SpanSnoc(front, last);
  }

  function Flagged(m: Msg): Msg {
    m.(flags := WithMulti(m.flags))
  }

  /** Setting the flag in the last message. */
  lemma FlaggedLaid(buf: seq<byte>, front: seq<Msg>, last: Msg, off: nat)
    requires Laid(buf, front) && MsgAt(buf, off, last) && off == Span(front)
    ensures var r := FlagBytes(buf, off); Laid(r, front) && MsgAt(r, off, Flagged(last))
  {
    var r := FlagBytes(buf, off);
    FlagsWritten(buf, off, last, WithMulti(last.flags), r);
    LaidKept(buf, r, front, off);
  }

  /** Writing a message behind the last one. */
  lemma WriteNext(buf: seq<byte>, front: seq<Msg>, last: Msg, at: nat, m: Msg)
    requires Laid(buf, front) && MsgAt(buf, Span(front), last) && at == Span(front) + Align(HDRLEN + |last.body|)
    requires at + HDRLEN + |m.body| <= |buf| && Typed(m)
    ensures var r := MsgBytes(buf, at, m);
      Laid(r, front + [last]) && Span(front + [last]) == at && MsgAt(r, at, m)
  {
    MsgWritten(buf, at, m);
    LaidNext(buf, MsgBytes(buf, at, m), front, last, at);
  }

  lemma BuiltEnd(c: Ctx, front: seq<Msg>, last: Msg)
    requires Built(c, front, last)
    ensures Align(c.datalen) == Span(front) + Align(HDRLEN + |last.body|)
  {
    SpanAligned(front);
    AlignSum(Span(front), HDRLEN + |last.body|, c.datalen);
  }

  /** Growing keeps the length of the current message, and that places the next attribute. */
  lemma LenKept(b: seq<byte>, b': seq<byte>, off: nat, datalen: nat)
    requires off + HDRLEN <= datalen <= |b| <= |b'| && b'[..|b|] == b && off % 4 == 0
    requires LenAt(b, off) == datalen - off
    ensures LenAt(b', off) == datalen - off && off + Align(LenAt(b', off)) == Align(datalen)
  {
    assert b[off..off + 4] == b'[..|b|][off..off + 4] == b'[off..off + 4];
    AlignSum(off, datalen - off, datalen);
  }

  lemma AlignSum(off: nat, n: nat, sum: nat)
    requires off % 4 == 0 && sum == off + n
    ensures Align(sum) == off + Align(n)
  {
  }

  lemma AddNextIs(buf: seq<byte>, off: nat, at: nat, m: Msg)
    requires off + HDRLEN <= |buf| && at == off + Align(LenAt(buf, off)) && at + HDRLEN + |m.body| <= |buf|
    ensures AddNext(buf, off, at, m)
         == Done(Ctx(MsgBytes(FlagBytes(buf, off), at, m), at + HDRLEN + |m.body|, At(at), Next(m.seqno), m.pid))
  {
  }

  lemma NextBytes(buf: seq<byte>, front: seq<Msg>, last: Msg, off: nat, at: nat, m: Msg) returns (r: seq<byte>)
    requires Laid(buf, front) && off == Span(front) && MsgAt(buf, off, last) && at == off + Align(HDRLEN + |last.body|)
    requires at + HDRLEN + |m.body| <= |buf| && Typed(m)
    ensures AddNext(buf, off, at, m) == Done(Ctx(r, at + HDRLEN + |m.body|, At(at), Next(m.seqno), m.pid))
    ensures Laid(r, front + [Flagged(last)]) && Span(front + [Flagged(last)]) == at && MsgAt(r, at, m) && |r| == |buf|
  {
    MsgAtLen(buf, off, last);
    AddNextIs(buf, off, at, m);
    FlaggedLaid(buf, front, last, off);
    var flagged := FlagBytes(buf, off);
    WriteNext(flagged, front, Flagged(last), at, m);
    r := MsgBytes(flagged, at, m);
  }

  lemma NextBuilt(c: Ctx, front: seq<Msg>, last: Msg, buf: seq<byte>, at: nat, m: Msg) returns (c': Ctx)
    requires Built(c, front, last) && |c.buf| <= |buf| && buf[..|c.buf|] == c.buf && |buf| % 4 == 0
    requires at == Align(c.datalen) && at + HDRLEN + |m.body| <= |buf| && at + HDRLEN + |m.body| < LIMIT && Typed(m)
    ensures AddNext(buf, c.cur.off, at, m) == Done(c') && Built(c', front + [Flagged(last)], m)
    ensures c'.seqno == Next(m.seqno) && c'.pid == m.pid
  {
    BuiltEnd(c, front, last);
    KeptByGrowth(c, front, last, buf);
    var r := NextBytes(buf, front, last, c.cur.off, at, m);
    c' := Ctx(r, at + HDRLEN + |m.body|, At(at), Next(m.seqno), m.pid);
  }

  lemma KeptByGrowth(c: Ctx, front: seq<Msg>, last: Msg, buf: seq<byte>)
    requires Built(c, front, last) && |c.buf| <= |buf| && buf[..|c.buf|] == c.buf
    ensures Laid(buf, front) && MsgAt(buf, Span(front), last)
  {
    assert c.buf[..|c.buf|] == c.buf;
    LaidKept(c.buf, buf, front, |c.buf|);
    MsgKept(c.buf, buf, Span(front), last, |c.buf|);
  }
}
