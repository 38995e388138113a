/**
 What the messages of a batch contain: behind its payload, every message of a batch holds
 the attributes and lists added to it, in order.
 */
module NetlinkContents {
  import opened NetlinkWire
  import opened NetlinkBuilder
  import opened NetlinkMessages
  import opened NetlinkBatch
  import Attrs = NetlinkAttrs

  function Append(x: NetlinkWire.Attrs, y: NetlinkWire.Attrs): NetlinkWire.Attrs {
    if x.End? then y else Item(x.ty, x.data, x.sub, Append(x.rest, y))
  }

  lemma {:induction false} AppendEnd(x: NetlinkWire.Attrs)
    ensures Append(x, End) == x
  {
    if x.Item? {
      AppendEnd(x.rest);
    }
  }

  lemma {:induction false} AppendFits(x: NetlinkWire.Attrs, y: NetlinkWire.Attrs)
    requires Fits(x) && Fits(y) && NetlinkWire.Typed(x) && NetlinkWire.Typed(y)
    ensures Fits(Append(x, y)) && NetlinkWire.Typed(Append(x, y))
  {
    if x.Item? {
      AppendFits(x.rest, y);
    }
  }

  lemma AlignAfter(p: nat, n: nat)
    ensures Align(Align(p) + n) == Align(p) + Align(n)
  {
    AlignMod(p);
    AlignShift(Align(p), n);
  }

  lemma {:induction false} AppendLen(x: NetlinkWire.Attrs, y: NetlinkWire.Attrs, n: nat)
    requires x.Item? && y.Item? && n == ListLen(x)
    ensures ListLen(Append(x, y)) == Align(n) + ListLen(y)
    decreases x
  {
    var len := ItemLen(x);
    Measure(x, n, len);
    assert ItemLen(Append(x, y)) == len;
    if x.rest.Item? {
      AppendLen(x.rest, y, n - Align(len));
      AlignAfter(len, n - Align(len));
    }
  }

  /** Two lists, the second behind the padding of the first, are spelled as one. */
  lemma {:induction false} AppendAt(b: seq<byte>, at: nat, x: NetlinkWire.Attrs, n: nat, from: nat, y: NetlinkWire.Attrs)
    requires x.Item? && n == ListLen(x) && ListAt(b, at, x) && from == at + Align(n) && ListAt(b, from, y)
    ensures ListAt(b, at, Append(x, y))
    decreases x
  {
    var len := ItemLen(x);
    var skip := Align(len);
    Measure(x, n, len);
    if x.rest.Item? {
      AlignAfter(len, n - skip);
      AppendAt(b, at + skip, x.rest, n - skip, from, y);
    }
    Headed(b, at, x, skip, Append(x.rest, y));
  }

  /** An attribute before another rest. */
  lemma Headed(b: seq<byte>, at: nat, x: NetlinkWire.Attrs, skip: nat, rest: NetlinkWire.Attrs)
    requires x.Item? && ItemAt(b, at, x) && skip == Align(ItemLen(x)) && ListAt(b, at + skip, rest)
    ensures ListAt(b, at, Item(x.ty, x.data, x.sub, rest))
  {
    var l := Item(x.ty, x.data, x.sub, rest);
    assert ItemLen(l) == ItemLen(x);
    assert ItemAt(b, at, l);
  }

  // ----- One message -----

  /** The body is the payload, and behind its padding the list. */
  ghost predicate Carries(body: seq<byte>, payload: seq<byte>, l: NetlinkWire.Attrs) {
    && payload <= body && Fits(l) && NetlinkWire.Typed(l)
    && (l.End? ==> body == payload)
    && (l.Item? ==> |body| == Align(|payload|) + ListLen(l) && ListAt(body, Align(|payload|), l))
  }

  /** A list in a body that is continued by another one. */
  lemma Joined(body: seq<byte>, body': seq<byte>, at: nat, x: NetlinkWire.Attrs, n: nat, from: nat, y: NetlinkWire.Attrs)
    requires x.Item? && y.Item? && body <= body' && n == ListLen(x) && |body| == at + n && ListAt(body, at, x)
    requires from == at + Align(n) && |body'| == from + ListLen(y) && ListAt(body', from, y)
    ensures |body'| == at + ListLen(Append(x, y)) && ListAt(body', at, Append(x, y))
  {
    assert body'[at..at + n] == body[at..at + n];
    ListMoved(body, at, body', at, x, n);
    AppendAt(body', at, x, n, from, y);
    AppendLen(x, y, n);
  }

  lemma CarriesFirst(body: seq<byte>, payload: seq<byte>, at: nat, y: NetlinkWire.Attrs)
    requires payload <= body && y.Item? && Fits(y) && NetlinkWire.Typed(y) && at == Align(|payload|)
    requires |body| == at + ListLen(y) && ListAt(body, at, y)
    ensures Carries(body, payload, y)
  {
  }

  lemma CarriesJoined(body: seq<byte>, body': seq<byte>, payload: seq<byte>, at: nat, x: NetlinkWire.Attrs, n: nat,
                      y: NetlinkWire.Attrs, from: nat)
    requires payload <= body <= body' && x.Item? && y.Item? && Fits(x) && NetlinkWire.Typed(x)
    requires Fits(y) && NetlinkWire.Typed(y) && at == Align(|payload|) && n == ListLen(x)
    requires |body| == at + n && ListAt(body, at, x)
    requires from == at + Align(n) && |body'| == from + ListLen(y) && ListAt(body', from, y)
    ensures Carries(body', payload, Append(x, y))
  {
    AppendFits(x, y);
    Joined(body, body', at, x, n, from, y);
    CarriesFirst(body', payload, at, Append(x, y));
  }

  /** A list added behind what the message already holds. */
  lemma CarriesMore(body: seq<byte>, body': seq<byte>, payload: seq<byte>, x: NetlinkWire.Attrs, y: NetlinkWire.Attrs,
                    from: nat)
    requires Carries(body, payload, x) && y.Item? && Fits(y) && NetlinkWire.Typed(y) && from == Align(|body|)
    requires body <= body' && |body'| == from + ListLen(y) && ListAt(body', from, y)
    ensures Carries(body', payload, Append(x, y))
  {
    if x.Item? {
      AlignAfter(|payload|, ListLen(x));
      CarriesJoined(body, body', payload, Align(|payload|), x, ListLen(x), y, from);
    } else {
      CarriesFirst(body', payload, from, y);
    }
  }

  /** The list a message got from an operation that is no message. */
  function ListOf(op: Op): NetlinkWire.Attrs {
    match op
    case Message(_, _, _) => End
    case Attribute(ty, data) => Item(ty, data, NoSub, End)
    case List(l) => l
  }

  /** No attribute's own data makes its 16-bit length wrap. */
  predicate Intact(op: Op) {
    Attrs.NoWrap(ListOf(op))
  }

  /** An attribute alone is a list of one. */
  lemma AttributeIsList(c: Ctx, ty: nat, data: Data, c': Ctx)
    requires AddAttr(c, Align(c.datalen), ty, data) == Done(c')
    ensures Attrs.AddList(AddAttr, c, Item(ty, data, NoSub, End)) == Attrs.ListResult(c', 1)
  {
    var l := Item(ty, data, NoSub, End);
    assert Attrs.AddItem(AddAttr, c, Align(c.datalen), l) == Attrs.ListResult(c', 0);
    assert Attrs.AddList(AddAttr, c', End) == Attrs.ListResult(c', 0);
  }

  /** What an operation that is no message leaves behind. */
  lemma StepEffect(c: Ctx, op: Op, c': Ctx)
    requires Cursor(c) && !op.Message? && Intact(op) && Admits(c, op) && Step(c, op) == Done(c')
    ensures var l := ListOf(op); Fits(l) && NetlinkWire.Typed(l) && (l.End? ==> c' == c)
    ensures var at, l := Align(c.datalen), ListOf(op);
      l.Item? ==> c'.datalen == at + ListLen(l) && ListAt(c'.buf, at, l)
  {
    var at, l := Align(c.datalen), ListOf(op);
    if op.Attribute? {
      AttributeIsList(c, op.ty, op.data, c');
    }
    assert Attrs.AddList(AddAttr, c, l).c == c' && Attrs.AddList(AddAttr, c, l).ret >= 0;
    Attrs.AddAttrAdds();
    Attrs.ListEffect(AddAttr, c, at, l);
  }

  /** In the body the list stands behind the padding of what was there. */
  lemma Slid(b: seq<byte>, off: nat, from: nat, end: nat, body: seq<byte>, at: nat, l: NetlinkWire.Attrs, n: nat)
    requires from == off + at && from + n == end <= |b| && body == b[off..end] && n == ListLen(l) && ListAt(b, from, l)
    ensures |body| == at + n && ListAt(body, at, l)
  {
    SliceOfSlice(b, off, end - off, at, at + n);
    ListMoved(b, from, body, at, l, n);
  }

  lemma BuiltEnds(c: Ctx, front: seq<Msg>, last: Msg, off: nat)
    requires Built(c, front, last) && off == Span(front) + HDRLEN
    ensures Align(c.datalen) == off + Align(|last.body|)
  {
    BuiltEnd(c, front, last);
    AlignShift(HDRLEN, |last.body|);
  }

  lemma BuiltBody(c: Ctx, front: seq<Msg>, last: Msg, off: nat)
    requires Built(c, front, last) && off == Span(front) + HDRLEN
    ensures off <= c.datalen <= |c.buf| && last.body == c.buf[off..c.datalen]
  {
    MsgAtBody(c.buf, Span(front), last, c.datalen);
  }

  lemma SameBody(c: Ctx, front: seq<Msg>, last: Msg, last': Msg)
    requires Built(c, front, last) && Built(c, front, last')
    ensures last' == last
  {
  }

  /** What an attribute or a list does to the last message. */
  lemma LastCarries(c: Ctx, c': Ctx, front: seq<Msg>, last: Msg, last': Msg, op: Op, payload: seq<byte>,
                    x: NetlinkWire.Attrs)
    requires Built(c, front, last) && Built(c', front, last') && last.body <= last'.body
    requires !op.Message? && Intact(op) && Admits(c, op) && Step(c, op) == Done(c') && Carries(last.body, payload, x)
    ensures Carries(last'.body, payload, Append(x, ListOf(op)))
  {
    BuiltCursor(c, front, last);
    StepEffect(c, op, c');
    var l := ListOf(op);
    if l.Item? {
      var off, from, end := Span(front) + HDRLEN, Align(c.datalen), Align(|last.body|);
      BuiltEnds(c, front, last, off);
      BuiltBody(c', front, last', off);
      Slid(c'.buf, off, from, c'.datalen, last'.body, end, l, ListLen(l));
      CarriesMore(last.body, last'.body, payload, x, l, end);
    } else {
      SameBody(c, front, last, last');
      AppendEnd(x);
    }
  }

  // ----- Whole batches -----

  /** For every message, what was added to it. */
  function Lists(ops: seq<Op>): seq<NetlinkWire.Attrs> {
    if ops == [] then []
    else
      var before, op := Lists(ops[..|ops| - 1]), ops[|ops| - 1];
      if op.Message? then before + [End]
      else if before == [] then []
      else before[..|before| - 1] + [Append(before[|before| - 1], ListOf(op))]
  }

  lemma {:induction false} ListPerHead(ops: seq<Op>)
    ensures |Lists(ops)| == |Heads(ops)|
  {
    if ops != [] {
      ListPerHead(ops[..|ops| - 1]);
    }
  }

  ghost predicate AllCarry(msgs: seq<Msg>, heads: seq<Op>, lists: seq<NetlinkWire.Attrs>) {
    && |msgs| == |heads| == |lists|
    && forall i :: 0 <= i < |msgs| ==> heads[i].Message? && Carries(msgs[i].body, heads[i].payload, lists[i])
  }

  lemma CarryFirst(m: Msg, op: Op)
    requires op.Message? && m.body == op.payload
    ensures AllCarry([] + [m], [op], [End])
  {
  }

  lemma CarryNext(front: seq<Msg>, last: Msg, m: Msg, heads: seq<Op>, op: Op, lists: seq<NetlinkWire.Attrs>)
    requires AllCarry(front + [last], heads, lists) && op.Message? && m.body == op.payload
    ensures AllCarry(front + [Flagged(last)] + [m], heads + [op], lists + [End])
  {
    var msgs, msgs' := front + [last], front + [Flagged(last)] + [m];
    forall i | 0 <= i < |msgs'|
      ensures (heads + [op])[i].Message? && Carries(msgs'[i].body, (heads + [op])[i].payload, (lists + [End])[i])
    {
      assert i < |msgs| ==> msgs'[i].body == msgs[i].body;
    }
  }

  lemma CarryMore(front: seq<Msg>, last: Msg, last': Msg, heads: seq<Op>, lists: seq<NetlinkWire.Attrs>, n: nat,
                  l: NetlinkWire.Attrs)
    requires AllCarry(front + [last], heads, lists) && n == |front|
    requires heads[n].Message? && Carries(last'.body, heads[n].payload, l)
    ensures AllCarry(front + [last'], heads, lists[..n] + [l])
  {
    forall i | 0 <= i < n + 1
      ensures heads[i].Message? && Carries((front + [last'])[i].body, heads[i].payload, (lists[..n] + [l])[i])
    {
      assert i < n ==> (front + [last])[i] == (front + [last'])[i];
    }
  }

  /** After any operations every message carries its payload and what was added to it. */
  lemma {:induction false} BatchCarries(c0: Ctx, ops: seq<Op>, c: Ctx) returns (front: seq<Msg>, last: Msg)
    requires Idle(c0) && c0.seqno < U32 && c0.pid < U32 && AdmitsAll(c0, ops)
    requires Heads(ops) != [] && Run(c0, ops) == Done(c) && forall k :: 0 <= k < |ops| ==> Intact(ops[k])
    ensures Stage(c0, c, front, last, Heads(ops)) && AllCarry(front + [last], Heads(ops), Lists(ops))
    decreases |ops|
  {
    var front', op := ops[..|ops| - 1], ops[|ops| - 1];
    var c1 := Run(c0, front').c;
    ListPerHead(front');
    if Heads(front') == [] {
      NoHeads(c0, front');
      front := [];
      last := StageFirst(c0, op, c);
      CarryFirst(last, op);
      assert Heads(ops) == [op] && Lists(ops) == [End];
    } else {
      front, last := BatchCarries(c0, front', c1);
      if op.Message? {
        var c', m := StageNext(c0, c1, front, last, Heads(front'), op);
        CarryNext(front, last, m, Heads(front'), op, Lists(front'));
        front, last := front + [Flagged(last)], m;
      } else {
        last := MoreCarries(c0, c1, front, last, Heads(front'), Lists(front'), op, c);
      }
    }
  }

  lemma MoreCarries(c0: Ctx, c: Ctx, front: seq<Msg>, last: Msg, heads: seq<Op>, lists: seq<NetlinkWire.Attrs>,
                    op: Op, c': Ctx)
    returns (last': Msg)
    requires Stage(c0, c, front, last, heads) && AllCarry(front + [last], heads, lists)
    requires !op.Message? && Intact(op) && Admits(c, op) && Step(c, op) == Done(c')
    ensures Stage(c0, c', front, last', heads)
    ensures lists != [] && AllCarry(front + [last'], heads, lists[..|lists| - 1] + [Append(lists[|lists| - 1], ListOf(op))])
  {
    var n := |front|;
    assert (front + [last])[n] == last;
    last' := StageAttrs(c0, c, front, last, heads, op, c');
    LastCarries(c, c', front, last, last', op, heads[n].payload, lists[n]);
    CarryMore(front, last, last', heads, lists, n, Append(lists[n], ListOf(op)));
  }

  /** What a receiver finds behind the payload and its padding. */
  function Behind(body: seq<byte>, payload: seq<byte>): seq<byte> {
    if Align(|payload|) <= |body| then body[Align(|payload|)..] else []
  }

  lemma CarriedDecodes(body: seq<byte>, payload: seq<byte>, l: NetlinkWire.Attrs, pol: Policy)
    requires Carries(body, payload, l) && Conforms(l, [], pol)
    ensures Decode(Behind(body, payload), [], pol) == Good(l)
  {
    if l.Item? {
      DecodeSpelled(body, Align(|payload|), l, [], pol, body[Align(|payload|)..]);
    } else {
      assert Behind(body, payload) == [];
    }
  }

  /** Every message decodes to what was added to it, if the receiver knows what nests where. */
  ghost predicate Decodes(msgs: seq<Msg>, heads: seq<Op>, lists: seq<NetlinkWire.Attrs>, pol: Policy)
    requires forall i :: 0 <= i < |heads| ==> heads[i].Message?
  {
    && |msgs| >= |heads| == |lists|
    && forall i :: 0 <= i < |heads| && Conforms(lists[i], [], pol) ==>
         heads[i].payload <= msgs[i].body && Decode(Behind(msgs[i].body, heads[i].payload), [], pol) == Good(lists[i])
  }

  lemma AllDecode(msgs: seq<Msg>, heads: seq<Op>, lists: seq<NetlinkWire.Attrs>, pol: Policy)
    requires AllCarry(msgs, heads, lists)
    ensures Decodes(msgs, heads, lists, pol)
  {
    forall i | 0 <= i < |heads| && Conforms(lists[i], [], pol)
      ensures Decode(Behind(msgs[i].body, heads[i].payload), [], pol) == Good(lists[i])
    {
      CarriedDecodes(msgs[i].body, heads[i].payload, lists[i], pol);
    }
  }

  /**
   Over every run: decoding what stands behind the payload of each message, in the buffer
   and in the bytes sent, gives the attributes and lists added to that message.
   */
  lemma BatchContents(c0: Ctx, ops: seq<Op>, moved: bool, pol: Policy)
    requires Idle(c0) && c0.seqno < U32 && c0.pid < U32 && AdmitsAll(c0, ops)
    requires Heads(ops) != [] && Run(c0, ops).Done? && forall k :: 0 <= k < |ops| ==> Intact(ops[k])
    ensures var c := Run(c0, ops).c;
      c.datalen <= |c.buf| && Decodes(Walk(c.buf, 0, c.datalen), Heads(ops), Lists(ops), pol)
    ensures Align(Run(c0, ops).c.datalen) + HDRLEN < LIMIT ==>
      var s := Send(Run(c0, ops).c, moved);
      s.Sent? && Decodes(Walk(s.bytes, 0, |s.bytes|), Heads(ops), Lists(ops), pol)
  {
    var c := Run(c0, ops).c;
    var front, last := BatchCarries(c0, ops, c);
    MsgAtLen(c.buf, Span(front), last);
    WalkAll(c.buf, front, last, c.datalen);
    AllDecode(front + [last], Heads(ops), Lists(ops), pol);
    if Align(c.datalen) + HDRLEN < LIMIT {
      SendFrames(c0, ops, moved);
    }
  }
}
