/**
 The context as the library has it: a buffer that is written in place and replaced when it
 grows.  Every method is tied to the operation on values it carries out.
 */
module NetlinkContext {
  import opened NetlinkWire
  import opened NetlinkBuilder
  import opened NetlinkMessages
  import Attrs = NetlinkAttrs
  import Batch = NetlinkBatch

  const INITIAL_SIZE := 1024

  class Context {
    var buffer: array<byte>
    var datalen: nat
    var curmsg: Cur
    var seqno: nat
    const pid: nat

    ghost function View(): (c: Ctx)
      reads this, buffer
    {
      Ctx(buffer[..], datalen, curmsg, seqno, pid)
    }

    /** What every operation keeps: no message yet, or one that ends the data. */
    ghost predicate Valid()
      reads this, buffer
    {
      (Idle(View()) || Cursor(View())) && seqno < U32 && pid < U32
    }

    constructor (pid: nat)
      requires pid < U32
      ensures Valid() && fresh(buffer) && View() == Ctx(Zeros(INITIAL_SIZE), 0, Null, 0, pid)
    {
      buffer := new byte[INITIAL_SIZE](_ => 0);
      datalen, curmsg, seqno, this.pid := 0, Null, 0, pid;
      new;
      assert buffer[..] == Zeros(INITIAL_SIZE);
    }

    /** memcpy into the buffer */
    method Write(at: nat, bytes: seq<byte>)
      requires at + |bytes| <= buffer.Length
      modifies buffer
      ensures buffer[..] == Put(old(buffer[..]), at, bytes)
    {
      ghost var b := buffer[..];
      for i := 0 to |bytes|
        invariant forall j :: 0 <= j < buffer.Length ==>
          buffer[j] == if at <= j < at + i then bytes[j - at] else b[j]
      {
        buffer[at + i] := bytes[i];
      }
      PutAt(b, at, bytes);
      assert buffer[..] == Put(b, at, bytes);
    }

    /** netlink_grow_buffer; `moved` tells whether reallocation moved the buffer. */
    method GrowBuffer(size: nat, moved: bool)
      requires Align(datalen) <= buffer.Length
      modifies this`buffer, this`curmsg
      ensures buffer[..] == GrowBuf(old(buffer[..]), Align(datalen), size)
      ensures curmsg == GrowCur(old(curmsg), buffer.Length > old(buffer.Length), moved)
      ensures buffer == old(buffer) || fresh(buffer)
    {
      var curlen := Align(datalen);
      if buffer.Length - curlen >= size {
        return;
      }
      var needed := size - (buffer.Length - curlen);
      var newSize := Align(buffer.Length + if buffer.Length > needed then buffer.Length else needed);
      var b := buffer[..];
      var buf := new byte[newSize](i requires 0 <= i => if i < |b| then b[i] else 0);
      assert buf[..] == b + Zeros(newSize - |b|);
      if curmsg.Null? && moved {
        curmsg := Wild;
      }
      buffer := buf;
    }

    /** Writes an attribute and the new length of its message. */
    method WriteAttr(off: nat, at: nat, len: nat, ty: nat, data: seq<byte>)
      requires off + HDRLEN <= at && at + NLA_HDRLEN + |data| <= buffer.Length
      modifies buffer
      ensures buffer[..] == AttrBytes(old(buffer[..]), off, at, len, ty, data)
    {
      ghost var b := buffer[..];
      Write(at, Put16(len) + Put16(ty));
      ghost var headed := buffer[..];
      Write(at + NLA_HDRLEN, data);
      ghost var filled := buffer[..];
      Write(off, Put32(at - off + len));
      AttrBytesAre(b, headed, filled, buffer[..], off, at, len, ty, data);
    }

    /** Makes room in the current message; its length tells where the room begins. */
    method MakeRoom(size: nat, moved: bool) returns (at: nat)
      requires Cursor(View())
      modifies this`buffer, this`curmsg
      ensures at == Align(datalen) <= old(buffer.Length) && buffer[..] == GrowBuf(old(buffer[..]), at, size)
      ensures curmsg == old(curmsg) && (buffer == old(buffer) || fresh(buffer))
    {
      ghost var b := buffer[..];
      AlignBelow(datalen, buffer.Length);
      GrowBuffer(size, moved);
      LenKept(b, buffer[..], curmsg.off, datalen);
      at := curmsg.off + Align(LenAt(buffer[..], curmsg.off));
    }

    /** tst_netlink_add_attr and tst_rtnl_add_attr */
    method AddAttr(ty: nat, data: Data, moved: bool) returns (ok: bool)
      requires Valid() && Align(datalen) + NLA_HDRLEN + |data| < LIMIT
      modifies this, buffer
      ensures Valid()
      ensures NetlinkBuilder.AddAttr(old(View()), Align(old(datalen)), ty, data) == if ok then Done(View()) else Failed
      ensures !ok ==> View() == old(View())
      ensures ok ==> datalen >= Align(old(datalen)) && curmsg.At?
      ensures buffer == old(buffer) || fresh(buffer)
    {
      if !curmsg.At? {
        return false;
      }
      ghost var c := View();
      var size := NLA_HDRLEN + Align(|data|);
      AlignShift(NLA_HDRLEN, |data|);
      var at := MakeRoom(size, moved);
      ghost var grown := buffer[..];
      WriteAttr(curmsg.off, at, AttrLen(data), ty, data);
      datalen := Align(datalen) + AttrLen(data);
      ok := true;
      AddAttrIs(c, at, ty, data, size, grown, View());
      AddAttrEffect(c, at, ty, data);
    }

    /** Writes a message at `at` and makes it the current one. */
    method WriteMessage(at: nat, m: Msg)
      requires at + HDRLEN + |m.body| <= buffer.Length
      modifies this`curmsg, this`seqno, buffer
      ensures buffer[..] == MsgBytes(old(buffer[..]), at, m)
      ensures curmsg == At(at) && seqno == Next(m.seqno)
    {
      ghost var b := buffer[..];
      curmsg := At(at);
      Write(at, HeaderBytes(HDRLEN + |m.body|, m.ty, m.flags, m.seqno, m.pid));
      seqno := Next(m.seqno);
      Write(at + HDRLEN, m.body);
      PutBoth(b, at, HeaderBytes(HDRLEN + |m.body|, m.ty, m.flags, m.seqno, m.pid), m.body);
    }

    /** A message behind the current one, which becomes part of a batch. */
    method Continue(at: nat, m: Msg)
      requires curmsg.At? && curmsg.off + HDRLEN <= buffer.Length && at == Align(datalen)
      requires at == curmsg.off + Align(LenAt(buffer[..], curmsg.off)) && at + HDRLEN + |m.body| <= buffer.Length
      requires m.pid == pid
      modifies this`curmsg, this`seqno, this`datalen, buffer
      ensures AddNext(old(buffer[..]), old(curmsg.off), at, m) == Done(View())
    {
      ghost var b := buffer[..];
      var off := curmsg.off;
      Write(off + 6, Put16(WithMulti(FlagsAt(buffer[..], off))));
      datalen := Align(datalen);
      WriteMessage(at, m);
      datalen := datalen + HDRLEN + |m.body|;
      AddNextIs(b, off, at, m);
    }

    /** The first message of a batch. */
    method StartBatch(h: Header, payload: seq<byte>, moved: bool) returns (ok: bool)
      requires Idle(View())
      modifies this, buffer
      ensures NetlinkMessages.AddMessage(old(View()), moved, h, payload) == if ok then Done(View()) else Failed
      ensures buffer == old(buffer) || fresh(buffer)
    {
      ghost var c := View();
      ghost var place := Align(datalen);
      var size := Align(HDRLEN + |payload|);
      AlignBelow(datalen, buffer.Length);
      GrowBuffer(size, moved);
      AddMessageFirst(c, moved, h, payload, place, size, buffer[..]);
      if curmsg.Wild? {
        return false;
      }
      datalen := HDRLEN + |payload|;
      WriteMessage(0, Msg(h.ty, h.flags, seqno, pid, payload));
      ok := true;
    }

    /** A further message of a batch. */
    method ContinueBatch(h: Header, payload: seq<byte>, moved: bool)
      requires Cursor(View())
      modifies this, buffer
      ensures NetlinkMessages.AddMessage(old(View()), moved, h, payload) == Done(View())
      ensures buffer == old(buffer) || fresh(buffer)
    {
      ghost var c := View();
      var size := Align(HDRLEN + |payload|);
      var at := MakeRoom(size, moved);
      AddMessageNext(c, moved, h, payload, at, size, buffer[..]);
      LenKept(c.buf, buffer[..], curmsg.off, datalen);
      Continue(at, Msg(h.ty, WithMulti(h.flags), seqno, pid, payload));
    }

    /** tst_netlink_add_message; false where the library would follow a wild pointer. */
    method AddMessage(h: Header, payload: seq<byte>, moved: bool) returns (ok: bool)
      requires Valid() && Batch.Admits(View(), Batch.Message(h, payload, moved))
      modifies this, buffer
      ensures ok ==> Valid()
      ensures NetlinkMessages.AddMessage(old(View()), moved, h, payload) == if ok then Done(View()) else Failed
      ensures buffer == old(buffer) || fresh(buffer)
    {
      Batch.MessageCursor(View(), moved, h, payload);
      if curmsg.At? {
        ContinueBatch(h, payload, moved);
        ok := true;
      } else {
        ok := StartBatch(h, payload, moved);
      }
    }

    method PatchLength(offset: nat)
      requires Cursor(View()) && curmsg.off + HDRLEN <= offset <= datalen && offset + NLA_HDRLEN <= buffer.Length
      modifies buffer
      ensures Cursor(View()) && View() == Attrs.Patch(old(View()), offset)
    {
      PatchCursor(View(), offset);
      Write(offset, Put16(datalen - offset));
    }

    /** The list nested in the attribute at `offset`, and then the length of both. */
    method AddNested(list: NetlinkWire.Attrs, offset: nat) returns (ret: int)
      requires Cursor(View()) && Valid() && Attrs.Space(Align(datalen), list)
      requires curmsg.off + HDRLEN <= offset <= datalen && offset + NLA_HDRLEN <= buffer.Length
      modifies this, buffer
      ensures Valid() && curmsg.At?
      ensures Attrs.Closed(offset, Attrs.AddList(NetlinkBuilder.AddAttr, old(View()), list)) == Attrs.ListResult(View(), ret)
      ensures seqno == old(seqno) && (buffer == old(buffer) || fresh(buffer))
      decreases list, 2
    {
      ghost var c := View();
      ListOnlyGrows(c, list);
      ret := AddAttrList(list);
      if ret < 0 {
        return;
      }
      if datalen - offset > Attrs.USHRT_MAX {
        return -1;
      }
      PatchLength(offset);
      ret := 0;
    }

    /** One attribute of a list, with the list nested in it. */
    method AddAttrItem(l: NetlinkWire.Attrs) returns (ret: int)
      requires l.Item? && Valid() && Align(datalen) + ItemLen(l) < LIMIT
      modifies this, buffer
      ensures Valid()
      ensures Attrs.AddItem(NetlinkBuilder.AddAttr, old(View()), Align(old(datalen)), l) == Attrs.ListResult(View(), ret)
      ensures buffer == old(buffer) || fresh(buffer)
      decreases l, 0
    {
      ghost var c := View();
      var offset := Align(datalen);
      if |l.data| > Attrs.USHRT_MAX {
        return -1;
      }
      ListLenPositive(l);
      var moved: bool := *;
      var ok := AddAttr(l.ty, l.data, moved);
      if !ok {
        return -1;
      }
      ret := 0;
      if l.sub.Nested? {
        AttrPlaced(c, l, View());
        ret := AddNested(l.sub.list, offset);
      }
    }

    /** tst_netlink_add_attr_list and tst_rtnl_add_attr_list */
    method AddAttrList(list: NetlinkWire.Attrs) returns (ret: int)
      requires Valid() && Attrs.Space(Align(datalen), list)
      modifies this, buffer
      ensures Valid()
      ensures Attrs.AddList(NetlinkBuilder.AddAttr, old(View()), list) == Attrs.ListResult(View(), ret)
      ensures buffer == old(buffer) || fresh(buffer)
      decreases list, 1
    {
      ghost var c0 := View();
      ghost var rest := Attrs.AddList(NetlinkBuilder.AddAttr, c0, list);
      ghost var goal := rest;
      var l, i := list, 0;
      while l.Item?
        invariant Valid() && Attrs.Space(Align(datalen), l)
        invariant rest == Attrs.AddList(NetlinkBuilder.AddAttr, View(), l) && goal == Attrs.Plus(i, rest)
        invariant l == list || l < list
        invariant buffer == old(buffer) || fresh(buffer)
        decreases l
      {
        ghost var c := View();
        ListLenPositive(l);
        ret := AddAttrItem(l);
        rest := ListStep(c, l, Attrs.ListResult(View(), ret), rest);
        if ret < 0 {
          return;
        }
        l := l.rest;
        i := i + 1;
      }
      ret := i;
    }

    /** Adds the message that ends a batch; its flags are cleared. */
    method EndBatch(moved: bool)
      requires Cursor(View()) && Valid() && Align(datalen) + HDRLEN < LIMIT
      modifies this, buffer
      ensures Cursor(View()) && Valid() && (buffer == old(buffer) || fresh(buffer))
      ensures NetlinkMessages.AddMessage(old(View()), moved, Header(NLMSG_DONE, 0), []) == Done(View())
    {
      Batch.MessageCursor(View(), moved, Header(NLMSG_DONE, 0), []);
      ContinueBatch(Header(NLMSG_DONE, 0), [], moved);
    }

    /** Clears the flags of the message that ends a batch and sends. */
    method SendEnded() returns (sent: seq<byte>)
      requires Cursor(View())
      modifies this`curmsg, buffer
      ensures Idle(View()) && Batch.SendDone(old(View())) == Batch.Sent(View(), sent)
    {
      ghost var done := View();
      Write(curmsg.off + 6, Put16(0));
      Batch.SendDoneIs(done, buffer[..]);
      sent := buffer[..datalen];
      curmsg := Null;
    }

    /** What tst_netlink_send does for messages flagged as a batch. */
    method SendBatch(moved: bool) returns (sent: seq<byte>)
      requires Cursor(View()) && Valid() && Align(datalen) + HDRLEN < LIMIT
      requires HasFlag(FlagsAt(buffer[..], curmsg.off), NLM_F_MULTI)
      modifies this, buffer
      ensures Valid() && curmsg.Null? && Batch.Send(old(View()), moved) == Batch.Sent(View(), sent)
      ensures buffer == old(buffer) || fresh(buffer)
    {
      ghost var c := View();
      EndBatch(moved);
      Batch.SendIsDone(c, moved, View());
      sent := SendEnded();
    }

    /** tst_netlink_send, for a sendmsg that takes all the data. */
    method Send(moved: bool) returns (ok: bool, sent: seq<byte>)
      requires Valid() && Align(datalen) + HDRLEN < LIMIT
      modifies this, buffer
      ensures Valid() && curmsg.Null?
      ensures Batch.Send(old(View()), moved) == if ok then Batch.Sent(View(), sent) else Batch.NotSent
      ensures buffer == old(buffer) || fresh(buffer)
    {
      if !curmsg.At? {
        return false, [];
      }
      ok := true;
      if HasFlag(FlagsAt(buffer[..], curmsg.off), NLM_F_MULTI) {
        sent := SendBatch(moved);
      } else {
        sent := buffer[..datalen];
        curmsg := Null;
      }
    }
  }

  /** After the attribute itself there is room for the list nested in it. */
  lemma AttrPlaced(c: Ctx, l: NetlinkWire.Attrs, c': Ctx)
    requires Idle(c) || Cursor(c)
    requires l.Item? && l.sub.Nested? && |l.data| <= Attrs.USHRT_MAX && Align(c.datalen) + ItemLen(l) < LIMIT
    requires AddAttr(c, Align(c.datalen), l.ty, l.data) == Done(c')
    ensures Attrs.Space(Align(c'.datalen), l.sub.list) && c'.cur.At? && c'.cur.off + HDRLEN <= Align(c.datalen)
    ensures Align(c.datalen) + NLA_HDRLEN <= |c'.buf|
  {
    var at := Align(c.datalen);
    ListLenPositive(l);
    Attrs.CursorPlaced(c);
    AddAttrEffect(c, at, l.ty, l.data);
    var own := Attrs.NestedBound(at, l, c'.datalen);
  }

  lemma PatchCursor(c: Ctx, at: nat)
    requires Cursor(c) && c.cur.off + HDRLEN <= at <= c.datalen && at + NLA_HDRLEN <= |c.buf|
    ensures Cursor(Attrs.Patch(c, at))
  {
  }

  lemma ListOnlyGrows(c: Ctx, l: NetlinkWire.Attrs)
    requires Cursor(c) && Attrs.Space(Align(c.datalen), l)
    ensures var r := Attrs.AddList(AddAttr, c, l).c;
      Cursor(r) && r.cur == c.cur && r.datalen >= c.datalen && |r.buf| >= |c.buf| && r.seqno == c.seqno
  {
    Attrs.AddAttrAdds();
    Attrs.ListGrows(AddAttr, c, Align(c.datalen), l);
  }

  /** What one attribute leaves to do for the list, and room for the rest of it. */
  lemma ListStep(c: Ctx, l: NetlinkWire.Attrs, r: Attrs.ListResult, all: Attrs.ListResult)
    returns (rest: Attrs.ListResult)
    requires l.Item? && (Idle(c) || Cursor(c)) && Attrs.Space(Align(c.datalen), l)
    requires Attrs.AddItem(AddAttr, c, Align(c.datalen), l) == r && Attrs.AddList(AddAttr, c, l) == all
    ensures r.ret < 0 ==> all == r
    ensures r.ret >= 0 ==>
      && rest == Attrs.AddList(AddAttr, r.c, l.rest) && all == Attrs.Plus(1, rest)
      && Attrs.Space(Align(r.c.datalen), l.rest)
  {
    rest := Attrs.AddList(AddAttr, r.c, l.rest);
    ListLenPositive(l);
    if Cursor(c) {
      Attrs.CursorPlaced(c);
      Attrs.AddAttrAdds();
      Attrs.ItemGrows(AddAttr, c, Align(c.datalen), l);
      if r.ret >= 0 {
        var next := Attrs.RestBound(Align(c.datalen), l, r.c.datalen);
      }
    }
  }

  lemma AttrBytesAre(b: seq<byte>, headed: seq<byte>, filled: seq<byte>, r: seq<byte>,
                     off: nat, at: nat, len: nat, ty: nat, data: seq<byte>)
    requires off + HDRLEN <= at && at + NLA_HDRLEN + |data| <= |b|
    requires headed == Put(b, at, Put16(len) + Put16(ty)) && filled == Put(headed, at + NLA_HDRLEN, data)
    requires r == Put(filled, off, Put32(at - off + len))
    ensures r == AttrBytes(b, off, at, len, ty, data)
  {
  }

  lemma PutBoth(b: seq<byte>, at: nat, x: seq<byte>, y: seq<byte>)
    requires at + |x| + |y| <= |b|
    ensures Put(Put(b, at, x), at + |x|, y) == Put(b, at, x + y)
  {
  }

  lemma AddAttrIs(c: Ctx, at: nat, ty: nat, data: Data, size: nat, grown: seq<byte>, c': Ctx)
    requires HasMessage(c, at) && size == Align(NLA_HDRLEN + |data|) && grown == GrowBuf(c.buf, at, size)
    requires c'.buf == AttrBytes(grown, c.cur.off, at, AttrLen(data), ty, data) && c'.datalen == at + AttrLen(data)
    requires c'.cur == c.cur && c'.seqno == c.seqno && c'.pid == c.pid
    ensures AddAttr(c, at, ty, data) == Done(c')
  {
  }
}
