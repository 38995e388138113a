/**
 The message builder of lib/tst_netlink.c on values: what every operation does to the
 buffer, its data length, the current message and the sequence number.
 */
module NetlinkBuilder {
  import opened NetlinkWire

  const NLM_F_MULTI := 2
  const NLM_F_ACK := 4
  const NLMSG_DONE := 3

  /** The data stays below 2^31 bytes, the range of the int the library counts with. */
  const LIMIT := 0x8000_0000

  /** The current message: none, at an offset, or a null pointer that was moved. */
  datatype Cur = Null | At(off: nat) | Wild

  /** tst_netlink_context without its socket; bufsize is the length of `buf`. */
  datatype Ctx = Ctx(buf: seq<byte>, datalen: nat, cur: Cur, seqno: nat, pid: nat)

  /** The fields of nlmsghdr a caller provides. */
  datatype Header = Header(ty: nat, flags: nat)

  function HeaderBytes(len: nat, ty: nat, flags: nat, seqno: nat, pid: nat): (b: seq<byte>)
    ensures |b| == HDRLEN
  {
    Put32(len) + Put16(ty) + Put16(flags) + Put32(seqno) + Put32(pid)
  }

  predicate HasFlag(flags: nat, bit: nat)
    requires bit > 0
  {
    flags / bit % 2 == 1
  }

  /** flags | NLM_F_MULTI */
  function WithMulti(flags: nat): (f: nat)
    ensures HasFlag(f, NLM_F_MULTI)
    ensures flags < U16 ==> f < U16
  {
    if HasFlag(flags, NLM_F_MULTI) then flags else flags + NLM_F_MULTI
  }

  function LenAt(buf: seq<byte>, off: nat): nat
    requires off + HDRLEN <= |buf|
  {
    Get32(buf[off..off + 4])
  }

  function FlagsAt(buf: seq<byte>, off: nat): nat
    requires off + HDRLEN <= |buf|
  {
    Get16(buf[off + 6..off + 8])
  }

  /** There is a current message, it ends the data, and it records its own length. */
  ghost predicate Cursor(c: Ctx) {
    && c.cur.At? && c.cur.off % 4 == 0 && |c.buf| % 4 == 0
    && c.cur.off + HDRLEN <= c.datalen <= |c.buf|
    && c.datalen < LIMIT
    && LenAt(c.buf, c.cur.off) == c.datalen - c.cur.off
  }

  /** There is none, and the buffer is whatever the last batch left. */
  ghost predicate Idle(c: Ctx) {
    c.cur.Null? && |c.buf| % 4 == 0 && c.datalen <= |c.buf|
  }

  // ----- The operations; `at` is always the aligned data length -----

  function Zeros(n: nat): (z: seq<byte>)
    ensures |z| == n && forall i :: 0 <= i < n ==> z[i] == 0
  {
    if n == 0 then [] else Zeros(n - 1) + [0]
  }

  function NewSize(bufsize: nat, at: nat, size: nat): (n: nat)
    requires at <= bufsize
    ensures bufsize <= n && at + size <= n && n % 4 == 0
  {
    var needed := size - (bufsize - at);
    Align(bufsize + if bufsize > needed then bufsize else needed)
  }

  /** The buffer netlink_grow_buffer leaves behind. */
  function GrowBuf(buf: seq<byte>, at: nat, size: nat): (r: seq<byte>)
    requires at <= |buf|
    ensures |buf| <= |r| && at + size <= |r| && r[..|buf|] == buf
    ensures |buf| % 4 == 0 ==> |r| % 4 == 0
  {
    if |buf| - at >= size then buf else buf + Zeros(NewSize(|buf|, at, size) - |buf|)
  }

  /** The current message after growing; a null pointer does not survive a move. */
  function GrowCur(cur: Cur, grew: bool, moved: bool): Cur {
    if cur.Null? && grew && moved then Wild else cur
  }

  /** Writes an attribute at `at` and the new length of the message at `off`. */
  function AttrBytes(buf: seq<byte>, off: nat, at: nat, len: nat, ty: nat, data: seq<byte>): (r: seq<byte>)
    requires off + HDRLEN <= at && at + NLA_HDRLEN + |data| <= |buf|
    ensures |r| == |buf|
  {
    var headed := Put(buf, at, Put16(len) + Put16(ty));
    var filled := Put(headed, at + NLA_HDRLEN, data);
    Put(filled, off, Put32(at - off + len))
  }

  /** What an unsigned short can be the length of. */
  type Data = d: seq<byte> | |d| < U16

  /** The length add_attr records, again in 16 bits. */
  function AttrLen(data: Data): nat {
    var n := NLA_HDRLEN + |data|;
    if n < U16 then n else n - U16
  }

  /** There is a message to add attributes to. */
  predicate HasMessage(c: Ctx, at: nat) {
    c.cur.At? && c.cur.off + HDRLEN <= at <= |c.buf|
  }

  datatype Outcome = Failed | Done(c: Ctx)

  /** tst_netlink_add_attr and tst_rtnl_add_attr */
  function AddAttr(c: Ctx, at: nat, ty: nat, data: Data): Outcome {
    if !HasMessage(c, at) then Failed
    else
      var buf := GrowBuf(c.buf, at, Align(NLA_HDRLEN + |data|));
      Done(c.(buf := AttrBytes(buf, c.cur.off, at, AttrLen(data), ty, data), datalen := at + AttrLen(data)))
  }

  // ----- What adding attributes does -----

  /** Below `upto` nothing but the length field at `off` differs. */
  ghost predicate Keeps(b: seq<byte>, b': seq<byte>, off: nat, upto: nat) {
    && upto <= |b| <= |b'|
    && forall i :: 0 <= i < upto && !(off <= i < off + 4) ==> b'[i] == b[i]
  }

  lemma KeepsSlice(b: seq<byte>, b': seq<byte>, off: nat, upto: nat, lo: nat, hi: nat)
    requires Keeps(b, b', off, upto) && lo <= hi <= upto && (hi <= off || off + 4 <= lo)
    ensures b'[lo..hi] == b[lo..hi]
  {
  }

  lemma KeepsTrans(x: seq<byte>, y: seq<byte>, z: seq<byte>, off: nat, upto: nat, upto': nat)
    requires Keeps(x, y, off, upto) && Keeps(y, z, off, upto') && upto <= upto'
    ensures Keeps(x, z, off, upto)
  {
  }

  lemma GrowKeeps(b: seq<byte>, b': seq<byte>, off: nat, upto: nat)
    requires upto <= |b| <= |b'| && b'[..|b|] == b
    ensures Keeps(b, b', off, upto)
  {
  }

  /** The context has grown from `at` on; below only the length of its message changed. */
  ghost predicate Extends(c: Ctx, c': Ctx, at: nat) {
    && c.cur.At? && c'.cur == c.cur && c'.seqno == c.seqno && c'.pid == c.pid
    && Keeps(c.buf, c'.buf, c.cur.off, at)
  }

  lemma PutKeeps(b: seq<byte>, at: nat, bytes: seq<byte>, off: nat, upto: nat)
    requires at + |bytes| <= |b| && upto <= |b| && (upto <= at || (at == off && |bytes| == 4))
    ensures Keeps(b, Put(b, at, bytes), off, upto)
  {
  }

  lemma AttrBytesKeep(buf: seq<byte>, off: nat, at: nat, len: nat, ty: nat, data: seq<byte>)
    requires off + HDRLEN <= at && at + NLA_HDRLEN + |data| <= |buf|
    ensures Keeps(buf, AttrBytes(buf, off, at, len, ty, data), off, at)
  {
    var header, total := Put16(len) + Put16(ty), Put32(at - off + len);
    var headed := Put(buf, at, header);
    var filled := Put(headed, at + NLA_HDRLEN, data);
    PutKeeps(buf, at, header, off, at);
    PutKeeps(headed, at + NLA_HDRLEN, data, off, at);
    PutKeeps(filled, off, total, off, at);
    KeepsTrans(buf, headed, filled, off, at, at);
    KeepsTrans(buf, filled, Put(filled, off, total), off, at, at);
  }

  lemma HeaderSlices(b: seq<byte>, at: nat, x: seq<byte>, y: seq<byte>)
    requires |x| == 2 == |y| && at + 4 <= |b| && b[at..at + 4] == x + y
    ensures b[at..at + 2] == x && b[at + 2..at + 4] == y
  {
    SliceOfSlice(b, at, 4, 0, 2);
    SliceOfSlice(b, at, 4, 2, 4);
  }

  lemma AttrBytesEffect(buf: seq<byte>, off: nat, at: nat, len: nat, ty: nat, data: seq<byte>)
    requires off + HDRLEN <= at && at + NLA_HDRLEN + |data| <= |buf| && at + len < U32
    ensures var r := AttrBytes(buf, off, at, len, ty, data);
      && Keeps(buf, r, off, at) && AttrAt(r, at, ty, data)
      && r[at..at + 2] == Put16(len) && LenAt(r, off) == at - off + len
  {
    AttrBytesKeep(buf, off, at, len, ty, data);
    var header, total := Put16(len) + Put16(ty), at - off + len;
    var headed := Put(buf, at, header);
    var filled := Put(headed, at + NLA_HDRLEN, data);
    var r := Put(filled, off, Put32(total));
    PutThere(buf, at, header);
    PutOther(headed, at + NLA_HDRLEN, data, at, at + NLA_HDRLEN);
    PutOther(filled, off, Put32(total), at, at + NLA_HDRLEN);
    HeaderSlices(r, at, Put16(len), Put16(ty));
    PutThere(headed, at + NLA_HDRLEN, data);
    PutOther(filled, off, Put32(total), at + NLA_HDRLEN, at + NLA_HDRLEN + |data|);
    PutThere(filled, off, Put32(total));
    Get32Put32(total);
  }

  /** An attribute has been added at `at`. */
  ghost predicate Added(c: Ctx, c': Ctx, at: nat, ty: nat, data: Data) {
    && Cursor(c') && Extends(c, c', at) && c'.datalen == at + AttrLen(data)
    && AttrAt(c'.buf, at, ty, data) && c'.buf[at..at + 2] == Put16(AttrLen(data))
  }

  /** The room an attribute needs. */
  ghost predicate Room(c: Ctx, at: nat, data: Data) {
    Cursor(c) && c.datalen <= at <= |c.buf| && at + NLA_HDRLEN + |data| < LIMIT
  }

  /** What adding one attribute does, whatever its length. */
  lemma AddAttrEffect(c: Ctx, at: nat, ty: nat, data: Data)
    requires Room(c, at, data)
    ensures var o := AddAttr(c, at, ty, data); o.Done? && Added(c, o.c, at, ty, data)
  {
    var off, len := c.cur.off, AttrLen(data);
    var buf := GrowBuf(c.buf, at, Align(NLA_HDRLEN + |data|));
    var r := AttrBytes(buf, off, at, len, ty, data);
    AttrBytesEffect(buf, off, at, len, ty, data);
    GrowKeeps(c.buf, buf, off, at);
    KeepsTrans(c.buf, buf, r, off, at, at);
  }
}
