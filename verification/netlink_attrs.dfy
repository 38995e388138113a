/**
 Nested attribute lists: tst_netlink_add_attr_list and tst_rtnl_add_attr_list, which
 append the attributes of a tree one by one and patch the length of every attribute
 that has a nested list once that list is complete.
 */
module NetlinkAttrs {
  import opened NetlinkWire
  import opened NetlinkBuilder

  const USHRT_MAX := 65535

  datatype ListResult = ListResult(c: Ctx, ret: int)

  /** Sets the length of the attribute at `at` to cover everything after it. */
  function Patch(c: Ctx, at: nat): Ctx
    requires at <= c.datalen && at + 2 <= |c.buf|
  {
    c.(buf := Put(c.buf, at, Put16(c.datalen - at)))
  }

  /** What becomes of an attribute after its nested list. */
  function Closed(at: nat, s: ListResult): ListResult {
    if s.ret < 0 then s
    else if s.c.datalen < at || |s.c.buf| < at + 2 || s.c.datalen - at > USHRT_MAX then ListResult(s.c, -1)
    else ListResult(Patch(s.c, at), 0)
  }

  /** The netlink and the rtnetlink list builder differ only in the function they call. */
  type Adder = (Ctx, nat, nat, Data) -> Outcome

  /** One round of the loop: an attribute, its nested list, and the patched length. */
  function AddItem(add: Adder, c: Ctx, at: nat, l: Attrs): ListResult
    requires l.Item?
    decreases l, 0
  {
    if |l.data| > USHRT_MAX then ListResult(c, -1)
    else
      var o := add(c, at, l.ty, l.data);
      if o.Failed? then ListResult(c, -1)
      else if l.sub.NoSub? then ListResult(o.c, 0)
      else
        Closed(at, AddList(add, o.c, l.sub.list))
  }

  function AddList(add: Adder, c: Ctx, l: Attrs): ListResult
    decreases l, 1
  {
    if l.End? then ListResult(c, 0)
    else
      var first := AddItem(add, c, Align(c.datalen), l);
      if first.ret < 0 then first
      else
        Plus(1, AddList(add, first.c, l.rest))
  }

  /** Counts `i` more attributes, unless it failed. */
  function Plus(i: int, r: ListResult): ListResult {
    if r.ret < 0 then r else r.(ret := r.ret + i)
  }

  /** What the list builder may assume of the function it calls. */
  ghost predicate Adds(add: Adder) {
    forall c, at, ty, data :: Room(c, at, data) ==>
      var o := add(c, at, ty, data); o.Done? && Added(c, o.c, at, ty, data)
  }

  /** No attribute's own data makes its 16-bit length wrap. */
  predicate NoWrap(l: Attrs) {
    l.Item? ==> |l.data| <= 65531 && (l.sub.Nested? ==> NoWrap(l.sub.list)) && NoWrap(l.rest)
  }

  /** The list, if there is any, ends below the limit. */
  predicate Space(at: nat, l: Attrs) {
    l.Item? ==> at + ListLen(l) < LIMIT
  }

  // ----- What the list builder leaves behind -----

  /** The context has grown behind `at`, up to at most `end`. */
  ghost predicate Grown(c: Ctx, c': Ctx, at: nat, end: nat) {
    Cursor(c') && Extends(c, c', at) && c.datalen <= c'.datalen <= end
  }

  /** The list has been added at `at`. */
  ghost predicate ListDone(c: Ctx, at: nat, l: Attrs, r: ListResult) {
    && r.ret == (if Fits(l) then Count(l) else -1)
    && (l.End? ==> r.c == c)
    && (l.Item? && Fits(l) ==> r.c.datalen == at + ListLen(l) && ListAt(r.c.buf, at, l))
  }

  /** The first attribute of the list fits its 16 bits, nested list included. */
  predicate ItemFits(l: Attrs)
    requires l.Item?
  {
    ItemLen(l) < U16 && (l.sub.Nested? ==> Fits(l.sub.list))
  }

  ghost predicate ItemDone(at: nat, l: Attrs, r: ListResult)
    requires l.Item?
  {
    && r.ret == (if ItemFits(l) then 0 else -1)
    && (ItemFits(l) ==> r.c.datalen == at + ItemLen(l) && ItemAt(r.c.buf, at, l))
  }

  lemma GrownTrans(c: Ctx, c1: Ctx, c2: Ctx, at: nat, at1: nat, end1: nat, end: nat)
    requires Grown(c, c1, at, end1) && Grown(c1, c2, at1, end) && at <= at1
    ensures Grown(c, c2, at, end)
  {
  }

  /** Patching the length of an attribute touches nothing else. */
  lemma PatchEffect(b: seq<byte>, at: nat, l: Attrs, n: nat, own: nat, len: nat, r: seq<byte>)
    requires l.Item? && l.sub.Nested? && AttrAt(b, at, l.ty, l.data) && r == Put(b, at, Put16(len))
    requires n == ListLen(l.sub.list) && own == Align(NLA_HDRLEN + |l.data|) && (l.sub.list.Item? ==> at + own + n <= |b|)
    requires ListAt(b, at + own, l.sub.list)
    ensures AttrAt(r, at, l.ty, l.data) && r[at..at + 2] == Put16(len) && ListAt(r, at + own, l.sub.list)
  {
    PutThere(b, at, Put16(len));
    PutOther(b, at, Put16(len), at + 2, at + 4);
    PutOther(b, at, Put16(len), at + 4, at + 4 + |l.data|);
    if l.sub.list.Item? {
      PutOther(b, at, Put16(len), at + own, at + own + n);
      ListMoved(b, at + own, r, at + own, l.sub.list, n);
    }
  }

  /** Where the next attribute or the next byte goes. */
  predicate Placed(c: Ctx, at: nat) {
    at == Align(c.datalen) && at % 4 == 0 && at <= |c.buf|
  }

  lemma CursorPlaced(c: Ctx)
    requires Cursor(c)
    ensures Placed(c, Align(c.datalen))
  {
    AlignMod(c.datalen);
    AlignBelow(c.datalen, |c.buf|);
  }

  // ----- What every list keeps, whether it fits or not -----

  lemma PatchGrown(c: Ctx, d: Ctx, at: nat, end: nat)
    requires Cursor(c) && c.cur.off + HDRLEN <= at && Grown(c, d, at, end) && at <= d.datalen && at + 2 <= |d.buf|
    ensures Grown(c, Patch(d, at), at, end)
  {
    var off, len := c.cur.off, Put16(d.datalen - at);
    PutKeeps(d.buf, at, len, off, at);
    KeepsTrans(c.buf, d.buf, Put(d.buf, at, len), off, at, at);
    PutOther(d.buf, at, len, off, off + 4);
  }

  lemma ClosedGrown(c: Ctx, at: nat, end: nat, s: ListResult)
    requires Cursor(c) && c.cur.off + HDRLEN <= at && Grown(c, s.c, at, end)
    ensures Grown(c, Closed(at, s).c, at, end)
  {
    if at <= s.c.datalen && at + 2 <= |s.c.buf| {
      PatchGrown(c, s.c, at, end);
    }
  }

  lemma AlignMonotone(a: nat, b: nat)
    requires a <= b
    ensures Align(a) <= Align(b)
  {
  }

  /** Where a list ends at the latest. */
  function EndOf(datalen: nat, at: nat, l: Attrs): nat {
    if l.End? then datalen else at + ListLen(l)
  }

  lemma NestedBound(at: nat, l: Attrs, datalen: nat) returns (own: nat)
    requires l.Item? && l.sub.Nested? && at % 4 == 0 && at <= datalen <= at + NLA_HDRLEN + |l.data|
    requires at + ItemLen(l) < LIMIT
    ensures own == Align(datalen) >= at && EndOf(datalen, own, l.sub.list) <= at + ItemLen(l) && Space(own, l.sub.list)
  {
    own := Align(datalen);
    ListLenPositive(l);
    AlignShift(at, NLA_HDRLEN + |l.data|);
    AlignMonotone(datalen, at + NLA_HDRLEN + |l.data|);
  }

  lemma RestBound(at: nat, l: Attrs, datalen: nat) returns (next: nat)
    requires l.Item? && at % 4 == 0 && at <= datalen <= at + ItemLen(l) && Space(at, l)
    ensures next == Align(datalen) >= at && EndOf(datalen, next, l.rest) <= at + ListLen(l) && Space(next, l.rest)
  {
    next := Align(datalen);
    ListLenPositive(l);
    AlignShift(at, ItemLen(l));
    AlignMonotone(datalen, at + ItemLen(l));
  }

  lemma {:induction false} ItemGrows(add: Adder, c: Ctx, at: nat, l: Attrs)
    requires Adds(add) && Cursor(c) && Placed(c, at) && l.Item? && at + ItemLen(l) < LIMIT
    ensures var r := AddItem(add, c, at, l);
      Grown(c, r.c, at, at + ItemLen(l)) && (r.ret >= 0 ==> at <= r.c.datalen)
    decreases l, 0
  {
    ListLenPositive(l);
    if |l.data| <= USHRT_MAX {
      var o := add(c, at, l.ty, l.data);
      assert Room(c, at, l.data);
      if l.sub.Nested? {
        var own := NestedBound(at, l, o.c.datalen);
        ListGrows(add, o.c, own, l.sub.list);
        var s := AddList(add, o.c, l.sub.list);
        GrownTrans(c, o.c, s.c, at, own, o.c.datalen, at + ItemLen(l));
        ClosedGrown(c, at, at + ItemLen(l), s);
      }
    }
  }

  /** Whatever the list, the context keeps its current message and only grows behind it. */
  lemma {:induction false} ListGrows(add: Adder, c: Ctx, at: nat, l: Attrs)
    requires Adds(add) && Cursor(c) && at == Align(c.datalen) && Space(at, l)
    ensures Grown(c, AddList(add, c, l).c, at, EndOf(c.datalen, at, l))
    decreases l, 1
  {
    if l.Item? {
      CursorPlaced(c);
      ListLenPositive(l);
      ItemGrows(add, c, at, l);
      var first := AddItem(add, c, at, l);
      if first.ret >= 0 {
        var next := RestBound(at, l, first.c.datalen);
        ListGrows(add, first.c, next, l.rest);
        GrownTrans(c, first.c, AddList(add, first.c, l.rest).c, at, next, at + ItemLen(l), at + ListLen(l));
      }
    }
  }

  // ----- What a list that fits leaves behind -----

  /** The nested list does not disturb the attribute it belongs to. */
  lemma AttrKept(b: seq<byte>, b': seq<byte>, off: nat, upto: nat, at: nat, l: Attrs)
    requires l.Item? && AttrAt(b, at, l.ty, l.data) && Keeps(b, b', off, upto)
    requires off + HDRLEN <= at && at + NLA_HDRLEN + |l.data| <= upto
    ensures AttrAt(b', at, l.ty, l.data)
  {
  }

  lemma NestedKept(add: Adder, c: Ctx, at: nat, l: Attrs, c1: Ctx) returns (own: nat)
    requires Adds(add) && Cursor(c) && at % 4 == 0 && c.datalen <= at
    requires l.Item? && l.sub.Nested? && at + ItemLen(l) < LIMIT && |l.data| <= 65531 && Added(c, c1, at, l.ty, l.data)
    ensures own == Align(c1.datalen) == at + Align(NLA_HDRLEN + |l.data|) && Space(own, l.sub.list)
    ensures var d := AddList(add, c1, l.sub.list).c; AttrAt(d.buf, at, l.ty, l.data) && d.datalen <= |d.buf|
  {
    AlignShift(at, NLA_HDRLEN + |l.data|);
    own := NestedBound(at, l, c1.datalen);
    ListGrows(add, c1, own, l.sub.list);
    AttrKept(c1.buf, AddList(add, c1, l.sub.list).c.buf, c.cur.off, own, at, l);
  }

  lemma ItemSpelled(b: seq<byte>, at: nat, l: Attrs, len: nat)
    requires l.Item? && l.sub.Nested? && len == ItemLen(l) && at + len <= |b|
    requires AttrAt(b, at, l.ty, l.data) && b[at..at + 2] == Put16(len)
    requires ListAt(b, at + Align(NLA_HDRLEN + |l.data|), l.sub.list)
    ensures ItemAt(b, at, l)
  {
  }

  /** The attribute after a nested list that fits with it. */
  lemma NestedFits(at: nat, l: Attrs, d: Ctx, len: nat)
    requires l.Item? && l.sub.Nested? && AttrAt(d.buf, at, l.ty, l.data) && len == ItemLen(l)
    requires d.datalen == at + len <= |d.buf| && ListAt(d.buf, at + Align(NLA_HDRLEN + |l.data|), l.sub.list)
    ensures ItemAt(Patch(d, at).buf, at, l)
  {
    Measure(l, ListLen(l), len);
    PatchEffect(d.buf, at, l, ListLen(l.sub.list), Align(NLA_HDRLEN + |l.data|), len, Patch(d, at).buf);
    ItemSpelled(Patch(d, at).buf, at, l, len);
  }

  /** Where the nested list ends. */
  lemma NestedEnd(at: nat, l: Attrs, c1: Ctx, s: ListResult)
    requires l.Item? && l.sub.Nested? && c1.datalen == at + NLA_HDRLEN + |l.data|
    requires ListDone(c1, at + Align(NLA_HDRLEN + |l.data|), l.sub.list, s) && Fits(l.sub.list)
    ensures s.ret >= 0 && s.c.datalen == at + ItemLen(l) && ListAt(s.c.buf, at + Align(NLA_HDRLEN + |l.data|), l.sub.list)
  {
    ListLenPositive(l);
  }

  /** The attribute after its nested list. */
  lemma NestedDone(at: nat, l: Attrs, c1: Ctx, s: ListResult)
    requires l.Item? && l.sub.Nested? && AttrAt(s.c.buf, at, l.ty, l.data) && s.c.datalen <= |s.c.buf|
    requires c1.datalen == at + NLA_HDRLEN + |l.data|
    requires ListDone(c1, at + Align(NLA_HDRLEN + |l.data|), l.sub.list, s)
    ensures ItemDone(at, l, Closed(at, s))
  {
    if Fits(l.sub.list) {
      NestedEnd(at, l, c1, s);
      if ItemFits(l) {
        NestedFits(at, l, s.c, ItemLen(l));
      }
    }
  }

  lemma PlainDone(c: Ctx, at: nat, l: Attrs, c1: Ctx)
    requires l.Item? && l.sub.NoSub? && |l.data| <= 65531 && Added(c, c1, at, l.ty, l.data)
    ensures ItemDone(at, l, ListResult(c1, 0))
  {
  }

  lemma {:induction false} ItemEffect(add: Adder, c: Ctx, at: nat, l: Attrs)
    requires Adds(add) && Cursor(c) && Placed(c, at) && l.Item? && NoWrap(l) && at + ItemLen(l) < LIMIT
    ensures ItemDone(at, l, AddItem(add, c, at, l))
    decreases l, 0
  {
    ListLenPositive(l);
    var o := add(c, at, l.ty, l.data);
    assert Room(c, at, l.data);
    if l.sub.Nested? {
      var own := NestedKept(add, c, at, l, o.c);
      ListEffect(add, o.c, own, l.sub.list);
      NestedDone(at, l, o.c, AddList(add, o.c, l.sub.list));
    } else {
      PlainDone(c, at, l, o.c);
    }
  }

  lemma {:induction false} ListEffect(add: Adder, c: Ctx, at: nat, l: Attrs)
    requires Adds(add) && Cursor(c) && at == Align(c.datalen) && NoWrap(l) && Space(at, l)
    ensures ListDone(c, at, l, AddList(add, c, l))
    decreases l, 1
  {
    if l.Item? {
      CursorPlaced(c);
      ListLenPositive(l);
      ItemEffect(add, c, at, l);
      var first := AddItem(add, c, at, l);
      if ItemFits(l) {
        ItemGrows(add, c, at, l);
        var next := RestKept(add, c, at, l, first.c);
        ListEffect(add, first.c, next, l.rest);
        ListFinished(c, at, l, first.c, next, AddList(add, first.c, l.rest));
      }
    }
  }

  lemma RestKept(add: Adder, c: Ctx, at: nat, l: Attrs, c1: Ctx) returns (next: nat)
    requires Adds(add) && Cursor(c) && Placed(c, at) && l.Item? && Space(at, l)
    requires Grown(c, c1, at, at + ItemLen(l)) && c1.datalen == at + ItemLen(l)
    ensures next == Align(c1.datalen) == at + Align(ItemLen(l)) && Space(next, l.rest)
    ensures Keeps(c1.buf, AddList(add, c1, l.rest).c.buf, c.cur.off, next)
  {
    AlignShift(at, ItemLen(l));
    next := RestBound(at, l, c1.datalen);
    ListGrows(add, c1, next, l.rest);
  }

  lemma ItemKept(b: seq<byte>, b': seq<byte>, off: nat, upto: nat, at: nat, l: Attrs, len: nat)
    requires l.Item? && ItemAt(b, at, l) && Keeps(b, b', off, upto) && len == ItemLen(l)
    requires off + HDRLEN <= at && at + len <= upto
    ensures ItemAt(b', at, l)
  {
    KeepsSlice(b, b', off, upto, at, at + len);
    ItemMoved(b, at, b', at, l, len);
  }

  /** A finished attribute and a finished rest make a finished list. */
  lemma ListFinished(c: Ctx, at: nat, l: Attrs, c1: Ctx, next: nat, rest: ListResult)
    requires l.Item? && ItemFits(l) && c.cur.At? && c.cur.off + HDRLEN <= at && next == at + Align(ItemLen(l))
    requires ItemDone(at, l, ListResult(c1, 0)) && ListDone(c1, next, l.rest, rest)
    requires Keeps(c1.buf, rest.c.buf, c.cur.off, next)
    ensures ListDone(c, at, l, Plus(1, rest))
  {
    Measure(l, ListLen(l), ItemLen(l));
    if Fits(l.rest) {
      ItemKept(c1.buf, rest.c.buf, c.cur.off, next, at, l, ItemLen(l));
    }
  }

  lemma AddAttrAdds()
    ensures Adds(AddAttr)
  {
    forall c, at, ty, data | Room(c, at, data)
      ensures var o := AddAttr(c, at, ty, data); o.Done? && Added(c, o.c, at, ty, data)
    {
      AddAttrEffect(c, at, ty, data);
    }
  }

  /** Whatever the walk returns has attributes its 16-bit lengths can describe. */
  lemma {:induction false} DecodedNoWrap(b: seq<byte>, path: seq<nat>, pol: Policy)
    ensures var d := Decode(b, path, pol); d.Good? ==> NoWrap(d.list)
    decreases |b|
  {
    if |b| >= NLA_HDRLEN {
      var len, ty := Get16(b[..2]), Get16(b[2..4]);
      if NLA_HDRLEN <= len <= |b| {
        if Align(len) < |b| {
          DecodedNoWrap(b[Align(len)..], path, pol);
        }
        var nest := pol(path + [ty]);
        if nest.After? && Align(4 + nest.prefix) < len {
          DecodedNoWrap(b[Align(4 + nest.prefix)..len], path + [ty], pol);
        }
      }
    }
  }

  lemma {:induction false} FitsNoWrap(l: Attrs)
    ensures Fits(l) ==> NoWrap(l)
  {
    if l.Item? {
      ListLenPositive(l);
      FitsNoWrap(l.rest);
      if l.sub.Nested? {
        FitsNoWrap(l.sub.list);
      }
    }
  }

  /** What stands behind the aligned end of the data a call found. */
  function Appended(c: Ctx, at: nat): seq<byte> {
    if at <= c.datalen <= |c.buf| then c.buf[at..c.datalen] else []
  }

  /** The call reports all entries, and decoding the bytes it appended gives the tree back. */
  ghost predicate ComesBack(c: Ctx, l: Attrs, pol: Policy) {
    var r := AddList(AddAttr, c, l);
    r.ret == Count(l) && Decode(Appended(r.c, Align(c.datalen)), [], pol) == Good(l)
  }

  lemma NoWrapComesBack(c: Ctx, l: Attrs, pol: Policy)
    requires Cursor(c) && Typed(l) && NoWrap(l) && Conforms(l, [], pol) && Space(Align(c.datalen), l)
    ensures AddList(AddAttr, c, l).ret == (if Fits(l) then Count(l) else -1)
    ensures Fits(l) ==> ComesBack(c, l, pol)
  {
    var at := Align(c.datalen);
    AddAttrAdds();
    ListGrows(AddAttr, c, at, l);
    ListEffect(AddAttr, c, at, l);
    var r := AddList(AddAttr, c, l);
    if Fits(l) {
      if l.Item? {
        DecodeSpelled(r.c.buf, at, l, [], pol, r.c.buf[at..r.c.datalen]);
      } else {
        assert Appended(c, at) == [];
      }
    }
  }

  /**
   Round trip: a tree of attributes comes back from the bytes appended for it, however
   often the buffer was moved, if and only if every attribute with its nested list fits
   the 16 bits of its length.
   */
  lemma RoundTrip(c: Ctx, l: Attrs, pol: Policy)
    requires Cursor(c) && Typed(l) && Conforms(l, [], pol) && Space(Align(c.datalen), l)
    ensures ComesBack(c, l, pol) <==> Fits(l)
    ensures NoWrap(l) && !Fits(l) ==> AddList(AddAttr, c, l).ret == -1
  {
    FitsNoWrap(l);
    if NoWrap(l) {
      NoWrapComesBack(c, l, pol);
    } else {
      DecodedNoWrap(Appended(AddList(AddAttr, c, l).c, Align(c.datalen)), [], pol);
    }
  }

  /** An attribute of 65532 bytes: its recorded length wraps to zero and the walk stops there. */
  lemma WrapLosesData(c: Ctx, data: seq<byte>)
    requires Cursor(c) && |data| == 65532 && Align(c.datalen) + 65536 < LIMIT
    ensures var r := AddList(AddAttr, c, Item(1, data, NoSub, End));
      r.ret == 1 && r.c.datalen == Align(c.datalen)
  {
    CursorPlaced(c);
    AddAttrEffect(c, Align(c.datalen), 1, data);
  }
}
