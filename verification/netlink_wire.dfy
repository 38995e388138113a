/**
 The netlink wire format (section 2.3.2 of RFC 3549) in host byte order, here little
 endian: 16-byte message headers, 4-byte attribute headers, everything aligned to 4.
 */
module NetlinkWire {

  type byte = x: int | 0 <= x < 256

  const U16 := 0x1_0000
  const U32 := 0x1_0000_0000
  const HDRLEN := 16
  const NLA_HDRLEN := 4

  /** n / 4, rounded up. */
  function Words(n: nat): (w: nat)
    ensures n <= 4 * w < n + 4
  {
    if n == 0 then 0 else if n <= 4 then 1 else 1 + Words(n - 4)
  }

  /** NLMSG_ALIGN, NLA_ALIGN and RTA_ALIGN. */
  function Align(n: nat): (a: nat)
    ensures n <= a < n + 4
  {
    4 * Words(n)
  }

  lemma AlignMod(n: nat)
    ensures Align(n) % 4 == 0
    ensures n % 4 == 0 ==> Align(n) == n
  {
  }

  lemma AlignShift(off: nat, n: nat)
    requires off % 4 == 0
    ensures off + Align(n) == Align(off + n)
  {
  }

  lemma AlignBelow(n: nat, m: nat)
    requires n <= m && m % 4 == 0
    ensures Align(n) <= m
  {
  }

  function Put16(n: nat): (b: seq<byte>)
    ensures |b| == 2
  {
    [n % 256, n / 256 % 256]
  }

  function Put32(n: nat): (b: seq<byte>)
    ensures |b| == 4
  {
    [n % 256, n / 256 % 256, n / 256 / 256 % 256, n / 256 / 256 / 256 % 256]
  }

  function Get16(b: seq<byte>): (n: nat)
    requires |b| == 2
    ensures n < U16
  {
    (b[0] as int) + 256 * (b[1] as int)
  }

  function Get32(b: seq<byte>): (n: nat)
    requires |b| == 4
    ensures n < U32
  {
    (b[0] as int) + 256 * ((b[1] as int) + 256 * ((b[2] as int) + 256 * (b[3] as int)))
  }

  lemma Get16Put16(n: nat)
    requires n < U16
    ensures Get16(Put16(n)) == n
  {
  }

  lemma Get32Put32(n: nat)
    requires n < U32
    ensures Get32(Put32(n)) == n
  {
    var a, b, c := n / 256, n / 256 / 256, n / 256 / 256 / 256;
    assert n == n % 256 + 256 * a && a == a % 256 + 256 * b && b == b % 256 + 256 * c && c < 256;
  }

  /** Overwrites the bytes from `off` on. */
  function Put(buf: seq<byte>, off: nat, bytes: seq<byte>): (r: seq<byte>)
    requires off + |bytes| <= |buf|
    ensures |r| == |buf|
  {
    buf[..off] + bytes + buf[off + |bytes|..]
  }

  lemma PutAt(buf: seq<byte>, off: nat, bytes: seq<byte>)
    requires off + |bytes| <= |buf|
    ensures forall i :: 0 <= i < |buf| ==>
      Put(buf, off, bytes)[i] == if off <= i < off + |bytes| then bytes[i - off] else buf[i]
  {
  }

  lemma SliceOfSlice<T>(b: seq<T>, at: nat, n: nat, lo: nat, hi: nat)
    requires at + n <= |b| && lo <= hi <= n
    ensures b[at..at + n][lo..hi] == b[at + lo..at + hi]
  {
    var x, y := b[at..at + n][lo..hi], b[at + lo..at + hi];
    assert |x| == |y|;
    forall i | 0 <= i < |x| ensures x[i] == y[i] {
      assert x[i] == b[at..at + n][lo + i];
    }
  }

  lemma PutOther(buf: seq<byte>, off: nat, bytes: seq<byte>, lo: nat, hi: nat)
    requires off + |bytes| <= |buf| && lo <= hi <= |buf| && (hi <= off || off + |bytes| <= lo)
    ensures Put(buf, off, bytes)[lo..hi] == buf[lo..hi]
  {
  }

  lemma PutThere(buf: seq<byte>, off: nat, bytes: seq<byte>)
    requires off + |bytes| <= |buf|
    ensures Put(buf, off, bytes)[off..off + |bytes|] == bytes
  {
  }

  // ----- Attributes -----

  /** A list of attributes, each with its own data and possibly a nested list behind it. */
  datatype Attrs = End | Item(ty: nat, data: seq<byte>, sub: Sub, rest: Attrs)

  datatype Sub = NoSub | Nested(list: Attrs)

  function Count(l: Attrs): nat {
    if l.End? then 0 else 1 + Count(l.rest)
  }

  /** The length an attribute records: header, data, and the nested list after padding. */
  function ItemLen(l: Attrs): nat
    requires l.Item?
    decreases l, 0
  {
    if l.sub.Nested? && l.sub.list.Item? then Align(NLA_HDRLEN + |l.data|) + ListLen(l.sub.list)
    else NLA_HDRLEN + |l.data|
  }

  /** The last attribute is not padded. */
  function ListLen(l: Attrs): nat
    decreases l, 1
  {
    if l.End? then 0
    else if l.rest.End? then ItemLen(l)
    else Align(ItemLen(l)) + ListLen(l.rest)
  }

  /** Types are 16 bits wide. */
  predicate Typed(l: Attrs) {
    l.Item? ==> l.ty < U16 && (l.sub.Nested? ==> Typed(l.sub.list)) && Typed(l.rest)
  }

  /** All recorded lengths fit their 16 bits. */
  predicate Fits(l: Attrs) {
    l.Item? ==> ItemLen(l) < U16 && (l.sub.Nested? ==> Fits(l.sub.list)) && Fits(l.rest)
  }

  /** An attribute header and its data stand at `at`. */
  ghost predicate AttrAt(b: seq<byte>, at: nat, ty: nat, data: seq<byte>) {
    && at + NLA_HDRLEN + |data| <= |b|
    && b[at + 2..at + 4] == Put16(ty)
    && b[at + 4..at + 4 + |data|] == data
  }

  /** One attribute, nested list included, stands at `at`. */
  ghost predicate ItemAt(b: seq<byte>, at: nat, l: Attrs)
    requires l.Item?
    decreases l, 0
  {
    && AttrAt(b, at, l.ty, l.data) && at + ItemLen(l) <= |b|
    && b[at..at + 2] == Put16(ItemLen(l))
    && (l.sub.Nested? ==> ListAt(b, at + Align(NLA_HDRLEN + |l.data|), l.sub.list))
  }

  /** The bytes from `at` on spell the list; padding may be anything. */
  ghost predicate ListAt(b: seq<byte>, at: nat, l: Attrs)
    decreases l, 1
  {
    l.Item? ==> ItemAt(b, at, l) && ListAt(b, at + Align(ItemLen(l)), l.rest)
  }

  /**
   Which attributes nest: for a path of types, the number of bytes before the nested
   list, or none for a leaf.  Receivers know this; it is not on the wire.
   */
  type Policy = seq<nat> -> Sub'

  datatype Sub' = Leaf | After(prefix: nat)

  ghost predicate Conforms(l: Attrs, path: seq<nat>, pol: Policy)
    decreases l
  {
    l.Item? ==>
      && pol(path + [l.ty]) == (if l.sub.Nested? then After(|l.data|) else Leaf)
      && (l.sub.Nested? ==> Conforms(l.sub.list, path + [l.ty], pol))
      && Conforms(l.rest, path, pol)
  }

  datatype Decoded = Malformed | Good(list: Attrs)

  /** The RTA_OK / RTA_NEXT walk. */
  function Decode(b: seq<byte>, path: seq<nat>, pol: Policy): Decoded
    decreases |b|
  {
    if b == [] then Good(End)
    else if |b| < NLA_HDRLEN then Malformed
    else
      var len, ty := Get16(b[..2]), Get16(b[2..4]);
      if len < NLA_HDRLEN || len > |b| then Malformed
      else
        var rest := if Align(len) < |b| then Decode(b[Align(len)..], path, pol) else Good(End);
        match pol(path + [ty])
        case Leaf => if rest.Malformed? then Malformed else Good(Item(ty, b[4..len], NoSub, rest.list))
        case After(n) =>
          if 4 + n > len || rest.Malformed? then Malformed
          else
            var sub := if Align(4 + n) < len then Decode(b[Align(4 + n)..len], path + [ty], pol) else Good(End);
            if sub.Malformed? then Malformed else Good(Item(ty, b[4..4 + n], Nested(sub.list), rest.list))
  }

  lemma ListLenPositive(l: Attrs)
    requires l.Item?
    ensures ListLen(l) >= ItemLen(l) >= NLA_HDRLEN + |l.data|
    ensures l.rest.Item? ==> ListLen(l) == Align(ItemLen(l)) + ListLen(l.rest)
    ensures l.rest.End? ==> ListLen(l) == ItemLen(l)
    ensures l.sub.Nested? && l.sub.list.Item? ==> ItemLen(l) == Align(NLA_HDRLEN + |l.data|) + ListLen(l.sub.list)
    ensures !(l.sub.Nested? && l.sub.list.Item?) ==> ItemLen(l) == NLA_HDRLEN + |l.data|
  {
  }

  /** What the walk reads at the front of an attribute. */
  lemma ReadHeader(b: seq<byte>, at: nat, l: Attrs)
    requires l.Item? && ItemAt(b, at, l) && ItemLen(l) < U16 && l.ty < U16 && at + ListLen(l) <= |b|
    ensures var r := b[at..at + ListLen(l)];
      && |r| >= ItemLen(l) >= NLA_HDRLEN + |l.data|
      && Get16(r[..2]) == ItemLen(l) && Get16(r[2..4]) == l.ty && r[4..4 + |l.data|] == l.data
  {
    var n := ListLen(l);
    ListLenPositive(l);
    SliceOfSlice(b, at, n, 0, 2);
    SliceOfSlice(b, at, n, 2, 4);
    SliceOfSlice(b, at, n, 4, 4 + |l.data|);
    Get16Put16(ItemLen(l));
    Get16Put16(l.ty);
  }

  /** How the bytes of a list split into its first attribute, the nested list and the rest. */
  ghost predicate Splits(r: seq<byte>, l: Attrs, len: nat, own: nat, skip: nat, sub: seq<byte>, rest: seq<byte>) {
    && l.Item? && |r| >= len >= NLA_HDRLEN + |l.data|
    && Get16(r[..2]) == len && Get16(r[2..4]) == l.ty && r[4..4 + |l.data|] == l.data
    && (if l.rest.End? then |r| == len else skip < |r| && r[skip..] == rest)
    && (if l.sub.Nested? && l.sub.list.Item? then own < len && r[own..len] == sub else len == 4 + |l.data|)
  }

  lemma SplitRest(b: seq<byte>, at: nat, n: nat, skip: nat, m: nat, r: seq<byte>, rest: seq<byte>)
    requires at + n <= |b| && skip + m == n && r == b[at..at + n] && rest == b[at + skip..at + skip + m]
    ensures r[skip..] == rest
  {
  }

  lemma SplitSub(b: seq<byte>, at: nat, n: nat, own: nat, len: nat, m: nat, r: seq<byte>, sub: seq<byte>)
    requires at + n <= |b| && own + m == len <= n && r == b[at..at + n] && sub == b[at + own..at + own + m]
    ensures r[own..len] == sub
  {
    SliceOfSlice(b, at, n, own, len);
  }

  /** How long a list and its parts are. */
  ghost predicate Measured(l: Attrs, n: nat, len: nat, own: nat, skip: nat) {
    && l.Item? && n == ListLen(l) >= len == ItemLen(l) >= NLA_HDRLEN + |l.data|
    && own == Align(4 + |l.data|) && skip == Align(len)
    && (if l.rest.Item? then n == skip + ListLen(l.rest) && ListLen(l.rest) > 0 else n == len)
    && (if l.sub.Nested? && l.sub.list.Item? then len == own + ListLen(l.sub.list) && ListLen(l.sub.list) > 0
        else len == 4 + |l.data|)
  }

  lemma Measure(l: Attrs, n: nat, len: nat)
    requires l.Item? && n == ListLen(l) && len == ItemLen(l)
    ensures Measured(l, n, len, Align(4 + |l.data|), Align(len))
  {
    ListLenPositive(l);
    if l.rest.Item? {
      ListLenPositive(l.rest);
    }
    if l.sub.Nested? && l.sub.list.Item? {
      ListLenPositive(l.sub.list);
    }
  }

  lemma SameSlice(b: seq<byte>, at: nat, b': seq<byte>, at': nat, n: nat, lo: nat, hi: nat)
    requires at + n <= |b| && at' + n <= |b'| && b'[at'..at' + n] == b[at..at + n] && lo <= hi <= n
    ensures b'[at' + lo..at' + hi] == b[at + lo..at + hi]
  {
    SliceOfSlice(b, at, n, lo, hi);
    SliceOfSlice(b', at', n, lo, hi);
  }

  lemma AttrMoved(b: seq<byte>, at: nat, b': seq<byte>, at': nat, ty: nat, data: seq<byte>, n: nat)
    requires AttrAt(b, at, ty, data) && n >= NLA_HDRLEN + |data|
    requires at + n <= |b| && at' + n <= |b'| && b'[at'..at' + n] == b[at..at + n]
    ensures AttrAt(b', at', ty, data) && b'[at'..at' + 2] == b[at..at + 2]
  {
    SameSlice(b, at, b', at', n, 0, 2);
    SameSlice(b, at, b', at', n, 2, 4);
    SameSlice(b, at, b', at', n, 4, 4 + |data|);
  }

  /** An attribute is spelled by its own bytes, wherever they stand. */
  lemma {:induction false} ItemMoved(b: seq<byte>, at: nat, b': seq<byte>, at': nat, l: Attrs, len: nat)
    requires l.Item? && ItemAt(b, at, l) && len == ItemLen(l)
    requires at + len <= |b| && at' + len <= |b'| && b'[at'..at' + len] == b[at..at + len]
    ensures ItemAt(b', at', l)
    decreases l, 0
  {
    Measure(l, ListLen(l), len);
    AttrMoved(b, at, b', at', l.ty, l.data, len);
    if l.sub.Nested? && l.sub.list.Item? {
      PartMoved(b, at, b', at', len, Align(4 + |l.data|), l.sub.list);
    }
  }

  lemma {:induction false} ListMoved(b: seq<byte>, at: nat, b': seq<byte>, at': nat, l: Attrs, n: nat)
    requires ListAt(b, at, l) && n == ListLen(l)
    requires at + n <= |b| && at' + n <= |b'| && b'[at'..at' + n] == b[at..at + n]
    ensures ListAt(b', at', l)
    decreases l, 1
  {
    if l.Item? {
      var len := ItemLen(l);
      Measure(l, n, len);
      SameSlice(b, at, b', at', n, 0, len);
      ItemMoved(b, at, b', at', l, len);
      if l.rest.Item? {
        PartMoved(b, at, b', at', n, Align(len), l.rest);
      }
    }
  }

  lemma {:induction false} PartMoved(b: seq<byte>, at: nat, b': seq<byte>, at': nat, n: nat, skip: nat, l: Attrs)
    requires ListAt(b, at + skip, l) && n == skip + ListLen(l)
    requires at + n <= |b| && at' + n <= |b'| && b'[at'..at' + n] == b[at..at + n]
    ensures ListAt(b', at' + skip, l)
    decreases l, 2
  {
    SameSlice(b, at, b', at', n, skip, n);
    ListMoved(b, at + skip, b', at' + skip, l, n - skip);
  }

  lemma SplitsAt(b: seq<byte>, at: nat, l: Attrs, n: nat, len: nat, own: nat, skip: nat,
                 r: seq<byte>, sub: seq<byte>, rest: seq<byte>)
    requires Measured(l, n, len, own, skip) && ItemAt(b, at, l) && len < U16 && l.ty < U16
    requires at + n <= |b| && r == b[at..at + n]
    requires l.rest.Item? ==> rest == b[at + skip..at + n]
    requires l.sub.Nested? && l.sub.list.Item? ==> sub == b[at + own..at + len]
    ensures Splits(r, l, len, own, skip, sub, rest)
  {
    ReadHeader(b, at, l);
    if l.rest.Item? {
      SplitRest(b, at, n, skip, n - skip, r, rest);
    }
    if l.sub.Nested? && l.sub.list.Item? {
      SplitSub(b, at, n, own, len, len - own, r, sub);
    }
  }

  lemma DecodeSplit(r: seq<byte>, l: Attrs, len: nat, path: seq<nat>, pol: Policy, sub: seq<byte>, rest: seq<byte>)
    requires l.Item? && Splits(r, l, len, Align(4 + |l.data|), Align(len), sub, rest)
    requires pol(path + [l.ty]) == if l.sub.Nested? then After(|l.data|) else Leaf
    requires l.rest.Item? ==> Decode(rest, path, pol) == Good(l.rest)
    requires l.sub.Nested? && l.sub.list.Item? ==> Decode(sub, path + [l.ty], pol) == Good(l.sub.list)
    ensures Decode(r, path, pol) == Good(l)
  {
  }

  lemma DecodeStep(b: seq<byte>, at: nat, l: Attrs, n: nat, len: nat, own: nat, skip: nat, path: seq<nat>, pol: Policy,
                   r: seq<byte>, sub: seq<byte>, rest: seq<byte>)
    requires Measured(l, n, len, own, skip) && ItemAt(b, at, l) && len < U16 && l.ty < U16
    requires at + n <= |b| && r == b[at..at + n]
    requires pol(path + [l.ty]) == if l.sub.Nested? then After(|l.data|) else Leaf
    requires l.rest.Item? ==> rest == b[at + skip..at + n] && Decode(rest, path, pol) == Good(l.rest)
    requires l.sub.Nested? && l.sub.list.Item? ==>
      sub == b[at + own..at + len] && Decode(sub, path + [l.ty], pol) == Good(l.sub.list)
    ensures Decode(r, path, pol) == Good(l)
  {
    SplitsAt(b, at, l, n, len, own, skip, r, sub, rest);
    DecodeSplit(r, l, len, path, pol, sub, rest);
  }

  lemma {:induction false} DecodeRest(b: seq<byte>, at: nat, l: Attrs, n: nat, len: nat, own: nat, skip: nat,
                                      path: seq<nat>, pol: Policy) returns (rest: seq<byte>)
    requires Measured(l, n, len, own, skip) && at + n <= |b|
    requires ListAt(b, at, l) && Typed(l) && Fits(l) && Conforms(l, path, pol)
    ensures l.rest.Item? ==> rest == b[at + skip..at + n] && Decode(rest, path, pol) == Good(l.rest)
    decreases l, 0
  {
    rest := [];
    if l.rest.Item? {
      rest := b[at + skip..at + n];
      DecodeSpelled(b, at + skip, l.rest, path, pol, rest);
    }
  }

  lemma {:induction false} DecodeSub(b: seq<byte>, at: nat, l: Attrs, n: nat, len: nat, own: nat, skip: nat,
                                     path: seq<nat>, pol: Policy) returns (sub: seq<byte>)
    requires Measured(l, n, len, own, skip) && at + n <= |b|
    requires ListAt(b, at, l) && Typed(l) && Fits(l) && Conforms(l, path, pol)
    ensures l.sub.Nested? && l.sub.list.Item? ==>
      sub == b[at + own..at + len] && Decode(sub, path + [l.ty], pol) == Good(l.sub.list)
    decreases l, 0
  {
    sub := [];
    if l.sub.Nested? && l.sub.list.Item? {
      sub := b[at + own..at + len];
      DecodeSpelled(b, at + own, l.sub.list, path + [l.ty], pol, sub);
    }
  }

  /** Decoding gives the list back. */
  lemma {:induction false} DecodeSpelled(b: seq<byte>, at: nat, l: Attrs, path: seq<nat>, pol: Policy, r: seq<byte>)
    requires ListAt(b, at, l) && Typed(l) && Fits(l) && Conforms(l, path, pol)
    requires at + ListLen(l) <= |b| && r == b[at..at + ListLen(l)]
    ensures Decode(r, path, pol) == Good(l)
    decreases l, 1
  {
    if l.Item? {
      var n, len := ListLen(l), ItemLen(l);
      var own, skip := Align(4 + |l.data|), Align(len);
      Measure(l, n, len);
      var rest := DecodeRest(b, at, l, n, len, own, skip, path, pol);
      var sub := DecodeSub(b, at, l, n, len, own, skip, path, pol);
      DecodeStep(b, at, l, n, len, own, skip, path, pol, r, sub, rest);
    }
  }
}
