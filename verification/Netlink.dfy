/** The netlink attributes of the QDMA tools: written into a message buffer one after the other
    (dmactl.c), read back in one pass. */
module Netlink {
  import opened Arith

  type Byte = n: nat | n < 256

  /** NLMSG_LENGTH(GENL_HDRLEN), which is also sizeof(struct xnl_hdr). */
  const HEADER: nat := 20
  const XNL_ATTR_GENMSG: nat := 0
  /** Number of attribute types, in a build without ERR_DEBUG. */
  const XNL_ATTR_MAX: nat := 72

  /** What is written: an integer attribute, or a message string. */
  datatype Attr = Int(attrType: nat, v: nat) | Msg(text: seq<Byte>)
  {
    /** What the writers accept: 16-bit types other than the string type, 32-bit values, strings
        without NUL whose length fits the 16-bit length field. */
    predicate Valid() {
      if Int? then attrType < 0x1_0000 && attrType != XNL_ATTR_GENMSG && v < 0x1_0000_0000
      else |text| + 5 < 0x1_0000 && 0 !in text
    }
    /** nla_len */
    function Len(): nat { if Int? then 8 else |text| + 5 }
    /** Bytes taken in the message. */
    function Size(): nat { Align(Len()) }
  }

  function Align(n: nat): nat { (n + 3) / 4 * 4 }

  /** The least multiple of four that is not below n. */
  lemma AlignBound(n: nat)
    ensures n <= Align(n) < n + 4 && Align(n) % 4 == 0
  {
  }

  // --- little-endian fields ------------------------------------------------------------------

  function U16(b: seq<Byte>, at: nat): nat
    requires at + 2 <= |b|
  {
    (b[at] as nat) + 256 * (b[at + 1] as nat)
  }

  function U32(b: seq<Byte>, at: nat): nat
    requires at + 4 <= |b|
  {
    U16(b, at) + 0x1_0000 * U16(b, at + 2)
  }

  lemma SameU16(b: seq<Byte>, b': seq<Byte>, at: nat)
    requires at + 2 <= |b| == |b'| && b[at] == b'[at] && b[at + 1] == b'[at + 1]
    ensures U16(b', at) == U16(b, at)
  {
  }

  lemma Halves(v: nat)
    requires v < 0x1_0000
    ensures v % 256 + 256 * (v / 256) == v && v / 256 < 256
  {
  }

  /** The bytes of the two halves of a word. */
  lemma WordBytes(v: nat)
    requires v < 0x1_0000_0000
    ensures var low, high := v % 0x1_0000, v / 0x1_0000;
            && low % 256 == v % 256 && low / 256 == v / 256 % 256 && high / 256 == v / 0x100_0000
            && high < 0x1_0000 && low + 0x1_0000 * high == v
  {
    Halves(v % 0x1_0000);
    LowByte(v);
    HighByte(v);
  }

  lemma LowByte(v: nat)
    ensures v % 0x1_0000 % 256 == v % 256 && v % 0x1_0000 / 256 == v / 256 % 256
  {
    var q, h, l := v / 0x1_0000, v % 0x1_0000 / 256, v % 0x1_0000 % 256;
    DivUnique(v, 256, 256 * q + h, l);
    DivUnique(256 * q + h, 256, q, h);
  }

  lemma HighByte(v: nat)
    ensures v / 0x1_0000 / 256 == v / 0x100_0000
  {
  }

  // --- what a message holds --------------------------------------------------------------------

  /** The attribute at offset `at`. */
  ghost predicate Holds(b: seq<Byte>, at: nat, a: Attr) {
    && at + a.Size() <= |b| && a.Len() <= a.Size()
    && U16(b, at) == a.Len()
    && match a
       case Int(t, v) => U16(b, at + 2) == t && U32(b, at + 4) == v
       case Msg(text) =>
         && U16(b, at + 2) == XNL_ATTR_GENMSG
         && b[at + 4..at + 4 + |text|] == text && b[at + 4 + |text|] == 0
  }

  /** The bytes in [at, end) are exactly these attributes. */
  ghost predicate Encodes(b: seq<Byte>, at: nat, end: nat, attrs: seq<Attr>)
    decreases |attrs|
  {
    && end <= |b|
    && if attrs == [] then at == end
       else attrs[0].Valid() && Holds(b, at, attrs[0]) && Encodes(b, at + attrs[0].Size(), end, attrs[1..])
  }

  /** The bytes that attributes take. */
  function TotalSize(attrs: seq<Attr>): nat {
    if attrs == [] then 0 else TotalSize(attrs[..|attrs| - 1]) + attrs[|attrs| - 1].Size()
  }

  lemma HoldsFrame(b: seq<Byte>, b': seq<Byte>, at: nat, a: Attr, end: nat)
    requires Holds(b, at, a) && at + a.Size() <= end <= |b| == |b'| && b'[..end] == b[..end]
    ensures Holds(b', at, a)
  {
    assert forall i {:trigger b'[i]} | 0 <= i < end :: b'[i] == b'[..end][i] == b[..end][i] == b[i];
    if a.Msg? { assert b'[at + 4..at + 4 + |a.text|] == b[at + 4..at + 4 + |a.text|]; }
  }

  lemma {:induction false} EncodesAhead(b: seq<Byte>, at: nat, end: nat, attrs: seq<Attr>)
    requires Encodes(b, at, end, attrs)
    ensures at <= end
    decreases |attrs|
  {
    if attrs != [] { EncodesAhead(b, at + attrs[0].Size(), end, attrs[1..]); }
  }

  lemma NextAligned(at: nat, a: Attr)
    requires at % 4 == 0
    ensures (at + a.Size()) % 4 == 0
  {
    AlignBound(a.Len());
  }

  /** The attributes lie one after the other, and the end is a multiple of four. */
  lemma {:induction false} EndAligned(b: seq<Byte>, at: nat, end: nat, attrs: seq<Attr>)
    requires Encodes(b, at, end, attrs) && at % 4 == 0
    ensures end % 4 == 0 && end == at + TotalSize(attrs)
    decreases |attrs|
  {
    hide Holds, Attr.Size, Attr.Valid, TotalSize;
    NothingSent(attrs);
    if attrs != [] {
      NextAligned(at, attrs[0]);
      EndAligned(b, at + attrs[0].Size(), end, attrs[1..]);
      SizeFront(attrs);
    }
  }

  /** Every attribute starts at a multiple of four, behind those before it. */
  lemma {:induction false} EveryAttrAligned(b: seq<Byte>, at: nat, end: nat, attrs: seq<Attr>, k: nat)
    requires Encodes(b, at, end, attrs) && at % 4 == 0 && k < |attrs|
    ensures (at + TotalSize(attrs[..k])) % 4 == 0 && Holds(b, at + TotalSize(attrs[..k]), attrs[k])
    decreases |attrs|
  {
    hide Holds, Attr.Size, Attr.Valid, TotalSize;
    NothingSent(attrs);
    if k > 0 {
      NextAligned(at, attrs[0]);
      EveryAttrAligned(b, at + attrs[0].Size(), end, attrs[1..], k - 1);
      assert attrs[..k][1..] == attrs[1..][..k - 1];
      SizeFront(attrs[..k]);
    }
  }

  lemma NothingSent(attrs: seq<Attr>)
    ensures attrs[..0] == [] && TotalSize([]) == 0
  {
  }

  lemma {:induction false} SizeFront(attrs: seq<Attr>)
    requires attrs != []
    ensures TotalSize(attrs) == attrs[0].Size() + TotalSize(attrs[1..])
    decreases |attrs|
  {
    hide Attr.Size;
    var k := |attrs| - 1;
    if k > 0 {
      SizeFront(attrs[..k]);
      assert attrs[1..][..k - 1] == attrs[..k][1..];
    }
  }

  /** Appending behind the end: what was there stays, the new attribute is added. */
  lemma {:induction false} EncodesSnoc(b: seq<Byte>, b': seq<Byte>, at: nat, end: nat, attrs: seq<Attr>, a: Attr)
    requires Encodes(b, at, end, attrs) && |b| == |b'| && b'[..end] == b[..end]
    requires a.Valid() && Holds(b', end, a)
    ensures Encodes(b', at, end + a.Size(), attrs + [a])
    decreases |attrs|
  {
    hide Holds;
    if attrs == [] {
      HoldsFits(b', end, a);
      assert (attrs + [a])[1..] == [];
    } else {
      EncodesAhead(b, at + attrs[0].Size(), end, attrs[1..]);
      HoldsFrame(b, b', at, attrs[0], end);
      EncodesSnoc(b, b', at + attrs[0].Size(), end, attrs[1..], a);
      assert (attrs + [a])[1..] == attrs[1..] + [a];
    }
  }

  lemma HoldsFits(b: seq<Byte>, at: nat, a: Attr)
    requires Holds(b, at, a)
    ensures at + a.Size() <= |b|
  {
  }

  /** The first attribute of a non-empty stretch. */
  lemma Front(b: seq<Byte>, at: nat, end: nat, attrs: seq<Attr>)
    requires Encodes(b, at, end, attrs) && at < end
    ensures attrs != [] && Encodes(b, at + attrs[0].Size(), end, attrs[1..])
    ensures var a := attrs[0];
            && a.Valid() && at + 5 <= at + a.Size() <= end <= |b| && Align(U16(b, at)) == a.Size()
            && (a.Int? ==> at + 8 <= end && U16(b, at + 2) == a.attrType && U32(b, at + 4) == a.v)
            && (a.Msg? ==>
                  && U16(b, at + 2) == XNL_ATTR_GENMSG && at + 4 + |a.text| < |b|
                  && b[at + 4..at + 4 + |a.text|] == a.text && b[at + 4 + |a.text|] == 0)
  {
    AlignBound(attrs[0].Len());
    EncodesAhead(b, at + attrs[0].Size(), end, attrs[1..]);
  }

  /** Nothing is left at the end. */
  lemma AtTheEnd(b: seq<Byte>, end: nat, attrs: seq<Attr>)
    requires Encodes(b, end, end, attrs)
    ensures attrs == []
  {
    if attrs != [] {
      AlignBound(attrs[0].Len());
      EncodesAhead(b, end + attrs[0].Size(), end, attrs[1..]);
    }
  }

  /** The three writes of a string attribute make it readable and leave what is before it alone. */
  lemma MakesMsg(before: seq<Byte>, typed: seq<Byte>, sized: seq<Byte>, after: seq<Byte>, end: nat, text: seq<Byte>)
    requires |before| == |typed| == |sized| == |after| && Msg(text).Valid() && end + Msg(text).Size() <= |before|
    requires forall i | 0 <= i < |before| && !(end + 2 <= i < end + 4) :: typed[i] == before[i]
    requires forall i | 0 <= i < |before| && !(end <= i < end + 2) :: sized[i] == typed[i]
    requires |text| + 5 <= Msg(text).Size()
    requires forall i | 0 <= i < |before| && !(end + 4 <= i <= end + 4 + |text|) :: after[i] == sized[i]
    requires U16(typed, end + 2) == XNL_ATTR_GENMSG && U16(sized, end) == |text| + 5
    requires after[end + 4..end + 4 + |text|] == text && after[end + 4 + |text|] == 0
    ensures Holds(after, end, Msg(text)) && after[..end] == before[..end]
  {
    hide Align;
    assert U16(after, end) == U16(sized, end) && U16(after, end + 2) == U16(typed, end + 2);
  }

  // --- what reading it means ----------------------------------------------------------------------

  /** The value table and the emitted strings after reading attributes; it stops at an unknown type. */
  datatype Reading = Reading(table: seq<nat>, log: seq<seq<Byte>>, ok: bool)

  function Read(table: seq<nat>, attrs: seq<Attr>): (r: Reading)
    requires |table| == XNL_ATTR_MAX
    ensures |r.table| == XNL_ATTR_MAX
    decreases |attrs|
  {
    if attrs == [] then Reading(table, [], true)
    else
      match attrs[0]
      case Int(t, v) =>
        if t >= XNL_ATTR_MAX then Reading(table, [], false) else Read(table[t := v], attrs[1..])
      case Msg(text) =>
        var rest := Read(table, attrs[1..]);
        rest.(log := [text] + rest.log)
  }

  /** One attribute read. */
  lemma ReadOne(table: seq<nat>, attrs: seq<Attr>)
    requires |table| == XNL_ATTR_MAX && attrs != []
    ensures match attrs[0]
            case Int(t, v) =>
              if t >= XNL_ATTR_MAX then Read(table, attrs) == Reading(table, [], false)
              else Read(table, attrs) == Read(table[t := v], attrs[1..])
            case Msg(text) =>
              var rest := Read(table, attrs[1..]);
              Read(table, attrs) == Reading(rest.table, [text] + rest.log, rest.ok)
  {
  }

  /** What is logged before the rest is read. */
  ghost predicate Progress(all: Reading, log: seq<seq<Byte>>, rest: Reading) {
    all == Reading(rest.table, log + rest.log, rest.ok)
  }

  lemma StartLog(all: Reading)
    ensures Progress(all, [], all)
  {
    assert [] + all.log == all.log;
  }

  lemma LogOne(all: Reading, log: seq<seq<Byte>>, text: seq<Byte>, rest: Reading)
    requires Progress(all, log, Reading(rest.table, [text] + rest.log, rest.ok))
    ensures Progress(all, log + [text], rest)
  {
    assert log + ([text] + rest.log) == log + [text] + rest.log;
  }

  lemma Finished(all: Reading, log: seq<seq<Byte>>, table: seq<nat>)
    requires |table| == XNL_ATTR_MAX && Progress(all, log, Read(table, []))
    ensures all == Reading(table, log, true)
  {
    assert log + [] == log;
  }

  lemma Rejected(all: Reading, log: seq<seq<Byte>>, table: seq<nat>)
    requires Progress(all, log, Reading(table, [], false))
    ensures all == Reading(table, log, false)
  {
    assert log + [] == log;
  }

  /** The strings among the attributes, in order. */
  function Messages(attrs: seq<Attr>): seq<seq<Byte>> {
    if attrs == [] then []
    else if attrs[0].Msg? then [attrs[0].text] + Messages(attrs[1..]) else Messages(attrs[1..])
  }

  /** One message after the other, integers left out. */
  lemma {:induction false} MessagesConcat(a: seq<Attr>, b: seq<Attr>)
    ensures Messages(a + b) == Messages(a) + Messages(b)
    ensures forall text :: Messages([Msg(text)]) == [text]
    ensures forall t, v :: Messages([Int(t, v)]) == []
    decreases |a|
  {
    if a == [] {
      assert a + b == b;
    } else {
      assert (a + b)[1..] == a[1..] + b;
      MessagesConcat(a[1..], b);
    }
  }

  ghost predicate KnownTypes(attrs: seq<Attr>) {
    forall i | 0 <= i < |attrs| && attrs[i].Int? :: attrs[i].attrType < 72
  }

  /** The strings come out in order, and reading succeeds exactly when every type is known. */
  lemma {:induction false} ReadsMessages(table: seq<nat>, attrs: seq<Attr>)
    requires |table| == XNL_ATTR_MAX
    ensures Read(table, attrs).ok <==> KnownTypes(attrs)
    ensures KnownTypes(attrs) ==> Read(table, attrs).log == Messages(attrs)
    decreases |attrs|
  {
    if attrs != [] {
      assert KnownTypes(attrs) <==> KnownTypes(attrs[..1]) && KnownTypes(attrs[1..]) by {
        assert attrs == attrs[..1] + attrs[1..];
      }
      match attrs[0]
      case Int(t, v) => if t < XNL_ATTR_MAX { ReadsMessages(table[t := v], attrs[1..]); }
      case Msg(_) => ReadsMessages(table, attrs[1..]);
    }
  }

  /** At the first unknown type reading stops: the table and the strings are those of what is before it. */
  lemma {:induction false} StopsAtUnknown(table: seq<nat>, attrs: seq<Attr>, k: nat)
    requires |table| == XNL_ATTR_MAX && k < |attrs| && KnownTypes(attrs[..k])
    requires attrs[k].Int? && attrs[k].attrType >= XNL_ATTR_MAX
    ensures Read(table, attrs) == Reading(Read(table, attrs[..k]).table, Messages(attrs[..k]), false)
    decreases |attrs|
  {
    if k > 0 {
      var rest := attrs[1..];
      assert attrs[..k][1..] == rest[..k - 1] && attrs[..k][0] == attrs[0];
      assert KnownTypes(rest[..k - 1]) by {
        forall i | 0 <= i < k - 1 && rest[i].Int? ensures rest[i].attrType < XNL_ATTR_MAX {
          assert attrs[..k][i + 1] == rest[i];
        }
      }
      match attrs[0]
      case Int(u, v) => StopsAtUnknown(table[u := v], rest, k - 1);
      case Msg(_) => StopsAtUnknown(table, rest, k - 1);
    }
  }

  /** A type that does not occur keeps its table entry. */
  lemma {:induction false} UntouchedType(table: seq<nat>, attrs: seq<Attr>, t: nat)
    requires |table| == XNL_ATTR_MAX && t < XNL_ATTR_MAX
    requires forall i | 0 <= i < |attrs| && attrs[i].Int? :: attrs[i].attrType != t
    ensures Read(table, attrs).table[t] == table[t]
    decreases |attrs|
  {
    if attrs != [] {
      match attrs[0]
      case Int(u, v) => if u < XNL_ATTR_MAX { UntouchedType(table[u := v], attrs[1..], t); }
      case Msg(_) => UntouchedType(table, attrs[1..], t);
    }
  }

  /** Per type the last value written wins. */
  lemma {:induction false} LastValueWins(table: seq<nat>, attrs: seq<Attr>, k: nat)
    requires |table| == XNL_ATTR_MAX && KnownTypes(attrs) && k < |attrs| && attrs[k].Int?
    requires forall i | k < i < |attrs| && attrs[i].Int? :: attrs[i].attrType != attrs[k].attrType
    ensures Read(table, attrs).table[attrs[k].attrType] == attrs[k].v
    decreases |attrs|
  {
    var rest := attrs[1..];
    if k == 0 {
      UntouchedType(table[attrs[0].attrType := attrs[0].v], rest, attrs[0].attrType);
    } else {
      assert rest[k - 1] == attrs[k];
      match attrs[0]
      case Int(u, v) => LastValueWins(table[u := v], rest, k - 1);
      case Msg(_) => LastValueWins(table, rest, k - 1);
    }
  }

  /** A message under construction: the buffer that starts with the header, and nlmsg_len. */
  class Message {
    const buf: array<Byte>
    var nlmsgLen: nat

    ghost predicate Valid(attrs: seq<Attr>)
      reads this, buf
    {
      Encodes(buf[..], HEADER, nlmsgLen, attrs)
    }

    constructor (size: nat)
      requires HEADER <= size
      ensures fresh(buf) && buf.Length == size && Valid([]) && nlmsgLen == 20
    {
      buf := new Byte[size](_ => 0);
      nlmsgLen := HEADER;
    }

    /** xnl_msg_set_hdr: a fresh header, nothing behind it. */
    method SetHeader()
      requires HEADER <= buf.Length
      modifies this
      ensures nlmsgLen == 20 && Valid([])
    {
      nlmsgLen := HEADER;
    }

    method Put16(at: nat, v: nat)
      requires at + 2 <= buf.Length && v < 0x1_0000
      modifies buf
      ensures U16(buf[..], at) == v && buf[at] == v % 256 && buf[at + 1] == v / 256
      ensures forall i | 0 <= i < buf.Length && !(at <= i < at + 2) :: buf[i] == old(buf[i])
    {
      Halves(v);
      buf[at] := v % 256;
      buf[at + 1] := v / 256;
    }

    method Put32(at: nat, v: nat)
      requires at + 4 <= buf.Length && v < 0x1_0000_0000
      modifies buf
      ensures U32(buf[..], at) == v
      ensures buf[at] == v % 256 && buf[at + 1] == v / 256 % 256
      ensures buf[at + 2] == v / 0x1_0000 % 256 && buf[at + 3] == v / 0x100_0000
      ensures forall i | 0 <= i < buf.Length && !(at <= i < at + 4) :: buf[i] == old(buf[i])
    {
      WordBytes(v);
      hide U16;
      Put16(at, v % 0x1_0000);
      ghost var low := buf[..];
      Put16(at + 2, v / 0x1_0000);
      SameU16(low, buf[..], at);
    }

    /** xnl_msg_add_int_attr */
    method AddInt(attrType: nat, v: nat, ghost attrs: seq<Attr>)
      requires Valid(attrs) && Int(attrType, v).Valid() && nlmsgLen + 8 <= buf.Length
      modifies this`nlmsgLen, buf
      ensures Valid(attrs + [Int(attrType, v)])
      ensures nlmsgLen == old(nlmsgLen) + 8 && nlmsgLen % 4 == 0
      ensures forall i | 0 <= i < buf.Length && !(old(nlmsgLen) <= i < nlmsgLen) :: buf[i] == old(buf[i])
      ensures buf[old(nlmsgLen)..nlmsgLen] ==
              [8, 0, attrType % 256, attrType / 256, v % 256, v / 256 % 256, v / 0x1_0000 % 256, v / 0x100_0000]
    {
      hide Encodes, Holds, U16;
      ghost var before, end := buf[..], nlmsgLen;
      PutInt(nlmsgLen, attrType, v);
      EncodesSnoc(before, buf[..], HEADER, end, attrs, Int(attrType, v));
      EndAligned(before, HEADER, end, attrs);
      nlmsgLen := nlmsgLen + Align(8);
    }

    /** The type, the length and the value. */
    method PutInt(at: nat, attrType: nat, v: nat)
      requires Int(attrType, v).Valid() && at + 8 <= buf.Length
      modifies buf
      ensures Holds(buf[..], at, Int(attrType, v)) && buf[..][..at] == old(buf[..])[..at]
      ensures forall i | 0 <= i < buf.Length && !(at <= i < at + 8) :: buf[i] == old(buf[i])
      ensures buf[at..at + 8] ==
              [8, 0, attrType % 256, attrType / 256, v % 256, v / 256 % 256, v / 0x1_0000 % 256, v / 0x100_0000]
    {
      hide U16, U32;
      ghost var before := buf[..];
      Put16(at + 2, attrType);
      ghost var typed := buf[..];
      Put16(at, 8);
      ghost var sized := buf[..];
      Put32(at + 4, v);
      SameU16(sized, buf[..], at);
      SameU16(typed, buf[..], at + 2);
    }

    /** xnl_msg_add_str_attr for a message string. */
    method AddMsg(s: seq<Byte>, ghost attrs: seq<Attr>)
      requires Valid(attrs) && Msg(s).Valid() && nlmsgLen + Align(|s| + 5) <= buf.Length
      modifies this`nlmsgLen, buf
      ensures Valid(attrs + [Msg(s)])
      ensures nlmsgLen == old(nlmsgLen) + Msg(s).Size()
      ensures old(nlmsgLen) + |s| + 5 <= nlmsgLen < old(nlmsgLen) + |s| + 9 && nlmsgLen % 4 == 0
      ensures forall i | 0 <= i < buf.Length && !(old(nlmsgLen) <= i < old(nlmsgLen) + |s| + 5) :: buf[i] == old(buf[i])
      ensures buf[old(nlmsgLen)..old(nlmsgLen) + |s| + 5] == [(|s| + 5) % 256, (|s| + 5) / 256, 0, 0] + s + [0]
    {
      hide Align, Encodes, Holds, U16;
      AlignBound(|s| + 5);
      ghost var before, end := buf[..], nlmsgLen;
      PutMsg(nlmsgLen, s);
      EncodesSnoc(before, buf[..], HEADER, end, attrs, Msg(s));
      EndAligned(before, HEADER, end, attrs);
      nlmsgLen := nlmsgLen + Align(|s| + 5);
    }

    /** The type, the length and the string itself. */
    method PutMsg(at: nat, s: seq<Byte>)
      requires Msg(s).Valid() && |s| + 5 <= Msg(s).Size() && at + Msg(s).Size() <= buf.Length
      modifies buf
      ensures Holds(buf[..], at, Msg(s)) && buf[..][..at] == old(buf[..])[..at]
      ensures forall i | 0 <= i < buf.Length && !(at <= i < at + |s| + 5) :: buf[i] == old(buf[i])
      ensures buf[at..at + |s| + 5] == [(|s| + 5) % 256, (|s| + 5) / 256, 0, 0] + s + [0]
    {
      hide Align, Encodes, Holds, U16;
      ghost var before := buf[..];
      Put16(at + 2, XNL_ATTR_GENMSG);
      ghost var typed := buf[..];
      Put16(at, |s| + 5);
      ghost var sized := buf[..];
      CopyString(at + 4, s);
      MakesMsg(before, typed, sized, buf[..], at, s);
    }

    /** strcpy */
    method CopyString(at: nat, s: seq<Byte>)
      requires at + |s| < buf.Length
      modifies buf
      ensures buf[at..at + |s|] == s && buf[at + |s|] == 0
      ensures forall i | 0 <= i < buf.Length && !(at <= i <= at + |s|) :: buf[i] == old(buf[i])
    {
      for k := 0 to |s|
        invariant forall i | 0 <= i < buf.Length :: buf[i] == if at <= i < at + k then s[i - at] else old(buf[i])
      {
        buf[at + k] := s[k];
      }
      buf[at + |s|] := 0;
    }

    /** The string at an offset, as the log callback reads it. */
    method StringAt(at: nat, ghost text: seq<Byte>) returns (s: seq<Byte>)
      requires at + |text| < buf.Length && buf[at..at + |text|] == text && buf[at + |text|] == 0 && 0 !in text
      ensures s == text
    {
      s := [];
      assert forall k | 0 <= k < |text| :: text[k] == buf[at..at + |text|][k] == buf[at + k];
      while buf[at + |s|] != 0
        invariant |s| <= |text| && s == text[..|s|]
        decreases |text| - |s|
      {
        s := s + [buf[at + |s|]];
      }
    }

    /** One attribute, by its kind. */
    method Append(a: Attr, ghost attrs: seq<Attr>)
      requires Valid(attrs) && a.Valid() && nlmsgLen + a.Size() <= buf.Length
      modifies this`nlmsgLen, buf
      ensures Valid(attrs + [a]) && nlmsgLen == old(nlmsgLen) + a.Size()
    {
      hide Encodes;
      match a
      case Int(t, v) => AddInt(t, v, attrs);
      case Msg(s) => AddMsg(s, attrs);
    }

    /** recv_attrs: on a message made of attributes it consumes exactly the message, stores integers,
        hands strings to the log in order, and stops at the first unknown type. */
    method RecvAttrs(attrs: array<nat>, ghost sent: seq<Attr>) returns (ok: bool, log: seq<seq<Byte>>)
      requires Valid(sent) && attrs.Length == XNL_ATTR_MAX
      modifies attrs
      ensures Reading(attrs[..], log, ok) == Read(old(attrs[..]), sent)
    {
      hide Align, U16, U32, Encodes, Read, Progress;
      var p: nat := HEADER;
      var maxlen: int := nlmsgLen - HEADER;
      log := [];
      ghost var rest, all := sent, Read(attrs[..], sent);
      EncodesAhead(buf[..], HEADER, nlmsgLen, sent);
      StartLog(all);
      while maxlen > 0
        invariant p + maxlen == nlmsgLen && 0 <= maxlen
        invariant Encodes(buf[..], p, nlmsgLen, rest)
        invariant Progress(all, log, Read(attrs[..], rest))
        decreases maxlen
      {
        Front(buf[..], p, nlmsgLen, rest);
        ghost var a := rest[0];
        ReadOne(attrs[..], rest);
        var len := Align(U16(buf[..], p));
        var nlaType := U16(buf[..], p + 2);
        if nlaType >= XNL_ATTR_MAX {
          Rejected(all, log, attrs[..]);
          return false, log;
        }
        if nlaType == XNL_ATTR_GENMSG {
          var s := StringAt(p + 4, a.text);
          LogOne(all, log, s, Read(attrs[..], rest[1..]));
          log := log + [s];
        } else {
          assert attrs[..][nlaType := a.v] == attrs[..nlaType] + [a.v] + attrs[nlaType + 1..];
          attrs[nlaType] := U32(buf[..], p + 4);
        }
        rest := rest[1..];
        p := p + len;
        maxlen := maxlen - len;
      }
      AtTheEnd(buf[..], p, rest);
      Finished(all, log, attrs[..]);
      ok := true;
    }
  }

  /** Whatever is appended to a fresh header is read back: the last value per type, the strings in
      order. */
  method RoundTrip(attrs: seq<Attr>, table: array<nat>) returns (ok: bool, log: seq<seq<Byte>>)
    requires table.Length == XNL_ATTR_MAX && forall i | 0 <= i < |attrs| :: attrs[i].Valid()
    modifies table
    ensures Reading(table[..], log, ok) == Read(old(table[..]), attrs)
  {
    hide TotalSize, Read;
    var m := new Message(HEADER + TotalSize(attrs));
    NothingSent(attrs);
    for i := 0 to |attrs|
      invariant fresh(m) && fresh(m.buf) && m.Valid(attrs[..i])
      invariant m.nlmsgLen == HEADER + TotalSize(attrs[..i]) && m.buf.Length == HEADER + TotalSize(attrs)
      invariant table[..] == old(table[..])
    {
      SizeStep(attrs, i);
      m.Append(attrs[i], attrs[..i]);
    }
    assert attrs[..|attrs|] == attrs;
    ok, log := m.RecvAttrs(table, attrs);
  }

  lemma {:induction false} SizeMonotone(attrs: seq<Attr>, i: nat)
    requires i <= |attrs|
    ensures TotalSize(attrs[..i]) <= TotalSize(attrs)
    decreases |attrs| - i
  {
    if i < |attrs| {
      SizeMonotone(attrs, i + 1);
      OneMore(attrs, i);
    } else {
      assert attrs[..i] == attrs;
    }
  }

  lemma OneMore(attrs: seq<Attr>, i: nat)
    requires i < |attrs|
    ensures TotalSize(attrs[..i + 1]) == TotalSize(attrs[..i]) + attrs[i].Size()
  {
    assert attrs[..i + 1][..i] == attrs[..i];
  }

  lemma SizeStep(attrs: seq<Attr>, i: nat)
    requires i < |attrs|
    ensures TotalSize(attrs[..i + 1]) == TotalSize(attrs[..i]) + attrs[i].Size() <= TotalSize(attrs)
    ensures attrs[..i + 1] == attrs[..i] + [attrs[i]]
  {
    hide TotalSize, Attr.Size;
    OneMore(attrs, i);
    SizeMonotone(attrs, i + 1);
  }
}
