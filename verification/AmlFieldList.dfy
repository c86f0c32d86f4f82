/** The lists of a Field (section 20.2.5.2 of the ACPI Specification, kernel/acpi/aml_parse.c): named bit
    ranges and gaps laid end to end, with the access width in force. */
module AmlFieldList {
  import opened AmlNamespace
  import opened AmlStream
  import opened AmlBytes
  import opened AmlPlaces
  import F = AmlFields

  /** A named bit range: where it starts counting from the first bit, how long it is, and how
      wide its accesses are. */
  datatype Laid = Laid(seg: Path, bit: nat, len: nat, access: nat)

  /** What is left of a package after the bytes of its length. */
  function PkgBody(s: Stream): nat
    requires Ok(s)
  {
    if PkgTotal(s) < PkgHeader(s) then 0 else PkgTotal(s) - PkgHeader(s)
  }

  /** Where a list has got to: the bytes left, the next bit, and the access width in force. */
  datatype Cursor = Cursor(s: Stream, bit: nat, access: nat)

  predicate Ended(c: Cursor)
    requires InTable(c.s)
  {
    c.s.p >= c.s.end || (Peek(c.s) > 0x03 && Left(c.s) < 4)
  }

  /** One item of a list: a gap, an access change, something to be skipped, or a named range. */
  function Item(c: Cursor): (r: (Cursor, seq<Laid>))
    requires InTable(c.s) && !Ended(c)
    ensures InTable(r.0.s) && Left(r.0.s) < Left(c.s) && c.bit <= r.0.bit
    ensures |r.1| <= 1 && forall l <- r.1 :: l.bit == c.bit && l.bit + l.len == r.0.bit
  {
    var s := c.s;
    if Peek(s) == 0x00 then
      var t := Next(s);
      (Cursor(t.(p := t.p + PkgHeader(t)), c.bit + PkgBody(t), c.access), [])
    else if Peek(s) == 0x01 then (Cursor(Next(Next(Next(s))), c.bit, AccessWidth(Peek(Next(s)))), [])
    else if Peek(s) == 0x02 then (c.(s := Next(s)), [])
    else if Peek(s) == 0x03 then (c.(s := Next(Next(Next(Next(s))))), [])
    else
      var t := s.(p := s.p + 4);
      var len := PkgBody(t);
      (Cursor(t.(p := t.p + PkgHeader(t)), c.bit + len, c.access), [Laid(SegAt(s.code, s.p), c.bit, len, c.access)])
  }

  lemma NamedItem(c: Cursor)
    requires InTable(c.s) && Left(c.s) >= 4 && Peek(c.s) > 0x03
    ensures !Ended(c) && Ok(c.s.(p := c.s.p + 4))
    ensures var t := c.s.(p := c.s.p + 4);
      Item(c) == (Cursor(t.(p := t.p + PkgHeader(t)), c.bit + PkgBody(t), c.access),
        [Laid(SegAt(c.s.code, c.s.p), c.bit, PkgBody(t), c.access)])
  {
    hide PkgTotal, PkgHeader, AccessWidth;
  }

  /** The ranges a list describes, laid end to end with its gaps. */
  function FieldsOf(c: Cursor): seq<Laid>
    requires InTable(c.s)
    decreases Left(c.s)
  {
    if Ended(c) then [] else Item(c).1 + FieldsOf(Item(c).0)
  }

  /** The ranges of a list come in order and none reaches into the next. */
  lemma {:induction false} FieldsApart(c: Cursor, j: nat, k: nat)
    requires InTable(c.s) && j < k < |FieldsOf(c)|
    ensures FieldsOf(c)[j].bit + FieldsOf(c)[j].len <= FieldsOf(c)[k].bit
    decreases Left(c.s)
  {
    hide Item, Ended;
    var (next, laid) := Item(c);
    if j < |laid| {
      assert FieldsOf(c)[j] == laid[j];
      FieldsFrom(next, k - |laid|);
    } else {
      FieldsApart(next, j - |laid|, k - |laid|);
    }
  }

  lemma {:induction false} FieldsFrom(c: Cursor, k: nat)
    requires InTable(c.s) && k < |FieldsOf(c)|
    ensures FieldsOf(c)[k].bit >= c.bit
    decreases Left(c.s)
  {
    hide Item, Ended;
    var (next, laid) := Item(c);
    if k >= |laid| {
      FieldsFrom(next, k - |laid|);
    } else {
      assert FieldsOf(c)[k] == laid[k];
    }
  }

  /** What has been laid, and what is still to come. */
  ghost predicate SoFar(all: seq<Laid>, laid: seq<Laid>, c: Cursor) { InTable(c.s) && all == laid + FieldsOf(c) }

  lemma SoFarNone(c: Cursor)
    requires InTable(c.s)
    ensures SoFar(FieldsOf(c), [], c)
  {
  }

  lemma SoFarNext(all: seq<Laid>, laid: seq<Laid>, c: Cursor)
    requires SoFar(all, laid, c)
    ensures if Ended(c) then all == laid else SoFar(all, laid + Item(c).1, Item(c).0)
  {
    hide Item;
    if !Ended(c) { assert laid + (Item(c).1 + FieldsOf(Item(c).0)) == laid + Item(c).1 + FieldsOf(Item(c).0); }
  }

  /* ---- access widths ---- */

  function AccessWidth(flags: Byte): (w: nat)
    ensures F.AccessWidth(w)
  {
    match flags % 8 case 2 => 2 case 3 => 4 case 4 => 8 case _ => 1
  }

  /** Each of the access types is twice as wide as the one before, from bytes on; any other is bytes. */
  lemma AccessDoubles(flags: Byte)
    ensures AccessWidth(flags) == AccessWidth(flags % 8) && AccessWidth(1) == 1
    ensures 1 <= flags < 4 ==> AccessWidth(flags + 1) == 2 * AccessWidth(flags)
    ensures flags % 8 == 0 || flags % 8 > 4 ==> AccessWidth(flags) == 1
  {
  }

  /* ---- a list and its bytes ---- */

  datatype FieldItem = Range(seg: Seg, bits: nat) | Gap(bits: nat) | Access(kind: Byte, attrib: Byte)

  predicate ItemOk(it: FieldItem)
  {
    match it
    case Range(seg, bits) => SegOk(seg) && bits < 0x1000_0000
    case Gap(bits) => bits < 0x1000_0000
    case Access(_, _) => true
  }

  function SegBytes(seg: Seg): (bs: seq<Byte>)
    requires SegOk(seg)
    ensures |bs| == 4
  {
    assert seg[0] in seg && seg[1] in seg && seg[2] in seg && seg[3] in seg;
    [seg[0] as int, seg[1] as int, seg[2] as int, seg[3] as int]
  }

  function ItemBytes(it: FieldItem): seq<Byte>
    requires ItemOk(it)
  {
    match it
    case Range(seg, bits) => SegBytes(seg) + EncodePkg(bits)
    case Gap(bits) => [0x00] + EncodePkg(bits)
    case Access(kind, attrib) => [0x01, kind, attrib]
  }

  function ListBytes(items: seq<FieldItem>): seq<Byte>
    requires forall it <- items :: ItemOk(it)
  {
    if items == [] then [] else ItemBytes(items[0]) + ListBytes(items[1..])
  }

  /** The width that is read: the code takes the bytes of a length off it, as it does for packages,
      though a width does not count them. */
  function ReadBits(bits: nat): nat
    requires bits < 0x1000_0000
  {
    if bits < |EncodePkg(bits)| then 0 else bits - |EncodePkg(bits)|
  }

  /** So no width that is written is the one that is read, but for none at all. */
  lemma WidthsAreShort(bits: nat)
    requires bits < 0x1000_0000
    ensures ReadBits(bits) == bits <==> bits == 0
  {
  }

  /** The ranges a list describes. */
  function Lay(items: seq<FieldItem>, bit: nat, access: nat): seq<Laid>
    requires forall it <- items :: ItemOk(it)
    decreases |items|
  {
    if items == [] then []
    else
      assert ItemOk(items[0]);
      match items[0]
      case Range(seg, bits) => [Laid(seg, bit, ReadBits(bits), access)] + Lay(items[1..], bit + ReadBits(bits), access)
      case Gap(bits) => Lay(items[1..], bit + ReadBits(bits), access)
      case Access(kind, _) => Lay(items[1..], bit, AccessWidth(kind))
  }

  lemma SegReads(s: Stream, seg: Seg)
    requires SegOk(seg) && Has(s, SegBytes(seg))
    ensures s.p + 4 <= s.end && SegAt(s.code, s.p) == seg && Peek(s) > 0x2F && Peek(s) !in {0x5C, 0x5E}
  {
    assert seg[0] in seg && seg[1] in seg && seg[2] in seg && seg[3] in seg;
    var b := s.code[s.p..s.p + 4];
    assert b[0] == seg[0] as int && b[1] == seg[1] as int && b[2] == seg[2] as int && b[3] == seg[3] as int;
  }

  /** A list reads back as the ranges it describes. */
  lemma {:induction false} ListReads(c: Cursor, items: seq<FieldItem>)
    requires InTable(c.s) && (forall it <- items :: ItemOk(it))
    requires Has(c.s, ListBytes(items)) && c.s.end == c.s.p + |ListBytes(items)|
    ensures FieldsOf(c) == Lay(items, c.bit, c.access)
    decreases |items|
  {
    hide Has, AccessWidth, SegBytes, EncodePkg, PkgTotal, PkgHeader, Item, ItemBytes, ReadBits;
    if items != [] {
      assert ItemOk(items[0]);
      var it, rest := items[0], ListBytes(items[1..]);
      HasParts(c.s, ItemBytes(it), rest);
      ItemReads(c, it);
      ListReads(Item(c).0, items[1..]);
    }
  }

  lemma ItemReads(c: Cursor, it: FieldItem)
    requires InTable(c.s) && ItemOk(it) && Has(c.s, ItemBytes(it))
    ensures !Ended(c) && Item(c).0.s == Skip(c.s, |ItemBytes(it)|)
    ensures match it
            case Range(seg, bits) =>
              Item(c) == (Cursor(Item(c).0.s, c.bit + ReadBits(bits), c.access),
                [Laid(seg, c.bit, ReadBits(bits), c.access)])
            case Gap(bits) => Item(c) == (Cursor(Item(c).0.s, c.bit + ReadBits(bits), c.access), [])
            case Access(kind, _) => Item(c) == (Cursor(Item(c).0.s, c.bit, AccessWidth(kind)), [])
  {
    hide Has, AccessWidth, EncodePkg, SegBytes, Item, ReadBits, Ended;
    match it
    case Range(seg, bits) => RangeReads(c, seg, bits);
    case Gap(bits) => GapReads(c, bits);
    case Access(kind, attrib) => AccessReads(c, kind, attrib);
  }

  lemma RangeReads(c: Cursor, seg: Seg, bits: nat)
    requires InTable(c.s) && SegOk(seg) && bits < 0x1000_0000 && Has(c.s, SegBytes(seg) + EncodePkg(bits))
    ensures !Ended(c)
    ensures Item(c) == (Cursor(Skip(c.s, |SegBytes(seg) + EncodePkg(bits)|), c.bit + ReadBits(bits), c.access),
      [Laid(seg, c.bit, ReadBits(bits), c.access)])
  {
    hide Has, AccessWidth, EncodePkg, PkgTotal, PkgHeader, SegBytes;
    HasParts(c.s, SegBytes(seg), EncodePkg(bits));
    SegReads(c.s, seg);
    PkgReads(Skip(c.s, 4), bits);
  }

  lemma GapReads(c: Cursor, bits: nat)
    requires InTable(c.s) && bits < 0x1000_0000 && Has(c.s, [0x00] + EncodePkg(bits))
    ensures !Ended(c)
    ensures Item(c) == (Cursor(Skip(c.s, |[0x00] + EncodePkg(bits)|), c.bit + ReadBits(bits), c.access), [])
  {
    hide Has, AccessWidth, EncodePkg, PkgTotal, PkgHeader;
    HasByte(c.s, 0x00, EncodePkg(bits));
    PkgReads(Next(c.s), bits);
  }

  lemma AccessReads(c: Cursor, kind: Byte, attrib: Byte)
    requires InTable(c.s) && Has(c.s, [0x01, kind, attrib])
    ensures !Ended(c) && Item(c) == (Cursor(Skip(c.s, 3), c.bit, AccessWidth(kind)), [])
  {
    hide Has, AccessWidth, PkgTotal, PkgHeader;
    assert [0x01, kind, attrib] == [0x01] + ([kind] + ([attrib] + []));
    HasByte(c.s, 0x01, [kind] + ([attrib] + []));
    HasByte(Next(c.s), kind, [attrib] + []);
    HasByte(Next(Next(c.s)), attrib, []);
  }
}
