/**
 Class files as ClosureFinder reads them: a byte stream, the modified UTF-8 strings
 of the DataInput contract, and the walk over the constant pool.
 */
module ClassFile {
  import opened Wrappers

  type byte = b: int | 0 <= b < 0x100

  type u2 = n: int | 0 <= n < 0x1_0000

  type u4 = n: int | 0 <= n < 0x1_0000_0000

  // A Java char is one UTF-16 code unit.
  type JChar = u2

  type JString = seq<JChar>

  // ---------------------------------------------------------------- numbers

  function U2At(bs: seq<byte>, p: nat): u2
    requires p + 2 <= |bs|
  {
    bs[p] as int * 0x100 + bs[p + 1]
  }

  function U4At(bs: seq<byte>, p: nat): u4
    requires p + 4 <= |bs|
  {
    U2At(bs, p) as int * 0x1_0000 + U2At(bs, p + 2)
  }

  function Signed(n: int, modulus: int): int {
    if n < modulus / 2 then n else n - modulus
  }

  function BytesOfU2(n: u2): seq<byte> {
    [n / 0x100, n % 0x100]
  }

  function BytesOfU4(n: u4): seq<byte> {
    BytesOfU2(n / 0x1_0000) + BytesOfU2(n % 0x1_0000)
  }

  // ---------------------------------------------------------------- modified UTF-8

  function EncodeChar(c: JChar): seq<byte> {
    if 1 <= c < 0x80 then [c]
    else if c < 0x800 then [0xC0 + c / 0x40, 0x80 + c % 0x40]
    else [0xE0 + c / 0x1000, 0x80 + c / 0x40 % 0x40, 0x80 + c % 0x40]
  }

  function EncodeText(s: JString): seq<byte> {
    if s == [] then [] else EncodeChar(s[0]) + EncodeText(s[1..])
  }

  predicate Continuation(b: byte) {
    b / 0x40 == 2
  }

  // The first char of a non-empty payload and the bytes it takes, or None when malformed.
  function DecodeChar(bs: seq<byte>): (r: Option<(JChar, nat)>)
    requires bs != []
    ensures r.Some? ==> 1 <= r.value.1 <= |bs|
  {
    if bs[0] < 0x80 then Some((bs[0], 1))
    else if 0xC0 <= bs[0] < 0xE0 && |bs| >= 2 && Continuation(bs[1]) then
      Some((bs[0] as int % 0x20 * 0x40 + bs[1] % 0x40, 2))
    else if 0xE0 <= bs[0] < 0xF0 && |bs| >= 3 && Continuation(bs[1]) && Continuation(bs[2]) then
      Some((bs[0] as int % 0x10 * 0x1000 + bs[1] as int % 0x40 * 0x40 + bs[2] % 0x40, 3))
    else None
  }

  function DecodeText(bs: seq<byte>): Option<JString> {
    if bs == [] then Some([])
    else
      match DecodeChar(bs)
      case None => None
      case Some((c, n)) =>
        match DecodeText(bs[n..])
        case None => None
        case Some(rest) => Some([c] + rest)
  }

  lemma DecodeOneByte(c: nat, rest: seq<byte>)
    requires c < 0x80
    ensures DecodeChar([c] + rest) == Some((c, 1))
  {
  }

  lemma DecodeTwoBytes(hi: nat, lo: nat, rest: seq<byte>)
    requires hi < 0x20 && lo < 0x40
    ensures DecodeChar([0xC0 + hi, 0x80 + lo] + rest) == Some((hi * 0x40 + lo, 2))
  {
  }

  lemma DecodeThreeBytes(hi: nat, mid: nat, lo: nat, rest: seq<byte>)
    requires hi < 0x10 && mid < 0x40 && lo < 0x40
    ensures DecodeChar([0xE0 + hi, 0x80 + mid, 0x80 + lo] + rest) == Some((hi * 0x1000 + mid * 0x40 + lo, 3))
  {
  }

  lemma DecodeEncodedChar(c: JChar, rest: seq<byte>)
    ensures EncodeChar(c) != []
    ensures DecodeChar(EncodeChar(c) + rest) == Some((c, |EncodeChar(c)|))
  {
    hide DecodeChar;
    if 1 <= c < 0x80 {
      DecodeOneByte(c, rest);
    } else if c < 0x800 {
      DecodeTwoBytes(c / 0x40, c % 0x40, rest);
    } else {
      var hi, mid, lo := c / 0x1000, c / 0x40 % 0x40, c % 0x40;
      DecodeThreeBytes(hi, mid, lo, rest);
      assert c == hi * 0x1000 + mid * 0x40 + lo;
    }
  }

  // Reading back a written string gives the string, for every string of chars.
  lemma {:induction false} DecodeEncodedText(s: JString)
    ensures DecodeText(EncodeText(s)) == Some(s)
  {
    if s != [] {
      var head, tail := EncodeChar(s[0]), EncodeText(s[1..]);
      DecodeEncodedChar(s[0], tail);
      assert (head + tail)[|head|..] == tail;
      DecodeEncodedText(s[1..]);
      assert EncodeText(s) == head + tail;
      assert s == [s[0]] + s[1..];
    }
  }

  // ---------------------------------------------------------------- the constant pool format

  // Section 4.4 of the Java Virtual Machine Specification, 2nd edition.
  datatype Constant =
    | Utf8(text: JString)
    | IntegerConst(bits: u4)
    | FloatConst(bits: u4)
    | LongConst(high: u4, low: u4)
    | DoubleConst(high: u4, low: u4)
    | ClassConst(name: u2)
    | StringConst(utf8: u2)
    | FieldRef(owner: u2, nameAndType: u2)
    | MethodRef(owner: u2, nameAndType: u2)
    | InterfaceMethodRef(owner: u2, nameAndType: u2)
    | NameAndType(name: u2, descriptor: u2)
  {
    predicate Valid() {
      Utf8? ==> |EncodeText(text)| < 0x1_0000
    }

    function Slots(): nat {
      if LongConst? || DoubleConst? then 2 else 1
    }

    // What the string table holds for the slots of this constant.
    function Entries(): seq<Option<JString>> {
      match this
      case Utf8(text) => [Some(text)]
      case LongConst(_, _) => [None, None]
      case DoubleConst(_, _) => [None, None]
      case _ => [None]
    }

    function Text(): Option<JString> {
      if Utf8? then Some(text) else None
    }

    function Encode(): seq<byte>
      requires Valid()
    {
      match this
      case Utf8(text) => [1] + BytesOfU2(|EncodeText(text)|) + EncodeText(text)
      case IntegerConst(bits) => [3] + BytesOfU4(bits)
      case FloatConst(bits) => [4] + BytesOfU4(bits)
      case LongConst(high, low) => [5] + BytesOfU4(high) + BytesOfU4(low)
      case DoubleConst(high, low) => [6] + BytesOfU4(high) + BytesOfU4(low)
      case ClassConst(name) => [7] + BytesOfU2(name)
      case StringConst(utf8) => [8] + BytesOfU2(utf8)
      case FieldRef(owner, nameAndType) => [9] + BytesOfU2(owner) + BytesOfU2(nameAndType)
      case MethodRef(owner, nameAndType) => [10] + BytesOfU2(owner) + BytesOfU2(nameAndType)
      case InterfaceMethodRef(owner, nameAndType) => [11] + BytesOfU2(owner) + BytesOfU2(nameAndType)
      case NameAndType(name, descriptor) => [12] + BytesOfU2(name) + BytesOfU2(descriptor)
    }
  }

  ghost predicate ValidPool(cs: seq<Constant>) {
    forall c | c in cs :: c.Valid()
  }

  function Entries(cs: seq<Constant>): seq<Option<JString>> {
    if cs == [] then [] else cs[0].Entries() + Entries(cs[1..])
  }

  ghost function EncodePool(cs: seq<Constant>): seq<byte>
    requires ValidPool(cs)
  {
    if cs == [] then [] else cs[0].Encode() + EncodePool(cs[1..])
  }

  // A whole class file up to the end of its pool: magic, two version numbers, slot count, constants.
  ghost function EncodeHeader(minor: u2, major: u2, cs: seq<Constant>): seq<byte>
    requires ValidPool(cs) && |Entries(cs)| < 0x7FFF
  {
    [0xCA, 0xFE, 0xBA, 0xBE] + BytesOfU2(minor) + BytesOfU2(major) + BytesOfU2(1 + |Entries(cs)|) + EncodePool(cs)
  }

  // ---------------------------------------------------------------- what the walk does

  datatype Scan =
    | Strings(table: seq<Option<JString>>, next: nat)  // the pool was read; `next` is the first byte after it
    | IoFailure                                        // end of file or malformed UTF-8: an IOException
    | NotAClass                                        // wrong magic number
    | BadTag                                           // unknown constant tag
    | NegativeCount                                    // a negative array size: a RuntimeException

  // The number of payload bytes of a fixed-size constant; None for Utf8 and for unknown tags.
  function PayloadSize(tag: byte): (r: Option<nat>)
    ensures r.Some? ==> r.value in {2, 4, 8}
  {
    if tag == 7 || tag == 8 then Some(2)
    else if 9 <= tag <= 12 || tag == 3 || tag == 4 then Some(4)
    else if tag == 5 || tag == 6 then Some(8)
    else None
  }

  // One constant as the walk sees it: its string if it is a Utf8, its slots, the byte behind it.
  datatype Item = Item(text: Option<JString>, slots: nat, next: nat)

  function ItemAt(bs: seq<byte>, p: nat): (r: Result<Item, Scan>)
    requires p <= |bs|
    ensures r.Ok? ==> p < r.value.next <= |bs| && 1 <= r.value.slots
    ensures r.Err? ==> !r.error.Strings?
  {
    if p == |bs| then Err(IoFailure)
    else
      match PayloadSize(bs[p])
      case Some(size) =>
        if p + 1 + size > |bs| then Err(IoFailure)
        else Ok(Item(None, if size == 8 then 2 else 1, p + 1 + size))
      case None =>
        if bs[p] != 1 then Err(BadTag)
        else
          match TextAt(bs, p + 1)
          case None => Err(IoFailure)
          case Some((text, q)) => Ok(Item(Some(text), 1, q))
  }

  function Put(table: seq<Option<JString>>, i: nat, text: Option<JString>): seq<Option<JString>>
    requires i < |table|
  {
    if text.Some? then table[i := text] else table
  }

  // The walk from byte p with the next free slot i.
  function Walk(bs: seq<byte>, p: nat, i: nat, table: seq<Option<JString>>): Scan
    requires p <= |bs|
    decreases |table| - i
  {
    if i >= |table| then Strings(table, p)
    else
      match ItemAt(bs, p)
      case Err(e) => e
      case Ok(item) => Walk(bs, item.next, i + item.slots, Put(table, i, item.text))
  }

  // The string readUTF returns at p with the position after it, or None for an IOException.
  function TextAt(bs: seq<byte>, p: nat): (r: Option<(JString, nat)>)
    requires p <= |bs|
    ensures r.Some? ==> p < r.value.1 <= |bs|
  {
    if p + 2 > |bs| || p + 2 + U2At(bs, p) > |bs| then None
    else
      var q := p + 2 + U2At(bs, p);
      match DecodeText(bs[p + 2..q])
      case None => None
      case Some(text) => Some((text, q))
  }

  function Blank(n: nat): seq<Option<JString>> {
    seq(n, _ => None)
  }

  function ScanFile(bs: seq<byte>): Scan {
    if |bs| < 4 then IoFailure
    else if U4At(bs, 0) != 0xCAFE_BABE then NotAClass
    else if |bs| < 10 then IoFailure
    else
      var count := Signed(U2At(bs, 8), 0x1_0000);
      if count < 0 then NegativeCount else Walk(bs, 10, 1, Blank(count))
  }

  // ---------------------------------------------------------------- the walk inverts the format

  // Constant c occupies bytes p to q. Utf8 texts need not be in their shortest form.
  ghost predicate ConstantAt(bs: seq<byte>, p: nat, q: nat, c: Constant) {
    && p < q <= |bs|
    && match c
       case Utf8(text) => bs[p] == 1 && TextAt(bs, p + 1) == Some((text, q))
       case _ => bs[p..q] == c.Encode()
  }

  ghost predicate PoolAt(bs: seq<byte>, p: nat, q: nat, cs: seq<Constant>)
    decreases |cs|
  {
    && p <= q <= |bs|
    && if cs == [] then p == q
       else exists m :: ConstantAt(bs, p, m, cs[0]) && PoolAt(bs, m, q, cs[1..])
  }

  // The constants fill `room` slots; only a two-slot constant at the very end may overhang by one.
  ghost predicate Fills(cs: seq<Constant>, room: nat) {
    if room == 0 then cs == []
    else cs != [] && Fills(cs[1..], if cs[0].Slots() < room then room - cs[0].Slots() else 0)
  }

  lemma U2RoundTrip(bs: seq<byte>, p: nat)
    requires p + 2 <= |bs|
    ensures BytesOfU2(U2At(bs, p)) == bs[p..p + 2]
  {
  }

  lemma U4RoundTrip(bs: seq<byte>, p: nat)
    requires p + 4 <= |bs|
    ensures BytesOfU4(U4At(bs, p)) == bs[p..p + 4]
  {
    U2RoundTrip(bs, p);
    U2RoundTrip(bs, p + 2);
    assert bs[p..p + 4] == bs[p..p + 2] + bs[p + 2..p + 4];
    var hi, lo := U2At(bs, p), U2At(bs, p + 2);
    assert U4At(bs, p) / 0x1_0000 == hi && U4At(bs, p) % 0x1_0000 == lo;
  }

  lemma TwoByteConstantAt(bs: seq<byte>, p: nat) returns (c: Constant)
    requires p + 3 <= |bs| && bs[p] in {7, 8}
    ensures !c.Utf8? && ConstantAt(bs, p, p + 3, c) && c.Slots() == 1
  {
    U2RoundTrip(bs, p + 1);
    assert bs[p..p + 3] == [bs[p]] + bs[p + 1..p + 3];
    var a := U2At(bs, p + 1);
    c := if bs[p] == 7 then ClassConst(a) else StringConst(a);
  }

  lemma NumberConstantAt(bs: seq<byte>, p: nat) returns (c: Constant)
    requires p + 5 <= |bs| && bs[p] in {3, 4}
    ensures !c.Utf8? && ConstantAt(bs, p, p + 5, c) && c.Slots() == 1
  {
    U4RoundTrip(bs, p + 1);
    assert bs[p..p + 5] == [bs[p]] + bs[p + 1..p + 5];
    var a := U4At(bs, p + 1);
    c := if bs[p] == 3 then IntegerConst(a) else FloatConst(a);
  }

  lemma ReferenceConstantAt(bs: seq<byte>, p: nat) returns (c: Constant)
    requires p + 5 <= |bs| && 9 <= bs[p] <= 12
    ensures !c.Utf8? && ConstantAt(bs, p, p + 5, c) && c.Slots() == 1
  {
    U2RoundTrip(bs, p + 1);
    U2RoundTrip(bs, p + 3);
    assert bs[p..p + 5] == [bs[p]] + bs[p + 1..p + 3] + bs[p + 3..p + 5];
    var a, b := U2At(bs, p + 1), U2At(bs, p + 3);
    c := if bs[p] == 9 then FieldRef(a, b)
         else if bs[p] == 10 then MethodRef(a, b)
         else if bs[p] == 11 then InterfaceMethodRef(a, b)
         else NameAndType(a, b);
  }

  lemma WideConstantAt(bs: seq<byte>, p: nat) returns (c: Constant)
    requires p + 9 <= |bs| && bs[p] in {5, 6}
    ensures !c.Utf8? && ConstantAt(bs, p, p + 9, c) && c.Slots() == 2
  {
    U4RoundTrip(bs, p + 1);
    U4RoundTrip(bs, p + 5);
    assert bs[p..p + 9] == [bs[p]] + bs[p + 1..p + 5] + bs[p + 5..p + 9];
    var a, b := U4At(bs, p + 1), U4At(bs, p + 5);
    hide BytesOfU4, U4At;
    c := if bs[p] == 5 then LongConst(a, b) else DoubleConst(a, b);
  }

  // The fixed-size constant that the walk steps over.
  lemma FixedConstantAt(bs: seq<byte>, p: nat) returns (c: Constant)
    requires p < |bs| && PayloadSize(bs[p]).Some? && p + 1 + PayloadSize(bs[p]).value <= |bs|
    ensures !c.Utf8?
    ensures ConstantAt(bs, p, p + 1 + PayloadSize(bs[p]).value, c)
    ensures c.Slots() == if PayloadSize(bs[p]).value == 8 then 2 else 1
  {
    hide ConstantAt;
    if bs[p] in {7, 8} {
      c := TwoByteConstantAt(bs, p);
    } else if bs[p] in {3, 4} {
      c := NumberConstantAt(bs, p);
    } else if bs[p] in {5, 6} {
      c := WideConstantAt(bs, p);
    } else {
      c := ReferenceConstantAt(bs, p);
    }
  }

  // One step of the walk consumes exactly one constant.
  lemma ConstantIsItem(bs: seq<byte>, p: nat, q: nat, c: Constant)
    requires ConstantAt(bs, p, q, c)
    ensures p < q <= |bs|
    ensures ItemAt(bs, p) == Ok(Item(c.Text(), c.Slots(), q))
  {
    if !c.Utf8? {
      assert bs[p] == bs[p..q][0] == c.Encode()[0];
      assert q - p == |bs[p..q]| == |c.Encode()| == 1 + PayloadSize(bs[p]).value;
    }
  }

  lemma StepOverConstant(bs: seq<byte>, p: nat, q: nat, i: nat, table: seq<Option<JString>>, c: Constant)
    requires ConstantAt(bs, p, q, c) && i < |table|
    ensures p < q <= |bs|
    ensures Walk(bs, p, i, table) == Walk(bs, q, i + c.Slots(), Put(table, i, c.Text()))
  {
    ConstantIsItem(bs, p, q, c);
    hide ConstantAt, ItemAt;
  }

  // From slot i on, the table is still blank.
  ghost predicate BlankFrom(table: seq<Option<JString>>, i: nat) {
    forall k :: i <= k < |table| ==> table[k] == None
  }

  ghost function Filled(table: seq<Option<JString>>, i: nat, cs: seq<Constant>): seq<Option<JString>>
    requires i <= |table| <= i + |Entries(cs)|
  {
    table[..i] + Entries(cs)[..|table| - i]
  }

  lemma {:induction false} FillsLength(cs: seq<Constant>, room: nat)
    requires Fills(cs, room)
    ensures room <= |Entries(cs)| <= room + 1
  {
    if room != 0 {
      FillsLength(cs[1..], if cs[0].Slots() < room then room - cs[0].Slots() else 0);
    }
  }

  lemma WalkEnd(bs: seq<byte>, p: nat, i: nat, table: seq<Option<JString>>)
    requires p <= |bs| && i >= |table|
    ensures Walk(bs, p, i, table) == Strings(table, p)
  {
  }

  lemma Splice<T>(table: seq<T>, i: nat, head: seq<T>, tail: seq<T>)
    requires i + |head| <= |table| <= i + |head| + |tail|
    ensures table[..i] + (head + tail)[..|table| - i] == (table[..i] + head) + tail[..|table| - i - |head|]
  {
  }

  lemma EntriesUnfold(cs: seq<Constant>)
    requires cs != []
    ensures Entries(cs) == cs[0].Entries() + Entries(cs[1..])
  {
  }

  lemma PutLength(table: seq<Option<JString>>, i: nat, text: Option<JString>)
    requires i < |table|
    ensures |Put(table, i, text)| == |table|
    ensures forall k :: 0 <= k < |table| && k != i ==> Put(table, i, text)[k] == table[k]
  {
  }

  lemma PutHead(table: seq<Option<JString>>, i: nat, c: Constant)
    requires i + c.Slots() <= |table| && BlankFrom(table, i)
    ensures |c.Entries()| == c.Slots()
    ensures Put(table, i, c.Text())[..i + c.Slots()] == table[..i] + c.Entries()
    ensures BlankFrom(Put(table, i, c.Text()), i + c.Slots())
  {
  }

  lemma FilledOverhang(table: seq<Option<JString>>, i: nat, cs: seq<Constant>)
    requires cs != [] && i < |table| < i + cs[0].Slots() && BlankFrom(table, i)
    requires |table| <= i + |Entries(cs)|
    ensures Put(table, i, cs[0].Text()) == Filled(table, i, cs)
  {
    assert Entries(cs)[0] == None == table[i];
    hide *;
  }

  // Any pool that fills the table is read exactly: each Utf8 lands in its own slot, all bytes are consumed.
  lemma {:induction false} WalkComplete(bs: seq<byte>, p: nat, q: nat, i: nat, table: seq<Option<JString>>, cs: seq<Constant>)
    requires i <= |table| && BlankFrom(table, i)
    requires PoolAt(bs, p, q, cs) && Fills(cs, |table| - i)
    ensures |table| <= i + |Entries(cs)|
    ensures Walk(bs, p, i, table) == Strings(Filled(table, i, cs), q)
    decreases |cs|
  {
    hide ConstantAt, TextAt, Walk, BlankFrom, Entries, Put;
    FillsLength(cs, |table| - i);
    if cs == [] {
      WalkEnd(bs, p, i, table);
    } else {
      var c, rest := cs[0], cs[1..];
      var m :| ConstantAt(bs, p, m, c) && PoolAt(bs, m, q, rest);
      StepOverConstant(bs, p, m, i, table, c);
      if i + c.Slots() <= |table| {
        EntriesUnfold(cs);
        PutHead(table, i, c);
        PutLength(table, i, c.Text());
        Splice(table, i, c.Entries(), Entries(rest));
        WalkComplete(bs, m, q, i + c.Slots(), Put(table, i, c.Text()), rest);
      } else {
        assert rest == [] && m == q;
        FilledOverhang(table, i, cs);
        WalkEnd(bs, q, i + c.Slots(), Put(table, i, c.Text()));
      }
    }
  }

  // The constant that one step of a successful walk reads.
  lemma NextConstantAt(bs: seq<byte>, p: nat) returns (c: Constant, m: nat)
    requires p <= |bs| && ItemAt(bs, p).Ok?
    ensures ConstantAt(bs, p, m, c)
  {
    if PayloadSize(bs[p]).Some? {
      c := FixedConstantAt(bs, p);
      m := p + 1 + PayloadSize(bs[p]).value;
    } else {
      var (text, q) := TextAt(bs, p + 1).value;
      c, m := Utf8(text), q;
    }
  }

  lemma EmptyPool(bs: seq<byte>, p: nat)
    requires p <= |bs|
    ensures PoolAt(bs, p, p, [])
  {
  }

  lemma PoolCons(bs: seq<byte>, p: nat, m: nat, q: nat, cs: seq<Constant>)
    requires cs != [] && ConstantAt(bs, p, m, cs[0]) && PoolAt(bs, m, q, cs[1..])
    ensures PoolAt(bs, p, q, cs)
  {
    assert p < m;
    hide ConstantAt;
  }

  lemma NextItemIsGood(bs: seq<byte>, p: nat, i: nat, table: seq<Option<JString>>)
    requires p <= |bs| && i < |table| && Walk(bs, p, i, table).Strings?
    ensures ItemAt(bs, p).Ok?
  {
  }

  lemma BlankAfterPut(table: seq<Option<JString>>, i: nat, c: Constant)
    requires i < |table| && BlankFrom(table, i)
    ensures BlankFrom(Put(table, i, c.Text()), i + c.Slots())
  {
  }

  // A walk that ends normally has read some pool that fills the table.
  lemma {:induction false} WalkSound(bs: seq<byte>, p: nat, i: nat, table: seq<Option<JString>>) returns (cs: seq<Constant>)
    requires p <= |bs| && i <= |table| && BlankFrom(table, i)
    requires Walk(bs, p, i, table).Strings?
    ensures PoolAt(bs, p, Walk(bs, p, i, table).next, cs) && Fills(cs, |table| - i)
    decreases |table| - i
  {
    hide ConstantAt, ItemAt, PoolAt, Walk, BlankFrom;
    if i == |table| {
      WalkEnd(bs, p, i, table);
      EmptyPool(bs, p);
      return [];
    }
    NextItemIsGood(bs, p, i, table);
    var c, m := NextConstantAt(bs, p);
    StepOverConstant(bs, p, m, i, table, c);
    BlankAfterPut(table, i, c);
    var rest := [];
    if i + c.Slots() <= |table| {
      rest := WalkSound(bs, m, i + c.Slots(), Put(table, i, c.Text()));
    } else {
      WalkEnd(bs, m, i + c.Slots(), Put(table, i, c.Text()));
      EmptyPool(bs, m);
    }
    cs := [c] + rest;
    assert cs[1..] == rest;
    PoolCons(bs, p, m, Walk(bs, p, i, table).next, cs);
  }

  // The table for a pool, with its unused zeroth entry; no entry at all for a slot count of zero.
  ghost function TableOf(n: nat, cs: seq<Constant>): seq<Option<JString>>
    requires n <= 1 + |Entries(cs)|
  {
    if n == 0 then [] else Filled(Blank(n), 1, cs)
  }

  // The walk succeeds exactly on the byte strings that hold a pool filling the table, and then the
  // outcome is determined by that pool.
  lemma WalkReadsExactlyThePools(bs: seq<byte>, p: nat, n: nat, table: seq<Option<JString>>, q: nat)
    requires p <= |bs|
    ensures Walk(bs, p, 1, Blank(n)) == Strings(table, q) <==>
            exists cs :: && PoolAt(bs, p, q, cs) && Fills(cs, if n == 0 then 0 else n - 1)
                         && n <= 1 + |Entries(cs)| && table == TableOf(n, cs)
  {
    if n == 0 {
      NoTable(bs, p, table, q);
    } else {
      SomeTable(bs, p, n, table, q);
    }
  }

  lemma NoTable(bs: seq<byte>, p: nat, table: seq<Option<JString>>, q: nat)
    requires p <= |bs|
    ensures Walk(bs, p, 1, Blank(0)) == Strings(table, q) <==>
            exists cs :: PoolAt(bs, p, q, cs) && Fills(cs, 0) && table == TableOf(0, cs)
  {
    WalkEnd(bs, p, 1, Blank(0));
    assert Fills([], 0) && (PoolAt(bs, p, q, []) <==> p == q);
    hide Walk, PoolAt, ConstantAt;
    assert table == Blank(0) <==> table == [];
    EmptyPool(bs, p);
  }

  lemma SomeTable(bs: seq<byte>, p: nat, n: nat, table: seq<Option<JString>>, q: nat)
    requires p <= |bs| && 1 <= n
    ensures Walk(bs, p, 1, Blank(n)) == Strings(table, q) <==>
            exists cs :: PoolAt(bs, p, q, cs) && Fills(cs, n - 1) && n <= 1 + |Entries(cs)| && table == TableOf(n, cs)
  {
    hide Walk, PoolAt, Fills, Entries, Filled;
    if Walk(bs, p, 1, Blank(n)) == Strings(table, q) {
      var cs := WalkSound(bs, p, 1, Blank(n));
      WalkComplete(bs, p, q, 1, Blank(n), cs);
    }
    forall cs | PoolAt(bs, p, q, cs) && Fills(cs, n - 1) && n <= 1 + |Entries(cs)|
      ensures Walk(bs, p, 1, Blank(n)) == Strings(Filled(Blank(n), 1, cs), q)
    {
      WalkComplete(bs, p, q, 1, Blank(n), cs);
    }
  }

  // The count field of a class file.
  function SlotCount(bs: seq<byte>): nat
    requires |bs| >= 10
  {
    bs[8] as int * 0x100 + bs[9]
  }

  // A file is scanned successfully exactly if it starts with the magic number and holds, behind the two version
  // numbers, a slot count below 0x8000 and a pool that fills the table.
  lemma ScanReadsExactlyTheClassFiles(bs: seq<byte>, table: seq<Option<JString>>, q: nat)
    ensures ScanFile(bs) == Strings(table, q) <==>
            && |bs| >= 10 && bs[..4] == [0xCA, 0xFE, 0xBA, 0xBE] && SlotCount(bs) < 0x8000
            && var n := SlotCount(bs);
               exists cs :: && PoolAt(bs, 10, q, cs) && Fills(cs, if n == 0 then 0 else n - 1)
                            && n <= 1 + |Entries(cs)| && table == TableOf(n, cs)
  {
    hide Walk, PoolAt, Fills, Entries, TableOf;
    if |bs| >= 4 {
      MagicNumber(bs);
    }
    if |bs| >= 10 {
      WalkReadsExactlyThePools(bs, 10, SlotCount(bs), table, q);
    }
  }

  lemma MagicNumber(bs: seq<byte>)
    requires |bs| >= 4
    ensures U4At(bs, 0) == 0xCAFE_BABE <==> bs[..4] == [0xCA, 0xFE, 0xBA, 0xBE]
  {
  }

  // The ways to fail: the file ends early, it is no class file, or the slot count is negative as a short.
  lemma ScanFailures(bs: seq<byte>)
    ensures ScanFile(bs) == NotAClass <==> |bs| >= 4 && bs[..4] != [0xCA, 0xFE, 0xBA, 0xBE]
    ensures ScanFile(bs) == NegativeCount <==>
              |bs| >= 10 && bs[..4] == [0xCA, 0xFE, 0xBA, 0xBE] && bs[8] >= 0x80
    ensures |bs| < 4 ==> ScanFile(bs) == IoFailure
  {
    if |bs| >= 4 {
      MagicNumber(bs);
    }
    if |bs| >= 10 {
      WalkIsNoHeaderFailure(bs, 10, 1, Blank(if SlotCount(bs) < 0x8000 then SlotCount(bs) else 0));
    }
    hide Walk;
  }

  lemma {:induction false} WalkIsNoHeaderFailure(bs: seq<byte>, p: nat, i: nat, table: seq<Option<JString>>)
    requires p <= |bs|
    ensures Walk(bs, p, i, table) != NotAClass && Walk(bs, p, i, table) != NegativeCount
    decreases |table| - i
  {
    ItemFailures(bs, p);
    hide ItemAt;
    if i < |table| && ItemAt(bs, p).Ok? {
      var item := ItemAt(bs, p).value;
      WalkIsNoHeaderFailure(bs, item.next, i + item.slots, Put(table, i, item.text));
    }
  }

  // A constant cannot be read because its tag is unknown, or because the bytes end or its text is malformed.
  lemma ItemFailures(bs: seq<byte>, p: nat)
    requires p <= |bs|
    ensures ItemAt(bs, p).Err? ==> ItemAt(bs, p).error == if p < |bs| && bs[p] !in {1, 3, 4, 5, 6, 7, 8, 9, 10, 11, 12} then BadTag else IoFailure
    ensures p < |bs| && bs[p] !in {1, 3, 4, 5, 6, 7, 8, 9, 10, 11, 12} ==> ItemAt(bs, p) == Err(BadTag)
    ensures ItemAt(bs, p).Ok? ==> ItemAt(bs, p).value.next <= |bs|
  {
    hide TextAt;
  }

  lemma EncodedTextAt(bs: seq<byte>, p: nat, text: JString)
    requires Utf8(text).Valid() && p + |Utf8(text).Encode()| <= |bs|
    requires bs[p..p + |Utf8(text).Encode()|] == Utf8(text).Encode()
    ensures bs[p] == 1
    ensures TextAt(bs, p + 1) == Some((text, p + |Utf8(text).Encode()|))
  {
    var e, payload := Utf8(text).Encode(), EncodeText(text);
    var q := p + |e|;
    var slice := bs[p..q];
    assert slice[0] == bs[p] && slice[1] == bs[p + 1] && slice[2] == bs[p + 2];
    assert U2At(bs, p + 1) == |payload|;
    assert bs[p + 3..q] == slice[3..] == e[3..] == payload;
    DecodeEncodedText(text);
    hide EncodeText, DecodeText;
  }

  lemma EncodedConstantAt(bs: seq<byte>, p: nat, c: Constant)
    requires c.Valid() && p + |c.Encode()| <= |bs|
    requires bs[p..p + |c.Encode()|] == c.Encode()
    ensures ConstantAt(bs, p, p + |c.Encode()|, c)
  {
    hide TextAt, EncodeText;
    if c.Utf8? {
      EncodedTextAt(bs, p, c.text);
    }
  }

  lemma {:induction false} FillsItself(cs: seq<Constant>)
    ensures Fills(cs, |Entries(cs)|)
  {
    if cs != [] {
      assert |Entries(cs)| == cs[0].Slots() + |Entries(cs[1..])|;
      FillsItself(cs[1..]);
    }
  }

  lemma SplitSlice(bs: seq<byte>, p: nat, head: seq<byte>, tail: seq<byte>)
    requires p + |head| + |tail| <= |bs| && bs[p..p + |head| + |tail|] == head + tail
    ensures bs[p..p + |head|] == head
    ensures bs[p + |head|..p + |head| + |tail|] == tail
  {
    var all := bs[p..p + |head| + |tail|];
    assert all[..|head|] == head && all[|head|..] == tail;
  }

  lemma EncodePoolParts(cs: seq<Constant>)
    requires ValidPool(cs)
    ensures cs == [] ==> EncodePool(cs) == []
    ensures cs != [] ==> && cs[0].Valid() && ValidPool(cs[1..])
                         && EncodePool(cs) == cs[0].Encode() + EncodePool(cs[1..])
  {
  }

  lemma {:induction false} EncodedPoolAt(bs: seq<byte>, p: nat, cs: seq<Constant>)
    requires ValidPool(cs) && p + |EncodePool(cs)| <= |bs|
    requires bs[p..p + |EncodePool(cs)|] == EncodePool(cs)
    ensures PoolAt(bs, p, p + |EncodePool(cs)|, cs)
    decreases |cs|
  {
    hide *;
    EncodePoolParts(cs);
    if cs == [] {
      EmptyPool(bs, p);
    } else {
      var head, tail := cs[0].Encode(), EncodePool(cs[1..]);
      SplitSlice(bs, p, head, tail);
      EncodedConstantAt(bs, p, cs[0]);
      EncodedPoolAt(bs, p + |head|, cs[1..]);
      PoolCons(bs, p, p + |head|, p + |head| + |tail|, cs);
    }
  }

  // Round trip: scanning a file that starts with an encoded header gives the strings of its pool,
  // each at its own slot, and stops right behind the pool, whatever follows.
  lemma ScanEncodedFile(minor: u2, major: u2, cs: seq<Constant>, rest: seq<byte>)
    requires ValidPool(cs) && |Entries(cs)| < 0x7FFF
    ensures ScanFile(EncodeHeader(minor, major, cs) + rest) ==
            Strings([None] + Entries(cs), |EncodeHeader(minor, major, cs)|)
  {
    hide EncodePool, Walk, PoolAt;
    var header := EncodeHeader(minor, major, cs);
    var bs, n := header + rest, 1 + |Entries(cs)|;
    var front := [0xCA, 0xFE, 0xBA, 0xBE] + BytesOfU2(minor) + BytesOfU2(major) + BytesOfU2(n);
    assert header == front + EncodePool(cs);
    assert bs[..10] == front;
    assert U4At(bs, 0) == U4At(bs[..10], 0) == U4At(front, 0);
    assert U2At(bs, 8) == U2At(bs[..10], 8) == U2At(front, 8) == n;
    assert bs[10..|header|] == EncodePool(cs);
    EncodedPoolAt(bs, 10, cs);
    FillsItself(cs);
    WalkComplete(bs, 10, |header|, 1, Blank(n), cs);
    assert Filled(Blank(n), 1, cs) == [None] + Entries(cs);
  }

  // ---------------------------------------------------------------- the stream and the loop over the pool

  /** The part of java.io.DataInputStream the walk uses. None is the IOException at the end of the file. */
  class DataInput {
    const bytes: seq<byte>
    var pos: nat

    ghost predicate Valid()
      reads this
    {
      pos <= |bytes|
    }

    constructor (bytes: seq<byte>)
      ensures Valid() && this.bytes == bytes && pos == 0
    {
      this.bytes := bytes;
      pos := 0;
    }

    method Skip(n: nat) returns (ok: bool)
      requires Valid()
      modifies this`pos
      ensures Valid()
      ensures ok == (old(pos) + n <= |bytes|)
      ensures ok ==> pos == old(pos) + n
    {
      ok := pos + n <= |bytes|;
      pos := if ok then pos + n else |bytes|;
    }

    method ReadByte() returns (r: Option<int>)
      requires Valid()
      modifies this`pos
      ensures Valid()
      ensures r == if old(pos) < |bytes| then Some(Signed(bytes[old(pos)], 0x100)) else None
      ensures r.Some? ==> pos == old(pos) + 1
    {
      var start := pos;
      var ok := Skip(1);
      r := if ok then Some(Signed(bytes[start], 0x100)) else None;
    }

    method ReadShort() returns (r: Option<int>)
      requires Valid()
      modifies this`pos
      ensures Valid()
      ensures r == if old(pos) + 2 <= |bytes| then Some(Signed(U2At(bytes, old(pos)), 0x1_0000)) else None
      ensures r.Some? ==> pos == old(pos) + 2
    {
      var start := pos;
      var ok := Skip(2);
      r := if ok then Some(Signed(U2At(bytes, start), 0x1_0000)) else None;
    }

    method ReadInt() returns (r: Option<int>)
      requires Valid()
      modifies this`pos
      ensures Valid()
      ensures r == if old(pos) + 4 <= |bytes| then Some(Signed(U4At(bytes, old(pos)), 0x1_0000_0000)) else None
      ensures r.Some? ==> pos == old(pos) + 4
    {
      var start := pos;
      var ok := Skip(4);
      r := if ok then Some(Signed(U4At(bytes, start), 0x1_0000_0000)) else None;
    }

    method ReadUtf() returns (r: Option<JString>)
      requires Valid()
      modifies this`pos
      ensures Valid()
      ensures r.Some? <==> TextAt(bytes, old(pos)).Some?
      ensures r.Some? ==> TextAt(bytes, old(pos)).value == (r.value, pos)
    {
      match TextAt(bytes, pos) {
        case None => r, pos := None, |bytes|;
        case Some((text, next)) => r, pos := Some(text), next;
      }
    }
  }

  // The reading half of computeClosure: the statements before the string table is searched.
  method ReadStrings(dis: DataInput) returns (r: Scan)
    requires dis.Valid() && dis.pos == 0
    modifies dis
    ensures r == ScanFile(dis.bytes)
  {
    var magic := dis.ReadInt();
    if magic.None? { return IoFailure; }
    if magic.value != 0xCAFE_BABE - 0x1_0000_0000 { return NotAClass; }
    var minor := dis.ReadShort();
    if minor.None? { return IoFailure; }
    var major := dis.ReadShort();
    if major.None? { return IoFailure; }
    var numConsts := dis.ReadShort();
    if numConsts.None? { return IoFailure; }
    if numConsts.value < 0 { return NegativeCount; }

    var strings := new Option<JString>[numConsts.value](_ => None);
    assert strings[..] == Blank(strings.Length);
    r := ReadPool(dis, strings);
  }

  // The body of the loop over the pool: one constant; a wide constant takes two slots.
  method ReadConstant(dis: DataInput) returns (r: Result<(Option<JString>, nat), Scan>)
    requires dis.Valid()
    modifies dis
    ensures dis.Valid()
    ensures match ItemAt(dis.bytes, old(dis.pos))
            case Ok(item) => r == Ok((item.text, item.slots)) && dis.pos == item.next
            case Err(e) => r == Err(e)
  {
    hide TextAt;
    var constType := dis.ReadByte();
    if constType.None? { return Err(IoFailure); }
    match constType.value {
      case 7 | 8 =>
        var index := dis.ReadShort();
        return if index.None? then Err(IoFailure) else Ok((None, 1));
      case 9 | 10 | 11 | 12 | 3 | 4 =>
        var data := dis.ReadInt();
        return if data.None? then Err(IoFailure) else Ok((None, 1));
      case 5 | 6 =>
        var ok := dis.Skip(8);  // readLong
        return if !ok then Err(IoFailure) else Ok((None, 2));
      case 1 =>
        var text := dis.ReadUtf();
        return if text.None? then Err(IoFailure) else Ok((text, 1));
      case _ =>
        return Err(BadTag);
    }
  }

  // The loop over the pool: fills `strings` in place, moving the stream on.
  method ReadPool(dis: DataInput, strings: array<Option<JString>>) returns (r: Scan)
    requires dis.Valid()
    modifies dis, strings
    ensures r == Walk(dis.bytes, old(dis.pos), 1, old(strings[..]))
    ensures r.Strings? ==> r == Strings(strings[..], dis.pos)
  {
    hide ItemAt;
    var cpIndex := 1;
    while cpIndex < strings.Length
      invariant 1 <= cpIndex && dis.Valid()
      invariant Walk(dis.bytes, old(dis.pos), 1, old(strings[..])) == Walk(dis.bytes, dis.pos, cpIndex, strings[..])
    {
      ghost var table := strings[..];
      var constant := ReadConstant(dis);
      if constant.Err? { return constant.error; }
      var (text, slots) := constant.value;
      if text.Some? {
        strings[cpIndex] := text;
      }
      assert strings[..] == Put(table, cpIndex, text);
      cpIndex := cpIndex + slots;
    }
    r := Strings(strings[..], dis.pos);
  }
}
