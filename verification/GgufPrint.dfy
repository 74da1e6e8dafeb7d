/** The printer that the metadata reader is the inverse of: from values to bytes. It shares nothing with the decoder, so
    reading a print back says what the reader makes of every type, its sign and its width. */
module GgufPrint {
  import opened Utf8
  import opened GgufFormat
  import opened GgufCodec

  // Two's complement, least significant byte first.
  function LittleEndian(n: int, width: nat): (r: Bytes)
    ensures |r| == width
    decreases width
  {
    if width == 0 then [] else [n % 256] + LittleEndian(n / 256, width - 1)
  }

  function TypeCode(v: Value): nat {
    match v
    case U8(_) => 0 case I8(_) => 1 case U16(_) => 2 case I16(_) => 3 case U32(_) => 4 case I32(_) => 5
    case F32(_) => 6 case Bool(_) => 7 case String(_) => 8 case Array(_) => 9
    case U64(_) => 10 case I64(_) => 11 case F64(_) => 12
  }

  function PrintLength(version: nat, n: nat): Bytes {
    LittleEndian(n, if version == 1 then 4 else 8)
  }

  function Print(version: nat, v: Value): Bytes
    decreases v
  {
    match v
    case U8(n) => LittleEndian(n, 1)
    case I8(n) => LittleEndian(n, 1)
    case U16(n) => LittleEndian(n, 2)
    case I16(n) => LittleEndian(n, 2)
    case U32(n) => LittleEndian(n, 4)
    case I32(n) => LittleEndian(n, 4)
    case F32(bits) => LittleEndian(bits, 4)
    case U64(n) => LittleEndian(n, 8)
    case I64(n) => LittleEndian(n, 8)
    case F64(bits) => LittleEndian(bits, 8)
    case Bool(on) => [if on then 1 else 0]
    case String(text) => PrintLength(version, |text|) + text
    case Array(values) => LittleEndian(ElementCode(values), 4) + PrintLength(version, |values|) + PrintAll(version, values)
  }

  function ElementCode(values: seq<Value>): nat {
    if values == [] then 0 else TypeCode(values[0])
  }

  function PrintAll(version: nat, values: seq<Value>): Bytes
    decreases values
  {
    if values == [] then [] else Print(version, values[0]) + PrintAll(version, values[1..])
  }

  // The values a reader can hand out: numbers in the range of their type, strings that are well-formed UTF-8 of at most
  // 2^30 bytes with no NUL at the end, and arrays of one element type.
  predicate InRange(version: nat, v: Value)
    decreases v
  {
    match v
    case U8(n) => n < 0x100
    case I8(n) => -0x80 <= n < 0x80
    case U16(n) => n < 0x1_0000
    case I16(n) => -0x8000 <= n < 0x8000
    case U32(n) => n < 0x1_0000_0000
    case I32(n) => -0x8000_0000 <= n < 0x8000_0000
    case F32(bits) => bits < 0x1_0000_0000
    case U64(n) => n < 0x1_0000_0000_0000_0000
    case I64(n) => -0x8000_0000_0000_0000 <= n < 0x8000_0000_0000_0000
    case F64(bits) => bits < 0x1_0000_0000_0000_0000
    case Bool(_) => true
    case String(text) => IsText(text)
    case Array(values) => |values| < Lengths(version) && AllInRange(version, ElementCode(values), values)
  }

  predicate AllInRange(version: nat, code: nat, values: seq<Value>)
    decreases values
  {
    values == [] || (TypeCode(values[0]) == code && InRange(version, values[0]) && AllInRange(version, code, values[1..]))
  }

  predicate IsText(text: Bytes) {
    Valid(text) && |text| <= 0x4000_0000 && (text == [] || text[|text| - 1] != 0)
  }

  function Lengths(version: nat): nat {
    if version == 1 then 0x1_0000_0000 else 0x1_0000_0000_0000_0000
  }

  // No array with elements lies inside 64 others.
  predicate FitsDepth(v: Value, depth: nat)
    decreases v
  {
    v.Array? && v.values != [] ==> depth < 64 && AllFitDepth(v.values, depth + 1)
  }

  predicate AllFitDepth(values: seq<Value>, depth: nat)
    decreases values
  {
    values == [] || (FitsDepth(values[0], depth) && AllFitDepth(values[1..], depth))
  }

  // --- numbers ---

  // The i-th byte is the i-th digit to base 256.
  lemma {:induction false} DigitAt(n: int, width: nat, i: nat)
    requires i < width
    ensures LittleEndian(n, width)[i] == n / Pow256(i) % 256
    decreases width
  {
    if i > 0 {
      DigitAt(n / 256, width - 1, i - 1);
      DivideTwice(n, Pow256(i - 1));
    }
  }

  lemma DivideTwice(n: int, p: nat)
    requires p > 0
    ensures n / 256 / p == n / (256 * p)
  {
    var q := n / 256 / p;
    var r := n - 256 * (p * q);
    assert n == 256 * (n / 256) + n % 256 && n / 256 == p * q + n / 256 % p;
    assert 256 * (p * q) == (256 * p) * q;
    assert 0 <= r < 256 * p;
    QuotientUnique(n, 256 * p, q, r);
  }

  lemma QuotientUnique(n: int, d: nat, q: int, r: int)
    requires n == d * q + r && 0 <= r < d
    ensures n / d == q
  {
    var k := n / d - q;
    assert d * k == r - n % d by {
      assert n == d * (n / d) + n % d;
      assert d * (n / d - q) == d * (n / d) - d * q;
    }
    assert k >= 1 ==> d * k >= d;
    assert k <= -1 ==> d * k + d <= 0;
  }

  // Reading the digits gives the number up to a multiple of 256^width.
  function Overflow(n: int, width: nat): int
    decreases width
  {
    if width == 0 then n else Overflow(n / 256, width - 1)
  }

  lemma {:induction false} ReadDigits(n: int, width: nat)
    ensures FromLe(LittleEndian(n, width)) + Pow256(width) * Overflow(n, width) == n
    decreases width
  {
    if width > 0 {
      var rest := n / 256;
      ReadDigits(rest, width - 1);
      assert LittleEndian(n, width)[1..] == LittleEndian(rest, width - 1);
      assert 256 * (Pow256(width - 1) * Overflow(rest, width - 1)) == Pow256(width) * Overflow(n, width);
    }
  }

  lemma {:induction false} NaturalDigits(n: nat, width: nat)
    ensures LittleEndian(n, width) == ToLe(n, width)
  {
    if width > 0 {
      NaturalDigits(n / 256, width - 1);
    }
  }

  lemma Powers()
    ensures Pow256(1) == 0x100 && Pow256(2) == 0x1_0000 && Pow256(4) == 0x1_0000_0000
    ensures Pow256(8) == 0x1_0000_0000_0000_0000
  {
    assert Pow256(2) == 256 * Pow256(1) && Pow256(3) == 256 * Pow256(2) && Pow256(4) == 256 * Pow256(3);
    assert Pow256(5) == 256 * Pow256(4) && Pow256(6) == 256 * Pow256(5) && Pow256(7) == 256 * Pow256(6);
  }

  // Both kinds of numbers come back from their bytes.
  lemma NumberReadBack(n: int, width: nat)
    requires width == 1 || width == 2 || width == 4 || width == 8
    ensures var raw := FromLe(LittleEndian(n, width));
            && raw < Pow256(width) && ToLe(raw, width) == LittleEndian(n, width)
            && (0 <= n < Pow256(width) ==> raw == n)
            && (0 <= 2 * n + Pow256(width) < 2 * Pow256(width) ==> Signed(raw, width) == n)
  {
    ReadDigits(n, width);
    ToFromLe(LittleEndian(n, width));
    Powers();
    hide FromLe, ToLe, LittleEndian, Pow256, Overflow;
  }

  // --- from values to what lies in the file ---

  function WireOf(v: Value): Wire
    decreases v
  {
    match v
    case Bool(on) => Flag(on)
    case String(text) => Text(text)
    case Array(values) => List(ElementCode(values), WiresOf(values))
    case U8(n) => NumberOf(0, n, 1)
    case I8(n) => NumberOf(1, n, 1)
    case U16(n) => NumberOf(2, n, 2)
    case I16(n) => NumberOf(3, n, 2)
    case U32(n) => NumberOf(4, n, 4)
    case I32(n) => NumberOf(5, n, 4)
    case F32(bits) => NumberOf(6, bits, 4)
    case U64(n) => NumberOf(10, n, 8)
    case I64(n) => NumberOf(11, n, 8)
    case F64(bits) => NumberOf(12, bits, 8)
  }

  function NumberOf(tag: nat, n: int, width: nat): Wire {
    Fixed(tag, FromLe(LittleEndian(n, width)))
  }

  function WiresOf(values: seq<Value>): (r: seq<Wire>)
    ensures |r| == |values|
    decreases values
  {
    if values == [] then [] else [WireOf(values[0])] + WiresOf(values[1..])
  }

  lemma {:induction false} WireIsPrint(version: nat, v: Value)
    requires InRange(version, v)
    ensures TagOf(WireOf(v)) == TypeCode(v) && WellFormed(version, WireOf(v))
    ensures Encode(version, WireOf(v)) == Print(version, v)
    ensures ValueOf(WireOf(v)) == v
    decreases v
  {
    match v {
      case Bool(_) =>
      case String(text) =>
        NaturalDigits(|text|, LenWidth(version));
        StringReadBack(text);
      case Array(values) => ArrayIsPrint(version, values);
      case _ => NumberIsPrint(version, v);
    }
  }

  lemma NumberIsPrint(version: nat, v: Value)
    requires InRange(version, v) && !v.Bool? && !v.String? && !v.Array?
    ensures TagOf(WireOf(v)) == TypeCode(v) && WellFormed(version, WireOf(v))
    ensures Encode(version, WireOf(v)) == Print(version, v)
    ensures ValueOf(WireOf(v)) == v
  {
    Powers();
    hide FromLe, ToLe, LittleEndian, Pow256, Signed;
    match v
    case U8(n) => NumberReadBack(n, 1);
    case I8(n) => NumberReadBack(n, 1);
    case U16(n) => NumberReadBack(n, 2);
    case I16(n) => NumberReadBack(n, 2);
    case U32(n) => NumberReadBack(n, 4);
    case I32(n) => NumberReadBack(n, 4);
    case F32(n) => NumberReadBack(n, 4);
    case U64(n) => NumberReadBack(n, 8);
    case I64(n) => NumberReadBack(n, 8);
    case F64(n) => NumberReadBack(n, 8);
  }

  lemma {:induction false} ArrayIsPrint(version: nat, values: seq<Value>)
    requires InRange(version, Array(values))
    ensures var w := WireOf(Array(values));
            WellFormed(version, w) && Encode(version, w) == Print(version, Array(values)) && ValueOf(w) == Array(values)
    decreases values, 1
  {
    var code := ElementCode(values);
    AllArePrints(version, code, values);
    NaturalDigits(code, 4);
    NaturalDigits(|values|, LenWidth(version));
    Powers();
    hide Pow256, ToLe, LittleEndian;
  }

  lemma {:induction false} AllArePrints(version: nat, code: nat, values: seq<Value>)
    requires AllInRange(version, code, values)
    ensures AllWellFormed(version, code, WiresOf(values)) && EncodeItems(version, WiresOf(values)) == PrintAll(version, values)
    ensures ValuesOf(WiresOf(values)) == values
    decreases values, 0
  {
    if values != [] {
      hide WireOf, ValueOf, Encode, Print, WellFormed, InRange, TypeCode, TagOf;
      WireIsPrint(version, values[0]);
      AllArePrints(version, code, values[1..]);
      assert WiresOf(values)[1..] == WiresOf(values[1..]);
    }
  }

  lemma {:induction false} SameDepth(v: Value, depth: nat)
    ensures Shallow(WireOf(v), depth) <==> FitsDepth(v, depth)
    decreases v
  {
    if v.Array? {
      AllSameDepth(v.values, depth + 1);
    }
  }

  lemma {:induction false} AllSameDepth(values: seq<Value>, depth: nat)
    ensures AllShallow(WiresOf(values), depth) <==> AllFitDepth(values, depth)
    decreases values
  {
    if values != [] {
      SameDepth(values[0], depth);
      AllSameDepth(values[1..], depth);
      assert WiresOf(values)[1..] == WiresOf(values[1..]);
    }
  }

  // Any value in range that is printed at a position and read there with its type code comes back itself, and the reader
  // stops where the print does; a value that nests too deep is refused.
  lemma PrintReadBack(data: Bytes, pos: nat, version: nat, v: Value, depth: nat)
    requires InRange(version, v) && depth <= 64 && LiesAt(data, pos, Print(version, v))
    ensures var r := DecodeValue(data, pos, version, TypeCode(v), depth);
            if FitsDepth(v, depth) then r.Ok? && ValueOf(r.value) == v && r.next == pos + |Print(version, v)|
            else r == Err(NestingTooDeep)
  {
    WireIsPrint(version, v);
    SameDepth(v, depth);
    DecodeEncoded(data, pos, version, WireOf(v), depth);
  }

  // --- from what lies in the file to values ---

  // All strings are clean, and an empty array has the element type the printer writes.
  predicate Canonical(w: Wire)
    decreases w
  {
    match w
    case Text(raw) => IsClean(raw)
    case List(elem, items) => (items == [] ==> elem == 0) && AllCanonical(items)
    case _ => true
  }

  predicate AllCanonical(items: seq<Wire>)
    decreases items
  {
    items == [] || (Canonical(items[0]) && AllCanonical(items[1..]))
  }

  lemma NumberPrintedBack(raw: nat, width: nat)
    requires width == 1 || width == 2 || width == 4 || width == 8
    requires raw < Pow256(width)
    ensures LittleEndian(raw, width) == ToLe(raw, width) && LittleEndian(Signed(raw, width), width) == ToLe(raw, width)
    ensures 0 <= 2 * Signed(raw, width) + Pow256(width) < 2 * Pow256(width)
  {
    NaturalDigits(raw, width);
    var n := Signed(raw, width);
    ReadDigits(n, width);
    ToFromLe(LittleEndian(n, width));
    Powers();
    hide FromLe, ToLe, LittleEndian, Pow256, Overflow;
  }

  lemma TypeOfValue(version: nat, w: Wire)
    requires WellFormed(version, w)
    ensures TypeCode(ValueOf(w)) == TagOf(w)
  {
  }

  lemma NumberPrints(version: nat, w: Wire)
    requires WellFormed(version, w) && w.Fixed?
    ensures InRange(version, ValueOf(w)) && Print(version, ValueOf(w)) == Encode(version, w)
  {
    NumberPrintedBack(w.number, FixedWidth(w.tag));
    Powers();
    hide ToLe, LittleEndian, Pow256, Signed;
  }

  lemma {:induction false} CanonicalPrints(version: nat, w: Wire)
    requires WellFormed(version, w) && Canonical(w)
    ensures InRange(version, ValueOf(w)) && Print(version, ValueOf(w)) == Encode(version, w)
    decreases w
  {
    match w {
      case Fixed(_, _) => NumberPrints(version, w);
      case Flag(_) =>
      case Text(raw) =>
        StringReadBackIff(raw);
        NaturalDigits(|raw|, LenWidth(version));
      case List(elem, items) =>
        AllCanonicalPrint(version, elem, items);
        if items != [] {
          TypeOfValue(version, items[0]);
        }
        NaturalDigits(elem, 4);
        NaturalDigits(|items|, LenWidth(version));
        Powers();
        hide Pow256, ToLe, LittleEndian;
    }
  }

  lemma {:induction false} AllCanonicalPrint(version: nat, elem: nat, items: seq<Wire>)
    requires AllWellFormed(version, elem, items) && AllCanonical(items)
    ensures |ValuesOf(items)| == |items|
    ensures AllInRange(version, elem, ValuesOf(items)) && PrintAll(version, ValuesOf(items)) == EncodeItems(version, items)
    decreases items
  {
    if items != [] {
      CanonicalPrints(version, items[0]);
      TypeOfValue(version, items[0]);
      AllCanonicalPrint(version, elem, items[1..]);
      assert ValuesOf(items)[1..] == ValuesOf(items[1..]);
      hide ValueOf, Encode, Print, WellFormed, InRange, Canonical;
    }
  }

  lemma {:induction false} WiresAreCanonical(version: nat, v: Value)
    requires InRange(version, v)
    ensures Canonical(WireOf(v))
    decreases v
  {
    if v.Array? {
      AllWiresAreCanonical(version, ElementCode(v.values), v.values);
    }
  }

  lemma {:induction false} AllWiresAreCanonical(version: nat, code: nat, values: seq<Value>)
    requires AllInRange(version, code, values)
    ensures AllCanonical(WiresOf(values))
    decreases values
  {
    if values != [] {
      WiresAreCanonical(version, values[0]);
      AllWiresAreCanonical(version, code, values[1..]);
      assert WiresOf(values)[1..] == WiresOf(values[1..]);
    }
  }

  // Whatever the reader accepts has the type it was read as, and what it read is the print of the value it hands out if and
  // only if all strings are clean and empty arrays have element type 0. Numbers are always such prints.
  lemma HandedOutIsPrintIff(data: Bytes, pos: nat, version: nat, tag: nat, depth: nat)
    requires depth <= 64 && DecodeValue(data, pos, version, tag, depth).Ok?
    ensures var Ok(w, next) := DecodeValue(data, pos, version, tag, depth);
            && TypeCode(ValueOf(w)) == tag
            && (InRange(version, ValueOf(w)) && LiesAt(data, pos, Print(version, ValueOf(w))) <==> Canonical(w))
            && (Canonical(w) ==> next == pos + |Print(version, ValueOf(w))|)
            && (tag < 8 || tag > 9 ==> Canonical(w))
  {
    var Ok(w, next) := DecodeValue(data, pos, version, tag, depth);
    DecodedIsEncoded(data, pos, version, tag, depth);
    TypeOfValue(version, w);
    if Canonical(w) {
      CanonicalPrints(version, w);
    }
    if InRange(version, ValueOf(w)) && LiesAt(data, pos, Print(version, ValueOf(w))) {
      WireIsPrint(version, ValueOf(w));
      DecodeEncoded(data, pos, version, WireOf(ValueOf(w)), depth);
      WiresAreCanonical(version, ValueOf(w));
    }
    hide WireOf, ValueOf, Encode, Print, WellFormed, InRange, Shallow, DecodeValue;
  }

  // --- the whole section ---

  datatype Pair = Pair(key: Bytes, value: Value)

  // The magic number in either byte order.
  predicate IsMagic(magic: Bytes) {
    magic == [0x47, 0x47, 0x55, 0x46] || magic == [0x46, 0x55, 0x47, 0x47]
  }

  function PrintSection(magic: Bytes, version: nat, tensorCount: nat, pairs: seq<Pair>): Bytes {
    magic + LittleEndian(version, 4) + PrintLength(version, tensorCount) + PrintLength(version, |pairs|)
    + PrintPairs(version, pairs)
  }

  function PrintPairs(version: nat, pairs: seq<Pair>): Bytes {
    if pairs == [] then []
    else
      PrintLength(version, |pairs[0].key|) + pairs[0].key + LittleEndian(TypeCode(pairs[0].value), 4)
      + Print(version, pairs[0].value) + PrintPairs(version, pairs[1..])
  }

  predicate PairsInRange(version: nat, pairs: seq<Pair>) {
    forall i :: 0 <= i < |pairs| ==> IsText(pairs[i].key) && InRange(version, pairs[i].value)
  }

  predicate PairsFitDepth(pairs: seq<Pair>) {
    forall i :: 0 <= i < |pairs| ==> FitsDepth(pairs[i].value, 0)
  }

  // The map with the pairs put in one after another.
  function MapOf(pairs: seq<Pair>): map<Bytes, Value> {
    if pairs == [] then map[]
    else MapOf(pairs[..|pairs| - 1])[pairs[|pairs| - 1].key := pairs[|pairs| - 1].value]
  }

  function EntryOf(p: Pair): Entry {
    Entry(p.key, WireOf(p.value))
  }

  function EntriesOf(pairs: seq<Pair>): (r: seq<Entry>)
    ensures |r| == |pairs| && forall i :: 0 <= i < |r| ==> r[i] == EntryOf(pairs[i])
  {
    seq(|pairs|, i requires 0 <= i < |pairs| => EntryOf(pairs[i]))
  }

  lemma EntryIsPrint(version: nat, p: Pair)
    requires IsText(p.key) && InRange(version, p.value)
    ensures EncodeEntry(version, EntryOf(p))
         == PrintLength(version, |p.key|) + p.key + LittleEndian(TypeCode(p.value), 4) + Print(version, p.value)
    ensures WellFormed(version, EntryOf(p).value)
    ensures StringOf(EntryOf(p).key) == p.key && ValueOf(EntryOf(p).value) == p.value
    ensures Shallow(EntryOf(p).value, 0) <==> FitsDepth(p.value, 0)
  {
    WireIsPrint(version, p.value);
    SameDepth(p.value, 0);
    StringReadBack(p.key);
    NaturalDigits(|p.key|, LenWidth(version));
    NaturalDigits(TypeCode(p.value), 4);
    hide WireOf, ValueOf, Encode, Print, WellFormed, InRange, Shallow;
  }

  lemma {:induction false} EntriesArePrints(version: nat, pairs: seq<Pair>)
    requires PairsInRange(version, pairs)
    ensures EncodeEntries(version, EntriesOf(pairs)) == PrintPairs(version, pairs)
    ensures WellFormedEntries(version, EntriesOf(pairs))
    ensures ShallowEntries(EntriesOf(pairs)) <==> PairsFitDepth(pairs)
  {
    if pairs != [] {
      hide EncodeEntry, WellFormed, Shallow, FitsDepth, InRange, IsText, Print, WireOf, ValueOf, StringOf, TypeCode;
      EntryIsPrint(version, pairs[0]);
      EntriesArePrints(version, pairs[1..]);
      assert EntriesOf(pairs)[1..] == EntriesOf(pairs[1..]);
      FirstFits(pairs);
      hide PairsFitDepth;
    }
  }

  lemma FirstFits(pairs: seq<Pair>)
    requires pairs != []
    ensures PairsFitDepth(pairs) <==> FitsDepth(pairs[0].value, 0) && PairsFitDepth(pairs[1..])
  {
    assert forall i :: 0 < i < |pairs| ==> pairs[i] == pairs[1..][i - 1];
    hide FitsDepth;
  }

  lemma {:induction false} MapIsOfPairs(version: nat, pairs: seq<Pair>)
    requires PairsInRange(version, pairs)
    ensures MetadataOf(EntriesOf(pairs)) == MapOf(pairs)
  {
    if pairs != [] {
      hide WireOf, ValueOf, StringOf, Encode, EncodeEntry, Print, WellFormed, InRange, IsText, Shallow, FitsDepth, TypeCode;
      EntryIsPrint(version, pairs[|pairs| - 1]);
      MapIsOfPairs(version, pairs[..|pairs| - 1]);
      assert EntriesOf(pairs)[..|pairs| - 1] == EntriesOf(pairs[..|pairs| - 1]);
    }
  }

  // A printed section, whatever follows it, is read to its last byte and gives the map of its pairs; it is refused, for its
  // nesting, exactly when some value nests too deep.
  lemma SectionReadBack(data: Bytes, pos: nat, magic: Bytes, version: nat, tensorCount: nat, pairs: seq<Pair>)
    requires IsMagic(magic) && 1 <= version <= 3 && tensorCount < Lengths(version) && |pairs| < Lengths(version)
    requires PairsInRange(version, pairs) && LiesAt(data, pos, PrintSection(magic, version, tensorCount, pairs))
    ensures var r := DecodeFile(data, pos);
            if PairsFitDepth(pairs) then
              && r.Ok? && r.next == pos + |PrintSection(magic, version, tensorCount, pairs)|
              && MetadataOf(r.value.entries) == MapOf(pairs)
              && r.value.version == version && r.value.tensorCount == tensorCount
            else r == Err(NestingTooDeep)
  {
    var f := File(FromLe(magic), version, tensorCount, EntriesOf(pairs));
    MagicIff(magic);
    EntriesArePrints(version, pairs);
    MapIsOfPairs(version, pairs);
    SectionIsPrint(f, magic);
    Powers();
    hide PrintPairs, EncodeEntries, EncodeFile, WellFormedEntries, ShallowEntries, PairsFitDepth, PairsInRange, MetadataOf;
    hide KnownMagic, IsMagic, FromLe;
    RoundTrip(data, pos, f);
  }

  lemma SectionIsPrint(f: File, magic: Bytes)
    requires |magic| == 4 && f.magic == FromLe(magic)
    ensures EncodeFile(f) == magic + LittleEndian(f.version, 4) + PrintLength(f.version, f.tensorCount)
                             + PrintLength(f.version, |f.entries|) + EncodeEntries(f.version, f.entries)
  {
    ToFromLe(magic);
    NaturalDigits(f.version, 4);
    NaturalDigits(f.tensorCount, LenWidth(f.version));
    NaturalDigits(|f.entries|, LenWidth(f.version));
    hide ToLe, LittleEndian, FromLe;
  }

  lemma MagicIff(b: Bytes)
    requires |b| == 4
    ensures KnownMagic(FromLe(b)) <==> IsMagic(b)
  {
    FourBytes(b);
  }

  lemma FourBytes(b: Bytes)
    requires |b| == 4
    ensures FromLe(b) == b[0] as int + 0x100 * (b[1] as int) + 0x1_0000 * (b[2] as int) + 0x100_0000 * (b[3] as int)
  {
    assert FromLe(b[4..]) == 0 && b[3..][1..] == b[4..] && b[2..][1..] == b[3..] && b[1..][1..] == b[2..];
    assert FromLe(b[3..]) == b[3] && FromLe(b[2..]) == b[2] + 0x100 * FromLe(b[3..]);
    assert FromLe(b[1..]) == b[1] + 0x100 * FromLe(b[2..]);
  }

  // Only sections of versions 1 to 3 that begin with the magic number are accepted, and the first thing that is wrong is
  // reported.
  lemma HeaderDecides(data: Bytes, pos: nat)
    ensures DecodeFile(data, pos).Ok? ==>
              pos + 8 <= |data| && IsMagic(data[pos..pos + 4]) && 1 <= data[pos + 4] <= 3 && data[pos + 5..pos + 8] == [0, 0, 0]
    ensures pos + 4 > |data| ==> DecodeFile(data, pos) == Err(UnexpectedEof)
    ensures pos + 4 <= |data| && !IsMagic(data[pos..pos + 4]) ==>
              DecodeFile(data, pos) == Err(UnknownMagic(FromLe(data[pos..pos + 4])))
    ensures pos + 8 <= |data| && IsMagic(data[pos..pos + 4]) && !(1 <= FromLe(data[pos + 4..pos + 8]) <= 3) ==>
              DecodeFile(data, pos) == Err(UnsupportedVersion(FromLe(data[pos + 4..pos + 8])))
  {
    if pos + 4 <= |data| {
      MagicIff(data[pos..pos + 4]);
    }
    if pos + 8 <= |data| {
      var b := data[pos + 4..pos + 8];
      FourBytes(b);
      assert data[pos + 5..pos + 8] == [b[1], b[2], b[3]];
    }
    hide FromLe, IsMagic, KnownMagic, DecodeEntries;
  }
}
