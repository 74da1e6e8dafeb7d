/** The metadata section of a GGUF file: its layout, the values it holds, and the decoder that the reader of
    crates/crytex-inference-candle/src/model.rs is proved against. */
module GgufFormat {
  import opened Utf8

  datatype Error =
    | UnexpectedEof
    | UnknownMagic(magic: nat)
    | UnsupportedVersion(version: nat)
    | NestingTooDeep
    | InvalidBool(value: nat)
    | UnknownType(tag: nat)
    | StringTooLong(len: nat)

  // A decoded item and the position after it.
  datatype Parsed<+T> = Ok(value: T, next: nat) | Err(error: Error)

  // What the reader hands out. Floats are their bit patterns.
  datatype Value =
    | U8(u8: nat) | I8(i8: int) | U16(u16: nat) | I16(i16: int) | U32(u32: nat) | I32(i32: int)
    | U64(u64: nat) | I64(i64: int) | F32(bits32: nat) | F64(bits64: nat)
    | Bool(on: bool) | String(text: Bytes) | Array(values: seq<Value>)

  // What lies in the file: unlike a value it keeps the bytes of a string as written and the element
  // type of an array, which for an empty array may be anything.
  datatype Wire =
    | Fixed(tag: nat, number: nat)
    | Flag(on: bool)
    | Text(raw: Bytes)
    | List(elem: nat, items: seq<Wire>)

  datatype Entry = Entry(key: Bytes, value: Wire)

  datatype File = File(magic: nat, version: nat, tensorCount: nat, entries: seq<Entry>)

  const MAX_STRING: nat := 0x4000_0000
  const MAX_DEPTH: nat := 64

  // ----- little-endian numbers -----

  function Pow256(width: nat): (p: nat)
    ensures p > 0
  {
    if width == 0 then 1 else 256 * Pow256(width - 1)
  }

  function FromLe(b: Bytes): nat {
    if b == [] then 0 else b[0] + 256 * FromLe(b[1..])
  }

  function ToLe(n: nat, width: nat): (r: Bytes)
    ensures |r| == width
  {
    if width == 0 then [] else [n % 256] + ToLe(n / 256, width - 1)
  }

  lemma {:induction false} FromToLe(n: nat, width: nat)
    requires n < Pow256(width)
    ensures FromLe(ToLe(n, width)) == n
  {
    if width > 0 {
      FromToLe(n / 256, width - 1);
    }
  }

  lemma {:induction false} ToFromLe(b: Bytes)
    ensures FromLe(b) < Pow256(|b|) && ToLe(FromLe(b), |b|) == b
  {
    if b != [] {
      ToFromLe(b[1..]);
      assert FromLe(b) / 256 == FromLe(b[1..]) && FromLe(b) % 256 == b[0];
    }
  }

  // Two's complement.
  function Signed(raw: nat, width: nat): int {
    if 2 * raw < Pow256(width) then raw else raw - Pow256(width)
  }

  // ----- strings -----

  function TrimNul(b: Bytes): Bytes {
    if b != [] && b[|b| - 1] == 0 then TrimNul(b[..|b| - 1]) else b
  }

  function StringOf(raw: Bytes): Bytes {
    Lossy(TrimNul(raw))
  }

  lemma {:induction false} ValidWithoutLastNul(s: Bytes)
    requires Valid(s + [0])
    ensures Valid(s)
  {
    if s != [] {
      var n := PrefixLen(s + [0]);
      assert n <= |s|;
      assert (s + [0])[n..] == s[n..] + [0];
      ValidWithoutLastNul(s[n..]);
    }
  }

  // A written string, which is valid UTF-8, loses exactly its trailing NULs.
  lemma {:induction false} StringReadBack(raw: Bytes)
    requires Valid(raw)
    ensures StringOf(raw) == TrimNul(raw)
    ensures StringOf(raw) == raw <==> raw == [] || raw[|raw| - 1] != 0
    ensures |StringOf(raw)| <= |raw|
  {
    if raw != [] && raw[|raw| - 1] == 0 {
      var s := raw[..|raw| - 1];
      assert raw == s + [0];
      ValidWithoutLastNul(s);
      StringReadBack(s);
    } else {
      LossyIdentityIff(raw);
    }
  }

  lemma {:induction false} TrimmedEnd(b: Bytes)
    ensures TrimNul(b) == [] || TrimNul(b)[|TrimNul(b)| - 1] != 0
  {
    if b != [] && b[|b| - 1] == 0 {
      TrimmedEnd(b[..|b| - 1]);
    }
  }

  lemma {:induction false} LossyEnd(s: Bytes)
    requires s != [] && s[|s| - 1] != 0
    ensures Lossy(s) != [] && Lossy(s)[|Lossy(s)| - 1] != 0
  {
    var n := PrefixLen(s);
    if n < |s| {
      LossyEnd(s[n..]);
    } else {
      assert Lossy(s[n..]) == [];
    }
  }

  // Exactly the well-formed strings without a NUL at the end come back as they were written.
  lemma StringReadBackIff(raw: Bytes)
    ensures StringOf(raw) == raw <==> IsClean(raw)
  {
    if IsClean(raw) {
      StringReadBack(raw);
    }
    LossyIsValid(TrimNul(raw));
    TrimmedEnd(raw);
    if TrimNul(raw) != [] {
      LossyEnd(TrimNul(raw));
    }
  }

  predicate IsClean(raw: Bytes) {
    Valid(raw) && (raw == [] || raw[|raw| - 1] != 0)
  }

  // ----- the layout -----

  function LenWidth(version: nat): nat {
    if version == 1 then 4 else 8
  }

  // The width of a fixed-size type; 0 for the others.
  function FixedWidth(tag: nat): nat {
    match tag
    case 0 => 1
    case 1 => 1
    case 2 => 2
    case 3 => 2
    case 4 => 4
    case 5 => 4
    case 6 => 4
    case 10 => 8
    case 11 => 8
    case 12 => 8
    case _ => 0
  }

  function TagOf(w: Wire): nat {
    match w
    case Fixed(tag, _) => tag
    case Flag(_) => 7
    case Text(_) => 8
    case List(_, _) => 9
  }

  function EncodeText(version: nat, raw: Bytes): Bytes {
    ToLe(|raw|, LenWidth(version)) + raw
  }

  function Encode(version: nat, w: Wire): Bytes
    decreases w
  {
    match w
    case Fixed(tag, raw) => ToLe(raw, FixedWidth(tag))
    case Flag(on) => [if on then 1 else 0]
    case Text(raw) => EncodeText(version, raw)
    case List(elem, items) => ToLe(elem, 4) + ToLe(|items|, LenWidth(version)) + EncodeItems(version, items)
  }

  function EncodeItems(version: nat, items: seq<Wire>): Bytes
    decreases items
  {
    if items == [] then [] else Encode(version, items[0]) + EncodeItems(version, items[1..])
  }

  function EncodeEntry(version: nat, e: Entry): Bytes {
    EncodeText(version, e.key) + ToLe(TagOf(e.value), 4) + Encode(version, e.value)
  }

  function EncodeEntries(version: nat, entries: seq<Entry>): Bytes {
    if entries == [] then [] else EncodeEntry(version, entries[0]) + EncodeEntries(version, entries[1..])
  }

  function EncodeFile(f: File): Bytes {
    ToLe(f.magic, 4) + ToLe(f.version, 4) + ToLe(f.tensorCount, LenWidth(f.version)) +
    ToLe(|f.entries|, LenWidth(f.version)) + EncodeEntries(f.version, f.entries)
  }

  // The numbers fit their fields, and array elements have the array's element type.
  predicate WellFormed(version: nat, w: Wire)
    decreases w
  {
    match w
    case Fixed(tag, raw) => FixedWidth(tag) > 0 && raw < Pow256(FixedWidth(tag))
    case Flag(_) => true
    case Text(raw) => |raw| <= MAX_STRING
    case List(elem, items) =>
      elem < Pow256(4) && |items| < Pow256(LenWidth(version)) && AllWellFormed(version, elem, items)
  }

  predicate AllWellFormed(version: nat, elem: nat, items: seq<Wire>)
    decreases items
  {
    items == [] ||
    (TagOf(items[0]) == elem && WellFormed(version, items[0]) && AllWellFormed(version, elem, items[1..]))
  }

  // No non-empty array at depth MAX_DEPTH or below, `w` itself being at `depth`.
  predicate Shallow(w: Wire, depth: nat)
    decreases w
  {
    w.List? && w.items != [] ==> depth < MAX_DEPTH && AllShallow(w.items, depth + 1)
  }

  predicate AllShallow(items: seq<Wire>, depth: nat)
    decreases items
  {
    items == [] || (Shallow(items[0], depth) && AllShallow(items[1..], depth))
  }

  predicate WellFormedEntries(version: nat, entries: seq<Entry>) {
    entries == [] ||
    (|entries[0].key| <= MAX_STRING && WellFormed(version, entries[0].value) && WellFormedEntries(version, entries[1..]))
  }

  predicate ShallowEntries(entries: seq<Entry>) {
    entries == [] || (Shallow(entries[0].value, 0) && ShallowEntries(entries[1..]))
  }

  predicate KnownMagic(magic: nat) {
    magic == 0x4655_4747 || magic == 0x4747_5546
  }

  predicate WellFormedFile(f: File) {
    && KnownMagic(f.magic) && 1 <= f.version <= 3
    && f.tensorCount < Pow256(LenWidth(f.version)) && |f.entries| < Pow256(LenWidth(f.version))
    && WellFormedEntries(f.version, f.entries)
  }

  // ----- the decoder -----

  function DecodeLe(data: Bytes, pos: nat, width: nat): Parsed<nat> {
    if pos + width <= |data| then Ok(FromLe(data[pos..pos + width]), pos + width) else Err(UnexpectedEof)
  }

  function DecodeText(data: Bytes, pos: nat, version: nat): Parsed<Bytes> {
    match DecodeLe(data, pos, LenWidth(version))
    case Err(e) => Err(e)
    case Ok(len, next) =>
      if len > MAX_STRING then Err(StringTooLong(len))
      else if next + len <= |data| then Ok(data[next..next + len], next + len)
      else Err(UnexpectedEof)
  }

  function DecodeValue(data: Bytes, pos: nat, version: nat, tag: nat, depth: nat): Parsed<Wire>
    requires depth <= MAX_DEPTH + 1
    decreases MAX_DEPTH + 1 - depth, 0, 0
  {
    if depth > MAX_DEPTH then Err(NestingTooDeep)
    else if FixedWidth(tag) > 0 then
      match DecodeLe(data, pos, FixedWidth(tag))
      case Err(e) => Err(e)
      case Ok(raw, next) => Ok(Fixed(tag, raw), next)
    else if tag == 7 then
      match DecodeLe(data, pos, 1)
      case Err(e) => Err(e)
      case Ok(raw, next) =>
        if raw == 0 then Ok(Flag(false), next)
        else if raw == 1 then Ok(Flag(true), next)
        else Err(InvalidBool(raw))
    else if tag == 8 then
      match DecodeText(data, pos, version)
      case Err(e) => Err(e)
      case Ok(raw, next) => Ok(Text(raw), next)
    else if tag == 9 then
      match DecodeLe(data, pos, 4)
      case Err(e) => Err(e)
      case Ok(elem, next) =>
        match DecodeLe(data, next, LenWidth(version))
        case Err(e) => Err(e)
        case Ok(len, next) =>
          match DecodeItems(data, next, version, elem, depth + 1, len)
          case Err(e) => Err(e)
          case Ok(items, next) => Ok(List(elem, items), next)
    else Err(UnknownType(tag))
  }

  function DecodeItems(data: Bytes, pos: nat, version: nat, tag: nat, depth: nat, count: nat): Parsed<seq<Wire>>
    requires depth <= MAX_DEPTH + 1
    decreases MAX_DEPTH + 1 - depth, 1, count
  {
    if count == 0 then Ok([], pos)
    else
      match DecodeValue(data, pos, version, tag, depth)
      case Err(e) => Err(e)
      case Ok(first, next) =>
        match DecodeItems(data, next, version, tag, depth, count - 1)
        case Err(e) => Err(e)
        case Ok(rest, next) => Ok([first] + rest, next)
  }

  function DecodeEntry(data: Bytes, pos: nat, version: nat): Parsed<Entry> {
    match DecodeText(data, pos, version)
    case Err(e) => Err(e)
    case Ok(key, next) =>
      match DecodeLe(data, next, 4)
      case Err(e) => Err(e)
      case Ok(tag, next) =>
        match DecodeValue(data, next, version, tag, 0)
        case Err(e) => Err(e)
        case Ok(value, next) => Ok(Entry(key, value), next)
  }

  function DecodeEntries(data: Bytes, pos: nat, version: nat, count: nat): Parsed<seq<Entry>>
    decreases count
  {
    if count == 0 then Ok([], pos)
    else
      match DecodeEntry(data, pos, version)
      case Err(e) => Err(e)
      case Ok(first, next) =>
        match DecodeEntries(data, next, version, count - 1)
        case Err(e) => Err(e)
        case Ok(rest, next) => Ok([first] + rest, next)
  }

  function DecodeFile(data: Bytes, pos: nat): Parsed<File> {
    match DecodeLe(data, pos, 4)
    case Err(e) => Err(e)
    case Ok(magic, next) =>
      if !KnownMagic(magic) then Err(UnknownMagic(magic))
      else
        match DecodeLe(data, next, 4)
        case Err(e) => Err(e)
        case Ok(version, next) =>
          if !(1 <= version <= 3) then Err(UnsupportedVersion(version))
          else
            match DecodeLe(data, next, LenWidth(version))
            case Err(e) => Err(e)
            case Ok(tensorCount, next) =>
              match DecodeLe(data, next, LenWidth(version))
              case Err(e) => Err(e)
              case Ok(count, next) =>
                match DecodeEntries(data, next, version, count)
                case Err(e) => Err(e)
                case Ok(entries, next) => Ok(File(magic, version, tensorCount, entries), next)
  }

  // ----- what a decoded item means -----

  function ValueOf(w: Wire): Value
    decreases w
  {
    match w
    case Flag(on) => Bool(on)
    case Text(raw) => String(StringOf(raw))
    case List(_, items) => Array(ValuesOf(items))
    case Fixed(tag, raw) =>
      match tag
      case 0 => U8(raw)
      case 1 => I8(Signed(raw, 1))
      case 2 => U16(raw)
      case 3 => I16(Signed(raw, 2))
      case 4 => U32(raw)
      case 5 => I32(Signed(raw, 4))
      case 6 => F32(raw)
      case 10 => U64(raw)
      case 11 => I64(Signed(raw, 8))
      case _ => F64(raw)
  }

  function ValuesOf(items: seq<Wire>): seq<Value>
    decreases items
  {
    if items == [] then [] else [ValueOf(items[0])] + ValuesOf(items[1..])
  }

  // All strings in a value are clean.
  predicate Clean(w: Wire)
    decreases w
  {
    match w
    case Text(raw) => IsClean(raw)
    case List(_, items) => AllClean(items)
    case _ => true
  }

  predicate AllClean(items: seq<Wire>)
    decreases items
  {
    items == [] || (Clean(items[0]) && AllClean(items[1..]))
  }

  // The value as it was written, its strings untouched.
  function Written(w: Wire): Value
    decreases w
  {
    match w
    case Text(raw) => String(raw)
    case List(_, items) => Array(AllWritten(items))
    case _ => ValueOf(w)
  }

  function AllWritten(items: seq<Wire>): seq<Value>
    decreases items
  {
    if items == [] then [] else [Written(items[0])] + AllWritten(items[1..])
  }

  // A value means what was written if and only if all its strings are clean.
  lemma {:induction false} MeansWrittenIff(w: Wire)
    ensures ValueOf(w) == Written(w) <==> Clean(w)
    decreases w
  {
    if w.Text? {
      StringReadBackIff(w.raw);
    } else if w.List? {
      AllMeanWrittenIff(w.items);
    }
  }

  lemma {:induction false} AllMeanWrittenIff(items: seq<Wire>)
    ensures ValuesOf(items) == AllWritten(items) <==> AllClean(items)
    decreases items
  {
    if items != [] {
      MeansWrittenIff(items[0]);
      AllMeanWrittenIff(items[1..]);
      var values, written := ValuesOf(items), AllWritten(items);
      assert values == [ValueOf(items[0])] + ValuesOf(items[1..]);
      assert written == [Written(items[0])] + AllWritten(items[1..]);
      assert values == written ==> values[0] == written[0] && values[1..] == written[1..];
    }
  }

  // The metadata map after inserting the entries in file order.
  function MetadataOf(entries: seq<Entry>): map<Bytes, Value> {
    if entries == [] then map[]
    else
      var last := entries[|entries| - 1];
      MetadataOf(entries[..|entries| - 1])[StringOf(last.key) := ValueOf(last.value)]
  }

  ghost predicate LastWith(entries: seq<Entry>, i: nat, key: Bytes) {
    i < |entries| && StringOf(entries[i].key) == key &&
    forall j :: i < j < |entries| ==> StringOf(entries[j].key) != key
  }

  // A key is present exactly when some entry has it, and then with the value of the last such entry.
  lemma {:induction false} LaterDuplicatesWin(entries: seq<Entry>, key: Bytes)
    ensures key in MetadataOf(entries) <==> exists i :: 0 <= i < |entries| && StringOf(entries[i].key) == key
    ensures forall i: nat :: LastWith(entries, i, key) ==>
              key in MetadataOf(entries) && MetadataOf(entries)[key] == ValueOf(entries[i].value)
  {
    if entries != [] {
      var before, last := entries[..|entries| - 1], entries[|entries| - 1];
      LaterDuplicatesWin(before, key);
      assert entries == before + [last];
      forall i: nat | LastWith(entries, i, key) && i < |before|
        ensures LastWith(before, i, key)
      {
      }
    }
  }

  // ----- the map of what was written -----

  function WrittenMap(entries: seq<Entry>): map<Bytes, Value> {
    if entries == [] then map[]
    else
      var last := entries[|entries| - 1];
      WrittenMap(entries[..|entries| - 1])[last.key := Written(last.value)]
  }

  // Entry `i` is the last one written under its key.
  ghost predicate Wins(entries: seq<Entry>, i: nat) {
    i < |entries| && forall j :: i < j < |entries| ==> entries[j].key != entries[i].key
  }

  ghost predicate KeysClean(entries: seq<Entry>) {
    forall i :: 0 <= i < |entries| ==> IsClean(entries[i].key)
  }

  ghost predicate WinnersClean(entries: seq<Entry>) {
    forall i: nat :: Wins(entries, i) ==> Clean(entries[i].value)
  }

  lemma {:induction false} WrittenLookup(entries: seq<Entry>, key: Bytes)
    ensures key in WrittenMap(entries) <==> exists i :: 0 <= i < |entries| && entries[i].key == key
    ensures forall i: nat :: Wins(entries, i) && entries[i].key == key ==>
              key in WrittenMap(entries) && WrittenMap(entries)[key] == Written(entries[i].value)
  {
    if entries != [] {
      var before, last := entries[..|entries| - 1], entries[|entries| - 1];
      WrittenLookup(before, key);
      assert entries == before + [last];
      forall i: nat | Wins(entries, i) && i < |before|
        ensures Wins(before, i)
      {
      }
    }
  }

  lemma {:induction false} SomeWinner(entries: seq<Entry>, i: nat) returns (w: nat)
    requires i < |entries|
    ensures Wins(entries, w) && entries[w].key == entries[i].key
    decreases |entries| - i
  {
    if j :| i < j < |entries| && entries[j].key == entries[i].key {
      w := SomeWinner(entries, j);
    } else {
      w := i;
    }
  }

  // What is handed out is clean.
  lemma HandedOutClean(raw: Bytes)
    ensures IsClean(StringOf(raw))
  {
    LossyIsValid(TrimNul(raw));
    TrimmedEnd(raw);
    if TrimNul(raw) != [] {
      LossyEnd(TrimNul(raw));
    }
  }

  // With clean keys, the last entry handed out under a key is the last one written under it.
  lemma WinnerIsLast(entries: seq<Entry>, i: nat)
    requires KeysClean(entries) && Wins(entries, i)
    ensures LastWith(entries, i, entries[i].key)
  {
    StringReadBackIff(entries[i].key);
    forall j | i < j < |entries|
      ensures StringOf(entries[j].key) != entries[i].key
    {
      StringReadBackIff(entries[j].key);
    }
  }

  lemma WinnerAgreesIff(entries: seq<Entry>, i: nat)
    requires KeysClean(entries) && Wins(entries, i)
    ensures var key := entries[i].key;
            && key in MetadataOf(entries) && key in WrittenMap(entries)
            && (MetadataOf(entries)[key] == WrittenMap(entries)[key] <==> Clean(entries[i].value))
  {
    WinnerIsLast(entries, i);
    LaterDuplicatesWin(entries, entries[i].key);
    WrittenLookup(entries, entries[i].key);
    MeansWrittenIff(entries[i].value);
  }

  lemma MetadataIsWrittenIff(entries: seq<Entry>)
    ensures MetadataOf(entries) == WrittenMap(entries) <==> KeysClean(entries) && WinnersClean(entries)
  {
    var handed, written := MetadataOf(entries), WrittenMap(entries);
    if handed == written {
      forall i | 0 <= i < |entries|
        ensures IsClean(entries[i].key)
      {
        WrittenLookup(entries, entries[i].key);
        LaterDuplicatesWin(entries, entries[i].key);
        var j :| 0 <= j < |entries| && StringOf(entries[j].key) == entries[i].key;
        HandedOutClean(entries[j].key);
      }
      forall i: nat | Wins(entries, i)
        ensures Clean(entries[i].value)
      {
        WinnerAgreesIff(entries, i);
      }
    }
    if KeysClean(entries) && WinnersClean(entries) {
      forall key: Bytes
        ensures key in handed <==> key in written
        ensures key in written ==> handed[key] == written[key]
      {
        SameUnderKey(entries, key);
      }
    }
  }

  lemma SameUnderKey(entries: seq<Entry>, key: Bytes)
    requires KeysClean(entries) && WinnersClean(entries)
    ensures key in MetadataOf(entries) <==> key in WrittenMap(entries)
    ensures key in WrittenMap(entries) ==> MetadataOf(entries)[key] == WrittenMap(entries)[key]
  {
    LaterDuplicatesWin(entries, key);
    WrittenLookup(entries, key);
    forall i | 0 <= i < |entries|
      ensures StringOf(entries[i].key) == entries[i].key
    {
      StringReadBackIff(entries[i].key);
    }
    if i :| 0 <= i < |entries| && entries[i].key == key {
      var w := SomeWinner(entries, i);
      WinnerAgreesIff(entries, w);
    }
  }

  lemma TwoEntries(d: Entry, e: Entry)
    ensures MetadataOf([d, e]) == map[StringOf(d.key) := ValueOf(d.value)][StringOf(e.key) := ValueOf(e.value)]
    ensures WrittenMap([d, e]) == map[d.key := Written(d.value)][e.key := Written(e.value)]
  {
    hide StringOf, ValueOf, Written;
    assert [d, e][..1] == [d] && [d][..0] == [];
    assert MetadataOf([d]) == map[][StringOf(d.key) := ValueOf(d.value)];
    assert WrittenMap([d]) == map[][d.key := Written(d.value)];
  }

  lemma NulIsTrimmed(key: Bytes)
    ensures StringOf(key + [0]) == StringOf(key)
  {
    assert (key + [0])[..|key + [0]| - 1] == key;
  }

  // Two keys that differ in a trailing NUL only are one key when handed out, and the later entry wins.
  lemma NulKeysCollide(key: Bytes, v: Wire, w: Wire)
    requires IsClean(key)
    ensures var entries := [Entry(key, v), Entry(key + [0], w)];
            && MetadataOf(entries) == map[key := ValueOf(w)]
            && key in WrittenMap(entries) && key + [0] in WrittenMap(entries)
  {
    StringReadBackIff(key);
    NulIsTrimmed(key);
    hide StringOf, ValueOf, Written, IsClean, MetadataOf, WrittenMap;
    TwoEntries(Entry(key, v), Entry(key + [0], w));
  }
}
