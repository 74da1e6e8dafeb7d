/** The reader of crates/crytex-inference-candle/src/model.rs: methods that advance a position. */
module GgufReader {
  import opened Utf8
  import opened GgufFormat
  import GgufCodec
  import GgufPrint

  datatype Outcome<+T> = Success(value: T) | Failure(error: Error)

  class Reader {
    const data: Bytes
    var pos: nat

    constructor (data: Bytes)
      ensures this.data == data && pos == 0
    {
      this.data := data;
      this.pos := 0;
    }

    // `read_exact`: all the bytes or none; where a failed read leaves the position is not promised.
    method ReadExact(n: nat) returns (r: Outcome<Bytes>)
      modifies this
      ensures r == if old(pos) + n <= |data| then Success(data[old(pos)..old(pos) + n]) else Failure(UnexpectedEof)
      ensures r.Success? ==> pos == old(pos) + n
    {
      if pos + n > |data| {
        pos := |data|;
        return Failure(UnexpectedEof);
      }
      r := Success(data[pos..pos + n]);
      pos := pos + n;
    }

    // The little-endian readers of one, two, four and eight bytes.
    method ReadLe(width: nat) returns (r: Outcome<nat>)
      modifies this
      ensures match DecodeLe(data, old(pos), width)
              case Ok(n, next) => r == Success(n) && pos == next
              case Err(e) => r == Failure(e)
    {
      var b := ReadExact(width);
      if b.Failure? {
        return Failure(b.error);
      }
      // from_le_bytes: the most significant byte is the last
      var n: nat := 0;
      var i := |b.value|;
      while i > 0
        invariant 0 <= i <= |b.value| && n == FromLe(b.value[i..])
      {
        i := i - 1;
        n := b.value[i] + 256 * n;
      }
      assert b.value[0..] == b.value;
      r := Success(n);
    }

    method ReadLen(version: nat) returns (r: Outcome<nat>)
      modifies this
      ensures match DecodeLe(data, old(pos), LenWidth(version))
              case Ok(n, next) => r == Success(n) && pos == next
              case Err(e) => r == Failure(e)
    {
      if version == 1 {
        r := ReadLe(4);
      } else {
        r := ReadLe(8);
      }
    }

    method ReadString(version: nat) returns (r: Outcome<Bytes>)
      modifies this
      ensures match DecodeText(data, old(pos), version)
              case Ok(raw, next) => r == Success(StringOf(raw)) && pos == next
              case Err(e) => r == Failure(e)
    {
      var len := ReadLen(version);
      if len.Failure? {
        return Failure(len.error);
      }
      if len.value > MAX_STRING {
        return Failure(StringTooLong(len.value));
      }
      var b := ReadExact(len.value);
      if b.Failure? {
        return Failure(b.error);
      }
      var text := b.value;
      while text != [] && text[|text| - 1] == 0
        invariant TrimNul(text) == TrimNul(b.value)
      {
        text := text[..|text| - 1];
      }
      r := Success(Lossy(text));
    }

    method ReadValue(version: nat, tag: nat, depth: nat) returns (r: Outcome<Value>)
      requires depth <= MAX_DEPTH + 1
      modifies this
      ensures match DecodeValue(data, old(pos), version, tag, depth)
              case Ok(w, next) => r == Success(ValueOf(w)) && pos == next
              case Err(e) => r == Failure(e)
      ensures r.Success? ==> GgufPrint.TypeCode(r.value) == tag
      ensures r.Success? && tag != 8 && tag != 9 ==> IsPrinted(data, old(pos), version, r.value)
      decreases MAX_DEPTH + 1 - depth, 1
    {
      ReadIsPrint(data, pos, version, tag, depth);
      hide IsPrinted;
      if depth > MAX_DEPTH {
        return Failure(NestingTooDeep);
      }
      if tag == 9 {
        var values := ReadArray(version, depth);
        return if values.Failure? then Failure(values.error) else Success(Array(values.value));
      }
      if tag == 7 {
        var b := ReadLe(1);
        if b.Failure? {
          return Failure(b.error);
        }
        match b.value
        case 0 => return Success(Bool(false));
        case 1 => return Success(Bool(true));
        case other => return Failure(InvalidBool(other));
      }
      if tag == 8 {
        var s := ReadString(version);
        if s.Failure? {
          return Failure(s.error);
        }
        return Success(String(s.value));
      }
      if FixedWidth(tag) == 0 {
        return Failure(UnknownType(tag));
      }
      var n := ReadLe(FixedWidth(tag));
      if n.Failure? {
        return Failure(n.error);
      }
      match tag
      case 0 => return Success(U8(n.value));
      case 1 => return Success(I8(Signed(n.value, 1)));
      case 2 => return Success(U16(n.value));
      case 3 => return Success(I16(Signed(n.value, 2)));
      case 4 => return Success(U32(n.value));
      case 5 => return Success(I32(Signed(n.value, 4)));
      case 6 => return Success(F32(n.value));
      case 10 => return Success(U64(n.value));
      case 11 => return Success(I64(Signed(n.value, 8)));
      case _ => return Success(F64(n.value));
    }

    method ReadArray(version: nat, depth: nat) returns (r: Outcome<seq<Value>>)
      requires depth <= MAX_DEPTH
      modifies this
      ensures match DecodeValue(data, old(pos), version, 9, depth)
              case Ok(w, next) => w.List? && r == Success(ValuesOf(w.items)) && pos == next
              case Err(e) => r == Failure(e)
      decreases MAX_DEPTH + 1 - depth, 0
    {
      ListUnfolds(data, pos, version, depth);
      assert ValuesOf([]) == [];
      hide DecodeValue, DecodeItems, ValueOf, ValuesOf, IsPrinted, GgufPrint.TypeCode, FromLe;
      var inner := ReadLe(4);
      if inner.Failure? {
        return Failure(inner.error);
      }
      var len := ReadLen(version);
      if len.Failure? {
        return Failure(len.error);
      }
      ghost var start := pos;
      var values: seq<Value> := [];
      ghost var items: seq<Wire> := [];
      AfterNone(DecodeItems(data, pos, version, inner.value, depth + 1, len.value));
      for i := 0 to len.value
        invariant values == ValuesOf(items)
        invariant DecodeItems(data, start, version, inner.value, depth + 1, len.value) ==
                  After(items, DecodeItems(data, pos, version, inner.value, depth + 1, len.value - i))
      {
        ghost var before := pos;
        ItemsUnfold(data, pos, version, inner.value, depth + 1, len.value - i);
        var v := ReadValue(version, inner.value, depth + 1);
        if v.Failure? {
          return Failure(v.error);
        }
        values := values + [v.value];
        ghost var w := DecodeValue(data, before, version, inner.value, depth + 1).value;
        ValuesOfSnoc(items, w);
        AfterSnoc(items, w, DecodeItems(data, pos, version, inner.value, depth + 1, len.value - i - 1));
        items := items + [w];
      }
      NoItems(data, pos, version, inner.value, depth + 1, items);
      r := Success(values);
    }

    method ReadMetadata() returns (r: Outcome<map<Bytes, Value>>)
      modifies this
      ensures match DecodeFile(data, old(pos))
              case Ok(f, next) => r == Success(MetadataOf(f.entries)) && pos == next
              case Err(e) => r == Failure(e)
    {
      var magic := ReadLe(4);
      if magic.Failure? {
        return Failure(magic.error);
      }
      if magic.value != 0x4655_4747 && magic.value != 0x4747_5546 {
        return Failure(UnknownMagic(magic.value));
      }
      var version := ReadLe(4);
      if version.Failure? {
        return Failure(version.error);
      }
      if !(1 <= version.value <= 3) {
        return Failure(UnsupportedVersion(version.value));
      }
      var tensorCount := ReadLen(version.value);
      if tensorCount.Failure? {
        return Failure(tensorCount.error);
      }
      var count := ReadLen(version.value);
      if count.Failure? {
        return Failure(count.error);
      }
      r := ReadEntries(version.value, count.value);
    }

    method ReadEntry(version: nat) returns (r: Outcome<(Bytes, Value)>)
      modifies this
      ensures match DecodeEntry(data, old(pos), version)
              case Ok(e, next) => r == Success((StringOf(e.key), ValueOf(e.value))) && pos == next
              case Err(e) => r == Failure(e)
    {
      var key := ReadString(version);
      if key.Failure? {
        return Failure(key.error);
      }
      var tag := ReadLe(4);
      if tag.Failure? {
        return Failure(tag.error);
      }
      var value := ReadValue(version, tag.value, 0);
      if value.Failure? {
        return Failure(value.error);
      }
      r := Success((key.value, value.value));
    }

    // The loop over the entries.
    method ReadEntries(version: nat, count: nat) returns (r: Outcome<map<Bytes, Value>>)
      modifies this
      ensures match DecodeEntries(data, old(pos), version, count)
              case Ok(entries, next) => r == Success(MetadataOf(entries)) && pos == next
              case Err(e) => r == Failure(e)
    {
      assert MetadataOf([]) == map[];
      hide DecodeEntry, MetadataOf, StringOf, ValueOf;
      ghost var start := pos;
      var metadata := map[];
      ghost var entries: seq<Entry> := [];
      AfterNone(DecodeEntries(data, pos, version, count));
      for i := 0 to count
        invariant metadata == MetadataOf(entries)
        invariant DecodeEntries(data, start, version, count) == After(entries, DecodeEntries(data, pos, version, count - i))
      {
        ghost var before := pos;
        var next := ReadEntry(version);
        if next.Failure? {
          return Failure(next.error);
        }
        metadata := metadata[next.value.0 := next.value.1];
        ghost var entry := DecodeEntry(data, before, version).value;
        AfterSnoc(entries, entry, DecodeEntries(data, pos, version, count - i - 1));
        MetadataSnoc(entries, entry);
        entries := entries + [entry];
      }
      assert entries + [] == entries;
      r := Success(metadata);
    }
  }

  // A value in the range of its type lies printed there.
  ghost predicate IsPrinted(data: Bytes, pos: nat, version: nat, v: Value) {
    GgufPrint.InRange(version, v) && GgufCodec.LiesAt(data, pos, GgufPrint.Print(version, v))
  }

  lemma ReadIsPrint(data: Bytes, pos: nat, version: nat, tag: nat, depth: nat)
    requires depth <= MAX_DEPTH + 1
    ensures match DecodeValue(data, pos, version, tag, depth)
            case Ok(w, _) =>
              GgufPrint.TypeCode(ValueOf(w)) == tag && (tag != 8 && tag != 9 ==> IsPrinted(data, pos, version, ValueOf(w)))
            case Err(_) => true
  {
    if DecodeValue(data, pos, version, tag, depth).Ok? {
      GgufCodec.DecodedIsEncoded(data, pos, version, tag, depth);
      GgufPrint.HandedOutIsPrintIff(data, pos, version, tag, depth);
    }
  }

  ghost function After<T>(done: seq<T>, rest: Parsed<seq<T>>): Parsed<seq<T>> {
    match rest
    case Ok(more, next) => Ok(done + more, next)
    case Err(e) => Err(e)
  }

  lemma MetadataSnoc(entries: seq<Entry>, e: Entry)
    ensures MetadataOf(entries + [e]) == MetadataOf(entries)[StringOf(e.key) := ValueOf(e.value)]
  {
    assert (entries + [e])[..|entries|] == entries;
  }

  lemma ListUnfolds(data: Bytes, pos: nat, version: nat, depth: nat)
    requires depth <= MAX_DEPTH
    ensures DecodeValue(data, pos, version, 9, depth) ==
            match DecodeLe(data, pos, 4)
            case Err(e) => Err(e)
            case Ok(elem, next) =>
              match DecodeLe(data, next, LenWidth(version))
              case Err(e) => Err(e)
              case Ok(len, next) =>
                match DecodeItems(data, next, version, elem, depth + 1, len)
                case Err(e) => Err(e)
                case Ok(items, next) => Ok(List(elem, items), next)
  {
  }

  lemma ItemsUnfold(data: Bytes, pos: nat, version: nat, tag: nat, depth: nat, count: nat)
    requires depth <= MAX_DEPTH + 1 && count > 0
    ensures DecodeItems(data, pos, version, tag, depth, count) ==
            match DecodeValue(data, pos, version, tag, depth)
            case Err(e) => Err(e)
            case Ok(w, next) => After([w], DecodeItems(data, next, version, tag, depth, count - 1))
  {
  }

  lemma NoItems(data: Bytes, pos: nat, version: nat, tag: nat, depth: nat, items: seq<Wire>)
    requires depth <= MAX_DEPTH + 1
    ensures After(items, DecodeItems(data, pos, version, tag, depth, 0)) == Ok(items, pos)
  {
    assert items + [] == items;
  }

  lemma AfterNone<T>(rest: Parsed<seq<T>>)
    ensures After([], rest) == rest
  {
    if rest.Ok? {
      assert [] + rest.value == rest.value;
    }
  }

  lemma AfterSnoc<T>(done: seq<T>, x: T, rest: Parsed<seq<T>>)
    ensures After(done + [x], rest) == After(done, After([x], rest))
  {
    if rest.Ok? {
      assert done + [x] + rest.value == done + ([x] + rest.value);
    }
  }

  lemma {:induction false} ValuesOfSnoc(items: seq<Wire>, w: Wire)
    ensures ValuesOf(items + [w]) == ValuesOf(items) + [ValueOf(w)]
  {
    if items != [] {
      ValuesOfSnoc(items[1..], w);
      assert (items + [w])[1..] == items[1..] + [w];
    }
  }
}
