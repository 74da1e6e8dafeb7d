/** The decoder and the layout of a GGUF metadata section undo each other. */
module GgufCodec {
  import opened Utf8
  import opened GgufFormat

  // `e` lies in `data` at `pos`.
  ghost predicate LiesAt(data: Bytes, pos: nat, e: Bytes) {
    pos + |e| <= |data| && data[pos..pos + |e|] == e
  }

  lemma LiesAtParts(data: Bytes, pos: nat, a: Bytes, b: Bytes)
    ensures LiesAt(data, pos, a + b) <==> LiesAt(data, pos, a) && LiesAt(data, pos + |a|, b)
  {
    if LiesAt(data, pos, a + b) {
      assert data[pos..pos + |a|] == data[pos..pos + |a + b|][..|a|] == a;
      assert data[pos + |a|..pos + |a + b|] == data[pos..pos + |a + b|][|a|..] == b;
    }
    if LiesAt(data, pos, a) && LiesAt(data, pos + |a|, b) {
      assert data[pos..pos + |a + b|] == data[pos..pos + |a|] + data[pos + |a|..pos + |a| + |b|];
    }
  }

  lemma NumberIff(data: Bytes, pos: nat, width: nat, n: nat)
    ensures LiesAt(data, pos, ToLe(n, width)) && n < Pow256(width) <==> DecodeLe(data, pos, width) == Ok(n, pos + width)
  {
    if n < Pow256(width) {
      FromToLe(n, width);
    }
    if pos + width <= |data| {
      ToFromLe(data[pos..pos + width]);
    }
  }

  lemma StringFits()
    ensures MAX_STRING < Pow256(4) && MAX_STRING < Pow256(8)
  {
    assert Pow256(4) == 0x1_0000_0000;
    assert Pow256(8) == 0x1_0000_0000 * 0x1_0000_0000;
  }

  lemma TextIff(data: Bytes, pos: nat, version: nat, raw: Bytes)
    ensures LiesAt(data, pos, EncodeText(version, raw)) && |raw| <= MAX_STRING <==>
            DecodeText(data, pos, version) == Ok(raw, pos + |EncodeText(version, raw)|)
  {
    StringFits();
    LiesAtParts(data, pos, ToLe(|raw|, LenWidth(version)), raw);
    NumberIff(data, pos, LenWidth(version), |raw|);
    if DecodeText(data, pos, version) == Ok(raw, pos + |EncodeText(version, raw)|) {
      var len := DecodeLe(data, pos, LenWidth(version)).value;
      NumberIff(data, pos, LenWidth(version), len);
    }
  }

  // ----- decoding an encoding -----

  // At any depth, a well-formed value is read back, unless it nests too deep.
  lemma {:induction false} DecodeEncoded(data: Bytes, pos: nat, version: nat, w: Wire, depth: nat)
    requires depth <= MAX_DEPTH && WellFormed(version, w) && LiesAt(data, pos, Encode(version, w))
    ensures DecodeValue(data, pos, version, TagOf(w), depth) ==
            if Shallow(w, depth) then Ok(w, pos + |Encode(version, w)|) else Err(NestingTooDeep)
    decreases w
  {
    match w
    case Fixed(tag, number) =>
      NumberIff(data, pos, FixedWidth(tag), number);
    case Flag(on) =>
      assert data[pos..pos + 1] == Encode(version, w);
      assert FromLe(data[pos..pos + 1]) == data[pos];
    case Text(raw) =>
      TextIff(data, pos, version, raw);
    case List(elem, items) =>
      DecodeEncodedList(data, pos, version, elem, items, depth);
  }

  lemma {:induction false} DecodeEncodedList(data: Bytes, pos: nat, version: nat, elem: nat, items: seq<Wire>, depth: nat)
    requires depth <= MAX_DEPTH && WellFormed(version, List(elem, items)) && LiesAt(data, pos, Encode(version, List(elem, items)))
    ensures DecodeValue(data, pos, version, 9, depth) ==
            if Shallow(List(elem, items), depth) then Ok(List(elem, items), pos + |Encode(version, List(elem, items))|)
            else Err(NestingTooDeep)
    decreases items, 1
  {
    assert items == [] ==> AllShallow(items, depth + 1);
    hide DecodeLe, DecodeItems, AllWellFormed, AllShallow, EncodeItems, ToLe, LiesAt;
    ListParts(data, pos, version, elem, items);
    NumberIff(data, pos, 4, elem);
    NumberIff(data, pos + 4, LenWidth(version), |items|);
    DecodeEncodedItems(data, pos + 4 + LenWidth(version), version, elem, items, depth + 1);
  }

  lemma ListParts(data: Bytes, pos: nat, version: nat, elem: nat, items: seq<Wire>)
    ensures var w := LenWidth(version);
            LiesAt(data, pos, Encode(version, List(elem, items))) <==>
            && LiesAt(data, pos, ToLe(elem, 4)) && LiesAt(data, pos + 4, ToLe(|items|, w))
            && LiesAt(data, pos + 4 + w, EncodeItems(version, items))
  {
    hide LiesAt, EncodeItems;
    var a, b, c := ToLe(elem, 4), ToLe(|items|, LenWidth(version)), EncodeItems(version, items);
    LiesAtParts(data, pos, a + b, c);
    LiesAtParts(data, pos, a, b);
  }

  lemma {:induction false} DecodeEncodedItems(data: Bytes, pos: nat, version: nat, elem: nat, items: seq<Wire>, depth: nat)
    requires depth <= MAX_DEPTH + 1 && AllWellFormed(version, elem, items) && LiesAt(data, pos, EncodeItems(version, items))
    ensures DecodeItems(data, pos, version, elem, depth, |items|) ==
            if items == [] || (depth <= MAX_DEPTH && AllShallow(items, depth)) then Ok(items, pos + |EncodeItems(version, items)|)
            else Err(NestingTooDeep)
    decreases items, 0
  {
    assert depth > MAX_DEPTH ==> DecodeValue(data, pos, version, elem, depth) == Err(NestingTooDeep);
    if items != [] {
      FirstItem(version, elem, depth, items);
      FirstRead(data, pos, version, elem, depth, |items|);
      hide DecodeValue, DecodeItems, Encode, EncodeItems, WellFormed, AllWellFormed, Shallow, AllShallow, LiesAt, TagOf;
      if depth <= MAX_DEPTH {
        var a := Encode(version, items[0]);
        LiesAtParts(data, pos, a, EncodeItems(version, items[1..]));
        DecodeEncoded(data, pos, version, items[0], depth);
        DecodeEncodedItems(data, pos + |a|, version, elem, items[1..], depth);
      }
    }
  }

  lemma FirstItem(version: nat, elem: nat, depth: nat, items: seq<Wire>)
    requires items != []
    ensures EncodeItems(version, items) == Encode(version, items[0]) + EncodeItems(version, items[1..])
    ensures AllWellFormed(version, elem, items) <==>
            TagOf(items[0]) == elem && WellFormed(version, items[0]) && AllWellFormed(version, elem, items[1..])
    ensures AllShallow(items, depth) <==> Shallow(items[0], depth) && AllShallow(items[1..], depth)
    ensures AllShallow([], depth) && [items[0]] + items[1..] == items
  {
    hide Encode, WellFormed, Shallow;
  }

  // Items are read one after the other.
  lemma FirstRead(data: Bytes, pos: nat, version: nat, elem: nat, depth: nat, count: nat)
    requires depth <= MAX_DEPTH + 1 && count > 0
    ensures match DecodeValue(data, pos, version, elem, depth)
            case Err(e) => DecodeItems(data, pos, version, elem, depth, count) == Err(e)
            case Ok(first, next) =>
              match DecodeItems(data, next, version, elem, depth, count - 1)
              case Err(e) => DecodeItems(data, pos, version, elem, depth, count) == Err(e)
              case Ok(rest, end) => DecodeItems(data, pos, version, elem, depth, count) == Ok([first] + rest, end)
  {
    hide DecodeValue;
  }

  // ----- what decodes is an encoding -----

  lemma {:induction false} DecodedIsEncoded(data: Bytes, pos: nat, version: nat, tag: nat, depth: nat)
    requires depth <= MAX_DEPTH + 1 && DecodeValue(data, pos, version, tag, depth).Ok?
    ensures depth <= MAX_DEPTH
    ensures var Ok(w, next) := DecodeValue(data, pos, version, tag, depth);
            && TagOf(w) == tag && WellFormed(version, w) && Shallow(w, depth)
            && LiesAt(data, pos, Encode(version, w)) && next == pos + |Encode(version, w)| && next > pos
    decreases MAX_DEPTH + 1 - depth, 0, 1
  {
    var Ok(w, next) := DecodeValue(data, pos, version, tag, depth);
    match w
    case Fixed(_, number) =>
      NumberIff(data, pos, FixedWidth(tag), number);
    case Flag(on) =>
      assert FromLe(data[pos..pos + 1]) == data[pos];
    case Text(raw) =>
      var Ok(len, after) := DecodeLe(data, pos, LenWidth(version));
      assert raw == data[after..after + len];
      TextIff(data, pos, version, raw);
    case List(elem, items) =>
      DecodedListIsEncoded(data, pos, version, depth);
  }

  lemma {:induction false} DecodedListIsEncoded(data: Bytes, pos: nat, version: nat, depth: nat)
    requires depth <= MAX_DEPTH && DecodeValue(data, pos, version, 9, depth).Ok?
    ensures var Ok(w, next) := DecodeValue(data, pos, version, 9, depth);
            && w.List? && WellFormed(version, w) && Shallow(w, depth)
            && LiesAt(data, pos, Encode(version, w)) && next == pos + |Encode(version, w)| && next > pos
    decreases MAX_DEPTH + 1 - depth, 0, 0
  {
    var Ok(elem, afterElem) := DecodeLe(data, pos, 4);
    var Ok(len, start) := DecodeLe(data, afterElem, LenWidth(version));
    NumberIff(data, pos, 4, elem);
    NumberIff(data, afterElem, LenWidth(version), len);
    var items := DecodeItems(data, start, version, elem, depth + 1, len).value;
    DecodedItemsAreEncoded(data, start, version, elem, depth + 1, len);
    hide DecodeLe, DecodeItems, WellFormed, AllWellFormed, Shallow, AllShallow, EncodeItems, ToLe, LiesAt;
    ListParts(data, pos, version, elem, items);
    ListIsWellFormed(version, elem, items, depth);
  }

  lemma ListIsWellFormed(version: nat, elem: nat, items: seq<Wire>, depth: nat)
    requires elem < Pow256(4) && |items| < Pow256(LenWidth(version)) && AllWellFormed(version, elem, items)
    requires items != [] ==> depth < MAX_DEPTH
    requires AllShallow(items, depth + 1)
    ensures WellFormed(version, List(elem, items)) && Shallow(List(elem, items), depth)
  {
  }

  lemma {:induction false} DecodedItemsAreEncoded(data: Bytes, pos: nat, version: nat, tag: nat, depth: nat, count: nat)
    requires pos <= |data| && depth <= MAX_DEPTH + 1 && DecodeItems(data, pos, version, tag, depth, count).Ok?
    ensures var Ok(items, next) := DecodeItems(data, pos, version, tag, depth, count);
            && |items| == count && AllWellFormed(version, tag, items)
            && (items != [] ==> depth <= MAX_DEPTH) && AllShallow(items, depth)
            && LiesAt(data, pos, EncodeItems(version, items)) && next == pos + |EncodeItems(version, items)|
    decreases MAX_DEPTH + 1 - depth, 1, count
  {
    hide DecodeValue, Encode, WellFormed, Shallow;
    if count > 0 {
      DecodedIsEncoded(data, pos, version, tag, depth);
      var Ok(first, after) := DecodeValue(data, pos, version, tag, depth);
      DecodedItemsAreEncoded(data, after, version, tag, depth, count - 1);
      var rest := DecodeItems(data, after, version, tag, depth, count - 1).value;
      LiesAtParts(data, pos, Encode(version, first), EncodeItems(version, rest));
      assert ([first] + rest)[1..] == rest;
    }
  }

  // At any depth, the decoder accepts exactly the encodings of well-formed values that do not nest too deep.
  lemma ValueIff(data: Bytes, pos: nat, version: nat, w: Wire, depth: nat)
    requires depth <= MAX_DEPTH
    ensures WellFormed(version, w) && Shallow(w, depth) && LiesAt(data, pos, Encode(version, w)) <==>
            DecodeValue(data, pos, version, TagOf(w), depth) == Ok(w, pos + |Encode(version, w)|)
  {
    if WellFormed(version, w) && Shallow(w, depth) && LiesAt(data, pos, Encode(version, w)) {
      DecodeEncoded(data, pos, version, w, depth);
    }
    if DecodeValue(data, pos, version, TagOf(w), depth) == Ok(w, pos + |Encode(version, w)|) {
      DecodedIsEncoded(data, pos, version, TagOf(w), depth);
    }
  }

  // The result depends only on the bytes consumed: found anywhere else, they decode to the same value.
  lemma ValueIsLocal(data: Bytes, pos: nat, version: nat, tag: nat, depth: nat, data': Bytes, pos': nat)
    requires depth <= MAX_DEPTH + 1 && DecodeValue(data, pos, version, tag, depth).Ok?
    requires var next := DecodeValue(data, pos, version, tag, depth).next;
             pos <= next <= |data| && LiesAt(data', pos', data[pos..next])
    ensures var Ok(w, next) := DecodeValue(data, pos, version, tag, depth);
            DecodeValue(data', pos', version, tag, depth) == Ok(w, pos' + (next - pos))
  {
    DecodedIsEncoded(data, pos, version, tag, depth);
    var Ok(w, next) := DecodeValue(data, pos, version, tag, depth);
    assert data[pos..next] == Encode(version, w);
    DecodeEncoded(data', pos', version, w, depth);
  }

  // No strict prefix of an encoding decodes, whatever its nesting and depth.
  lemma NoPrefixDecodes(version: nat, w: Wire, depth: nat, n: nat)
    requires depth <= MAX_DEPTH + 1 && WellFormed(version, w) && n < |Encode(version, w)|
    ensures DecodeValue(Encode(version, w)[..n], 0, version, TagOf(w), depth).Err?
  {
    var e := Encode(version, w);
    if DecodeValue(e[..n], 0, version, TagOf(w), depth).Ok? {
      DecodedIsEncoded(e[..n], 0, version, TagOf(w), depth);
      var Ok(w', next) := DecodeValue(e[..n], 0, version, TagOf(w), depth);
      assert e[..n][..next] == e[..next];
      DecodeEncoded(e, 0, version, w', depth);
      assert e[0..|e|] == e;
      DecodeEncoded(e, 0, version, w, depth);
    }
  }

  // ----- entries and the whole section -----

  lemma EntryParts(data: Bytes, pos: nat, version: nat, e: Entry)
    ensures LiesAt(data, pos, EncodeEntry(version, e)) <==>
            && LiesAt(data, pos, EncodeText(version, e.key))
            && LiesAt(data, pos + |EncodeText(version, e.key)|, ToLe(TagOf(e.value), 4))
            && LiesAt(data, pos + |EncodeText(version, e.key)| + 4, Encode(version, e.value))
  {
    hide LiesAt, EncodeText, Encode;
    LiesAtParts(data, pos, EncodeText(version, e.key) + ToLe(TagOf(e.value), 4), Encode(version, e.value));
    LiesAtParts(data, pos, EncodeText(version, e.key), ToLe(TagOf(e.value), 4));
  }

  lemma {:induction false} DecodeEncodedEntries(data: Bytes, pos: nat, version: nat, entries: seq<Entry>)
    requires WellFormedEntries(version, entries) && LiesAt(data, pos, EncodeEntries(version, entries))
    ensures DecodeEntries(data, pos, version, |entries|) ==
            if ShallowEntries(entries) then Ok(entries, pos + |EncodeEntries(version, entries)|) else Err(NestingTooDeep)
    decreases entries
  {
    hide DecodeEntry, EncodeEntry, WellFormed, Shallow, LiesAt;
    if entries == [] {
      assert LiesAt(data, pos, EncodeEntries(version, entries));
    } else {
      var e := entries[0];
      LiesAtParts(data, pos, EncodeEntry(version, e), EncodeEntries(version, entries[1..]));
      DecodeEncodedEntry(data, pos, version, e);
      DecodeEncodedEntries(data, pos + |EncodeEntry(version, e)|, version, entries[1..]);
      assert [e] + entries[1..] == entries;
    }
  }

  lemma DecodeEncodedEntry(data: Bytes, pos: nat, version: nat, e: Entry)
    requires |e.key| <= MAX_STRING && WellFormed(version, e.value) && LiesAt(data, pos, EncodeEntry(version, e))
    ensures DecodeEntry(data, pos, version) ==
            if Shallow(e.value, 0) then Ok(e, pos + |EncodeEntry(version, e)|) else Err(NestingTooDeep)
  {
    hide DecodeText, DecodeLe, DecodeValue, EncodeText, Encode, LiesAt, WellFormed, Shallow;
    EntryParts(data, pos, version, e);
    TextIff(data, pos, version, e.key);
    TagFits(version, e.value);
    NumberIff(data, pos + |EncodeText(version, e.key)|, 4, TagOf(e.value));
    DecodeEncoded(data, pos + |EncodeText(version, e.key)| + 4, version, e.value, 0);
  }

  lemma TagFits(version: nat, w: Wire)
    requires WellFormed(version, w)
    ensures TagOf(w) < Pow256(4)
  {
    assert Pow256(4) == 0x1_0000_0000;
  }

  lemma {:induction false} DecodedEntriesAreEncoded(data: Bytes, pos: nat, version: nat, count: nat)
    requires pos <= |data| && DecodeEntries(data, pos, version, count).Ok?
    ensures var Ok(entries, next) := DecodeEntries(data, pos, version, count);
            && |entries| == count && WellFormedEntries(version, entries) && ShallowEntries(entries)
            && LiesAt(data, pos, EncodeEntries(version, entries)) && next == pos + |EncodeEntries(version, entries)|
    decreases count
  {
    if count > 0 {
      var Ok(e, after) := DecodeEntry(data, pos, version);
      DecodedEntryIsEncoded(data, pos, version);
      hide LiesAt, EncodeEntry, DecodeEntry, WellFormed, Shallow;
      DecodedEntriesAreEncoded(data, after, version, count - 1);
      var rest := DecodeEntries(data, after, version, count - 1).value;
      LiesAtParts(data, pos, EncodeEntry(version, e), EncodeEntries(version, rest));
      EntriesCons(version, e, rest);
      hide EncodeEntries, WellFormedEntries, ShallowEntries;
    }
  }

  lemma EntriesCons(version: nat, e: Entry, rest: seq<Entry>)
    ensures EncodeEntries(version, [e] + rest) == EncodeEntry(version, e) + EncodeEntries(version, rest)
    ensures WellFormedEntries(version, [e] + rest) <==>
            |e.key| <= MAX_STRING && WellFormed(version, e.value) && WellFormedEntries(version, rest)
    ensures ShallowEntries([e] + rest) <==> Shallow(e.value, 0) && ShallowEntries(rest)
  {
    assert ([e] + rest)[1..] == rest;
  }

  lemma DecodedEntryIsEncoded(data: Bytes, pos: nat, version: nat)
    requires DecodeEntry(data, pos, version).Ok?
    ensures var Ok(e, next) := DecodeEntry(data, pos, version);
            && |e.key| <= MAX_STRING && WellFormed(version, e.value) && Shallow(e.value, 0)
            && LiesAt(data, pos, EncodeEntry(version, e)) && next == pos + |EncodeEntry(version, e)|
  {
    var Ok(key, afterKey) := DecodeText(data, pos, version);
    TextIff(data, pos, version, key);
    var Ok(tag, afterTag) := DecodeLe(data, afterKey, 4);
    NumberIff(data, afterKey, 4, tag);
    DecodedIsEncoded(data, afterTag, version, tag, 0);
    EntryParts(data, pos, version, DecodeEntry(data, pos, version).value);
  }

  lemma FileParts(data: Bytes, pos: nat, f: File)
    ensures var w := LenWidth(f.version);
            LiesAt(data, pos, EncodeFile(f)) <==>
            && LiesAt(data, pos, ToLe(f.magic, 4)) && LiesAt(data, pos + 4, ToLe(f.version, 4))
            && LiesAt(data, pos + 8, ToLe(f.tensorCount, w)) && LiesAt(data, pos + 8 + w, ToLe(|f.entries|, w))
            && LiesAt(data, pos + 8 + 2 * w, EncodeEntries(f.version, f.entries))
  {
    var w := LenWidth(f.version);
    var a, b, c, d, e := ToLe(f.magic, 4), ToLe(f.version, 4), ToLe(f.tensorCount, w), ToLe(|f.entries|, w), EncodeEntries(f.version, f.entries);
    LiesAtParts(data, pos, a + b + c + d, e);
    LiesAtParts(data, pos, a + b + c, d);
    LiesAtParts(data, pos, a + b, c);
    LiesAtParts(data, pos, a, b);
  }

  // Round trip: a section written anywhere in a file, whatever follows it, is read back entry by entry and
  // consumed to its last byte; it is refused, for its nesting, exactly when a non-empty array sits at depth 64.
  lemma RoundTrip(data: Bytes, pos: nat, f: File)
    requires WellFormedFile(f) && LiesAt(data, pos, EncodeFile(f))
    ensures DecodeFile(data, pos) ==
            if ShallowEntries(f.entries) then Ok(f, pos + |EncodeFile(f)|) else Err(NestingTooDeep)
  {
    var w := LenWidth(f.version);
    FileParts(data, pos, f);
    NumberIff(data, pos, 4, f.magic);
    NumberIff(data, pos + 4, 4, f.version);
    NumberIff(data, pos + 8, w, f.tensorCount);
    NumberIff(data, pos + 8 + w, w, |f.entries|);
    DecodeEncodedEntries(data, pos + 8 + 2 * w, f.version, f.entries);
    assert Pow256(4) == 0x1_0000_0000;
  }

  // From the bytes written to the map handed out: a section that does not nest too deep is consumed to its last byte,
  // and the map is that of the entries as written, later duplicates winning, if and only if all keys are clean and so
  // are the values that win.
  lemma MetadataRoundTripIff(data: Bytes, pos: nat, f: File)
    requires WellFormedFile(f) && ShallowEntries(f.entries) && LiesAt(data, pos, EncodeFile(f))
    ensures DecodeFile(data, pos) == Ok(f, pos + |EncodeFile(f)|)
    ensures MetadataOf(f.entries) == WrittenMap(f.entries) <==> KeysClean(f.entries) && WinnersClean(f.entries)
  {
    RoundTrip(data, pos, f);
    MetadataIsWrittenIff(f.entries);
  }

  // Conversely, whatever is accepted is the encoding of a well-formed section.
  lemma AcceptedIsEncoded(data: Bytes, pos: nat)
    requires DecodeFile(data, pos).Ok?
    ensures var Ok(f, next) := DecodeFile(data, pos);
            && WellFormedFile(f) && ShallowEntries(f.entries)
            && LiesAt(data, pos, EncodeFile(f)) && next == pos + |EncodeFile(f)|
  {
    var Ok(f, next) := DecodeFile(data, pos);
    var w := LenWidth(f.version);
    NumberIff(data, pos, 4, f.magic);
    NumberIff(data, pos + 4, 4, f.version);
    NumberIff(data, pos + 8, w, f.tensorCount);
    var Ok(count, start) := DecodeLe(data, pos + 8 + w, w);
    NumberIff(data, pos + 8 + w, w, count);
    DecodedEntriesAreEncoded(data, start, f.version, count);
    FileParts(data, pos, f);
  }
}
