/** Texts as sequences of characters and as bytes: section 3 of RFC 3629. */
module Utf8Text {
  import opened Utf8
  import opened Compression

  function EncodeChar(c: char): Bytes {
    var n := c as int;
    if n < 0x80 then [n]
    else if n < 0x800 then [0xC0 + n / 64, 0x80 + n % 64]
    else if n < 0x1_0000 then [0xE0 + n / 4096, 0x80 + n / 64 % 64, 0x80 + n % 64]
    else [0xF0 + n / 0x4_0000, 0x80 + n / 4096 % 64, 0x80 + n / 64 % 64, 0x80 + n % 64]
  }

  function Encode(text: string): Bytes {
    if text == [] then [] else EncodeChar(text[0]) + Encode(text[1..])
  }

  lemma EncodedChar(c: char)
    ensures var b := EncodeChar(c);
            StartsChar(b) && PrefixLen(b) == |b| == CharLen(c)
  {
  }

  // Six bits more.
  function Shifted(high: int, low: int): int {
    64 * high + (low - 0x80)
  }

  lemma ShiftedBack(high: int, low: int)
    requires 0x80 <= low < 0xC0
    ensures Shifted(high, low) / 64 == high && Shifted(high, low) % 64 == low - 0x80
  {
  }

  lemma Divided(n: nat)
    ensures n / 4096 == n / 64 / 64 && n / 0x4_0000 == n / 64 / 64 / 64
  {
  }

  lemma TwoBytes(s: Bytes) returns (c: char)
    requires StartsChar(s) && PrefixLen(s) == 2
    ensures EncodeChar(c) == s[..2]
  {
    ShiftedBack(s[0] - 0xC0, s[1]);
    c := Shifted(s[0] - 0xC0, s[1]) as char;
  }

  lemma ThreeBytes(s: Bytes) returns (c: char)
    requires StartsChar(s) && PrefixLen(s) == 3
    ensures EncodeChar(c) == s[..3]
  {
    var high := Shifted(s[0] - 0xE0, s[1]);
    ShiftedBack(s[0] - 0xE0, s[1]);
    ShiftedBack(high, s[2]);
    var n := Shifted(high, s[2]);
    assert 0x800 <= n < 0xD800 || 0xE000 <= n < 0x1_0000;
    Divided(n);
    c := n as char;
    hide Shifted, StartsChar, PrefixLen;
  }

  lemma FourBytes(s: Bytes) returns (c: char)
    requires StartsChar(s) && PrefixLen(s) == 4
    ensures EncodeChar(c) == s[..4]
  {
    var top := Shifted(s[0] - 0xF0, s[1]);
    var high := Shifted(top, s[2]);
    ShiftedBack(s[0] - 0xF0, s[1]);
    ShiftedBack(top, s[2]);
    ShiftedBack(high, s[3]);
    var n := Shifted(high, s[3]);
    assert 0x1_0000 <= n < 0x11_0000;
    Divided(n);
    c := n as char;
    hide Shifted, StartsChar, PrefixLen;
  }

  lemma CharAtFront(s: Bytes) returns (c: char)
    requires StartsChar(s)
    ensures EncodeChar(c) == s[..PrefixLen(s)]
  {
    match PrefixLen(s)
    case 1 => c := s[0] as char;
    case 2 => c := TwoBytes(s);
    case 3 => c := ThreeBytes(s);
    case _ => c := FourBytes(s);
  }

  lemma {:induction false} EncodedIsValid(text: string)
    ensures Valid(Encode(text)) && ByteLen(text) == |Encode(text)|
  {
    if text != [] {
      EncodedChar(text[0]);
      EncodedIsValid(text[1..]);
      CharThenRest(EncodeChar(text[0]), Encode(text[1..]));
      hide EncodeChar, StartsChar, PrefixLen, CharLen;
    }
  }

  lemma {:induction false} TextOf(s: Bytes) returns (text: string)
    requires Valid(s)
    ensures Encode(text) == s
  {
    text := [];
    if s != [] {
      var c := CharAtFront(s);
      var rest := TextOf(s[PrefixLen(s)..]);
      text := [c] + rest;
      assert text[1..] == rest;
      hide EncodeChar, StartsChar, PrefixLen;
    }
  }

  // The well-formed bytes are those of texts, and a text's length in bytes is that of its encoding.
  lemma ValidIff(s: Bytes)
    ensures Valid(s) <==> exists text :: Encode(text) == s
    ensures forall text :: Encode(text) == s ==> ByteLen(text) == |s|
  {
    if Valid(s) {
      var text := TextOf(s);
    }
    forall text | Encode(text) == s
      ensures Valid(s) && ByteLen(text) == |s|
    {
      EncodedIsValid(text);
    }
  }
}
