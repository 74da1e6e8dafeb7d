/** UTF-8 as bytes (sections 3 and 4 of RFC 3629), as Rust strings keep it. */
module Utf8 {

  type Byte = x: int | 0 <= x < 256
  type Bytes = seq<Byte>

  predicate IsContinuation(b: Byte) {
    0x80 <= b < 0xC0
  }

  // The number of bytes a leading byte announces; 0 if it cannot lead.
  function LeadLen(b: Byte): nat {
    if b < 0x80 then 1
    else if 0xC2 <= b < 0xE0 then 2
    else if 0xE0 <= b < 0xF0 then 3
    else if 0xF0 <= b < 0xF5 then 4
    else 0
  }

  // Second bytes that rule out overlong forms, surrogates and code points past U+10FFFF.
  predicate SecondFits(lead: Byte, second: Byte) {
    IsContinuation(second) &&
    (lead == 0xE0 ==> second >= 0xA0) && (lead == 0xED ==> second < 0xA0) &&
    (lead == 0xF0 ==> second >= 0x90) && (lead == 0xF4 ==> second < 0x90)
  }

  // How many of the first bytes of `s` could begin a character: at least 1, at most what the lead announces.
  function PrefixLen(s: Bytes): (n: nat)
    requires s != []
    ensures 1 <= n <= |s| && n <= 4
  {
    var want := LeadLen(s[0]);
    if want < 2 || |s| < 2 || !SecondFits(s[0], s[1]) then 1
    else if want < 3 || |s| < 3 || !IsContinuation(s[2]) then 2
    else if want < 4 || |s| < 4 || !IsContinuation(s[3]) then 3
    else 4
  }

  // `s` begins with a character, which then takes PrefixLen(s) bytes.
  predicate StartsChar(s: Bytes) {
    s != [] && PrefixLen(s) == LeadLen(s[0])
  }

  predicate Valid(s: Bytes) {
    s == [] || (StartsChar(s) && Valid(s[PrefixLen(s)..]))
  }

  // U+FFFD
  const REPLACEMENT: Bytes := [0xEF, 0xBF, 0xBD]

  // `String::from_utf8_lossy`: one replacement character for each maximal piece that begins no character.
  function Lossy(s: Bytes): Bytes {
    if s == [] then []
    else (if StartsChar(s) then s[..PrefixLen(s)] else REPLACEMENT) + Lossy(s[PrefixLen(s)..])
  }

  lemma CharThenRest(c: Bytes, rest: Bytes)
    requires StartsChar(c) && PrefixLen(c) == |c|
    ensures StartsChar(c + rest) && PrefixLen(c + rest) == |c| && (c + rest)[|c|..] == rest
  {
  }

  lemma {:induction false} LossyIsValid(s: Bytes)
    ensures Valid(Lossy(s))
  {
    if s != [] {
      var n := PrefixLen(s);
      LossyIsValid(s[n..]);
      if StartsChar(s) {
        assert StartsChar(s[..n]) && PrefixLen(s[..n]) == n;
        CharThenRest(s[..n], Lossy(s[n..]));
      } else {
        assert StartsChar(REPLACEMENT) && PrefixLen(REPLACEMENT) == 3;
        CharThenRest(REPLACEMENT, Lossy(s[n..]));
      }
    }
  }

  // Lossy decoding changes exactly the ill-formed byte strings.
  lemma {:induction false} LossyIdentityIff(s: Bytes)
    ensures Lossy(s) == s <==> Valid(s)
  {
    LossyIsValid(s);
    if Valid(s) {
      LossyOnValid(s);
    }
  }

  lemma {:induction false} LossyOnValid(s: Bytes)
    requires Valid(s)
    ensures Lossy(s) == s
  {
    if s != [] {
      LossyOnValid(s[PrefixLen(s)..]);
    }
  }

  lemma {:induction false} ValidConcat(a: Bytes, b: Bytes)
    requires Valid(a) && Valid(b)
    ensures Valid(a + b)
  {
    if a == [] {
      assert a + b == b;
    } else {
      var n := PrefixLen(a);
      ValidConcat(a[n..], b);
      CharStaysFirst(a, b);
      hide StartsChar, PrefixLen;
      assert (a + b)[n..] == a[n..] + b;
    }
  }

  lemma CharStaysFirst(a: Bytes, b: Bytes)
    requires StartsChar(a)
    ensures StartsChar(a + b) && PrefixLen(a + b) == PrefixLen(a)
  {
  }
}
