/** How Go holds a text: the bytes of its UTF-8 encoding, section 3 of RFC 3629. */
module Utf8 {
  import opened Sequences

  newtype Byte = x: int | 0 <= x < 0x100

  type Bytes = seq<Byte>

  function EncodeChar(c: char): Bytes {
    var n := c as int;
    if n < 0x80 then [n as Byte]
    else if n < 0x800 then [(0xC0 + n / 0x40) as Byte, Continuation(n)]
    else if n < 0x1_0000 then [(0xE0 + n / 0x1000) as Byte, Continuation(n / 0x40), Continuation(n)]
    else [(0xF0 + n / 0x4_0000) as Byte, Continuation(n / 0x1000), Continuation(n / 0x40), Continuation(n)]
  }

  function Continuation(n: nat): Byte { (0x80 + n % 0x40) as Byte }

  function Encode(s: string): Bytes {
    if s == "" then [] else Encode(s[..|s| - 1]) + EncodeChar(s[|s| - 1])
  }

  // ---------------------------------------------------------------------------------------
  // Decoding
  // ---------------------------------------------------------------------------------------

  /** How many bytes the first byte of a character announces. */
  function Announced(b: Byte): nat {
    if b < 0x80 then 1 else if b < 0xE0 then 2 else if b < 0xF0 then 3 else 4
  }

  function Low(b: Byte, bound: nat): nat requires bound > 0 { b as nat % bound }

  /** The number that the bytes of one character carry: the low bits of the first byte, those below its
      announcement, and the six low bits of each of the others. */
  function Carried(bs: Bytes): nat
    requires 0 < |bs| <= 4
  {
    if |bs| == 1 then bs[0] as nat
    else if |bs| == 2 then Low(bs[0], 0x20) * 0x40 + Low(bs[1], 0x40)
    else if |bs| == 3 then Low(bs[0], 0x10) * 0x1000 + Low(bs[1], 0x40) * 0x40 + Low(bs[2], 0x40)
    else Low(bs[0], 0x8) * 0x4_0000 + Low(bs[1], 0x40) * 0x1000 + Low(bs[2], 0x40) * 0x40 + Low(bs[3], 0x40)
  }

  lemma CharIsCarried(c: char)
    ensures var bs := EncodeChar(c);
      && 0 < |bs| <= 4 && |bs| == Announced(bs[0]) && Carried(bs) == c as nat
      && forall i | 0 < i < |bs| :: 0x80 <= bs[i] < 0xC0
  {
    var n := c as nat;
    if 0x80 <= n < 0x800 {
      LeadIsLow(6, n / 0x40, 0x20);
    } else if 0x800 <= n < 0x1_0000 {
      LeadIsLow(14, n / 0x1000, 0x10);
      SixBits(n / 0x40);
      ShiftTwice(n, 0x40);
    } else if n >= 0x1_0000 {
      LeadIsLow(30, n / 0x4_0000, 0x8);
      SixBits(n / 0x40);
      SixBits(n / 0x1000);
      ShiftTwice(n, 0x40);
      ShiftTwice(n, 0x1000);
    }
    SixBits(n);
  }

  lemma LeadIsLow(k: nat, q: nat, bound: nat)
    requires q < bound && (k, bound) in {(6, 0x20), (14, 0x10), (30, 0x8)}
    ensures (k * bound + q) % bound == q
  {
  }

  lemma SixBits(n: nat)
    ensures Low(Continuation(n), 0x40) == n % 0x40 && n == n / 0x40 * 0x40 + n % 0x40
  {
  }

  lemma ShiftTwice(n: nat, bound: nat)
    requires bound == 0x40 || bound == 0x1000
    ensures n / bound / 0x40 == n / (bound * 0x40)
  {
  }

  /** Reads characters as long as whole ones are there. */
  function Decode(bs: Bytes): seq<nat> {
    if bs == [] || |bs| < Announced(bs[0]) then []
    else [Carried(bs[..Announced(bs[0])])] + Decode(bs[Announced(bs[0])..])
  }

  function CodePoints(s: string): seq<nat> { seq(|s|, i requires 0 <= i < |s| => s[i] as nat) }

  lemma DecodeFirst(c: char, rest: Bytes)
    ensures Decode(EncodeChar(c) + rest) == [c as nat] + Decode(rest)
  {
    var bs := EncodeChar(c);
    CharIsCarried(c);
    assert (bs + rest)[..|bs|] == bs && (bs + rest)[|bs|..] == rest;
  }

  /** Decoding the bytes of a text gives back its characters. */
  lemma {:induction false} DecodeInvertsEncode(s: string, rest: Bytes)
    ensures Decode(Encode(s) + rest) == CodePoints(s) + Decode(rest)
  {
    if s == "" {
      EmptyLeft(rest);
      EmptyLeft(Decode(rest));
    } else {
      var init, c := s[..|s| - 1], s[|s| - 1];
      DecodeInvertsEncode(init, EncodeChar(c) + rest);
      DecodeFirst(c, rest);
      Associate(Encode(init), EncodeChar(c), rest);
      assert CodePoints(s) == CodePoints(init) + [c as nat];
      Associate(CodePoints(init), [c as nat], Decode(rest));
    }
  }
}
