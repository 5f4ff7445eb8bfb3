/** UTF-8 (section 3 of RFC 3629): the encoding behind the byte counts of a field. */
module Utf8 {
  import opened Basics
  import ErrorFields

  /** One to four bytes: the lead byte says how many, and each further byte carries six bits. */
  function EncodeChar(c: char): seq<nat> {
    var n := c as int;
    if n < 0x80 then [n]
    else if n < 0x800 then [0xC0 + n / 0x40, 0x80 + n % 0x40]
    else if n < 0x10000 then [0xE0 + n / 0x1000, 0x80 + n / 0x40 % 0x40, 0x80 + n % 0x40]
    else [0xF0 + n / 0x40000, 0x80 + n / 0x1000 % 0x40, 0x80 + n / 0x40 % 0x40, 0x80 + n % 0x40]
  }

  function Encode(s: string): seq<nat> {
    if s == "" then [] else EncodeChar(s[0]) + Encode(s[1..])
  }

  /** The length of the sequence a lead byte opens. */
  function Length(lead: nat): nat {
    if lead < 0x80 then 1 else if lead < 0xE0 then 2 else if lead < 0xF0 then 3 else 4
  }

  /** The number a sequence of bytes stands for. */
  function Number(bytes: seq<nat>): nat
    requires 1 <= |bytes| <= 4
  {
    match |bytes|
    case 1 => bytes[0]
    case 2 => bytes[0] % 0x20 * 0x40 + bytes[1] % 0x40
    case 3 => (bytes[0] % 0x10 * 0x40 + bytes[1] % 0x40) * 0x40 + bytes[2] % 0x40
    case _ => ((bytes[0] % 0x08 * 0x40 + bytes[1] % 0x40) * 0x40 + bytes[2] % 0x40) * 0x40 + bytes[3] % 0x40
  }

  lemma SixBits(n: nat, high: nat)
    ensures n / 0x40 * 0x40 + n % 0x40 == n
    ensures (0x80 + n % 0x40) % 0x40 == n % 0x40 && 0x80 + n % 0x40 < 0xC0
    ensures n / 0x40 / 0x40 == n / 0x1000 && n / 0x1000 / 0x40 == n / 0x40000
    ensures high < 0x20 ==> (0xC0 + high) % 0x20 == high
    ensures high < 0x10 ==> (0xE0 + high) % 0x10 == high
    ensures high < 0x08 ==> (0xF0 + high) % 0x08 == high
  {}

  /** The bytes are bytes, announce their number, and stand for `n`. */
  predicate Decodes(bytes: seq<nat>, n: nat) {
    && 1 <= |bytes| <= 4 && (forall i | 0 <= i < |bytes| :: bytes[i] < 0x100)
    && |bytes| == Length(bytes[0]) && Number(bytes) == n
  }

  lemma TwoBytesDecode(n: nat)
    requires n < 0x800
    ensures Decodes([0xC0 + n / 0x40, 0x80 + n % 0x40], n)
  {
    SixBits(n, n / 0x40);
  }

  lemma ThreeBytesDecode(n: nat)
    requires n < 0x10000
    ensures Decodes([0xE0 + n / 0x1000, 0x80 + n / 0x40 % 0x40, 0x80 + n % 0x40], n)
  {
    SixBits(n, n / 0x1000);
    SixBits(n / 0x40, 0);
  }

  lemma FourBytesDecode(n: nat)
    requires n < 0x110000
    ensures Decodes([0xF0 + n / 0x40000, 0x80 + n / 0x1000 % 0x40, 0x80 + n / 0x40 % 0x40, 0x80 + n % 0x40], n)
  {
    SixBits(n, n / 0x40000);
    SixBits(n / 0x40, 0);
    SixBits(n / 0x1000, 0);
  }

  /** Every character is given back by its bytes, and no shorter sequence would do. */
  lemma CharactersDecode(c: char)
    ensures Decodes(EncodeChar(c), c as int)
    ensures |EncodeChar(c)| > 1 ==> c as int >= 0x80
    ensures |EncodeChar(c)| > 2 ==> c as int >= 0x800
    ensures |EncodeChar(c)| > 3 ==> c as int >= 0x10000
  {
    var n := c as int;
    assert n < 0x110000;
    if n < 0x80 {
      assert Decodes([n], n);
    } else if n < 0x800 {
      TwoBytesDecode(n);
    } else if n < 0x10000 {
      ThreeBytesDecode(n);
    } else {
      FourBytesDecode(n);
    }
    hide Decodes;
  }

  /** What counts as the bytes of a text is the length of its encoding. */
  lemma {:induction false} BytesCountTheEncoding(s: string)
    ensures ErrorFields.Bytes(s) == |Encode(s)|
  {
    if s != "" {
      BytesCountTheEncoding(s[1..]);
      assert s == [s[0]] + s[1..];
      ErrorFields.BytesOfConcat([s[0]], s[1..]);
      assert [s[0]][..0] == "";
    }
  }
}
