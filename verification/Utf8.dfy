/** UTF-8, as section 3 of RFC 3629 defines it. */
module Utf8 {
  import opened Wrappers

  type Byte = b: int | 0 <= b < 256

  function EncodeChar(c: char): (r: seq<Byte>)
    ensures 1 <= |r| <= 4
  {
    var n := c as int;
    if n < 0x80 then [n]
    else if n < 0x800 then [0xC0 + n / 0x40, 0x80 + n % 0x40]
    else if n < 0x10000 then [0xE0 + n / 0x1000, 0x80 + n / 0x40 % 0x40, 0x80 + n % 0x40]
    else [0xF0 + n / 0x40000, 0x80 + n / 0x1000 % 0x40, 0x80 + n / 0x40 % 0x40, 0x80 + n % 0x40]
  }

  function Encode(s: string): seq<Byte> {
    if s == "" then [] else EncodeChar(s[0]) + Encode(s[1..])
  }

  /** One byte up to U+007F, two up to U+07FF, three up to U+FFFF and four beyond: a marker that
      tells how many, and the bits of the number, six to each byte after the first. */
  lemma CharSpelled(c: char)
    ensures var b, n := EncodeChar(c), c as int;
            && (forall i :: 1 <= i < |b| ==> 0x80 <= b[i] < 0xC0)
            && (n < 0x80 ==> b == [n])
            && (0x80 <= n < 0x800 ==>
                  |b| == 2 && 0xC0 <= b[0] < 0xE0 && Shifted(b[0], 0xC0, 0x40) + Shifted(b[1], 0x80, 1) == n)
            && (0x800 <= n < 0x10000 ==>
                  && |b| == 3 && 0xE0 <= b[0] < 0xF0
                  && Shifted(b[0], 0xE0, 0x1000) + Shifted(b[1], 0x80, 0x40) + Shifted(b[2], 0x80, 1) == n)
            && (0x10000 <= n ==>
                  && |b| == 4 && 0xF0 <= b[0] < 0xF8
                  && Shifted(b[0], 0xF0, 0x40000) + Shifted(b[1], 0x80, 0x1000) + Shifted(b[2], 0x80, 0x40)
                     + Shifted(b[3], 0x80, 1) == n)
  {
    var n := c as int;
    if n >= 0x10000 { FourPieces(n); } else if n >= 0x800 { ThreePieces(n); }
  }

  lemma ThreePieces(n: nat)
    ensures n / 0x1000 * 0x1000 + n / 0x40 % 0x40 * 0x40 + n % 0x40 == n
  {
    assert n / 0x40 / 0x40 == n / 0x1000;
  }

  lemma FourPieces(n: nat)
    ensures n / 0x40000 * 0x40000 + n / 0x1000 % 0x40 * 0x1000 + n / 0x40 % 0x40 * 0x40 + n % 0x40 == n
  {
    ThreePieces(n);
    assert n / 0x1000 / 0x40 == n / 0x40000;
  }

  /** What a byte is beyond its marker, at its place in the number. */
  function Shifted(b: Byte, marker: int, place: int): int {
    (b as int - marker) * place
  }

  predicate Tail(b: Byte) {
    0x80 <= b < 0xC0
  }

  /** What a byte carries besides its marker. */
  function Bits(b: Byte, marker: int): int {
    var n: int := b;
    n - marker
  }

  /** The number the first character encodes, and how many bytes it takes.  Overlong forms,
      surrogates and stray bytes are refused. */
  function DecodeChar(b: seq<Byte>): (r: Option<(char, nat)>)
    requires b != []
    ensures r.Some? ==> 1 <= r.value.1 <= |b|
  {
    if b[0] < 0x80 then Some((b[0] as char, 1))
    else if 0xC2 <= b[0] < 0xE0 && |b| >= 2 && Tail(b[1]) then
      Some(((Bits(b[0], 0xC0) * 0x40 + Bits(b[1], 0x80)) as char, 2))
    else if 0xE0 <= b[0] < 0xF0 && |b| >= 3 && Tail(b[1]) && Tail(b[2]) then
      var n := Bits(b[0], 0xE0) * 0x1000 + Bits(b[1], 0x80) * 0x40 + Bits(b[2], 0x80);
      if n < 0x800 || 0xD800 <= n < 0xE000 then None else Some((n as char, 3))
    else if 0xF0 <= b[0] < 0xF5 && |b| >= 4 && Tail(b[1]) && Tail(b[2]) && Tail(b[3]) then
      var n := Bits(b[0], 0xF0) * 0x40000 + Bits(b[1], 0x80) * 0x1000 + Bits(b[2], 0x80) * 0x40 + Bits(b[3], 0x80);
      if n < 0x10000 || n >= 0x110000 then None else Some((n as char, 4))
    else None
  }

  function Decode(b: seq<Byte>): Option<string>
    decreases |b|
  {
    if b == [] then Some("")
    else
      var first := DecodeChar(b);
      if first.None? then None
      else
        var rest := Decode(b[first.value.1..]);
        if rest.None? then None else Some([first.value.0] + rest.value)
  }

  lemma DecodesOneChar(c: char, rest: seq<Byte>)
    ensures DecodeChar(EncodeChar(c) + rest) == Some((c, |EncodeChar(c)|))
  {
    var n := c as int;
    if n < 0x80 {
    } else if n < 0x800 {
      assert n == n / 0x40 * 0x40 + n % 0x40;
    } else if n < 0x10000 {
      ThreeDigits(n);
    } else {
      ThreeDigits(n);
      assert n / 0x1000 == n / 0x1000 / 0x40 * 0x40 + n / 0x1000 % 0x40;
      assert n / 0x1000 / 0x40 == n / 0x40000;
    }
  }

  lemma ThreeDigits(n: nat)
    ensures n == n / 0x1000 * 0x1000 + n / 0x40 % 0x40 * 0x40 + n % 0x40
  {
    assert n == n / 0x40 * 0x40 + n % 0x40;
    assert n / 0x40 == n / 0x40 / 0x40 * 0x40 + n / 0x40 % 0x40;
    assert n / 0x40 / 0x40 == n / 0x1000;
  }

  /** Every string comes back from its encoding. */
  lemma {:induction false} RoundTrip(s: string)
    ensures Decode(Encode(s)) == Some(s)
  {
    if s != "" {
      var head := EncodeChar(s[0]);
      DecodesOneChar(s[0], Encode(s[1..]));
      assert Encode(s)[|head|..] == Encode(s[1..]);
      RoundTrip(s[1..]);
      assert [s[0]] + s[1..] == s;
    }
  }
}
