/** Opaque pagination cursors: a sort key and a row id, as UTF-8 in unpadded base64url. */
module Cursors {
  import opened Wrappers
  import opened Text
  import opened Utf8

  const SEPARATOR: char := '\U{1F}'

  datatype CursorError = InvalidCursor

  // ---- base64url, section 5 of RFC 4648 ---------------------------------------------

  function Letter(v: int): char
    requires 0 <= v < 64
  {
    if v < 26 then ('A' as int + v) as char
    else if v < 52 then ('a' as int + (v - 26)) as char
    else if v < 62 then ('0' as int + (v - 52)) as char
    else if v == 62 then '-'
    else '_'
  }

  /** The value of a character.  The decoder also takes the standard alphabet's own `+` and
      `/`, because urlsafe decoding translates into that alphabet first. */
  function Sextet(c: char): (v: Option<int>)
    ensures v.Some? ==> 0 <= v.value < 64
  {
    if 'A' <= c <= 'Z' then Some(c as int - 'A' as int)
    else if 'a' <= c <= 'z' then Some(c as int - 'a' as int + 26)
    else if '0' <= c <= '9' then Some(c as int - '0' as int + 52)
    else if c == '-' || c == '+' then Some(62)
    else if c == '_' || c == '/' then Some(63)
    else None
  }

  function Base64(b: seq<Byte>): string {
    if b == [] then ""
    else if |b| == 1 then [Letter(b[0] / 4), Letter(b[0] % 4 * 16), '=', '=']
    else if |b| == 2 then [Letter(b[0] / 4), Letter(b[0] % 4 * 16 + b[1] / 16), Letter(b[1] % 16 * 4), '=']
    else Quad(b[0], b[1], b[2]) + Base64(b[3..])
  }

  function Quad(x: Byte, y: Byte, z: Byte): string {
    [Letter(x / 4), Letter(x % 4 * 16 + y / 16), Letter(y % 16 * 4 + z / 64), Letter(z % 64)]
  }

  /** How far into a group of four the decoder is, the bits it holds over, and the padding
      seen since the last character of the alphabet. */
  datatype Scan = Scan(quad: int, held: int, pads: int) {
    ghost predicate Valid() {
      (quad == 0 && held == 0) || (quad == 1 && 0 <= held < 64) || (quad == 2 && 0 <= held < 16)
        || (quad == 3 && 0 <= held < 4)
    }
  }

  const START := Scan(0, 0, 0)

  /** The lenient decoder of binascii: characters outside the alphabet are skipped, enough
      padding ends the input, and what is left over in a group is an error. */
  function Unbase64(s: string, st: Scan): Option<seq<Byte>>
    requires st.Valid()
  {
    if s == "" then if st.quad == 0 then Some([]) else None
    else if s[0] == '=' then
      if st.quad >= 2 && st.quad + st.pads + 1 >= 4 then Some([])
      else Unbase64(s[1..], if st.quad >= 2 then st.(pads := st.pads + 1) else st)
    else if Sextet(s[0]).None? then Unbase64(s[1..], st)
    else
      var v := Sextet(s[0]).value;
      match st.quad
      case 0 => Unbase64(s[1..], Scan(1, v, 0))
      case 1 => Emit(st.held * 4 + v / 16, Unbase64(s[1..], Scan(2, v % 16, 0)))
      case 2 => Emit(st.held * 16 + v / 4, Unbase64(s[1..], Scan(3, v % 4, 0)))
      case _ => Emit(st.held * 64 + v, Unbase64(s[1..], START))
  }

  function Emit(b: Byte, rest: Option<seq<Byte>>): Option<seq<Byte>> {
    if rest.Some? then Some([b] + rest.value) else None
  }

  lemma SextetOfLetter(v: int)
    requires 0 <= v < 64
    ensures Sextet(Letter(v)) == Some(v) && Letter(v) != '='
  {
  }

  lemma UnbaseLetter(v: int, rest: string, st: Scan)
    requires 0 <= v < 64 && st.Valid()
    ensures st.quad == 0 ==> Unbase64([Letter(v)] + rest, st) == Unbase64(rest, Scan(1, v, 0))
    ensures st.quad == 1 ==>
              Unbase64([Letter(v)] + rest, st) == Emit(st.held * 4 + v / 16, Unbase64(rest, Scan(2, v % 16, 0)))
    ensures st.quad == 2 ==>
              Unbase64([Letter(v)] + rest, st) == Emit(st.held * 16 + v / 4, Unbase64(rest, Scan(3, v % 4, 0)))
    ensures st.quad == 3 ==> Unbase64([Letter(v)] + rest, st) == Emit(st.held * 64 + v, Unbase64(rest, START))
  {
    SextetOfLetter(v);
    assert ([Letter(v)] + rest)[1..] == rest;
  }

  /** The four sextets of three bytes, and the bytes back from them. */
  lemma QuadBytes(x: Byte, y: Byte, z: Byte)
    ensures var b, c := x % 4 * 16 + y / 16, y % 16 * 4 + z / 64;
            0 <= x / 4 < 64 && 0 <= b < 64 && 0 <= c < 64 && 0 <= z % 64 < 64
            && x / 4 * 4 + b / 16 == x && b % 16 == y / 16
            && b % 16 * 16 + c / 4 == y && c % 4 == z / 64
            && c % 4 * 64 + z % 64 == z
  {
  }

  lemma UnbaseQuad(x: Byte, y: Byte, z: Byte, rest: string)
    ensures Unbase64(Quad(x, y, z) + rest, START) == Emit(x, Emit(y, Emit(z, Unbase64(rest, START))))
  {
    QuadBytes(x, y, z);
    var a, b, c, d := x / 4, x % 4 * 16 + y / 16, y % 16 * 4 + z / 64, z % 64;
    UnbaseLetters(a, b, c, d, rest);
    assert Quad(x, y, z) + rest == [Letter(a)] + ([Letter(b)] + ([Letter(c)] + ([Letter(d)] + rest)));
  }

  lemma UnbaseLetters(a: int, b: int, c: int, d: int, rest: string)
    requires 0 <= a < 64 && 0 <= b < 64 && 0 <= c < 64 && 0 <= d < 64
    ensures Unbase64([Letter(a)] + ([Letter(b)] + ([Letter(c)] + ([Letter(d)] + rest))), START)
         == Emit(a * 4 + b / 16, Emit(b % 16 * 16 + c / 4, Emit(c % 4 * 64 + d, Unbase64(rest, START))))
  {
    var r3 := [Letter(d)] + rest;
    var r2 := [Letter(c)] + r3;
    UnbaseLetter(a, [Letter(b)] + r2, START);
    UnbaseLetter(b, r2, Scan(1, a, 0));
    UnbaseLetter(c, r3, Scan(2, b % 16, 0));
    UnbaseLetter(d, rest, Scan(3, c % 4, 0));
  }

  lemma UnbaseOne(x: Byte)
    ensures Unbase64(Base64([x]), START) == Some([x])
  {
    var b := x % 4 * 16;
    QuadBytes(x, 0, 0);
    UnbaseLetter(x / 4, [Letter(b), '=', '='], START);
    UnbaseLetter(b, ['=', '='], Scan(1, x / 4, 0));
    assert Base64([x]) == [Letter(x / 4)] + [Letter(b), '=', '='];
    assert [Letter(b), '=', '='] == [Letter(b)] + ['=', '='];
    assert ['=', '='][1..] == ['='];
    assert Unbase64(['='], Scan(2, 0, 1)) == Some([]);
    assert b % 16 == 0 && Unbase64(['=', '='], Scan(2, 0, 0)) == Some([]);
    assert [x] + [] == [x];
  }

  lemma UnbaseTwo(x: Byte, y: Byte)
    ensures Unbase64(Base64([x, y]), START) == Emit(x, Emit(y, Some([])))
  {
    var b, c := x % 4 * 16 + y / 16, y % 16 * 4;
    QuadBytes(x, y, 0);
    UnbaseLetter(x / 4, [Letter(b), Letter(c), '='], START);
    UnbaseLetter(b, [Letter(c), '='], Scan(1, x / 4, 0));
    UnbaseLetter(c, ['='], Scan(2, b % 16, 0));
    assert Base64([x, y]) == [Letter(x / 4)] + [Letter(b), Letter(c), '='];
    assert [Letter(b), Letter(c), '='] == [Letter(b)] + [Letter(c), '='];
    assert [Letter(c), '='] == [Letter(c)] + ['='];
  }

  lemma {:induction false} Base64RoundTrip(b: seq<Byte>)
    ensures Unbase64(Base64(b), START) == Some(b)
    decreases |b|
  {
    if |b| == 1 {
      QuadBytes(b[0], 0, 0);
      UnbaseOne(b[0]);
      assert [b[0]] == b;
    } else if |b| == 2 {
      QuadBytes(b[0], b[1], 0);
      UnbaseTwo(b[0], b[1]);
      assert [b[0], b[1]] == b && [b[0]] + ([b[1]] + []) == b;
    } else if |b| > 2 {
      UnbaseQuad(b[0], b[1], b[2], Base64(b[3..]));
      Base64RoundTrip(b[3..]);
      assert [b[0]] + ([b[1]] + ([b[2]] + b[3..])) == b;
    }
  }

  const CAPITALS := "ABCDEFGHIJKLMNOPQRSTUVWXYZ"
  const SMALL := "abcdefghijklmnopqrstuvwxyz"
  const DIGITS := "0123456789"

  /** The alphabet in order: capitals, small letters, digits, hyphen and underscore. */
  lemma LetterIsListed(v: int)
    requires 0 <= v < 64
    ensures |CAPITALS| == |SMALL| == 26 && |DIGITS| == 10
    ensures Letter(v) == (CAPITALS + SMALL + DIGITS + "-_")[v]
  {
    if v < 26 {
      assert CAPITALS[v] == ('A' as int + v) as char;
    } else if v < 52 {
      assert SMALL[v - 26] == ('a' as int + v - 26) as char;
    } else if v < 62 {
      assert DIGITS[v - 52] == ('0' as int + v - 52) as char;
    }
  }

  function ByteAt(b: seq<Byte>, i: nat): int {
    if i < |b| then b[i] else 0
  }

  /** Three bytes as one number of 24 bits, and the six bits of it that the `k`th of four characters
      stands for. */
  function Group(b: seq<Byte>, i: nat): int {
    ByteAt(b, 3 * i) * 65536 + ByteAt(b, 3 * i + 1) * 256 + ByteAt(b, 3 * i + 2)
  }

  function SixBits(n: int, k: nat): (v: int)
    requires k < 4
    ensures 0 <= v < 64
    decreases 4 - k
  {
    if k == 3 then n % 64 else SixBits(n / 64, k + 1)
  }

  lemma SixBitsOfBytes(x: Byte, y: Byte, z: Byte)
    ensures var n := x * 65536 + y * 256 + z;
            && SixBits(n, 0) == x / 4 && SixBits(n, 1) == x % 4 * 16 + y / 16
            && SixBits(n, 2) == y % 16 * 4 + z / 64 && SixBits(n, 3) == z % 64
  {
    var n := x * 65536 + y * 256 + z;
    var third := x * 1024 + y * 4 + z / 64;
    var second := x * 16 + y / 16;
    assert n == 64 * third + z % 64 && n / 64 == third;
    assert third == 64 * second + (y % 16 * 4 + z / 64) && third / 64 == second;
    assert second == 64 * (x / 4) + (x % 4 * 16 + y / 16) && second / 64 == x / 4;
    assert SixBits(n, 2) == SixBits(third, 3) && SixBits(n, 1) == SixBits(third, 2) == SixBits(second, 3);
    assert SixBits(n, 0) == SixBits(third, 1) == SixBits(second, 2) == SixBits(x / 4, 3);
  }

  /** What each character of the encoding is: the letter for its six bits, three bytes taken as one
      number and missing ones as nought, or padding where no bit of any byte falls. */
  lemma {:induction false} Base64Spelled(b: seq<Byte>, i: nat)
    requires i < |Base64(b)|
    ensures Base64(b)[i] == if 3 * i < 4 * |b| then Letter(SixBits(Group(b, i / 4), i % 4)) else '='
    decreases |b|
  {
    if |b| > 3 && i >= 4 {
      Base64Spelled(b[3..], i - 4);
      GroupLater(b, i);
    } else {
      FirstGroupSpelled(b, i);
    }
  }

  lemma GroupLater(b: seq<Byte>, i: nat)
    requires |b| > 3 && i >= 4
    ensures (i - 4) / 4 == i / 4 - 1 && (i - 4) % 4 == i % 4
    ensures Group(b[3..], i / 4 - 1) == Group(b, i / 4)
  {
    var j := i / 4 - 1;
    assert forall k: nat {:trigger ByteAt(b[3..], k)} :: ByteAt(b[3..], k) == ByteAt(b, k + 3);
    assert 3 * (j + 1) == 3 * j + 3;
  }

  lemma FirstGroupSpelled(b: seq<Byte>, i: nat)
    requires i < |Base64(b)| && (i < 4 || |b| <= 3)
    ensures Base64(b)[i] == if 3 * i < 4 * |b| then Letter(SixBits(Group(b, i / 4), i % 4)) else '='
  {
    FirstFour(b, i);
    FirstGroup(b, i);
    FourCharacters(ByteAt(b, 0), ByteAt(b, 1), ByteAt(b, 2), i);
  }

  lemma FirstGroup(b: seq<Byte>, i: nat)
    requires i < 4
    ensures i / 4 == 0 && i % 4 == i
    ensures Group(b, i / 4) == ByteAt(b, 0) * 65536 + ByteAt(b, 1) * 256 + ByteAt(b, 2)
  {
  }

  lemma FirstFour(b: seq<Byte>, i: nat)
    requires i < |Base64(b)| && (i < 4 || |b| <= 3)
    ensures i < 4
    ensures Base64(b)[i] == if 3 * i < 4 * |b| then Quad(ByteAt(b, 0), ByteAt(b, 1), ByteAt(b, 2))[i] else '='
  {
    if |b| == 1 {
      OneByte(b);
    } else if |b| == 2 {
      TwoBytes(b);
    } else {
      ThreeBytes(b);
    }
  }

  lemma OneByte(b: seq<Byte>)
    requires |b| == 1
    ensures Base64(b) == [Quad(b[0], 0, 0)[0], Quad(b[0], 0, 0)[1], '=', '=']
  {
  }

  lemma TwoBytes(b: seq<Byte>)
    requires |b| == 2
    ensures Base64(b) == [Quad(b[0], b[1], 0)[0], Quad(b[0], b[1], 0)[1], Quad(b[0], b[1], 0)[2], '=']
  {
  }

  lemma ThreeBytes(b: seq<Byte>)
    requires |b| >= 3
    ensures Base64(b) == Quad(b[0], b[1], b[2]) + Base64(b[3..])
    ensures |b| == 3 ==> Base64(b[3..]) == ""
  {
  }

  lemma FourCharacters(x: Byte, y: Byte, z: Byte, k: nat)
    requires k < 4
    ensures Letter(SixBits(x * 65536 + y * 256 + z, k)) == Quad(x, y, z)[k]
  {
    SixBitsOfBytes(x, y, z);
  }

  lemma {:induction false} Base64Length(b: seq<Byte>)
    ensures |Base64(b)| == (|b| + 2) / 3 * 4
    decreases |b|
  {
    if |b| > 2 {
      Base64Length(b[3..]);
      assert |Base64(b)| == 4 + |Base64(b[3..])|;
      assert (|b| + 2) / 3 == 1 + (|b[3..]| + 2) / 3;
    }
  }

  // ---- the padding, dropped when encoding and put back when decoding ----------------

  predicate IsPad(c: char) {
    c == '='
  }

  function Pads(n: nat): string {
    seq(n, i => '=')
  }

  lemma {:induction false} Base64Shape(b: seq<Byte>)
    ensures |Base64(b)| % 4 == 0
    ensures b != [] ==> |Base64(b)| >= 4 && Base64(b)[|Base64(b)| - 3] != '='
    decreases |b|
  {
    if |b| > 2 {
      Base64Shape(b[3..]);
      QuadAhead(b[0], b[1], b[2], Base64(b[3..]));
    } else if |b| > 0 {
      SextetOfLetter(b[0] % 4 * 16);
      if |b| == 2 { SextetOfLetter(b[0] % 4 * 16 + b[1] / 16); }
    }
  }

  lemma QuadAhead(x: Byte, y: Byte, z: Byte, rest: string)
    requires |rest| % 4 == 0 && (rest != "" ==> |rest| >= 4 && rest[|rest| - 3] != '=')
    ensures var all := Quad(x, y, z) + rest; |all| % 4 == 0 && |all| >= 4 && all[|all| - 3] != '='
  {
    SextetOfLetter(x % 4 * 16 + y / 16);
    if rest != "" { assert (Quad(x, y, z) + rest)[|rest| + 1] == rest[|rest| - 3]; }
  }

  lemma PaddingRestored(b: seq<Byte>)
    ensures var raw := TrimRight(Base64(b), IsPad);
            raw + Pads(-|raw| % 4) == Base64(b)
  {
    var e := Base64(b);
    Base64Shape(b);
    if e == "" {
      assert Pads(0) == "";
    } else {
      RepadTo(e);
    }
  }

  lemma RepadTo(e: string)
    requires |e| % 4 == 0 && |e| >= 4 && e[|e| - 3] != '='
    ensures var raw := TrimRight(e, IsPad);
            raw + Pads(-|raw| % 4) == e
  {
    var raw := TrimRight(e, IsPad);
    var k := |e| - |raw|;
    if k > 2 { assert false; }
    assert -|raw| % 4 == k;
    assert forall i :: 0 <= i < k ==> e[|raw| + i] == Pads(k)[i];
    assert e == raw + e[|raw|..];
  }

  // ---- cursors ----------------------------------------------------------------------

  function EncodeCursor(sortKey: string, rowId: string): string {
    TrimRight(Base64(Utf8.Encode(sortKey + [SEPARATOR] + rowId)), IsPad)
  }

  predicate NotSeparator(c: char) {
    c != SEPARATOR
  }

  /** str.partition at the first separator. */
  function Partition(s: string): Result<(string, string), CursorError> {
    var n := Span(s, NotSeparator);
    if n == |s| then Failure(InvalidCursor) else Success((s[..n], s[n + 1..]))
  }

  function DecodeCursor(raw: string): Result<(string, string), CursorError> {
    var bytes := Unbase64(raw + Pads(-|raw| % 4), START);
    if bytes.None? then Failure(InvalidCursor) else Unpacked(bytes.value)
  }

  function Unpacked(bytes: seq<Byte>): Result<(string, string), CursorError> {
    var text := Utf8.Decode(bytes);
    if text.None? then Failure(InvalidCursor) else Partition(text.value)
  }

  /** A cursor is the encoding of the two texts with U+001F between them, less its padding. */
  lemma CursorSpelled(sortKey: string, rowId: string, bytes: seq<Byte>)
    requires bytes == Utf8.Encode(sortKey + "\U{1F}" + rowId)
    ensures var cursor := EncodeCursor(sortKey, rowId);
            cursor + Pads(-|cursor| % 4) == Base64(bytes) && (cursor != "" ==> cursor[|cursor| - 1] != '=')
  {
    Packed(sortKey, rowId, bytes);
    Unpadded(bytes);
  }

  lemma Packed(sortKey: string, rowId: string, bytes: seq<Byte>)
    requires bytes == Utf8.Encode(sortKey + "\U{1F}" + rowId)
    ensures EncodeCursor(sortKey, rowId) == TrimRight(Base64(bytes), IsPad)
  {
    assert sortKey + [SEPARATOR] + rowId == sortKey + "\U{1F}" + rowId;
  }

  lemma Unpadded(b: seq<Byte>)
    ensures var cursor := TrimRight(Base64(b), IsPad);
            cursor + Pads(-|cursor| % 4) == Base64(b) && (cursor != "" ==> cursor[|cursor| - 1] != '=')
  {
    PaddingRestored(b);
  }

  /** A cursor gives back the pair it was made from, exactly when the sort key holds no
      separator; the row id may hold anything. */
  lemma CursorRoundTrip(sortKey: string, rowId: string)
    ensures DecodeCursor(EncodeCursor(sortKey, rowId)) == Success((sortKey, rowId)) <==> SEPARATOR !in sortKey
  {
    var packed := sortKey + [SEPARATOR] + rowId;
    BytesRoundTrip(Utf8.Encode(packed));
    Utf8.RoundTrip(packed);
    PartitionOfPacked(sortKey, rowId);
  }

  lemma BytesRoundTrip(bytes: seq<Byte>)
    ensures DecodeCursor(TrimRight(Base64(bytes), IsPad)) == Unpacked(bytes)
  {
    PaddingRestored(bytes);
    Base64RoundTrip(bytes);
  }

  lemma PartitionOfPacked(sortKey: string, rowId: string)
    ensures Partition(sortKey + [SEPARATOR] + rowId) == Success((sortKey, rowId)) <==> SEPARATOR !in sortKey
  {
    var packed := sortKey + [SEPARATOR] + rowId;
    if SEPARATOR !in sortKey {
      SpanOfAll(sortKey, [SEPARATOR] + rowId, NotSeparator);
      assert packed == sortKey + ([SEPARATOR] + rowId);
      assert packed[..|sortKey|] == sortKey && packed[|sortKey| + 1..] == rowId;
    } else {
      var n := Span(packed, NotSeparator);
      assert SEPARATOR !in packed[..n];
    }
  }
}
