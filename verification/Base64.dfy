/** The edge's base64 codec (wsn/common/base64.c), for section 4 of RFC 4648. */
module Base64 {
  import opened Common

  type Sextet = x: nat | x < 64

  /** What a character of encoded text stands for. */
  datatype Symbol = Digit(digit: Sextet) | Pad {
    /** The decode table entry: padding counts as zero bits. */
    function Bits(): Sextet { if Digit? then digit else 0 }
  }

  // ---------------------------------------------------------------------------
  // The alphabet.
  // ---------------------------------------------------------------------------

  /** base64_table. */
  function Letter(v: Sextet): (c: char)
    ensures c as int < 128 && c != '='
  {
    if v < 26 then 'A' + v as char
    else if v < 52 then 'a' + (v - 26) as char
    else if v < 62 then '0' + (v - 52) as char
    else if v == 62 then '+'
    else '/'
  }

  /** A decode table entry for a character outside the alphabet. */
  const ABSENT := 0x80

  /** The finished decode table: the inverse of Letter, zero for padding, ABSENT elsewhere. */
  function Code(c: char): (v: nat)
    ensures v < 64 || v == ABSENT
  {
    if 'A' <= c <= 'Z' then c as int - 'A' as int
    else if 'a' <= c <= 'z' then c as int - 'a' as int + 26
    else if '0' <= c <= '9' then c as int - '0' as int + 52
    else if c == '+' then 62
    else if c == '/' then 63
    else if c == '=' then 0
    else ABSENT
  }

  lemma CodeOfLetter(v: Sextet)
    ensures Code(Letter(v)) == v
  {
  }

  lemma LetterOfCode(c: char)
    requires Code(c) != ABSENT && c != '='
    ensures Letter(Code(c)) == c
  {
  }

  /** Filling the decode table from the alphabet yields Code on every byte. */
  method BuildTable() returns (dtable: array<nat>)
    ensures fresh(dtable) && TableBuilt(dtable)
  {
    dtable := new nat[256](_ => ABSENT);
    for i := 0 to 64
      invariant forall c: char :: c as int < 256 ==>
                  dtable[c as int] == if c != '=' && Code(c) < i then Code(c) else ABSENT
    {
      CodeOfLetter(i);
      forall c: char | Code(c) == i && c != '='
        ensures c == Letter(i)
      {
        LetterOfCode(c);
      }
      dtable[Letter(i) as int] := i;
    }
    dtable['=' as int] := 0;
  }

  function Render(s: Symbol): char {
    match s
    case Digit(v) => Letter(v)
    case Pad => '='
  }

  /** How the decoder reads one character; None is skipped. */
  function Read(c: char): Option<Symbol> {
    if c == '=' then Some(Pad)
    else if Code(c) == ABSENT then None
    else Some(Digit(Code(c)))
  }

  lemma ReadOfRender(s: Symbol)
    ensures Read(Render(s)) == Some(s)
  {
    if s.Digit? {
      CodeOfLetter(s.digit);
    }
  }

  function RenderAll(s: seq<Symbol>): (r: seq<char>)
    ensures |r| == |s| && forall k :: 0 <= k < |s| ==> r[k] == Render(s[k])
  {
    seq(|s|, k requires 0 <= k < |s| => Render(s[k]))
  }

  // ---------------------------------------------------------------------------
  // Three bytes to four digits and back.
  // ---------------------------------------------------------------------------

  /** The shifts and masks of the original, on bytes, are these quotients and remainders. */
  lemma BitwiseIsArithmetic(a: bv8, b: bv8, c: bv8)
    ensures a >> 2 == a / 4
    ensures ((a & 0x03) << 4) | (b >> 4) == (a % 4) * 16 + b / 16
    ensures ((b & 0x0f) << 2) | (c >> 6) == (b % 16) * 4 + c / 64
    ensures c & 0x3f == c % 64
  {
  }

  /** The same for the decoder, whose operands are six-bit values. */
  lemma BitwiseIsArithmeticDecoding(a: bv8, b: bv8, c: bv8, d: bv8)
    requires a < 64 && b < 64 && c < 64 && d < 64
    ensures (a << 2) | (b >> 4) == a * 4 + b / 16
    ensures (b << 4) | (c >> 2) == (b % 16) * 16 + c / 4
    ensures (c << 6) | d == (c % 4) * 64 + d
  {
  }

  function Quad(a: Byte, b: Byte, c: Byte): (r: seq<Symbol>)
    ensures |r| == 4
  {
    [Digit(a / 4), Digit(a % 4 * 16 + b / 16), Digit(b % 16 * 4 + c / 64), Digit(c % 64)]
  }

  function Triple(w: Sextet, x: Sextet, y: Sextet, z: Sextet): (r: seq<Byte>)
    ensures |r| == 3
  {
    [w * 4 + x / 16, x % 16 * 16 + y / 4, y % 4 * 64 + z]
  }

  function BlockBytes(s: seq<Symbol>): (r: seq<Byte>)
    requires |s| == 4
    ensures |r| == 3
  {
    Triple(s[0].Bits(), s[1].Bits(), s[2].Bits(), s[3].Bits())
  }

  lemma PackTwo(hi: nat, lo: nat)
    requires lo < 16
    ensures (hi * 16 + lo) / 16 == hi && (hi * 16 + lo) % 16 == lo
  {
  }

  lemma PackFour(hi: nat, lo: nat)
    requires lo < 4
    ensures (hi * 4 + lo) / 4 == hi && (hi * 4 + lo) % 4 == lo
  {
  }

  lemma TripleOfQuad(a: Byte, b: Byte, c: Byte)
    ensures BlockBytes(Quad(a, b, c)) == [a, b, c]
  {
    var x, y := a % 4 * 16 + b / 16, b % 16 * 4 + c / 64;
    PackTwo(a % 4, b / 16);
    PackFour(b % 16, c / 64);
    TripleIs(a / 4, x, y, c % 64, a, b, c);
    BlockIs(Quad(a, b, c), a / 4, x, y, c % 64);
  }

  lemma BlockIs(q: seq<Symbol>, w: Sextet, x: Sextet, y: Sextet, z: Sextet)
    requires |q| == 4 && q[0].Bits() == w && q[1].Bits() == x && q[2].Bits() == y && q[3].Bits() == z
    ensures BlockBytes(q) == Triple(w, x, y, z)
  {
  }

  lemma TripleIs(w: Sextet, x: Sextet, y: Sextet, z: Sextet, a: Byte, b: Byte, c: Byte)
    requires w == a / 4 && x / 16 == a % 4 && x % 16 == b / 16 && y / 4 == b % 16 && y % 4 == c / 64 && z == c % 64
    ensures Triple(w, x, y, z) == [a, b, c]
  {
  }

  // ---------------------------------------------------------------------------
  // Encoding.
  // ---------------------------------------------------------------------------

  function Groups(b: seq<Byte>): seq<Symbol> {
    if |b| == 0 then []
    else if |b| == 1 then [Quad(b[0], 0, 0)[0], Quad(b[0], 0, 0)[1], Pad, Pad]
    else if |b| == 2 then [Quad(b[0], b[1], 0)[0], Quad(b[0], b[1], 0)[1], Quad(b[0], b[1], 0)[2], Pad]
    else Quad(b[0], b[1], b[2]) + Groups(b[3..])
  }

  /** The encoded text. */
  function Encoded(b: seq<Byte>): seq<char> { RenderAll(Groups(b)) }

  lemma {:induction false} EncodedLength(b: seq<Byte>)
    ensures |Groups(b)| == |Encoded(b)| == (|b| + 2) / 3 * 4
  {
    if |b| >= 3 {
      EncodedLength(b[3..]);
    }
  }

  /** Table 1 of RFC 4648: the alphabet, eight values in a row. */
  const ALPHABET := ["ABCDEFGH", "IJKLMNOP", "QRSTUVWX", "YZabcdef", "ghijklmn", "opqrstuv", "wxyz0123", "456789+/"]

  lemma LetterIsTable(v: Sextet)
    ensures |ALPHABET| == 8 && |ALPHABET[v / 8]| == 8 && Letter(v) == ALPHABET[v / 8][v % 8]
  {
  }

  /** The character of the alphabet for six bits. */
  function TableLetter(v: Sextet): char
  {
    LetterIsTable(v);
    ALPHABET[v / 8][v % 8]
  }

  function ByteOrZero(b: seq<Byte>, k: nat): Byte { if k < |b| then b[k] else 0 }

  /** Three bytes as a 24-bit number, the first byte on top, zeros beyond the end. */
  function Word(b: seq<Byte>, m: nat): nat {
    65536 * ByteOrZero(b, 3 * m) + 256 * ByteOrZero(b, 3 * m + 1) + ByteOrZero(b, 3 * m + 2)
  }

  /** Six bits of a 24-bit number, counted from the top. */
  function SixBits(w: nat, i: nat): Sextet
    requires i < 4
  {
    w / (if i == 0 then 262144 else if i == 1 then 4096 else if i == 2 then 64 else 1) % 64
  }

  lemma QuadIsBits(a: Byte, b: Byte, c: Byte, i: nat)
    requires i < 4
    ensures Quad(a, b, c)[i] == Digit(SixBits(65536 * a + 256 * b + c, i))
  {
    match i
    case 0 => TopBits(a, b, c);
    case 1 => UpperBits(a, b, c);
    case 2 => LowerBits(a, b, c);
    case _ => LowBits(a, b, c);
  }

  lemma DropSixties(q: nat, r: nat)
    requires r < 64
    ensures (64 * q + r) % 64 == r
  {
  }

  lemma TopBits(a: Byte, b: Byte, c: Byte)
    ensures SixBits(65536 * a + 256 * b + c, 0) == a / 4
  {
    DivisionBounds(65536 * a + 256 * b + c, 262144, a / 4, a / 4);
  }

  lemma UpperBits(a: Byte, b: Byte, c: Byte)
    ensures SixBits(65536 * a + 256 * b + c, 1) == a % 4 * 16 + b / 16
  {
    var q := 16 * a + b / 16;
    DivisionBounds(65536 * a + 256 * b + c, 4096, q, q);
    assert q == 64 * (a / 4) + (a % 4 * 16 + b / 16);
    DropSixties(a / 4, a % 4 * 16 + b / 16);
  }

  lemma LowerBits(a: Byte, b: Byte, c: Byte)
    ensures SixBits(65536 * a + 256 * b + c, 2) == b % 16 * 4 + c / 64
  {
    var q := 1024 * a + 4 * b + c / 64;
    DivisionBounds(65536 * a + 256 * b + c, 64, q, q);
    assert q == 64 * (16 * a + b / 16) + (b % 16 * 4 + c / 64);
    DropSixties(16 * a + b / 16, b % 16 * 4 + c / 64);
  }

  lemma LowBits(a: Byte, b: Byte, c: Byte)
    ensures SixBits(65536 * a + 256 * b + c, 3) == c % 64
  {
    assert 65536 * a + 256 * b + c == 64 * (1024 * a + 4 * b + c / 64) + c % 64;
    DropSixties(1024 * a + 4 * b + c / 64, c % 64);
  }

  /**
   Symbol i of the encoding is the i-th group of six bits of the input, most significant first and filled
   up with zero bits, or padding beyond the last group that holds an input bit.
   */
  lemma {:induction false} SymbolIsBits(b: seq<Byte>, i: nat)
    requires i < |Groups(b)|
    ensures Groups(b)[i] == if 6 * i < 8 * |b| then Digit(SixBits(Word(b, i / 4), i % 4)) else Pad
    decreases |b|
  {
    if i < 4 {
      QuadIsBits(ByteOrZero(b, 0), ByteOrZero(b, 1), ByteOrZero(b, 2), i);
    } else {
      SymbolIsBits(b[3..], i - 4);
    }
  }

  /** The character at each position of the encoded text. */
  lemma EncodedAt(b: seq<Byte>, i: nat)
    requires i < |Encoded(b)|
    ensures Encoded(b)[i] == if 6 * i < 8 * |b| then TableLetter(SixBits(Word(b, i / 4), i % 4)) else '='
  {
    EncodedLength(b);
    SymbolIsBits(b, i);
    LetterIsTable(SixBits(Word(b, i / 4), i % 4));
  }

  /** What base64_encode requires of the output buffer, with the terminator. */
  function Needed(len: nat): nat { len * 4 / 3 + 4 + 1 }

  /** That is the text with its terminator, and 4, 1 or 2 characters to spare. */
  lemma NeededIs(b: seq<Byte>)
    ensures Needed(|b|) == |Encoded(b)| + 1 + (if |b| % 3 == 0 then 4 else |b| % 3)
  {
    EncodedLength(b);
    Spare(|b| / 3, |b| % 3);
  }

  lemma Spare(q: nat, r: nat)
    requires r < 3
    ensures Needed(3 * q + r) == (3 * q + r + 2) / 3 * 4 + 1 + (if r == 0 then 4 else r)
  {
    assert (3 * q + r) * 4 / 3 == 4 * q + 4 * r / 3;
  }

  /** One step of the loop only appends to what is already encoded. */
  lemma {:induction false} GroupsSplit(b: seq<Byte>, k: nat)
    requires k <= |b| && k % 3 == 0
    ensures Groups(b) == Groups(b[..k]) + Groups(b[k..])
  {
    if k == 0 {
      assert b[0..] == b;
    } else {
      GroupsSplit(b[3..], k - 3);
      assert b[3..][..k - 3] == b[..k][3..];
      assert b[3..][k - 3..] == b[k..];
    }
  }

  lemma GroupsNext(b: seq<Byte>, k: nat)
    requires k + 3 <= |b| && k % 3 == 0
    ensures Groups(b[..k + 3]) == Groups(b[..k]) + Quad(b[k], b[k + 1], b[k + 2])
  {
    var p := b[..k + 3];
    GroupsSplit(p, k);
    assert p[..k] == b[..k];
    assert Groups(p[k..]) == Quad(p[k], p[k + 1], p[k + 2]) + Groups(p[k..][3..]);
  }

  lemma RenderConcat(a: seq<Symbol>, b: seq<Symbol>)
    ensures RenderAll(a + b) == RenderAll(a) + RenderAll(b)
  {
  }

  /**
   base64_encode: fails exactly when the buffer is smaller than the computed bound, and otherwise
   writes the encoding and its terminator inside that bound.
   */
  method Encode(src: seq<Byte>, out: array<char>, cap: nat) returns (ok: bool, len: nat)
    requires cap <= out.Length && |src| * 4 < 0x1_0000_0000
    modifies out
    ensures ok <==> cap >= Needed(|src|)
    ensures ok ==> len < Needed(|src|) && out[..len] == Encoded(src) && out[len] == '\0'
    ensures forall k :: Needed(|src|) <= k < out.Length ==> out[k] == old(out[k])
    ensures !ok ==> out[..] == old(out[..])
  {
    len := 0;
    if cap < Needed(|src|) {
      return false, 0;
    }
    var i := 0;
    ghost var n := 0;
    while |src| - i >= 3
      invariant i == 3 * n <= |src| && len == 4 * n
      invariant out[..len] == Encoded(src[..i])
      invariant forall k :: Needed(|src|) <= k < out.Length ==> out[k] == old(out[k])
    {
      NeededBound(|src|, n);
      EncodedNext(src, n);
      WriteQuad(out, len, Quad(src[i], src[i + 1], src[i + 2]));
      len, i, n := len + 4, i + 3, n + 1;
    }
    NeededBound(|src|, n);
    len := EncodeRest(src, out, i, len, n);
    ok := true;
  }

  /** The last one or two bytes, with padding, and the terminator. */
  method EncodeRest(src: seq<Byte>, out: array<char>, i: nat, pos: nat, ghost n: nat) returns (len: nat)
    requires i == 3 * n <= |src| < i + 3 && pos == 4 * n && pos + 4 < out.Length && out[..pos] == Encoded(src[..i])
    modifies out
    ensures pos <= len <= pos + 4 && out[..len] == Encoded(src) && out[len] == '\0'
    ensures forall k :: pos + 5 <= k < out.Length ==> out[k] == old(out[k])
  {
    len := pos;
    EncodedSplit(src, n);
    if i < |src| {
      WriteQuad(out, pos, Groups(src[i..]));
      len := pos + 4;
    }
    out[len] := '\0';
  }

  lemma NeededBound(len: nat, n: nat)
    requires 3 * n <= len
    ensures 4 * n + 4 < Needed(len)
  {
  }

  lemma EncodedNext(src: seq<Byte>, n: nat)
    requires 3 * n + 3 <= |src|
    ensures Encoded(src[..3 * n + 3]) ==
            Encoded(src[..3 * n]) + RenderAll(Quad(src[3 * n], src[3 * n + 1], src[3 * n + 2]))
  {
    GroupsNext(src, 3 * n);
    RenderConcat(Groups(src[..3 * n]), Quad(src[3 * n], src[3 * n + 1], src[3 * n + 2]));
  }

  lemma EncodedSplit(src: seq<Byte>, n: nat)
    requires 3 * n <= |src|
    ensures Encoded(src) == Encoded(src[..3 * n]) + RenderAll(Groups(src[3 * n..]))
  {
    GroupsSplit(src, 3 * n);
    RenderConcat(Groups(src[..3 * n]), Groups(src[3 * n..]));
  }

  /** Four consecutive stores through the advancing pointer. */
  method WriteQuad(out: array<char>, pos: nat, q: seq<Symbol>)
    requires pos + 4 <= out.Length && |q| == 4
    modifies out
    ensures out[..pos + 4] == old(out[..pos]) + RenderAll(q)
    ensures forall k :: pos + 4 <= k < out.Length ==> out[k] == old(out[k])
  {
    out[pos] := Render(q[0]);
    out[pos + 1] := Render(q[1]);
    out[pos + 2] := Render(q[2]);
    out[pos + 3] := Render(q[3]);
  }

  // ---------------------------------------------------------------------------
  // Decoding.
  // ---------------------------------------------------------------------------

  /** The symbols a reader finds in a text, skipping what it does not recognise. */
  function ReadAll(read: char -> Option<Symbol>, s: seq<char>): (r: seq<Symbol>)
    ensures |r| <= |s|
  {
    if |s| == 0 then []
    else
      var k := |s| - 1;
      ReadAll(read, s[..k]) + Item(read(s[k]))
  }

  function Item(r: Option<Symbol>): seq<Symbol> { if r.Some? then [r.value] else [] }

  function Symbols(src: seq<char>): seq<Symbol> { ReadAll(Read, src) }

  function Pads(s: seq<Symbol>): (n: nat)
    ensures n <= |s|
  {
    if |s| == 0 then 0 else Pads(s[..|s| - 1]) + (if s[|s| - 1].Pad? then 1 else 0)
  }

  function Prepend(a: seq<Byte>, r: Option<seq<Byte>>): Option<seq<Byte>> {
    if r.Some? then Some(a + r.value) else None
  }

  /** The bytes a block contributes, given how much of it is padding. */
  function BlockResult(s: seq<Symbol>): Option<seq<Byte>>
    requires |s| == 4
  {
    if Pads(s) < 3 then Some(BlockBytes(s)[..3 - Pads(s)]) else None
  }

  /** Block by block, stopping at the first block that holds padding. */
  function DecodeBlocks(s: seq<Symbol>): Option<seq<Byte>> {
    if |s| < 4 then Some([])
    else if Pads(s[..4]) > 0 then BlockResult(s[..4])
    else Prepend(BlockBytes(s[..4]), DecodeBlocks(s[4..]))
  }

  /** base64_decode, as a function of the text and the room in the output buffer. */
  function Decoded(src: seq<char>, cap: nat): Option<seq<Byte>> {
    var s := Symbols(src);
    if |s| == 0 || |s| % 4 != 0 || cap < |s| / 4 * 3 then None else DecodeBlocks(s)
  }

  lemma {:induction false} ReadConcat(read: char -> Option<Symbol>, a: seq<char>, b: seq<char>)
    ensures ReadAll(read, a + b) == ReadAll(read, a) + ReadAll(read, b)
    decreases |b|
  {
    if |b| == 0 {
      assert a + b == a;
    } else {
      var k := |b| - 1;
      ReadConcat(read, a, b[..k]);
      assert (a + b)[..|a| + k] == a + b[..k];
      ghost var x := Item(read(b[k]));
      assert ReadAll(read, a + b) == ReadAll(read, a) + ReadAll(read, b[..k]) + x;
      assert ReadAll(read, b) == ReadAll(read, b[..k]) + x;
      Associate(ReadAll(read, a), ReadAll(read, b[..k]), x);
    }
  }

  lemma {:induction false} ReadNothing(read: char -> Option<Symbol>, s: seq<char>)
    requires forall k :: 0 <= k < |s| ==> read(s[k]).None?
    ensures ReadAll(read, s) == []
  {
    if |s| > 0 {
      ReadNothing(read, s[..|s| - 1]);
    }
  }

  /** Characters outside the alphabet may be inserted anywhere without changing the outcome. */
  lemma InsertionIgnored(a: seq<char>, junk: seq<char>, b: seq<char>, cap: nat)
    requires forall k :: 0 <= k < |junk| ==> Read(junk[k]).None?
    ensures Decoded(a + junk + b, cap) == Decoded(a + b, cap)
  {
    ReadConcat(Read, a + junk, b);
    ReadConcat(Read, a, junk);
    ReadConcat(Read, a, b);
    ReadNothing(Read, junk);
    assert ReadAll(Read, a + junk) == ReadAll(Read, a);
  }

  lemma {:induction false} SymbolsOfRender(s: seq<Symbol>)
    ensures Symbols(RenderAll(s)) == s
  {
    if |s| > 0 {
      var k := |s| - 1;
      SymbolsOfRender(s[..k]);
      ReadOfRender(s[k]);
      assert RenderAll(s)[..k] == RenderAll(s[..k]);
    }
  }

  function One(s: Symbol): nat { if s.Pad? then 1 else 0 }

  lemma PadsOfFour(s: seq<Symbol>)
    requires |s| == 4
    ensures Pads(s) == One(s[0]) + One(s[1]) + One(s[2]) + One(s[3])
  {
    assert s[..3][..2] == s[..2] && s[..2][..1] == s[..1] && s[..1][..0] == s[..0];
    assert Pads(s[..1]) == One(s[0]);
    assert Pads(s[..2]) == Pads(s[..1]) + One(s[1]);
    assert Pads(s[..3]) == Pads(s[..2]) + One(s[2]);
  }

  lemma {:induction false} BlocksOfGroups(b: seq<Byte>)
    ensures DecodeBlocks(Groups(b)) == Some(b)
  {
    var s := Groups(b);
    if |b| >= 3 {
      BlocksOfGroups(b[3..]);
      var q := Quad(b[0], b[1], b[2]);
      assert s[..4] == q && s[4..] == Groups(b[3..]);
      PadsOfFour(q);
      TripleOfQuad(b[0], b[1], b[2]);
      assert [b[0], b[1], b[2]] + b[3..] == b;
    } else if |b| > 0 {
      LastBlock(b);
      assert s[..4] == s;
    }
  }

  lemma LastBlock(b: seq<Byte>)
    requires 0 < |b| < 3
    ensures Pads(Groups(b)) == 3 - |b| && BlockResult(Groups(b)) == Some(b)
  {
    var s := Groups(b);
    var c := if |b| == 1 then 0 else b[1];
    PadsOfFour(s);
    TripleOfQuad(b[0], c, 0);
    assert s[2].Bits() == Quad(b[0], c, 0)[2].Bits();
    assert BlockBytes(s) == [b[0], c, 0];
    Front(b, c);
  }

  lemma Front(b: seq<Byte>, c: Byte)
    requires 0 < |b| < 3 && (|b| == 2 ==> c == b[1])
    ensures [b[0], c, 0][..|b|] == b
  {
  }

  /**
   Decoding undoes encoding for every non-empty byte string, provided the output buffer has room for
   whole three-byte blocks; with less room, and for the empty string, it fails.
   */
  lemma RoundTrip(b: seq<Byte>, cap: nat)
    ensures Decoded(Encoded(b), cap) == if b != [] && cap >= (|b| + 2) / 3 * 3 then Some(b) else None
  {
    var n := (|b| + 2) / 3;
    SymbolsOfRender(Groups(b));
    EncodedLength(b);
    BlocksOfGroups(b);
    DecodedIs(Encoded(b), Groups(b), n, cap);
  }

  /** A whole block decodes to its three bytes, whatever follows. */
  lemma WholeBlock(b: seq<Byte>, t: seq<Symbol>)
    requires |b| >= 3
    ensures DecodeBlocks(Groups(b) + t) == Prepend([b[0], b[1], b[2]], DecodeBlocks(Groups(b[3..]) + t))
  {
    var q, s := Quad(b[0], b[1], b[2]), Groups(b) + t;
    assert s == q + (Groups(b[3..]) + t);
    assert s[..4] == q && s[4..] == Groups(b[3..]) + t;
    PadsOfFour(q);
    TripleOfQuad(b[0], b[1], b[2]);
  }

  /** Where the text ends in padding, what follows it is not looked at. */
  lemma {:induction false} PaddingEnds(b: seq<Byte>, t: seq<Symbol>)
    requires |b| % 3 != 0
    ensures DecodeBlocks(Groups(b) + t) == Some(b)
    decreases |b|
  {
    if |b| < 3 {
      LastBlock(b);
      assert (Groups(b) + t)[..4] == Groups(b);
    } else {
      PaddingEnds(b[3..], t);
      WholeBlock(b, t);
      assert [b[0], b[1], b[2]] + b[3..] == b;
    }
  }

  /**
   Text behind padding is ignored: the encoding of bytes that do not fill their last block decodes to them
   whatever follows, as long as the whole text is of blocks and there is room for them.
   */
  lemma PaddingEndsText(b: seq<Byte>, t: seq<char>, cap: nat)
    requires |b| % 3 != 0
    ensures var n := |Groups(b)| + |Symbols(t)|;
            Decoded(Encoded(b) + t, cap) == if n % 4 == 0 && cap >= n / 4 * 3 then Some(b) else None
  {
    ReadConcat(Read, Encoded(b), t);
    SymbolsOfRender(Groups(b));
    PaddingEnds(b, Symbols(t));
  }

  /** A block with more than two characters of padding, behind whole blocks, makes the text invalid. */
  lemma {:induction false} TooMuchPadding(b: seq<Byte>, last: seq<Symbol>, t: seq<Symbol>)
    requires |b| % 3 == 0 && |last| == 4 && Pads(last) >= 3
    ensures DecodeBlocks(Groups(b) + (last + t)).None?
    decreases |b|
  {
    var s := Groups(b) + (last + t);
    if |b| == 0 {
      assert s[..4] == last;
    } else {
      var q := Quad(b[0], b[1], b[2]);
      TooMuchPadding(b[3..], last, t);
      assert s[..4] == q && s[4..] == Groups(b[3..]) + (last + t);
      PadsOfFour(q);
    }
  }

  lemma {:induction false} DecodesToFewer(s: seq<Symbol>, n: nat)
    requires |s| == 4 * n
    ensures DecodeBlocks(s).Some? ==> |DecodeBlocks(s).value| <= 3 * n
    decreases n
  {
    if n > 0 && Pads(s[..4]) == 0 {
      DecodesToFewer(s[4..], n - 1);
    }
  }

  /** What decodes stays within whole blocks, and within the room given. */
  lemma DecodedWithin(src: seq<char>, cap: nat)
    ensures Decoded(src, cap).Some? ==>
              && |Symbols(src)| % 4 == 0
              && |Decoded(src, cap).value| <= |Symbols(src)| / 4 * 3 <= cap
  {
    var s := Symbols(src);
    if |s| % 4 == 0 {
      DecodesToFewer(s, |s| / 4);
    }
  }

  lemma DecodedIs(src: seq<char>, s: seq<Symbol>, n: nat, cap: nat)
    requires s == Symbols(src) && |s| == n * 4
    ensures Decoded(src, cap) == if n > 0 && cap >= n * 3 then DecodeBlocks(s) else None
  {
    PackFour(n, 0);
  }

  // ---------------------------------------------------------------------------
  // The decoding loops.
  // ---------------------------------------------------------------------------

  lemma ReadStep(read: char -> Option<Symbol>, src: seq<char>, i: nat)
    requires i < |src|
    ensures ReadAll(read, src[..i + 1]) == ReadAll(read, src[..i]) + Item(read(src[i]))
  {
    assert src[..i + 1][..i] == src[..i];
  }

  lemma ReadPrefix(read: char -> Option<Symbol>, src: seq<char>, i: nat)
    requires i <= |src|
    ensures |ReadAll(read, src[..i])| <= |ReadAll(read, src)|
    ensures ReadAll(read, src)[..|ReadAll(read, src[..i])|] == ReadAll(read, src[..i])
  {
    ReadConcat(read, src[..i], src[i..]);
    assert src[..i] + src[i..] == src;
  }

  method CountSymbols(dtable: array<nat>, src: seq<char>) returns (count: nat)
    requires TableBuilt(dtable)
    requires forall k :: 0 <= k < |src| ==> src[k] as int < 256
    ensures count == |Symbols(src)|
  {
    count := 0;
    for i := 0 to |src|
      invariant count == |ReadAll(Read, src[..i])|
    {
      ReadStep(Read, src, i);
      assert Read(src[i]).None? <==> Code(src[i]) == ABSENT;
      if dtable[src[i] as int] != 0x80 {
        count := count + 1;
      }
    }
    assert src[..|src|] == src;
  }

  // The loop handles its two invariants as atoms: what they mean is available only through
  // ConsumedDef and GatheredDef.

  ghost predicate ConsumedMeaning(read: char -> Option<Symbol>, src: seq<char>, i: nat, k: nat) {
    i <= |src| && k <= |ReadAll(read, src)| && ReadAll(read, src[..i]) == ReadAll(read, src)[..k]
  }

  ghost predicate IsConsumed(b: bool, read: char -> Option<Symbol>, src: seq<char>, i: nat, k: nat) {
    forall u :: Unfolding(u) ==> (b <==> ConsumedMeaning(read, src, i, k))
  }

  /** The first k symbols of the text are those in its first i characters. */
  ghost predicate Consumed(read: char -> Option<Symbol>, src: seq<char>, i: nat, k: nat) {
    assert IsConsumed(ConsumedMeaning(read, src, i, k), read, src, i, k);
    var b :| IsConsumed(b, read, src, i, k);
    b
  }

  lemma ConsumedDef(read: char -> Option<Symbol>, src: seq<char>, i: nat, k: nat)
    ensures Consumed(read, src, i, k) <==> ConsumedMeaning(read, src, i, k)
  {
    assert Unfolding(0);
  }

  lemma ConsumeStart(read: char -> Option<Symbol>, src: seq<char>)
    ensures Consumed(read, src, 0, 0)
  {
    ConsumedDef(read, src, 0, 0);
  }

  /** Reading one more recognised character takes the next symbol of the whole text. */
  lemma NextSymbol(read: char -> Option<Symbol>, src: seq<char>, i: nat, k: nat)
    requires i < |src| && Consumed(read, src, i, k)
    ensures read(src[i]).Some? ==>
              k < |ReadAll(read, src)| && ReadAll(read, src)[k] == read(src[i]).value && Consumed(read, src, i + 1, k + 1)
    ensures read(src[i]).None? ==> Consumed(read, src, i + 1, k)
  {
    ConsumedDef(read, src, i, k);
    ReadStep(read, src, i);
    ReadPrefix(read, src, i + 1);
    if read(src[i]).None? {
      ConsumedDef(read, src, i + 1, k);
    } else {
      ConsumedDef(read, src, i + 1, k + 1);
    }
  }

  lemma ConsumedAll(read: char -> Option<Symbol>, src: seq<char>, k: nat)
    requires Consumed(read, src, |src|, k)
    ensures k == |ReadAll(read, src)|
  {
    ConsumedDef(read, src, |src|, k);
    assert src[..|src|] == src;
  }

  ghost predicate GatheredMeaning(s: seq<Symbol>, n: nat, k: nat, pad: nat, written: seq<Byte>, block: seq<nat>) {
    && 4 * n <= k <= 4 * n + 4 && k <= |s| && |block| == 4 && |written| == 3 * n
    && (forall c :: 0 <= c < k - 4 * n ==> block[c] == s[4 * n + c].Bits())
    && pad == Pads(s[4 * n..k])
    && DecodeBlocks(s) == Prepend(written, DecodeBlocks(s[4 * n..]))
  }

  ghost predicate IsGathered(
    b: bool, s: seq<Symbol>, n: nat, k: nat, pad: nat, written: seq<Byte>, block: seq<nat>)
  {
    forall u :: Unfolding(u) ==> (b <==> GatheredMeaning(s, n, k, pad, written, block))
  }

  /**
   The state of the decoding loop after k symbols: n blocks are finished and written, and the
   symbols after them are gathered in the block buffer.
   */
  ghost predicate Gathered(s: seq<Symbol>, n: nat, k: nat, pad: nat, written: seq<Byte>, block: seq<nat>) {
    assert IsGathered(GatheredMeaning(s, n, k, pad, written, block), s, n, k, pad, written, block);
    var b :| IsGathered(b, s, n, k, pad, written, block);
    b
  }

  lemma GatheredDef(s: seq<Symbol>, n: nat, k: nat, pad: nat, written: seq<Byte>, block: seq<nat>)
    ensures Gathered(s, n, k, pad, written, block) <==> GatheredMeaning(s, n, k, pad, written, block)
  {
    assert Unfolding(0);
  }

  lemma GatherStart(s: seq<Symbol>, block: seq<nat>)
    requires |block| == 4
    ensures Gathered(s, 0, 0, 0, [], block)
  {
    GatheredDef(s, 0, 0, 0, [], block);
    assert s[0..] == s;
    var r := DecodeBlocks(s);
    assert r.Some? ==> [] + r.value == r.value;
  }

  lemma GatherNext(s: seq<Symbol>, n: nat, k: nat, pad: nat, written: seq<Byte>, block: seq<nat>)
    requires Gathered(s, n, k, pad, written, block) && k < |s| && 0 <= k - 4 * n < 4 && |block| == 4
    ensures Gathered(s, n, k + 1, pad + One(s[k]), written, block[k - 4 * n := s[k].Bits()])
  {
    GatheredDef(s, n, k, pad, written, block);
    GatheredDef(s, n, k + 1, pad + One(s[k]), written, block[k - 4 * n := s[k].Bits()]);
    assert s[4 * n..k + 1][..k - 4 * n] == s[4 * n..k];
  }

  /** A finished block without padding moves from the input side to the output side. */
  lemma FinishBlock(s: seq<Symbol>, n: nat, written: seq<Byte>, block: seq<nat>)
    requires Gathered(s, n, 4 * n + 4, 0, written, block) && 4 * n + 4 <= |s|
    ensures Gathered(s, n + 1, 4 * n + 4, 0, written + BlockBytes(s[4 * n..4 * n + 4]), block)
  {
    GatheredDef(s, n, 4 * n + 4, 0, written, block);
    GatheredDef(s, n + 1, 4 * n + 4, 0, written + BlockBytes(s[4 * n..4 * n + 4]), block);
    var q := 4 * n;
    assert s[q..][..4] == s[q..q + 4] && s[q..][4..] == s[q + 4..];
    var tail := DecodeBlocks(s[q + 4..]);
    if tail.Some? {
      Associate(written, BlockBytes(s[q..q + 4]), tail.value);
    }
  }

  /** A block with padding decides the result. */
  lemma PaddedBlock(s: seq<Symbol>, n: nat, pad: nat, written: seq<Byte>, block: seq<nat>)
    requires Gathered(s, n, 4 * n + 4, pad, written, block) && pad > 0 && 4 * n + 4 <= |s|
    ensures DecodeBlocks(s) ==
            if pad < 3 then Some(written + BlockBytes(s[4 * n..4 * n + 4])[..3 - pad]) else None
  {
    GatheredDef(s, n, 4 * n + 4, pad, written, block);
    var b := s[4 * n..4 * n + 4];
    PaddedFirst(s[4 * n..], b);
    PaddedResult(written, b);
  }

  lemma PaddedFirst(t: seq<Symbol>, b: seq<Symbol>)
    requires |t| >= 4 && t[..4] == b && Pads(b) > 0
    ensures DecodeBlocks(t) == BlockResult(b)
  {
  }

  lemma PaddedResult(written: seq<Byte>, b: seq<Symbol>)
    requires |b| == 4
    ensures Prepend(written, BlockResult(b)) ==
            if Pads(b) < 3 then Some(written + BlockBytes(b)[..3 - Pads(b)]) else None
  {
  }

  lemma BlockHolds(s: seq<Symbol>, n: nat, pad: nat, written: seq<Byte>, block: seq<nat>)
    requires Gathered(s, n, 4 * n + 4, pad, written, block) && 4 * n + 4 <= |s|
    ensures |block| == 4 && forall c :: 0 <= c < 4 ==> block[c] == s[4 * n..4 * n + 4][c].Bits()
  {
    GatheredDef(s, n, 4 * n + 4, pad, written, block);
  }

  lemma WholeBlocks(s: seq<Symbol>, n: nat, blocks: nat, pad: nat, written: seq<Byte>, block: seq<nat>)
    requires Gathered(s, n, |s|, pad, written, block) && |s| == 4 * blocks && |s| - 4 * n < 4
    ensures DecodeBlocks(s) == Some(written) && n == blocks
  {
    GatheredDef(s, n, |s|, pad, written, block);
    assert s[4 * n..] == [];
    assert written + [] == written;
  }

  /** The three bytes the decoder stores: shifting a sextet within a byte drops its high bits. */
  method Pack(block: array<nat>, ghost s: seq<Symbol>) returns (t: seq<Byte>)
    requires block.Length == 4 && |s| == 4 && forall c :: 0 <= c < 4 ==> block[c] == s[c].Bits()
    ensures t == BlockBytes(s)
  {
    t := Shifted(block[0], block[1], block[2], block[3]);
  }

  function Shifted(w: Sextet, x: Sextet, y: Sextet, z: Sextet): (t: seq<Byte>)
    ensures t == Triple(w, x, y, z)
  {
    Truncations(w, x, y, z);
    [(w * 4) % 256 + x / 16, (x * 16) % 256 + y / 4, (y * 64) % 256 + z]
  }

  lemma Truncations(w: Sextet, x: Sextet, y: Sextet, z: Sextet)
    ensures (w * 4) % 256 + x / 16 == Triple(w, x, y, z)[0]
    ensures (x * 16) % 256 + y / 4 == Triple(w, x, y, z)[1]
    ensures (y * 64) % 256 + z == Triple(w, x, y, z)[2]
  {
    assert x * 16 == x / 16 * 256 + x % 16 * 16;
    assert y * 64 == y / 4 * 256 + y % 4 * 64;
  }

  /** Three stores through the advancing pointer. */
  method WriteTriple(out: array<Byte>, start: nat, pos: nat, t: seq<Byte>)
    requires start <= pos && pos + 3 <= out.Length && |t| == 3
    modifies out
    ensures out[start..pos + 3] == old(out[start..pos]) + t
    ensures forall k :: 0 <= k < out.Length && !(pos <= k < pos + 3) ==> out[k] == old(out[k])
  {
    out[pos] := t[0];
    out[pos + 1] := t[1];
    out[pos + 2] := t[2];
  }

  /** The table holds, for every byte, the bits of what `read` makes of it. */
  ghost predicate TableFor(dtable: array<nat>, read: char -> Option<Symbol>)
    reads dtable
  {
    && dtable.Length == 256
    && forall c: char :: c as int < 256 ==>
         && dtable[c as int] == (if read(c).Some? then read(c).value.Bits() else ABSENT)
         && (read(c) == Some(Pad) <==> c == '=')
  }

  lemma TableReads(dtable: array<nat>)
    requires TableBuilt(dtable)
    ensures TableFor(dtable, Read)
  {
  }

  ghost predicate TableBuilt(dtable: array<nat>)
    reads dtable
  {
    dtable.Length == 256 && forall c: char :: c as int < 256 ==> dtable[c as int] == Code(c)
  }

  /** One more symbol goes into the block buffer. */
  method Store(
    block: array<nat>, count: nat, tmp: nat, ghost s: seq<Symbol>, ghost n: nat, ghost k: nat, ghost pad: nat,
    ghost written: seq<Byte>)
    requires block.Length == 4 && count == k - 4 * n < 4 && k < |s| && tmp == s[k].Bits()
    requires Gathered(s, n, k, pad, written, block[..])
    modifies block
    ensures Gathered(s, n, k + 1, pad + One(s[k]), written, block[..])
  {
    GatherNext(s, n, k, pad, written, block[..]);
    ghost var gathered := block[..][count := tmp];
    block[count] := tmp;
    assert block[..] == gathered;
  }

  /**
   What happens when the block buffer is full: its bytes are stored, and padding ends the decoding
   with the result decided.
   */
  method EmptyBlock(
    out: array<Byte>, start: nat, pos: nat, block: array<nat>, pad: nat, ghost s: seq<Symbol>, ghost n: nat)
    returns (ok: bool, len: nat)
    requires pos == start + 3 * n && pos + 3 <= out.Length && block.Length == 4
    requires Gathered(s, n, 4 * n + 4, pad, out[start..pos], block[..]) && 4 * n + 4 <= |s|
    modifies out
    ensures pad == 0 ==> Gathered(s, n + 1, 4 * n + 4, 0, out[start..pos + 3], block[..])
    ensures pad > 0 ==> (ok <==> DecodeBlocks(s).Some?)
    ensures pad > 0 && ok ==> len <= 3 * n + 3 && out[start..start + len] == DecodeBlocks(s).value
    ensures forall k :: 0 <= k < out.Length && !(pos <= k < pos + 3) ==> out[k] == old(out[k])
  {
    ghost var written := out[start..pos];
    BlockHolds(s, n, pad, written, block[..]);
    var t := Pack(block, s[4 * n..4 * n + 4]);
    WriteTriple(out, start, pos, t);
    ok, len := pad < 3, 0;
    if pad == 0 {
      FinishBlock(s, n, written, block[..]);
    } else {
      PaddedBlock(s, n, pad, written, block[..]);
      if pad < 3 {
        len := pos + 3 - pad - start;
        DropLast(written, t, pad);
        assert out[start..start + len] == out[start..pos + 3][..len];
      }
    }
  }

  /** The main loop, for any reader that agrees with the table. */
  method DecodeLoop(
    dtable: array<nat>, ghost read: char -> Option<Symbol>, src: seq<char>, out: array<Byte>, start: nat,
    ghost blocks: nat)
    returns (ok: bool, len: nat)
    requires TableFor(dtable, read) && forall k :: 0 <= k < |src| ==> src[k] as int < 256
    requires |ReadAll(read, src)| == 4 * blocks && start + 3 * blocks <= out.Length
    modifies out
    ensures ok <==> DecodeBlocks(ReadAll(read, src)).Some?
    ensures ok ==> len <= 3 * blocks && out[start..start + len] == DecodeBlocks(ReadAll(read, src)).value
    ensures forall k :: 0 <= k < out.Length && !(start <= k < start + 3 * blocks) ==> out[k] == old(out[k])
  {
    ghost var s := ReadAll(read, src);
    ghost var n, k := 0, 0;
    var block := new nat[4];
    var pos, count, pad := start, 0, 0;
    ghost var written: seq<Byte> := [];
    GatherStart(s, block[..]);
    ConsumeStart(read, src);
    for i := 0 to |src|
      invariant Consumed(read, src, i, k)
      invariant pos == start + 3 * n <= out.Length && count == k - 4 * n < 4
      invariant written == out[start..pos] && Gathered(s, n, k, pad, written, block[..])
      invariant count == 0 ==> pad == 0
      invariant forall j :: 0 <= j < out.Length && !(start <= j < start + 3 * blocks) ==> out[j] == old(out[j])
    {
      NextSymbol(read, src, i, k);
      var tmp := dtable[src[i] as int];
      if tmp == 0x80 {
        continue;
      }
      Store(block, count, tmp, s, n, k, pad, written);
      if src[i] == '=' {
        pad := pad + 1;
      }
      count, k := count + 1, k + 1;
      if count == 4 {
        ok, len := EmptyBlock(out, start, pos, block, pad, s, n);
        if pad > 0 {
          return;
        }
        pos, count, n := pos + 3, 0, n + 1;
        written := out[start..pos];
      }
    }
    ConsumedAll(read, src, k);
    WholeBlocks(s, n, blocks, pad, written, block[..]);
    return true, pos - start;
  }

  lemma DropLast(written: seq<Byte>, t: seq<Byte>, pad: nat)
    requires |t| == 3 && pad < 3
    ensures (written + t)[..|written| + 3 - pad] == written + t[..3 - pad]
  {
  }

  /**
   base64_decode into `out` from `start`, with room for `cap` bytes: it succeeds exactly when the
   text decodes in that room, and stores nothing outside it.
   */
  method Decode(src: seq<char>, out: array<Byte>, start: nat, cap: nat) returns (ok: bool, len: nat)
    requires start + cap <= out.Length && forall k :: 0 <= k < |src| ==> src[k] as int < 256
    modifies out
    ensures ok <==> Decoded(src, cap).Some?
    ensures ok ==> len <= cap && out[start..start + len] == Decoded(src, cap).value
    ensures forall k :: 0 <= k < out.Length && !(start <= k < start + cap) ==> out[k] == old(out[k])
  {
    var dtable := BuildTable();
    var count := CountSymbols(dtable, src);
    if count == 0 || count % 4 != 0 {
      return false, 0;
    }
    var olen := count / 4 * 3;
    if cap < olen {
      return false, 0;
    }
    TableReads(dtable);
    ok, len := DecodeLoop(dtable, Read, src, out, start, count / 4);
  }
}
