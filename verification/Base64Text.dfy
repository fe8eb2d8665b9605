/** What the characters of base64 text are, by position: the table of section 4 of RFC 4648, the padding, and which
    texts are decoded to which bytes (src/base64.c). */
module Base64Text {
  import opened Common
  import opened Base64

  /** `c` is the character number `v` of A-Z, a-z, 0-9, + and /. */
  predicate StandsFor(c: byte, v: nat) {
    || (v < 26 && c == 'A' as int + v)
    || (26 <= v < 52 && c == 'a' as int + v - 26)
    || (52 <= v < 62 && c == '0' as int + v - 52)
    || (v == 62 && c == '+' as int)
    || (v == 63 && c == '/' as int)
  }

  lemma TableStandsFor(v: sextet)
    ensures StandsFor(Symbol(v), v)
  {
  }

  /** The decoder takes exactly the characters of the table and the equals sign, and skips all others. */
  lemma SignificantExactly(c: byte)
    ensures IsSignificant(c) <==> (exists v :: StandsFor(c, v)) || c == '=' as int
    ensures IsSignificant(c) && c != '=' as int ==> StandsFor(c, Code(c))
    ensures c == '=' as int <==> c == PAD
  {
    if IsSignificant(c) && c != PAD {
      assert StandsFor(c, Value(c));
    }
  }

  // ----- Encoding

  /** Six bits number `j` of a number of 24 bits. */
  function SixBits(n: nat, j: nat): nat {
    if j == 0 then n / 262144 else if j == 1 then n / 4096 % 64 else if j == 2 then n / 64 % 64 else n % 64
  }

  /** Byte number `i` of a number of 24 bits. */
  function ByteIn(n: nat, i: nat): nat {
    if i == 0 then n / 65536 else if i == 1 then n / 256 % 256 else n % 256
  }

  /** The three bytes from place `i` on as one number, missing bytes being 0. */
  function Three(src: seq<byte>, i: nat): nat {
    ByteAt(src, i) * 65536 + ByteAt(src, i + 1) * 256 + ByteAt(src, i + 2)
  }

  lemma QuotientIs(n: int, d: int, q: int, rest: int)
    requires d > 0 && n == q * d + rest && 0 <= rest < d
    ensures n / d == q && n % d == rest
  {
    var k := n / d - q;
    assert n == n / d * d + n % d;
    assert k * d == n / d * d - q * d == rest - n % d;
    Multiple(k, d);
    Multiple(-k, d);
    assert -k * d == -(k * d);
  }

  lemma Multiple(k: int, d: int)
    requires d > 0
    ensures k > 0 ==> k * d >= d
  {
  }

  lemma SixBitsOfBytes(a: int, b: int, c: int)
    requires 0 <= a < 256 && 0 <= b < 256 && 0 <= c < 256
    ensures var n := a * 65536 + b * 256 + c;
            && SixBits(n, 0) == a / 4 && SixBits(n, 1) == a % 4 * 16 + b / 16
            && SixBits(n, 2) == b % 16 * 4 + c / 64 && SixBits(n, 3) == c % 64
  {
    var n, a1, a2, b1, b2 := a * 65536 + b * 256 + c, a / 4, a % 4, b / 16, b % 16;
    var c1, c2 := c / 64, c % 64;
    QuotientIs(n, 262144, a1, a2 * 65536 + b * 256 + c);
    QuotientIs(n, 4096, a1 * 64 + (a2 * 16 + b1), b2 * 256 + c);
    QuotientIs(a1 * 64 + (a2 * 16 + b1), 64, a1, a2 * 16 + b1);
    QuotientIs(n, 64, (a1 * 64 + a2 * 16 + b1) * 64 + (b2 * 4 + c1), c2);
    QuotientIs((a1 * 64 + a2 * 16 + b1) * 64 + (b2 * 4 + c1), 64, a1 * 64 + a2 * 16 + b1, b2 * 4 + c1);
  }

  lemma SextetOfThree(src: seq<byte>, j: nat)
    requires j < 4
    ensures Sextet(src, j) == SixBits(Three(src, 0), j)
  {
    SixBitsOfBytes(ByteAt(src, 0), ByteAt(src, 1), ByteAt(src, 2));
  }

  /** Character `m` of the text without line feeds: for the group of three bytes that it belongs to, the next six bits,
      or the equals sign where no byte is left. */
  ghost predicate CharacterOk(src: seq<byte>, s: seq<byte>, m: nat)
    requires m < |s|
  {
    var k, j := m / 4, m % 4;
    if 3 * k + j > |src| then s[m] == '=' as int else StandsFor(s[m], SixBits(Three(src, 3 * k), j))
  }

  lemma FirstCharacters(src: seq<byte>, j: nat)
    requires src != [] && j < 4
    ensures if j > |src| then Quad(src)[j] == '=' as int
            else StandsFor(Quad(src)[j], SixBits(Three(src, 0), j))
  {
    SextetOfThree(src, j);
    TableStandsFor(Sextet(src, j));
  }

  /** Every character of the encoder's text, for every byte string. */
  lemma {:induction false} TextByPosition(src: seq<byte>, m: nat)
    ensures |Symbols(Quads(src))| == (|src| + 2) / 3 * 4
    ensures m < |Symbols(Quads(src))| ==> CharacterOk(src, Symbols(Quads(src)), m)
    decreases |src|
  {
    if src != [] {
      var rest := src[Min(3, |src|)..];
      SymbolsOfQuads(src);
      assert (|src| + 2) / 3 == (|rest| + 2) / 3 + 1;
      if m < 4 {
        TextByPosition(rest, 0);
        FirstCharacters(src, m);
      } else {
        TextByPosition(rest, m - 4);
        if m < |Symbols(Quads(src))| {
          LaterCharacters(src, Symbols(Quads(rest)), m);
        }
      }
    }
  }

  lemma LaterCharacters(src: seq<byte>, s: seq<byte>, m: nat)
    requires |src| >= 3 && 4 <= m < 4 + |s| && CharacterOk(src[3..], s, m - 4)
    ensures CharacterOk(src, Quad(src) + s, m)
  {
    var k := m / 4 - 1;
    assert (m - 4) / 4 == k && (m - 4) % 4 == m % 4;
    assert (Quad(src) + s)[m] == s[m - 4];
    assert Three(src, 3 * (k + 1)) == Three(src[3..], 3 * k);
  }

  // ----- Decoding

  /** How many groups of four come before the first one with an equals sign. */
  function Unpadded(f: seq<byte>): (n: nat)
    ensures 4 * n <= |f|
  {
    if |f| < 4 || Pads(f[..4]) > 0 then 0 else 1 + Unpadded(f[4..])
  }

  /** The value of the group of four characters from place `i` on. */
  function Four(f: seq<byte>, i: nat): nat
    requires i + 4 <= |f|
  {
    Code(f[i]) * 262144 + Code(f[i + 1]) * 4096 + Code(f[i + 2]) * 64 + Code(f[i + 3])
  }

  lemma BytesOfSextets(a: int, b: int, c: int, d: int)
    requires 0 <= a < 64 && 0 <= b < 64 && 0 <= c < 64 && 0 <= d < 64
    ensures var n := a * 262144 + b * 4096 + c * 64 + d;
            && ByteIn(n, 0) == a * 4 + b / 16 && ByteIn(n, 1) == b % 16 * 16 + c / 4 && ByteIn(n, 2) == c % 4 * 64 + d
  {
    var n, b1, b2, c1, c2 := a * 262144 + b * 4096 + c * 64 + d, b / 16, b % 16, c / 4, c % 4;
    QuotientIs(n, 65536, a * 4 + b1, b2 * 4096 + c * 64 + d);
    QuotientIs(n, 256, (a * 4 + b1) * 256 + (b2 * 16 + c1), c2 * 64 + d);
    QuotientIs((a * 4 + b1) * 256 + (b2 * 16 + c1), 256, a * 4 + b1, b2 * 16 + c1);
  }

  lemma ByteOfFour(f: seq<byte>, i: nat)
    requires |f| >= 4 && i < 3
    ensures Bytes(f[..4])[i] == ByteIn(Four(f, 0), i)
  {
    BytesOfSextets(Code(f[0]), Code(f[1]), Code(f[2]), Code(f[3]));
    assert f[..4][0] == f[0] && f[..4][1] == f[1] && f[..4][2] == f[2] && f[..4][3] == f[3];
  }

  /** What the significant characters `f` are decoded to. */
  ghost predicate DecodedAs(f: seq<byte>, r: Option<seq<byte>>) {
    var n := Unpadded(f);
    var pads := if 4 * n + 4 <= |f| then Pads(f[4 * n..4 * n + 4]) else 0;
    && (r.None? <==> pads > 2)
    && (r.Some? ==>
          && |r.value| == (if pads > 0 then 3 * n + 3 - pads else 3 * n)
          && forall i :: 0 <= i < |r.value| ==> ByteOk(f, r.value, i))
  }

  ghost predicate ByteOk(f: seq<byte>, r: seq<byte>, i: nat)
    requires i < |r|
  {
    i / 3 * 4 + 4 <= |f| && r[i] == ByteIn(Four(f, i / 3 * 4), i % 3)
  }

  lemma {:induction false} BlocksDecode(f: seq<byte>)
    requires |f| % 4 == 0
    ensures DecodedAs(f, Blocks(Fours(f)))
    decreases |f|
  {
    if f != [] {
      var q, rest := f[..4], f[4..];
      assert Fours(f)[0] == q && Fours(f)[1..] == Fours(rest);
      if Pads(q) == 0 {
        BlocksDecode(rest);
        FurtherBlocks(f, Blocks(Fours(rest)));
      } else {
        LastBlock(f);
      }
    }
  }

  lemma LastBlock(f: seq<byte>)
    requires |f| >= 4 && Pads(f[..4]) > 0
    ensures var q := f[..4]; DecodedAs(f, if Pads(q) <= 2 then Some(Bytes(q)[..3 - Pads(q)]) else None)
  {
    var q := f[..4];
    assert f[0..4] == q;
    forall i | 0 <= i < 3 ensures Bytes(q)[i] == ByteIn(Four(f, 0), i) {
      ByteOfFour(f, i);
    }
  }

  lemma FurtherBlocks(f: seq<byte>, r: Option<seq<byte>>)
    requires |f| >= 4 && |f| % 4 == 0 && Pads(f[..4]) == 0 && DecodedAs(f[4..], r)
    ensures DecodedAs(f, Prepend(Bytes(f[..4]), r))
  {
    var rest, n := f[4..], Unpadded(f[4..]);
    if 4 * n + 4 <= |rest| {
      assert rest[4 * n..4 * n + 4] == f[4 * (n + 1)..4 * (n + 1) + 4];
    }
    if r.Some? {
      var all := Bytes(f[..4]) + r.value;
      forall i | 0 <= i < |all| ensures ByteOk(f, all, i) {
        if i < 3 {
          ByteOfFour(f, i);
        } else {
          LaterByte(f, r.value, i);
        }
      }
    }
  }

  lemma LaterByte(f: seq<byte>, r: seq<byte>, i: nat)
    requires |f| >= 4 && 3 <= i < 3 + |r| && ByteOk(f[4..], r, i - 3)
    ensures ByteOk(f, Bytes(f[..4]) + r, i)
  {
    var k := (i - 3) / 3;
    assert i / 3 == k + 1 && i % 3 == (i - 3) % 3;
    assert (Bytes(f[..4]) + r)[i] == r[i - 3];
    assert Four(f[4..], k * 4) == Four(f, (k + 1) * 4);
  }

  /** Decoding, for every text: it fails exactly if the number of significant characters is 0 or not divisible by four,
      or if the first group with an equals sign has more than two; otherwise every byte is the next eight bits. */
  lemma DecodesByPosition(s: seq<byte>)
    ensures var f := Significant(s);
            if |f| == 0 || |f| % 4 != 0 then Decoded(s).None? else DecodedAs(f, Decoded(s))
  {
    if |Significant(s)| % 4 == 0 {
      BlocksDecode(Significant(s));
    }
  }
}
