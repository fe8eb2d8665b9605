/** Base64 with line feeds, after section 5.2 of RFC 1341 (src/base64.c). */
module Base64 {
  import opened Common

  const PAD: byte := 61
  const NEWLINE: byte := 10
  const LINE: nat := 72

  /** The modulus of the C type `size_t`. */
  const SIZE_MOD: nat := 0x1_0000_0000_0000_0000

  type sextet = v: int | 0 <= v < 64

  /** The encoding table: A-Z, a-z, 0-9, + and /. */
  function Symbol(v: sextet): byte {
    if v < 26 then 65 + v else if v < 52 then 71 + v else if v < 62 then v - 4 else if v == 62 then 43 else 47
  }

  /** The decoding table: 128 for characters that are skipped, 0 for the pad character. */
  function Value(c: byte): (v: nat)
    ensures v < 64 || v == 128
  {
    if 65 <= c <= 90 then c - 65
    else if 97 <= c <= 122 then c - 71
    else if 48 <= c <= 57 then c + 4
    else if c == 43 then 62
    else if c == 47 then 63
    else if c == PAD then 0
    else 128
  }

  lemma ValueOfSymbol(v: sextet)
    ensures Value(Symbol(v)) == v && Symbol(v) != PAD
  {
  }

  // ----- Encoding

  type quad = q: seq<byte> | |q| == 4 witness [0, 0, 0, 0]

  function ByteAt(src: seq<byte>, i: nat): byte {
    if i < |src| then src[i] else 0
  }

  /** Sextet `i` of the first three bytes, missing bytes being 0. */
  function Sextet(src: seq<byte>, i: nat): sextet
    requires i < 4
  {
    var a, b, c := ByteAt(src, 0), ByteAt(src, 1), ByteAt(src, 2);
    if i == 0 then a / 4 else if i == 1 then a % 4 * 16 + b / 16 else if i == 2 then b % 16 * 4 + c / 64 else c % 64
  }

  /** Character `i` for the first three bytes, or for the last one or two. */
  function Character(src: seq<byte>, i: nat): byte
    requires i < 4
  {
    if i > |src| then PAD else Symbol(Sextet(src, i))
  }

  function Quad(src: seq<byte>): quad
    requires src != []
  {
    seq(4, i requires 0 <= i < 4 => Character(src, i))
  }

  function Quads(src: seq<byte>): (quads: seq<quad>)
    ensures 3 * |quads| <= |src| + 2
  {
    if src == [] then [] else [Quad(src)] + Quads(src[Min(3, |src|)..])
  }

  /** The characters without line feeds. */
  function Symbols(quads: seq<quad>): (s: seq<byte>)
    ensures |s| == 4 * |quads|
  {
    if quads == [] then [] else quads[0] + Symbols(quads[1..])
  }

  /** A line feed after every 72 characters and at the end of the last line. */
  function Wrap(s: seq<byte>): seq<byte> {
    if s == [] then []
    else if |s| <= LINE then s + [NEWLINE]
    else s[..LINE] + [NEWLINE] + Wrap(s[LINE..])
  }

  function Encoded(src: seq<byte>): seq<byte> {
    Wrap(Symbols(Quads(src)))
  }

  /** What the encoder still writes when `line` characters of the current line are filled. */
  function Lines(quads: seq<quad>, line: nat): seq<byte> {
    if quads == [] then
      if line > 0 then [NEWLINE] else []
    else if line + 4 >= LINE then quads[0] + [NEWLINE] + Lines(quads[1..], 0)
    else quads[0] + Lines(quads[1..], line + 4)
  }

  lemma WrapFullLine(line: seq<byte>, s: seq<byte>)
    requires |line| == LINE
    ensures Wrap(line + s) == line + [NEWLINE] + Wrap(s)
  {
    if s == [] {
      assert line + s == line;
    } else {
      assert (line + s)[..LINE] == line && (line + s)[LINE..] == s;
    }
  }

  lemma LinesEnd(begun: seq<byte>)
    requires |begun| < LINE
    ensures begun + Lines([], |begun|) == Wrap(begun + [])
  {
    assert begun + [] == begun;
  }

  lemma LinesUnfinished(begun: seq<byte>, quads: seq<quad>)
    requires quads != [] && |begun| + 4 < LINE
    ensures begun + Lines(quads, |begun|) == (begun + quads[0]) + Lines(quads[1..], |begun| + 4)
    ensures begun + Symbols(quads) == (begun + quads[0]) + Symbols(quads[1..])
  {
    Associative(begun, quads[0], Lines(quads[1..], |begun| + 4));
    Associative(begun, quads[0], Symbols(quads[1..]));
  }

  lemma LinesFinished(begun: seq<byte>, quads: seq<quad>)
    requires quads != [] && |begun| + 4 == LINE
    ensures begun + Lines(quads, |begun|) == (begun + quads[0]) + [NEWLINE] + Lines(quads[1..], 0)
    ensures begun + Symbols(quads) == (begun + quads[0]) + Symbols(quads[1..])
  {
    Associative(begun, quads[0] + [NEWLINE], Lines(quads[1..], 0));
    Associative(begun, quads[0], [NEWLINE]);
    Associative(begun, quads[0], Symbols(quads[1..]));
  }

  /** The encoder's running line count puts the line feeds where wrapping the whole text would. */
  lemma {:induction false} LinesWrap(begun: seq<byte>, quads: seq<quad>)
    requires |begun| % 4 == 0 && |begun| < LINE
    ensures begun + Lines(quads, |begun|) == Wrap(begun + Symbols(quads))
    decreases |quads|, 0
  {
    if quads == [] {
      LinesEnd(begun);
    } else if |begun| + 4 < LINE {
      LinesUnfinished(begun, quads);
      LinesWrap(begun + quads[0], quads[1..]);
    } else {
      LinesFinished(begun, quads);
      LinesWrapNew(quads[1..]);
      WrapFullLine(begun + quads[0], Symbols(quads[1..]));
    }
  }

  lemma {:induction false} LinesWrapNew(quads: seq<quad>)
    ensures Lines(quads, 0) == Wrap(Symbols(quads))
    decreases |quads|, 1
  {
    LinesWrap([], quads);
    EmptyLeft(Lines(quads, 0));
    EmptyLeft(Symbols(quads));
  }

  /** At most one line feed per 72 characters, and one more. */
  lemma {:induction false} LinesLength(quads: seq<quad>, line: nat)
    requires line % 4 == 0 && line < LINE
    ensures LINE * (|Lines(quads, line)| - 4 * |quads|) < line + 4 * |quads| + LINE
    decreases |quads|
  {
    if quads != [] {
      LinesLength(quads[1..], if line + 4 >= LINE then 0 else line + 4);
    }
  }

  /** The buffer size computed before encoding, in `size_t` arithmetic. */
  function BufferSize(len: nat): nat {
    var chars := (len * 4) % SIZE_MOD / 3 + 4;
    (chars + chars / LINE + 1) % SIZE_MOD
  }

  lemma BufferSizeSmall(len: nat)
    requires len < SIZE_MOD / 4
    ensures BufferSize(len) == (len * 4 / 3 + 4) + (len * 4 / 3 + 4) / LINE + 1
  {
    assert (len * 4) % SIZE_MOD == len * 4;
    var chars := len * 4 / 3 + 4;
    assert (chars + chars / LINE + 1) % SIZE_MOD == chars + chars / LINE + 1;
  }

  lemma BufferSizeLarge(len: nat)
    requires SIZE_MOD / 4 <= len < SIZE_MOD
    ensures BufferSize(len) < len
  {
    var chars := (len * 4) % SIZE_MOD / 3 + 4;
    assert chars + chars / LINE + 1 < SIZE_MOD / 2;
    if len < SIZE_MOD / 2 {
      assert (len * 4) % SIZE_MOD == len * 4 - SIZE_MOD;
    }
  }

  /** The overflow check refuses exactly the lengths for which `len * 4` wraps around. */
  lemma RefusedLengths(len: nat)
    requires len < SIZE_MOD
    ensures BufferSize(len) < len <==> len >= SIZE_MOD / 4
  {
    if len < SIZE_MOD / 4 {
      BufferSizeSmall(len);
    } else {
      BufferSizeLarge(len);
    }
  }

  /** The buffer holds all characters, line feeds and the terminator. */
  lemma BufferSuffices(src: seq<byte>)
    requires |src| < SIZE_MOD / 4
    ensures |Lines(Quads(src), 0)| < BufferSize(|src|)
  {
    BufferSizeSmall(|src|);
    LinesLength(Quads(src), 0);
    var n, chars := 4 * |Quads(src)|, |src| * 4 / 3 + 4;
    assert n < chars;
  }

  /** One round of the encoder: what is written and what remains make up the same text. */
  lemma QuadWritten(written: seq<byte>, src: seq<byte>, line: nat)
    requires src != []
    ensures var rest := Quads(src[Min(3, |src|)..]);
            written + Lines(Quads(src), line)
            == if line + 4 >= LINE then written + Quad(src) + [NEWLINE] + Lines(rest, 0)
               else written + Quad(src) + Lines(rest, line + 4)
  {
    var quads, rest := Quads(src), Quads(src[Min(3, |src|)..]);
    assert quads[0] == Quad(src) && quads[1..] == rest;
    Associative(written, Quad(src) + [NEWLINE], Lines(rest, 0));
    Associative(written, Quad(src), [NEWLINE]);
    Associative(written, Quad(src), Lines(rest, line + 4));
  }

  method WriteQuad(out: array<byte>, pos: nat, q: quad)
    requires pos + 4 <= out.Length
    modifies out
    ensures out[..pos + 4] == old(out[..pos]) + q
  {
    out[pos], out[pos + 1], out[pos + 2], out[pos + 3] := q[0], q[1], q[2], q[3];
  }

  method WriteNewline(out: array<byte>, pos: nat)
    requires pos < out.Length
    modifies out
    ensures out[..pos + 1] == old(out[..pos]) + [NEWLINE]
  {
    out[pos] := NEWLINE;
  }

  lemma LastQuad(src: seq<byte>, line: nat)
    requires 0 < |src| < 3
    ensures Lines(Quads(src), line) == Quad(src) + [NEWLINE]
  {
    QuadWritten([], src, line);
    assert src[Min(3, |src|)..] == [];
    EmptyLeft(Lines(Quads(src), line));
    EmptyLeft(Quad(src));
  }

  /** The last one or two bytes and the last line feed. */
  method WriteTail(out: array<byte>, start: nat, src: seq<byte>, line: nat) returns (pos: nat)
    requires |src| < 3 && start + |Lines(Quads(src), line)| < out.Length
    modifies out
    ensures pos < out.Length && out[..pos] == old(out[..start]) + Lines(Quads(src), line)
  {
    pos := start;
    if src != [] {
      LastQuad(src, line);
      WriteQuad(out, pos, Quad(src));
      pos := pos + 4;
    }
    if line > 0 || src != [] {
      WriteNewline(out, pos);
      pos := pos + 1;
    }
  }

  /** Three bytes, and the line feed when the line is full. */
  method WriteGroup(out: array<byte>, start: nat, src: seq<byte>, line: nat) returns (pos: nat, line': nat)
    requires |src| >= 3 && line < LINE && start + |Lines(Quads(src), line)| < out.Length
    modifies out
    ensures start <= pos <= out.Length && line' < LINE
    ensures out[..pos] + Lines(Quads(src[3..]), line') == old(out[..start]) + Lines(Quads(src), line)
  {
    QuadWritten(out[..start], src, line);
    WriteQuad(out, start, Quad(src));
    pos, line' := start + 4, line + 4;
    if line' >= LINE {
      WriteNewline(out, pos);
      pos, line' := pos + 1, 0;
    }
  }

  method EncodeInto(src: seq<byte>, out: array<byte>) returns (pos: nat)
    requires |Lines(Quads(src), 0)| < out.Length
    modifies out
    ensures pos < out.Length && out[..pos] == Lines(Quads(src), 0) && out[pos] == 0
  {
    ghost var text := Lines(Quads(src), 0);
    pos := 0;
    var i, line := 0, 0;
    assert src[0..] == src;
    while |src| - i >= 3
      invariant 0 <= i <= |src| && pos <= out.Length && 0 <= line < LINE
      invariant text == out[..pos] + Lines(Quads(src[i..]), line)
    {
      assert src[i..][3..] == src[i + 3..];
      pos, line := WriteGroup(out, pos, src[i..], line);
      i := i + 3;
    }
    pos := WriteTail(out, pos, src[i..], line);
    out[pos] := 0;
  }

  method Encode(src: seq<byte>) returns (r: Option<seq<byte>>)
    requires |src| < SIZE_MOD
    ensures r == if |src| >= SIZE_MOD / 4 then None else Some(Encoded(src))
  {
    RefusedLengths(|src|);
    var olen := BufferSize(|src|);
    if olen < |src| {
      return None;
    }
    var out := new byte[olen];
    BufferSuffices(src);
    LinesWrapNew(Quads(src));
    var pos := EncodeInto(src, out);
    r := Some(out[..pos]);
  }

  /** Line feeds stand after every 72 characters and at the end, and nowhere else. */
  lemma {:induction false} WrapNewlines(s: seq<byte>, j: nat)
    requires NEWLINE !in s && j < |Wrap(s)|
    ensures Wrap(s)[j] == NEWLINE <==> j % (LINE + 1) == LINE || j == |Wrap(s)| - 1
    decreases |s|
  {
    if |s| > LINE {
      var rest := Wrap(s[LINE..]);
      assert Wrap(s) == s[..LINE] + [NEWLINE] + rest && rest != [];
      if j > LINE {
        assert Wrap(s)[j] == rest[j - LINE - 1];
        WrapNewlines(s[LINE..], j - LINE - 1);
      }
    }
  }

  // ----- Decoding

  predicate IsSignificant(c: byte) {
    Value(c) != 128
  }

  /** The sextet of a character that is not skipped. */
  function Code(c: byte): sextet {
    if IsSignificant(c) then Value(c) else 0
  }

  /** The characters that are not skipped. */
  function Significant(s: seq<byte>): seq<byte> {
    if s == [] then []
    else if IsSignificant(s[0]) then [s[0]] + Significant(s[1..])
    else Significant(s[1..])
  }

  function Pads(s: seq<byte>): nat {
    if s == [] then 0 else Pads(s[..|s| - 1]) + if s[|s| - 1] == PAD then 1 else 0
  }

  /** Byte `i` of the three that four sextets hold. */
  function ByteOf(a: sextet, b: sextet, c: sextet, d: sextet, i: nat): byte {
    if i == 0 then a * 4 + b / 16 else if i == 1 then b % 16 * 16 + c / 4 else c % 4 * 64 + d
  }

  function Bytes(q: quad): seq<byte> {
    seq(3, i requires 0 <= i < 3 => ByteOf(Code(q[0]), Code(q[1]), Code(q[2]), Code(q[3]), i))
  }

  function Prepend(s: seq<byte>, r: Option<seq<byte>>): Option<seq<byte>> {
    if r.None? then None else Some(s + r.value)
  }

  function Fours(f: seq<byte>): seq<quad>
    requires |f| % 4 == 0
  {
    if f == [] then [] else [f[..4]] + Fours(f[4..])
  }

  /** The meaning of the significant characters, up to the first four with a pad character. */
  function Blocks(quads: seq<quad>): Option<seq<byte>> {
    if quads == [] then Some([])
    else
      var pads := Pads(quads[0]);
      if pads == 0 then Prepend(Bytes(quads[0]), Blocks(quads[1..]))
      else if pads <= 2 then Some(Bytes(quads[0])[..3 - pads])
      else None
  }

  function Decoded(s: seq<byte>): Option<seq<byte>> {
    var f := Significant(s);
    if |f| == 0 || |f| % 4 != 0 then None else Blocks(Fours(f))
  }

  method CountSignificant(src: seq<byte>) returns (count: nat)
    ensures count == |Significant(src)|
  {
    count := 0;
    assert src[0..] == src;
    for i := 0 to |src|
      invariant count + |Significant(src[i..])| == |Significant(src)|
    {
      assert src[i..][1..] == src[i + 1..];
      if Value(src[i]) != 128 {
        count := count + 1;
      }
    }
  }

  lemma FoursCons(cur: quad, rest: seq<byte>)
    requires |rest| % 4 == 0
    ensures Fours(cur + rest) == [cur] + Fours(rest)
  {
    var f := cur + rest;
    assert f[..4] == cur && f[4..] == rest;
  }

  /** What is still to come after the decoder has `cur` in its block. */
  ghost predicate Remaining(result: Option<seq<byte>>, written: seq<byte>, cur: seq<byte>, src: seq<byte>) {
    var f := cur + Significant(src);
    |f| % 4 == 0 && result == Prepend(written, Blocks(Fours(f)))
  }

  lemma CharacterSkipped(result: Option<seq<byte>>, written: seq<byte>, cur: seq<byte>, src: seq<byte>)
    requires src != [] && Remaining(result, written, cur, src)
    ensures !IsSignificant(src[0]) ==> Remaining(result, written, cur, src[1..])
    ensures IsSignificant(src[0]) ==> Remaining(result, written, cur + [src[0]], src[1..])
  {
    if IsSignificant(src[0]) {
      assert cur + Significant(src) == cur + [src[0]] + Significant(src[1..]);
    }
  }

  lemma PrependTwice(s: seq<byte>, t: seq<byte>, r: Option<seq<byte>>)
    ensures Prepend(s, Prepend(t, r)) == Prepend(s + t, r)
    ensures Prepend([], r) == r
  {
    if r.Some? {
      assert s + (t + r.value) == (s + t) + r.value;
      assert [] + r.value == r.value;
    }
  }

  lemma PrefixAppended(s: seq<byte>, t: seq<byte>, n: nat)
    requires n <= |t|
    ensures s + t[..n] == (s + t)[..|s| + n]
  {
  }

  lemma BlockWritten(result: Option<seq<byte>>, written: seq<byte>, cur: quad, src: seq<byte>)
    requires Remaining(result, written, cur, src)
    ensures Pads(cur) == 0 ==> Remaining(result, written + Bytes(cur), [], src)
    ensures Pads(cur) in {1, 2} ==> result == Some((written + Bytes(cur))[..|written| + 3 - Pads(cur)])
    ensures Pads(cur) > 2 ==> result == None
  {
    var rest := Significant(src);
    FoursCons(cur, rest);
    EmptyLeft(rest);
    var quads := [cur] + Fours(rest);
    assert quads[0] == cur && quads[1..] == Fours(rest);
    if Pads(cur) == 0 {
      PrependTwice(written, Bytes(cur), Blocks(Fours(rest)));
    } else if Pads(cur) <= 2 {
      PrefixAppended(written, Bytes(cur), 3 - Pads(cur));
    }
  }

  lemma NothingRemains(result: Option<seq<byte>>, written: seq<byte>, cur: seq<byte>)
    requires |cur| < 4 && Remaining(result, written, cur, [])
    ensures result == Some(written)
  {
    assert cur + Significant([]) == cur;
    assert cur == [];
    assert written + [] == written;
  }

  ghost predicate HasValues(values: seq<byte>, chars: seq<byte>) {
    |values| == |chars| && forall k :: 0 <= k < |chars| ==> values[k] == Code(chars[k])
  }

  method WriteTriple(out: array<byte>, pos: nat, block: array<byte>, ghost cur: quad)
    requires block.Length == 4 && pos + 3 <= out.Length && out != block && HasValues(block[..], cur)
    modifies out
    ensures out[..pos + 3] == old(out[..pos]) + Bytes(cur)
  {
    out[pos] := block[0] * 4 + block[1] / 16;
    out[pos + 1] := block[1] % 16 * 16 + block[2] / 4;
    out[pos + 2] := block[2] % 4 * 64 + block[3];
  }

  /** What is written, without the bytes that the last block's pad characters stand for. */
  method WithoutPadding(out: array<byte>, pos: nat, pad: nat) returns (r: Option<seq<byte>>)
    requires 3 <= pos <= out.Length && pad > 0
    ensures r == if pad <= 2 then Some(out[..pos][..pos - pad]) else None
  {
    assert forall n :: 0 <= n <= pos ==> out[..pos][..n] == out[..n];
    if pad == 1 {
      r := Some(out[..pos - 1]);
    } else if pad == 2 {
      r := Some(out[..pos - 2]);
    } else {
      r := None;
    }
  }

  /** The end of a block: with pad characters in it, the end of decoding. */
  method FinishBlock(out: array<byte>, pos: nat, block: array<byte>, pad: nat,
                     ghost cur: quad, ghost rest: seq<byte>, ghost result: Option<seq<byte>>)
    returns (r: Option<seq<byte>>)
    requires block.Length == 4 && pos + 3 <= out.Length && out != block
    requires HasValues(block[..], cur) && pad == Pads(cur) && Remaining(result, out[..pos], cur, rest)
    modifies out
    ensures pad > 0 ==> r == result
    ensures pad == 0 ==> Remaining(result, out[..pos + 3], [], rest)
  {
    r := None;
    BlockWritten(result, out[..pos], cur, rest);
    WriteTriple(out, pos, block, cur);
    if pad > 0 {
      r := WithoutPadding(out, pos + 3, pad);
    }
  }

  method DecodeInto(src: seq<byte>, out: array<byte>, ghost result: Option<seq<byte>>) returns (r: Option<seq<byte>>)
    requires Remaining(result, [], [], src) && 4 * out.Length == 3 * |Significant(src)|
    modifies out
    ensures r == result
  {
    var block := new byte[4];
    ghost var cur: seq<byte> := [];
    var pos, pad, count, i := 0, 0, 0, 0;
    assert src[0..] == src;
    while i < |src|
      invariant 0 <= i <= |src| && |cur| == count < 4 && pad == Pads(cur) && pos <= out.Length
      invariant HasValues(block[..count], cur)
      invariant Remaining(result, out[..pos], cur, src[i..])
      invariant 4 * (out.Length - pos) == 3 * (count + |Significant(src[i..])|)
    {
      var c := src[i];
      CharacterSkipped(result, out[..pos], cur, src[i..]);
      assert src[i..][1..] == src[i + 1..];
      i := i + 1;
      if Value(c) != 128 {
        if c == PAD {
          pad := pad + 1;
        }
        block[count] := Value(c);
        cur, count := cur + [c], count + 1;
        if count == 4 {
          r := FinishBlock(out, pos, block, pad, cur, src[i..], result);
          if pad > 0 {
            return;
          }
          pos, count, cur := pos + 3, 0, [];
        }
      }
    }
    NothingRemains(result, out[..pos], cur);
    r := Some(out[..pos]);
  }

  method Decode(src: seq<byte>) returns (r: Option<seq<byte>>)
    ensures r == Decoded(src)
  {
    var count := CountSignificant(src);
    if count == 0 || count % 4 != 0 {
      return None;
    }
    var out := new byte[count / 4 * 3];
    assert Remaining(Decoded(src), [], [], src) by {
      assert [] + Significant(src) == Significant(src);
      PrependTwice([], [], Decoded(src));
    }
    r := DecodeInto(src, out, Decoded(src));
  }

  // ----- Round trip

  predicate AllSignificant(s: seq<byte>) {
    forall i :: 0 <= i < |s| ==> IsSignificant(s[i])
  }

  lemma {:induction false} SignificantConcat(s: seq<byte>, t: seq<byte>)
    ensures Significant(s + t) == Significant(s) + Significant(t)
  {
    if s == [] {
      assert s + t == t;
    } else {
      assert (s + t)[1..] == s[1..] + t;
      SignificantConcat(s[1..], t);
    }
  }

  lemma {:induction false} SignificantAll(s: seq<byte>)
    requires AllSignificant(s)
    ensures Significant(s) == s
  {
    if s != [] {
      SignificantAll(s[1..]);
    }
  }

  lemma {:induction false} SignificantNone(s: seq<byte>)
    requires forall i :: 0 <= i < |s| ==> !IsSignificant(s[i])
    ensures Significant(s) == []
  {
    if s != [] {
      SignificantNone(s[1..]);
    }
  }

  /** Characters outside the alphabet do not change the meaning, wherever they stand. */
  lemma SkippedCharacters(s: seq<byte>, junk: seq<byte>, t: seq<byte>)
    requires forall i :: 0 <= i < |junk| ==> !IsSignificant(junk[i])
    ensures Decoded(s + junk + t) == Decoded(s + t)
  {
    SignificantConcat(s + junk, t);
    SignificantConcat(s, junk);
    SignificantConcat(s, t);
    SignificantNone(junk);
    assert Significant(s + junk + t) == Significant(s + t);
  }

  lemma {:induction false} SignificantWrap(s: seq<byte>)
    requires AllSignificant(s)
    ensures Significant(Wrap(s)) == s
  {
    if s != [] {
      var line := s[..Min(LINE, |s|)];
      var rest := s[|line|..];
      assert Wrap(s) == line + [NEWLINE] + Wrap(rest);
      SignificantConcat(line + [NEWLINE], Wrap(rest));
      SignificantConcat(line, [NEWLINE]);
      SignificantAll(line);
      SignificantWrap(rest);
    }
  }

  lemma PadsOfQuad(q: quad)
    ensures Pads(q) == (if q[0] == PAD then 1 else 0) + (if q[1] == PAD then 1 else 0)
                     + (if q[2] == PAD then 1 else 0) + (if q[3] == PAD then 1 else 0)
  {
    assert q[..3][..2] == q[..2] && q[..2][..1] == q[..1] && q[..1][..0] == [];
    assert Pads(q[..1]) == if q[0] == PAD then 1 else 0;
    assert Pads(q[..2]) == Pads(q[..1]) + if q[1] == PAD then 1 else 0;
    assert Pads(q[..3]) == Pads(q[..2]) + if q[2] == PAD then 1 else 0;
  }

  lemma CharacterHolds(src: seq<byte>, i: nat)
    requires src != [] && i < 4
    ensures IsSignificant(Quad(src)[i]) && Code(Quad(src)[i]) == Sextet(src, i)
    ensures Quad(src)[i] == PAD <==> i > |src|
  {
    ValueOfSymbol(Sextet(src, i));
  }

  lemma ThreeBytes(a: byte, b: byte, c: byte)
    ensures ByteOf(a / 4, a % 4 * 16 + b / 16, b % 16 * 4 + c / 64, c % 64, 0) == a
    ensures ByteOf(a / 4, a % 4 * 16 + b / 16, b % 16 * 4 + c / 64, c % 64, 1) == b
    ensures ByteOf(a / 4, a % 4 * 16 + b / 16, b % 16 * 4 + c / 64, c % 64, 2) == c
  {
  }

  lemma ByteOfSextets(src: seq<byte>, i: nat)
    requires i < 3
    ensures ByteOf(Sextet(src, 0), Sextet(src, 1), Sextet(src, 2), Sextet(src, 3), i) == ByteAt(src, i)
  {
    ThreeBytes(ByteAt(src, 0), ByteAt(src, 1), ByteAt(src, 2));
  }

  lemma QuadHolds(src: seq<byte>, i: nat)
    requires src != [] && i < 3
    ensures Bytes(Quad(src))[i] == ByteAt(src, i)
  {
    forall j | 0 <= j < 4 ensures Code(Quad(src)[j]) == Sextet(src, j) {
      CharacterHolds(src, j);
    }
    ByteOfSextets(src, i);
  }

  /** One group of up to three bytes survives encoding and decoding. */
  lemma QuadRoundTrip(src: seq<byte>)
    requires src != []
    ensures Pads(Quad(src)) == 3 - Min(3, |src|)
    ensures Bytes(Quad(src))[..Min(3, |src|)] == src[..Min(3, |src|)]
  {
    forall j | 0 <= j < 4 ensures Quad(src)[j] == PAD <==> j > |src| {
      CharacterHolds(src, j);
    }
    PadsOfQuad(Quad(src));
    forall i | 0 <= i < 3 ensures Bytes(Quad(src))[i] == ByteAt(src, i) {
      QuadHolds(src, i);
    }
  }

  lemma BlockRoundTrip(src: seq<byte>, quads: seq<quad>)
    requires quads != [] && src != [] && quads[0] == Quad(src)
    requires Blocks(quads[1..]) == Some(src[Min(3, |src|)..])
    ensures Blocks(quads) == Some(src)
  {
    var n, q := Min(3, |src|), Quad(src);
    QuadRoundTrip(src);
    assert src[..n] + src[n..] == src;
    if n == 3 {
      assert Bytes(q)[..3] == Bytes(q);
    } else {
      assert src[..n] == src;
    }
  }

  lemma {:induction false} BlocksRoundTrip(src: seq<byte>)
    ensures Blocks(Quads(src)) == Some(src)
    decreases |src|
  {
    if src != [] {
      var rest := src[Min(3, |src|)..];
      BlocksRoundTrip(rest);
      assert Quads(src)[1..] == Quads(rest);
      BlockRoundTrip(src, Quads(src));
    }
  }

  lemma {:induction false} FoursOfSymbols(quads: seq<quad>)
    ensures Fours(Symbols(quads)) == quads
  {
    if quads != [] {
      FoursOfSymbols(quads[1..]);
      FoursCons(quads[0], Symbols(quads[1..]));
    }
  }

  lemma SymbolsOfQuads(src: seq<byte>)
    requires src != []
    ensures Symbols(Quads(src)) == Quad(src) + Symbols(Quads(src[Min(3, |src|)..]))
  {
    assert Quads(src)[0] == Quad(src) && Quads(src)[1..] == Quads(src[Min(3, |src|)..]);
  }

  lemma {:induction false} SymbolsAreSignificant(src: seq<byte>)
    ensures AllSignificant(Symbols(Quads(src)))
    decreases |src|
  {
    if src != [] {
      SymbolsOfQuads(src);
      SymbolsAreSignificant(src[Min(3, |src|)..]);
      forall j | 0 <= j < 4 ensures IsSignificant(Quad(src)[j]) {
        CharacterHolds(src, j);
      }
    }
  }

  lemma EncodedNewlines(src: seq<byte>, j: nat)
    requires j < |Encoded(src)|
    ensures Encoded(src)[j] == NEWLINE <==> j % (LINE + 1) == LINE || j == |Encoded(src)| - 1
  {
    SymbolsAreSignificant(src);
    assert !IsSignificant(NEWLINE);
    WrapNewlines(Symbols(Quads(src)), j);
  }

  /** No line of the encoder's text is longer than 72 characters, and the last one is ended, too: a stretch
      of more than 72 characters, or one up to the end, has a line feed in it. */
  lemma EncodedLines(src: seq<byte>, a: nat, b: nat)
    requires a <= b <= |Encoded(src)|
    ensures b - a > LINE || a < b == |Encoded(src)| ==> NEWLINE in Encoded(src)[a..b]
  {
    var text := Encoded(src);
    if b - a > LINE {
      var j := a + LINE - a % (LINE + 1);
      assert j % (LINE + 1) == LINE;
      EncodedNewlines(src, j);
      assert text[a..b][j - a] == text[j];
    } else if a < b == |text| {
      EncodedNewlines(src, b - 1);
      assert text[a..b][b - 1 - a] == text[b - 1];
    }
  }

  lemma DecodedWrap(quads: seq<quad>)
    requires AllSignificant(Symbols(quads))
    ensures Decoded(Wrap(Symbols(quads))) == if quads == [] then None else Blocks(quads)
  {
    SignificantWrap(Symbols(quads));
    FoursOfSymbols(quads);
  }

  /** Decoding gives back every byte string but the empty one, whose text is refused. */
  lemma RoundTrip(src: seq<byte>)
    ensures Decoded(Encoded(src)) == if src == [] then None else Some(src)
  {
    BlocksRoundTrip(src);
    SymbolsAreSignificant(src);
    DecodedWrap(Quads(src));
  }
}
