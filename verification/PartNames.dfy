/** Names of received part files: how `snprintf` builds them in src/payload/file.c, how `sscanf` takes them
    apart again in src/os.c, and how `strcmp` orders them in src/tcp/src/list.c. */
module PartNames {
  import opened Common

  // ----- Fixed-width numerals

  function Digit(d: nat): char
    requires d < 16
  {
    "0123456789abcdef"[d]
  }

  /** The value of a digit in the given base, or `base` itself for any other character. */
  function DigitValue(c: char, base: nat): (v: nat)
    ensures v <= base
  {
    if '0' <= c <= '9' && c as int - '0' as int < base then c as int - '0' as int
    else if 'a' <= c <= 'f' && c as int - 'a' as int + 10 < base then c as int - 'a' as int + 10
    else base
  }

  predicate IsDigit(c: char, base: nat) {
    DigitValue(c, base) < base
  }

  /** The last `w` digits of `n`. */
  function Digits(n: nat, base: nat, w: nat): (s: string)
    requires base == 10 || base == 16
    ensures |s| == w
  {
    if w == 0 then "" else Digits(n / base, base, w - 1) + [Digit(n % base)]
  }

  /** `w` digits are enough for `n`. */
  predicate Fits(n: nat, base: nat, w: nat)
    requires base == 10 || base == 16
  {
    if w == 0 then n == 0 else Fits(n / base, base, w - 1)
  }

  function Value(s: string, base: nat): nat {
    if s == "" then 0 else base * Value(s[..|s| - 1], base) + DigitValue(s[|s| - 1], base)
  }

  lemma DigitIsDigit(d: nat, base: nat)
    requires base == 10 || base == 16
    requires d < base
    ensures DigitValue(Digit(d), base) == d
  {
  }

  lemma {:induction false} DigitsAreDigits(n: nat, base: nat, w: nat)
    requires base == 10 || base == 16
    ensures forall i :: 0 <= i < w ==> IsDigit(Digits(n, base, w)[i], base)
  {
    if w > 0 {
      DigitsAreDigits(n / base, base, w - 1);
      DigitIsDigit(n % base, base);
    }
  }

  lemma {:induction false} ValueOfDigits(n: nat, base: nat, w: nat)
    requires base == 10 || base == 16
    requires Fits(n, base, w)
    ensures Value(Digits(n, base, w), base) == n
  {
    if w > 0 {
      var s := Digits(n, base, w);
      ValueOfDigits(n / base, base, w - 1);
      assert s[..w - 1] == Digits(n / base, base, w - 1);
      DigitIsDigit(n % base, base);
    }
  }

  // ----- String order

  /** `strcmp(s, t) < 0`. */
  predicate StrLess(s: string, t: string) {
    t != "" && (s == "" || s[0] < t[0] || (s[0] == t[0] && StrLess(s[1..], t[1..])))
  }

  /** Strings that begin alike are ordered as their remainders are. */
  lemma {:induction false} StrLessAfterPrefix(p: string, s: string, t: string)
    ensures StrLess(p + s, p + t) <==> StrLess(s, t)
  {
    if p == "" {
      assert p + s == s && p + t == t;
    } else {
      assert (p + s)[1..] == p[1..] + s && (p + t)[1..] == p[1..] + t;
      StrLessAfterPrefix(p[1..], s, t);
    }
  }

  /** Different beginnings of equal length decide the order. */
  lemma {:induction false} StrLessDecided(a: string, b: string, s: string, t: string)
    requires |a| == |b| && a != b
    ensures StrLess(a + s, b + t) <==> StrLess(a, b)
  {
    assert (a + s)[1..] == a[1..] + s && (b + t)[1..] == b[1..] + t;
    if a[0] == b[0] {
      assert a == [a[0]] + a[1..] && b == [b[0]] + b[1..];
      StrLessDecided(a[1..], b[1..], s, t);
    }
  }

  lemma {:induction false} StrLessTotal(s: string, t: string)
    ensures s == t || StrLess(s, t) || StrLess(t, s)
    ensures !(StrLess(s, t) && StrLess(t, s))
    ensures !StrLess(s, s)
  {
    if s != "" && t != "" {
      StrLessTotal(s[1..], t[1..]);
      assert s == [s[0]] + s[1..] && t == [t[0]] + t[1..];
    }
    if s != "" {
      StrLessTotal(s[1..], s[1..]);
    }
  }

  lemma {:induction false} StrLessTransitive(s: string, t: string, u: string)
    requires StrLess(s, t) && StrLess(t, u)
    ensures StrLess(s, u)
  {
    if s != "" && s[0] == t[0] && t[0] == u[0] {
      StrLessTransitive(s[1..], t[1..], u[1..]);
    }
  }

  lemma DigitOrder(a: nat, b: nat)
    requires a < 16 && b < 16
    ensures Digit(a) < Digit(b) <==> a < b
    ensures Digit(a) == Digit(b) <==> a == b
  {
    DigitIsDigit(a, 16);
    DigitIsDigit(b, 16);
  }

  /** One more character on strings of equal length. */
  lemma StrLessLast(s: string, t: string, x: char, y: char)
    requires |s| == |t|
    ensures s + [x] == t + [y] <==> s == t && x == y
    ensures StrLess(s + [x], t + [y]) <==> StrLess(s, t) || (s == t && x < y)
  {
    assert (s + [x])[..|s|] == s && (t + [y])[..|t|] == t;
    assert (s + [x])[|s|] == x && (t + [y])[|t|] == y;
    StrLessTotal(s, t);
    if s == t {
      StrLessAfterPrefix(s, [x], [y]);
      assert [x][1..] == "" == [y][1..];
    } else {
      StrLessDecided(s, t, [x], [y]);
    }
  }

  lemma LastDigitDecides(m: nat, n: nat, base: nat)
    requires base == 10 || base == 16
    ensures m < n <==> m / base < n / base || (m / base == n / base && m % base < n % base)
    ensures m == n <==> m / base == n / base && m % base == n % base
  {
  }

  /** On numerals of one width the string order is the order of the numbers. */
  lemma {:induction false} DigitsOrder(m: nat, n: nat, base: nat, w: nat)
    requires base == 10 || base == 16
    requires Fits(m, base, w) && Fits(n, base, w)
    ensures Digits(m, base, w) == Digits(n, base, w) <==> m == n
    ensures StrLess(Digits(m, base, w), Digits(n, base, w)) <==> m < n
  {
    if w > 0 {
      DigitsOrder(m / base, n / base, base, w - 1);
      DigitOrder(m % base, n % base);
      StrLessLast(Digits(m / base, base, w - 1), Digits(n / base, base, w - 1), Digit(m % base), Digit(n % base));
      LastDigitDecides(m, n, base);
    }
  }

  // ----- Fields joined by underscores

  datatype Field = Field(value: nat, base: nat, width: nat) {

    predicate Ok() {
      (base == 10 || base == 16) && width > 0 && Fits(value, base, width)
    }

    predicate SameShape(f: Field) { base == f.base && width == f.width }

    function Text(): (s: string)
      requires Ok()
      ensures |s| == width
    {
      Digits(value, base, width)
    }
  }

  ghost predicate AllOk(fs: seq<Field>) {
    forall i :: 0 <= i < |fs| ==> fs[i].Ok()
  }

  ghost predicate SameShapes(fs: seq<Field>, gs: seq<Field>) {
    |fs| == |gs| && forall i :: 0 <= i < |fs| ==> fs[i].SameShape(gs[i])
  }

  function Values(fs: seq<Field>): seq<nat> {
    seq(|fs|, i requires 0 <= i < |fs| => fs[i].value)
  }

  function Bases(fs: seq<Field>): seq<nat> {
    seq(|fs|, i requires 0 <= i < |fs| => fs[i].base)
  }

  function Join(fs: seq<Field>): (s: string)
    requires forall i :: 0 <= i < |fs| ==> fs[i].Ok()
  {
    if fs == [] then ""
    else if |fs| == 1 then fs[0].Text()
    else fs[0].Text() + "_" + Join(fs[1..])
  }

  /** Lexicographic order of number tuples. */
  predicate TupleLess(a: seq<nat>, b: seq<nat>) {
    b != [] && (a == [] || a[0] < b[0] || (a[0] == b[0] && TupleLess(a[1..], b[1..])))
  }

  /** What follows the first field of a joined list and its end. */
  function AfterFirst(fs: seq<Field>, end: string): string
    requires fs != [] && forall i :: 0 <= i < |fs| ==> fs[i].Ok()
  {
    if |fs| == 1 then end else "_" + (Join(fs[1..]) + end)
  }

  lemma JoinFirst(fs: seq<Field>, end: string)
    requires fs != [] && AllOk(fs)
    ensures Join(fs) + end == fs[0].Text() + AfterFirst(fs, end)
  {
    if |fs| > 1 {
      var x, y := fs[0].Text(), Join(fs[1..]);
      assert x + "_" + y + end == x + ("_" + (y + end));
    }
  }

  /** Field lists of one shape are ordered as strings exactly as their numbers are as tuples. */
  lemma {:induction false} JoinOrder(fs: seq<Field>, gs: seq<Field>, end: string)
    requires AllOk(fs) && AllOk(gs) && SameShapes(fs, gs)
    ensures StrLess(Join(fs) + end, Join(gs) + end) <==> TupleLess(Values(fs), Values(gs))
  {
    if fs == [] {
      StrLessTotal(Join(fs) + end, Join(fs) + end);
    } else {
      FirstFieldOrder(fs, gs, end);
      FirstValueOrder(fs, gs);
      if |fs| > 1 {
        JoinOrder(fs[1..], gs[1..], end);
      }
    }
  }

  lemma FirstValueOrder(fs: seq<Field>, gs: seq<Field>)
    requires |fs| == |gs| > 0
    ensures var x, y := fs[0].value, gs[0].value;
            TupleLess(Values(fs), Values(gs))
            <==> x < y || (x == y && |fs| > 1 && TupleLess(Values(fs[1..]), Values(gs[1..])))
  {
    assert Values(fs)[1..] == Values(fs[1..]) && Values(gs)[1..] == Values(gs[1..]);
  }

  lemma FirstFieldOrder(fs: seq<Field>, gs: seq<Field>, end: string)
    requires fs != [] && AllOk(fs) && AllOk(gs) && SameShapes(fs, gs)
    ensures var x, y := fs[0].value, gs[0].value;
            StrLess(Join(fs) + end, Join(gs) + end)
            <==> x < y || (x == y && |fs| > 1 && StrLess(Join(fs[1..]) + end, Join(gs[1..]) + end))
  {
    var f, g := fs[0], gs[0];
    assert f.SameShape(g);
    JoinFirst(fs, end);
    JoinFirst(gs, end);
    DigitsOrder(f.value, g.value, f.base, f.width);
    if f.value == g.value {
      StrLessAfterPrefix(f.Text(), AfterFirst(fs, end), AfterFirst(gs, end));
      if |fs| == 1 {
        StrLessTotal(end, end);
      } else {
        StrLessAfterPrefix("_", Join(fs[1..]) + end, Join(gs[1..]) + end);
      }
    } else {
      StrLessDecided(f.Text(), g.Text(), AfterFirst(fs, end), AfterFirst(gs, end));
    }
  }

  lemma {:induction false} JoinLength(fs: seq<Field>, gs: seq<Field>)
    requires AllOk(fs) && AllOk(gs) && SameShapes(fs, gs)
    ensures |Join(fs)| == |Join(gs)|
  {
    if |fs| > 0 {
      assert fs[0].SameShape(gs[0]);
      if |fs| > 1 {
        JoinLength(fs[1..], gs[1..]);
      }
    }
  }

  lemma {:induction false} JoinSplit(fs: seq<Field>, k: nat)
    requires AllOk(fs) && 0 < k < |fs|
    ensures Join(fs) == Join(fs[..k]) + "_" + Join(fs[k..])
  {
    if k == 1 {
      assert fs[..1] == [fs[0]];
    } else {
      JoinSplit(fs[1..], k - 1);
      assert fs[1..][..k - 1] == fs[..k][1..];
      assert fs[1..][k - 1..] == fs[k..];
    }
  }

  /** A joined list is a prefix of another one of the same shape, continued, only when the numbers agree. */
  lemma JoinPrefix(fs: seq<Field>, gs: seq<Field>, end: string)
    requires AllOk(fs) && AllOk(gs) && SameShapes(fs, gs)
    ensures Join(fs) <= Join(gs) + end <==> Values(fs) == Values(gs)
  {
    JoinLength(fs, gs);
    assert (Join(gs) + end)[..|Join(gs)|] == Join(gs);
    if Values(fs) == Values(gs) {
      assert forall i :: 0 <= i < |fs| ==> fs[i].SameShape(gs[i]) && Values(fs)[i] == Values(gs)[i];
      assert fs == gs;
    } else if Join(fs) == Join(gs) {
      StrLessTotal(Join(fs), Join(fs));
      assert Join(fs) + "" == Join(fs) && Join(gs) + "" == Join(gs);
      JoinOrder(fs, gs, "");
      JoinOrder(gs, fs, "");
      TupleLessTotal(Values(fs), Values(gs));
      assert false;
    }
  }

  lemma {:induction false} TupleLessTotal(a: seq<nat>, b: seq<nat>)
    ensures a == b || TupleLess(a, b) || TupleLess(b, a)
  {
    if a != [] && b != [] {
      TupleLessTotal(a[1..], b[1..]);
      assert a == [a[0]] + a[1..] && b == [b[0]] + b[1..];
    }
  }

  /** The first difference decides the order of tuples. */
  lemma {:induction false} TupleLessAt(a: seq<nat>, b: seq<nat>, k: nat)
    requires k < |a| && k < |b|
    requires a[..k] == b[..k] && a[k] != b[k]
    ensures TupleLess(a, b) <==> a[k] < b[k]
  {
    if k > 0 {
      assert a[0] == a[..k][0] == b[..k][0] == b[0];
      assert a[1..][..k - 1] == a[..k][1..] == b[..k][1..] == b[1..][..k - 1];
      TupleLessAt(a[1..], b[1..], k - 1);
    }
  }

  // ----- Scanning

  function DigitPrefix(s: string, base: nat): (k: nat)
    ensures k <= |s|
  {
    if s == "" || !IsDigit(s[0], base) then 0 else 1 + DigitPrefix(s[1..], base)
  }

  /** One `%d` or `%x` conversion on text that starts with a digit: the number and the remaining text. */
  function ScanNumber(s: string, base: nat): Option<(nat, string)> {
    var k := DigitPrefix(s, base);
    if k == 0 then None else Some((Value(s[..k], base), s[k..]))
  }

  /** Conversions separated by underscores; `None` when fewer than `|bases|` of them succeed. */
  function Scan(s: string, bases: seq<nat>): Option<seq<nat>> {
    if bases == [] then Some([])
    else match ScanNumber(s, bases[0])
      case None => None
      case Some((v, rest)) =>
        if |bases| == 1 then Some([v])
        else if rest == "" || rest[0] != '_' then None
        else match Scan(rest[1..], bases[1..])
          case None => None
          case Some(vs) => Some([v] + vs)
  }

  lemma {:induction false} DigitPrefixStops(s: string, rest: string, base: nat)
    requires forall i :: 0 <= i < |s| ==> IsDigit(s[i], base)
    requires rest == "" || !IsDigit(rest[0], base)
    ensures DigitPrefix(s + rest, base) == |s|
  {
    if s == "" {
      assert s + rest == rest;
    } else {
      assert (s + rest)[1..] == s[1..] + rest;
      DigitPrefixStops(s[1..], rest, base);
    }
  }

  lemma ScanNumberOfText(f: Field, rest: string)
    requires f.Ok()
    requires rest == "" || !IsDigit(rest[0], f.base)
    ensures ScanNumber(f.Text() + rest, f.base) == Some((f.value, rest))
  {
    DigitsAreDigits(f.value, f.base, f.width);
    DigitPrefixStops(f.Text(), rest, f.base);
    ValueOfDigits(f.value, f.base, f.width);
    assert (f.Text() + rest)[..f.width] == f.Text() && (f.Text() + rest)[f.width..] == rest;
  }

  /** Scanning undoes joining. */
  lemma {:induction false} ScanJoin(fs: seq<Field>, rest: string)
    requires AllOk(fs)
    requires rest == "" || !IsDigit(rest[0], 16)
    ensures Scan(Join(fs) + rest, Bases(fs)) == Some(Values(fs))
  {
    if fs == [] {
      assert Values(fs) == [];
    } else if |fs| == 1 {
      ScanSingle(fs[0], rest);
      assert fs == [fs[0]];
    } else {
      ScanJoin(fs[1..], rest);
      JoinFirst(fs, rest);
      FirstOfFields(fs);
      ScanFirst(Join(fs) + rest, fs[0], Join(fs[1..]) + rest, Bases(fs), Values(fs[1..]));
    }
  }

  lemma ScanSingle(f: Field, rest: string)
    requires f.Ok() && (rest == "" || !IsDigit(rest[0], 16))
    ensures Scan(Join([f]) + rest, Bases([f])) == Some(Values([f]))
  {
    ScanNumberOfText(f, rest);
    assert Values([f]) == [f.value];
  }

  lemma FirstOfFields(fs: seq<Field>)
    requires fs != []
    ensures Bases(fs) == [fs[0].base] + Bases(fs[1..]) && Values(fs) == [fs[0].value] + Values(fs[1..])
    ensures Bases(fs)[1..] == Bases(fs[1..])
  {
  }

  /** If what follows the first field can be scanned, so can the whole. */
  lemma ScanFirst(s: string, f: Field, next: string, bases: seq<nat>, vs: seq<nat>)
    requires f.Ok() && s == f.Text() + ("_" + next)
    requires |bases| > 1 && bases[0] == f.base && Scan(next, bases[1..]) == Some(vs)
    ensures Scan(s, bases) == Some([f.value] + vs)
  {
    ScanNumberOfText(f, "_" + next);
    ScanCons(s, bases, f.value, next, vs);
  }

  /** The first number is scanned, and the rest after the underscore that follows it. */
  lemma ScanCons(s: string, bases: seq<nat>, v: nat, next: string, vs: seq<nat>)
    requires |bases| > 1 && ScanNumber(s, bases[0]) == Some((v, "_" + next)) && Scan(next, bases[1..]) == Some(vs)
    ensures Scan(s, bases) == Some([v] + vs)
  {
    assert ("_" + next)[1..] == next;
  }

  /** Scanning only the first `k` fields. */
  lemma ScanSome(fs: seq<Field>, k: nat, end: string)
    requires AllOk(fs) && 0 < k < |fs|
    ensures Scan(Join(fs) + end, Bases(fs[..k])) == Some(Values(fs[..k]))
  {
    JoinSplit(fs, k);
    var rest := "_" + Join(fs[k..]) + end;
    assert Join(fs) + end == Join(fs[..k]) + rest;
    ScanJoin(fs[..k], rest);
  }

  lemma JoinPrefixOfName(fs: seq<Field>, gs: seq<Field>, k: nat, end: string)
    requires AllOk(fs) && AllOk(gs) && SameShapes(fs, gs) && 0 < k < |fs|
    ensures Join(fs[..k]) <= Join(gs) + end <==> Values(fs[..k]) == Values(gs[..k])
  {
    JoinSplit(gs, k);
    var rest := ("_" + Join(gs[k..])) + end;
    Associative(Join(gs[..k]), "_", Join(gs[k..]));
    Associative(Join(gs[..k]), "_" + Join(gs[k..]), end);
    JoinPrefix(fs[..k], gs[..k], rest);
  }

  // ----- Part file names

  /** The six numbers in a part file's name. */
  datatype Part = Part(host: nat, port: nat, tidx: nat, gidx: nat, pidx: nat, parts: nat) {

    /** A 32-bit address, a 16-bit port and indices that are non-negative as C `int`s. */
    predicate InRange() {
      && host < UINT_MOD && port < 0x1_0000
      && tidx < INT_LIMIT && gidx < INT_LIMIT && pidx < INT_LIMIT && parts < INT_LIMIT
    }

    /** Conversions `%08x_%05d_%010d_%010d_%010d_%010d`. */
    function Fields(): seq<Field> {
      [Field(host, 16, 8), Field(port, 10, 5), Field(tidx, 10, 10),
       Field(gidx, 10, 10), Field(pidx, 10, 10), Field(parts, 10, 10)]
    }
  }

  lemma FieldsOk(p: Part)
    requires p.InRange()
    ensures AllOk(p.Fields())
  {
    Fits8(p.host);
    Fits5(p.port);
    Fits10(p.tidx);
    Fits10(p.gidx);
    Fits10(p.pidx);
    Fits10(p.parts);
  }

  lemma Fits8(n: nat)
    requires n < UINT_MOD
    ensures Fits(n, 16, 8)
  {
    var n4 := n / 16 / 16 / 16 / 16;
    assert Fits(n4, 16, 4) by {
      assert Fits(n4 / 16 / 16, 16, 2);
    }
    assert Fits(n / 16 / 16, 16, 6);
  }

  lemma Fits5(n: nat)
    requires n < 0x1_0000
    ensures Fits(n, 10, 5)
  {
    assert Fits(n / 10 / 10 / 10, 10, 2);
  }

  lemma Fits10(n: nat)
    requires n < INT_LIMIT
    ensures Fits(n, 10, 10)
  {
    var n3 := n / 10 / 10 / 10;
    var n6 := n3 / 10 / 10 / 10;
    assert Fits(n6, 10, 4) by {
      assert Fits(n6 / 10 / 10, 10, 2);
    }
    assert Fits(n3, 10, 7) by {
      assert Fits(n3 / 10, 10, 6);
    }
    assert Fits(n / 10, 10, 9);
  }

  function PartName(p: Part): string
    requires p.InRange()
  {
    FieldsOk(p);
    Join(p.Fields()) + ".part"
  }

  /** The beginning `%08x_%05d_%010d_%010d` that `partexists` looks for. */
  function PartPrefix(p: Part): string
    requires p.InRange()
  {
    FieldsOk(p);
    Join(p.Fields()[..4])
  }

  const PART_BASES: seq<nat> := [16, 10, 10, 10, 10, 10]

  function ScanPart(s: string): Option<Part> {
    match Scan(s, PART_BASES)
    case None => None
    case Some(vs) => if |vs| == 6 then Some(Part(vs[0], vs[1], vs[2], vs[3], vs[4], vs[5])) else None
  }

  /** Address and task of the sender, `%x_%d_%d`, as `filejoin` reads them off a directory entry. */
  function ScanTask(s: string): Option<seq<nat>> {
    Scan(s, [16, 10, 10])
  }

  /** `sscanf` recovers the numbers that `snprintf` wrote. */
  lemma ScanPartName(p: Part)
    requires p.InRange()
    ensures ScanPart(PartName(p)) == Some(p)
    ensures ScanTask(PartName(p)) == Some([p.host, p.port, p.tidx])
  {
    FieldsOk(p);
    var fs := p.Fields();
    ScanJoin(fs, ".part");
    ScanSome(fs, 3, ".part");
    FieldLists(p);
  }

  lemma FieldLists(p: Part)
    ensures var fs := p.Fields();
            && Bases(fs) == PART_BASES
            && Values(fs) == [p.host, p.port, p.tidx, p.gidx, p.pidx, p.parts]
            && Bases(fs[..3]) == [16, 10, 10]
            && Values(fs[..3]) == [p.host, p.port, p.tidx]
            && Values(fs[..4]) == [p.host, p.port, p.tidx, p.gidx]
  {
  }

  /** Directory order of part names is the lexicographic order of their numbers. */
  lemma PartNameOrder(p: Part, q: Part)
    requires p.InRange() && q.InRange()
    ensures StrLess(PartName(p), PartName(q)) <==> TupleLess(Values(p.Fields()), Values(q.Fields()))
  {
    FieldsOk(p);
    FieldsOk(q);
    JoinOrder(p.Fields(), q.Fields(), ".part");
  }

  /** Within one task, names sort as the group indices do: in the order of sending. */
  lemma PartNameSendOrder(p: Part, q: Part)
    requires p.InRange() && q.InRange()
    requires p.host == q.host && p.port == q.port && p.tidx == q.tidx
    requires p.gidx != q.gidx
    ensures StrLess(PartName(p), PartName(q)) <==> p.gidx < q.gidx
  {
    PartNameOrder(p, q);
    FieldLists(p);
    FieldLists(q);
    TupleLessAt(Values(p.Fields()), Values(q.Fields()), 3);
  }

  /** `partexists` answers for exactly the names with the same address, task and group. */
  lemma PartPrefixMatches(p: Part, q: Part)
    requires p.InRange() && q.InRange()
    ensures PartPrefix(p) <= PartName(q)
       <==> (p.host == q.host && p.port == q.port && p.tidx == q.tidx && p.gidx == q.gidx)
  {
    FieldsOk(p);
    FieldsOk(q);
    JoinPrefixOfName(p.Fields(), q.Fields(), 4, ".part");
    FieldLists(p);
    FieldLists(q);
  }

  // ----- Beyond the sign bit

  /** `%010d` applied to an `unsigned int`: from 2^31 on the argument is taken as a negative number. */
  function Padded(v: nat): string
    requires v < UINT_MOD
  {
    if v < INT_LIMIT then Digits(v, 10, 10)
    else var m := UINT_MOD - v; "-" + Digits(m, 10, if m < 1_000_000_000 then 9 else 10)
  }

  /** Below 2^31 the padded numerals sort as the numbers; a numeral from 2^31 on sorts before all of them,
      so a file whose group indices pass 2^31 would be joined in the wrong order. */
  lemma PaddedOrder(a: nat, b: nat)
    requires a < INT_LIMIT && b < UINT_MOD
    ensures b < INT_LIMIT ==> (StrLess(Padded(a), Padded(b)) <==> a < b)
    ensures b >= INT_LIMIT ==> StrLess(Padded(b), Padded(a)) && a < b
  {
    if b < INT_LIMIT {
      Fits10(a);
      Fits10(b);
      DigitsOrder(a, b, 10, 10);
    } else {
      DigitsAreDigits(a, 10, 10);
      assert IsDigit(Padded(a)[0], 10);
    }
  }

  lemma FitsMagnitude(n: nat)
    requires n <= INT_LIMIT
    ensures Fits(n, 10, if n < 1_000_000_000 then 9 else 10)
  {
    var n3 := n / 10 / 10 / 10;
    var n6 := n3 / 10 / 10 / 10;
    if n < 1_000_000_000 {
      assert Fits(n6, 10, 3) by {
        assert Fits(n6 / 10, 10, 2);
      }
      assert Fits(n3, 10, 6) by {
        assert Fits(n3 / 10, 10, 5);
      }
      assert Fits(n / 10, 10, 8);
    } else {
      assert Fits(n6, 10, 4) by {
        assert Fits(n6 / 10 / 10, 10, 2);
      }
      assert Fits(n3, 10, 7) by {
        assert Fits(n3 / 10, 10, 6);
      }
      assert Fits(n / 10, 10, 9);
    }
  }

  /** From 2^31 on the text is the negative number with the same 32 bits, and at least ten characters wide. */
  lemma PaddedReads(v: nat)
    requires INT_LIMIT <= v < UINT_MOD
    ensures Padded(v)[0] == '-' && Value(Padded(v)[1..], 10) == UINT_MOD - v
    ensures |Padded(v)| == if UINT_MOD - v < 1_000_000_000 then 10 else 11
  {
    var m := UINT_MOD - v;
    var w := if m < 1_000_000_000 then 9 else 10;
    FitsMagnitude(m);
    ValueOfDigits(m, 10, w);
    assert ("-" + Digits(m, 10, w))[1..] == Digits(m, 10, w);
  }
}
