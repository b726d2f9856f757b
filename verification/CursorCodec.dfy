/** The text form of a position in the following feed.

    A post is stored in Redis as a fixed-width string, twenty characters of microseconds, a colon
    and twenty characters of id, and is handed to clients as the unpadded base64url form of that
    string.  Strings are modelled as sequences of bytes.
 */
module CursorCodec {
  import opened Ranking

  type Byte = b: int | 0 <= b < 256
  type Text = seq<Byte>

  datatype Result<+T> = Ok(value: T) | InvalidCursor

  const WIDTH: nat := 20
  const COLON: Byte := 58
  const MINUS: Byte := 45
  const PLUS: Byte := 43
  const MAX_INT64: int := 0x7FFF_FFFF_FFFF_FFFF
  const MAX_UINT: nat := 0xFFFF_FFFF_FFFF_FFFF
  /** The last microsecond of the year 9999. */
  const MAX_MICROS: int := 253402300799999999
  const MAX_CURSOR_TEXT: nat := 128

  // ---------------------------------------------------------------- fixed-width members

  /** n in decimal, zero padded to `width` digits. */
  function Digits(n: nat, width: nat): (s: Text)
    ensures |s| == width
    ensures forall i :: 0 <= i < |s| ==> 48 <= s[i] < 58
  {
    if width == 0 then [] else Digits(n / 10, width - 1) + [48 + n % 10]
  }

  /** The sign takes one of the twenty places of a negative number. */
  function Signed(n: int): (s: Text)
    ensures |s| == WIDTH
  {
    if n < 0 then [MINUS] + Digits(-n, WIDTH - 1) else Padded(n)
  }

  function Padded(n: nat): (s: Text)
    ensures |s| == WIDTH
    ensures forall i :: 0 <= i < |s| ==> 48 <= s[i] < 58
  {
    Digits(n, WIDTH)
  }

  function Member(k: Key): (s: Text)
    ensures |s| == 41
  {
    Signed(k.major) + [COLON] + Padded(k.id)
  }

  /** What the database can hold: a positive microsecond time up to the year 9999, a real id. */
  predicate IsPost(k: Key) {
    0 < k.major <= MAX_MICROS && k.minor == 0 && 0 < k.id <= MAX_UINT
  }

  function ParseDigits(s: Text): Option<nat> {
    if s == [] then Some(0)
    else
      var last := s[|s| - 1];
      if !(48 <= last < 58) then None
      else match ParseDigits(s[..|s| - 1])
        case None => None
        case Some(n) => Some(10 * n + (last - 48))
  }

  function ParseInt(s: Text): Option<int> {
    if s == [] then None
    else
      var signed := s[0] == PLUS || s[0] == MINUS;
      var body := if signed then s[1..] else s;
      if body == [] then None
      else match ParseDigits(body)
        case None => None
        case Some(n) =>
          var value: int := if s[0] == MINUS then -(n as int) else n;
          if -MAX_INT64 - 1 <= value <= MAX_INT64 then Some(value) else None
  }

  function ParseUint(s: Text): Option<nat> {
    if s == [] then None
    else match ParseDigits(s)
      case None => None
      case Some(n) => if n <= MAX_UINT then Some(n) else None
  }

  /** The fields between colons; there is always at least one. */
  function Split(s: Text): (parts: seq<Text>)
    ensures |parts| >= 1
  {
    if s == [] then [[]]
    else
      var rest := Split(s[1..]);
      if s[0] == COLON then [[]] + rest else [[s[0]] + rest[0]] + rest[1..]
  }

  function ParseMember(s: Text): Result<Key> {
    var parts := Split(s);
    if |parts| != 2 || |parts[0]| != WIDTH || |parts[1]| != WIDTH then InvalidCursor
    else
      match (ParseInt(parts[0]), ParseUint(parts[1]))
      case (Some(micros), Some(id)) =>
        if micros <= 0 || micros > MAX_MICROS || id == 0 then InvalidCursor
        else
          var k := Key(micros, 0, id);
          if Member(k) != s then InvalidCursor else Ok(k)
      case _ => InvalidCursor
  }

  function Pow10(n: nat): (p: nat)
    ensures p > 0
  {
    if n == 0 then 1 else 10 * Pow10(n - 1)
  }

  lemma Pow10Of20()
    ensures Pow10(WIDTH) == 100_000_000_000_000_000_000
  {
    assert Pow10(4) == 10_000;
    assert Pow10(8) == 10_000 * Pow10(4) by { assert Pow10(6) == 1_000_000; }
    assert Pow10(10) == 10_000_000_000;
    assert Pow10(12) == 1_000_000_000_000;
    assert Pow10(14) == 100_000_000_000_000;
    assert Pow10(16) == 10_000_000_000_000_000;
    assert Pow10(18) == 1_000_000_000_000_000_000;
  }

  /** Printing and reading back loses nothing that fits the width. */
  lemma {:induction false} DigitsRoundTrip(n: nat, width: nat)
    requires n < Pow10(width)
    ensures ParseDigits(Digits(n, width)) == Some(n)
  {
    if width > 0 {
      DigitsRoundTrip(n / 10, width - 1);
      ParseLast(Digits(n / 10, width - 1), n / 10, 48 + n % 10);
    }
  }

  lemma ParseLast(s: Text, m: nat, c: Byte)
    requires ParseDigits(s) == Some(m) && 48 <= c < 58
    ensures ParseDigits(s + [c]) == Some(10 * m + (c - 48))
  {
    var longer := s + [c];
    assert longer[..|longer| - 1] == s && longer[|longer| - 1] == c;
  }

  lemma SplitPlain(s: Text)
    requires forall i :: 0 <= i < |s| ==> s[i] != COLON
    ensures Split(s) == [s]
  {
    if s != [] {
      SplitPlain(s[1..]);
      assert s == [s[0]] + s[1..];
    }
  }

  lemma {:induction false} SplitAtColon(a: Text, b: Text)
    requires forall i :: 0 <= i < |a| ==> a[i] != COLON
    requires forall i :: 0 <= i < |b| ==> b[i] != COLON
    ensures Split(a + [COLON] + b) == [a, b]
  {
    var s := a + [COLON] + b;
    if a == [] {
      assert s[1..] == b;
      SplitPlain(b);
    } else {
      SplitAtColon(a[1..], b);
      assert s[1..] == a[1..] + [COLON] + b;
      assert a == [a[0]] + a[1..];
    }
  }

  lemma PaddedRoundTrip(n: nat)
    requires n < 100_000_000_000_000_000_000
    ensures ParseDigits(Padded(n)) == Some(n)
  {
    Pow10Of20();
    DigitsRoundTrip(n, WIDTH);
  }

  /** Every real post's member string parses back to that post. */
  lemma MemberParses(k: Key)
    requires IsPost(k)
    ensures ParseMember(Member(k)) == Ok(k)
  {
    var x, y := Padded(k.major), Padded(k.id);
    PaddedRoundTrip(k.major);
    PaddedRoundTrip(k.id);
    SplitAtColon(x, y);
    assert Split(Member(k)) == [x, y];
    assert ParseInt(x) == Some(k.major);
    assert ParseUint(y) == Some(k.id);
  }

  /** parseMember accepts a string exactly when it is the member of a real post: a sign, a
      missing zero, an over-long number or a second colon is refused. */
  lemma ParseIsExact(s: Text, k: Key)
    ensures ParseMember(s) == Ok(k) <==> IsPost(k) && s == Member(k)
  {
    if IsPost(k) && s == Member(k) {
      MemberParses(k);
    }
  }

  lemma Ordered(d: nat, a: int, b: int)
    ensures a <= b ==> d * a <= d * b
  {
    if a <= b {
      assert d * (b - a) >= 0;
      assert d * b == d * a + d * (b - a);
    }
  }

  lemma QuotientIs(n: nat, d: nat, q: nat, r: nat)
    requires r < d && n == d * q + r
    ensures n / d == q
  {
    var e := n / d;
    assert n == d * e + n % d;
    assert d * (e + 1) == d * e + d && d * (q + 1) == d * q + d;
    Ordered(d, e + 1, q);
    Ordered(d, q + 1, e);
  }

  lemma TenThenMore(n: nat, p: nat)
    requires p > 0
    ensures n / (10 * p) == n / 10 / p
  {
    var tens, q := n / 10, n / 10 / p;
    assert tens == p * q + tens % p;
    assert 10 * (p * q) == 10 * p * q;
    QuotientIs(n, 10 * p, q, 10 * (tens % p) + n % 10);
  }

  lemma {:induction false} DigitAt(n: nat, width: nat, i: nat)
    requires i < width
    ensures Digits(n, width)[i] == 48 + n / Pow10(width - 1 - i) % 10
  {
    if i < width - 1 {
      DigitAt(n / 10, width - 1, i);
      TenThenMore(n, Pow10(width - 2 - i));
    }
  }

  /** The text of a member: twenty decimal digits of the time, a colon, twenty of the id. */
  lemma MemberIsDecimal(k: Key, i: nat)
    requires IsPost(k) && i < 20
    ensures Member(k)[i] == 48 + k.major / Pow10(19 - i) % 10
    ensures Member(k)[20] == ':' as int
    ensures Member(k)[21 + i] == 48 + k.id / Pow10(19 - i) % 10
  {
    DigitAt(k.major, 20, i);
    DigitAt(k.id, 20, i);
  }

  // ---------------------------------------------------------------- lexical order

  /** memcmp order, the order of equal-score members of a Redis sorted set. */
  predicate LexLess(a: Text, b: Text) {
    b != [] && (a == [] || a[0] < b[0] || (a[0] == b[0] && LexLess(a[1..], b[1..])))
  }

  lemma {:induction false} LexConcat(x: Text, y: Text, u: Text, v: Text)
    requires |x| == |y|
    ensures LexLess(x + u, y + v) <==> LexLess(x, y) || (x == y && LexLess(u, v))
  {
    if x == [] {
      assert x + u == u && y + v == v;
    } else {
      assert (x + u)[1..] == x[1..] + u && (y + v)[1..] == y[1..] + v;
      LexConcat(x[1..], y[1..], u, v);
      assert x == [x[0]] + x[1..] && y == [y[0]] + y[1..];
    }
  }

  lemma {:induction false} DigitsOrder(m: nat, n: nat, width: nat)
    requires m < Pow10(width) && n < Pow10(width)
    ensures LexLess(Digits(m, width), Digits(n, width)) <==> m < n
    ensures Digits(m, width) == Digits(n, width) <==> m == n
  {
    if width > 0 {
      DigitsOrder(m / 10, n / 10, width - 1);
      var x, y := Digits(m / 10, width - 1), Digits(n / 10, width - 1);
      LexConcat(x, y, [48 + m % 10], [48 + n % 10]);
      if Digits(m, width) == Digits(n, width) {
        assert x == Digits(m, width)[..width - 1] && y == Digits(n, width)[..width - 1];
        assert Digits(m, width)[width - 1] == Digits(n, width)[width - 1];
      }
    }
  }

  lemma LexFields(x: Text, y: Text, u: Text, v: Text)
    requires |x| == |y|
    ensures LexLess(x + ([COLON] + u), y + ([COLON] + v)) <==> LexLess(x, y) || (x == y && LexLess(u, v))
  {
    LexConcat([COLON], [COLON], u, v);
    LexConcat(x, y, [COLON] + u, [COLON] + v);
  }

  lemma MemberInjective(a: Key, b: Key)
    requires IsPost(a) && IsPost(b)
    ensures Member(a) == Member(b) <==> a == b
  {
    MemberParses(a);
    MemberParses(b);
  }

  lemma PaddedOrder(m: nat, n: nat)
    requires m < 100_000_000_000_000_000_000 && n < 100_000_000_000_000_000_000
    ensures LexLess(Padded(m), Padded(n)) <==> m < n
    ensures Padded(m) == Padded(n) <==> m == n
  {
    Pow10Of20();
    DigitsOrder(m, n, WIDTH);
  }

  /** Lexical order of member strings is exactly the (create_time, id) order of the feed, so a
      sorted set of equal scores needs no floating-point packing. */
  lemma MemberOrder(a: Key, b: Key)
    requires IsPost(a) && IsPost(b)
    ensures LexLess(Member(a), Member(b)) <==> Ahead(b, a)
    ensures Member(a) == Member(b) <==> a == b
  {
    PaddedOrder(a.major, b.major);
    PaddedOrder(a.id, b.id);
    var x, y := Padded(a.major), Padded(b.major);
    var u, v := Padded(a.id), Padded(b.id);
    LexFields(x, y, u, v);
    assert Member(a) == x + [COLON] + u == x + ([COLON] + u);
    assert Member(b) == y + [COLON] + v == y + ([COLON] + v);
    MemberInjective(a, b);
  }

  // ---------------------------------------------------------------- unpadded base64url

  type Sextet = n: int | 0 <= n < 64

  /** The URL-safe alphabet of RFC 4648 section 5. */
  function Letter(n: Sextet): Byte {
    if n < 26 then 65 + n
    else if n < 52 then 71 + n
    else if n < 62 then n - 4
    else if n == 62 then 45
    else 95
  }

  function Value(c: Byte): Option<Sextet> {
    if 65 <= c <= 90 then Some(c - 65)
    else if 97 <= c <= 122 then Some(c - 71)
    else if 48 <= c <= 57 then Some(c + 4)
    else if c == 45 then Some(62)
    else if c == 95 then Some(63)
    else None
  }

  lemma LetterValue(n: Sextet)
    ensures Value(Letter(n)) == Some(n)
  {
  }

  predicate IsNewline(c: Byte) {
    c == 10 || c == 13
  }

  // The four sextets of three bytes, and the three bytes of four sextets.
  function Bits1(p: Byte): Sextet { p / 4 }
  function Bits2(p: Byte, q: Byte): Sextet { (p % 4) * 16 + q / 16 }
  function Bits3(q: Byte, r: Byte): Sextet { (q % 16) * 4 + r / 64 }
  function Bits4(r: Byte): Sextet { r % 64 }
  function Byte1(x: Sextet, y: Sextet): Byte { x * 4 + y / 16 }
  function Byte2(y: Sextet, z: Sextet): Byte { (y % 16) * 16 + z / 4 }
  function Byte3(z: Sextet, t: Sextet): Byte { (z % 4) * 64 + t }

  /** Three bytes become four sextets; a shorter last group is not padded (section 3.2 of RFC 4648). */
  function Sextets(b: Text): (x: seq<Sextet>)
    ensures |x| == (4 * |b| + 2) / 3
  {
    if |b| < 3 then LastSextets(b)
    else [Bits1(b[0]), Bits2(b[0], b[1]), Bits3(b[1], b[2]), Bits4(b[2])] + Sextets(b[3..])
  }

  function LastSextets(b: Text): seq<Sextet>
    requires |b| < 3
  {
    if |b| == 0 then []
    else if |b| == 1 then [Bits1(b[0]), Bits2(b[0], 0)]
    else [Bits1(b[0]), Bits2(b[0], b[1]), Bits3(b[1], 0)]
  }

  function Bytes(x: seq<Sextet>): Option<Text> {
    if |x| < 4 then LastBytes(x)
    else match Bytes(x[4..])
      case None => None
      case Some(rest) => Some([Byte1(x[0], x[1]), Byte2(x[1], x[2]), Byte3(x[2], x[3])] + rest)
  }

  /** A last group of one sextet is an error; the unused low bits of a last group of two or three
      are not looked at. */
  function LastBytes(x: seq<Sextet>): Option<Text>
    requires |x| < 4
  {
    if |x| == 0 then Some([])
    else if |x| == 1 then None
    else if |x| == 2 then Some([Byte1(x[0], x[1])])
    else Some([Byte1(x[0], x[1]), Byte2(x[1], x[2])])
  }

  lemma Join4(q: nat, r: nat)
    requires r < 4
    ensures (q * 4 + r) / 4 == q && (q * 4 + r) % 4 == r
  {
  }

  lemma Join16(q: nat, r: nat)
    requires r < 16
    ensures (q * 16 + r) / 16 == q && (q * 16 + r) % 16 == r
  {
  }

  lemma Join64(q: nat, r: nat)
    requires r < 64
    ensures (q * 64 + r) / 64 == q && (q * 64 + r) % 64 == r
  {
  }

  lemma BytesOfBits(p: Byte, q: Byte, r: Byte)
    ensures Byte1(Bits1(p), Bits2(p, q)) == p
    ensures Byte2(Bits2(p, q), Bits3(q, r)) == q
    ensures Byte3(Bits3(q, r), Bits4(r)) == r
  {
    Join16(p % 4, q / 16);
    Join4(q % 16, r / 64);
  }

  lemma BitsOfBytes(x: Sextet, y: Sextet, z: Sextet, t: Sextet)
    ensures Bits1(Byte1(x, y)) == x
    ensures Bits2(Byte1(x, y), Byte2(y, z)) == y
    ensures Bits3(Byte2(y, z), Byte3(z, t)) == z
    ensures Bits4(Byte3(z, t)) == t
    ensures Bits2(Byte1(x, y), 0) == (y / 16) * 16
    ensures Bits3(Byte2(y, z), 0) == (z / 4) * 4
  {
    Join4(x, y / 16);
    Join16(y % 16, z / 4);
    Join64(z % 4, t);
  }

  lemma {:induction false} SextetsRoundTrip(b: Text)
    ensures Bytes(Sextets(b)) == Some(b)
  {
    if |b| >= 3 {
      SextetsRoundTrip(b[3..]);
      BytesOfBits(b[0], b[1], b[2]);
      BytesCons(Bits1(b[0]), Bits2(b[0], b[1]), Bits3(b[1], b[2]), Bits4(b[2]), Sextets(b[3..]), b[3..]);
      assert b == [b[0], b[1], b[2]] + b[3..];
    } else {
      LastRoundTrip(b);
    }
  }

  lemma BytesCons(x: Sextet, y: Sextet, z: Sextet, t: Sextet, rest: seq<Sextet>, tail: Text)
    requires Bytes(rest) == Some(tail)
    ensures Bytes([x, y, z, t] + rest) == Some([Byte1(x, y), Byte2(y, z), Byte3(z, t)] + tail)
  {
    assert ([x, y, z, t] + rest)[4..] == rest;
  }

  lemma LastRoundTrip(b: Text)
    requires |b| < 3
    ensures |LastSextets(b)| < 4 && LastBytes(LastSextets(b)) == Some(b)
  {
    if |b| == 1 {
      OneByte(b[0], 0);
      assert b == [b[0]];
    } else if |b| == 2 {
      TwoBytes(b[0], b[1]);
      assert b == [b[0], b[1]];
    }
  }

  lemma OneByte(p: Byte, q: Byte)
    requires q == 0
    ensures LastBytes([Bits1(p), Bits2(p, q)]) == Some([p])
  {
    Join16(p % 4, q / 16);
  }

  lemma TwoBytes(p: Byte, q: Byte)
    ensures LastBytes([Bits1(p), Bits2(p, q), Bits3(q, 0)]) == Some([p, q])
  {
    BytesOfBits(p, q, 0);
  }

  /** The bits of the last group that no byte uses are zero (section 3.5 of RFC 4648). */
  predicate ZeroTail(x: seq<Sextet>) {
    (|x| % 4 == 2 ==> x[|x| - 1] % 16 == 0) && (|x| % 4 == 3 ==> x[|x| - 1] % 4 == 0)
  }

  lemma TailOfTail(x: seq<Sextet>)
    requires |x| >= 4
    ensures ZeroTail(x) <==> ZeroTail(x[4..])
  {
    assert |x[4..]| % 4 == |x| % 4;
    assert |x| > 4 ==> x[4..][|x| - 5] == x[|x| - 1];
  }

  lemma {:induction false} ZeroTailIsEncoding(x: seq<Sextet>, b: Text)
    requires Bytes(x) == Some(b)
    ensures x == Sextets(b) <==> ZeroTail(x)
    decreases |x|
  {
    if |x| >= 4 {
      var rest := Bytes(x[4..]).value;
      ZeroTailIsEncoding(x[4..], rest);
      TailOfTail(x);
      FullGroup(x, b);
    } else if |x| == 3 {
      LastThree(x[0], x[1], x[2]);
      assert x == [x[0], x[1], x[2]];
    } else if |x| == 2 {
      LastTwo(x[0], x[1]);
      assert x == [x[0], x[1]];
    }
  }

  lemma FullGroup(x: seq<Sextet>, b: Text)
    requires |x| >= 4 && Bytes(x) == Some(b)
    ensures Sextets(b) == x[..4] + Sextets(Bytes(x[4..]).value)
    ensures x == Sextets(b) <==> x[4..] == Sextets(Bytes(x[4..]).value)
  {
    var rest := Bytes(x[4..]).value;
    assert b[3..] == rest;
    BitsOfBytes(x[0], x[1], x[2], x[3]);
    assert x[..4] == [x[0], x[1], x[2], x[3]];
    assert x == x[..4] + x[4..];
    assert (x[..4] + Sextets(rest))[4..] == Sextets(rest);
  }

  lemma LastThree(x: Sextet, y: Sextet, z: Sextet)
    ensures Sextets([Byte1(x, y), Byte2(y, z)]) == [x, y, (z / 4) * 4]
  {
    BitsOfBytes(x, y, z, 0);
  }

  lemma LastTwo(x: Sextet, y: Sextet)
    ensures Sextets([Byte1(x, y)]) == [x, (y / 16) * 16]
  {
    BitsOfBytes(x, y, 0, 0);
  }

  function Letters(x: seq<Sextet>): (s: Text)
    ensures |s| == |x|
    ensures forall i :: 0 <= i < |x| ==> s[i] == Letter(x[i])
  {
    if x == [] then [] else [Letter(x[0])] + Letters(x[1..])
  }

  /** Any byte outside the alphabet is an error. */
  function Values(s: Text): (r: Option<seq<Sextet>>)
    ensures r.Some? ==> |r.value| == |s| && forall i :: 0 <= i < |s| ==> Value(s[i]) == Some(r.value[i])
    ensures r.None? ==> exists i :: 0 <= i < |s| && Value(s[i]).None?
  {
    if s == [] then Some([])
    else match (Value(s[0]), Values(s[1..]))
      case (Some(v), Some(rest)) => Some([v] + rest)
      case (None, _) => None
      case (_, None) =>
        assert exists i :: 0 <= i < |s[1..]| && Value(s[1..][i]).None?;
        None
  }

  function Encode(b: Text): Text {
    Letters(Sextets(b))
  }

  /** Line breaks are skipped wherever they stand in the input. */
  function SkipNewlines(s: Text): Text {
    if s == [] then []
    else if IsNewline(s[0]) then SkipNewlines(s[1..])
    else [s[0]] + SkipNewlines(s[1..])
  }

  function Decode(s: Text): Option<Text> {
    match Values(SkipNewlines(s))
    case None => None
    case Some(x) => Bytes(x)
  }

  lemma {:induction false} LettersDecode(x: seq<Sextet>)
    ensures Values(Letters(x)) == Some(x)
    ensures forall i :: 0 <= i < |x| ==> !IsNewline(Letters(x)[i])
  {
    if x != [] {
      LettersDecode(x[1..]);
      LetterValue(x[0]);
      ValuesCons(Letter(x[0]), x[0], Letters(x[1..]), x[1..]);
      assert x == [x[0]] + x[1..];
      assert forall i :: 0 < i < |x| ==> Letters(x)[i] == Letters(x[1..])[i - 1];
    }
  }

  lemma ValuesCons(c: Byte, v: Sextet, s: Text, x: seq<Sextet>)
    requires Value(c) == Some(v) && Values(s) == Some(x)
    ensures Values([c] + s) == Some([v] + x)
  {
    assert ([c] + s)[1..] == s;
  }

  lemma {:induction false} NothingToSkip(s: Text)
    requires forall i :: 0 <= i < |s| ==> !IsNewline(s[i])
    ensures SkipNewlines(s) == s
  {
    if s != [] {
      NothingToSkip(s[1..]);
      assert s == [s[0]] + s[1..];
    }
  }

  lemma Base64RoundTrip(b: Text)
    ensures Decode(Encode(b)) == Some(b)
  {
    LettersDecode(Sextets(b));
    NothingToSkip(Encode(b));
    SextetsRoundTrip(b);
  }

  /** Table 2 of RFC 4648. */
  lemma AlphabetIs(n: Sextet)
    ensures n < 26 ==> Letter(n) == 'A' as int + n
    ensures 26 <= n < 52 ==> Letter(n) == 'a' as int + (n - 26)
    ensures 52 <= n < 62 ==> Letter(n) == '0' as int + (n - 52)
    ensures n == 62 ==> Letter(n) == '-' as int
    ensures n == 63 ==> Letter(n) == '_' as int
  {
  }

  /** Four sextets say what three bytes say, as one number, and what is left over is filled up with zero bits. */
  lemma {:induction false} SextetsAreBigEndian(b: Text, g: nat)
    requires 3 * g < |b|
    ensures 3 * g + 2 < |b| ==>
              var x := Sextets(b);
              ((x[4 * g] as int * 64 + x[4 * g + 1]) * 64 + x[4 * g + 2]) * 64 + x[4 * g + 3]
              == (b[3 * g] as int * 256 + b[3 * g + 1]) * 256 + b[3 * g + 2]
    ensures 3 * g + 2 == |b| ==>
              var x := Sextets(b);
              (x[4 * g] as int * 64 + x[4 * g + 1]) * 64 + x[4 * g + 2] == (b[3 * g] as int * 256 + b[3 * g + 1]) * 4
    ensures 3 * g + 1 == |b| ==> Sextets(b)[4 * g] as int * 64 + Sextets(b)[4 * g + 1] == b[3 * g] as int * 16
  {
    if g > 0 {
      SextetsAreBigEndian(b[3..], g - 1);
    } else if |b| >= 3 {
      BigEndian(b[0], b[1], b[2]);
    } else if |b| == 2 {
      BigEndian(b[0], b[1], 0);
    } else {
      BigEndian(b[0], 0, 0);
    }
  }

  lemma BigEndian(p: Byte, q: Byte, r: Byte)
    ensures ((Bits1(p) as int * 64 + Bits2(p, q)) * 64 + Bits3(q, r)) * 64 + Bits4(r) == (p as int * 256 + q) * 256 + r
    ensures (Bits1(p) as int * 64 + Bits2(p, q)) * 64 + Bits3(q, 0) == (p as int * 256 + q) * 4
    ensures Bits1(p) as int * 64 + Bits2(p, 0) == p as int * 16
  {
  }

  /** A canonical encoding has no line break and no stray low bit. */
  predicate Canonical(s: Text) {
    && (forall i :: 0 <= i < |s| ==> !IsNewline(s[i]))
    && match Values(s) case None => false case Some(x) => ZeroTail(x)
  }

  lemma ValueLetter(c: Byte, n: Sextet)
    requires Value(c) == Some(n)
    ensures Letter(n) == c
  {
  }

  /** Of all the texts that decode to the same bytes, exactly one is canonical. */
  lemma DecodedTextIsEncoding(s: Text, b: Text)
    requires Decode(s) == Some(b)
    ensures s == Encode(b) <==> Canonical(s)
  {
    var x := Sextets(b);
    LettersDecode(x);
    SextetsRoundTrip(b);
    ZeroTailIsEncoding(x, b);
    if Canonical(s) {
      NothingToSkip(s);
      var y := Values(s).value;
      ZeroTailIsEncoding(y, b);
      forall i | 0 <= i < |s| ensures s[i] == Encode(b)[i] {
        ValueLetter(s[i], y[i]);
      }
    }
  }

  // ---------------------------------------------------------------- the opaque cursor

  function EncodeCursor(k: Key): Text {
    Encode(Member(k))
  }

  /** The empty text is the first page. */
  function DecodeCursor(s: Text): Result<Option<Key>> {
    if s == [] then Ok(None)
    else if |s| > MAX_CURSOR_TEXT then InvalidCursor
    else
      match Decode(s)
      case None => InvalidCursor
      case Some(b) =>
        match ParseMember(b)
        case InvalidCursor => InvalidCursor
        case Ok(k) => Ok(Some(k))
  }

  /** The cursor handed out with a page resumes at that page's last post. */
  lemma CursorRoundTrip(k: Key)
    requires IsPost(k)
    ensures DecodeCursor(EncodeCursor(k)) == Ok(Some(k))
  {
    Base64RoundTrip(Member(k));
    MemberParses(k);
  }

  /** A cursor's text: the letters of its member's 55 sextets; and no text is the first page. */
  lemma CursorText(k: Key)
    ensures |EncodeCursor(k)| == 55 == |Sextets(Member(k))| && DecodeCursor([]) == Ok(None)
    ensures forall i :: 0 <= i < 55 ==> EncodeCursor(k)[i] == Letter(Sextets(Member(k))[i])
  {
  }

  /** A text is accepted for a post exactly when it is short enough and decodes to that post's
      member string; among those texts EncodeCursor(k) is the only canonical one. */
  lemma DecodeCursorIsExact(s: Text, k: Key)
    ensures DecodeCursor(s) == Ok(Some(k))
       <==> && 0 < |s| <= 128 && Decode(s) == Some(Member(k))
            && 0 < k.major <= 253_402_300_799_999_999 && k.minor == 0 && 0 < k.id <= 18_446_744_073_709_551_615
    ensures DecodeCursor(s) == Ok(Some(k)) && Canonical(s) <==> IsPost(k) && s == EncodeCursor(k)
  {
    if Decode(s).Some? {
      ParseIsExact(Decode(s).value, k);
      DecodedTextIsEncoding(s, Decode(s).value);
    }
    if IsPost(k) && s == EncodeCursor(k) {
      CursorRoundTrip(k);
      Base64RoundTrip(Member(k));
      DecodedTextIsEncoding(s, Member(k));
    }
  }

  /** A cursor has other accepted spellings: a trailing line break changes nothing. */
  lemma CursorHasOtherSpellings(k: Key)
    requires IsPost(k)
    ensures DecodeCursor(EncodeCursor(k) + [10]) == Ok(Some(k))
    ensures EncodeCursor(k) + [10] != EncodeCursor(k)
  {
    CursorRoundTrip(k);
    var s := EncodeCursor(k);
    SkipTrailing(s);
    assert |s + [10]| == |s| + 1;
  }

  lemma {:induction false} SkipTrailing(s: Text)
    ensures SkipNewlines(s + [10]) == SkipNewlines(s)
  {
    if s == [] {
      assert s + [10] == [10];
      assert [10][1..] == [];
    } else {
      assert (s + [10])[1..] == s[1..] + [10];
      SkipTrailing(s[1..]);
    }
  }
}
