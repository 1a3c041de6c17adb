/** The wire format of a message: a four-byte decimal header followed by the body.
    A header is written with "%4d" and read back with `atoi`, so the reader accepts
    more headers than the writer ever produces; both are modelled byte for byte. */
module Framing {
  import opened Options

  type Byte = b: int | 0 <= b < 256
  type Bytes = seq<Byte>

  const HEADER_LENGTH: nat := 4
  const MAX_BODY_LENGTH: nat := 2044
  const BUFFER_LENGTH: nat := 2048

  /** What may be assigned to a message: longer strings are outside its domain. */
  type Body = b: Bytes | |b| <= MAX_BODY_LENGTH

  const SPACE: Byte := 32
  const PLUS: Byte := 43
  const MINUS: Byte := 45
  const ZERO: Byte := 48

  predicate IsDigit(b: Byte) {
    ZERO <= b <= ZERO + 9
  }

  predicate IsSpace(b: Byte) {
    b == SPACE || 9 <= b <= 13
  }

  // ---------- Writing a header ----------

  function Decimal(n: nat): (r: Bytes)
    ensures r != [] && forall i :: 0 <= i < |r| ==> IsDigit(r[i])
  {
    if n < 10 then [ZERO + n] else Decimal(n / 10) + [ZERO + n % 10]
  }

  function Spaces(n: nat): (r: Bytes)
    ensures |r| == n && forall i :: 0 <= i < n ==> r[i] == SPACE
  {
    seq(n, _ => SPACE)
  }

  /** sprintf("%4d", n): padded on the left to at least four characters. */
  function FormatHeader(n: nat): Bytes {
    var digits := Decimal(n);
    if |digits| < HEADER_LENGTH then Spaces(HEADER_LENGTH - |digits|) + digits else digits
  }

  // ---------- Reading a header ----------

  /** The C string that `strncat` copies out of a buffer: it stops at a NUL. */
  function CString(h: Bytes): (r: Bytes)
    ensures |r| <= |h|
  {
    if h == [] || h[0] == 0 then [] else [h[0]] + CString(h[1..])
  }

  function DropSpace(s: Bytes): (r: Bytes)
    ensures |r| <= |s|
  {
    if s != [] && IsSpace(s[0]) then DropSpace(s[1..]) else s
  }

  function Digits(acc: nat, s: Bytes): nat
    decreases |s|
  {
    if s == [] || !IsDigit(s[0]) then acc else Digits(10 * acc + (s[0] - ZERO), s[1..])
  }

  function Atoi(s: Bytes): int {
    var t := DropSpace(s);
    if t == [] then 0
    else if t[0] == MINUS then -(Digits(0, t[1..]) as int)
    else if t[0] == PLUS then Digits(0, t[1..])
    else Digits(0, t)
  }

  const SIZE_MODULUS: nat := 0x1_0000_0000_0000_0000

  /** Conversion of an `int` to a 64-bit `size_t`. */
  function ToSize(v: int): nat {
    v % SIZE_MODULUS
  }

  /** The length a header announces, or None when the header is refused. */
  function DecodeHeader(h: Bytes): (r: Option<nat>)
    ensures r.Some? ==> r.value <= MAX_BODY_LENGTH
  {
    var n := ToSize(Atoi(CString(h)));
    if n > MAX_BODY_LENGTH then None else Some(n)
  }

  function Pow10(k: nat): (p: nat)
    ensures p >= 1
  {
    if k == 0 then 1 else 10 * Pow10(k - 1)
  }

  lemma DigitStep(acc: nat, d: nat, p: nat)
    requires d <= 9
    ensures (10 * acc + d + 1) * p <= (acc + 1) * (10 * p)
  {
    calc {
      (acc + 1) * (10 * p);
      (10 * acc + 10) * p;
      (10 * acc + d + 1) * p + (9 - d) * p;
    }
  }

  lemma MulAtLeast(a: nat, p: nat)
    requires p >= 1
    ensures a <= a * p
  {
  }

  lemma {:induction false} DigitsBound(acc: nat, s: Bytes)
    ensures Digits(acc, s) < (acc + 1) * Pow10(|s|)
    decreases |s|
  {
    if s == [] || !IsDigit(s[0]) {
      MulAtLeast(acc + 1, Pow10(|s|));
    } else {
      var d := s[0] - ZERO;
      DigitsBound(10 * acc + d, s[1..]);
      DigitStep(acc, d, Pow10(|s| - 1));
    }
  }

  /** A header of at most four characters cannot overflow an `int`. */
  lemma AtoiBound(s: Bytes)
    requires |s| <= HEADER_LENGTH
    ensures -10000 < Atoi(s) < 10000
  {
    var t := DropSpace(s);
    assert Pow10(4) == 10000 && Pow10(3) == 1000 && Pow10(2) == 100 && Pow10(1) == 10;
    if t != [] {
      DigitsBound(0, t[1..]);
      DigitsBound(0, t);
    }
  }

  /** Negative headers wrap to huge sizes and are refused; so the accepted headers are
      exactly those whose `atoi` value is a legal body length. */
  lemma DecodeHeaderAccepts(h: Bytes)
    requires |h| == 4
    ensures DecodeHeader(h) == if 0 <= Atoi(CString(h)) <= 2044 then Some(Atoi(CString(h))) else None
  {
    AtoiBound(CString(h));
  }

  lemma {:induction false} DecimalLength(n: nat, k: nat)
    requires k >= 1 && n < Pow10(k)
    ensures |Decimal(n)| <= k
  {
    if n >= 10 {
      assert k >= 2 by {
        assert Pow10(1) == 10;
      }
      DecimalLength(n / 10, k - 1);
    }
  }

  lemma {:induction false} DecimalDigits(n: nat, t: Bytes)
    ensures Digits(0, Decimal(n) + t) == Digits(n, t)
  {
    if n < 10 {
      assert (Decimal(n) + t)[1..] == t;
    } else {
      var d: Byte := ZERO + n % 10;
      assert Decimal(n) + t == Decimal(n / 10) + ([d] + t);
      DecimalDigits(n / 10, [d] + t);
      assert ([d] + t)[1..] == t;
    }
  }

  /** Encoding then decoding a header gives the length back, and a header is four bytes. */
  lemma HeaderRoundTrip(n: nat)
    requires n <= 2044
    ensures |FormatHeader(n)| == 4
    ensures DecodeHeader(FormatHeader(n)) == Some(n)
  {
    var digits := Decimal(n);
    assert Pow10(4) == 10000;
    DecimalLength(n, 4);
    var h := FormatHeader(n);
    assert h == Spaces(HEADER_LENGTH - |digits|) + digits;
    AtoiCString(h);
    DropBlanks(Spaces(HEADER_LENGTH - |digits|), digits);
    DecimalDigits(n, []);
    assert digits + [] == digits;
  }

  // ---------- Exactly which headers are accepted ----------

  /** ASCII digits. This section names characters by their codes. */
  predicate AllDigits(s: Bytes) {
    forall i :: 0 <= i < |s| ==> 48 <= s[i] <= 57
  }

  /** Blank, tab, line feed, vertical tab, form feed and carriage return. */
  predicate AllSpace(s: Bytes) {
    forall i :: 0 <= i < |s| ==> s[i] == 32 || 9 <= s[i] <= 13
  }

  function Zeros(n: nat): (r: Bytes)
    ensures |r| == n && forall i :: 0 <= i < n ==> r[i] == 48
  {
    seq(n, _ => 48)
  }

  lemma {:induction false} DigitsSnoc(acc: nat, s: Bytes, d: Byte)
    requires AllDigits(s) && IsDigit(d)
    ensures Digits(acc, s + [d]) == 10 * Digits(acc, s) + (d - ZERO)
    decreases |s|
  {
    if s == [] {
      assert (s + [d])[1..] == [];
    } else {
      assert (s + [d])[1..] == s[1..] + [d];
      DigitsSnoc(10 * acc + (s[0] - ZERO), s[1..], d);
    }
  }

  /** Reading digits without a leading zero and writing the number gives them back. */
  lemma {:induction false} DecimalOfDigits(s: Bytes)
    requires s != [] && AllDigits(s) && (|s| > 1 ==> s[0] != ZERO)
    ensures Decimal(Digits(0, s)) == s
  {
    var n := |s| - 1;
    assert s == s[..n] + [s[n]];
    DigitsSnoc(0, s[..n], s[n]);
    if n > 0 {
      DecimalOfDigits(s[..n]);
      assert Digits(0, s[..n]) != 0;
    } else {
      assert s[..n] == [];
    }
  }

  lemma {:induction false} DecimalHasNoLeadingZero(n: nat)
    requires n > 0
    ensures Decimal(n)[0] != ZERO
  {
    if n >= 10 {
      DecimalHasNoLeadingZero(n / 10);
    }
  }

  /** Digits stand for a number: none at all for 0, or its decimal digits behind zeros. */
  ghost predicate Denotes(digits: Bytes, n: nat) {
    (digits == [] && n == 0) || exists z: nat :: digits == Zeros(z) + Decimal(n)
  }

  lemma {:induction false} LeadingZeros(z: nat, s: Bytes)
    ensures Digits(0, Zeros(z) + s) == Digits(0, s)
  {
    if z == 0 {
      assert Zeros(z) + s == s;
    } else {
      assert (Zeros(z) + s)[1..] == Zeros(z - 1) + s;
      LeadingZeros(z - 1, s);
    }
  }

  lemma {:induction false} DigitsDenote(digits: Bytes)
    requires AllDigits(digits)
    ensures Denotes(digits, Digits(0, digits))
  {
    if |digits| > 1 && digits[0] == ZERO {
      DigitsDenote(digits[1..]);
      var z: nat :| digits[1..] == Zeros(z) + Decimal(Digits(0, digits[1..]));
      assert digits == Zeros(z + 1) + Decimal(Digits(0, digits));
    } else if digits != [] {
      DecimalOfDigits(digits);
      assert digits == Zeros(0) + Decimal(Digits(0, digits));
    }
  }

  lemma DenotesIsDigits(digits: Bytes, n: nat)
    requires AllDigits(digits)
    ensures Denotes(digits, n) <==> Digits(0, digits) == n
  {
    DigitsDenote(digits);
    if z: nat :| digits == Zeros(z) + Decimal(n) {
      LeadingZeros(z, Decimal(n));
      DecimalDigits(n, []);
      assert Decimal(n) + [] == Decimal(n);
    }
  }

  /** White space, an optional sign, digits, and then whatever does not continue them. */
  predicate Splits(h: Bytes, blanks: Bytes, sign: Bytes, digits: Bytes, junk: Bytes) {
    && h == blanks + (sign + (digits + junk))
    && AllSpace(blanks) && (sign == [] || sign == [43] || sign == [45]) && AllDigits(digits)
    && (junk != [] ==> !(48 <= junk[0] <= 57))
    && (sign == [] && digits == [] && junk != [] ==>
          junk[0] != 32 && !(9 <= junk[0] <= 13) && junk[0] != 43 && junk[0] != 45)
  }

  lemma {:induction false} TakeSpace(s: Bytes) returns (blanks: Bytes)
    ensures s == blanks + DropSpace(s) && AllSpace(blanks)
    ensures DropSpace(s) != [] ==> !IsSpace(DropSpace(s)[0])
  {
    if s != [] && IsSpace(s[0]) {
      var rest := TakeSpace(s[1..]);
      blanks := [s[0]] + rest;
    } else {
      blanks := [];
    }
  }

  lemma {:induction false} TakeDigits(s: Bytes) returns (digits: Bytes, junk: Bytes)
    ensures s == digits + junk && AllDigits(digits) && (junk != [] ==> !IsDigit(junk[0]))
  {
    if s != [] && IsDigit(s[0]) {
      var rest;
      rest, junk := TakeDigits(s[1..]);
      digits := [s[0]] + rest;
    } else {
      digits, junk := [], s;
    }
  }

  /** Every byte string splits. */
  lemma EverySplits(h: Bytes) returns (blanks: Bytes, sign: Bytes, digits: Bytes, junk: Bytes)
    ensures Splits(h, blanks, sign, digits, junk)
  {
    hide DropSpace;
    blanks := TakeSpace(h);
    var t := DropSpace(h);
    sign := if t != [] && (t[0] == PLUS || t[0] == MINUS) then t[..1] else [];
    digits, junk := TakeDigits(t[|sign|..]);
    assert t == sign + t[|sign|..] == sign + (digits + junk);
    hide IsSpace, IsDigit;
  }

  lemma {:induction false} DigitsStop(acc: nat, digits: Bytes, junk: Bytes)
    requires AllDigits(digits) && (junk != [] ==> !IsDigit(junk[0]))
    ensures Digits(acc, digits + junk) == Digits(acc, digits)
    decreases |digits|
  {
    if digits == [] {
      assert digits + junk == junk;
    } else {
      assert (digits + junk)[1..] == digits[1..] + junk;
      DigitsStop(10 * acc + (digits[0] - ZERO), digits[1..], junk);
    }
  }

  lemma {:induction false} DropBlanks(blanks: Bytes, s: Bytes)
    requires AllSpace(blanks) && (s != [] ==> !IsSpace(s[0]))
    ensures DropSpace(blanks + s) == s
  {
    if blanks == [] {
      assert blanks + s == s;
    } else {
      assert (blanks + s)[1..] == blanks[1..] + s;
      DropBlanks(blanks[1..], s);
    }
  }

  /** What follows the white space starts with the sign, a digit or something else. */
  lemma SplitHead(h: Bytes, blanks: Bytes, sign: Bytes, digits: Bytes, junk: Bytes)
    requires Splits(h, blanks, sign, digits, junk)
    ensures var t := sign + (digits + junk);
            && h == blanks + t && t[|sign|..] == digits + junk
            && (t == [] ==> digits == [] && sign == [])
            && (t != [] ==> !IsSpace(t[0]))
            && (t != [] && sign == [] ==> t[0] != PLUS && t[0] != MINUS)
  {
  }

  lemma AtoiSplits(h: Bytes, blanks: Bytes, sign: Bytes, digits: Bytes, junk: Bytes)
    requires Splits(h, blanks, sign, digits, junk)
    ensures Atoi(h) == if sign == [45] then -(Digits(0, digits) as int) else Digits(0, digits)
  {
    hide Digits, DropSpace;
    SplitHead(h, blanks, sign, digits, junk);
    DropBlanks(blanks, sign + (digits + junk));
    DigitsStop(0, digits, junk);
    NoDigits();
    hide AllDigits, AllSpace, IsSpace, IsDigit;
  }

  lemma NoDigits()
    ensures Digits(0, []) == 0
  {
  }

  lemma {:induction false} DigitsCString(acc: nat, s: Bytes)
    ensures Digits(acc, CString(s)) == Digits(acc, s)
    decreases |s|
  {
    if s != [] && IsDigit(s[0]) {
      assert CString(s)[1..] == CString(s[1..]);
      DigitsCString(10 * acc + (s[0] - ZERO), s[1..]);
    }
  }

  lemma {:induction false} DropSpaceCString(s: Bytes)
    ensures DropSpace(CString(s)) == CString(DropSpace(s))
  {
    if s != [] && IsSpace(s[0]) {
      assert CString(s)[1..] == CString(s[1..]);
      DropSpaceCString(s[1..]);
    }
  }

  /** A NUL ends a number just as any other byte that is not a digit does. */
  lemma AtoiCString(h: Bytes)
    ensures Atoi(CString(h)) == Atoi(h)
  {
    DropSpaceCString(h);
    var t := DropSpace(h);
    DigitsCString(0, t);
    if t != [] && t[0] != 0 {
      assert CString(t)[1..] == CString(t[1..]);
      DigitsCString(0, t[1..]);
    }
  }

  ghost predicate Announces(h: Bytes, n: nat) {
    exists blanks, sign, digits, junk ::
      && Splits(h, blanks, sign, digits, junk)
      && Denotes(digits, n)
      && (sign == [45] ==> n == 0)
  }

  /** The accepted headers, for every four bytes: white space, at most one sign, digits
      that denote a legal length, and any junk behind them; a minus sign only before 0. */
  lemma AcceptedHeaders(h: Bytes, n: nat)
    requires |h| == 4
    ensures DecodeHeader(h) == Some(n) <==> n <= 2044 && Announces(h, n)
  {
    DecodeHeaderAccepts(h);
    AtoiCString(h);
    hide DecodeHeader, Atoi, CString, Denotes, Splits;
    var blanks, sign, digits, junk := EverySplits(h);
    SplitMeans(h, blanks, sign, digits, junk, n);
    if b, s, d, j :| Splits(h, b, s, d, j) && Denotes(d, n) && (s == [45] ==> n == 0) {
      SplitMeans(h, b, s, d, j, n);
    }
  }

  /** The lengths that a header can announce are those of the bodies that fit the buffer. */
  lemma LegalLengths(n: nat)
    ensures (exists h: Bytes :: |h| == 4 && DecodeHeader(h) == Some(n)) <==> n <= 2044
    ensures HEADER_LENGTH + MAX_BODY_LENGTH == BUFFER_LENGTH == 2048
  {
    if n <= 2044 {
      HeaderRoundTrip(n);
    }
  }

  lemma SplitMeans(h: Bytes, blanks: Bytes, sign: Bytes, digits: Bytes, junk: Bytes, n: nat)
    requires Splits(h, blanks, sign, digits, junk)
    ensures Atoi(h) == n <==> Denotes(digits, n) && (sign == [45] ==> n == 0)
  {
    hide Denotes, Atoi, Digits;
    AtoiSplits(h, blanks, sign, digits, junk);
    DenotesIsDigits(digits, n);
    DenotesIsDigits(digits, 0);
  }

  /** Blanks and then digits, without a leading zero unless there is one digit only. */
  ghost predicate Canonical(h: Bytes) {
    exists k: nat :: k < |h| && CanonicalFrom(h, k)
  }

  predicate CanonicalFrom(h: Bytes, k: nat)
    requires k < |h|
  {
    && (forall i :: 0 <= i < k ==> h[i] == 32)
    && AllDigits(h[k..]) && (k < |h| - 1 ==> h[k] != 48)
  }

  lemma CanonicalIsWritten(h: Bytes, k: nat)
    requires |h| == 4 && k < |h| && CanonicalFrom(h, k)
    ensures Atoi(h) == Digits(0, h[k..]) && FormatHeader(Digits(0, h[k..])) == h
  {
    var digits := h[k..];
    assert h == h[..k] + digits && digits[0] == h[k] && h[..k] == Spaces(k);
    assert Splits(h, h[..k], [], digits, []);
    AtoiSplits(h, h[..k], [], digits, []);
    DecimalOfDigits(digits);
  }

  /** Which accepted headers the encoder writes: exactly the canonical ones. */
  lemma WrittenHeaders(h: Bytes)
    requires |h| == 4 && DecodeHeader(h).Some?
    ensures h == FormatHeader(DecodeHeader(h).value) <==> Canonical(h)
  {
    var n := DecodeHeader(h).value;
    DecodeHeaderAccepts(h);
    AtoiCString(h);
    hide DecodeHeader, Atoi, Decimal, Digits;
    if k: nat :| k < |h| && CanonicalFrom(h, k) {
      CanonicalIsWritten(h, k);
    }
    if h == FormatHeader(n) {
      FormattedIsCanonical(n);
    }
  }

  /** What the encoder writes for 5, 37 and 2044, and the frame of the body "hi". */
  lemma SomeHeaders()
    ensures FrameOf([104, 105]) == [32, 32, 32, 50, 104, 105]
    ensures FormatHeader(5) == [32, 32, 32, 53] && FormatHeader(37) == [32, 32, 51, 55]
    ensures FormatHeader(2044) == [50, 48, 52, 52]
  {
    assert Decimal(2) == [50] && Decimal(20) == [50, 48] && Decimal(204) == [50, 48, 52];
    assert Decimal(2044) == [50, 48, 52, 52] && Decimal(37) == [51, 55];
  }

  /** Headers that are never written: "0005", "+5x ", "5" behind tabs and "5" before a NUL
      announce 5, and "  -5" is refused. */
  lemma ForeignHeaders()
    ensures DecodeHeader([48, 48, 48, 53]) == DecodeHeader([43, 53, 120, 32]) == Some(5)
    ensures DecodeHeader([9, 9, 9, 53]) == DecodeHeader([53, 0, 49, 49]) == Some(5)
    ensures DecodeHeader([32, 32, 45, 53]) == None
  {
    hide DecodeHeader, Splits;
    SomeSplits();
    assert Decimal(5) == [53];
    Example([48, 48, 48, 53], [], [], [48, 48, 48, 53], [], 3, 5);
    Example([43, 53, 120, 32], [], [43], [53], [120, 32], 0, 5);
    Example([9, 9, 9, 53], [9, 9, 9], [], [53], [], 0, 5);
    Example([53, 0, 49, 49], [], [], [53], [0, 49, 49], 0, 5);
    RefusedHeader([32, 32, 45, 53], [32, 32], [53]);
  }

  lemma SomeSplits()
    ensures Splits([48, 48, 48, 53], [], [], [48, 48, 48, 53], [])
    ensures Splits([43, 53, 120, 32], [], [43], [53], [120, 32])
    ensures Splits([9, 9, 9, 53], [9, 9, 9], [], [53], [])
    ensures Splits([53, 0, 49, 49], [], [], [53], [0, 49, 49])
    ensures Splits([32, 32, 45, 53], [32, 32], [45], [53], [])
  {
    assert [45] + ([53] + []) == [45, 53];
    assert [43] + ([53] + [120, 32]) == [43, 53, 120, 32];
  }

  lemma RefusedHeader(h: Bytes, blanks: Bytes, digits: Bytes)
    requires |h| == 4 && Splits(h, blanks, [45], digits, []) && Digits(0, digits) > 0
    ensures DecodeHeader(h) == None
  {
    DecodeHeaderAccepts(h);
    AtoiCString(h);
    AtoiSplits(h, blanks, [45], digits, []);
  }

  lemma Example(h: Bytes, blanks: Bytes, sign: Bytes, digits: Bytes, junk: Bytes, zeros: nat, n: nat)
    requires |h| == HEADER_LENGTH && Splits(h, blanks, sign, digits, junk) && sign != [45]
    requires digits == Zeros(zeros) + Decimal(n) && n <= MAX_BODY_LENGTH
    ensures DecodeHeader(h) == Some(n)
  {
    hide DecodeHeader, Decimal;
    assert Denotes(digits, n);
    AcceptedHeaders(h, n);
  }

  lemma FormattedIsCanonical(n: nat)
    requires n <= MAX_BODY_LENGTH
    ensures Canonical(FormatHeader(n))
  {
    HeaderRoundTrip(n);
    hide DecodeHeader;
    var h := FormatHeader(n);
    var digits := Decimal(n);
    var k := HEADER_LENGTH - |digits|;
    assert h == Spaces(k) + digits;
    assert h[..k] == Spaces(k) && h[k..] == digits && (k < 3 ==> h[k] == digits[0]);
    if n > 0 {
      DecimalHasNoLeadingZero(n);
    }
    assert CanonicalFrom(h, k);
  }

  // ---------- Message values ----------

  /** The value of a message object: its whole buffer, stale bytes included, and the
      length of the body that counts. */
  datatype Msg = Msg(data: Bytes, bodyLength: nat) {
    predicate Valid() {
      |data| == BUFFER_LENGTH && bodyLength <= MAX_BODY_LENGTH
    }

    function Frame(): (f: Bytes)
      requires Valid()
      ensures |f| == HEADER_LENGTH + bodyLength
    {
      data[..HEADER_LENGTH + bodyLength]
    }

    function Text(): (b: Body)
      requires Valid()
      ensures |b| == bodyLength
    {
      data[HEADER_LENGTH..HEADER_LENGTH + bodyLength]
    }
  }

  /** The bytes a message assigned from `b` puts on the wire. */
  function FrameOf(b: Body): (f: Bytes)
    ensures f != []
  {
    FormatHeader(|b|) + b
  }

  // ---------- Streams of frames ----------

  function Concat(frames: seq<Bytes>): Bytes {
    if frames == [] then [] else frames[0] + Concat(frames[1..])
  }

  function Frames(bodies: seq<Body>): (fs: seq<Bytes>)
    ensures |fs| == |bodies| && forall i :: 0 <= i < |fs| ==> fs[i] == FrameOf(bodies[i])
  {
    seq(|bodies|, i requires 0 <= i < |bodies| => FrameOf(bodies[i]))
  }

  function FrameAll(bodies: seq<Body>): Bytes {
    Concat(Frames(bodies))
  }

  /** What a byte stream means: the messages whose frames are complete, the bytes left
      over, and whether the left-over starts with a refused header. */
  datatype Parse = Parse(msgs: seq<Bytes>, rest: Bytes, ok: bool)

  function ParseFrames(s: Bytes): Parse
    decreases |s|
  {
    if |s| < HEADER_LENGTH then Parse([], s, true)
    else
      match DecodeHeader(s[..HEADER_LENGTH])
      case None => Parse([], s, false)
      case Some(n) =>
        if |s| < HEADER_LENGTH + n then Parse([], s, true)
        else
          var p := ParseFrames(s[HEADER_LENGTH + n..]);
          Parse([s[HEADER_LENGTH..HEADER_LENGTH + n]] + p.msgs, p.rest, p.ok)
  }

  lemma {:induction false} ConcatAppend(a: seq<Bytes>, b: seq<Bytes>)
    ensures Concat(a + b) == Concat(a) + Concat(b)
  {
    if a == [] {
      assert a + b == b;
    } else {
      assert (a + b)[1..] == a[1..] + b;
      ConcatAppend(a[1..], b);
    }
  }

  lemma ConcatOne(f: Bytes)
    ensures Concat([f]) == f
  {
    assert [f][1..] == [];
  }

  lemma FrameAllCons(bodies: seq<Body>)
    requires bodies != []
    ensures FrameAll(bodies) == FrameOf(bodies[0]) + FrameAll(bodies[1..])
  {
    assert Frames(bodies)[1..] == Frames(bodies[1..]);
  }

  /** A stream that starts with a complete frame parses into that frame's body and the
      parse of what follows. */
  lemma ParseFirst(h: Bytes, b: Bytes, rest: Bytes)
    requires |h| == HEADER_LENGTH && DecodeHeader(h) == Some(|b|)
    ensures ParseFrames(h + b + rest) ==
            Parse([b] + ParseFrames(rest).msgs, ParseFrames(rest).rest, ParseFrames(rest).ok)
  {
    hide DecodeHeader;
    var s := h + b + rest;
    assert s[..HEADER_LENGTH] == h;
    assert s[HEADER_LENGTH..HEADER_LENGTH + |b|] == b;
    assert s[HEADER_LENGTH + |b|..] == rest;
  }

  /** A non-empty stream that parses without remainder starts with a complete frame. */
  lemma ParseSplit(a: Bytes) returns (h: Bytes, b: Bytes, rest: Bytes)
    requires ParseFrames(a).ok && ParseFrames(a).rest == [] && a != []
    ensures |h| == HEADER_LENGTH && DecodeHeader(h) == Some(|b|) && a == h + b + rest
    ensures ParseFrames(a) == Parse([b] + ParseFrames(rest).msgs, [], true)
    ensures ParseFrames(rest).ok && ParseFrames(rest).rest == []
  {
    hide DecodeHeader;
    h := a[..HEADER_LENGTH];
    var n := DecodeHeader(h).value;
    b := a[HEADER_LENGTH..HEADER_LENGTH + n];
    rest := a[HEADER_LENGTH + n..];
    assert a == h + b + rest;
  }

  lemma ParseEmpty()
    ensures ParseFrames([]) == Parse([], [], true)
  {
  }

  /** Parsing is compositional: a prefix that splits cleanly can be cut off. */
  lemma {:induction false} ParseAppend(a: Bytes, b: Bytes)
    requires ParseFrames(a).ok && ParseFrames(a).rest == []
    ensures ParseFrames(a + b) ==
            Parse(ParseFrames(a).msgs + ParseFrames(b).msgs, ParseFrames(b).rest, ParseFrames(b).ok)
    decreases |a|
  {
    ParseEmpty();
    hide DecodeHeader, ParseFrames;
    if a == [] {
      assert a + b == b;
    } else {
      var h, x, rest := ParseSplit(a);
      ParseAppend(rest, b);
      assert a + b == h + x + (rest + b);
      ParseFirst(h, x, rest + b);
    }
  }

  /** A proper prefix of one frame is left over whole. */
  lemma ParsePartial(b: Body, p: Bytes)
    requires p < FrameOf(b)
    ensures ParseFrames(p) == Parse([], p, true)
  {
    HeaderRoundTrip(|b|);
    hide DecodeHeader, FormatHeader;
    if |p| >= HEADER_LENGTH {
      assert p[..HEADER_LENGTH] == FrameOf(b)[..HEADER_LENGTH] == FormatHeader(|b|);
    }
  }

  /** What a prefix of the frames of `bodies` must parse into. */
  ghost predicate ParsesTo(bodies: seq<Body>, p: Bytes, r: Parse) {
    var k := |r.msgs|;
    && r.ok
    && k <= |bodies|
    && r.msgs == bodies[..k]
    && p == FrameAll(bodies[..k]) + r.rest
    && (k == |bodies| ==> r.rest == [])
    && (k < |bodies| ==> r.rest < FrameOf(bodies[k]))
  }

  lemma ParsesToCons(bodies: seq<Body>, q: Bytes, r: Parse)
    requires bodies != [] && ParsesTo(bodies[1..], q, r)
    ensures ParsesTo(bodies, FrameOf(bodies[0]) + q, Parse([bodies[0]] + r.msgs, r.rest, r.ok))
  {
    hide FrameOf;
    var k := |r.msgs|;
    var pre := bodies[..k + 1];
    assert pre == [bodies[0]] + bodies[1..][..k];
    FrameAllCons(pre);
    assert pre[1..] == bodies[1..][..k];
    hide FrameAll;
    assert FrameOf(bodies[0]) + q == FrameAll(pre) + r.rest;
  }

  /** Stream decodability. Every prefix of the frames of `bodies` parses, without ever
      meeting a refused header, into exactly the bodies whose frames are complete; what
      is left is a proper prefix of the next frame. */
  lemma {:induction false} PrefixParses(bodies: seq<Body>, p: Bytes)
    requires p <= FrameAll(bodies)
    ensures ParsesTo(bodies, p, ParseFrames(p))
  {
    hide DecodeHeader, FormatHeader;
    if bodies == [] {
      assert p == [];
    } else {
      var b := bodies[0];
      var f := FrameOf(b);
      FrameAllCons(bodies);
      if |p| < |f| {
        assert p == f[..|p|];
        ParsePartial(b, p);
        assert bodies[..0] == [];
        assert FrameAll([]) == [];
      } else {
        var q := p[|f|..];
        assert p == f + q;
        assert q <= FrameAll(bodies[1..]);
        PrefixParses(bodies[1..], q);
        ParsesToCons(bodies, q, ParseFrames(q));
        HeaderRoundTrip(|b|);
        ParseFirst(FormatHeader(|b|), b, q);
      }
    }
  }

  /** The whole stream parses back into the whole list: frames are uniquely decodable. */
  lemma {:induction false} FramesDecode(bodies: seq<Body>)
    ensures ParseFrames(FrameAll(bodies)) == Parse(bodies, [], true)
  {
    if bodies == [] {
      assert FrameAll(bodies) == [];
    } else {
      FrameAllCons(bodies);
      FramesDecode(bodies[1..]);
      HeaderRoundTrip(|bodies[0]|);
      hide DecodeHeader, FormatHeader;
      ParseFirst(FormatHeader(|bodies[0]|), bodies[0], FrameAll(bodies[1..]));
      assert bodies == [bodies[0]] + bodies[1..];
    }
  }
}
