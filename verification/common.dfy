/** Value types shared by the agent model: Java's fixed-width integers and their
    arithmetic, byte strings, and the text conversions the agent relies on. */
module Common {

  newtype byte = x: int | 0 <= x < 0x100
  type Bytes = seq<byte>

  /** Java `int` and `long`. */
  newtype int32 = x: int | -0x8000_0000 <= x < 0x8000_0000
  newtype int64 = x: int | -0x8000_0000_0000_0000 <= x < 0x8000_0000_0000_0000

  const TwoTo63: int := 0x8000_0000_0000_0000
  const TwoTo64: int := 0x1_0000_0000_0000_0000

  datatype Option<+T> = None | Some(value: T)

  /** The outcome of an operation that the source lets fail with an exception. */
  datatype Result<+T, +E> = Ok(value: T) | Failed(error: E)

  /** Two's-complement wrap-around of a mathematical integer into a Java `long`. */
  function Wrap64(x: int): (r: int64)
    ensures (x - r as int) % TwoTo64 == 0
    ensures -TwoTo63 <= x < TwoTo63 ==> r as int == x
  {
    ((x + TwoTo63) % TwoTo64 - TwoTo63) as int64
  }

  function Abs(x: int): nat { if x < 0 then -x else x }

  /** Java's integer division, which truncates toward zero (Dafny's `/` is Euclidean). */
  function JavaDiv(a: int, b: int): (q: int)
    requires b != 0
    ensures 0 <= a && 0 < b ==> q == a / b
    ensures a < 0 && 0 < b ==> q == -((-a) / b)
    ensures Abs(q) == Abs(a) / Abs(b)
    ensures q != 0 ==> (q < 0 <==> (a < 0) != (b < 0))
  {
    var m := Abs(a) / Abs(b);
    assert m >= 0 by {
      DivNonNegative(Abs(a), Abs(b));
    }
    if (a < 0) == (b < 0) then m else -m
  }

  /** Solver aid: a quotient of naturals is a natural. */
  lemma DivNonNegative(a: nat, b: nat)
    requires b > 0
    ensures a / b >= 0
  {
  }

  /** `String.getBytes()` of a string made of 7-bit characters. */
  function AsciiBytes(s: string): (r: Bytes)
    requires forall i :: 0 <= i < |s| ==> s[i] as int < 0x80
    ensures |r| == |s|
    ensures forall i :: 0 <= i < |s| ==> r[i] as int == s[i] as int
  {
    seq(|s|, i requires 0 <= i < |s| && s[i] as int < 0x80 => s[i] as int as byte)
  }

  // ---------------------------------------------------------------------------
  // Decimal rendering of integers (`Long.toString`, `StringBuilder.append(long)`)

  function DigitChar(d: nat): (c: char)
    requires d < 10
    ensures '0' <= c <= '9'
  {
    ('0' as int + d) as char
  }

  function DigitValue(c: char): int { c as int - '0' as int }

  function Digits(n: nat): (s: string)
    ensures |s| >= 1
    ensures forall i :: 0 <= i < |s| ==> '0' <= s[i] <= '9'
    ensures s[0] == '0' ==> n == 0 && |s| == 1
    decreases n
  {
    if n < 10 then [DigitChar(n)] else Digits(n / 10) + [DigitChar(n % 10)]
  }

  /** `Long.toString(n)`: an optional minus sign followed by the decimal digits,
      with no leading zero except in "0" itself. */
  function DecimalString(n: int): (s: string)
    ensures |s| >= 1
    ensures s[0] == '-' <==> n < 0
    ensures forall i :: (if n < 0 then 1 else 0) <= i < |s| ==> '0' <= s[i] <= '9'
    ensures var k := if n < 0 then 1 else 0; |s| > k && (s[k] == '0' ==> n == 0 && |s| == 1)
  {
    if n < 0 then "-" + Digits(-n) else Digits(n)
  }

  function ParseDigits(s: string): int
  {
    if s == [] then 0 else ParseDigits(s[..|s| - 1]) * 10 + DigitValue(s[|s| - 1])
  }

  /** Reads back what `DecimalString` writes (`Long.parseLong`). */
  function ParseDecimal(s: string): int
  {
    if |s| > 0 && s[0] == '-' then -ParseDigits(s[1..]) else ParseDigits(s)
  }

  lemma {:induction false} DigitsRoundTrip(n: nat)
    ensures ParseDigits(Digits(n)) == n
    decreases n
  {
    if n >= 10 {
      var s := Digits(n);
      assert s[..|s| - 1] == Digits(n / 10);
      DigitsRoundTrip(n / 10);
    }
  }

  /** A number rendered in decimal is read back unchanged. */
  lemma DecimalRoundTrip(n: int)
    ensures ParseDecimal(DecimalString(n)) == n
  {
    if n < 0 {
      var s := DecimalString(n);
      assert s[1..] == Digits(-n);
      DigitsRoundTrip(-n);
    } else {
      DigitsRoundTrip(n);
    }
  }

  // ---------------------------------------------------------------------------
  // UTF-8 (`String.getBytes(StandardCharsets.UTF_8)`)

  /** The UTF-8 encoding of one character: the length is fixed by the code point's
      range, the lead byte announces that length, every other byte is a
      continuation byte, and the payload bits, read back in order, are the code
      point. */
  function Utf8Char(c: char): (r: Bytes)
    ensures 1 <= |r| <= 4
    ensures |r| == 1 <==> c as int < 0x80
    ensures |r| == 2 <==> 0x80 <= c as int < 0x800
    ensures |r| == 3 <==> 0x800 <= c as int < 0x1_0000
    ensures |r| == 4 <==> 0x1_0000 <= c as int
    ensures |r| == 1 ==> r[0] as int == c as int
    ensures |r| == 2 ==> 0xC0 <= r[0] as int < 0xE0
    ensures |r| == 3 ==> 0xE0 <= r[0] as int < 0xF0
    ensures |r| == 4 ==> 0xF0 <= r[0] as int < 0xF8
    ensures forall i :: 1 <= i < |r| ==> 0x80 <= r[i] as int < 0xC0
    ensures |r| == 2 ==> (r[0] as int - 0xC0) * 0x40 + (r[1] as int - 0x80) == c as int
    ensures |r| == 3 ==>
      (r[0] as int - 0xE0) * 0x1000 + (r[1] as int - 0x80) * 0x40 + (r[2] as int - 0x80) == c as int
    ensures |r| == 4 ==>
      (r[0] as int - 0xF0) * 0x4_0000 + (r[1] as int - 0x80) * 0x1000
        + (r[2] as int - 0x80) * 0x40 + (r[3] as int - 0x80) == c as int
  {
    var v := c as int;
    if v < 0x80 then [v as byte]
    else if v < 0x800 then
      assert v == (v / 0x40) * 0x40 + v % 0x40;
      [(0xC0 + v / 0x40) as byte, (0x80 + v % 0x40) as byte]
    else if v < 0x1_0000 then
      Split3(v);
      [(0xE0 + v / 0x1000) as byte, (0x80 + (v / 0x40) % 0x40) as byte, (0x80 + v % 0x40) as byte]
    else
      Split4(v);
      [(0xF0 + v / 0x4_0000) as byte, (0x80 + (v / 0x1000) % 0x40) as byte,
       (0x80 + (v / 0x40) % 0x40) as byte, (0x80 + v % 0x40) as byte]
  }

  /** Solver aid: a code point below 2^16 splits into 4 + 6 + 6 bits. */
  lemma Split3(v: nat)
    requires v < 0x1_0000
    ensures v / 0x1000 < 0x10
    ensures (v / 0x1000) * 0x1000 + ((v / 0x40) % 0x40) * 0x40 + v % 0x40 == v
  {
    var w := v / 0x40;
    assert v == w * 0x40 + v % 0x40;
    assert w == (w / 0x40) * 0x40 + w % 0x40;
    assert w / 0x40 == v / 0x1000;
  }

  /** Solver aid: a code point below 2^21 splits into 3 + 6 + 6 + 6 bits. */
  lemma Split4(v: nat)
    requires v <= 0x10_FFFF
    ensures v / 0x4_0000 < 0x8
    ensures (v / 0x4_0000) * 0x4_0000 + ((v / 0x1000) % 0x40) * 0x1000
            + ((v / 0x40) % 0x40) * 0x40 + v % 0x40 == v
  {
    var w := v / 0x40;
    var x := w / 0x40;
    assert v == w * 0x40 + v % 0x40;
    assert w == x * 0x40 + w % 0x40;
    assert x == (x / 0x40) * 0x40 + x % 0x40;
    assert x == v / 0x1000;
    assert x / 0x40 == v / 0x4_0000;
  }

  /** `getBytes(StandardCharsets.UTF_8)`: the encodings of the characters, in order. */
  function Utf8Encode(s: string): (r: Bytes)
    ensures |r| >= |s|
  {
    if s == [] then [] else Utf8Encode(s[..|s| - 1]) + Utf8Char(s[|s| - 1])
  }

  /** Encoding a concatenation concatenates the encodings, and a single character
      encodes as `Utf8Char`: the encoding is character by character. */
  lemma {:induction false} Utf8EncodeAppend(s: string, t: string)
    ensures Utf8Encode(s + t) == Utf8Encode(s) + Utf8Encode(t)
    ensures |t| == 1 ==> Utf8Encode(t) == Utf8Char(t[0])
    decreases |t|
  {
    if t == [] {
      assert s + t == s;
    } else {
      var t', c := t[..|t| - 1], t[|t| - 1];
      Utf8EncodeAppend(s, t');
      assert (s + t)[..|s + t| - 1] == s + t';
      assert (s + t)[|s + t| - 1] == c;
      assert Utf8Encode(s + t) == Utf8Encode(s + t') + Utf8Char(c);
      assert Utf8Encode(t) == Utf8Encode(t') + Utf8Char(c);
      AppendAssoc(Utf8Encode(s), Utf8Encode(t'), Utf8Char(c));
      if |t| == 1 {
        assert t' == [];
      }
    }
  }

  /** A 7-bit string encodes to one byte per character, each equal to its code. */
  lemma {:induction false} Utf8OfAscii(s: string)
    requires forall i :: 0 <= i < |s| ==> s[i] as int < 0x80
    ensures Utf8Encode(s) == AsciiBytes(s)
  {
    if s != [] {
      Utf8OfAscii(s[..|s| - 1]);
    }
  }

  // ---------------------------------------------------------------------------
  // Comma-separated argument lists

  /** Joins the items with `sep` between consecutive items. */
  function Join(items: seq<string>, sep: char): string
  {
    if |items| == 0 then ""
    else if |items| == 1 then items[0]
    else Join(items[..|items| - 1], sep) + [sep] + items[|items| - 1]
  }

  /** Appending an item to a joined list appends the separator and the item. */
  lemma JoinSnoc(items: seq<string>, x: string, sep: char)
    requires |items| >= 1
    ensures Join(items + [x], sep) == Join(items, sep) + [sep] + x
  {
    PrefixOfAppend(items, [x]);
  }

  /** Splits `s` at every `sep` (`String.split` keeping empty fields). */
  function Split(s: string, sep: char): (parts: seq<string>)
    ensures |parts| >= 1
  {
    if s == [] then [""]
    else
      var parts := Split(s[..|s| - 1], sep);
      var c := s[|s| - 1];
      if c == sep then parts + [""]
      else parts[..|parts| - 1] + [parts[|parts| - 1] + [c]]
  }

  /** A character other than the separator extends the last part. */
  lemma SplitPlainStep(s: string, c: char, sep: char)
    requires c != sep
    ensures var p := Split(s, sep);
      Split(s + [c], sep) == p[..|p| - 1] + [p[|p| - 1] + [c]]
  {
    assert (s + [c])[..|s|] == s;
  }

  /** A separator starts a new, empty part. */
  lemma SplitSepStep(s: string, sep: char)
    ensures Split(s + [sep], sep) == Split(s, sep) + [""]
  {
    assert (s + [sep])[..|s|] == s;
  }

  lemma {:induction false} SplitAppendPlain(s: string, t: string, sep: char)
    requires sep !in t
    ensures var p := Split(s, sep);
      Split(s + t, sep) == p[..|p| - 1] + [p[|p| - 1] + t]
    decreases |t|
  {
    var p := Split(s, sep);
    var init, last := p[..|p| - 1], p[|p| - 1];
    if t == [] {
      assert s + t == s && last + t == last;
      assert init + [last] == p;
    } else {
      var t', c := t[..|t| - 1], t[|t| - 1];
      assert t == t' + [c];
      SplitAppendPlain(s, t', sep);
      assert s + t == (s + t') + [c];
      SplitPlainStep(s + t', c, sep);
      var q := init + [last + t'];
      assert q[..|q| - 1] == init && q[|q| - 1] == last + t';
      assert (last + t') + [c] == last + t;
    }
  }

  /** With no separator inside any item, splitting the joined string gives the items back. */
  lemma {:induction false} SplitJoin(items: seq<string>, sep: char)
    requires |items| >= 1
    requires forall i :: 0 <= i < |items| ==> sep !in items[i]
    ensures Split(Join(items, sep), sep) == items
    decreases |items|
  {
    if |items| == 1 {
      SplitAppendPlain("", items[0], sep);
      assert "" + items[0] == items[0];
    } else {
      var init, last := items[..|items| - 1], items[|items| - 1];
      SplitJoin(init, sep);
      var s := Join(init, sep) + [sep];
      SplitSepStep(Join(init, sep), sep);
      SplitAppendPlain(s, last, sep);
      var q := init + [""];
      assert q[..|q| - 1] == init && q[|q| - 1] + last == last;
      assert items == init + [last];
    }
  }

  // ---------------------------------------------------------------------------
  // Sequence facts, stated once so that large proof contexts need not rediscover them

  /** Solver aid: reassociates a concatenation. */
  lemma AppendAssoc<T>(a: seq<T>, b: seq<T>, c: seq<T>)
    ensures a + (b + c) == a + b + c
  {
  }

  /** Solver aid: the prefix of a concatenation. */
  lemma PrefixOfAppend<T>(a: seq<T>, b: seq<T>)
    ensures (a + b)[..|a|] == a
  {
  }
}
