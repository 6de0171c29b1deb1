/** Text rendering used by the orchestrator: decimal and hexadecimal numerals
    as Go's fmt and net packages print them, and splitting text on a separator
    character, which the parsers that serve as reference definitions use. */
module Format {

  datatype Option<T> = None | Some(value: T)

  /** Go's `byte`: an unsigned 8-bit value. */
  type byte = x: int | 0 <= x < 256

  // ---------------------------------------------------------------------
  // Decimal numerals (`%d`, and one octet of `net.IP.String`)
  // ---------------------------------------------------------------------

  predicate IsDigit(c: char) { '0' <= c <= '9' }

  predicate IsDigits(s: string) { forall i :: 0 <= i < |s| ==> IsDigit(s[i]) }

  function DigitChar(d: nat): (c: char)
    requires d < 10
    ensures IsDigit(c)
  {
    ('0' as int + d) as char
  }

  function DigitValue(c: char): (d: nat)
    requires IsDigit(c)
    ensures d < 10 && DigitChar(d) == c
  {
    c as int - '0' as int
  }

  /** The shortest decimal numeral of `n`: digits only, no leading zero. */
  function Decimal(n: nat): (s: string)
    ensures 1 <= |s| && IsDigits(s)
    ensures |s| > 1 ==> s[0] != '0'
    decreases n
  {
    if n < 10 then [DigitChar(n)] else Decimal(n / 10) + [DigitChar(n % 10)]
  }

  /** The value of a string of decimal digits (reads the numeral back). */
  function DecimalValue(s: string): nat
    requires IsDigits(s)
  {
    if s == [] then 0 else 10 * DecimalValue(s[..|s| - 1]) + DigitValue(s[|s| - 1])
  }

  lemma {:induction false} DecimalRoundTrip(n: nat)
    ensures DecimalValue(Decimal(n)) == n
    decreases n
  {
    if n >= 10 {
      var s := Decimal(n);
      assert s[..|s| - 1] == Decimal(n / 10);
      DecimalRoundTrip(n / 10);
    }
  }

  // ---------------------------------------------------------------------
  // Hexadecimal numerals (`%02x` of a byte, `%X` of a byte slice)
  // ---------------------------------------------------------------------

  predicate IsHexDigit(c: char) { '0' <= c <= '9' || 'a' <= c <= 'f' || 'A' <= c <= 'F' }

  predicate IsUpperHexDigit(c: char) { '0' <= c <= '9' || 'A' <= c <= 'F' }

  predicate IsLowerHexDigit(c: char) { '0' <= c <= '9' || 'a' <= c <= 'f' }

  function HexValue(c: char): (d: nat)
    requires IsHexDigit(c)
    ensures d < 16
  {
    if c <= '9' then c as int - '0' as int
    else if c <= 'F' then c as int - 'A' as int + 10
    else c as int - 'a' as int + 10
  }

  /** One hexadecimal digit of value `d`, in upper or lower case. */
  function HexChar(d: nat, upper: bool): (c: char)
    requires d < 16
    ensures IsHexDigit(c) && HexValue(c) == d
    ensures upper ==> IsUpperHexDigit(c)
    ensures !upper ==> IsLowerHexDigit(c)
  {
    if d < 10 then DigitChar(d)
    else ((if upper then 'A' else 'a') as int + d - 10) as char
  }

  /** A byte as exactly two hexadecimal digits, high nibble first. */
  function Hex2(b: byte, upper: bool): (s: string)
    ensures |s| == 2 && IsHexDigit(s[0]) && IsHexDigit(s[1])
    ensures 16 * HexValue(s[0]) + HexValue(s[1]) == b
    ensures upper ==> IsUpperHexDigit(s[0]) && IsUpperHexDigit(s[1])
    ensures !upper ==> IsLowerHexDigit(s[0]) && IsLowerHexDigit(s[1])
  {
    [HexChar(b / 16, upper), HexChar(b % 16, upper)]
  }

  /** Go's `%X` of a byte slice: every byte as two upper-case digits, no separators. */
  function HexUpper(bs: seq<byte>): (s: string)
    ensures |s| == 2 * |bs|
    ensures forall i :: 0 <= i < |s| ==> IsUpperHexDigit(s[i])
  {
    if bs == [] then [] else Hex2(bs[0], true) + HexUpper(bs[1..])
  }

  predicate IsHexDigits(s: string) { forall i :: 0 <= i < |s| ==> IsHexDigit(s[i]) }

  /** Reads a string of hexadecimal digit pairs back into bytes. */
  function ParseHexBytes(s: string): seq<byte>
    requires |s| % 2 == 0 && IsHexDigits(s)
  {
    if s == [] then [] else [16 * HexValue(s[0]) + HexValue(s[1])] + ParseHexBytes(s[2..])
  }

  lemma {:induction false} HexUpperRoundTrip(bs: seq<byte>)
    ensures IsHexDigits(HexUpper(bs))
    ensures ParseHexBytes(HexUpper(bs)) == bs
  {
    var s := HexUpper(bs);
    if bs != [] {
      assert s[2..] == HexUpper(bs[1..]);
      HexUpperRoundTrip(bs[1..]);
    }
  }

  // ---------------------------------------------------------------------
  // Splitting on, and terminating words with, a separator character
  // ---------------------------------------------------------------------

  /** The pieces of `s` between occurrences of `sep` (empty pieces kept). */
  function Split(s: string, sep: char): (parts: seq<string>)
    ensures |parts| >= 1
  {
    if s == [] then [[]]
    else if s[0] == sep then [[]] + Split(s[1..], sep)
    else
      var rest := Split(s[1..], sep);
      [[s[0]] + rest[0]] + rest[1..]
  }

  predicate Free(w: string, sep: char) { forall i :: 0 <= i < |w| ==> w[i] != sep }

  /** Splitting a word free of `sep` that is followed by `rest`. */
  lemma {:induction false} SplitWord(w: string, sep: char, rest: string)
    requires Free(w, sep)
    ensures rest == [] ==> Split(w, sep) == [w]
    ensures Split(w + [sep] + rest, sep) == [w] + Split(rest, sep)
  {
    if w != [] {
      assert (w + [sep] + rest)[1..] == w[1..] + [sep] + rest;
      SplitWord(w[1..], sep, rest);
      assert [w[0]] + w[1..] == w;
    }
  }

  /** Every word of `words` followed by one `sep`. */
  function Terminated(words: seq<string>, sep: char): string
  {
    if words == [] then [] else words[0] + [sep] + Terminated(words[1..], sep)
  }

  /** Splitting separator-terminated words followed by a last word. */
  lemma {:induction false} SplitTerminated(words: seq<string>, w: string, sep: char)
    requires forall k :: 0 <= k < |words| ==> Free(words[k], sep)
    requires Free(w, sep)
    ensures Split(Terminated(words, sep) + w, sep) == words + [w]
  {
    if words == [] {
      assert Terminated(words, sep) + w == w;
      SplitWord(w, sep, []);
    } else {
      var tail := words[1..];
      var rest := Terminated(tail, sep) + w;
      TerminatedThen(words, w, sep);
      SplitWord(words[0], sep, rest);
      assert forall k :: 0 <= k < |tail| ==> tail[k] == words[k + 1];
      SplitTerminated(tail, w, sep);
      assert [words[0]] + (tail + [w]) == words + [w];
    }
  }

  lemma TerminatedThen(words: seq<string>, w: string, sep: char)
    requires words != []
    ensures Terminated(words, sep) + w == words[0] + [sep] + (Terminated(words[1..], sep) + w)
  {
    var t := Terminated(words[1..], sep);
    assert Terminated(words, sep) == words[0] + [sep] + t;
    assert (words[0] + [sep] + t) + w == words[0] + [sep] + (t + w);
  }

  /** Eight words, each followed by `sep`. */
  lemma TerminatedEight(a: string, b: string, c: string, d: string, e: string, f: string, g: string, h: string, sep: char)
    ensures Terminated([a, b, c, d, e, f, g, h], sep)
         == a + [sep] + (b + [sep] + (c + [sep] + (d + [sep] + (e + [sep]
            + (f + [sep] + (g + [sep] + (h + [sep])))))))
  {
    var ws := [a, b, c, d, e, f, g, h];
    assert Terminated(ws[7..], sep) == h + [sep] by {
      assert ws[7..] == [h] && ws[7..][1..] == [];
    }
    assert Terminated(ws[6..], sep) == g + [sep] + Terminated(ws[7..], sep) by { assert ws[6..][1..] == ws[7..]; }
    assert Terminated(ws[5..], sep) == f + [sep] + Terminated(ws[6..], sep) by { assert ws[5..][1..] == ws[6..]; }
    assert Terminated(ws[4..], sep) == e + [sep] + Terminated(ws[5..], sep) by { assert ws[4..][1..] == ws[5..]; }
    assert Terminated(ws[3..], sep) == d + [sep] + Terminated(ws[4..], sep) by { assert ws[3..][1..] == ws[4..]; }
    assert Terminated(ws[2..], sep) == c + [sep] + Terminated(ws[3..], sep) by { assert ws[2..][1..] == ws[3..]; }
    assert Terminated(ws[1..], sep) == b + [sep] + Terminated(ws[2..], sep) by { assert ws[1..][1..] == ws[2..]; }
    assert Terminated(ws, sep) == a + [sep] + Terminated(ws[1..], sep);
  }
}
