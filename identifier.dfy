/** The instance identifier: sixteen random bytes printed as upper-case
    hexadecimal in groups of 4, 2, 2, 2 and 6 bytes joined by dashes. The
    random source is an input here (`bytes`); its failure is handled by the
    create handler. */
module Identifier {
  import opened Format

  /** `pseudo_uuid` once its sixteen bytes have been drawn. */
  function PseudoUuid(bytes: seq<byte>): (id: string)
    requires |bytes| == 16
    ensures |id| == 36
    ensures id[8] == '-' && id[13] == '-' && id[18] == '-' && id[23] == '-'
  {
    HexUpper(bytes[0..4]) + "-" + (HexUpper(bytes[4..6]) + "-" + (HexUpper(bytes[6..8]) + "-"
      + (HexUpper(bytes[8..10]) + "-" + HexUpper(bytes[10..]))))
  }

  /** The positions of the four dashes. */
  predicate IsDashPosition(i: int) { i == 8 || i == 13 || i == 18 || i == 23 }

  /** Reads an identifier back: five dash-separated groups of 8, 4, 4, 4 and
      12 hexadecimal digits, decoded into the bytes they spell. */
  function ParseUuid(id: string): Option<seq<byte>>
  {
    var g := Split(id, '-');
    if |g| == 5 && |g[0]| == 8 && |g[1]| == 4 && |g[2]| == 4 && |g[3]| == 4 && |g[4]| == 12
       && IsHexDigits(g[0]) && IsHexDigits(g[1]) && IsHexDigits(g[2])
       && IsHexDigits(g[3]) && IsHexDigits(g[4])
    then Some(ParseHexBytes(g[0]) + ParseHexBytes(g[1]) + ParseHexBytes(g[2])
              + ParseHexBytes(g[3]) + ParseHexBytes(g[4]))
    else None
  }

  /** The identifier is 36 characters long, has a dash at positions 8, 13, 18
      and 23, and an upper-case hexadecimal digit everywhere else. */
  lemma UuidShape(bytes: seq<byte>)
    requires |bytes| == 16
    ensures var id := PseudoUuid(bytes);
      && |id| == 36
      && (forall i :: 0 <= i < 36 && IsDashPosition(i) ==> id[i] == '-')
      && (forall i :: 0 <= i < 36 && !IsDashPosition(i) ==> IsUpperHexDigit(id[i]))
  {
    var id := PseudoUuid(bytes);
    var h0, h1, h2, h3, h4 := HexUpper(bytes[0..4]), HexUpper(bytes[4..6]),
      HexUpper(bytes[6..8]), HexUpper(bytes[8..10]), HexUpper(bytes[10..]);
    assert id == h0 + "-" + (h1 + "-" + (h2 + "-" + (h3 + "-" + h4)));
    forall i | 0 <= i < 36
      ensures IsDashPosition(i) ==> id[i] == '-'
      ensures !IsDashPosition(i) ==> IsUpperHexDigit(id[i])
    {
      if i < 8 { assert id[i] == h0[i]; }
      else if 8 < i < 13 { assert id[i] == h1[i - 9]; }
      else if 13 < i < 18 { assert id[i] == h2[i - 14]; }
      else if 18 < i < 23 { assert id[i] == h3[i - 19]; }
      else if 23 < i { assert id[i] == h4[i - 24]; }
    }
  }

  lemma DashFree(bytes: seq<byte>)
    ensures Free(HexUpper(bytes), '-') && IsHexDigits(HexUpper(bytes))
  {
    HexUpperRoundTrip(bytes);
  }

  /** Five dash-free groups joined by dashes split back into those groups. */
  lemma SplitGroups(h0: string, h1: string, h2: string, h3: string, h4: string)
    requires Free(h0, '-') && Free(h1, '-') && Free(h2, '-') && Free(h3, '-') && Free(h4, '-')
    ensures Split(h0 + "-" + (h1 + "-" + (h2 + "-" + (h3 + "-" + h4))), '-') == [h0, h1, h2, h3, h4]
  {
    var t3 := h3 + "-" + h4;
    var t2 := h2 + "-" + t3;
    var t1 := h1 + "-" + t2;
    SplitWord(h4, '-', []);
    SplitWord(h3, '-', h4);
    assert Split(t3, '-') == [h3, h4];
    SplitWord(h2, '-', t3);
    assert Split(t2, '-') == [h2, h3, h4];
    SplitWord(h1, '-', t2);
    assert Split(t1, '-') == [h1, h2, h3, h4];
    SplitWord(h0, '-', t1);
  }

  lemma UuidGroups(bytes: seq<byte>)
    requires |bytes| == 16
    ensures Split(PseudoUuid(bytes), '-')
         == [HexUpper(bytes[0..4]), HexUpper(bytes[4..6]), HexUpper(bytes[6..8]),
             HexUpper(bytes[8..10]), HexUpper(bytes[10..])]
  {
    DashFree(bytes[0..4]);
    DashFree(bytes[4..6]);
    DashFree(bytes[6..8]);
    DashFree(bytes[8..10]);
    DashFree(bytes[10..]);
    SplitGroups(HexUpper(bytes[0..4]), HexUpper(bytes[4..6]), HexUpper(bytes[6..8]),
      HexUpper(bytes[8..10]), HexUpper(bytes[10..]));
  }

  /** Reading the identifier back gives the sixteen bytes it was made from;
      so distinct random bytes give distinct identifiers. */
  lemma UuidRoundTrip(bytes: seq<byte>)
    requires |bytes| == 16
    ensures ParseUuid(PseudoUuid(bytes)) == Some(bytes)
  {
    UuidGroups(bytes);
    HexUpperRoundTrip(bytes[0..4]);
    HexUpperRoundTrip(bytes[4..6]);
    HexUpperRoundTrip(bytes[6..8]);
    HexUpperRoundTrip(bytes[8..10]);
    HexUpperRoundTrip(bytes[10..]);
    assert bytes[0..4] + bytes[4..6] + bytes[6..8] + bytes[8..10] + bytes[10..] == bytes;
  }

  lemma UuidInjective(a: seq<byte>, b: seq<byte>)
    requires |a| == 16 && |b| == 16 && a != b
    ensures PseudoUuid(a) != PseudoUuid(b)
  {
    UuidRoundTrip(a);
    UuidRoundTrip(b);
  }
}
