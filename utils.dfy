/** The backend's small helpers: the file id derived from a file name, the
    search filter built from the chat request's overrides, and newline
    stripping of search captions.
 */
module Utils {
  import opened Strings

  type Byte = x: int | 0 <= x < 256

  // ---------------------------------------------------------------------------
  // UTF-8 (RFC 3629), as Python's `str.encode("utf-8")` produces it

  /** Number of bytes of a sequence that starts with lead byte `b`, or 0 for a
      byte that cannot start one. */
  function LeadLength(b: Byte): nat
  {
    if b < 0x80 then 1
    else if b < 0xC0 then 0
    else if b < 0xE0 then 2
    else if b < 0xF0 then 3
    else if b < 0xF8 then 4
    else 0
  }

  function EncodeChar(c: char): (bs: seq<Byte>)
    ensures 1 <= |bs| <= 4
  {
    var v := c as int;
    if v < 0x80 then [v]
    else if v < 0x800 then [0xC0 + v / 64, 0x80 + v % 64]
    else if v < 0x10000 then [0xE0 + v / 64 / 64, 0x80 + v / 64 % 64, 0x80 + v % 64]
    else [0xF0 + v / 64 / 64 / 64, 0x80 + v / 64 / 64 % 64, 0x80 + v / 64 % 64, 0x80 + v % 64]
  }

  function EncodeUtf8(s: string): (bs: seq<Byte>)
    ensures |bs| >= |s|
  {
    if s == [] then [] else EncodeChar(s[0]) + EncodeUtf8(s[1..])
  }

  predicate IsContinuation(b: Byte)
  {
    0x80 <= b < 0xC0
  }

  /** The smallest scalar value that needs `n` bytes (longer encodings are rejected). */
  function MinScalar(n: nat): nat
  {
    if n <= 1 then 0 else if n == 2 then 0x80 else if n == 3 then 0x800 else 0x10000
  }

  /** The payload bits of a complete sequence of `|bs|` bytes. */
  function ScalarBits(bs: seq<Byte>): int
    requires 1 <= |bs| <= 4
  {
    var b0 := bs[0] as int;
    if |bs| == 1 then b0
    else if |bs| == 2 then (b0 - 0xC0) * 64 + (bs[1] as int - 0x80)
    else if |bs| == 3 then ((b0 - 0xE0) * 64 + (bs[1] as int - 0x80)) * 64 + (bs[2] as int - 0x80)
    else (((b0 - 0xF0) * 64 + (bs[1] as int - 0x80)) * 64 + (bs[2] as int - 0x80)) * 64 + (bs[3] as int - 0x80)
  }

  /** Decodes one complete sequence of `|bs|` bytes into a scalar value. */
  function DecodeScalar(bs: seq<Byte>): Option<char>
    requires 1 <= |bs| <= 4 && LeadLength(bs[0]) == |bs|
  {
    if exists k :: 1 <= k < |bs| && !IsContinuation(bs[k]) then None
    else
      var v := ScalarBits(bs);
      if v < MinScalar(|bs|) || (0xD800 <= v < 0xE000) || v >= 0x110000 then None
      else Some(v as char)
  }

  function DecodeUtf8(bs: seq<Byte>): Option<string>
    decreases |bs|
  {
    if bs == [] then Some("")
    else
      var n := LeadLength(bs[0]);
      if n == 0 || |bs| < n then None
      else
        match DecodeScalar(bs[..n])
        case None => None
        case Some(c) =>
          match DecodeUtf8(bs[n..])
          case None => None
          case Some(rest) => Some([c] + rest)
  }

  lemma EncodeCharDecodes(c: char)
    ensures var bs := EncodeChar(c); LeadLength(bs[0]) == |bs| && DecodeScalar(bs) == Some(c)
  {
    var v := c as int;
    var bs := EncodeChar(c);
    if v < 0x80 {
    } else if v < 0x800 {
      assert ScalarBits(bs) == v;
    } else if v < 0x10000 {
      var q := v / 64;
      assert q / 64 * 64 + q % 64 == q;
      assert ScalarBits(bs) == v;
    } else {
      var q := v / 64;
      var q2 := q / 64;
      assert q2 / 64 * 64 + q2 % 64 == q2;
      assert q2 * 64 + q % 64 == q;
      assert ScalarBits(bs) == v;
    }
  }

  /** Decoding UTF-8 gives back the encoded text. */
  lemma {:induction false} Utf8RoundTrip(s: string)
    ensures DecodeUtf8(EncodeUtf8(s)) == Some(s)
  {
    if s != [] {
      var head := EncodeChar(s[0]);
      var bs := EncodeUtf8(s);
      assert bs == head + EncodeUtf8(s[1..]);
      EncodeCharDecodes(s[0]);
      assert bs[..|head|] == head;
      assert bs[|head|..] == EncodeUtf8(s[1..]);
      Utf8RoundTrip(s[1..]);
      assert [s[0]] + s[1..] == s;
    }
  }

  // ---------------------------------------------------------------------------
  // Base16 (section 8 of RFC 4648), as Python's `base64.b16encode` produces it

  const HexAlphabet: string := "0123456789ABCDEF"

  predicate IsHexDigit(c: char)
  {
    ('0' <= c <= '9') || ('A' <= c <= 'F')
  }

  function HexValue(c: char): (d: nat)
    requires IsHexDigit(c)
    ensures d < 16
  {
    if c <= '9' then (c as int) - ('0' as int) else (c as int) - ('A' as int) + 10
  }

  lemma HexDigitValue(d: nat)
    requires d < 16
    ensures IsHexDigit(HexAlphabet[d]) && HexValue(HexAlphabet[d]) == d
  {
  }

  function Base16Encode(bs: seq<Byte>): (r: string)
    ensures |r| == 2 * |bs|
    ensures forall k :: 0 <= k < |r| ==> IsHexDigit(r[k])
  {
    if bs == [] then ""
    else
      HexDigitValue(bs[0] / 16);
      HexDigitValue(bs[0] % 16);
      [HexAlphabet[bs[0] / 16], HexAlphabet[bs[0] % 16]] + Base16Encode(bs[1..])
  }

  function Base16Decode(s: string): Option<seq<Byte>>
    decreases |s|
  {
    if s == [] then Some([])
    else if |s| == 1 || !IsHexDigit(s[0]) || !IsHexDigit(s[1]) then None
    else
      match Base16Decode(s[2..])
      case None => None
      case Some(rest) => Some([HexValue(s[0]) * 16 + HexValue(s[1])] + rest)
  }

  /** Decoding Base16 gives back the encoded bytes. */
  lemma {:induction false} Base16RoundTrip(bs: seq<Byte>)
    ensures Base16Decode(Base16Encode(bs)) == Some(bs)
  {
    if bs != [] {
      var s := Base16Encode(bs);
      HexDigitValue(bs[0] / 16);
      HexDigitValue(bs[0] % 16);
      assert s[2..] == Base16Encode(bs[1..]);
      Base16RoundTrip(bs[1..]);
      assert [bs[0]] + bs[1..] == bs;
    }
  }

  // ---------------------------------------------------------------------------
  // filename_to_id

  /** The deterministic id of a file: Base16 of its name's UTF-8 bytes. */
  function FilenameToId(filename: string): (id: string)
    ensures |id| == 2 * |EncodeUtf8(filename)|
    ensures forall k :: 0 <= k < |id| ==> IsHexDigit(id[k])
  {
    Base16Encode(EncodeUtf8(filename))
  }

  /** An id decodes back to the file name's bytes and thus to the file name. */
  lemma FilenameToIdDecodes(filename: string)
    ensures Base16Decode(FilenameToId(filename)) == Some(EncodeUtf8(filename))
    ensures DecodeUtf8(EncodeUtf8(filename)) == Some(filename)
  {
    Base16RoundTrip(EncodeUtf8(filename));
    Utf8RoundTrip(filename);
  }

  /** Two different file names never share an id. */
  lemma FilenameToIdInjective(a: string, b: string)
    requires FilenameToId(a) == FilenameToId(b)
    ensures a == b
  {
    FilenameToIdDecodes(a);
    FilenameToIdDecodes(b);
  }

  // ---------------------------------------------------------------------------
  // build_filters

  /** The part of a chat request's `overrides` that the filter reads; an absent
      key is the empty list. */
  datatype Overrides = Overrides(excludeCategories: seq<string>, sourcefiles: seq<string>)

  /** Python `s.replace("'", "''")`. */
  function EscapeQuotes(s: string): (r: string)
    ensures |r| == |s| + CountChar(s, '\'')
  {
    if s == [] then ""
    else (if s[0] == '\'' then "''" else [s[0]]) + EscapeQuotes(s[1..])
  }

  /** Reads an OData string literal body up to its closing quote, where `''`
      stands for one quote; yields the value and what follows the closing quote. */
  function ReadLiteral(s: string): Option<(string, string)>
    decreases |s|
  {
    if s == [] then None
    else if s[0] == '\'' then
      if |s| >= 2 && s[1] == '\'' then
        match ReadLiteral(s[2..])
        case None => None
        case Some(p) => Some(("'" + p.0, p.1))
      else Some(("", s[1..]))
    else
      match ReadLiteral(s[1..])
      case None => None
      case Some(p) => Some(([s[0]] + p.0, p.1))
  }

  lemma ReadLiteralQuotePair(t: string)
    ensures ReadLiteral("''" + t) ==
      match ReadLiteral(t) case None => None case Some(p) => Some(("'" + p.0, p.1))
  {
    assert ("''" + t)[2..] == t;
  }

  lemma ReadLiteralPlain(x: char, t: string)
    requires x != '\''
    ensures ReadLiteral([x] + t) ==
      match ReadLiteral(t) case None => None case Some(p) => Some(([x] + p.0, p.1))
  {
    assert ([x] + t)[1..] == t;
  }

  /** A literal read to its closing quote takes one character of the text per
      character of its value, one more per quote in it, one for the closing
      quote, and leaves the rest. */
  lemma {:induction false} ReadLiteralLength(s: string)
    ensures ReadLiteral(s).Some? ==>
      |ReadLiteral(s).value.0| + CountChar(ReadLiteral(s).value.0, '\'') + 1 + |ReadLiteral(s).value.1| == |s|
    decreases |s|
  {
    if s != [] {
      if s[0] == '\'' {
        if |s| >= 2 && s[1] == '\'' {
          ReadLiteralLength(s[2..]);
          if ReadLiteral(s[2..]).Some? {
            var v := ReadLiteral(s[2..]).value.0;
            assert ("'" + v)[1..] == v;
          }
        }
      } else {
        ReadLiteralLength(s[1..]);
        if ReadLiteral(s[1..]).Some? {
          var v := ReadLiteral(s[1..]).value.0;
          assert ([s[0]] + v)[1..] == v;
        }
      }
    }
  }

  /** A text without quotes is its own escaping. */
  lemma {:induction false} EscapeQuotesPlain(s: string)
    requires NoChar(s, '\'')
    ensures EscapeQuotes(s) == s
    decreases |s|
  {
    if s != [] {
      assert NoChar(s[1..], '\'') by {
        forall j | 0 <= j < |s[1..]| ensures s[1..][j] != '\'' { assert s[1..][j] == s[j + 1]; }
      }
      EscapeQuotesPlain(s[1..]);
      assert [s[0]] + s[1..] == s;
    }
  }

  /** The escaped category reads back as exactly the category: a quote in a
      category name cannot end the literal early. */
  lemma {:induction false} EscapeQuotesReadsBack(c: string, rest: string)
    requires rest == [] || rest[0] != '\''
    ensures ReadLiteral(EscapeQuotes(c) + "'" + rest) == Some((c, rest))
  {
    if c == [] {
      assert EscapeQuotes(c) + "'" + rest == "'" + rest;
      assert ("'" + rest)[1..] == rest;
    } else {
      var tail := EscapeQuotes(c[1..]) + "'" + rest;
      EscapeQuotesReadsBack(c[1..], rest);
      EscapeQuotesCons(c, rest);
      if c[0] == '\'' {
        ReadLiteralQuotePair(tail);
        assert "'" + c[1..] == c;
      } else {
        ReadLiteralPlain(c[0], tail);
        assert [c[0]] + c[1..] == c;
      }
    }
  }

  lemma EscapeQuotesCons(c: string, rest: string)
    requires c != []
    ensures EscapeQuotes(c) + "'" + rest == (if c[0] == '\'' then "''" else [c[0]]) + (EscapeQuotes(c[1..]) + "'" + rest)
  {
    var h := if c[0] == '\'' then "''" else [c[0]];
    assert EscapeQuotes(c) == h + EscapeQuotes(c[1..]);
    assert h + EscapeQuotes(c[1..]) + "'" + rest == h + (EscapeQuotes(c[1..]) + "'" + rest);
  }

  function CategoryClause(category: string): string
  {
    "category ne '" + EscapeQuotes(category) + "'"
  }

  function SourcefilesClause(sourcefiles: seq<string>): string
  {
    "search.in(sourcefile, '" + Join(sourcefiles, ",") + "', ',')"
  }

  /** The clauses, in order: one per excluded category, then one for the source files. */
  function FilterClauses(o: Overrides): seq<string>
  {
    seq(|o.excludeCategories|, i requires 0 <= i < |o.excludeCategories| => CategoryClause(o.excludeCategories[i]))
      + (if |o.sourcefiles| > 0 then [SourcefilesClause(o.sourcefiles)] else [])
  }

  method BuildFilters(o: Overrides) returns (r: Option<string>)
    ensures r.None? <==> |o.excludeCategories| == 0 && |o.sourcefiles| == 0
    ensures r.Some? ==> r.value == Join(FilterClauses(o), " and ")
  {
    var filters: seq<string> := [];
    if |o.excludeCategories| > 0 {
      var i := 0;
      while i < |o.excludeCategories|
        invariant 0 <= i <= |o.excludeCategories|
        invariant filters == FilterClauses(Overrides(o.excludeCategories[..i], []))
      {
        filters := filters + [CategoryClause(o.excludeCategories[i])];
        i := i + 1;
      }
      assert o.excludeCategories[..i] == o.excludeCategories;
    }
    if |o.sourcefiles| > 0 {
      filters := filters + [SourcefilesClause(o.sourcefiles)];
    }
    assert filters == FilterClauses(o);
    r := if |filters| == 0 then None else Some(Join(filters, " and "));
  }

  // ---------------------------------------------------------------------------
  // nonewlines

  /** Python `s.replace(target, replacement)` for one-character strings. */
  function ReplaceChar(s: string, target: char, replacement: char): (r: string)
    ensures |r| == |s|
    ensures forall k :: 0 <= k < |s| ==> r[k] == if s[k] == target then replacement else s[k]
  {
    if s == [] then ""
    else [if s[0] == target then replacement else s[0]] + ReplaceChar(s[1..], target, replacement)
  }

  function NonNewlines(s: string): (r: string)
    ensures |r| == |s|
    ensures forall k :: 0 <= k < |r| ==> r[k] != '\n' && r[k] != '\r'
    ensures forall k :: 0 <= k < |s| ==> r[k] == if s[k] == '\n' || s[k] == '\r' then ' ' else s[k]
  {
    ReplaceChar(ReplaceChar(s, '\n', ' '), '\r', ' ')
  }
}
