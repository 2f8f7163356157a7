/** The section splitter shared by both ingestion pipelines (`split_text` with
    its `find_page` helper): a character cursor over the concatenated page
    texts that cuts sections of about `MaxSectionLength` characters, moves each
    end forward to a sentence ending or word break and each start back to one,
    and tags each section with the page that holds its first character.

    The loop is specified in closed form by `SectionEnd`, `SectionStart` and
    `NextStart` (one iteration) and `Cuts` (the whole run). `SplitText` runs
    the source's nested loops with one change: the table pull-back is taken
    only when it moves past the loop position (`NextStart`), so the loop ends
    on every text. Where every position of the source's own rule
    (`NextStartAsWritten`) advances, the two runs cut the same sections
    (`SectionsAgreeAsWritten`).
 */
module Splitter {
  import opened Strings

  const MaxSectionLength: int := 1000
  const SentenceSearchLimit: int := 100
  const SectionOverlap: int := 100

  predicate IsSentenceEnding(c: char)
  {
    c == '.' || c == '!' || c == '?'
  }

  predicate IsWordBreak(c: char)
  {
    c == ',' || c == ';' || c == ':' || c == ' ' || c == '(' || c == ')' || c == '['
    || c == ']' || c == '{' || c == '}' || c == '\t' || c == '\n'
  }

  function Min(a: int, b: int): int { if a <= b then a else b }
  function Max(a: int, b: int): int { if a >= b then a else b }

  /** One entry of a page map: the page number, the offset of the page's text
      in the concatenated text, and the page's text. */
  datatype Page = Page(pageNum: int, pageOffset: int, pageText: string)

  /** One emitted section: its text and the page-map index of its page. */
  datatype Chunk = Chunk(content: string, page: int)

  /** `"".join(p["page_text"] for p in page_map)`. */
  function AllText(pages: seq<Page>): string
    decreases |pages|
  {
    if pages == [] then "" else AllText(pages[..|pages| - 1]) + pages[|pages| - 1].pageText
  }

  /** The offsets run from 0 and each page's offset is the previous page's
      offset plus the previous page's text length. */
  predicate WellFormed(pages: seq<Page>)
  {
    && (|pages| > 0 ==> pages[0].pageOffset == 0)
    && forall i :: 0 <= i < |pages| - 1 ==> pages[i + 1].pageOffset == pages[i].pageOffset + |pages[i].pageText|
  }

  // ---------------------------------------------------------------------------
  // find_page

  /** The first index `i < |pages| - 1` whose page offset range
      `[pages[i].pageOffset, pages[i + 1].pageOffset)` holds `offset`, else the
      last index (-1 for an empty map). */
  function FindPage(pages: seq<Page>, offset: int): (r: int)
    ensures -1 <= r < |pages|
    ensures r == |pages| - 1 || (0 <= r && pages[r].pageOffset <= offset < pages[r + 1].pageOffset)
    ensures forall j :: 0 <= j < r && j < |pages| - 1 ==> !(pages[j].pageOffset <= offset < pages[j + 1].pageOffset)
  {
    FindPageFrom(pages, offset, 0)
  }

  function FindPageFrom(pages: seq<Page>, offset: int, i: nat): (r: int)
    requires i <= |pages| || |pages| == 0
    decreases |pages| - i
    ensures -1 <= r < |pages|
    ensures r == |pages| - 1 || (i <= r && pages[r].pageOffset <= offset < pages[r + 1].pageOffset)
    ensures forall j :: i <= j < r && j < |pages| - 1 ==> !(pages[j].pageOffset <= offset < pages[j + 1].pageOffset)
  {
    if i + 1 >= |pages| then |pages| - 1
    else if pages[i].pageOffset <= offset < pages[i + 1].pageOffset then i
    else FindPageFrom(pages, offset, i + 1)
  }

  lemma {:induction false} AllTextPrefix(pages: seq<Page>, i: int)
    requires 0 <= i <= |pages|
    ensures StartsWith(AllText(pages), AllText(pages[..i]))
    decreases |pages| - i
  {
    if i < |pages| {
      AllTextPrefix(pages, i + 1);
      assert pages[..i + 1][..i] == pages[..i];
      assert StartsWith(AllText(pages[..i + 1]), AllText(pages[..i]));
    } else {
      assert pages[..i] == pages;
    }
  }

  /** Some offset range holds `offset` when it lies between two page offsets. */
  lemma {:induction false} SomeRangeHolds(pages: seq<Page>, offset: int, lo: int, hi: int)
    requires 0 <= lo < hi < |pages|
    requires pages[lo].pageOffset <= offset < pages[hi].pageOffset
    ensures exists j :: lo <= j < hi && pages[j].pageOffset <= offset < pages[j + 1].pageOffset
    decreases hi - lo
  {
    if offset >= pages[lo + 1].pageOffset {
      SomeRangeHolds(pages, offset, lo + 1, hi);
    }
  }

  lemma AllTextStep(pages: seq<Page>, i: int)
    requires 0 <= i < |pages|
    ensures AllText(pages[..i + 1]) == AllText(pages[..i]) + pages[i].pageText
  {
    assert pages[..i + 1][..i] == pages[..i];
  }

  /** In a well-formed page map each page's offset is the total length of
      the texts before it, which is where its text sits in `AllText`. */
  lemma {:induction false} OffsetIsPrefixLength(pages: seq<Page>, i: int)
    requires WellFormed(pages)
    requires 0 <= i < |pages|
    ensures pages[i].pageOffset == |AllText(pages[..i])|
  {
    if i == 0 {
      assert pages[..0] == [];
    } else {
      OffsetIsPrefixLength(pages, i - 1);
      AllTextStep(pages, i - 1);
    }
  }

  /** In a well-formed page map, `FindPage` names the page whose text holds the
      character at `offset`. */
  lemma PageOwnership(pages: seq<Page>, offset: int)
    requires WellFormed(pages)
    requires 0 <= offset < |AllText(pages)|
    ensures var p := FindPage(pages, offset);
      0 <= p < |pages|
      && pages[p].pageOffset <= offset < pages[p].pageOffset + |pages[p].pageText|
      && AllText(pages)[offset] == pages[p].pageText[offset - pages[p].pageOffset]
  {
    FindPageInRange(pages, offset);
    CharOfPage(pages, FindPage(pages, offset), offset);
  }

  /** `FindPage` lands on the page whose range holds `offset`. */
  lemma FindPageInRange(pages: seq<Page>, offset: int)
    requires WellFormed(pages)
    requires 0 <= offset < |AllText(pages)|
    ensures var p := FindPage(pages, offset);
      0 <= p < |pages| && pages[p].pageOffset <= offset < pages[p].pageOffset + |pages[p].pageText|
  {
    var n := |pages|;
    assert n > 0;
    var p := FindPage(pages, offset);
    if p == n - 1 {
      if offset < pages[n - 1].pageOffset {
        SomeRangeHolds(pages, offset, 0, n - 1);
        assert false;
      }
      assert pages[..n] == pages;
      AllTextStep(pages, n - 1);
      OffsetIsPrefixLength(pages, n - 1);
    }
  }

  /** The character at an offset within page `p`'s range is that page's. */
  lemma CharOfPage(pages: seq<Page>, p: int, offset: int)
    requires WellFormed(pages)
    requires 0 <= p < |pages| && pages[p].pageOffset <= offset < pages[p].pageOffset + |pages[p].pageText|
    requires 0 <= offset < |AllText(pages)|
    ensures AllText(pages)[offset] == pages[p].pageText[offset - pages[p].pageOffset]
  {
    OffsetIsPrefixLength(pages, p);
    AllTextStep(pages, p);
    AllTextPrefix(pages, p + 1);
    var prefix := AllText(pages[..p + 1]);
    assert AllText(pages)[offset] == prefix[offset];
  }

  // ---------------------------------------------------------------------------
  // The scans of one iteration, each a loop of the source in closed form

  /** The first index in `[lo, hi)` whose character satisfies `p`, else `hi`. */
  function ScanTo(text: string, lo: int, hi: int, p: char -> bool): (r: int)
    requires 0 <= lo <= hi <= |text|
    decreases hi - lo
    ensures lo <= r <= hi
    ensures r < hi ==> p(text[r])
    ensures forall j :: lo <= j < r ==> !p(text[j])
  {
    if lo == hi || p(text[lo]) then lo else ScanTo(text, lo + 1, hi, p)
  }

  /** The last index in `[lo, hi)` whose character satisfies `p`, else -1. */
  function LastMatch(text: string, lo: int, hi: int, p: char -> bool): (r: int)
    requires 0 <= lo <= hi <= |text|
    decreases hi - lo
    ensures r == -1 || (lo <= r < hi && p(text[r]))
    ensures forall j :: lo <= j < hi && r < j ==> !p(text[j])
  {
    if lo == hi then -1 else if p(text[hi - 1]) then hi - 1 else LastMatch(text, lo, hi - 1, p)
  }

  /** The first index in `[lo, hi)` whose character satisfies `p`, else -1. */
  function FirstMatch(text: string, lo: int, hi: int, p: char -> bool): (r: int)
    requires 0 <= lo <= hi <= |text|
    decreases hi - lo
    ensures r == -1 || (lo <= r < hi && p(text[r]))
    ensures forall j :: lo <= j < hi && (r == -1 || j < r) ==> !p(text[j])
  {
    if lo == hi then -1 else if p(text[lo]) then lo else FirstMatch(text, lo + 1, hi, p)
  }

  /** Walks back from `i` while above `bound` and not at a character that
      satisfies `p`. */
  function ScanBack(text: string, bound: int, i: int, p: char -> bool): (r: int)
    requires 0 <= bound && 0 <= i < |text|
    decreases i
    ensures Min(bound, i) <= r <= i
    ensures r > bound ==> p(text[r])
    ensures forall j :: r < j <= i ==> !p(text[j])
  {
    if i <= bound || p(text[i]) then i else ScanBack(text, bound, i - 1, p)
  }

  predicate NoneIn(text: string, lo: int, hi: int, p: char -> bool)
    requires 0 <= lo && hi <= |text|
  {
    forall j :: lo <= j < hi ==> !p(text[j])
  }

  /** The end of the section of the iteration that starts at `start`: the end
      of the text when the nominal end `start + MaxSectionLength` lies beyond
      it, otherwise at most `SentenceSearchLimit + 1` characters past the
      nominal end (`SectionEndBoundary` says where). */
  function SectionEnd(text: string, start: int): (r: int)
    requires 0 <= start && start + SectionOverlap < |text|
    ensures start + SectionOverlap < r <= |text|
    ensures r <= start + MaxSectionLength + SentenceSearchLimit + 1
    ensures start + MaxSectionLength > |text| ==> r == |text|
    ensures start + MaxSectionLength <= |text| ==> start + MaxSectionLength <= r
  {
    var length := |text|;
    if start + MaxSectionLength > length then length
    else
      var limit := Min(length, start + MaxSectionLength + SentenceSearchLimit);
      var e := ScanTo(text, start + MaxSectionLength, limit, IsSentenceEnding);
      var lastWord := LastMatch(text, start + MaxSectionLength, e, IsWordBreak);
      var e' := if e < length && !IsSentenceEnding(text[e]) && lastWord > 0 then lastWord else e;
      if e' < length then e' + 1 else e'
  }

  /** Once the nominal end is inside the text, the section runs to the first
      sentence ending in the `SentenceSearchLimit + 1` characters from the
      nominal end; lacking one, to the last word break before the search
      limit; lacking that too, to the search limit. */
  lemma SectionEndBoundary(text: string, start: int)
    requires 0 <= start && start + MaxSectionLength <= |text|
    ensures var r := SectionEnd(text, start);
      var nominal := start + MaxSectionLength;
      var limit := nominal + SentenceSearchLimit;
      && (!NoneIn(text, nominal, Min(|text|, limit + 1), IsSentenceEnding)
          ==> IsSentenceEnding(text[r - 1]) && NoneIn(text, nominal, r - 1, IsSentenceEnding))
      && (limit < |text| && NoneIn(text, nominal, limit + 1, IsSentenceEnding) && !NoneIn(text, nominal, limit, IsWordBreak)
          ==> IsWordBreak(text[r - 1]) && NoneIn(text, r, limit, IsWordBreak))
      && (NoneIn(text, nominal, Min(|text|, limit + 1), IsSentenceEnding)
          && (limit >= |text| || NoneIn(text, nominal, limit, IsWordBreak))
          ==> r == Min(|text|, limit + 1))
  {
  }

  /** The start of the section of the iteration that starts at `start` and
      ends at `end`; it lies within `MaxSectionLength + 2 * SentenceSearchLimit`
      of `end` (`SectionStartBoundary` says where). */
  function SectionStart(text: string, start: int, end: int): (r: int)
    requires 0 <= start && start + SectionOverlap < end <= |text|
    requires end <= start + MaxSectionLength + SentenceSearchLimit + 1
    ensures 0 <= r <= start + 1
    ensures end - r <= MaxSectionLength + 2 * SentenceSearchLimit
  {
    var bound := Max(0, end - MaxSectionLength - 2 * SentenceSearchLimit);
    var k := ScanBack(text, bound, start, IsSentenceEnding);
    var lastWord := FirstMatch(text, k + 1, start + 1, IsWordBreak);
    var s := if !IsSentenceEnding(text[k]) && lastWord > 0 then lastWord else k;
    if s > 0 then s + 1 else s
  }

  /** The section starts just after the closest sentence ending at or before
      `start` that lies beyond the bound `end - MaxSectionLength -
      2 * SentenceSearchLimit`; lacking one, just after a word break; lacking
      that too, just after the bound, or at 0. */
  lemma SectionStartBoundary(text: string, start: int, end: int)
    requires 0 <= start && start + SectionOverlap < end <= |text|
    requires end <= start + MaxSectionLength + SentenceSearchLimit + 1
    ensures var r := SectionStart(text, start, end);
      var bound := Max(0, end - MaxSectionLength - 2 * SentenceSearchLimit);
      && (r == 0 || IsSentenceEnding(text[r - 1]) || IsWordBreak(text[r - 1]) || r - 1 == bound)
      && (!NoneIn(text, bound + 1, start + 1, IsSentenceEnding)
          ==> 0 < r && IsSentenceEnding(text[r - 1]) && NoneIn(text, r, start + 1, IsSentenceEnding))
  {
  }

  /** The section ends inside a table: its last `<table` lies beyond
      `2 * SentenceSearchLimit` and after its last `</table`. */
  predicate EndsInOpenTable(section: string)
  {
    var t := LastIndexOf(section, "<table");
    t > 2 * SentenceSearchLimit && t > LastIndexOf(section, "</table")
  }

  /** The next loop position exactly as the source computes it. */
  function NextStartAsWritten(text: string, start: int): int
    requires 0 <= start && start + SectionOverlap < |text|
  {
    var end := SectionEnd(text, start);
    var s := SectionStart(text, start, end);
    var section := text[s..end];
    if EndsInOpenTable(section) then Min(end - SectionOverlap, s + LastIndexOf(section, "<table"))
    else end - SectionOverlap
  }

  /** The next loop position with the table pull-back taken only when it moves
      past the current position. It always advances, it leaves at least
      `SectionOverlap` characters of overlap, it starts the next window at or
      before an unclosed table, and it agrees with the source whenever the
      source itself advances. */
  function NextStart(text: string, start: int): (r: int)
    requires 0 <= start && start + SectionOverlap < |text|
    ensures start < r <= SectionEnd(text, start) - SectionOverlap
    ensures var end := SectionEnd(text, start);
      var s := SectionStart(text, start, end);
      EndsInOpenTable(text[s..end]) && s + LastIndexOf(text[s..end], "<table") > start
      ==> r <= s + LastIndexOf(text[s..end], "<table")
    ensures NextStartAsWritten(text, start) > start ==> r == NextStartAsWritten(text, start)
  {
    var end := SectionEnd(text, start);
    var s := SectionStart(text, start, end);
    var section := text[s..end];
    var t := LastIndexOf(section, "<table");
    if EndsInOpenTable(section) && s + t > start then Min(end - SectionOverlap, s + t)
    else end - SectionOverlap
  }

  // ---------------------------------------------------------------------------
  // The whole run

  predicate ValidCuts(text: string, cuts: seq<(int, int)>)
  {
    forall i :: 0 <= i < |cuts| ==> 0 <= cuts[i].0 < cuts[i].1 <= |text|
  }

  /** Cuts within the text, each at most `MaxSectionLength + 2 *
      SentenceSearchLimit` long, each next one starting at least
      `SectionOverlap - 1` characters before the previous one ends, and the
      last one ending at the end of the text. */
  predicate Chained(text: string, r: seq<(int, int)>)
  {
    && ValidCuts(text, r)
    && (forall i :: 0 <= i < |r| ==> r[i].1 - r[i].0 <= MaxSectionLength + 2 * SentenceSearchLimit)
    && (forall i :: 0 <= i < |r| - 1 ==> r[i + 1].0 <= r[i].1 - SectionOverlap + 1)
    && (r != [] ==> r[|r| - 1].1 == |text|)
  }

  /** The `(start, end)` positions of the sections emitted from loop position
      `start` on: each within the text and at most
      `MaxSectionLength + 2 * SentenceSearchLimit` long, the first starting no
      later than `start + 1`, each next one starting at least
      `SectionOverlap - 1` characters before the previous one ends, and the
      last one ending at the end of the text. */
  function Cuts(text: string, start: int): (r: seq<(int, int)>)
    requires 0 <= start
    decreases |text| - start
    ensures Chained(text, r)
    ensures r != [] ==> r[0].0 <= start + 1
    ensures r == [] <==> start + SectionOverlap >= |text|
  {
    if start + SectionOverlap >= |text| then []
    else
      var (cut, next) := Step(text, start);
      var rest := Cuts(text, next);
      ConsCut(text, cut, rest);
      [cut] + rest
  }

  /** One iteration of the loop: the section cut from `start`, and the next
      loop position. */
  function Step(text: string, start: int): (r: ((int, int), int))
    requires 0 <= start && start + SectionOverlap < |text|
    ensures 0 <= r.0.0 <= start + 1 && r.0.0 < r.0.1 <= |text|
    ensures r.0.1 - r.0.0 <= MaxSectionLength + 2 * SentenceSearchLimit
    ensures start < r.1 <= r.0.1 - SectionOverlap
    ensures r.0.1 < |text| ==> start + MaxSectionLength <= |text|
  {
    var end := SectionEnd(text, start);
    ((SectionStart(text, start, end), end), NextStart(text, start))
  }

  /** A cut in front of a run of cuts that starts early enough keeps the
      properties `Cuts` promises. */
  lemma ConsCut(text: string, c: (int, int), rest: seq<(int, int)>)
    requires 0 <= c.0 < c.1 <= |text| && c.1 - c.0 <= MaxSectionLength + 2 * SentenceSearchLimit
    requires Chained(text, rest)
    requires rest != [] ==> rest[0].0 <= c.1 - SectionOverlap + 1
    requires rest == [] ==> c.1 == |text|
    ensures Chained(text, [c] + rest)
  {
    var r := [c] + rest;
    assert forall i :: 1 <= i < |r| ==> r[i] == rest[i - 1];
  }

  function Render(pages: seq<Page>, text: string, cuts: seq<(int, int)>): (r: seq<Chunk>)
    requires ValidCuts(text, cuts)
    ensures |r| == |cuts|
    ensures forall i :: 0 <= i < |cuts| ==> r[i] == Chunk(text[cuts[i].0..cuts[i].1], FindPage(pages, cuts[i].0))
  {
    seq(|cuts|, i requires 0 <= i < |cuts| => Chunk(text[cuts[i].0..cuts[i].1], FindPage(pages, cuts[i].0)))
  }

  lemma ConcatAssoc<T>(a: seq<T>, b: seq<T>, c: seq<T>)
    ensures a + (b + c) == (a + b) + c
  {
  }

  lemma CutsStep(text: string, start: int)
    requires 0 <= start && start + SectionOverlap < |text|
    ensures var end := SectionEnd(text, start);
      Cuts(text, start) == [(SectionStart(text, start, end), end)] + Cuts(text, NextStart(text, start))
  {
    var end := SectionEnd(text, start);
    assert Step(text, start) == ((SectionStart(text, start, end), end), NextStart(text, start));
  }

  lemma RenderSnoc(pages: seq<Page>, text: string, cuts: seq<(int, int)>, c: (int, int))
    requires ValidCuts(text, cuts)
    requires 0 <= c.0 < c.1 <= |text|
    ensures ValidCuts(text, cuts + [c])
    ensures Render(pages, text, cuts + [c]) == Render(pages, text, cuts) + [Chunk(text[c.0..c.1], FindPage(pages, c.0))]
  {
    var r := Render(pages, text, cuts + [c]);
    assert forall i :: 0 <= i < |cuts| ==> (cuts + [c])[i] == cuts[i];
  }

  /** The sections `split_text` yields for a page map, in order. */
  function Sections(pages: seq<Page>): seq<Chunk>
  {
    var text := AllText(pages);
    Render(pages, text, Cuts(text, 0))
  }

  /** Every loop position the source's own rule reaches from `start` lies
      past the one before, so the source's loop ends. */
  predicate AsWrittenAdvances(text: string, start: int)
    requires 0 <= start
    decreases |text| - start
  {
    || start + SectionOverlap >= |text|
    || (NextStartAsWritten(text, start) > start && AsWrittenAdvances(text, NextStartAsWritten(text, start)))
  }

  /** The cuts of the source's own loop, where it ends. */
  function CutsAsWritten(text: string, start: int): (r: seq<(int, int)>)
    requires 0 <= start && AsWrittenAdvances(text, start)
    decreases |text| - start
    ensures ValidCuts(text, r)
  {
    if start + SectionOverlap >= |text| then []
    else
      var rest := CutsAsWritten(text, NextStartAsWritten(text, start));
      var r := [Step(text, start).0] + rest;
      assert forall i :: 1 <= i < |r| ==> r[i] == rest[i - 1];
      r
  }

  /** Where the source's loop ends, it cuts the same sections as `Cuts`. */
  lemma {:induction false} CutsAgreeAsWritten(text: string, start: int)
    requires 0 <= start && AsWrittenAdvances(text, start)
    ensures Cuts(text, start) == CutsAsWritten(text, start)
    decreases |text| - start
  {
    if start + SectionOverlap < |text| {
      CutsAgreeAsWritten(text, NextStartAsWritten(text, start));
      CutsStep(text, start);
    }
  }

  /** Where the source's loop ends on a document, `Sections` is what it yields. */
  lemma SectionsAgreeAsWritten(pages: seq<Page>)
    requires AsWrittenAdvances(AllText(pages), 0)
    ensures Sections(pages) == Render(pages, AllText(pages), CutsAsWritten(AllText(pages), 0))
  {
    CutsAgreeAsWritten(AllText(pages), 0);
  }

  /** The forward scan of one iteration of `split_text`. */
  method FindSectionEnd(allText: string, start: int) returns (end: int)
    requires 0 <= start && start + SectionOverlap < |allText|
    ensures end == SectionEnd(allText, start)
  {
    var length := |allText|;
    var lastWord := -1;
    end := start + MaxSectionLength;
    if end > length {
      end := length;
    } else {
      ghost var limit := Min(length, start + MaxSectionLength + SentenceSearchLimit);
      while end < length && end - start - MaxSectionLength < SentenceSearchLimit && !IsSentenceEnding(allText[end])
        invariant start + MaxSectionLength <= end <= limit
        invariant ScanTo(allText, end, limit, IsSentenceEnding) == ScanTo(allText, start + MaxSectionLength, limit, IsSentenceEnding)
        invariant lastWord == LastMatch(allText, start + MaxSectionLength, end, IsWordBreak)
        decreases length - end
      {
        if IsWordBreak(allText[end]) {
          lastWord := end;
        }
        end := end + 1;
      }
      if end < length && !IsSentenceEnding(allText[end]) && lastWord > 0 {
        end := lastWord;
      }
    }
    if end < length {
      end := end + 1;
    }
  }

  /** The backward scan of one iteration of `split_text`. */
  method FindSectionStart(allText: string, loopStart: int, end: int) returns (start: int)
    requires 0 <= loopStart && loopStart + SectionOverlap < end <= |allText|
    requires end <= loopStart + MaxSectionLength + SentenceSearchLimit + 1
    ensures start == SectionStart(allText, loopStart, end)
  {
    ghost var bound := Max(0, end - MaxSectionLength - 2 * SentenceSearchLimit);
    start := loopStart;
    var lastWord := -1;
    while start > 0 && start > end - MaxSectionLength - 2 * SentenceSearchLimit && !IsSentenceEnding(allText[start])
      invariant 0 <= start <= loopStart
      invariant ScanBack(allText, bound, start, IsSentenceEnding) == ScanBack(allText, bound, loopStart, IsSentenceEnding)
      invariant lastWord == FirstMatch(allText, start + 1, loopStart + 1, IsWordBreak)
      decreases start
    {
      if IsWordBreak(allText[start]) {
        lastWord := start;
      }
      start := start - 1;
    }
    if !IsSentenceEnding(allText[start]) && lastWord > 0 {
      start := lastWord;
    }
    if start > 0 {
      start := start + 1;
    }
  }

  /** The table rule at the end of one iteration of `split_text`, taken only
      when it moves past the iteration's loop position `loopStart`. */
  method NextSectionStart(allText: string, loopStart: int, start: int, end: int) returns (next: int)
    requires 0 <= loopStart && loopStart + SectionOverlap < |allText|
    requires end == SectionEnd(allText, loopStart) && start == SectionStart(allText, loopStart, end)
    ensures next == NextStart(allText, loopStart)
  {
    var sectionText := allText[start..end];
    var lastTableStart := LastIndexOf(sectionText, "<table");
    if lastTableStart > 2 * SentenceSearchLimit && lastTableStart > LastIndexOf(sectionText, "</table")
      && start + lastTableStart > loopStart
    {
      next := Min(end - SectionOverlap, start + lastTableStart);
    } else {
      next := end - SectionOverlap;
    }
  }

  /** `split_text` with the sections collected into a sequence instead of
      yielded one by one, and the table pull-back of `NextSectionStart`
      taken only when it advances. */
  method SplitText(pages: seq<Page>) returns (sections: seq<Chunk>)
    ensures sections == Sections(pages)
  {
    var allText := AllText(pages);
    var length := |allText|;
    var start := 0;
    var end := length;
    sections := [];
    ghost var done: seq<(int, int)> := [];
    while start + SectionOverlap < length
      invariant 0 <= start && end <= length
      invariant start + SectionOverlap >= length ==> start + SectionOverlap >= end
      invariant ValidCuts(allText, done)
      invariant done + Cuts(allText, start) == Cuts(allText, 0)
      invariant sections == Render(pages, allText, done)
      decreases length - start
    {
      var loopStart := start;
      end := FindSectionEnd(allText, loopStart);
      start := FindSectionStart(allText, loopStart, end);
      var sectionText := allText[start..end];
      CutsStep(allText, loopStart);
      RenderSnoc(pages, allText, done, (start, end));
      ghost var before, cut := done, (start, end);
      ghost var rest := Cuts(allText, NextStart(allText, loopStart));
      assert before + Cuts(allText, loopStart) == before + ([cut] + rest);
      sections := sections + [Chunk(sectionText, FindPage(pages, start))];
      done := done + [(start, end)];

      start := NextSectionStart(allText, loopStart, start, end);
      ConcatAssoc(before, [cut], rest);
    }
    assert done == Cuts(allText, 0);
    if start + SectionOverlap < end {
      // The source yields one more section here; the loop's exit condition
      // and `end <= length` make that branch unreachable.
      assert false;
    }
  }

  // ---------------------------------------------------------------------------
  // Properties of the whole run

  /** Text of at most `SectionOverlap` characters yields no section; longer
      text yields sections starting at 0. */
  lemma NoSectionForShortText(text: string)
    ensures Cuts(text, 0) == [] <==> |text| <= SectionOverlap
    ensures |text| > SectionOverlap ==> Cuts(text, 0)[0].0 == 0
  {
    if |text| > SectionOverlap {
      var end := SectionEnd(text, 0);
      assert Cuts(text, 0)[0] == (SectionStart(text, 0, end), end);
    }
  }

  lemma {:induction false} ChainCovers(cuts: seq<(int, int)>, p: int)
    requires |cuts| > 0
    requires forall i :: 0 <= i < |cuts| - 1 ==> cuts[i + 1].0 <= cuts[i].1
    requires cuts[0].0 <= p < cuts[|cuts| - 1].1
    ensures exists i :: 0 <= i < |cuts| && cuts[i].0 <= p < cuts[i].1
  {
    if p >= cuts[0].1 {
      ChainCovers(cuts[1..], p);
      var i :| 0 <= i < |cuts[1..]| && cuts[1..][i].0 <= p < cuts[1..][i].1;
      assert cuts[i + 1] == cuts[1..][i];
    }
  }

  /** Every character of the text lies in some section. */
  lemma SectionsCoverText(text: string, p: int)
    requires 0 <= p < |text|
    requires |text| > SectionOverlap
    ensures var cuts := Cuts(text, 0);
      exists i :: 0 <= i < |cuts| && cuts[i].0 <= p < cuts[i].1
  {
    NoSectionForShortText(text);
    ChainCovers(Cuts(text, 0), p);
  }

  /** Each section's page is the page that holds its first character. */
  lemma SectionPagesOwnStart(pages: seq<Page>, i: int)
    requires WellFormed(pages)
    requires 0 <= i < |Cuts(AllText(pages), 0)|
    ensures var c := Cuts(AllText(pages), 0)[i];
      var p := Sections(pages)[i].page;
      0 <= p < |pages| && pages[p].pageOffset <= c.0 < pages[p].pageOffset + |pages[p].pageText|
  {
    var c := Cuts(AllText(pages), 0)[i];
    PageOwnership(pages, c.0);
  }

  // ---------------------------------------------------------------------------
  // The source's table pull-back can stall the loop

  function Letters(n: nat): string
  {
    seq(n, _ => 'a')
  }

  /** 250 letters, an opening table tag and 443 more letters. */
  function StallText(): (t: string)
    ensures |t| == 700
  {
    Letters(250) + "<table>" + Letters(443)
  }

  lemma StallTextChars()
    ensures var t := StallText();
      && (forall j :: 0 <= j < 700 && j != 250 ==> t[j] != '<')
      && t[250] == '<' && t[251] == 't' && t[250..256] == "<table"
      && (forall j :: 0 <= j < 700 ==> !IsSentenceEnding(t[j]) && !IsWordBreak(t[j]))
  {
    var t := StallText();
    assert forall j :: 0 <= j < 250 ==> t[j] == 'a';
    assert forall j :: 257 <= j < 700 ==> t[j] == 'a';
    assert t[250..257] == "<table>";
  }

  /** Both loop positions 0 and 250 cut the whole of `StallText`. */
  lemma StallSection(start: int)
    requires start == 0 || start == 250
    ensures SectionEnd(StallText(), start) == 700
    ensures SectionStart(StallText(), start, 700) == 0
  {
    StallTextChars();
  }

  lemma StallTableAt250()
    ensures LastIndexOf(StallText(), "<table") == 250
    ensures LastIndexOf(StallText(), "</table") == -1
    ensures StallText()[0..700] == StallText()
    ensures EndsInOpenTable(StallText()[0..700])
  {
    var t := StallText();
    StallOpenTag();
    StallNoCloseTag();
    assert t[0..700] == t;
  }

  lemma StallOpenTag()
    ensures LastIndexOf(StallText(), "<table") == 250
  {
    var t := StallText();
    StallTextChars();
    var r := LastIndexOf(t, "<table");
    assert OccursAt(t, "<table", 250);
    if r > 250 {
      assert t[r..r + 6][0] == t[r];
    }
  }

  /** An occurrence starts with the pattern's first two characters. */
  lemma OccurrenceStart(s: string, pat: string, j: int)
    requires OccursAt(s, pat, j) && |pat| >= 2
    ensures s[j] == pat[0] && s[j + 1] == pat[1]
  {
    assert s[j..j + |pat|][0] == s[j];
    assert s[j..j + |pat|][1] == s[j + 1];
  }

  lemma StallNoCloseTag()
    ensures LastIndexOf(StallText(), "</table") == -1
  {
    var t := StallText();
    StallTextChars();
    var r := LastIndexOf(t, "</table");
    if r >= 0 {
      OccurrenceStart(t, "</table", r);
      assert false;
    }
  }

  /** On `StallText`, the source moves its loop position from 0 to 250 and
      then leaves it at 250 for ever, emitting the whole text each time; the
      corrected rule moves on to 600. */
  lemma TablePullBackStalls()
    ensures NextStartAsWritten(StallText(), 0) == 250
    ensures NextStartAsWritten(StallText(), 250) == 250
    ensures 250 + SectionOverlap < |StallText()|
    ensures NextStart(StallText(), 250) == 600
    ensures !AsWrittenAdvances(StallText(), 0)
  {
    var t := StallText();
    StallSection(0);
    StallSection(250);
    StallTableAt250();
    assert NextStartAsWritten(t, 0) == Min(600, 250);
    assert NextStartAsWritten(t, 250) == Min(600, 250);
  }

  /** Appending a page that starts where the texts end keeps a page map well formed. */
  lemma WellFormedAppend(pages: seq<Page>, page: Page)
    requires WellFormed(pages)
    requires page.pageOffset == |AllText(pages)|
    ensures WellFormed(pages + [page])
  {
    var n := |pages|;
    if n > 0 {
      assert pages[..n - 1] + [pages[n - 1]] == pages;
      assert AllText(pages) == AllText(pages[..n - 1]) + pages[n - 1].pageText;
      OffsetIsPrefixLength(pages, n - 1);
    }
    WellFormedSnoc(pages, page);
  }

  lemma WellFormedSnoc(pages: seq<Page>, page: Page)
    requires WellFormed(pages)
    requires pages == [] ==> page.pageOffset == 0
    requires pages != [] ==> page.pageOffset == pages[|pages| - 1].pageOffset + |pages[|pages| - 1].pageText|
    ensures WellFormed(pages + [page])
  {
    var next := pages + [page];
    forall i | 0 <= i < |next| - 1
      ensures next[i + 1].pageOffset == next[i].pageOffset + |next[i].pageText|
    {
      if i < |pages| - 1 {
        assert next[i] == pages[i] && next[i + 1] == pages[i + 1];
      }
    }
  }
}
