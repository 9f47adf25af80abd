/** Section bodies (attach_section_html): every heading's section runs from just below
    the heading to the next heading that is not deeper, or to the end of the document,
    and its lines are rendered with format_lines_as_html. */
module Sections {
  import opened Wrappers
  import opened Words
  import opened Content
  import opened Html
  import opened Headings

  // ---------------------------------------------------------------------
  // Where a section ends

  /** `later[j]` closes the section of `h`: it is not deeper than `h`, and every heading
      before it in `later` is deeper. */
  ghost predicate ClosesAt(h: Heading, later: seq<Heading>, j: nat) {
    j < |later| && later[j].level <= h.level && forall k | 0 <= k < j :: later[k].level > h.level
  }

  function CloserFrom(h: Heading, later: seq<Heading>, j: nat): (r: Option<nat>)
    requires j <= |later|
    requires forall k | 0 <= k < j :: later[k].level > h.level
    ensures r.Some? ==> ClosesAt(h, later, r.value)
    ensures r.None? ==> forall k | 0 <= k < |later| :: later[k].level > h.level
    decreases |later| - j
  {
    if j == |later| then None
    else if later[j].level <= h.level then Some(j)
    else CloserFrom(h, later, j + 1)
  }

  /** The position in `later` of the first heading that is not deeper than `h`. */
  function Closer(h: Heading, later: seq<Heading>): (r: Option<nat>)
    ensures r.Some? ==> ClosesAt(h, later, r.value)
    ensures r.None? ==> forall k | 0 <= k < |later| :: later[k].level > h.level
  {
    CloserFrom(h, later, 0)
  }

  /** The closer is the first heading that is not deeper, whichever way it is found. */
  lemma CloserIsFirst(h: Heading, later: seq<Heading>, j: nat)
    ensures ClosesAt(h, later, j) <==> Closer(h, later) == Some(j)
  {
    var c := Closer(h, later);
    if ClosesAt(h, later, j) && c.Some? {
      assert !(c.value < j) && !(j < c.value);
    }
  }

  /** The pages and tops that bound a section; `endTop` is None when the section runs
      to the end of the document. */
  datatype Span = Span(startPage: nat, startTop: int, endPage: nat, endTop: Option<int>)

  /** The span of the section of `h`, followed by the headings `later`. */
  function SpanAfter(h: Heading, later: seq<Heading>, totalPages: nat): Span {
    match Closer(h, later)
    case None => Span(h.page, h.top, totalPages, None)
    case Some(j) => Span(h.page, h.top, later[j].page, Some(later[j].top))
  }

  /** A section starts at its heading; it ends at the first later heading that is not
      deeper, and only when there is none does it run to the last page. */
  lemma SpanEnds(h: Heading, later: seq<Heading>, totalPages: nat)
    ensures SpanAfter(h, later, totalPages).startPage == h.page
    ensures SpanAfter(h, later, totalPages).startTop == h.top
    ensures SpanAfter(h, later, totalPages).endTop.None? <==> forall k | 0 <= k < |later| :: later[k].level > h.level
    ensures SpanAfter(h, later, totalPages).endTop.None? ==> SpanAfter(h, later, totalPages).endPage == totalPages
    ensures forall j: nat | ClosesAt(h, later, j) ::
      SpanAfter(h, later, totalPages).endPage == later[j].page && SpanAfter(h, later, totalPages).endTop == Some(later[j].top)
  {
    forall j: nat | ClosesAt(h, later, j)
      ensures SpanAfter(h, later, totalPages).endPage == later[j].page
      ensures SpanAfter(h, later, totalPages).endTop == Some(later[j].top)
    {
      CloserIsFirst(h, later, j);
    }
  }

  /** The inner loop of attach_section_html: the first later heading that is not deeper
      ends the section, otherwise the section runs to the last page. */
  method FindSpanEnd(h: Heading, later: seq<Heading>, totalPages: nat) returns (endPage: nat, endTop: Option<int>)
    ensures Span(h.page, h.top, endPage, endTop) == SpanAfter(h, later, totalPages)
  {
    endPage := totalPages;
    endTop := None;
    for j := 0 to |later|
      invariant forall k | 0 <= k < j :: later[k].level > h.level
    {
      if later[j].level <= h.level {
        CloserIsFirst(h, later, j);
        endPage := later[j].page;
        endTop := Some(later[j].top);
        return;
      }
    }
  }

  // ---------------------------------------------------------------------
  // Section spans over the whole heading list

  /** The index in `hs` of the heading that ends the section of `hs[i]`; |hs| when the
      section runs to the end of the document. */
  function SectionEnd(hs: seq<Heading>, i: nat): (r: nat)
    requires i < |hs|
    ensures i < r <= |hs|
    ensures forall k | i < k < r :: hs[k].level > hs[i].level
    ensures r < |hs| ==> hs[r].level <= hs[i].level
  {
    var later := hs[i + 1..];
    match Closer(hs[i], later)
    case None =>
      assert forall k | i < k < |hs| :: hs[k] == later[k - i - 1];
      |hs|
    case Some(j) =>
      assert forall k | i < k <= i + 1 + j :: hs[k] == later[k - i - 1];
      i + 1 + j
  }

  /** Sections nest: a heading inside the section of `hs[i]` is deeper than it, and its
      own section ends no later. */
  lemma SectionsNest(hs: seq<Heading>, i: nat, j: nat)
    requires i < |hs| && i < j < SectionEnd(hs, i)
    ensures hs[j].level > hs[i].level
    ensures SectionEnd(hs, j) <= SectionEnd(hs, i)
  {
    var e := SectionEnd(hs, i);
    if e < |hs| {
      assert hs[e].level <= hs[i].level < hs[j].level;
    }
  }

  // ---------------------------------------------------------------------
  // The lines of a section

  /** min_top: on the start page the lines start half a point below the heading's top. */
  function MinTopOn(s: Span, page: nat): Option<real> {
    if page == s.startPage then Some(s.startTop as real / 10.0 + 0.5) else None
  }

  /** max_top: on the end page the lines stop at the closing heading's top. */
  function MaxTopOn(s: Span, page: nat): Option<real> {
    if s.endTop.Some? && page == s.endPage then Some(s.endTop.value as real / 10.0) else None
  }

  /** The text lines of pages `s.startPage` to `last` (numbered from 1), in page order. */
  function SectionLinesTo(pages: seq<seq<Word>>, s: Span, last: int): seq<Line>
    requires 1 <= s.startPage && (last < s.startPage || last <= |pages|)
    decreases last
  {
    if last < s.startPage then []
    else SectionLinesTo(pages, s, last - 1) + PageTextLines(pages[last - 1], MinTopOn(s, last), MaxTopOn(s, last))
  }

  /** section_lines: the text lines of every page of the span. */
  function SectionLines(pages: seq<seq<Word>>, s: Span): seq<Line>
    requires 1 <= s.startPage && s.endPage <= |pages|
  {
    SectionLinesTo(pages, s, s.endPage)
  }

  /** Tenths(x) == k places x within half a tenth of k / 10. */
  lemma TenthsBounds(x: real, k: int)
    requires Tenths(x) == k
    ensures k as real / 10.0 - 0.05 <= x < k as real / 10.0 + 0.05
  {
  }

  /** The words of the heading's own line never enter its section: they lie above the
      lower bound used on the start page. */
  lemma OwnLineExcluded(s: Span, w: Word, maxTop: Option<real>)
    requires TopKey(w) == s.startTop
    ensures !Admitted(w, MinTopOn(s, s.startPage), maxTop)
  {
    TenthsBounds(w.top, s.startTop);
  }

  /** The words of the closing heading's line never enter the section either: they lie
      at or below the upper bound used on the end page. */
  lemma CloserLineExcluded(s: Span, w: Word, minTop: Option<real>)
    requires s.endTop.Some? && TopKey(w) == s.endTop.value
    ensures !Admitted(w, minTop, MaxTopOn(s, s.endPage))
  {
    TenthsBounds(w.top, s.endTop.value);
  }

  /** Pages strictly inside the span are taken whole. */
  lemma MiddlePagesWhole(s: Span, page: nat)
    requires s.startPage < page && (s.endTop.None? || page < s.endPage)
    ensures MinTopOn(s, page) == None && MaxTopOn(s, page) == None
  {
  }

  // ---------------------------------------------------------------------
  // attach_section_html

  /** Every heading lies on a page of the document. */
  predicate PagesWithin(hs: seq<Heading>, totalPages: nat) {
    forall k | 0 <= k < |hs| :: 1 <= hs[k].page <= totalPages
  }

  lemma SpanWithin(h: Heading, later: seq<Heading>, totalPages: nat)
    requires 1 <= h.page <= totalPages && PagesWithin(later, totalPages)
    ensures 1 <= SpanAfter(h, later, totalPages).startPage
    ensures SpanAfter(h, later, totalPages).endPage <= totalPages
  {
    match Closer(h, later)
    case None =>
    case Some(j) =>
  }

  /** The body markup of the section opened by `h`, followed by the headings `later`. */
  function SectionBody(pages: seq<seq<Word>>, h: Heading, later: seq<Heading>): string
    requires 1 <= h.page <= |pages| && PagesWithin(later, |pages|)
  {
    SpanWithin(h, later, |pages|);
    FormatHtml(SectionLines(pages, SpanAfter(h, later, |pages|)))
  }

  /** The body markup of the section of `hs[i]`. */
  function SectionHtml(pages: seq<seq<Word>>, hs: seq<Heading>, i: nat): string
    requires i < |hs| && PagesWithin(hs, |pages|)
  {
    var later := hs[i + 1..];
    assert forall k | 0 <= k < |later| :: later[k] == hs[i + 1 + k];
    SectionBody(pages, hs[i], later)
  }

  /** The page loop of attach_section_html: the lines of every page of the span. */
  method GatherSectionLines(pages: seq<seq<Word>>, s: Span) returns (lines: seq<Line>)
    requires 1 <= s.startPage && s.endPage <= |pages|
    ensures lines == SectionLines(pages, s)
  {
    lines := [];
    if s.endPage < s.startPage {
      NoSectionLines(pages, s, s.endPage);
      return;
    }
    for p := s.startPage to s.endPage + 1
      invariant lines == SectionLinesTo(pages, s, p - 1)
    {
      var pageLines := ExtractLinesFromPage(pages[p - 1], MinTopOn(s, p), MaxTopOn(s, p));
      SectionLinesStep(pages, s, p);
      lines := lines + pageLines;
    }
  }

  lemma SectionLinesStep(pages: seq<seq<Word>>, s: Span, p: nat)
    requires 1 <= s.startPage <= p <= |pages|
    ensures SectionLinesTo(pages, s, p) ==
      SectionLinesTo(pages, s, p - 1) + PageTextLines(pages[p - 1], MinTopOn(s, p), MaxTopOn(s, p))
  {
  }

  lemma NoSectionLines(pages: seq<seq<Word>>, s: Span, last: int)
    requires 1 <= s.startPage && last < s.startPage
    ensures SectionLinesTo(pages, s, last) == []
  {
  }

  /** The body markup of one section. */
  method SectionMarkup(pages: seq<seq<Word>>, h: Heading, later: seq<Heading>) returns (html: string)
    requires 1 <= h.page <= |pages| && PagesWithin(later, |pages|)
    ensures html == SectionBody(pages, h, later)
  {
    var endPage, endTop := FindSpanEnd(h, later, |pages|);
    SpanWithin(h, later, |pages|);
    var lines := GatherSectionLines(pages, Span(h.page, h.top, endPage, endTop));
    html := FormatLinesAsHtml(lines);
  }

  /** attach_section_html: sets the body markup of every heading and changes nothing
      else. */
  method AttachSectionHtml(pages: seq<seq<Word>>, headings: array<Heading>)
    requires PagesWithin(headings[..], |pages|)
    modifies headings
    ensures forall k | 0 <= k < headings.Length ::
      headings[k] == old(headings[k]).(content := Some(SectionHtml(pages, old(headings[..]), k)))
  {
    ghost var hs := headings[..];
    for idx := 0 to headings.Length
      invariant forall k | idx <= k < headings.Length :: headings[k] == hs[k]
      invariant forall k | 0 <= k < idx :: headings[k] == hs[k].(content := Some(SectionHtml(pages, hs, k)))
    {
      AttachOne(pages, headings, hs, idx);
    }
  }

  /** One turn of the loop of attach_section_html: the heading at `idx` receives the
      markup of its section, which only the headings from `idx` on decide. */
  method AttachOne(pages: seq<seq<Word>>, headings: array<Heading>, ghost hs: seq<Heading>, idx: nat)
    requires idx < headings.Length == |hs| && PagesWithin(hs, |pages|)
    requires forall k | idx <= k < headings.Length :: headings[k] == hs[k]
    modifies headings
    ensures headings[idx] == hs[idx].(content := Some(SectionHtml(pages, hs, idx)))
    ensures forall k | 0 <= k < headings.Length && k != idx :: headings[k] == old(headings[k])
  {
    var h := headings[idx];
    var later := headings[idx + 1..];
    assert later == hs[idx + 1..];
    var html := SectionMarkup(pages, h, later);
    headings[idx] := h.(content := Some(html));
  }
}
