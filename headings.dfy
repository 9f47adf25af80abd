/** Heading extraction (extract_headings): profile the document, group each scanned
    page's words into lines, and keep every line the classifier calls a heading. */
module Headings {
  import opened Wrappers
  import opened Text
  import opened Words
  import opened FontProfile
  import opened Classify
  import opened Seqs

  /** One heading record. `top` is the line's rounded top in tenths; `content` stays
      None until the section's body markup is attached. */
  datatype Heading = Heading(id: nat, page: nat, top: int, level: nat, fontSize: real, text: string, content: Option<string>)

  datatype ExtractError = Profiling(cause: ProfileError) | SizeNotNumeric(page: nat)

  /** body_size, heading_sizes, size_counts and the heading list of one run. */
  datatype Extraction = Extraction(profile: Profile, headings: seq<Heading>)

  /** Longest line text still taken as a heading. */
  const MaxHeadingLength := 160

  // ---------------------------------------------------------------------
  // statistics.median

  predicate SortedReals(xs: seq<real>) {
    forall i | 0 < i < |xs| :: xs[i - 1] <= xs[i]
  }

  lemma SortedRealsSnoc(s: seq<real>, x: real)
    requires SortedReals(s) && (s == [] || s[|s| - 1] <= x)
    ensures SortedReals(s + [x])
  {
    var t := s + [x];
    forall i | 0 < i < |t| ensures t[i - 1] <= t[i] {
      if i < |s| {
        assert t[i - 1] == s[i - 1] && t[i] == s[i];
      }
    }
  }

  function InsertReal(s: seq<real>, x: real): (r: seq<real>)
    requires SortedReals(s)
    ensures |r| == |s| + 1
    ensures SortedReals(r)
    ensures multiset(r) == multiset(s) + multiset{x}
    ensures r[|r| - 1] == x || (s != [] && r[|r| - 1] == s[|s| - 1])
    decreases |s|
  {
    if s == [] || s[|s| - 1] <= x then
      SortedRealsSnoc(s, x);
      s + [x]
    else
      var init := s[..|s| - 1];
      var last := s[|s| - 1];
      assert s == init + [last];
      assert SortedReals(init);
      var r' := InsertReal(init, x);
      SortedRealsSnoc(r', last);
      assert multiset(r' + [last]) == multiset(r') + multiset{last};
      r' + [last]
  }

  function SortReals(xs: seq<real>): (r: seq<real>)
    ensures SortedReals(r)
    ensures multiset(r) == multiset(xs)
  {
    if xs == [] then []
    else
      var init := xs[..|xs| - 1];
      assert xs == init + [xs[|xs| - 1]];
      InsertReal(SortReals(init), xs[|xs| - 1])
  }

  lemma SortedReach(s: seq<real>, i: nat, j: nat)
    requires SortedReals(s) && i <= j < |s|
    ensures s[i] <= s[j]
    decreases j - i
  {
    if i < j {
      SortedReach(s, i, j - 1);
    }
  }

  /** The middle value, or the mean of the two middle values. It lies between the
      smallest and the largest element, and a uniform line has its one size as median. */
  function Median(xs: seq<real>): (m: real)
    requires xs != []
    ensures exists i | 0 <= i < |xs| :: xs[i] <= m
    ensures exists j | 0 <= j < |xs| :: m <= xs[j]
    ensures (forall i | 0 <= i < |xs| :: xs[i] == xs[0]) ==> m == xs[0]
  {
    var s := SortReals(xs);
    var n := |s|;
    assert |s| == |multiset(s)| == |multiset(xs)| == |xs|;
    var lo := if n % 2 == 1 then s[n / 2] else s[n / 2 - 1];
    var hi := s[n / 2];
    assert lo in multiset(xs) && hi in multiset(xs);
    assert lo <= hi by { SortedReach(s, if n % 2 == 1 then n / 2 else n / 2 - 1, n / 2); }
    assert lo in xs && hi in xs;
    if n % 2 == 1 then hi else (lo + hi) / 2.0
  }

  /** The middle element of `s`, or the mean of its two middle elements. */
  function Middle(s: seq<real>): real
    requires s != []
  {
    var n := |s|;
    if n % 2 == 1 then s[n / 2] else (s[n / 2 - 1] + s[n / 2]) / 2.0
  }

  /** In an ascending sequence, at least half of the elements (rounded up) are at
      most the middle value and at least half are at least it. */
  lemma MiddleSplits(s: seq<real>)
    requires s != [] && SortedReals(s)
    ensures var n, m := |s|, Middle(s);
      && (forall i | 0 <= i < (n + 1) / 2 :: s[i] <= m)
      && (forall i | n / 2 <= i < n :: m <= s[i])
  {
    var n, m := |s|, Middle(s);
    var c := if n % 2 == 1 then n / 2 else n / 2 - 1;
    assert s[c] <= m <= s[n / 2] by { SortedReach(s, c, n / 2); }
    forall i | 0 <= i < (n + 1) / 2 ensures s[i] <= m {
      SortedReach(s, i, c);
    }
    forall i | n / 2 <= i < n ensures m <= s[i] {
      SortedReach(s, n / 2, i);
    }
  }

  /** statistics.median: the middle of the sizes in ascending order, so that at
      least half of the sizes (rounded up) are at most the median and at least
      half are at least it. */
  lemma MedianSplits(xs: seq<real>)
    requires xs != []
    ensures var s, n, m := SortReals(xs), |xs|, Median(xs);
      && |s| == n && multiset(s) == multiset(xs) && SortedReals(s)
      && m == Middle(s)
      && (forall i | 0 <= i < (n + 1) / 2 :: s[i] <= m)
      && (forall i | n / 2 <= i < n :: m <= s[i])
  {
    var s := SortReals(xs);
    assert |s| == |multiset(s)| == |multiset(xs)| == |xs|;
    MiddleSplits(s);
  }

  // ---------------------------------------------------------------------
  // One line of a page

  /** [float(w["size"]) for w in words]: None as soon as one size is not a number. */
  function LineSizes(ws: seq<Word>): (r: Option<seq<real>>)
    ensures r.Some? <==> forall i | 0 <= i < |ws| :: ws[i].size.Some?
    ensures r.Some? ==> |r.value| == |ws| && forall i | 0 <= i < |ws| :: ws[i].size == Some(r.value[i])
  {
    if ws == [] then Some([])
    else
      var init := ws[..|ws| - 1];
      var last := ws[|ws| - 1];
      match LineSizes(init)
      case None => None
      case Some(sz) => if last.size.Some? then Some(sz + [last.size.value]) else None
  }

  function Texts(ws: seq<Word>): (r: seq<string>)
    ensures |r| == |ws|
  {
    if ws == [] then [] else Texts(ws[..|ws| - 1]) + [ws[|ws| - 1].text]
  }

  /** What a line is turned into when it is a heading: its level, median size and text. */
  datatype Candidate = Candidate(level: nat, fontSize: real, text: string)

  /** The per-line body of the page loop: blank lines, non-headings and over-long
      lines are skipped; a size that is not a number raises. */
  function LineHeading(line: WordLine, page: nat, profile: Profile, tol: real): (r: Result<Option<Candidate>, ExtractError>)
    ensures r.Err? ==> r.error == SizeNotNumeric(page)
    ensures r.Ok? && r.value.Some? ==>
      var c := r.value.value;
      && c.level >= 1
      && c.text != [] && !IsSpace(c.text[0]) && !IsSpace(c.text[|c.text| - 1])
      && |c.text| <= MaxHeadingLength
  {
    var sorted := SortByX0(line.words);
    var text := Strip(Join(Texts(sorted), " "));
    if text == [] then Ok(None)
    else match LineSizes(sorted)
      case None => Err(SizeNotNumeric(page))
      case Some(sizes) =>
        var median := Median(sizes);
        var level := ClassifyLineLevel(text, median, profile.bodySize, profile.headingSizes, tol);
        if level.None? then Ok(None)
        else if |text| > MaxHeadingLength then Ok(None)
        else Ok(Some(Candidate(level.value, median, text)))
  }

  /** Sorting a line keeps its words. */
  lemma SortKeepsWords(ws: seq<Word>)
    ensures forall w :: w in SortByX0(ws) <==> w in ws
  {
    forall w
      ensures w in SortByX0(ws) <==> w in ws
    {
      assert w in SortByX0(ws) <==> w in multiset(SortByX0(ws));
      assert w in ws <==> w in multiset(ws);
    }
  }

  /** The size conversion fails exactly when some word's size is not a number. */
  lemma LineSizesFail(ws: seq<Word>)
    ensures LineSizes(ws).None? <==> exists w | w in ws :: w.size.None?
  {
    if LineSizes(ws).None? {
      var i :| 0 <= i < |ws| && ws[i].size.None?;
      assert ws[i] in ws;
    }
  }

  /** When the loop body raises: exactly when the joined text is not blank and some word's
      size is not a number. */
  lemma LineHeadingRaises(line: WordLine, page: nat, profile: Profile, tol: real)
    ensures var text := Strip(Join(Texts(SortByX0(line.words)), " "));
      var r := LineHeading(line, page, profile, tol);
      r.Err? <==> text != [] && exists w | w in line.words :: w.size.None?
  {
    var sorted := SortByX0(line.words);
    SortKeepsWords(line.words);
    LineSizesFail(sorted);
    var text := Strip(Join(Texts(sorted), " "));
    assert LineHeading(line, page, profile, tol).Err? <==> text != [] && LineSizes(sorted).None?;
  }

  /** A line with blank text is skipped; a line the loop body keeps carries its joined text,
      at most 160 characters long, and the level that classify_line_level gives its median
      size; and a line with non-blank text of at most 160 characters, numeric sizes and a
      level for its median size is kept. */
  lemma LineHeadingKeeps(line: WordLine, page: nat, profile: Profile, tol: real)
    ensures var sorted := SortByX0(line.words);
      var text := Strip(Join(Texts(sorted), " "));
      var r := LineHeading(line, page, profile, tol);
      && (text == [] ==> r == Ok(None))
      && (text != [] && LineSizes(sorted).Some? && |text| <= MaxHeadingLength
          && ClassifyLineLevel(text, Median(LineSizes(sorted).value), profile.bodySize, profile.headingSizes, tol).Some?
          ==> r.Ok? && r.value.Some?)
      && (r.Ok? && r.value.Some? ==>
        && r.value.value.text == text
        && |text| <= MaxHeadingLength
        && ClassifyLineLevel(text, r.value.value.fontSize, profile.bodySize, profile.headingSizes, tol)
           == Some(r.value.value.level))
  {
    var sorted := SortByX0(line.words);
    var text := Strip(Join(Texts(sorted), " "));
    if text != [] {
      match LineSizes(sorted)
      case None =>
      case Some(sizes) =>
        var level := ClassifyLineLevel(text, Median(sizes), profile.bodySize, profile.headingSizes, tol);
        assert LineHeading(line, page, profile, tol) ==
          if level.None? || |text| > MaxHeadingLength then Ok(None)
          else Ok(Some(Candidate(level.value, Median(sizes), text)));
    }
  }

  type Verdict = Result<Option<Candidate>, ExtractError>

  /** A line of a page together with what the loop body decides for it. */
  datatype Judged = Judged(line: WordLine, verdict: Verdict)

  /** Every line of a page with its verdict. */
  function Judge(lines: seq<WordLine>, page: nat, profile: Profile, tol: real): (r: seq<Judged>)
    ensures |r| == |lines|
  {
    seq(|lines|, i requires 0 <= i < |lines| => Judged(lines[i], LineHeading(lines[i], page, profile, tol)))
  }

  /** The lines of every page, grouped without vertical bounds. */
  function PageLines(pages: seq<seq<Word>>): (r: seq<seq<WordLine>>)
    ensures |r| == |pages|
  {
    if pages == [] then [] else PageLines(pages[..|pages| - 1]) + [Lines(pages[|pages| - 1], None, None)]
  }

  /** The judged lines of every page; page numbers start at 1. */
  function JudgedPages(pageLines: seq<seq<WordLine>>, profile: Profile, tol: real): (r: seq<seq<Judged>>)
    ensures |r| == |pageLines|
  {
    if pageLines == [] then []
    else JudgedPages(pageLines[..|pageLines| - 1], profile, tol) + [Judge(pageLines[|pageLines| - 1], |pageLines|, profile, tol)]
  }

  /** Appends the heading a verdict asks for, numbered by its position in the list. */
  function Take(acc: seq<Heading>, j: Judged, page: nat): Result<seq<Heading>, ExtractError> {
    match j.verdict
    case Err(e) => Err(e)
    case Ok(None) => Ok(acc)
    case Ok(Some(c)) => Ok(acc + [Heading(|acc|, page, j.line.key, c.level, c.fontSize, c.text, None)])
  }

  /** The line loop of one page; the first line that raises ends the run. */
  function Collect(acc: seq<Heading>, js: seq<Judged>, page: nat): Result<seq<Heading>, ExtractError> {
    if js == [] then Ok(acc)
    else match Collect(acc, js[..|js| - 1], page)
      case Err(e) => Err(e)
      case Ok(hs) => Take(hs, js[|js| - 1], page)
  }

  /** The heading list after the first `n` pages, in the order the loop appends. */
  function ScanPages(judged: seq<seq<Judged>>, n: nat): Result<seq<Heading>, ExtractError>
    requires n <= |judged|
  {
    if n == 0 then Ok([])
    else match ScanPages(judged, n - 1)
      case Err(e) => Err(e)
      case Ok(hs) => Collect(hs, judged[n - 1], n)
  }

  // ---------------------------------------------------------------------
  // headings.sort(key=lambda h: (h["page"], h["top"]))

  /** (a.page, a.top) <= (b.page, b.top) */
  predicate NotAfter(a: Heading, b: Heading) {
    a.page < b.page || (a.page == b.page && a.top <= b.top)
  }

  /** (a.page, a.top) < (b.page, b.top) */
  predicate Before(a: Heading, b: Heading) {
    a.page < b.page || (a.page == b.page && a.top < b.top)
  }

  predicate SortedByPageTop(hs: seq<Heading>) {
    forall i | 0 < i < |hs| :: NotAfter(hs[i - 1], hs[i])
  }

  /** Inserts `h` after every record that is not after it (so equal keys keep their order). */
  function InsertByPageTop(s: seq<Heading>, h: Heading): (r: seq<Heading>)
    ensures |r| == |s| + 1
    ensures r[|r| - 1] == h || (s != [] && r[|r| - 1] == s[|s| - 1])
    decreases |s|
  {
    if s == [] || NotAfter(s[|s| - 1], h) then s + [h]
    else InsertByPageTop(s[..|s| - 1], h) + [s[|s| - 1]]
  }

  /** A stable insertion sort by (page, top). */
  function SortByPageTop(hs: seq<Heading>): (r: seq<Heading>)
    ensures |r| == |hs|
  {
    if hs == [] then [] else InsertByPageTop(SortByPageTop(hs[..|hs| - 1]), hs[|hs| - 1])
  }

  lemma SortedSnoc(s: seq<Heading>, x: Heading)
    requires SortedByPageTop(s) && (s == [] || NotAfter(s[|s| - 1], x))
    ensures SortedByPageTop(s + [x])
  {
    var t := s + [x];
    forall i | 0 < i < |t| ensures NotAfter(t[i - 1], t[i]) {
      if i < |s| {
        assert t[i - 1] == s[i - 1] && t[i] == s[i];
      }
    }
  }

  lemma SortedInit(s: seq<Heading>)
    requires SortedByPageTop(s) && s != []
    ensures SortedByPageTop(s[..|s| - 1])
  {
    var init := s[..|s| - 1];
    forall i | 0 < i < |init| ensures NotAfter(init[i - 1], init[i]) {
      assert init[i - 1] == s[i - 1] && init[i] == s[i];
    }
  }

  lemma {:induction false} InsertSorted(s: seq<Heading>, h: Heading)
    requires SortedByPageTop(s)
    ensures SortedByPageTop(InsertByPageTop(s, h))
    decreases |s|
  {
    if s != [] && !NotAfter(s[|s| - 1], h) {
      var init := s[..|s| - 1];
      SortedInit(s);
      InsertSorted(init, h);
      var r' := InsertByPageTop(init, h);
      assert init != [] ==> NotAfter(init[|init| - 1], s[|s| - 1]);
      SortedSnoc(r', s[|s| - 1]);
    } else {
      SortedSnoc(s, h);
    }
  }

  lemma {:induction false} InsertPermutes(s: seq<Heading>, h: Heading)
    ensures multiset(InsertByPageTop(s, h)) == multiset(s) + multiset{h}
    decreases |s|
  {
    if s != [] && !NotAfter(s[|s| - 1], h) {
      var init := s[..|s| - 1];
      InsertPermutes(init, h);
      assert s == init + [s[|s| - 1]];
    }
  }

  /** The sort puts the records in (page, top) order and keeps every record. */
  lemma {:induction false} SortByPageTopCorrect(hs: seq<Heading>)
    ensures SortedByPageTop(SortByPageTop(hs))
    ensures multiset(SortByPageTop(hs)) == multiset(hs)
  {
    if hs != [] {
      var init := hs[..|hs| - 1];
      SortByPageTopCorrect(init);
      InsertSorted(SortByPageTop(init), hs[|hs| - 1]);
      InsertPermutes(SortByPageTop(init), hs[|hs| - 1]);
      assert hs == init + [hs[|hs| - 1]];
    }
  }

  /** Sorting a list that is already in (page, top) order leaves it unchanged. */
  lemma {:induction false} SortSortedIsIdentity(hs: seq<Heading>)
    requires SortedByPageTop(hs)
    ensures SortByPageTop(hs) == hs
  {
    if hs != [] {
      var init := hs[..|hs| - 1];
      var last := hs[|hs| - 1];
      SortedInit(hs);
      SortSortedIsIdentity(init);
      assert init == [] || NotAfter(init[|init| - 1], last);
      assert hs == init + [last];
    }
  }

  /** The whole of extract_headings on the given pages. */
  function ExtractionOf(pages: seq<seq<Word>>, tol: real, maxPages: Option<int>): Result<Extraction, ExtractError> {
    var n := ScanCount(|pages|, maxPages);
    match ProfileOf(ScannedSizes(pages, n))
    case Err(e) => Err(Profiling(e))
    case Ok(profile) =>
      match ScanPages(JudgedPages(PageLines(pages), profile, tol), n)
      case Err(e) => Err(e)
      case Ok(hs) => Ok(Extraction(profile, SortByPageTop(hs)))
  }

  // ---------------------------------------------------------------------
  // What every extracted record satisfies

  /** A record as extract_headings appends it: numbered by its position, on a scanned
      page, with a level, and with stripped non-empty text of at most 160 characters. */
  ghost predicate WellFormed(h: Heading, nPages: nat, position: nat) {
    && h.id == position
    && 1 <= h.page <= nPages
    && h.level >= 1
    && h.text != [] && !IsSpace(h.text[0]) && !IsSpace(h.text[|h.text| - 1])
    && |h.text| <= MaxHeadingLength
    && h.content.None?
  }

  ghost predicate AllWellFormed(hs: seq<Heading>, nPages: nat) {
    forall i | 0 <= i < |hs| :: WellFormed(hs[i], nPages, i)
  }

  /** Each record lies on a later page than the one before it, or lower on the same page. */
  ghost predicate InReadingOrder(hs: seq<Heading>) {
    forall i | 0 < i < |hs| :: Before(hs[i - 1], hs[i])
  }

  lemma CollectSnoc(acc: seq<Heading>, js: seq<Judged>, j: nat, page: nat)
    requires j < |js|
    ensures Collect(acc, js[..j + 1], page) ==
      match Collect(acc, js[..j], page)
      case Err(e) => Err(e)
      case Ok(hs) => Take(hs, js[j], page)
  {
    assert js[..j + 1][..j] == js[..j];
  }

  /** A line that raises ends the page: the error of a prefix is the error of the whole. */
  lemma {:induction false} CollectErrPrefix(acc: seq<Heading>, js: seq<Judged>, j: nat, page: nat)
    requires j <= |js| && Collect(acc, js[..j], page).Err?
    ensures Collect(acc, js, page) == Collect(acc, js[..j], page)
    decreases |js|
  {
    if j == |js| {
      assert js[..j] == js;
    } else {
      var init := js[..|js| - 1];
      assert init[..j] == js[..j];
      CollectErrPrefix(acc, init, j, page);
    }
  }

  /** Once a page raises, the whole scan raises with that error. */
  lemma {:induction false} ScanPagesErr(judged: seq<seq<Judged>>, k: nat, m: nat)
    requires k <= m <= |judged| && ScanPages(judged, k).Err?
    ensures ScanPages(judged, m) == ScanPages(judged, k)
    decreases m - k
  {
    if k < m {
      ScanPagesErr(judged, k, m - 1);
    }
  }

  /** One turn of the page loop: a page that raises ends the scan with its error,
      otherwise the scan goes on from the page's result. */
  lemma ScanPagesTurn(judged: seq<seq<Judged>>, p: nat, n: nat, headings: seq<Heading>, scanned: Result<seq<Heading>, ExtractError>)
    requires p < n <= |judged| && ScanPages(judged, p) == Ok(headings)
    requires scanned == Collect(headings, judged[p], p + 1)
    ensures scanned.Ok? ==> ScanPages(judged, p + 1) == scanned
    ensures scanned.Err? ==> ScanPages(judged, n) == scanned
  {
    if scanned.Err? {
      ScanPagesErr(judged, p + 1, n);
    }
  }

  /** A verdict that keeps a line keeps one the classifier accepted, with clean text. */
  predicate Acceptable(v: Verdict) {
    v.Ok? && v.value.Some? ==>
      var c := v.value.value;
      && c.level >= 1
      && c.text != [] && !IsSpace(c.text[0]) && !IsSpace(c.text[|c.text| - 1])
      && |c.text| <= MaxHeadingLength
  }

  /** What the page loop knows of one page: its lines run top to bottom and every
      verdict is acceptable. */
  predicate SoundPage(js: seq<Judged>) {
    && (forall i, j | 0 <= i < j < |js| :: js[i].line.key < js[j].line.key)
    && (forall i | 0 <= i < |js| :: Acceptable(js[i].verdict))
  }

  /** One appended record keeps the list well formed and in reading order, provided it
      lies on a later page than the last record or below it on the same page. */
  lemma TakeValid(hs: seq<Heading>, j: Judged, page: nat)
    requires page >= 1 && Acceptable(j.verdict)
    requires AllWellFormed(hs, page) && InReadingOrder(hs)
    requires hs != [] ==> hs[|hs| - 1].page < page || (hs[|hs| - 1].page == page && hs[|hs| - 1].top < j.line.key)
    ensures var r := Take(hs, j, page);
      r.Ok? ==>
        && AllWellFormed(r.value, page) && InReadingOrder(r.value)
        && (r.value != [] ==> var last := r.value[|r.value| - 1];
              last.page < page || (last.page == page && last.top <= j.line.key))
  {
    match j.verdict
    case Ok(Some(c)) =>
      var h := Heading(|hs|, page, j.line.key, c.level, c.fontSize, c.text, None);
      var hs' := hs + [h];
      assert WellFormed(h, page, |hs|);
      assert AllWellFormed(hs', page) by {
        forall i | 0 <= i < |hs'| ensures WellFormed(hs'[i], page, i) {
          if i < |hs| {
            assert hs'[i] == hs[i];
          } else {
            assert hs'[i] == h;
          }
        }
      }
      assert InReadingOrder(hs') by {
        forall i | 0 < i < |hs'| ensures Before(hs'[i - 1], hs'[i]) {
          if i < |hs| {
            assert hs'[i - 1] == hs[i - 1] && hs'[i] == hs[i];
          }
        }
      }
    case Ok(None) =>
    case Err(e) =>
  }

  /** The lines of one page keep the list well formed and in reading order: their keys
      ascend strictly, so each new record lies below the previous one on this page. */
  lemma {:induction false} CollectValid(acc: seq<Heading>, js: seq<Judged>, page: nat)
    requires page >= 1 && SoundPage(js)
    requires AllWellFormed(acc, page - 1) && InReadingOrder(acc)
    ensures var r := Collect(acc, js, page);
      r.Ok? ==>
        && AllWellFormed(r.value, page) && InReadingOrder(r.value)
        && (r.value != [] ==> var last := r.value[|r.value| - 1];
              last.page < page || (last.page == page && js != [] && last.top <= js[|js| - 1].line.key))
    decreases |js|
  {
    if js != [] {
      var init := js[..|js| - 1];
      var j := js[|js| - 1];
      assert SoundPage(init);
      CollectValid(acc, init, page);
      var r0 := Collect(acc, init, page);
      if r0.Ok? {
        if r0.value != [] && init != [] {
          assert init[|init| - 1].line.key < j.line.key;
        }
        TakeValid(r0.value, j, page);
      }
    }
  }

  lemma {:induction false} ScanPagesValid(judged: seq<seq<Judged>>, n: nat)
    requires n <= |judged|
    requires forall p | 0 <= p < |judged| :: SoundPage(judged[p])
    ensures var r := ScanPages(judged, n);
      r.Ok? ==> AllWellFormed(r.value, n) && InReadingOrder(r.value)
  {
    if n > 0 {
      ScanPagesValid(judged, n - 1);
      var r0 := ScanPages(judged, n - 1);
      if r0.Ok? {
        CollectValid(r0.value, judged[n - 1], n);
      }
    }
  }

  /** Lines whose keys ascend strictly, as Lines returns them. */
  predicate TopToBottom(lines: seq<WordLine>) {
    forall i, j | 0 <= i < j < |lines| :: lines[i].key < lines[j].key
  }

  lemma PageLinesTopToBottom(pages: seq<seq<Word>>)
    ensures forall p | 0 <= p < |pages| :: TopToBottom(PageLines(pages)[p])
  {
    forall p | 0 <= p < |pages| ensures TopToBottom(PageLines(pages)[p]) {
      PageLinesAt(pages, p);
      LinesShape(pages[p], None, None);
    }
  }

  /** Every page the loop judges is sound: Lines runs top to bottom and LineHeading only
      keeps acceptable lines. */
  lemma JudgedPagesSound(pageLines: seq<seq<WordLine>>, profile: Profile, tol: real)
    requires forall p | 0 <= p < |pageLines| :: TopToBottom(pageLines[p])
    ensures forall p | 0 <= p < |pageLines| :: SoundPage(JudgedPages(pageLines, profile, tol)[p])
  {
    forall p | 0 <= p < |pageLines| ensures SoundPage(JudgedPages(pageLines, profile, tol)[p]) {
      JudgedPageAt(pageLines, p, profile, tol);
      JudgeSound(pageLines[p], p + 1, profile, tol);
    }
  }

  lemma {:induction false} PageLinesAt(pages: seq<seq<Word>>, p: nat)
    requires p < |pages|
    ensures PageLines(pages)[p] == Lines(pages[p], None, None)
    decreases |pages|
  {
    var init := pages[..|pages| - 1];
    var last := Lines(pages[|pages| - 1], None, None);
    assert PageLines(pages) == PageLines(init) + [last];
    if p < |init| {
      PageLinesAt(init, p);
      assert init[p] == pages[p];
      assert PageLines(pages)[p] == PageLines(init)[p];
    } else {
      assert p == |pages| - 1;
    }
  }

  lemma {:induction false} JudgedPageAt(pageLines: seq<seq<WordLine>>, p: nat, profile: Profile, tol: real)
    requires p < |pageLines|
    ensures JudgedPages(pageLines, profile, tol)[p] == Judge(pageLines[p], p + 1, profile, tol)
    decreases |pageLines|
  {
    var init := pageLines[..|pageLines| - 1];
    var last := Judge(pageLines[|pageLines| - 1], |pageLines|, profile, tol);
    assert JudgedPages(pageLines, profile, tol) == JudgedPages(init, profile, tol) + [last];
    if p < |init| {
      JudgedPageAt(init, p, profile, tol);
      assert init[p] == pageLines[p];
      assert JudgedPages(pageLines, profile, tol)[p] == JudgedPages(init, profile, tol)[p];
    } else {
      assert p == |pageLines| - 1;
    }
  }

  lemma JudgeSound(lines: seq<WordLine>, page: nat, profile: Profile, tol: real)
    requires TopToBottom(lines)
    ensures SoundPage(Judge(lines, page, profile, tol))
  {
    var js := Judge(lines, page, profile, tol);
    forall i | 0 <= i < |js| ensures Acceptable(js[i].verdict) {
      assert js[i].verdict == LineHeading(lines[i], page, profile, tol);
    }
  }

  lemma ReadingOrderIsSorted(hs: seq<Heading>)
    requires InReadingOrder(hs)
    ensures SortedByPageTop(hs)
  {
  }

  /** Every record of a successful extraction is well formed, numbered by its position
      and on one of the scanned pages, the list is in strict (page, top) order, and the
      final sort leaves the appended order unchanged. */
  lemma ExtractedHeadingsValid(pages: seq<seq<Word>>, tol: real, maxPages: Option<int>)
    ensures var r := ExtractionOf(pages, tol, maxPages);
      var n := ScanCount(|pages|, maxPages);
      r.Ok? ==>
        && AllWellFormed(r.value.headings, n)
        && InReadingOrder(r.value.headings)
        && Ok(r.value.headings) == ScanPages(JudgedPages(PageLines(pages), r.value.profile, tol), n)
  {
    var n := ScanCount(|pages|, maxPages);
    var r := ExtractionOf(pages, tol, maxPages);
    if r.Ok? {
      var profile := r.value.profile;
      var judged := JudgedPages(PageLines(pages), profile, tol);
      PageLinesTopToBottom(pages);
      JudgedPagesSound(PageLines(pages), profile, tol);
      ScanPagesValid(judged, n);
      var hs := ScanPages(judged, n).value;
      ReadingOrderIsSorted(hs);
      SortSortedIsIdentity(hs);
    }
  }

  // ---------------------------------------------------------------------
  // Every kept line has its record, and every record comes from a kept line

  /** `h`, at position `k` of the list, is the record that the judged line `j` asks for
      on `page`: the line was kept, and the record carries its key as top and the level,
      median size and text of its candidate. */
  predicate RecordOf(h: Heading, k: nat, page: nat, j: Judged) {
    && j.verdict.Ok? && j.verdict.value.Some?
    && var c := j.verdict.value.value;
       h == Heading(k, page, j.line.key, c.level, c.fontSize, c.text, None)
  }

  /** The line did not raise, and if it was kept its record is in `hs`. */
  predicate Recorded(hs: seq<Heading>, page: nat, j: Judged) {
    j.verdict.Ok? && (j.verdict.value.Some? ==> exists k | 0 <= k < |hs| :: RecordOf(hs[k], k, page, j))
  }

  predicate AllRecorded(hs: seq<Heading>, page: nat, js: seq<Judged>) {
    forall i | 0 <= i < |js| :: Recorded(hs, page, js[i])
  }

  /** `hs` begins with `acc`. */
  predicate Extends(hs: seq<Heading>, acc: seq<Heading>) {
    |acc| <= |hs| && hs[..|acc|] == acc
  }

  lemma ExtendsTrans(a: seq<Heading>, b: seq<Heading>, c: seq<Heading>)
    requires Extends(b, a) && Extends(c, b)
    ensures Extends(c, a)
  {
    assert c[..|a|] == c[..|b|][..|a|];
  }

  lemma RecordedExtends(hs: seq<Heading>, hs': seq<Heading>, page: nat, js: seq<Judged>)
    requires Extends(hs', hs) && AllRecorded(hs, page, js)
    ensures AllRecorded(hs', page, js)
  {
    forall i | 0 <= i < |js| ensures Recorded(hs', page, js[i]) {
      if js[i].verdict.value.Some? {
        var k :| 0 <= k < |hs| && RecordOf(hs[k], k, page, js[i]);
        assert hs'[k] == hs[k];
      }
    }
  }

  /** A turn of the line loop that does not raise keeps the list so far, records its
      line if it keeps it, and appends nothing else. */
  lemma TakeComplete(hs: seq<Heading>, j: Judged, page: nat)
    ensures var r := Take(hs, j, page);
      r.Ok? ==>
        && Extends(r.value, hs)
        && Recorded(r.value, page, j)
        && forall k | |hs| <= k < |r.value| :: RecordOf(r.value[k], k, page, j)
  {
    if Take(hs, j, page).Ok? && j.verdict.value.Some? {
      var r := Take(hs, j, page).value;
      assert r[..|hs|] == hs;
      assert RecordOf(r[|hs|], |hs|, page, j);
    }
  }

  lemma CollectStep(acc: seq<Heading>, init: seq<Judged>, last: Judged, page: nat)
    ensures Collect(acc, init + [last], page) ==
      match Collect(acc, init, page)
      case Err(e) => Err(e)
      case Ok(hs) => Take(hs, last, page)
  {
    Snoc(init, last);
  }

  /** A page that does not raise extends the list, and every line on it is recorded. */
  lemma {:induction false} CollectComplete(acc: seq<Heading>, js: seq<Judged>, page: nat)
    ensures var r := Collect(acc, js, page);
      r.Ok? ==> Extends(r.value, acc) && AllRecorded(r.value, page, js)
    decreases |js|
  {
    if js != [] && Collect(acc, js, page).Ok? {
      var init, last := js[..|js| - 1], js[|js| - 1];
      SplitLast(js);
      CollectStep(acc, init, last, page);
      CollectComplete(acc, init, page);
      var hs := Collect(acc, init, page).value;
      var r := Take(hs, last, page).value;
      TakeComplete(hs, last, page);
      RecordedExtends(hs, r, page, init);
      ExtendsTrans(acc, hs, r);
      AllRecordedSnoc(r, page, init, last);
    }
  }

  lemma AllRecordedSnoc(hs: seq<Heading>, page: nat, init: seq<Judged>, last: Judged)
    requires AllRecorded(hs, page, init) && Recorded(hs, page, last)
    ensures AllRecorded(hs, page, init + [last])
  {
    var js := init + [last];
    forall i | 0 <= i < |js| ensures Recorded(hs, page, js[i]) {
      if i < |init| { assert js[i] == init[i]; }
    }
  }

  /** `h`, at position `k`, is the record of some line of `js`. */
  predicate RecordOfSome(h: Heading, k: nat, page: nat, js: seq<Judged>) {
    exists i | 0 <= i < |js| :: RecordOf(h, k, page, js[i])
  }

  /** Every record of `hs` from position `lo` on is the record of a line of `js`. */
  predicate FromLines(hs: seq<Heading>, lo: nat, page: nat, js: seq<Judged>) {
    forall k | lo <= k < |hs| :: RecordOfSome(hs[k], k, page, js)
  }

  /** What a page that does not raise appends are records of its own kept lines. */
  lemma {:induction false} CollectOrigin(acc: seq<Heading>, js: seq<Judged>, page: nat)
    ensures var r := Collect(acc, js, page);
      r.Ok? ==> FromLines(r.value, |acc|, page, js)
    decreases |js|
  {
    if js != [] && Collect(acc, js, page).Ok? {
      var init, last := js[..|js| - 1], js[|js| - 1];
      SplitLast(js);
      CollectStep(acc, init, last, page);
      CollectOrigin(acc, init, page);
      CollectComplete(acc, init, page);
      var hs := Collect(acc, init, page).value;
      TakeComplete(hs, last, page);
      FromLinesSnoc(hs, Take(hs, last, page).value, |acc|, page, init, last);
    }
  }

  lemma FromLinesSnoc(hs: seq<Heading>, r: seq<Heading>, lo: nat, page: nat, init: seq<Judged>, last: Judged)
    requires lo <= |hs| && Extends(r, hs) && FromLines(hs, lo, page, init)
    requires forall k | |hs| <= k < |r| :: RecordOf(r[k], k, page, last)
    ensures FromLines(r, lo, page, init + [last])
  {
    var js := init + [last];
    forall k | lo <= k < |r| ensures RecordOfSome(r[k], k, page, js) {
      if k < |hs| {
        assert r[k] == hs[k];
        var i :| 0 <= i < |init| && RecordOf(hs[k], k, page, init[i]);
        assert js[i] == init[i];
      } else {
        assert js[|init|] == last;
      }
    }
  }

  /** Every line of the first `n` judged pages is recorded in a scan that does not raise. */
  lemma {:induction false} ScanPagesComplete(judged: seq<seq<Judged>>, n: nat)
    requires n <= |judged|
    ensures var r := ScanPages(judged, n);
      r.Ok? ==> forall p | 0 <= p < n :: AllRecorded(r.value, p + 1, judged[p])
  {
    if n > 0 && ScanPages(judged, n).Ok? {
      ScanPagesComplete(judged, n - 1);
      var hs := ScanPages(judged, n - 1).value;
      var r := Collect(hs, judged[n - 1], n).value;
      CollectComplete(hs, judged[n - 1], n);
      forall p | 0 <= p < n - 1 ensures AllRecorded(r, p + 1, judged[p]) {
        RecordedExtends(hs, r, p + 1, judged[p]);
      }
    }
  }

  /** Every record of the first `n` judged pages is the record of a kept line on one of them. */
  ghost predicate FromPages(hs: seq<Heading>, judged: seq<seq<Judged>>, n: nat)
    requires n <= |judged|
  {
    forall k | 0 <= k < |hs| ::
      exists p, i | 0 <= p < n && 0 <= i < |judged[p]| :: RecordOf(hs[k], k, p + 1, judged[p][i])
  }

  lemma {:induction false} ScanPagesOrigin(judged: seq<seq<Judged>>, n: nat)
    requires n <= |judged|
    ensures var r := ScanPages(judged, n);
      r.Ok? ==> FromPages(r.value, judged, n)
  {
    if n > 0 && ScanPages(judged, n).Ok? {
      ScanPagesOrigin(judged, n - 1);
      var hs := ScanPages(judged, n - 1).value;
      var r := Collect(hs, judged[n - 1], n).value;
      CollectComplete(hs, judged[n - 1], n);
      CollectOrigin(hs, judged[n - 1], n);
      forall k | 0 <= k < |r|
        ensures exists p, i | 0 <= p < n && 0 <= i < |judged[p]| :: RecordOf(r[k], k, p + 1, judged[p][i])
      {
        if k < |hs| {
          assert r[k] == hs[k];
          var p, i :| 0 <= p < n - 1 && 0 <= i < |judged[p]| && RecordOf(hs[k], k, p + 1, judged[p][i]);
        } else {
          var i :| 0 <= i < |judged[n - 1]| && RecordOf(r[k], k, n, judged[n - 1][i]);
        }
      }
    }
  }

  /** Line `i` of page `p` of `pageLines` together with its verdict on page `p + 1`. */
  function JudgedLine(pageLines: seq<seq<WordLine>>, p: nat, i: nat, profile: Profile, tol: real): Judged
    requires p < |pageLines| && i < |pageLines[p]|
  {
    Judged(pageLines[p][i], LineHeading(pageLines[p][i], p + 1, profile, tol))
  }

  lemma JudgedLineAt(pageLines: seq<seq<WordLine>>, p: nat, i: nat, profile: Profile, tol: real)
    requires p < |pageLines| && i < |pageLines[p]|
    ensures i < |JudgedPages(pageLines, profile, tol)[p]|
    ensures JudgedPages(pageLines, profile, tol)[p][i] == JudgedLine(pageLines, p, i, profile, tol)
  {
    JudgedPageAt(pageLines, p, profile, tol);
  }

  /** In a successful extraction no line of a scanned page raised, and every line that
      LineHeading keeps has its record: on its page, its key as top, and the level, median
      size and text of its candidate. */
  lemma ExtractedHeadingsComplete(pages: seq<seq<Word>>, tol: real, maxPages: Option<int>)
    ensures var r := ExtractionOf(pages, tol, maxPages);
      var n, lines := ScanCount(|pages|, maxPages), PageLines(pages);
      r.Ok? ==>
        forall p, i | 0 <= p < n && 0 <= i < |lines[p]| ::
          Recorded(r.value.headings, p + 1, JudgedLine(lines, p, i, r.value.profile, tol))
  {
    var r := ExtractionOf(pages, tol, maxPages);
    var n, lines := ScanCount(|pages|, maxPages), PageLines(pages);
    if r.Ok? {
      var profile := r.value.profile;
      var judged := JudgedPages(lines, profile, tol);
      ExtractedHeadingsValid(pages, tol, maxPages);
      ScanPagesComplete(judged, n);
      forall p, i | 0 <= p < n && 0 <= i < |lines[p]|
        ensures Recorded(r.value.headings, p + 1, JudgedLine(lines, p, i, profile, tol))
      {
        JudgedLineAt(lines, p, i, profile, tol);
        assert AllRecorded(r.value.headings, p + 1, judged[p]);
      }
    }
  }

  /** `h`, at position `k`, is the record of a line that LineHeading keeps on one of the
      first `n` pages of `lines`. */
  ghost predicate KeptFrom(h: Heading, k: nat, lines: seq<seq<WordLine>>, n: nat, profile: Profile, tol: real)
    requires n <= |lines|
  {
    exists p, i | 0 <= p < n && 0 <= i < |lines[p]| :: RecordOf(h, k, p + 1, JudgedLine(lines, p, i, profile, tol))
  }

  lemma FromJudgedPages(hs: seq<Heading>, lines: seq<seq<WordLine>>, n: nat, profile: Profile, tol: real)
    requires n <= |lines| && FromPages(hs, JudgedPages(lines, profile, tol), n)
    ensures forall k | 0 <= k < |hs| :: KeptFrom(hs[k], k, lines, n, profile, tol)
  {
    var judged := JudgedPages(lines, profile, tol);
    forall k | 0 <= k < |hs| ensures KeptFrom(hs[k], k, lines, n, profile, tol) {
      var p, i :| 0 <= p < n && 0 <= i < |judged[p]| && RecordOf(hs[k], k, p + 1, judged[p][i]);
      JudgedPageAt(lines, p, profile, tol);
      JudgedLineAt(lines, p, i, profile, tol);
    }
  }

  /** Every record of a successful extraction is the record of a line that LineHeading
      keeps on one of the scanned pages. */
  lemma ExtractedHeadingsOrigin(pages: seq<seq<Word>>, tol: real, maxPages: Option<int>)
    ensures var r := ExtractionOf(pages, tol, maxPages);
      var n := ScanCount(|pages|, maxPages);
      r.Ok? ==>
        forall k | 0 <= k < |r.value.headings| ::
          KeptFrom(r.value.headings[k], k, PageLines(pages), n, r.value.profile, tol)
  {
    var r := ExtractionOf(pages, tol, maxPages);
    var n := ScanCount(|pages|, maxPages);
    if r.Ok? {
      var judged := JudgedPages(PageLines(pages), r.value.profile, tol);
      ExtractedHeadingsValid(pages, tol, maxPages);
      ScanPagesOrigin(judged, n);
      FromJudgedPages(r.value.headings, PageLines(pages), n, r.value.profile, tol);
    }
  }

  /** The page loop of extract_headings, then the final sort by (page, top). */
  method ExtractHeadings(pages: seq<seq<Word>>, tol: real, maxPages: Option<int>) returns (r: Result<Extraction, ExtractError>)
    ensures r == ExtractionOf(pages, tol, maxPages)
  {
    var analyzed := AnalyzeFontSizes(pages, maxPages);
    if analyzed.Err? {
      return Err(Profiling(analyzed.error));
    }
    var profile := analyzed.value;
    var n := ScanCount(|pages|, maxPages);
    var headings := ScanAllPages(pages, n, profile, tol);
    match headings
    case Err(e) =>
      return Err(e);
    case Ok(hs) =>
      var sorted := SortByPageTop(hs);
      return Ok(Extraction(profile, sorted));
  }

  /** The loop over the scanned pages. */
  method ScanAllPages(pages: seq<seq<Word>>, n: nat, profile: Profile, tol: real) returns (r: Result<seq<Heading>, ExtractError>)
    requires n <= |pages|
    ensures r == ScanPages(JudgedPages(PageLines(pages), profile, tol), n)
  {
    ghost var judged := JudgedPages(PageLines(pages), profile, tol);
    var headings: seq<Heading> := [];
    for p: nat := 0 to n
      invariant ScanPages(judged, p) == Ok(headings)
    {
      var scanned := ScanPageOf(headings, pages, p, profile, tol);
      ScanPagesTurn(judged, p, n, headings, scanned);
      if scanned.Err? {
        return scanned;
      }
      headings := scanned.value;
    }
    r := Ok(headings);
  }

  /** One turn of the page loop: the lines of page `p + 1`, scanned one by one. */
  method ScanPageOf(headings: seq<Heading>, pages: seq<seq<Word>>, p: nat, profile: Profile, tol: real) returns (r: Result<seq<Heading>, ExtractError>)
    requires p < |pages|
    ensures r == Collect(headings, JudgedPages(PageLines(pages), profile, tol)[p], p + 1)
  {
    var lines := GroupLines(pages[p], None, None);
    JudgedPageAt(PageLines(pages), p, profile, tol);
    PageLinesAt(pages, p);
    r := ScanPage(headings, lines, p + 1, profile, tol);
  }

  /** The line loop of one page of extract_headings; the first line that raises ends it. */
  method ScanPage(headings0: seq<Heading>, lines: seq<WordLine>, page: nat, profile: Profile, tol: real) returns (r: Result<seq<Heading>, ExtractError>)
    ensures r == Collect(headings0, Judge(lines, page, profile, tol), page)
  {
    ghost var js := Judge(lines, page, profile, tol);
    var headings := headings0;
    for j := 0 to |lines|
      invariant Collect(headings0, js[..j], page) == Ok(headings)
    {
      CollectSnoc(headings0, js, j, page);
      var step := ScanLine(headings, lines, j, page, profile, tol);
      if step.Err? {
        CollectErrPrefix(headings0, js, j + 1, page);
        return step;
      }
      headings := step.value;
    }
    assert js[..|js|] == js;
    r := Ok(headings);
  }

  /** The body of the line loop for line `j`: a heading is appended with the next id. */
  method ScanLine(headings: seq<Heading>, lines: seq<WordLine>, j: nat, page: nat, profile: Profile, tol: real) returns (r: Result<seq<Heading>, ExtractError>)
    requires j < |lines|
    ensures r == Take(headings, Judge(lines, page, profile, tol)[j], page)
  {
    var line := lines[j];
    var found := LineHeading(line, page, profile, tol);
    match found
    case Err(e) =>
      r := Err(e);
    case Ok(None) =>
      r := Ok(headings);
    case Ok(Some(c)) =>
      var headingId := |headings|;
      r := Ok(headings + [Heading(headingId, page, line.key, c.level, c.fontSize, c.text, None)]);
  }
}
