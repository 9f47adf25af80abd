/** Font profiling (analyze_font_sizes): a histogram of rounded font sizes over the
    scanned pages, the body size as its first most frequent entry, and the heading
    sizes as the frequent sizes clearly larger than the body size. */
module FontProfile {
  import opened Seqs
  import opened Wrappers
  import opened Words

  datatype ProfileError = NoFontSizes

  /** body_size, heading_sizes and size_counts, all sizes in tenths. */
  datatype Profile = Profile(bodySize: int, headingSizes: seq<int>, counts: map<int, nat>)

  /** How many pages a run scans: all of them, or range(min(maxPages, n)). */
  function ScanCount(nPages: nat, maxPages: Option<int>): (n: nat)
    ensures n <= nPages
    ensures maxPages.None? ==> n == nPages
    ensures maxPages.Some? && 0 <= maxPages.value ==> n == if maxPages.value < nPages then maxPages.value else nPages
    ensures maxPages.Some? && maxPages.value < 0 ==> n == 0
  {
    match maxPages
    case None => nPages
    case Some(m) => if m <= 0 then 0 else if m < nPages then m else nPages
  }

  /** The rounded sizes of the words of one page whose size reads as a number. */
  function PageSizes(ws: seq<Word>): seq<int> {
    if ws == [] then []
    else
      var last := ws[|ws| - 1];
      PageSizes(ws[..|ws| - 1]) + (if last.size.Some? then [Tenths(last.size.value)] else [])
  }

  /** Every size the histogram receives from the first `n` pages, in scan order. */
  function ScannedSizes(pages: seq<seq<Word>>, n: nat): seq<int>
    requires n <= |pages|
  {
    if n == 0 then [] else ScannedSizes(pages, n - 1) + PageSizes(pages[n - 1])
  }

  /** Occurrences of `x` in `s`. */
  function Occ(s: seq<int>, x: int): nat {
    if s == [] then 0 else Occ(s[..|s| - 1], x) + (if s[|s| - 1] == x then 1 else 0)
  }

  lemma OccPositive(s: seq<int>, x: int)
    ensures x in s <==> Occ(s, x) > 0
  {
    if s != [] {
      assert s == s[..|s| - 1] + [s[|s| - 1]];
      OccPositive(s[..|s| - 1], x);
    }
  }

  predicate NoDuplicates(s: seq<int>) {
    forall i, j | 0 <= i < j < |s| :: s[i] != s[j]
  }

  /** The distinct sizes of `s` in order of first occurrence (the Counter's key order). */
  function Distinct(s: seq<int>): (r: seq<int>)
    ensures NoDuplicates(r)
    ensures forall x :: x in r <==> x in s
  {
    if s == [] then []
    else
      var init := s[..|s| - 1];
      var last := s[|s| - 1];
      assert s == init + [last];
      Distinct(init) + (if last in init then [] else [last])
  }

  /** The Counter itself: every size of `s` mapped to its number of occurrences. */
  function CountsOf(s: seq<int>): map<int, nat> {
    if s == [] then map[]
    else
      var m := CountsOf(s[..|s| - 1]);
      var last := s[|s| - 1];
      m[last := Count(m, last) + 1]
  }

  /** A Counter lookup: the count of `k`, zero for a size never seen. */
  function Count(m: map<int, nat>, k: int): nat {
    if k in m then m[k] else 0
  }

  /** The Counter holds exactly the sizes of `s`, each with its number of occurrences. */
  lemma {:induction false} CountsOfCorrect(s: seq<int>, x: int)
    ensures x in CountsOf(s) <==> x in s
    ensures Count(CountsOf(s), x) == Occ(s, x)
  {
    if s != [] {
      var init := s[..|s| - 1];
      assert s == init + [s[|s| - 1]];
      CountsOfCorrect(init, x);
    }
  }

  /** max(items, key=count): the first key, in `keys` order, whose count is largest. */
  function FirstMax(keys: seq<int>, counts: map<int, nat>): (b: int)
    requires keys != []
    ensures b in keys
    ensures forall k | k in keys :: Count(counts, k) <= Count(counts, b)
    ensures exists i | 0 <= i < |keys| :: keys[i] == b && forall j | 0 <= j < i :: Count(counts, keys[j]) < Count(counts, b)
  {
    if |keys| == 1 then keys[0]
    else
      var init := keys[..|keys| - 1];
      var last := keys[|keys| - 1];
      SplitLast(keys);
      var best := FirstMax(init, counts);
      if Count(counts, last) > Count(counts, best) then last else best
  }

  predicate StrictlyDescending(s: seq<int>) {
    forall i, j | 0 <= i < j < |s| :: s[i] > s[j]
  }

  /** Adds `x` to a strictly descending list unless it is already there. */
  function InsertDesc(s: seq<int>, x: int): (r: seq<int>)
    requires StrictlyDescending(s)
    ensures StrictlyDescending(r)
    ensures forall y :: y in r <==> y in s || y == x
  {
    if s == [] then [x]
    else if x > s[0] then [x] + s
    else if x == s[0] then s
    else
      var r' := InsertDesc(s[1..], x);
      assert forall y | y in s[1..] :: y < s[0];
      assert forall y | y in r' :: y < s[0];
      var r := [s[0]] + r';
      assert forall i | 1 <= i < |r| :: r[i] == r'[i - 1];
      assert forall i | 1 <= i < |r| :: r[i] in r';
      r
  }

  /** A heading size is larger than body + 0.5 and is used at least three times. */
  predicate IsHeadingSize(x: int, body: int, counts: map<int, nat>) {
    x > body + 5 && Count(counts, x) >= 3
  }

  /** sorted([size for size, count in items if size > body + 0.5 and count >= 3], reverse=True) */
  function HeadingSizes(keys: seq<int>, counts: map<int, nat>, body: int): (r: seq<int>)
    ensures StrictlyDescending(r)
    ensures forall x :: x in r <==> x in keys && IsHeadingSize(x, body, counts)
  {
    if keys == [] then []
    else
      var init := keys[..|keys| - 1];
      var last := keys[|keys| - 1];
      assert keys == init + [last];
      var r := HeadingSizes(init, counts, body);
      if IsHeadingSize(last, body, counts) then InsertDesc(r, last) else r
  }

  /** The profile of a run whose histogram received the sizes `s`. */
  function ProfileOf(s: seq<int>): Result<Profile, ProfileError> {
    if s == [] then Err(NoFontSizes)
    else
      var keys := Distinct(s);
      var counts := CountsOf(s);
      var body := FirstMax(keys, counts);
      Ok(Profile(body, HeadingSizes(keys, counts, body), counts))
  }

  /** The profile fails exactly when no size was read. */
  lemma ProfileFails(s: seq<int>)
    ensures ProfileOf(s).Err? <==> s == []
  {
  }

  /** The body size occurs in `s` and no size occurs more often; every size first
      seen before it occurs strictly less often (max keeps the first maximum). */
  lemma BodySizeIsFirstMode(s: seq<int>)
    requires s != []
    ensures var body := ProfileOf(s).value.bodySize;
      && body in s
      && (forall x | x in s :: Occ(s, x) <= Occ(s, body))
      && (forall j | 0 <= j < FirstIndex(s, body) :: Occ(s, s[j]) < Occ(s, body))
  {
    var keys := Distinct(s);
    var counts := CountsOf(s);
    var body := FirstMax(keys, counts);
    CountsOfCorrect(s, body);
    forall x | x in s ensures Occ(s, x) <= Occ(s, body) {
      CountsOfCorrect(s, x);
    }
    var i :| 0 <= i < |keys| && keys[i] == body && forall j | 0 <= j < i :: Count(counts, keys[j]) < Count(counts, body);
    var k := FirstIndex(s, body);
    forall j | 0 <= j < k ensures Occ(s, s[j]) < Occ(s, body) {
      DistinctOrder(s, j, k);
      var a, b :| 0 <= a < b < |keys| && keys[a] == s[j] && keys[b] == body;
      NoDupIndex(keys, b, i);
      CountsOfCorrect(s, s[j]);
    }
  }

  lemma NoDupIndex(s: seq<int>, a: nat, b: nat)
    requires NoDuplicates(s) && a < |s| && b < |s| && s[a] == s[b]
    ensures a == b
  {
  }

  /** The heading sizes are strictly descending and are exactly the sizes above
      body + 0.5 that occur at least three times; so all lie above the body size. */
  lemma HeadingSizesCorrect(s: seq<int>)
    requires s != []
    ensures var p := ProfileOf(s).value;
      && StrictlyDescending(p.headingSizes)
      && (forall x :: x in p.headingSizes <==> x in s && x > p.bodySize + 5 && Occ(s, x) >= 3)
      && (forall x | x in p.headingSizes :: x > p.bodySize)
  {
    var keys := Distinct(s);
    var counts := CountsOf(s);
    var body := FirstMax(keys, counts);
    var sizes := HeadingSizes(keys, counts, body);
    assert ProfileOf(s).value == Profile(body, sizes, counts);
    forall x ensures x in sizes <==> x in s && x > body + 5 && Occ(s, x) >= 3 {
      CountsOfCorrect(s, x);
      OccPositive(s, x);
    }
  }

  /** The position of the first occurrence of `x` in `s`. */
  function FirstIndex(s: seq<int>, x: int): (k: nat)
    requires x in s
    ensures k < |s| && s[k] == x && x !in s[..k]
  {
    if s[0] == x then 0 else 1 + FirstIndex(s[1..], x)
  }

  lemma {:induction false} DistinctPrefix(s: seq<int>, m: nat)
    requires m <= |s|
    ensures Distinct(s[..m]) <= Distinct(s)
    decreases |s|
  {
    if m < |s| {
      var init := s[..|s| - 1];
      assert s[..m] == init[..m];
      DistinctPrefix(init, m);
    } else {
      assert s[..m] == s;
    }
  }

  /** Distinct lists values by first occurrence: a value seen before the first
      occurrence of s[k] comes before s[k] in Distinct(s). */
  lemma DistinctOrder(s: seq<int>, j: nat, k: nat)
    requires j < k < |s| && s[k] !in s[..k]
    ensures exists a, b | 0 <= a < b < |Distinct(s)| :: Distinct(s)[a] == s[j] && Distinct(s)[b] == s[k]
  {
    var before := Distinct(s[..k]);
    assert s[..k + 1][..k] == s[..k];
    assert Distinct(s[..k + 1]) == before + [s[k]];
    assert s[j] in s[..k];
    var a :| 0 <= a < |before| && before[a] == s[j];
    DistinctPrefix(s, k + 1);
    assert Distinct(s)[a] == s[j] && Distinct(s)[|before|] == s[k];
  }

  /** One more size recorded: the Counter and its key order as the histogram loop updates them. */
  lemma TallyStep(seen: seq<int>, sz: int, counts: map<int, nat>, order: seq<int>)
    requires counts == CountsOf(seen) && order == Distinct(seen)
    ensures counts[sz := Count(counts, sz) + 1] == CountsOf(seen + [sz])
    ensures order + (if sz in counts then [] else [sz]) == Distinct(seen + [sz])
  {
    assert (seen + [sz])[..|seen|] == seen;
    CountsOfCorrect(seen, sz);
  }

  lemma PageSizesStep(words: seq<Word>, j: nat)
    requires j < |words|
    ensures PageSizes(words[..j + 1]) == PageSizes(words[..j]) + (if words[j].size.Some? then [Tenths(words[j].size.value)] else [])
  {
    assert words[..j + 1][..j] == words[..j];
  }

  /** The word loop of one page: each size that reads as a number adds one to its count. */
  method TallyPage(words: seq<Word>, counts0: map<int, nat>, order0: seq<int>, ghost seen0: seq<int>)
      returns (counts: map<int, nat>, order: seq<int>)
    requires counts0 == CountsOf(seen0) && order0 == Distinct(seen0)
    ensures counts == CountsOf(seen0 + PageSizes(words)) && order == Distinct(seen0 + PageSizes(words))
  {
    counts, order := counts0, order0;
    ghost var seen := seen0;
    for j := 0 to |words|
      invariant seen == seen0 + PageSizes(words[..j])
      invariant counts == CountsOf(seen) && order == Distinct(seen)
    {
      PageSizesStep(words, j);
      var w := words[j];
      if w.size.Some? {
        var sz := Tenths(w.size.value);
        TallyStep(seen, sz, counts, order);
        assert seen + [sz] == seen0 + PageSizes(words[..j + 1]);
        if sz !in counts {
          order := order + [sz];
        }
        counts := counts[sz := Count(counts, sz) + 1];
        seen := seen + [sz];
      }
    }
    assert words[..|words|] == words;
  }

  /** The histogram loop over the scanned pages, then the body and heading sizes. */
  method AnalyzeFontSizes(pages: seq<seq<Word>>, samplePages: Option<int>) returns (r: Result<Profile, ProfileError>)
    ensures r == ProfileOf(ScannedSizes(pages, ScanCount(|pages|, samplePages)))
  {
    var n := ScanCount(|pages|, samplePages);
    var counts: map<int, nat> := map[];
    var order: seq<int> := [];
    for p := 0 to n
      invariant counts == CountsOf(ScannedSizes(pages, p)) && order == Distinct(ScannedSizes(pages, p))
    {
      counts, order := TallyPage(pages[p], counts, order, ScannedSizes(pages, p));
    }
    ghost var seen := ScannedSizes(pages, n);
    if counts == map[] {
      assert seen == [] by {
        if seen != [] {
          CountsOfCorrect(seen, seen[0]);
        }
      }
      return Err(NoFontSizes);
    }
    assert seen != [];
    var body := FirstMax(order, counts);
    r := Ok(Profile(body, HeadingSizes(order, counts, body), counts));
  }
}
