/** Word tokens as the PDF decoder hands them over, and their grouping into
    visual lines by rounded vertical position (the `lines` / `grouped` dicts
    of detect_headings.py). */
module Words {
  import opened Wrappers
  import opened Seqs

  /** One word token. `size` is None when the decoder's size cannot be read as a number. */
  datatype Word = Word(text: string, x0: real, x1: real, top: real, size: Option<real>)

  /** round(x, 1), as a count of tenths (halves round up). */
  function Tenths(x: real): int {
    (x * 10.0 + 0.5).Floor
  }

  lemma TenthsMonotone(x: real, y: real)
    requires x <= y
    ensures Tenths(x) <= Tenths(y)
  {
  }

  /** The bucket key of a word: its `top` rounded to one decimal. */
  function TopKey(w: Word): int {
    Tenths(w.top)
  }

  // ---------------------------------------------------------------------
  // sorted(words, key=lambda w: w["x0"])

  /** Each word starts no further left than the word before it. */
  predicate SortedByX0(ws: seq<Word>) {
    forall i | 0 < i < |ws| :: ws[i - 1].x0 <= ws[i].x0
  }

  lemma SortedByX0Snoc(s: seq<Word>, w: Word)
    requires SortedByX0(s) && (s == [] || s[|s| - 1].x0 <= w.x0)
    ensures SortedByX0(s + [w])
  {
    var t := s + [w];
    forall i | 0 < i < |t| ensures t[i - 1].x0 <= t[i].x0 {
      if i < |s| {
        assert t[i - 1] == s[i - 1] && t[i] == s[i];
      }
    }
  }

  /** Inserts `w` after every element whose x0 is at most w.x0 (so equal keys keep their order). */
  function InsertByX0(s: seq<Word>, w: Word): (r: seq<Word>)
    requires SortedByX0(s)
    ensures |r| == |s| + 1
    ensures SortedByX0(r)
    ensures multiset(r) == multiset(s) + multiset{w}
    ensures r[|r| - 1] == w || (s != [] && r[|r| - 1] == s[|s| - 1])
    decreases |s|
  {
    if s == [] || s[|s| - 1].x0 <= w.x0 then
      SortedByX0Snoc(s, w);
      s + [w]
    else
      var init := s[..|s| - 1];
      var last := s[|s| - 1];
      assert s == init + [last];
      assert SortedByX0(init);
      var r' := InsertByX0(init, w);
      assert r'[|r'| - 1].x0 <= last.x0;
      SortedByX0Snoc(r', last);
      assert multiset(r' + [last]) == multiset(r') + multiset{last};
      r' + [last]
  }

  /** A stable sort of a line's words from left to right. */
  function SortByX0(ws: seq<Word>): (r: seq<Word>)
    ensures SortedByX0(r)
    ensures multiset(r) == multiset(ws)
  {
    if ws == [] then []
    else
      var init := ws[..|ws| - 1];
      assert ws == init + [ws[|ws| - 1]];
      InsertByX0(SortByX0(init), ws[|ws| - 1])
  }

  /** The words of `ws` that start at `x`, in input order. */
  function AtX0(ws: seq<Word>, x: real): seq<Word> {
    if ws == [] then [] else AtX0(ws[..|ws| - 1], x) + (if ws[|ws| - 1].x0 == x then [ws[|ws| - 1]] else [])
  }

  lemma AtX0Snoc(s: seq<Word>, w: Word, x: real)
    ensures AtX0(s + [w], x) == AtX0(s, x) + (if w.x0 == x then [w] else [])
  {
    Snoc(s, w);
  }

  lemma InsertByX0Step(s: seq<Word>, w: Word)
    requires SortedByX0(s) && s != [] && w.x0 < s[|s| - 1].x0
    ensures SortedByX0(s[..|s| - 1])
    ensures InsertByX0(s, w) == InsertByX0(s[..|s| - 1], w) + [s[|s| - 1]]
  {
  }

  /** Inserting a word puts it after every word with the same x0. */
  lemma {:induction false} InsertByX0Stable(s: seq<Word>, w: Word, x: real)
    requires SortedByX0(s)
    ensures AtX0(InsertByX0(s, w), x) == AtX0(s, x) + (if w.x0 == x then [w] else [])
    decreases |s|
  {
    if s == [] || s[|s| - 1].x0 <= w.x0 {
      AtX0Snoc(s, w, x);
    } else {
      var init, last := s[..|s| - 1], s[|s| - 1];
      InsertByX0Step(s, w);
      InsertByX0Stable(init, w, x);
      AtX0Snoc(InsertByX0(init, w), last, x);
      SplitLast(s);
      AtX0Snoc(init, last, x);
    }
  }

  /** `sorted` is stable: the words that share an x0 keep their input order. */
  lemma {:induction false} SortByX0Stable(ws: seq<Word>, x: real)
    ensures AtX0(SortByX0(ws), x) == AtX0(ws, x)
  {
    if ws != [] {
      var init, last := ws[..|ws| - 1], ws[|ws| - 1];
      SplitLast(ws);
      SortByX0Stable(init, x);
      InsertByX0Stable(SortByX0(init), last, x);
      AtX0Snoc(init, last, x);
    }
  }

  // ---------------------------------------------------------------------
  // The sorted keys of the grouping dict

  predicate StrictlyAscending(s: seq<int>) {
    forall i, j | 0 <= i < j < |s| :: s[i] < s[j]
  }

  /** Adds `k` to a strictly ascending key list unless it is already there. */
  function InsertKey(s: seq<int>, k: int): (r: seq<int>)
    requires StrictlyAscending(s)
    ensures StrictlyAscending(r)
    ensures forall x :: x in r <==> x in s || x == k
  {
    if s == [] then [k]
    else if k < s[0] then [k] + s
    else if k == s[0] then s
    else
      var r' := InsertKey(s[1..], k);
      assert forall x | x in s[1..] :: s[0] < x;
      assert forall x | x in r' :: s[0] < x;
      var r := [s[0]] + r';
      assert forall i | 1 <= i < |r| :: r[i] == r'[i - 1];
      assert forall i | 1 <= i < |r| :: r[i] in r';
      r
  }

  /** Some word of `ws` has rounded top `k`. */
  predicate HasKey(ws: seq<Word>, k: int) {
    exists w | w in ws :: TopKey(w) == k
  }

  /** The distinct rounded tops of `ws`, ascending: sorted(grouped.keys()). */
  function TopKeys(ws: seq<Word>): (r: seq<int>)
    ensures StrictlyAscending(r)
    ensures forall k :: k in r <==> HasKey(ws, k)
  {
    if ws == [] then []
    else
      var init := ws[..|ws| - 1];
      assert ws == init + [ws[|ws| - 1]];
      InsertKey(TopKeys(init), TopKey(ws[|ws| - 1]))
  }

  /** The words of `ws` whose rounded top is `k`, in input order: grouped[k]. */
  function Bucket(ws: seq<Word>, k: int): (r: seq<Word>)
    ensures forall w :: w in r <==> w in ws && TopKey(w) == k
    ensures HasKey(ws, k) <==> r != []
  {
    if ws == [] then []
    else
      var init := ws[..|ws| - 1];
      var last := ws[|ws| - 1];
      assert ws == init + [last];
      Bucket(init, k) + (if TopKey(last) == k then [last] else [])
  }

  /** `grouped[k]` keeps input order: the bucket of a concatenation is the bucket of the
      first part followed by the bucket of the second. */
  lemma {:induction false} BucketAppend(a: seq<Word>, b: seq<Word>, k: int)
    ensures Bucket(a + b, k) == Bucket(a, k) + Bucket(b, k)
    decreases |b|
  {
    if b == [] {
      assert a + b == a;
    } else {
      var init, last := b[..|b| - 1], b[|b| - 1];
      SplitLast(b);
      Assoc(a, init, [last]);
      BucketAppend(a, init, k);
      BucketStep(a + init, last, k);
      BucketStep(init, last, k);
      Assoc(Bucket(a, k), Bucket(init, k), if TopKey(last) == k then [last] else []);
    }
  }

  // ---------------------------------------------------------------------
  // Vertical bounds of extract_lines_from_page

  /** A word contributes unless it lies above `minTop - 0.2` or at or below `maxTop - 0.2`. */
  predicate Admitted(w: Word, minTop: Option<real>, maxTop: Option<real>) {
    && !(minTop.Some? && w.top < minTop.value - 0.2)
    && !(maxTop.Some? && w.top >= maxTop.value - 0.2)
  }

  function AdmittedWords(ws: seq<Word>, minTop: Option<real>, maxTop: Option<real>): (r: seq<Word>)
    ensures forall w :: w in r <==> w in ws && Admitted(w, minTop, maxTop)
  {
    if ws == [] then []
    else
      var init := ws[..|ws| - 1];
      var last := ws[|ws| - 1];
      assert ws == init + [last];
      AdmittedWords(init, minTop, maxTop) + (if Admitted(last, minTop, maxTop) then [last] else [])
  }

  /** The bounds keep input order: the admitted words of a concatenation are those of
      the first part followed by those of the second. */
  lemma {:induction false} AdmittedAppend(a: seq<Word>, b: seq<Word>, minTop: Option<real>, maxTop: Option<real>)
    ensures AdmittedWords(a + b, minTop, maxTop) == AdmittedWords(a, minTop, maxTop) + AdmittedWords(b, minTop, maxTop)
    decreases |b|
  {
    if b == [] {
      assert a + b == a;
    } else {
      var init, last := b[..|b| - 1], b[|b| - 1];
      SplitLast(b);
      Assoc(a, init, [last]);
      AdmittedAppend(a, init, minTop, maxTop);
      LinesStep(a + init, last, minTop, maxTop);
      LinesStep(init, last, minTop, maxTop);
      Assoc(AdmittedWords(a, minTop, maxTop), AdmittedWords(init, minTop, maxTop),
        if Admitted(last, minTop, maxTop) then [last] else []);
    }
  }

  /** One visual line: the rounded top shared by its words, and those words in input order. */
  datatype WordLine = WordLine(key: int, words: seq<Word>)

  /** The admitted words of a page grouped into lines, top to bottom. */
  function Lines(ws: seq<Word>, minTop: Option<real>, maxTop: Option<real>): (r: seq<WordLine>)
  {
    var adm := AdmittedWords(ws, minTop, maxTop);
    var keys := TopKeys(adm);
    seq(|keys|, j requires 0 <= j < |keys| => WordLine(keys[j], Bucket(adm, keys[j])))
  }

  /** Lines run strictly top to bottom; no line is empty; each line holds exactly the
      admitted words with its key, and every admitted word is in its line. */
  lemma LinesShape(ws: seq<Word>, minTop: Option<real>, maxTop: Option<real>)
    ensures var r := Lines(ws, minTop, maxTop);
      && (forall i, j | 0 <= i < j < |r| :: r[i].key < r[j].key)
      && (forall i | 0 <= i < |r| :: r[i].words != [])
      && (forall i, w | 0 <= i < |r| :: w in r[i].words <==> w in ws && Admitted(w, minTop, maxTop) && TopKey(w) == r[i].key)
      && (forall w | w in ws && Admitted(w, minTop, maxTop) :: exists i | 0 <= i < |r| :: r[i].key == TopKey(w))
  {
    var adm := AdmittedWords(ws, minTop, maxTop);
    var keys := TopKeys(adm);
    var r := Lines(ws, minTop, maxTop);
    forall w | w in ws && Admitted(w, minTop, maxTop)
      ensures exists i | 0 <= i < |r| :: r[i].key == TopKey(w)
    {
      assert w in adm;
      assert TopKey(w) in keys;
      var i :| 0 <= i < |keys| && keys[i] == TopKey(w);
      assert r[i].key == TopKey(w);
    }
    forall i | 0 <= i < |r| ensures r[i].words != [] {
      assert keys[i] in keys;
    }
  }

  lemma LinesStep(prefix: seq<Word>, w: Word, minTop: Option<real>, maxTop: Option<real>)
    ensures AdmittedWords(prefix + [w], minTop, maxTop)
         == AdmittedWords(prefix, minTop, maxTop) + (if Admitted(w, minTop, maxTop) then [w] else [])
  {
    assert (prefix + [w])[..|prefix|] == prefix;
  }

  lemma BucketStep(a: seq<Word>, w: Word, k: int)
    ensures Bucket(a + [w], k) == Bucket(a, k) + (if TopKey(w) == k then [w] else [])
  {
    assert (a + [w])[..|a|] == a;
  }

  lemma TopKeysStep(a: seq<Word>, w: Word)
    ensures TopKeys(a + [w]) == InsertKey(TopKeys(a), TopKey(w))
  {
    assert (a + [w])[..|a|] == a;
  }

  /** What the grouping dict and its key list hold once `adm` has been bucketed. */
  ghost predicate Grouped(grouped: map<int, seq<Word>>, keys: seq<int>, adm: seq<Word>) {
    && keys == TopKeys(adm)
    && (forall k :: k in grouped <==> k in keys)
    && (forall k | k in grouped :: grouped[k] == Bucket(adm, k))
  }

  /** grouped.setdefault(key, []).append(w) */
  function AppendTo(grouped: map<int, seq<Word>>, key: int, w: Word): (g: map<int, seq<Word>>)
    ensures key in g && g[key] == (if key in grouped then grouped[key] else []) + [w]
    ensures forall k :: k in g <==> k in grouped || k == key
    ensures forall k | k in grouped && k != key :: g[k] == grouped[k]
  {
    grouped[key := (if key in grouped then grouped[key] else []) + [w]]
  }

  lemma AppendToNewBucket(grouped: map<int, seq<Word>>, keys: seq<int>, adm: seq<Word>, w: Word)
    requires Grouped(grouped, keys, adm)
    ensures AppendTo(grouped, TopKey(w), w)[TopKey(w)] == Bucket(adm + [w], TopKey(w))
  {
    var key := TopKey(w);
    assert (if key in grouped then grouped[key] else []) == Bucket(adm, key) by {
      if key !in grouped {
        assert !HasKey(adm, key);
      }
    }
    BucketStep(adm, w, key);
  }

  lemma AppendToOtherBuckets(grouped: map<int, seq<Word>>, keys: seq<int>, adm: seq<Word>, w: Word)
    requires Grouped(grouped, keys, adm)
    ensures var g := AppendTo(grouped, TopKey(w), w);
      forall k | k in g && k != TopKey(w) :: g[k] == Bucket(adm + [w], k)
  {
    var g := AppendTo(grouped, TopKey(w), w);
    forall k | k in g && k != TopKey(w) ensures g[k] == Bucket(adm + [w], k) {
      BucketStep(adm, w, k);
    }
  }

  /** Appending a word to its bucket keeps the dict in step with the words seen. */
  lemma GroupedStep(grouped: map<int, seq<Word>>, keys: seq<int>, adm: seq<Word>, w: Word)
    requires Grouped(grouped, keys, adm)
    ensures Grouped(AppendTo(grouped, TopKey(w), w), InsertKey(keys, TopKey(w)), adm + [w])
  {
    TopKeysStep(adm, w);
    AppendToNewBucket(grouped, keys, adm, w);
    AppendToOtherBuckets(grouped, keys, adm, w);
  }

  lemma ReadGrouped(grouped: map<int, seq<Word>>, keys: seq<int>, adm: seq<Word>)
    requires Grouped(grouped, keys, adm)
    ensures forall j | 0 <= j < |keys| :: keys[j] in grouped && grouped[keys[j]] == Bucket(adm, keys[j])
  {
    forall j | 0 <= j < |keys| ensures keys[j] in grouped {
      assert keys[j] in keys;
    }
  }

  lemma LinesFromGrouped(ws: seq<Word>, minTop: Option<real>, maxTop: Option<real>,
                         grouped: map<int, seq<Word>>, keys: seq<int>, lines: seq<WordLine>)
    requires keys == TopKeys(AdmittedWords(ws, minTop, maxTop))
    requires forall j | 0 <= j < |keys| :: keys[j] in grouped && grouped[keys[j]] == Bucket(AdmittedWords(ws, minTop, maxTop), keys[j])
    requires |lines| == |keys| && forall j | 0 <= j < |keys| :: lines[j] == WordLine(keys[j], grouped[keys[j]])
    ensures lines == Lines(ws, minTop, maxTop)
  {
  }

  /** The dict-building loop: each admitted word is appended to the bucket of its
      rounded top, and the sorted key list gains that top. */
  method BucketWords(ws: seq<Word>, minTop: Option<real>, maxTop: Option<real>) returns (grouped: map<int, seq<Word>>, keys: seq<int>)
    ensures Grouped(grouped, keys, AdmittedWords(ws, minTop, maxTop))
  {
    grouped, keys := map[], [];
    ghost var adm: seq<Word> := [];
    var i := 0;
    while i < |ws|
      invariant 0 <= i <= |ws|
      invariant adm == AdmittedWords(ws[..i], minTop, maxTop)
      invariant Grouped(grouped, keys, adm)
    {
      var w := ws[i];
      PrefixSnoc(ws, i);
      LinesStep(ws[..i], w, minTop, maxTop);
      if Admitted(w, minTop, maxTop) {
        var key := TopKey(w);
        GroupedStep(grouped, keys, adm, w);
        grouped := AppendTo(grouped, key, w);
        keys := InsertKey(keys, key);
        adm := adm + [w];
      }
      i := i + 1;
    }
    assert ws[..i] == ws;
  }

  /** The lines of a page: the buckets read off in ascending key order. */
  method GroupLines(ws: seq<Word>, minTop: Option<real>, maxTop: Option<real>) returns (lines: seq<WordLine>)
    ensures lines == Lines(ws, minTop, maxTop)
  {
    var grouped, keys := BucketWords(ws, minTop, maxTop);
    ReadGrouped(grouped, keys, AdmittedWords(ws, minTop, maxTop));
    lines := seq(|keys|, j requires 0 <= j < |keys| => WordLine(keys[j], grouped[keys[j]]));
    LinesFromGrouped(ws, minTop, maxTop, grouped, keys, lines);
  }
}
