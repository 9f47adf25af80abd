/** String helpers that stand for the Python built-ins the detector relies on:
    str.isspace/strip/lstrip, " ".join, re.split(r"\s{2,}", ...) and html.escape. */
module Text {
  import opened Seqs

  /** Python's str.isspace() (and the `\s` class of `re` on str patterns). */
  predicate IsSpace(c: char) {
    c == ' ' || ('\t' <= c <= '\r') || ('\U{1C}' <= c <= '\U{1F}')
    || c == '\U{85}' || c == '\U{A0}' || c == '\U{1680}'
    || ('\U{2000}' <= c <= '\U{200A}') || c == '\U{2028}' || c == '\U{2029}'
    || c == '\U{202F}' || c == '\U{205F}' || c == '\U{3000}'
  }

  predicate AllSpace(s: string) {
    forall i | 0 <= i < |s| :: IsSpace(s[i])
  }

  /** str.lstrip() */
  function StripLeft(s: string): (r: string)
    ensures |r| <= |s| && r == s[|s| - |r|..]
    ensures AllSpace(s[..|s| - |r|])
    ensures r == [] || !IsSpace(r[0])
  {
    if s != [] && IsSpace(s[0]) then
      var t := s[1..];
      var r := StripLeft(t);
      assert AllSpace(s[..|s| - |r|]) by {
        forall i | 0 < i < |s| - |r| ensures IsSpace(s[i]) {
          assert s[i] == t[..|t| - |r|][i - 1];
        }
      }
      r
    else s
  }

  /** str.rstrip() */
  function StripRight(s: string): (r: string)
    ensures |r| <= |s| && r == s[..|r|]
    ensures AllSpace(s[|r|..])
    ensures r == [] || !IsSpace(r[|r| - 1])
  {
    if s != [] && IsSpace(s[|s| - 1]) then
      var r := StripRight(s[..|s| - 1]);
      assert s[|r|..] == s[..|s| - 1][|r|..] + [s[|s| - 1]];
      r
    else s
  }

  lemma AllSpaceSplit(s: string, k: nat)
    requires k <= |s|
    ensures AllSpace(s) <==> AllSpace(s[..k]) && AllSpace(s[k..])
  {
    if AllSpace(s[..k]) && AllSpace(s[k..]) {
      forall i | 0 <= i < |s| ensures IsSpace(s[i]) {
        if i < k { assert s[i] == s[..k][i]; } else { assert s[i] == s[k..][i - k]; }
      }
    }
  }

  /** str.strip(): the text between the leading and the trailing whitespace. */
  function Strip(s: string): (r: string)
    ensures |r| <= |s|
    ensures r == [] <==> AllSpace(s)
    ensures r != [] ==> !IsSpace(r[0]) && !IsSpace(r[|r| - 1])
  {
    var l := StripLeft(s);
    AllSpaceSplit(s, |s| - |l|);
    assert l != [] ==> !AllSpace(l);
    StripRight(l)
  }

  /** `sep.join(parts)` */
  function Join(parts: seq<string>, sep: string): string {
    if parts == [] then ""
    else if |parts| == 1 then parts[0]
    else parts[0] + sep + Join(parts[1..], sep)
  }

  /** `s.lstrip(chars)`: drops every leading character that is in `chars`. */
  function LStripChars(s: string, chars: set<char>): (r: string)
    ensures |r| <= |s| && r == s[|s| - |r|..]
    ensures forall i | 0 <= i < |s| - |r| :: s[i] in chars
    ensures r == [] || r[0] !in chars
  {
    if s != [] && s[0] in chars then LStripChars(s[1..], chars) else s
  }

  // ---------------------------------------------------------------------
  // re.split(r"\s{2,}", s)

  /** A run of two or more whitespace characters starts at `i`. */
  predicate WideAt(s: string, i: int) {
    0 <= i && i + 1 < |s| && IsSpace(s[i]) && IsSpace(s[i + 1])
  }

  predicate NoWideRun(s: string) {
    forall i | 0 <= i < |s| :: !WideAt(s, i)
  }

  /** The leftmost start of a wide whitespace run at or after `from`, or |s|. */
  function FirstWide(s: string, from: nat): (i: nat)
    requires from <= |s|
    ensures from <= i <= |s|
    ensures forall k | from <= k < i :: !WideAt(s, k)
    ensures i < |s| ==> WideAt(s, i)
    decreases |s| - from
  {
    if from == |s| then |s|
    else if WideAt(s, from) then from
    else FirstWide(s, from + 1)
  }

  /** End of the whitespace run that starts at `i` (the greedy `\s{2,}` match). */
  function SkipSpace(s: string, i: nat): (j: nat)
    requires i <= |s|
    ensures i <= j <= |s|
    ensures forall k | i <= k < j :: IsSpace(s[k])
    ensures j == |s| || !IsSpace(s[j])
    decreases |s| - i
  {
    if i < |s| && IsSpace(s[i]) then SkipSpace(s, i + 1) else i
  }

  /** The pieces between the wide whitespace runs of `s`, as re.split returns them. */
  function SplitWide(s: string): (r: seq<string>)
    ensures |r| >= 1
    ensures forall k | 0 <= k < |r| :: NoWideRun(r[k])
    decreases |s|
  {
    var i := FirstWide(s, 0);
    if i == |s| then
      [s]
    else
      var j := SkipSpace(s, i);
      assert j >= i + 2 by { assert WideAt(s, i); }
      var piece := s[..i];
      assert NoWideRun(piece) by {
        forall k | 0 <= k < |piece| ensures !WideAt(piece, k) {
          assert !WideAt(s, k);
        }
      }
      [piece] + SplitWide(s[j..])
  }

  function NonSpace(s: string): string {
    if s == [] then [] else (if IsSpace(s[0]) then [] else [s[0]]) + NonSpace(s[1..])
  }

  /** The non-whitespace characters of all `pieces`, in order. */
  function PiecesText(pieces: seq<string>): string {
    if pieces == [] then [] else NonSpace(pieces[0]) + PiecesText(pieces[1..])
  }

  lemma {:induction false} NonSpaceAppend(a: string, b: string)
    ensures NonSpace(a + b) == NonSpace(a) + NonSpace(b)
    decreases |a|
  {
    if a == [] {
      assert a + b == b;
    } else {
      assert (a + b)[0] == a[0];
      assert (a + b)[1..] == a[1..] + b;
      NonSpaceAppend(a[1..], b);
    }
  }

  lemma {:induction false} NonSpaceOfSpaces(a: string)
    requires AllSpace(a)
    ensures NonSpace(a) == []
    decreases |a|
  {
    if a != [] {
      NonSpaceOfSpaces(a[1..]);
    }
  }

  /** Splitting only removes whitespace: the non-whitespace characters of the
      pieces, in order, are exactly those of the input. */
  lemma {:induction false} SplitWideKeepsText(s: string)
    ensures PiecesText(SplitWide(s)) == NonSpace(s)
    decreases |s|
  {
    var i := FirstWide(s, 0);
    if i < |s| {
      var j := SkipSpace(s, i);
      var p, m, q := s[..i], s[i..j], s[j..];
      var r' := SplitWide(q);
      assert SplitWide(s) == [p] + r';
      assert PiecesText([p] + r') == NonSpace(p) + PiecesText(r') by {
        assert ([p] + r')[1..] == r';
      }
      SplitWideKeepsText(q);
      ThreeCut(s, i, j);
      NonSpaceAppend(p + m, q);
      NonSpaceAppend(p, m);
      NonSpaceOfSpaces(m);
    }
  }

  /** The whitespace runs that SplitWide cuts out, left to right. */
  function Separators(s: string): (g: seq<string>)
    ensures |g| == |SplitWide(s)| - 1
    decreases |s|
  {
    var i := FirstWide(s, 0);
    if i == |s| then
      []
    else
      var j := SkipSpace(s, i);
      assert j >= i + 2 by { assert WideAt(s, i); }
      [s[i..j]] + Separators(s[j..])
  }

  /** `pieces[0] + seps[0] + pieces[1] + ... + seps[|seps| - 1] + pieces[|seps|]` */
  function Rejoin(pieces: seq<string>, seps: seq<string>): string
    requires |seps| + 1 == |pieces|
  {
    if seps == [] then pieces[0] else pieces[0] + seps[0] + Rejoin(pieces[1..], seps[1..])
  }

  /** The first piece is everything before the first wide run. */
  lemma SplitWideHead(s: string)
    ensures SplitWide(s)[0] == s[..FirstWide(s, 0)]
  {
  }

  /** One cut: the piece before the first wide run, the run, and the rest. */
  lemma SplitWideCut(s: string, i: nat, j: nat)
    requires i == FirstWide(s, 0) < |s| && j == SkipSpace(s, i)
    ensures SplitWide(s) == [s[..i]] + SplitWide(s[j..])
    ensures Separators(s) == [s[i..j]] + Separators(s[j..])
  {
  }

  /** `g` are runs of two or more whitespace characters, each as long as it can
      be: the piece before a run does not end in whitespace and the piece after
      it does not start with whitespace. */
  predicate MaximalRuns(r: seq<string>, g: seq<string>)
    requires |g| + 1 == |r|
  {
    && (forall k | 0 <= k < |g| :: |g[k]| >= 2 && AllSpace(g[k]))
    && (forall k | 0 <= k < |g| :: r[k] == [] || !IsSpace(r[k][|r[k]| - 1]))
    && (forall k | 1 <= k < |r| :: r[k] == [] || !IsSpace(r[k][0]))
  }

  /** SplitWide cuts `s` exactly at its maximal runs of two or more whitespace
      characters: gluing the pieces back with those runs gives `s`. */
  lemma {:induction false} SplitWideRebuilds(s: string)
    ensures Rejoin(SplitWide(s), Separators(s)) == s
    ensures MaximalRuns(SplitWide(s), Separators(s))
    decreases |s|
  {
    var i := FirstWide(s, 0);
    if i < |s| {
      var j := SkipSpace(s, i);
      assert j >= i + 2 by { assert WideAt(s, i); }
      var p, m, q := s[..i], s[i..j], s[j..];
      SplitWideCut(s, i, j);
      SplitWideRebuilds(q);
      var r', g' := SplitWide(q), Separators(q);
      RejoinCons(p, m, r', g');
      ThreeCut(s, i, j);
      assert p == [] || !IsSpace(p[|p| - 1]) by {
        if i > 0 { assert !WideAt(s, i - 1); }
      }
      assert r'[0] == [] || !IsSpace(r'[0][0]) by {
        SplitWideHead(q);
      }
      ConsPieces(p, m, r', g');
    }
  }

  lemma RejoinCons(p: string, m: string, r: seq<string>, g: seq<string>)
    requires |g| + 1 == |r|
    ensures Rejoin([p] + r, [m] + g) == p + m + Rejoin(r, g)
  {
    assert ([p] + r)[1..] == r && ([m] + g)[1..] == g;
  }

  /** One more piece and run in front keep the runs maximal. */
  lemma ConsPieces(p: string, m: string, r: seq<string>, g: seq<string>)
    requires |g| + 1 == |r| && MaximalRuns(r, g)
    requires |m| >= 2 && AllSpace(m)
    requires p == [] || !IsSpace(p[|p| - 1])
    requires r[0] == [] || !IsSpace(r[0][0])
    ensures MaximalRuns([p] + r, [m] + g)
  {
    var r2, g2 := [p] + r, [m] + g;
    forall k | 1 <= k < |g2|
      ensures g2[k] == g[k - 1] && r2[k] == r[k - 1]
    {
    }
    forall k | 1 <= k < |r2|
      ensures r2[k] == r[k - 1]
    {
    }
  }

  /** Stripping only removes whitespace. */
  lemma StripKeepsText(s: string)
    ensures NonSpace(Strip(s)) == NonSpace(s)
  {
    var l := StripLeft(s);
    var r := StripRight(l);
    var a, b := s[..|s| - |l|], l[|r|..];
    TakeDrop(s, |s| - |l|);
    TakeDrop(l, |r|);
    NonSpaceAppend(a, l);
    NonSpaceOfSpaces(a);
    assert NonSpace(s) == [] + NonSpace(l);
    NonSpaceAppend(r, b);
    NonSpaceOfSpaces(b);
    assert NonSpace(l) == NonSpace(r) + [];
  }

  // ---------------------------------------------------------------------
  // html.escape(s, quote=True)

  function EscapeChar(c: char): string {
    if c == '&' then "&amp;"
    else if c == '<' then "&lt;"
    else if c == '>' then "&gt;"
    else if c == '"' then "&quot;"
    else if c == '\'' then "&#x27;"
    else [c]
  }

  /** Replaces the five characters `& < > " '` by their character references. */
  function Escape(s: string): (r: string)
    ensures forall i | 0 <= i < |r| :: r[i] !in {'<', '>', '"', '\''}
  {
    if s == [] then [] else EscapeChar(s[0]) + Escape(s[1..])
  }

  predicate StartsWith(s: string, p: string) {
    |p| <= |s| && s[..|p|] == p
  }

  /** Reads back the five character references Escape produces. */
  function Unescape(s: string): string
    decreases |s|
  {
    if s == [] then []
    else if s[0] != '&' then [s[0]] + Unescape(s[1..])
    else if StartsWith(s, "&amp;") then ['&'] + Unescape(s[5..])
    else if StartsWith(s, "&lt;") then ['<'] + Unescape(s[4..])
    else if StartsWith(s, "&gt;") then ['>'] + Unescape(s[4..])
    else if StartsWith(s, "&quot;") then ['"'] + Unescape(s[6..])
    else if StartsWith(s, "&#x27;") then ['\''] + Unescape(s[6..])
    else ['&'] + Unescape(s[1..])
  }

  lemma UnescapeStep(c: char, rest: string)
    ensures Unescape(EscapeChar(c) + rest) == [c] + Unescape(rest)
  {
    var t := EscapeChar(c) + rest;
    if c == '&' {
      assert StartsWith(t, "&amp;") && t[5..] == rest;
    } else if c == '<' {
      assert t[1] == 'l' && StartsWith(t, "&lt;") && t[4..] == rest;
    } else if c == '>' {
      assert t[1] == 'g' && StartsWith(t, "&gt;") && t[4..] == rest;
    } else if c == '"' {
      assert t[1] == 'q' && StartsWith(t, "&quot;") && t[6..] == rest;
    } else if c == '\'' {
      assert t[1] == '#' && StartsWith(t, "&#x27;") && t[6..] == rest;
    } else {
      assert t[0] == c && t[1..] == rest;
    }
  }

  /** Escaping loses nothing: the escaped text decodes back to the original. */
  lemma {:induction false} EscapeRoundTrip(s: string)
    ensures Unescape(Escape(s)) == s
    decreases |s|
  {
    if s != [] {
      UnescapeStep(s[0], Escape(s[1..]));
      EscapeRoundTrip(s[1..]);
    }
  }
}
