/** Heading classification (classify_line_level): the first heading-size tier within
    the tolerance of a line's median size, then a level from the tier and the text. */
module Classify {
  import opened Wrappers
  import opened Text

  predicate IsDigit(c: char) {
    '0' <= c <= '9'
  }

  /** Length of the leading run of digits of `s`. */
  function DigitRun(s: string): (n: nat)
    ensures n <= |s|
    ensures forall i | 0 <= i < n :: IsDigit(s[i])
    ensures n == |s| || !IsDigit(s[n])
  {
    if s != [] && IsDigit(s[0]) then 1 + DigitRun(s[1..]) else 0
  }

  /** A member of the class [A-Z0-9 ,()/\-]. */
  predicate IsCapsChar(c: char) {
    ('A' <= c <= 'Z') || IsDigit(c) || c == ' ' || c == ',' || c == '(' || c == ')' || c == '/' || c == '-'
  }

  predicate AllCaps(s: string) {
    forall i | 0 <= i < |s| :: IsCapsChar(s[i])
  }

  /** `[A-Z0-9 ,()/\-]+$` against the whole of `s`; `$` also accepts one final newline. */
  predicate CapsToEnd(s: string) {
    (s != [] && AllCaps(s)) || (|s| >= 2 && s[|s| - 1] == '\n' && AllCaps(s[..|s| - 1]))
  }

  /** `\s*[A-Z0-9 ,()/\-]+$`, trying every split point as the regex engine backtracks. */
  predicate SpacesThenCaps(s: string)
    decreases |s|
  {
    CapsToEnd(s) || (s != [] && IsSpace(s[0]) && SpacesThenCaps(s[1..]))
  }

  /** re.match(r"^\d+\.\s+[A-Z0-9 ,()/\-]+$", s): "1. INTRODUCTION". The digit run is
      forced to be maximal, because a '.' must follow it. */
  predicate UpperSection(s: string) {
    var n := DigitRun(s);
    n >= 1 && n + 1 < |s| && s[n] == '.' && IsSpace(s[n + 1]) && SpacesThenCaps(s[n + 2..])
  }

  /** re.match(r"^\d+\.\d+", s): "3.1 Paracetamol". */
  predicate Subsection(s: string) {
    var n := DigitRun(s);
    n >= 1 && n + 1 < |s| && s[n] == '.' && IsDigit(s[n + 1])
  }

  /** The two patterns never both match, so the order of the tests does not matter. */
  lemma PatternsExclusive(s: string)
    ensures !(UpperSection(s) && Subsection(s))
  {
  }

  function Abs(x: real): real {
    if x < 0.0 then -x else x
  }

  /** abs(median_size - h_size) <= size_tol, with the heading size given in tenths. */
  predicate Within(median: real, h: int, tol: real) {
    Abs(median - h as real / 10.0) <= tol
  }

  /** The 1-based index of the first heading size within `tol` of `median`. */
  function FirstTier(median: real, sizes: seq<int>, tol: real): (t: Option<nat>)
    ensures t.None? <==> forall i | 0 <= i < |sizes| :: !Within(median, sizes[i], tol)
    ensures t.Some? ==> 1 <= t.value <= |sizes| && Within(median, sizes[t.value - 1], tol)
    ensures t.Some? ==> forall i | 0 <= i < t.value - 1 :: !Within(median, sizes[i], tol)
  {
    if sizes == [] then None
    else if Within(median, sizes[0], tol) then Some(1)
    else match FirstTier(median, sizes[1..], tol)
      case None => None
      case Some(k) => Some(k + 1)
  }

  /** The `enumerate` loop of classify_line_level: it stops at the first heading size
      within `tol` of the median and yields its 1-based index. */
  method FindTier(median: real, sizes: seq<int>, tol: real) returns (t: Option<nat>)
    ensures t == FirstTier(median, sizes, tol)
  {
    var i := 0;
    while i < |sizes|
      invariant 0 <= i <= |sizes|
      invariant forall k | 0 <= k < i :: !Within(median, sizes[k], tol)
    {
      if Within(median, sizes[i], tol) {
        return Some(i + 1);
      }
      i := i + 1;
    }
    return None;
  }

  /** The level of a line, or None when it is not a heading. `bodySize` is accepted
      and unused, as in the source. */
  function ClassifyLineLevel(text: string, median: real, bodySize: int, sizes: seq<int>, tol: real): (level: Option<nat>)
    ensures level.None? <==> forall i | 0 <= i < |sizes| :: !Within(median, sizes[i], tol)
    ensures level.Some? ==> 1 <= level.value
    ensures level == Some(1) <==> FirstTier(median, sizes, tol) == Some(1)
  {
    match FirstTier(median, sizes, tol)
    case None => None
    case Some(tier) =>
      var stripped := Strip(text);
      if tier == 1 then Some(1)
      else if UpperSection(stripped) then Some(2)
      else if Subsection(stripped) then Some(3)
      else Some(2 + (tier - 2))
  }

  /** What each tier yields: the first tier is always level 1; any other tier is level 2
      for "N. CAPS" text, else 3 for "N.M" text, else its own tier number (2 + (tier - 2)). */
  lemma {:induction false} LevelByTier(text: string, median: real, bodySize: int, sizes: seq<int>, tol: real, tier: nat)
    requires 1 <= tier <= |sizes| && Within(median, sizes[tier - 1], tol)
    requires forall i | 0 <= i < tier - 1 :: !Within(median, sizes[i], tol)
    ensures var level := ClassifyLineLevel(text, median, bodySize, sizes, tol);
      && (tier == 1 ==> level == Some(1))
      && (tier > 1 && UpperSection(Strip(text)) ==> level == Some(2))
      && (tier > 1 && !UpperSection(Strip(text)) && Subsection(Strip(text)) ==> level == Some(3))
      && (tier > 1 && !UpperSection(Strip(text)) && !Subsection(Strip(text)) ==> level == Some(tier))
  {
    var t := FirstTier(median, sizes, tol);
    assert t.Some? && 0 <= tier - 1 < |sizes|;
    assert t.value == tier;
  }
}
