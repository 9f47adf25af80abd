/** Body text of a section (assemble_line, extract_lines_from_page): the words of a
    visual line joined into one string and typed as blank, bullet, table row or
    paragraph. */
module Content {
  import opened Wrappers
  import opened Text
  import opened Words

  datatype LineType = Blank | Bullet | Table | Paragraph

  /** The `{"text": ..., "type": ...}` dict of a body line. */
  datatype Line = Line(text: string, kind: LineType)

  /** The characters that open a bullet item: • - – — ▪ ‣ · */
  const BulletChars: set<char> := {'•', '-', '–', '—', '▪', '‣', '·'}

  /** A horizontal gap wider than this (in PDF units) counts as a column break. */
  const GapThreshold: real := 14.0

  /** What a column break is rendered as inside the line text. */
  const ColumnGap: string := "    "

  predicate LargeGap(prev: Word, curr: Word) {
    curr.x0 - prev.x1 > GapThreshold
  }

  /** The separator put between two neighbouring words. */
  function Separator(prev: Word, curr: Word): string {
    if LargeGap(prev, curr) then ColumnGap else " "
  }

  /** "".join(parts) */
  function Concat(parts: seq<string>): string {
    if parts == [] then [] else Concat(parts[..|parts| - 1]) + parts[|parts| - 1]
  }

  /** The raw line text: the words in order, each pair separated by one space or by a
      column gap. */
  function Raw(ws: seq<Word>): string
    requires ws != []
  {
    if |ws| == 1 then ws[0].text
    else Raw(ws[..|ws| - 1]) + Separator(ws[|ws| - 2], ws[|ws| - 1]) + ws[|ws| - 1].text
  }

  /** The number of neighbouring pairs separated by a large gap. */
  function LargeGaps(ws: seq<Word>): nat {
    if |ws| <= 1 then 0
    else LargeGaps(ws[..|ws| - 1]) + (if LargeGap(ws[|ws| - 2], ws[|ws| - 1]) then 1 else 0)
  }

  /** What assemble_line returns for words already in x0 order. */
  function AssembledLine(ws: seq<Word>): Line {
    if ws == [] then Line("", Blank)
    else
      var raw := Raw(ws);
      var stripped := Strip(raw);
      if stripped == [] then Line("", Blank)
      else if stripped[0] in BulletChars then Line(stripped, Bullet)
      else if LargeGaps(ws) >= 2 then Line(raw, Table)
      else Line(stripped, Paragraph)
  }

  /** The words' own texts, run together. */
  function WordsText(ws: seq<Word>): string {
    if ws == [] then [] else WordsText(ws[..|ws| - 1]) + ws[|ws| - 1].text
  }

  // ---------------------------------------------------------------------
  // Properties of one assembled line

  /** There are fewer large gaps than words. */
  lemma {:induction false} LargeGapsBound(ws: seq<Word>)
    requires ws != []
    ensures LargeGaps(ws) <= |ws| - 1
  {
    if |ws| > 1 {
      LargeGapsBound(ws[..|ws| - 1]);
    }
  }

  lemma SeparatorInvisible(prev: Word, curr: Word)
    ensures NonSpace(Separator(prev, curr)) == []
  {
    var sep := Separator(prev, curr);
    assert forall i | 0 <= i < |sep| :: sep[i] == ' ';
    NonSpaceOfSpaces(sep);
  }

  /** The raw text holds exactly the words' visible characters, in order: the
      separators are whitespace. */
  lemma {:induction false} RawKeepsText(ws: seq<Word>)
    requires ws != []
    ensures NonSpace(Raw(ws)) == NonSpace(WordsText(ws))
  {
    if |ws| == 1 {
      assert ws[..0] == [];
      assert WordsText(ws) == [] + ws[0].text;
      assert [] + ws[0].text == ws[0].text;
    } else {
      var init := ws[..|ws| - 1];
      var last := ws[|ws| - 1];
      var sep := Separator(ws[|ws| - 2], last);
      RawKeepsText(init);
      assert Raw(ws) == (Raw(init) + sep) + last.text;
      NonSpaceAppend(Raw(init) + sep, last.text);
      NonSpaceAppend(Raw(init), sep);
      SeparatorInvisible(ws[|ws| - 2], last);
      NonSpaceAppend(WordsText(init), last.text);
    }
  }

  /** How assemble_line types a line: blank exactly when the joined text is all
      whitespace (and then the text is empty); a bullet exactly when the stripped text
      opens with a bullet character, whatever the gaps; a table row exactly when it is
      neither and at least two gaps are wide, which takes at least three words, and then
      the text is the unstripped raw string; every other text is stripped. */
  lemma AssembledLineKinds(ws: seq<Word>)
    ensures var r := AssembledLine(ws);
      && (r.kind == Blank <==> r.text == [])
      && (r.kind == Blank <==> ws == [] || AllSpace(Raw(ws)))
      && (r.kind == Bullet <==> ws != [] && !AllSpace(Raw(ws)) && Strip(Raw(ws))[0] in BulletChars)
      && (r.kind == Table <==> ws != [] && !AllSpace(Raw(ws)) && Strip(Raw(ws))[0] !in BulletChars && LargeGaps(ws) >= 2)
      && (r.kind == Table ==> r.text == Raw(ws) && |ws| >= 3)
      && (r.kind == Bullet || r.kind == Paragraph ==> r.text == Strip(Raw(ws)))
  {
    var r := AssembledLine(ws);
    if ws != [] {
      LargeGapsBound(ws);
      if r.kind == Table {
        assert Strip(Raw(ws)) != [];
        assert Raw(ws) != [];
      }
    }
  }

  /** The text of a line keeps every visible character of its words, in order, and adds
      none. */
  lemma AssembledLineKeepsText(ws: seq<Word>)
    ensures NonSpace(AssembledLine(ws).text) == NonSpace(WordsText(ws))
  {
    if ws != [] {
      RawKeepsText(ws);
      StripKeepsText(Raw(ws));
      if AllSpace(Raw(ws)) {
        NonSpaceOfSpaces(Raw(ws));
      }
    }
  }

  /** assemble_line: one pass over neighbouring pairs, collecting the segments and
      counting the large gaps. */
  method AssembleLine(words: seq<Word>) returns (text: string, kind: LineType)
    ensures Line(text, kind) == AssembledLine(words)
  {
    if words == [] {
      return "", Blank;
    }
    var segments := [words[0].text];
    var largeGaps := 0;
    for i := 1 to |words|
      invariant Concat(segments) == Raw(words[..i])
      invariant largeGaps == LargeGaps(words[..i])
    {
      assert words[..i + 1][..i] == words[..i];
      var gap := words[i].x0 - words[i - 1].x1;
      if gap > GapThreshold {
        segments := segments + [ColumnGap];
        largeGaps := largeGaps + 1;
      } else {
        segments := segments + [" "];
      }
      segments := segments + [words[i].text];
    }
    assert words[..|words|] == words;
    var raw := Concat(segments);
    var stripped := Strip(raw);
    if stripped == [] {
      return "", Blank;
    }
    if stripped[0] in BulletChars {
      return stripped, Bullet;
    }
    if largeGaps >= 2 {
      return raw, Table;
    }
    return stripped, Paragraph;
  }

  // ---------------------------------------------------------------------
  // extract_lines_from_page

  /** A visual line, its words put in x0 order and assembled. */
  function LineOfWords(l: WordLine): Line {
    AssembledLine(SortByX0(l.words))
  }

  /** The assembled lines with text, in the order of the visual lines. */
  function NonBlankLines(lines: seq<WordLine>): (r: seq<Line>)
    ensures |r| <= |lines|
  {
    if lines == [] then []
    else
      var l := LineOfWords(lines[|lines| - 1]);
      NonBlankLines(lines[..|lines| - 1]) + (if l.text != [] then [l] else [])
  }

  /** extract_lines_from_page: the lines of one page between the optional bounds, top
      to bottom, without the blank ones. */
  function PageTextLines(ws: seq<Word>, minTop: Option<real>, maxTop: Option<real>): seq<Line> {
    if ws == [] then [] else NonBlankLines(Lines(ws, minTop, maxTop))
  }

  /** No line of a page is blank. */
  lemma {:induction false} NonBlankLinesHaveText(lines: seq<WordLine>)
    ensures forall i | 0 <= i < |NonBlankLines(lines)| ::
      NonBlankLines(lines)[i].text != [] && NonBlankLines(lines)[i].kind != Blank
  {
    if lines != [] {
      var init := lines[..|lines| - 1];
      NonBlankLinesHaveText(init);
      AssembledLineKinds(SortByX0(lines[|lines| - 1].words));
    }
  }

  lemma PageTextLinesHaveText(ws: seq<Word>, minTop: Option<real>, maxTop: Option<real>)
    ensures forall i | 0 <= i < |PageTextLines(ws, minTop, maxTop)| ::
      PageTextLines(ws, minTop, maxTop)[i].text != [] && PageTextLines(ws, minTop, maxTop)[i].kind != Blank
  {
    if ws != [] {
      NonBlankLinesHaveText(Lines(ws, minTop, maxTop));
    }
  }

  /** Only the words inside the bounds contribute: filtering the page by the bounds
      first gives the same lines (and the early return for a page without words agrees
      with the general path). */
  lemma OnlyAdmittedWordsContribute(ws: seq<Word>, minTop: Option<real>, maxTop: Option<real>)
    ensures PageTextLines(ws, minTop, maxTop) == PageTextLines(AdmittedWords(ws, minTop, maxTop), None, None)
  {
    var adm := AdmittedWords(ws, minTop, maxTop);
    var all := AdmittedWords(adm, None, None);
    assert all == adm by {
      AdmitAllIsIdentity(adm);
    }
    assert Lines(adm, None, None) == Lines(ws, minTop, maxTop);
    if ws != [] && adm == [] {
      assert TopKeys(adm) == [];
      assert Lines(ws, minTop, maxTop) == [];
    }
  }

  lemma {:induction false} AdmitAllIsIdentity(ws: seq<Word>)
    ensures AdmittedWords(ws, None, None) == ws
  {
    if ws != [] {
      AdmitAllIsIdentity(ws[..|ws| - 1]);
      assert ws == ws[..|ws| - 1] + [ws[|ws| - 1]];
    }
  }

  method ExtractLinesFromPage(words: seq<Word>, minTop: Option<real>, maxTop: Option<real>) returns (lines: seq<Line>)
    ensures lines == PageTextLines(words, minTop, maxTop)
  {
    if words == [] {
      return [];
    }
    var grouped := GroupLines(words, minTop, maxTop);
    lines := TextLines(grouped);
  }

  /** The loop over the sorted keys of extract_lines_from_page. */
  method TextLines(grouped: seq<WordLine>) returns (lines: seq<Line>)
    ensures lines == NonBlankLines(grouped)
  {
    lines := [];
    for j := 0 to |grouped|
      invariant lines == NonBlankLines(grouped[..j])
    {
      assert grouped[..j + 1][..j] == grouped[..j];
      var lineWords := SortByX0(grouped[j].words);
      var text, lineType := AssembleLine(lineWords);
      if text != [] {
        lines := lines + [Line(text, lineType)];
      }
    }
    assert grouped[..|grouped|] == grouped;
  }
}
