/** Section body markup (format_lines_as_html): a state machine over the typed lines
    that buffers runs of bullet lines and of table rows, flushes a buffer whenever the
    run ends, and falls back to a placeholder when nothing is emitted. */
module Html {
  import opened Seqs
  import opened Text
  import opened Content

  const Placeholder: string := "<p class=\"text-muted\">" + "No text detected for this section." + "</p>"

  /** The characters stripped from the front of a bullet line. */
  const BulletStripChars: set<char> := BulletChars + {' '}

  /** "<tag>" + inner + "</tag>" */
  function Enclose(tag: string, inner: string): string {
    "<" + tag + ">" + inner + "</" + tag + ">"
  }

  /** The concatenation of every element enclosed in `tag`. */
  function EncloseEach(tag: string, xs: seq<string>): string {
    if xs == [] then [] else EncloseEach(tag, xs[..|xs| - 1]) + Enclose(tag, xs[|xs| - 1])
  }

  function EscapeEach(xs: seq<string>): (r: seq<string>)
    ensures |r| == |xs|
    ensures forall i | 0 <= i < |xs| :: r[i] == Escape(xs[i])
  {
    if xs == [] then [] else EscapeEach(xs[..|xs| - 1]) + [Escape(xs[|xs| - 1])]
  }

  /** The list item of a bullet line: the text without its leading bullet characters and
      spaces, stripped; the stripped line itself when nothing else is left. */
  function Item(text: string): string {
    var s := Strip(LStripChars(text, BulletStripChars));
    if s != [] then s else Strip(text)
  }

  /** The cell text of a split piece: stripped and escaped. */
  function Cell(piece: string): string {
    Escape(Strip(piece))
  }

  /** The cell a split piece gives: none when it is blank once stripped. */
  function PieceCells(piece: string): seq<string> {
    if Strip(piece) != [] then [Cell(piece)] else []
  }

  /** The escaped, stripped non-empty pieces of `pieces`. */
  function CellsOf(pieces: seq<string>): (r: seq<string>)
    ensures |r| <= |pieces|
  {
    if pieces == [] then []
    else
      var c := Strip(pieces[|pieces| - 1]);
      CellsOf(pieces[..|pieces| - 1]) + (if c != [] then [Escape(c)] else [])
  }

  /** The cells of a table row: the row is stripped and split at every run of two or more
      whitespace characters. */
  function Cells(row: string): seq<string> {
    CellsOf(SplitWide(Strip(row)))
  }

  /** `c` is the cell a split piece gives: its stripped text, escaped, when that is not empty. */
  predicate IsCell(c: string, piece: string) {
    c in PieceCells(piece)
  }

  /** A cell is the escaped text of a split piece that is not blank once stripped, and every
      such piece gives a cell. */
  lemma {:induction false} CellsOfPieces(pieces: seq<string>)
    ensures forall c :: c in CellsOf(pieces) <==> exists p | p in pieces :: IsCell(c, p)
    decreases |pieces|
  {
    if pieces != [] {
      var init, last := pieces[..|pieces| - 1], pieces[|pieces| - 1];
      SplitLast(pieces);
      CellsOfPieces(init);
      CellsOfPiecesSnoc(init, last);
    }
  }

  lemma CellsOfPiecesSnoc(init: seq<string>, last: string)
    requires forall c :: c in CellsOf(init) <==> exists p | p in init :: IsCell(c, p)
    ensures forall c :: c in CellsOf(init + [last]) <==> exists p | p in init + [last] :: IsCell(c, p)
  {
    CellsOfSnoc(init, last);
    RelatedSnoc(IsCell, init, last, CellsOf(init), PieceCells(last));
  }

  lemma CellsOfSnoc(init: seq<string>, last: string)
    ensures CellsOf(init + [last]) == CellsOf(init) + PieceCells(last)
  {
    Snoc(init, last);
  }

  /** The `<tr>` element of a table row. */
  function Row(row: string): string {
    Enclose("tr", EncloseEach("td", Cells(row)))
  }

  /** The `<tr>` elements of the rows that have at least one cell. */
  function TableRows(rows: seq<string>): (r: seq<string>)
    ensures |r| <= |rows|
  {
    if rows == [] then []
    else
      var row := rows[|rows| - 1];
      TableRows(rows[..|rows| - 1]) + (if Cells(row) != [] then [Row(row)] else [])
  }

  /** `t` is the `<tr>` a buffered row gives, when the row has a cell. */
  predicate IsRowOf(t: string, row: string) {
    Cells(row) != [] && t == Row(row)
  }

  /** A row is emitted exactly for each buffered row that has a cell. */
  lemma {:induction false} TableRowsOfCells(rows: seq<string>)
    ensures forall t :: t in TableRows(rows) <==> exists row | row in rows :: IsRowOf(t, row)
    decreases |rows|
  {
    if rows != [] {
      var init, last := rows[..|rows| - 1], rows[|rows| - 1];
      SplitLast(rows);
      TableRowsOfCells(init);
      TableRowsSnoc(init, last);
      RelatedSnoc(IsRowOf, init, last, TableRows(init), if Cells(last) != [] then [Row(last)] else []);
    }
  }

  lemma TableRowsSnoc(init: seq<string>, last: string)
    ensures TableRows(init + [last]) == TableRows(init) + (if Cells(last) != [] then [Row(last)] else [])
  {
    Snoc(init, last);
  }

  function ListHtml(items: seq<string>): string {
    Enclose("ul", EncloseEach("li", EscapeEach(items)))
  }

  /** The markup of a table buffer; nothing when no row has a cell. */
  function TableHtml(rows: seq<string>): string {
    var r := TableRows(rows);
    if r == [] then [] else Enclose("table", Concat(r))
  }

  function ParagraphHtml(text: string): string {
    Enclose("p", Escape(Strip(text)))
  }

  // ---------------------------------------------------------------------
  // The state machine

  /** html_parts, list_buffer and table_buffer. */
  datatype Buffers = Buffers(parts: seq<string>, list: seq<string>, table: seq<string>)

  /** flush_list */
  function ListFlushed(b: Buffers): Buffers {
    if b.list == [] then b else Buffers(b.parts + [ListHtml(b.list)], [], b.table)
  }

  /** flush_table */
  function TableFlushed(b: Buffers): Buffers {
    if b.table == [] then b
    else Buffers(b.parts + TableParts(b.table), b.list, [])
  }

  /** What flushing a table buffer emits: one `<table>`, or nothing when no row has a
      cell. */
  function TableParts(rows: seq<string>): seq<string> {
    if TableRows(rows) == [] then [] else [TableHtml(rows)]
  }

  /** One turn of the loop over the lines. */
  function Step(b: Buffers, l: Line): Buffers {
    match l.kind
    case Bullet => WithItem(TableFlushed(b), Item(l.text))
    case Table => WithRow(ListFlushed(b), l.text)
    case _ => WithParagraph(TableFlushed(ListFlushed(b)), l.text)
  }

  function WithItem(b: Buffers, item: string): Buffers {
    Buffers(b.parts, b.list + [item], b.table)
  }

  function WithRow(b: Buffers, row: string): Buffers {
    Buffers(b.parts, b.list, b.table + [row])
  }

  /** A paragraph is emitted only for a line with visible text. */
  function WithParagraph(b: Buffers, text: string): Buffers {
    if Strip(text) == [] then b else Buffers(b.parts + [ParagraphHtml(text)], b.list, b.table)
  }

  /** The buffers after the loop over `lines`. */
  function Run(lines: seq<Line>): Buffers {
    if lines == [] then Buffers([], [], []) else Step(Run(lines[..|lines| - 1]), lines[|lines| - 1])
  }

  /** format_lines_as_html */
  function FormatHtml(lines: seq<Line>): string {
    var b := TableFlushed(ListFlushed(Run(lines)));
    if b.parts == [] then Placeholder else Concat(b.parts)
  }

  // ---------------------------------------------------------------------
  // The same markup as a sequence of blocks

  /** A paragraph, a line that only separates runs, a run of bullet items, or a run of
      table rows. */
  datatype Block = Para(text: string) | Break | ListBlock(items: seq<string>) | TableBlock(rows: seq<string>)

  /** The blocks of `lines` in input order: consecutive bullet lines form one list,
      consecutive table lines one table, and every other line its own block. */
  function Blocks(lines: seq<Line>): seq<Block> {
    if lines == [] then [] else BlocksStep(Blocks(lines[..|lines| - 1]), lines[|lines| - 1])
  }

  function Render(b: Block): string {
    match b
    case Para(t) => Enclose("p", Escape(t))
    case Break => []
    case ListBlock(items) => ListHtml(items)
    case TableBlock(rows) => TableHtml(rows)
  }

  function RenderAll(bs: seq<Block>): string {
    if bs == [] then [] else RenderAll(bs[..|bs| - 1]) + Render(bs[|bs| - 1])
  }

  // ---------------------------------------------------------------------
  // The buffers follow the blocks

  lemma ConcatSnoc(parts: seq<string>, x: string)
    ensures Concat(parts + [x]) == Concat(parts) + x
  {
    assert (parts + [x])[..|parts|] == parts;
  }

  lemma RenderAllSnoc(bs: seq<Block>, x: Block)
    ensures RenderAll(bs + [x]) == RenderAll(bs) + Render(x)
  {
    assert (bs + [x])[..|bs|] == bs;
  }

  predicate NonEmptyParts(parts: seq<string>) {
    forall i | 0 <= i < |parts| :: parts[i] != []
  }

  /** The buffers after a prefix of the lines, against the blocks of that prefix: at most
      one buffer is in use, and it holds the last block, which is still open; the parts
      emitted so far are the rendering of every block before it (of all the blocks when
      neither buffer is in use, and then the last block is not a list or a table). */
  ghost predicate Tracks(b: Buffers, bs: seq<Block>) {
    && !(b.list != [] && b.table != [])
    && NonEmptyParts(b.parts)
    && (if b.list != [] then
          bs != [] && bs[|bs| - 1] == ListBlock(b.list) && Concat(b.parts) == RenderAll(bs[..|bs| - 1])
        else if b.table != [] then
          bs != [] && bs[|bs| - 1] == TableBlock(b.table) && Concat(b.parts) == RenderAll(bs[..|bs| - 1])
        else
          Concat(b.parts) == RenderAll(bs) && (bs == [] || (!bs[|bs| - 1].ListBlock? && !bs[|bs| - 1].TableBlock?)))
  }

  /** Both buffers flushed: the parts are the rendering of every block. */
  ghost predicate Settled(b: Buffers, bs: seq<Block>) {
    b.list == [] && b.table == [] && NonEmptyParts(b.parts) && Concat(b.parts) == RenderAll(bs)
  }

  lemma PartsSnoc(parts: seq<string>, x: string)
    requires NonEmptyParts(parts) && x != []
    ensures NonEmptyParts(parts + [x])
    ensures Concat(parts + [x]) == Concat(parts) + x
  {
    ConcatSnoc(parts, x);
    var t := parts + [x];
    forall i | 0 <= i < |t| ensures t[i] != [] {
      if i < |parts| {
        assert t[i] == parts[i];
      }
    }
  }

  lemma ListFlushSettles(b: Buffers, bs: seq<Block>)
    requires Tracks(b, bs) && b.list != []
    ensures Settled(ListFlushed(b), bs)
  {
    var init := bs[..|bs| - 1];
    var x := ListHtml(b.list);
    SplitLast(bs);
    RenderAllSnoc(init, ListBlock(b.list));
    assert Render(ListBlock(b.list)) == x;
    assert |x| >= 3;
    PartsSnoc(b.parts, x);
  }

  lemma TableFlushSettles(b: Buffers, bs: seq<Block>)
    requires Tracks(b, bs) && b.table != []
    ensures Settled(TableFlushed(b), bs)
  {
    var init := bs[..|bs| - 1];
    var x := TableHtml(b.table);
    SplitLast(bs);
    RenderAllSnoc(init, TableBlock(b.table));
    assert Render(TableBlock(b.table)) == x;
    if TableRows(b.table) != [] {
      assert |x| >= 3;
      PartsSnoc(b.parts, x);
      assert TableFlushed(b) == Buffers(b.parts + [x], [], []);
    } else {
      assert x == [];
      assert b.parts + [] == b.parts;
      assert TableFlushed(b) == Buffers(b.parts, [], []);
    }
  }

  lemma SettleByFlushing(b: Buffers, bs: seq<Block>)
    requires Tracks(b, bs)
    ensures Settled(TableFlushed(ListFlushed(b)), bs)
  {
    if b.list != [] {
      ListFlushSettles(b, bs);
    } else if b.table != [] {
      TableFlushSettles(b, bs);
    }
  }

  lemma StepTracks(b: Buffers, bs: seq<Block>, l: Line)
    requires Tracks(b, bs)
    ensures Tracks(Step(b, l), BlocksStep(bs, l))
  {
    match l.kind
    case Bullet => BulletTracks(b, bs, l);
    case Table => TableRowTracks(b, bs, l);
    case Blank => QuietTracks(b, bs, l);
    case Paragraph => QuietTracks(b, bs, l);
  }

  /** A bullet line closes a table run and opens or extends the list run. */
  lemma BulletTracks(b: Buffers, bs: seq<Block>, l: Line)
    requires Tracks(b, bs) && l.kind == Bullet
    ensures Tracks(Step(b, l), BlocksStep(bs, l))
  {
    var item := Item(l.text);
    if b.list != [] {
      assert TableFlushed(b) == b;
      Snoc(bs[..|bs| - 1], ListBlock(b.list + [item]));
    } else {
      SettleByFlushing(b, bs);
      var f := TableFlushed(b);
      assert f == TableFlushed(ListFlushed(b));
      AppendToEmpty(f.list, [item]);
      Snoc(bs, ListBlock([item]));
    }
  }

  /** A table line closes a list run and opens or extends the table run. */
  lemma TableRowTracks(b: Buffers, bs: seq<Block>, l: Line)
    requires Tracks(b, bs) && l.kind == Table
    ensures Tracks(Step(b, l), BlocksStep(bs, l))
  {
    if b.table != [] {
      assert ListFlushed(b) == b;
      Snoc(bs[..|bs| - 1], TableBlock(b.table + [l.text]));
    } else {
      SettleByFlushing(b, bs);
      var f := ListFlushed(b);
      assert f == TableFlushed(ListFlushed(b));
      AppendToEmpty(f.table, [l.text]);
      Snoc(bs, TableBlock([l.text]));
    }
  }

  /** Any other line closes both runs, then adds a paragraph unless it is blank. */
  lemma QuietTracks(b: Buffers, bs: seq<Block>, l: Line)
    requires Tracks(b, bs) && l.kind != Bullet && l.kind != Table
    ensures Tracks(Step(b, l), BlocksStep(bs, l))
  {
    SettleByFlushing(b, bs);
    var f := TableFlushed(ListFlushed(b));
    if Strip(l.text) == [] {
      Snoc(bs, Break);
      RenderAllSnoc(bs, Break);
    } else {
      var x := ParagraphHtml(l.text);
      Snoc(bs, Para(Strip(l.text)));
      RenderAllSnoc(bs, Para(Strip(l.text)));
      assert Render(Para(Strip(l.text))) == x;
      assert |x| >= 3;
      PartsSnoc(f.parts, x);
    }
  }

  /** The block step for one line, as Blocks takes it. */
  function BlocksStep(bs: seq<Block>, l: Line): seq<Block> {
    match l.kind
    case Bullet => AddItem(bs, Item(l.text))
    case Table => AddRow(bs, l.text)
    case _ => if Strip(l.text) == [] then bs + [Break] else bs + [Para(Strip(l.text))]
  }

  /** Appends an item to the list that ends `bs`, or opens a new list. */
  function AddItem(bs: seq<Block>, x: string): seq<Block> {
    if bs != [] && bs[|bs| - 1].ListBlock? then bs[..|bs| - 1] + [ListBlock(bs[|bs| - 1].items + [x])]
    else bs + [ListBlock([x])]
  }

  /** Appends a row to the table that ends `bs`, or opens a new table. */
  function AddRow(bs: seq<Block>, x: string): seq<Block> {
    if bs != [] && bs[|bs| - 1].TableBlock? then bs[..|bs| - 1] + [TableBlock(bs[|bs| - 1].rows + [x])]
    else bs + [TableBlock([x])]
  }

  lemma {:induction false} RunTracks(lines: seq<Line>)
    ensures Tracks(Run(lines), Blocks(lines))
  {
    if lines != [] {
      var init := lines[..|lines| - 1];
      RunTracks(init);
      StepTracks(Run(init), Blocks(init), lines[|lines| - 1]);
    }
  }

  /** The list buffer and the table buffer are never both in use. */
  lemma BuffersExclusive(lines: seq<Line>)
    ensures !(Run(lines).list != [] && Run(lines).table != [])
  {
    RunTracks(lines);
  }

  lemma {:induction false} ConcatEmpty(parts: seq<string>)
    requires NonEmptyParts(parts)
    ensures Concat(parts) == [] <==> parts == []
  {
    if parts != [] {
      assert parts[|parts| - 1] != [];
    }
  }

  /** format_lines_as_html renders the blocks of the lines, in order, and returns the
      placeholder exactly when that rendering is empty; so the result is never empty. */
  lemma FormatHtmlRendersBlocks(lines: seq<Line>)
    ensures var out := RenderAll(Blocks(lines));
      FormatHtml(lines) == if out == [] then Placeholder else out
    ensures FormatHtml(lines) != []
  {
    RunTracks(lines);
    SettleByFlushing(Run(lines), Blocks(lines));
    ConcatEmpty(TableFlushed(ListFlushed(Run(lines))).parts);
  }

  // ---------------------------------------------------------------------
  // The placeholder is returned exactly when nothing is emitted

  lemma EncloseShape(tag: string, inner: string)
    requires tag != []
    ensures |Enclose(tag, inner)| >= 3
    ensures Enclose(tag, inner)[2] == if |tag| == 1 then '>' else tag[1]
  {
    assert Enclose(tag, inner) == ("<" + tag + ">") + (inner + "</" + tag + ">");
    assert ("<" + tag + ">")[2] == if |tag| == 1 then '>' else tag[1];
  }

  /** Every non-empty rendering opens with `<p>`, `<ul` or `<table`, so its third
      character is not a space. */
  lemma RenderShape(b: Block)
    ensures Render(b) == [] || (|Render(b)| >= 3 && Render(b)[2] != ' ')
  {
    match b
    case Para(t) =>
      var r := Enclose("p", Escape(t));
      EncloseShape("p", Escape(t));
      assert r[2] == '>';
      assert Render(b) == r;
    case Break =>
    case ListBlock(items) =>
      var r := Enclose("ul", EncloseEach("li", EscapeEach(items)));
      EncloseShape("ul", EncloseEach("li", EscapeEach(items)));
      assert r[2] == 'l';
      assert Render(b) == r;
    case TableBlock(rows) =>
      if TableRows(rows) != [] {
        var r := Enclose("table", Concat(TableRows(rows)));
        EncloseShape("table", Concat(TableRows(rows)));
        assert r[2] == 'a';
        assert Render(b) == r;
      }
  }

  lemma {:induction false} RenderAllShape(bs: seq<Block>)
    ensures RenderAll(bs) == [] || (|RenderAll(bs)| >= 3 && RenderAll(bs)[2] != ' ')
  {
    if bs != [] {
      var init := bs[..|bs| - 1];
      var last := Render(bs[|bs| - 1]);
      RenderAllShape(init);
      RenderShape(bs[|bs| - 1]);
      if RenderAll(init) == [] {
        AppendToEmpty(RenderAll(init), last);
      }
    }
  }

  /** The placeholder comes back exactly when the lines render to nothing: no bullet
      line, no table row with a cell and no paragraph with visible text. */
  lemma PlaceholderIffNothingEmitted(lines: seq<Line>)
    ensures FormatHtml(lines) == Placeholder <==> RenderAll(Blocks(lines)) == []
  {
    FormatHtmlRendersBlocks(lines);
    var out := RenderAll(Blocks(lines));
    RenderAllShape(Blocks(lines));
    if out != [] {
      NotPlaceholder(out);
    }
  }

  lemma NotPlaceholder(s: string)
    requires |s| >= 3 && s[2] != ' '
    ensures s != Placeholder
  {
    assert Placeholder[2] == ' ';
  }

  // ---------------------------------------------------------------------
  // The blocks keep the lines' content in input order

  /** What one line contributes to the body: a list item, a table row or a paragraph. */
  datatype Piece = ItemPiece(item: string) | RowPiece(row: string) | ParaPiece(para: string)

  /** The piece one line contributes; a line without visible text contributes none. */
  function LinePieces(l: Line): seq<Piece> {
    match l.kind
    case Bullet => [ItemPiece(Item(l.text))]
    case Table => [RowPiece(l.text)]
    case _ => if Strip(l.text) == [] then [] else [ParaPiece(Strip(l.text))]
  }

  /** The pieces of the lines in input order. */
  function Pieces(lines: seq<Line>): seq<Piece> {
    if lines == [] then [] else Pieces(lines[..|lines| - 1]) + LinePieces(lines[|lines| - 1])
  }

  function BlockPieces(b: Block): seq<Piece> {
    match b
    case Para(t) => [ParaPiece(t)]
    case Break => []
    case ListBlock(items) => seq(|items|, i requires 0 <= i < |items| => ItemPiece(items[i]))
    case TableBlock(rows) => seq(|rows|, i requires 0 <= i < |rows| => RowPiece(rows[i]))
  }

  /** The pieces of the blocks, block after block. */
  function Flatten(bs: seq<Block>): seq<Piece> {
    if bs == [] then [] else Flatten(bs[..|bs| - 1]) + BlockPieces(bs[|bs| - 1])
  }

  lemma FlattenSnoc(bs: seq<Block>, b: Block)
    ensures Flatten(bs + [b]) == Flatten(bs) + BlockPieces(b)
  {
    Snoc(bs, b);
  }

  lemma ListPiecesSnoc(items: seq<string>, x: string)
    ensures BlockPieces(ListBlock(items + [x])) == BlockPieces(ListBlock(items)) + [ItemPiece(x)]
  {
  }

  lemma TablePiecesSnoc(rows: seq<string>, x: string)
    ensures BlockPieces(TableBlock(rows + [x])) == BlockPieces(TableBlock(rows)) + [RowPiece(x)]
  {
  }

  /** Extending the last block by one item or row appends one piece. */
  lemma ExtendLast(bs: seq<Block>, b: Block, p: Piece)
    requires bs != [] && BlockPieces(b) == BlockPieces(bs[|bs| - 1]) + [p]
    ensures Flatten(bs[..|bs| - 1] + [b]) == Flatten(bs) + [p]
  {
    var init := bs[..|bs| - 1];
    SplitLast(bs);
    FlattenSnoc(init, b);
    FlattenSnoc(init, bs[|bs| - 1]);
    Assoc(Flatten(init), BlockPieces(bs[|bs| - 1]), [p]);
  }

  lemma BlocksStepPieces(bs: seq<Block>, l: Line)
    ensures Flatten(BlocksStep(bs, l)) == Flatten(bs) + LinePieces(l)
  {
    if l.kind == Bullet {
      AddItemPieces(bs, Item(l.text));
    } else if l.kind == Table {
      AddRowPieces(bs, l.text);
    } else {
      QuietPieces(bs, l);
    }
  }

  lemma AddItemPieces(bs: seq<Block>, x: string)
    ensures Flatten(AddItem(bs, x)) == Flatten(bs) + [ItemPiece(x)]
  {
    if bs != [] && bs[|bs| - 1].ListBlock? {
      ListPiecesSnoc(bs[|bs| - 1].items, x);
      ExtendLast(bs, ListBlock(bs[|bs| - 1].items + [x]), ItemPiece(x));
    } else {
      FlattenSnoc(bs, ListBlock([x]));
    }
  }

  lemma AddRowPieces(bs: seq<Block>, x: string)
    ensures Flatten(AddRow(bs, x)) == Flatten(bs) + [RowPiece(x)]
  {
    if bs != [] && bs[|bs| - 1].TableBlock? {
      TablePiecesSnoc(bs[|bs| - 1].rows, x);
      ExtendLast(bs, TableBlock(bs[|bs| - 1].rows + [x]), RowPiece(x));
    } else {
      FlattenSnoc(bs, TableBlock([x]));
    }
  }

  lemma QuietPieces(bs: seq<Block>, l: Line)
    requires l.kind != Bullet && l.kind != Table
    ensures Flatten(BlocksStep(bs, l)) == Flatten(bs) + LinePieces(l)
  {
    if Strip(l.text) == [] {
      FlattenSnoc(bs, Break);
    } else {
      FlattenSnoc(bs, Para(Strip(l.text)));
    }
  }

  /** Blocks appear in input order and lose nothing: one list item per bullet line, one
      table row per table line and one paragraph per line with visible text, in the
      order of the lines. */
  lemma {:induction false} BlocksKeepLines(lines: seq<Line>)
    ensures Flatten(Blocks(lines)) == Pieces(lines)
  {
    if lines != [] {
      var init := lines[..|lines| - 1];
      BlocksKeepLines(init);
      BlocksStepPieces(Blocks(init), lines[|lines| - 1]);
    }
  }

  /** Runs are maximal: no two neighbouring blocks are both lists or both tables. */
  ghost predicate Maximal(bs: seq<Block>) {
    forall i | 0 < i < |bs| ::
      !(bs[i - 1].ListBlock? && bs[i].ListBlock?) && !(bs[i - 1].TableBlock? && bs[i].TableBlock?)
  }

  lemma MaximalSnoc(bs: seq<Block>, b: Block)
    requires Maximal(bs)
    requires bs != [] ==> !(bs[|bs| - 1].ListBlock? && b.ListBlock?) && !(bs[|bs| - 1].TableBlock? && b.TableBlock?)
    ensures Maximal(bs + [b])
  {
    var t := bs + [b];
    forall i | 0 < i < |t|
      ensures !(t[i - 1].ListBlock? && t[i].ListBlock?) && !(t[i - 1].TableBlock? && t[i].TableBlock?)
    {
      if i < |bs| {
        assert t[i - 1] == bs[i - 1] && t[i] == bs[i];
      }
    }
  }

  lemma MaximalReplaceLast(bs: seq<Block>, b: Block)
    requires Maximal(bs) && bs != []
    requires bs[|bs| - 1].ListBlock? == b.ListBlock? && bs[|bs| - 1].TableBlock? == b.TableBlock?
    ensures Maximal(bs[..|bs| - 1] + [b])
  {
    var init := bs[..|bs| - 1];
    var t := init + [b];
    forall i | 0 < i < |t|
      ensures !(t[i - 1].ListBlock? && t[i].ListBlock?) && !(t[i - 1].TableBlock? && t[i].TableBlock?)
    {
      assert t[i - 1] == bs[i - 1];
      if i < |init| {
        assert t[i] == bs[i];
      }
    }
  }

  lemma {:induction false} BlocksMaximal(lines: seq<Line>)
    ensures Maximal(Blocks(lines))
  {
    if lines != [] {
      var init := lines[..|lines| - 1];
      BlocksMaximal(init);
      StepMaximal(Blocks(init), lines[|lines| - 1]);
    }
  }

  /** One more line never leaves two lists or two tables side by side. */
  lemma StepMaximal(bs: seq<Block>, l: Line)
    requires Maximal(bs)
    ensures Maximal(BlocksStep(bs, l))
  {
    match l.kind
    case Bullet =>
      if bs != [] && bs[|bs| - 1].ListBlock? {
        MaximalReplaceLast(bs, ListBlock(bs[|bs| - 1].items + [Item(l.text)]));
      } else {
        MaximalSnoc(bs, ListBlock([Item(l.text)]));
      }
    case Table =>
      if bs != [] && bs[|bs| - 1].TableBlock? {
        MaximalReplaceLast(bs, TableBlock(bs[|bs| - 1].rows + [l.text]));
      } else {
        MaximalSnoc(bs, TableBlock([l.text]));
      }
    case Blank =>
      MaximalSnoc(bs, if Strip(l.text) == [] then Break else Para(Strip(l.text)));
    case Paragraph =>
      MaximalSnoc(bs, if Strip(l.text) == [] then Break else Para(Strip(l.text)));
  }

  // ---------------------------------------------------------------------
  // format_lines_as_html, imperatively

  lemma EncloseEachSnoc(tag: string, xs: seq<string>, x: string)
    ensures EncloseEach(tag, xs + [x]) == EncloseEach(tag, xs) + Enclose(tag, x)
  {
    assert (xs + [x])[..|xs|] == xs;
  }

  lemma ListItemsStep(xs: seq<string>, i: nat)
    requires i < |xs|
    ensures EncloseEach("li", EscapeEach(xs[..i + 1])) == EncloseEach("li", EscapeEach(xs[..i])) + Enclose("li", Escape(xs[i]))
  {
    assert xs[..i + 1][..i] == xs[..i];
    assert EscapeEach(xs[..i + 1]) == EscapeEach(xs[..i]) + [Escape(xs[i])];
    EncloseEachSnoc("li", EscapeEach(xs[..i]), Escape(xs[i]));
  }

  lemma TableRowsStep(rows: seq<string>, i: nat)
    requires i < |rows|
    ensures TableRows(rows[..i + 1]) == TableRows(rows[..i]) +
      (if Cells(rows[i]) != [] then [Row(rows[i])] else [])
  {
    assert rows[..i + 1][..i] == rows[..i];
  }

  lemma RunStep(lines: seq<Line>, i: nat)
    requires i < |lines|
    ensures Run(lines[..i + 1]) == Step(Run(lines[..i]), lines[i])
  {
    assert lines[..i + 1][..i] == lines[..i];
  }

  /** The state format_lines_as_html keeps across its loop: the emitted parts and the
      two buffers that its nested flush_list and flush_table empty. */
  class HtmlWriter {
    var parts: seq<string>
    var listBuffer: seq<string>
    var tableBuffer: seq<string>

    function State(): Buffers
      reads this
    {
      Buffers(parts, listBuffer, tableBuffer)
    }

    constructor()
      ensures State() == Buffers([], [], [])
    {
      parts := [];
      listBuffer := [];
      tableBuffer := [];
    }

    /** flush_list: emits the buffered items as one `<ul>` and empties the buffer. */
    method FlushList()
      modifies this
      ensures State() == ListFlushed(old(State()))
    {
      if listBuffer != [] {
        var ul := ListMarkup(listBuffer);
        parts := parts + [ul];
        listBuffer := [];
      }
    }

    /** flush_table: emits the buffered rows that have a cell as one `<table>` and
        empties the buffer. */
    method FlushTable()
      modifies this
      ensures State() == TableFlushed(old(State()))
    {
      ghost var b := State();
      if tableBuffer != [] {
        var table := TableMarkup(tableBuffer);
        parts := parts + table;
        tableBuffer := [];
        assert State() == Buffers(b.parts + TableParts(b.table), b.list, []);
      }
    }

    /** Appends an item to the list buffer. */
    method PushItem(item: string)
      modifies this
      ensures State() == WithItem(old(State()), item)
    {
      listBuffer := listBuffer + [item];
    }

    /** One turn of the loop over the lines. */
    method Feed(line: Line)
      modifies this
      ensures State() == Step(old(State()), line)
    {
      ghost var b := State();
      var text := line.text;
      match line.kind
      case Bullet =>
        FlushTable();
        PushItem(Item(text));
      case Table =>
        FlushList();
        ghost var f := State();
        tableBuffer := tableBuffer + [text];
        assert State() == WithRow(f, text);
      case _ =>
        FlushList();
        FlushTable();
        ghost var f := State();
        if Strip(text) != [] {
          parts := parts + [Enclose("p", Escape(Strip(text)))];
        }
        assert State() == WithParagraph(f, text);
    }
  }

  /** The `<ul>` of a list buffer: one `<li>` per item, escaped, in order. */
  method ListMarkup(items: seq<string>) returns (html: string)
    ensures html == ListHtml(items)
  {
    var lis: string := [];
    for i := 0 to |items|
      invariant lis == EncloseEach("li", EscapeEach(items[..i]))
    {
      ListItemsStep(items, i);
      lis := lis + Enclose("li", Escape(items[i]));
    }
    assert items[..|items|] == items;
    html := Enclose("ul", lis);
  }

  /** The `<table>` of a table buffer, or nothing when no row has a cell. */
  method TableMarkup(buffer: seq<string>) returns (table: seq<string>)
    ensures table == TableParts(buffer)
  {
    var rows := RowMarkup(buffer);
    if rows != [] {
      table := [Enclose("table", Concat(rows))];
    } else {
      table := [];
    }
  }

  /** The `<tr>` of every buffered row that has a cell, in order. */
  method RowMarkup(rows: seq<string>) returns (trs: seq<string>)
    ensures trs == TableRows(rows)
  {
    trs := [];
    for i := 0 to |rows|
      invariant trs == TableRows(rows[..i])
    {
      TableRowsStep(rows, i);
      var cells := Cells(rows[i]);
      if cells != [] {
        trs := trs + [Enclose("tr", EncloseEach("td", cells))];
      }
    }
    assert rows[..|rows|] == rows;
  }

  /** format_lines_as_html */
  method FormatLinesAsHtml(lines: seq<Line>) returns (html: string)
    ensures html == FormatHtml(lines)
  {
    var w := new HtmlWriter();
    for i := 0 to |lines|
      invariant w.State() == Run(lines[..i])
    {
      RunStep(lines, i);
      w.Feed(lines[i]);
    }
    assert lines[..|lines|] == lines;
    w.FlushList();
    w.FlushTable();
    if w.parts == [] {
      html := Placeholder;
    } else {
      html := Concat(w.parts);
    }
  }
}
