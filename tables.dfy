/**
 * table.py: `Table`, labelled columns of equal length rendered as a grid
 * with heavy outer borders, a centred header row and right-justified cells.
 *
 * The structure is checked by `validate_state`, which applies four rules
 * in order and raises ValueError at the first that fails. Each cell's text
 * is an opaque input: the model states only the layout.
 */
module Tables {
  import opened Util
  import opened Text
  import Spans

  datatype Table = Table(cols: seq<Spans.Span>, header: seq<string>)

  /** `max(map(len, cols))` for at least one column. */
  function MaxCount(cols: seq<Spans.Span>): (m: nat)
    requires |cols| > 0
    ensures forall c :: 0 <= c < |cols| ==> |cols[c].values| <= m
    ensures exists c :: 0 <= c < |cols| && |cols[c].values| == m
  {
    if |cols| == 1 then |cols[0].values|
    else
      var rest := MaxCount(cols[1..]);
      assert forall c :: 1 <= c < |cols| ==> cols[c] == cols[1..][c - 1];
      if |cols[0].values| >= rest then |cols[0].values| else rest
  }

  /** `set(map(len, cols))`: the distinct column lengths. */
  function LengthSet(cols: seq<Spans.Span>): set<nat> {
    set c | 0 <= c < |cols| :: |cols[c].values|
  }

  predicate SameLengths(cols: seq<Spans.Span>) {
    forall c, d :: 0 <= c < |cols| && 0 <= d < |cols| ==> |cols[c].values| == |cols[d].values|
  }

  /** There is exactly one distinct length iff there are columns and they all have the same length. */
  lemma SingleLength(cols: seq<Spans.Span>)
    requires |cols| > 0
    ensures |LengthSet(cols)| == 1 <==> SameLengths(cols)
  {
    var lengths := LengthSet(cols);
    var n := |cols[0].values|;
    assert n in lengths;
    if SameLengths(cols) {
      assert lengths == {n};
    } else {
      var c, d :| 0 <= c < |cols| && 0 <= d < |cols| && |cols[c].values| != |cols[d].values|;
      var m := if |cols[c].values| != n then |cols[c].values| else |cols[d].values|;
      assert m in lengths - {n};
      assert lengths * {n} == {n};
      assert |lengths - {n}| == |lengths| - 1;
      assert |lengths - {n}| > 0;
    }
  }

  /** The structure every rule of `validate_state` accepts. */
  predicate WellShaped(t: Table) {
    |t.cols| > 0 && |t.cols[0].values| > 0 && SameLengths(t.cols) && |t.header| == |t.cols|
  }

  /**
   * `validate_state`: no columns, only empty columns, columns of different
   * lengths, and a label count that differs from the column count are
   * rejected, in that order.
   */
  function Validate(t: Table): (r: Result<()>)
    ensures r.Ok? <==> WellShaped(t)
    ensures |t.cols| == 0 ==> r == Err(ValueError(NoColumns))
    ensures |t.cols| > 0 && (forall c :: 0 <= c < |t.cols| ==> |t.cols[c].values| == 0) ==>
      r == Err(ValueError(NoNonEmptyColumns))
    ensures (exists c :: 0 <= c < |t.cols| && |t.cols[c].values| > 0) && !SameLengths(t.cols) ==>
      r == Err(ValueError(UnequalColumns))
    ensures ((exists c :: 0 <= c < |t.cols| && |t.cols[c].values| > 0) && SameLengths(t.cols) &&
             |t.header| != |t.cols|) ==> r == Err(ValueError(HeaderMismatch))
  {
    if |t.cols| == 0 then Err(ValueError(NoColumns))
    else if MaxCount(t.cols) == 0 then Err(ValueError(NoNonEmptyColumns))
    else
      SingleLength(t.cols);
      if |LengthSet(t.cols)| != 1 then Err(ValueError(UnequalColumns))
      else if |t.header| != |t.cols| then Err(ValueError(HeaderMismatch))
      else Ok(())
  }

  /** `Table(cols, header)`: the fields are stored, then validated. */
  function New(cols: seq<Spans.Span>, header: seq<string>): (r: Result<Table>)
    ensures r.Ok? <==> WellShaped(Table(cols, header))
    ensures r.Ok? ==> r.value.cols == cols && r.value.header == header
    ensures r.Err? ==> Validate(Table(cols, header)) == Err(r.error)
  {
    var t := Table(cols, header);
    match Validate(t)
    case Err(e) => Err(e)
    case Ok(_) => Ok(t)
  }

  /**
   * `from_pairs`: the columns and the labels, each in the order of the
   * pairs, so label `i` heads column `i`; the label count always matches.
   */
  function FromPairs(pairs: seq<(string, Spans.Span)>): (r: Result<Table>)
    ensures r.Ok? ==> |r.value.cols| == |pairs| == |r.value.header|
    ensures r.Ok? ==> forall i :: 0 <= i < |pairs| ==> r.value.header[i] == pairs[i].0 && r.value.cols[i] == pairs[i].1
    ensures r.Err? ==> r.error != ValueError(HeaderMismatch)
    ensures r.Ok? <==> (|pairs| > 0 && |pairs[0].1.values| > 0 &&
                        forall i :: 0 <= i < |pairs| ==> |pairs[i].1.values| == |pairs[0].1.values|)
  {
    New(seq(|pairs|, i requires 0 <= i < |pairs| => pairs[i].1),
        seq(|pairs|, i requires 0 <= i < |pairs| => pairs[i].0))
  }

  // ----- rendering -----

  /**
   * The cell texts `cells[c][k]` of row `k` of column `c` fit a header: one
   * column of texts per label, all columns of the same length.
   */
  predicate Grid(header: seq<string>, cells: seq<seq<string>>) {
    |cells| > 0 && |header| == |cells| && forall c :: 0 <= c < |cells| ==> |cells[c]| == |cells[0]|
  }

  function Rows(cells: seq<seq<string>>): nat
    requires |cells| > 0
  {
    |cells[0]|
  }

  /** `col_widths`: each column as wide as its longest cell text or its label, whichever is longer. */
  function Widths(header: seq<string>, cells: seq<seq<string>>): (ws: seq<nat>)
    requires |header| == |cells|
    ensures |ws| == |cells|
    ensures forall c :: 0 <= c < |cells| ==> ws[c] >= |header[c]|
    ensures forall c, k :: 0 <= c < |cells| && 0 <= k < |cells[c]| ==> ws[c] >= |cells[c][k]|
    ensures forall c :: 0 <= c < |cells| ==>
      ws[c] == |header[c]| || exists k :: 0 <= k < |cells[c]| && ws[c] == |cells[c][k]|
  {
    seq(|cells|, c requires 0 <= c < |cells| => Max(MaxLen(cells[c]), |header[c]|))
  }

  /** The sum of a list of widths. */
  function Total(ws: seq<nat>): nat {
    if |ws| == 0 then 0 else ws[0] + Total(ws[1..])
  }

  /** `fill*(w+2)` for each width `w`. */
  function Fills(fill: char, ws: seq<nat>): (parts: seq<string>)
    ensures |parts| == |ws| && forall c :: 0 <= c < |ws| ==> |parts[c]| == ws[c] + 2
  {
    seq(|ws|, c requires 0 <= c < |ws| => Repeat(fill, ws[c] + 2))
  }

  /** A horizontal border: `left + joint.join(fills) + right`. */
  function Border(left: char, joint: char, right: char, fill: char, ws: seq<nat>): string {
    [left] + JoinWith([joint], Fills(fill, ws)) + [right]
  }

  function Top(ws: seq<nat>): string {
    Border('\U{250F}', '\U{252F}', '\U{2513}', '\U{2501}', ws)
  }

  function HeaderDelimiter(ws: seq<nat>): string {
    Border('\U{2523}', '\U{253F}', '\U{252B}', '\U{2501}', ws)
  }

  function RowDelimiter(ws: seq<nat>): string {
    Border('\U{2520}', '\U{253C}', '\U{2528}', '\U{2500}', ws)
  }

  function Bottom(ws: seq<nat>): string {
    Border('\U{2517}', '\U{2537}', '\U{251B}', '\U{2501}', ws)
  }

  /** A row of fields between the heavy side bars, separated by light bars. */
  function RowLine(fields: seq<string>): string {
    "\U{2503} " + JoinWith(" \U{2502} ", fields) + " \U{2503}"
  }

  /** Each label centred in its column's width. */
  function LabelFields(header: seq<string>, ws: seq<nat>): (fields: seq<string>)
    requires |header| == |ws|
    ensures |fields| == |ws| && forall c :: 0 <= c < |ws| ==> fields[c] == Center(header[c], ws[c])
  {
    seq(|ws|, c requires 0 <= c < |ws| => Center(header[c], ws[c]))
  }

  /** Each cell of row `k` right-justified to its column's width. */
  function RowFields(cells: seq<seq<string>>, ws: seq<nat>, k: nat): (fields: seq<string>)
    requires |cells| == |ws| && forall c :: 0 <= c < |cells| ==> k < |cells[c]|
    ensures |fields| == |ws| && forall c :: 0 <= c < |ws| ==> fields[c] == RJust(cells[c][k], ws[c])
  {
    seq(|ws|, c requires 0 <= c < |ws| => RJust(cells[c][k], ws[c]))
  }

  /** The data rows, each cell right-justified to its column's width. */
  function RowLines(cells: seq<seq<string>>, ws: seq<nat>): (rows: seq<string>)
    requires |cells| > 0 && |cells| == |ws| && forall c :: 0 <= c < |cells| ==> |cells[c]| == |cells[0]|
    ensures |rows| == Rows(cells) && forall k :: 0 <= k < |rows| ==> rows[k] == RowLine(RowFields(cells, ws, k))
  {
    seq(Rows(cells), k requires 0 <= k < Rows(cells) => RowLine(RowFields(cells, ws, k)))
  }

  /**
   * The lines written once `i` rows are done: the top border, the header
   * row, the header delimiter, then the rows with a row delimiter before
   * each row but the first.
   */
  function LinesUpTo(header: seq<string>, cells: seq<seq<string>>, ws: seq<nat>, i: nat): seq<string>
    requires Grid(header, cells) && |ws| == |cells| && i <= Rows(cells)
  {
    Stacked([Top(ws), RowLine(LabelFields(header, ws)), HeaderDelimiter(ws)], RowLines(cells, ws), RowDelimiter(ws), i)
  }

  /** The lines of the rendered table, ending with the bottom border. */
  function TableLines(header: seq<string>, cells: seq<seq<string>>): seq<string>
    requires Grid(header, cells)
  {
    var ws := Widths(header, cells);
    LinesUpTo(header, cells, ws, Rows(cells)) + [Bottom(ws)]
  }

  /** The text of the top border, header row and header delimiter, each followed by a newline. */
  lemma HeaderText(header: seq<string>, cells: seq<seq<string>>, ws: seq<nat>)
    requires Grid(header, cells) && |ws| == |cells|
    ensures Top(ws) + "\n" + (RowLine(LabelFields(header, ws)) + "\n") + (HeaderDelimiter(ws) + "\n") ==
            Unlines(LinesUpTo(header, cells, ws, 0)) + "\n"
  {
    var labels := RowLine(LabelFields(header, ws));
    UnlinesSnocText(Top(ws) + "\n", [Top(ws)], labels);
    UnlinesSnocText(Top(ws) + "\n" + (labels + "\n"), [Top(ws), labels], HeaderDelimiter(ws));
    assert [Top(ws), labels] + [HeaderDelimiter(ws)] == LinesUpTo(header, cells, ws, 0);
  }

  /**
   * Writing row `i`, after a row delimiter unless it is the first row, to
   * the text of the lines so far extends it by exactly those lines.
   */
  lemma RowText(text: string, header: seq<string>, cells: seq<seq<string>>, ws: seq<nat>, i: nat)
    requires Grid(header, cells) && |ws| == |cells| && i < Rows(cells)
    requires text == Unlines(LinesUpTo(header, cells, ws, i)) + "\n"
    ensures i != 0 ==> text + (RowDelimiter(ws) + "\n") + (RowLine(RowFields(cells, ws, i)) + "\n") ==
                       Unlines(LinesUpTo(header, cells, ws, i + 1)) + "\n"
    ensures i == 0 ==> text + (RowLine(RowFields(cells, ws, i)) + "\n") ==
                       Unlines(LinesUpTo(header, cells, ws, i + 1)) + "\n"
  {
    var before := LinesUpTo(header, cells, ws, i);
    var line := RowLine(RowFields(cells, ws, i));
    assert |before| > 0 by {
      if i > 0 {
        assert LinesUpTo(header, cells, ws, i) == LinesUpTo(header, cells, ws, i - 1) +
          (if i - 1 != 0 then [RowDelimiter(ws)] else []) + [RowLine(RowFields(cells, ws, i - 1))];
      }
    }
    if i != 0 {
      UnlinesSnocText(text, before, RowDelimiter(ws));
      UnlinesSnocText(text + (RowDelimiter(ws) + "\n"), before + [RowDelimiter(ws)], line);
      assert before + [RowDelimiter(ws)] + [line] == LinesUpTo(header, cells, ws, i + 1);
    } else {
      UnlinesSnocText(text, before, line);
      assert before + [line] == LinesUpTo(header, cells, ws, i + 1);
    }
  }

  /** Validated columns whose texts match them element for element form a grid. */
  lemma ValidGrid(t: Table, cells: seq<seq<string>>)
    requires |cells| == |t.cols| && forall c :: 0 <= c < |cells| ==> |cells[c]| == |t.cols[c].values|
    requires WellShaped(t)
    ensures Grid(t.header, cells) && Rows(cells) == |t.cols[0].values|
  {
    forall c | 0 <= c < |cells|
      ensures |cells[c]| == |cells[0]|
    {
      assert |t.cols[c].values| == |t.cols[0].values|;
    }
  }

  /**
   * `__repr__`, given the text `cells[c][k]` of element `k` of column `c`:
   * the state is validated first, then the grid is written line by line.
   */
  method Render(t: Table, cells: seq<seq<string>>) returns (r: Result<string>)
    requires |cells| == |t.cols| && forall c :: 0 <= c < |cells| ==> |cells[c]| == |t.cols[c].values|
    ensures Validate(t).Err? ==> r == Err(Validate(t).error)
    ensures Validate(t).Ok? ==> Grid(t.header, cells) && r == Ok(Unlines(TableLines(t.header, cells)))
  {
    var valid := Validate(t);
    if valid.Err? {
      return Err(valid.error);
    }
    ValidGrid(t, cells);
    var ws := Widths(t.header, cells);
    HeaderText(t.header, cells, ws);
    var s := Top(ws) + "\n";
    s := s + (RowLine(LabelFields(t.header, ws)) + "\n");
    s := s + (HeaderDelimiter(ws) + "\n");
    var rowDelimiter := RowDelimiter(ws) + "\n";
    for i := 0 to Rows(cells)
      invariant s == Unlines(LinesUpTo(t.header, cells, ws, i)) + "\n"
    {
      RowText(s, t.header, cells, ws, i);
      if i != 0 {
        s := s + rowDelimiter;
      }
      s := s + (RowLine(RowFields(cells, ws, i)) + "\n");
    }
    UnlinesSnoc(LinesUpTo(t.header, cells, ws, Rows(cells)), Bottom(ws));
    s := s + Bottom(ws);
    return Ok(s);
  }

  // ----- layout of the rendered grid -----

  /** Parts each `d` longer than their width have total length `Total(ws) + d * |ws|`. */
  lemma {:induction false} TotalLengthOf(parts: seq<string>, ws: seq<nat>, d: nat)
    requires |parts| == |ws| && forall c :: 0 <= c < |ws| ==> |parts[c]| == ws[c] + d
    ensures TotalLength(parts) == Total(ws) + d * |ws|
  {
    if |ws| > 0 {
      TotalLengthOf(parts[1..], ws[1..], d);
    }
  }

  /** Every horizontal border is `Total(ws) + 3k + 1` wide for `k` columns. */
  lemma BorderWidth(left: char, joint: char, right: char, fill: char, ws: seq<nat>)
    requires |ws| > 0
    ensures |Border(left, joint, right, fill, ws)| == Total(ws) + 3 * |ws| + 1
  {
    var fills := Fills(fill, ws);
    TotalLengthOf(fills, ws, 2);
    JoinWithLength([joint], fills);
  }

  /** A row of fields each exactly as wide as its column is `Total(ws) + 3k + 1` wide. */
  lemma RowLineWidth(fields: seq<string>, ws: seq<nat>)
    requires |fields| == |ws| > 0 && forall c :: 0 <= c < |ws| ==> |fields[c]| == ws[c]
    ensures |RowLine(fields)| == Total(ws) + 3 * |ws| + 1
  {
    TotalLengthOf(fields, ws, 0);
    JoinWithLength(" \U{2502} ", fields);
  }

  /**
   * Labels are centred and cells right-justified to exactly their column's
   * width, the cell text ending the field.
   */
  lemma FieldsFit(header: seq<string>, cells: seq<seq<string>>, k: nat)
    requires Grid(header, cells) && k < Rows(cells)
    ensures forall c :: 0 <= c < |cells| ==>
      |LabelFields(header, Widths(header, cells))[c]| == Widths(header, cells)[c]
    ensures forall c :: 0 <= c < |cells| ==>
      var field := RowFields(cells, Widths(header, cells), k)[c];
      |field| == Widths(header, cells)[c] && field[|field| - |cells[c][k]|..] == cells[c][k]
  {
    var ws := Widths(header, cells);
    forall c | 0 <= c < |cells|
      ensures |LabelFields(header, ws)[c]| == ws[c]
      ensures |RowFields(cells, ws, k)[c]| == ws[c]
    {
      assert k < |cells[c]|;
    }
  }

  /**
   * The lines after `i` rows: top border, header row, header delimiter,
   * row `k` on line 3+2k and a row delimiter on line 4+2k between rows.
   */
  lemma LinesShape(header: seq<string>, cells: seq<seq<string>>, ws: seq<nat>, i: nat)
    requires Grid(header, cells) && |ws| == |cells| && i <= Rows(cells)
    ensures |LinesUpTo(header, cells, ws, i)| == if i == 0 then 3 else 2 * i + 2
    ensures LinesUpTo(header, cells, ws, i)[..3] == [Top(ws), RowLine(LabelFields(header, ws)), HeaderDelimiter(ws)]
    ensures forall k :: 0 <= k < i ==> LinesUpTo(header, cells, ws, i)[3 + 2 * k] == RowLine(RowFields(cells, ws, k))
    ensures forall k :: 0 <= k && k + 1 < i ==> LinesUpTo(header, cells, ws, i)[4 + 2 * k] == RowDelimiter(ws)
  {
    StackedShape([Top(ws), RowLine(LabelFields(header, ws)), HeaderDelimiter(ws)], RowLines(cells, ws), RowDelimiter(ws), i);
  }

  /**
   * A table of `r > 0` rows renders as 2r+3 lines: the top border, the
   * header row, the header delimiter, rows separated by row delimiters and
   * the bottom border.
   */
  lemma TableShape(header: seq<string>, cells: seq<seq<string>>)
    requires Grid(header, cells) && Rows(cells) > 0
    ensures var lines := TableLines(header, cells);
      var ws := Widths(header, cells);
      |lines| == 2 * Rows(cells) + 3 &&
      lines[..3] == [Top(ws), RowLine(LabelFields(header, ws)), HeaderDelimiter(ws)] &&
      lines[|lines| - 1] == Bottom(ws) &&
      (forall k :: 0 <= k < Rows(cells) ==> lines[3 + 2 * k] == RowLine(RowFields(cells, ws, k))) &&
      (forall k :: 0 <= k && k + 1 < Rows(cells) ==> lines[4 + 2 * k] == RowDelimiter(ws))
  {
    var lines := LinesUpTo(header, cells, Widths(header, cells), Rows(cells));
    LinesShape(header, cells, Widths(header, cells), Rows(cells));
    assert (lines + [Bottom(Widths(header, cells))])[..3] == lines[..3];
  }

  /** Every line of the rendered table is `Σ widths + 3k + 1` wide for `k` columns. */
  lemma TableWidth(header: seq<string>, cells: seq<seq<string>>)
    requires Grid(header, cells) && Rows(cells) > 0
    ensures forall j :: 0 <= j < |TableLines(header, cells)| ==>
      |TableLines(header, cells)[j]| == Total(Widths(header, cells)) + 3 * |cells| + 1
  {
    var ws := Widths(header, cells);
    var width := Total(ws) + 3 * |cells| + 1;
    var head := [Top(ws), RowLine(LabelFields(header, ws)), HeaderDelimiter(ws)];
    var rows := RowLines(cells, ws);
    BorderWidth('\U{250F}', '\U{252F}', '\U{2513}', '\U{2501}', ws);
    BorderWidth('\U{2523}', '\U{253F}', '\U{252B}', '\U{2501}', ws);
    BorderWidth('\U{2520}', '\U{253C}', '\U{2528}', '\U{2500}', ws);
    BorderWidth('\U{2517}', '\U{2537}', '\U{251B}', '\U{2501}', ws);
    FieldsFit(header, cells, 0);
    RowLineWidth(LabelFields(header, ws), ws);
    assert forall j :: 0 <= j < |head| ==> |head[j]| == width;
    forall k | 0 <= k < |rows|
      ensures |rows[k]| == width
    {
      FieldsFit(header, cells, k);
      RowLineWidth(RowFields(cells, ws, k), ws);
    }
    StackedWidth(head, rows, RowDelimiter(ws), Rows(cells), width);
    var lines := LinesUpTo(header, cells, ws, Rows(cells));
    assert TableLines(header, cells) == lines + [Bottom(ws)];
  }
}
