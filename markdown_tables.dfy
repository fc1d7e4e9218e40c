/** The table pass of the preview renderer. A line loop walks the lines of the text
    once, building one HTML string across all tables. Whenever a table closes, every
    match of the splice pattern `\|.*\|(\n\|.*\|)+` in the text is replaced by that
    whole string. */
module MarkdownTables {
  import opened Options
  import opened Text
  import opened MarkdownRules

  // ---------------------------------------------------------------------------
  // The splice pattern, matched at a position of the text

  /** The end of the line holding position `i`: the first newline at or after `i`, or
      the end of the text. */
  function LineEnd(s: string, i: nat): (e: nat)
    requires i <= |s|
    ensures i <= e <= |s|
    ensures e < |s| ==> s[e] == '\n'
    ensures forall j | i <= j < e :: s[j] != '\n'
    decreases |s| - i
  {
    if i == |s| || s[i] == '\n' then i else LineEnd(s, i + 1)
  }

  /** The last index in `[lo, hi)` holding a pipe. */
  function LastPipe(s: string, lo: nat, hi: nat): (r: Option<nat>)
    requires hi <= |s|
    ensures r.Some? ==> lo <= r.value < hi && s[r.value] == '|'
    ensures r.Some? ==> forall j | r.value < j < hi :: s[j] != '|'
    ensures r.None? ==> forall j | lo <= j < hi :: s[j] != '|'
    decreases hi
  {
    if hi <= lo then None
    else if s[hi - 1] == '|' then Some(hi - 1)
    else LastPipe(s, lo, hi - 1)
  }

  /** Where the greedy match of `(\n\|.*\|)+` starting at `i` ends. In each row `.*\|`
      reaches the last pipe of the line; a further row is tried only when that pipe
      ends the line. */
  function RowsFrom(s: string, i: nat): (r: Option<nat>)
    requires i <= |s|
    ensures r.Some? ==> i + 3 <= r.value <= |s| && s[r.value - 1] == '|'
    decreases |s| - i
  {
    if i + 1 >= |s| || s[i] != '\n' || s[i + 1] != '|' then None
    else
      var e := LineEnd(s, i + 1);
      match LastPipe(s, i + 2, e)
      case None => None
      case Some(q) =>
        if q + 1 < e then Some(q + 1)
        else
          match RowsFrom(s, e)
          case Some(j) => Some(j)
          case None => Some(e)
  }

  /** Where the match of `\|.*\|(\n\|.*\|)+` starting at `i` ends: the line from `i`
      starts and ends with a pipe and at least one row follows it. */
  function BlockAt(s: string, i: nat): (r: Option<nat>)
    requires i <= |s|
    ensures r.Some? ==> i < r.value <= |s| && s[i] == '|' && s[r.value - 1] == '|'
  {
    if i == |s| || s[i] != '|' then None
    else
      var e := LineEnd(s, i);
      if e < i + 2 || s[e - 1] != '|' then None
      else RowsFrom(s, e)
  }

  /** The global replacement from position `i` on: a match is replaced by `h` and the
      scan goes on after it; elsewhere one character is copied. */
  function ReplaceFrom(s: string, i: nat, h: string): string
    requires i <= |s|
    decreases |s| - i
  {
    if i == |s| then []
    else
      match BlockAt(s, i)
      case Some(j) => h + ReplaceFrom(s, j, h)
      case None => [s[i]] + ReplaceFrom(s, i + 1, h)
  }

  /** `s.replace(/\|.*\|(\n\|.*\|)+/g, h)`, with `h` inserted literally. */
  function ReplaceBlocks(s: string, h: string): string {
    ReplaceFrom(s, 0, h)
  }

  const TableOpen := "<table class=\"min-w-full border-collapse my-4\"><thead>"
  const TableClose := "</tbody></table>"
  const ThOpen := "<th class=\"border border-neutral-300 px-4 py-2\">"
  const TdOpen := "<td class=\"border border-neutral-300 px-4 py-2\">"

  /** `pieces.filter(cell => cell.trim() !== "")`. */
  function NonBlank(pieces: seq<string>): (r: seq<string>)
    ensures forall k | 0 <= k < |r| :: !AllSpace(r[k])
    ensures forall p :: p in r <==> p in pieces && !AllSpace(p)
    decreases |pieces|
  {
    if pieces == [] then []
    else (if AllSpace(pieces[0]) then [] else [pieces[0]]) + NonBlank(pieces[1..])
  }

  /** The cells of a row: its non-blank `|`-separated pieces. */
  function RowCells(line: string): seq<string> {
    NonBlank(Split(line, '|'))
  }

  /** The cell template: the trimmed cell between the tags. */
  function WrapCell(cell: string, open: string, close: string): string {
    open + Trim(cell) + close
  }

  /** Each cell trimmed and wrapped in `open` ... `close`, in order. */
  function WrapCells(cells: seq<string>, open: string, close: string): string
    decreases |cells|
  {
    if cells == [] then ""
    else WrapCells(cells[..|cells| - 1], open, close) + WrapCell(cells[|cells| - 1], open, close)
  }

  function HeaderRow(line: string): string {
    "<tr>" + WrapCells(RowCells(line), ThOpen, "</th>") + "</tr></thead><tbody>"
  }

  function BodyRow(line: string): string {
    "<tr>" + WrapCells(RowCells(line), TdOpen, "</td>") + "</tr>"
  }

  function BodyRows(rows: seq<string>): string
    decreases |rows|
  {
    if rows == [] then "" else BodyRow(rows[0]) + BodyRows(rows[1..])
  }

  /** The loop as a function of its state: the line index, the `inTable` flag, the
      table HTML built so far and the text as rewritten so far. A header line also
      skips the line after it. */
  function TableLoop(lines: seq<string>, i: nat, inTable: bool, html: string, text: string): string
    decreases |lines| - i
  {
    if i >= |lines| then
      if inTable then ReplaceBlocks(text, html + TableClose) else text
    else if '|' in lines[i] && !inTable then
      TableLoop(lines, i + 2, true, html + HeaderRow(lines[i]), text)
    else if '|' in lines[i] then
      TableLoop(lines, i + 1, true, html + BodyRow(lines[i]), text)
    else if inTable then
      TableLoop(lines, i + 1, false, html + TableClose, ReplaceBlocks(text, html + TableClose))
    else
      TableLoop(lines, i + 1, false, html, text)
  }

  /** The whole pass: skipped when the text holds no pipe. A table written without pipes
      at the ends of its lines is never spliced, so such a text comes out unchanged. */
  function TablesPass(text: string): (r: string)
    ensures '|' !in text ==> r == text
    ensures NoFramedLineEnd(text) ==> r == text
  {
    if '|' in text then
      UnframedLoopKeepsText(text);
      TableLoop(Lines(text), 0, false, TableOpen, text)
    else text
  }

  /** Appends each cell, trimmed and wrapped, as the `forEach` over the cells does. */
  method AppendCells(html: string, cells: seq<string>, open: string, close: string) returns (out: string)
    ensures out == html + WrapCells(cells, open, close)
  {
    out := html;
    var k := 0;
    while k < |cells|
      invariant 0 <= k <= |cells|
      invariant out == html + WrapCells(cells[..k], open, close)
    {
      WrapCellsStep(html, cells, k, open, close);
      out := out + WrapCell(cells[k], open, close);
      k := k + 1;
    }
    assert cells[..k] == cells;
  }

  lemma WrapCellsStep(html: string, cells: seq<string>, k: nat, open: string, close: string)
    requires k < |cells|
    ensures html + WrapCells(cells[..k], open, close) + WrapCell(cells[k], open, close)
         == html + WrapCells(cells[..k + 1], open, close)
  {
    var p := cells[..k + 1];
    assert p[..k] == cells[..k] && p[k] == cells[k];
    Assoc(html, WrapCells(cells[..k], open, close), WrapCell(cells[k], open, close));
  }

  lemma RowAppend(html: string, open: string, mid: string, close: string)
    ensures html + open + mid + close == html + (open + mid + close)
  {
  }

  /** The header branch: the row opening, one `<th>` per cell, the row closing and the
      start of the body. */
  method AppendHeaderRow(html: string, line: string) returns (out: string)
    ensures out == html + HeaderRow(line)
  {
    var cells := NonBlank(Split(line, '|'));
    out := html + "<tr>";
    out := AppendCells(out, cells, ThOpen, "</th>");
    out := out + "</tr></thead><tbody>";
    RowAppend(html, "<tr>", WrapCells(cells, ThOpen, "</th>"), "</tr></thead><tbody>");
  }

  /** The body branch: one `<td>` per cell between the row tags. */
  method AppendBodyRow(html: string, line: string) returns (out: string)
    ensures out == html + BodyRow(line)
  {
    var cells := NonBlank(Split(line, '|'));
    out := html + "<tr>";
    out := AppendCells(out, cells, TdOpen, "</td>");
    out := out + "</tr>";
    RowAppend(html, "<tr>", WrapCells(cells, TdOpen, "</td>"), "</tr>");
  }

  /** The table pass of the renderer, run on `text`. */
  method RenderTables(text: string) returns (out: string)
    ensures out == TablesPass(text)
    ensures '|' !in text ==> out == text
  {
    if '|' in text {
      out := RunTableLoop(Split(text, '\n'), text);
    } else {
      out := text;
    }
  }

  /** The loop over the lines, from the first line with no table open. */
  method RunTableLoop(lines: seq<string>, text: string) returns (out: string)
    ensures out == TableLoop(lines, 0, false, TableOpen, text)
  {
    out := text;
    var inTable := false;
    var html := TableOpen;
    var i := 0;
    while i < |lines|
      invariant i <= |lines| + 1
      invariant TableLoop(lines, i, inTable, html, out) == TableLoop(lines, 0, false, TableOpen, text)
      decreases |lines| + 1 - i
    {
      var line := lines[i];
      if '|' in line && !inTable {
        inTable := true;
        html := AppendHeaderRow(html, line);
        i := i + 1;
      } else if '|' in line && inTable {
        html := AppendBodyRow(html, line);
      } else if '|' !in line && inTable {
        inTable := false;
        html := html + TableClose;
        out := ReplaceBlocks(out, html);
      }
      i := i + 1;
    }
    if inTable {
      html := html + TableClose;
      out := ReplaceBlocks(out, html);
    }
  }

  // ---------------------------------------------------------------------------
  // One table among plain lines

  /** Lines without a pipe outside a table leave the state alone. */
  lemma {:induction false} SkipPlain(lines: seq<string>, i: nat, j: nat, html: string, text: string)
    requires i <= j <= |lines|
    requires forall k | i <= k < j :: '|' !in lines[k]
    ensures TableLoop(lines, i, false, html, text) == TableLoop(lines, j, false, html, text)
    decreases j - i
  {
    if i < j {
      SkipPlain(lines, i + 1, j, html, text);
    }
  }

  lemma BodyRowsCons(html: string, rows: seq<string>)
    requires rows != []
    ensures html + BodyRow(rows[0]) + BodyRows(rows[1..]) == html + BodyRows(rows)
  {
  }

  /** Pipe lines inside a table each add one body row. */
  lemma {:induction false} AddRows(lines: seq<string>, i: nat, j: nat, html: string, text: string)
    requires i <= j <= |lines|
    requires forall k | i <= k < j :: '|' in lines[k]
    ensures TableLoop(lines, i, true, html, text)
         == TableLoop(lines, j, true, html + BodyRows(lines[i..j]), text)
    decreases j - i
  {
    if i == j {
      assert lines[i..j] == [];
      assert html + "" == html;
    } else {
      AddRows(lines, i + 1, j, html + BodyRow(lines[i]), text);
      assert lines[i..j][1..] == lines[i + 1..j];
      assert lines[i..j][0] == lines[i];
      BodyRowsCons(html, lines[i..j]);
    }
  }

  /** The HTML one table is given: the header cells, the body rows, the closing tags. */
  function TableHtml(header: string, body: seq<string>): string {
    TableOpen + HeaderRow(header) + BodyRows(body) + TableClose
  }

  /** With one pipe line at `h`, any line after it, pipe rows up to `p` and no other
      pipe line, the loop replaces every splice-pattern match of the text by that
      table's HTML. The line after the header is skipped whatever it holds. */
  lemma SingleTable(lines: seq<string>, h: nat, p: nat, text: string)
    requires h + 2 <= p <= |lines|
    requires forall k | 0 <= k < h :: '|' !in lines[k]
    requires '|' in lines[h]
    requires forall k | h + 2 <= k < p :: '|' in lines[k]
    requires forall k | p <= k < |lines| :: '|' !in lines[k]
    ensures TableLoop(lines, 0, false, TableOpen, text)
         == ReplaceBlocks(text, TableHtml(lines[h], lines[h + 2..p]))
  {
    var html := TableOpen + HeaderRow(lines[h]);
    SkipPlain(lines, 0, h, TableOpen, text);
    HeaderStep(lines, h, TableOpen, text);
    AddRows(lines, h + 2, p, html, text);
    CloseAtEnd(lines, p, html + BodyRows(lines[h + 2..p]), text);
  }

  /** The first pipe line opens the table and the line after it is skipped. */
  lemma HeaderStep(lines: seq<string>, h: nat, html: string, text: string)
    requires h < |lines| && '|' in lines[h]
    ensures TableLoop(lines, h, false, html, text)
         == TableLoop(lines, h + 2, true, html + HeaderRow(lines[h]), text)
  {
  }

  /** An open table followed only by lines without pipes is closed once and spliced. */
  lemma CloseAtEnd(lines: seq<string>, p: nat, html: string, text: string)
    requires p <= |lines|
    requires forall k | p <= k < |lines| :: '|' !in lines[k]
    ensures TableLoop(lines, p, true, html, text) == ReplaceBlocks(text, html + TableClose)
  {
    if p < |lines| {
      var closed := html + TableClose;
      SkipPlain(lines, p + 1, |lines|, closed, ReplaceBlocks(text, closed));
    }
  }

  // ---------------------------------------------------------------------------
  // The splice pattern on framed tables

  lemma {:induction false} LineEndAt(s: string, i: nat, e: nat)
    requires i <= e <= |s|
    requires forall j | i <= j < e :: s[j] != '\n'
    requires e == |s| || s[e] == '\n'
    ensures LineEnd(s, i) == e
    decreases e - i
  {
    if i < e {
      LineEndAt(s, i + 1, e);
    }
  }

  /** `r` is written in `s` from position `i`. */
  predicate At(s: string, i: nat, r: string) {
    i + |r| <= |s| && forall k | 0 <= k < |r| :: s[i + k] == r[k]
  }

  lemma AtWhole(s: string)
    ensures At(s, 0, s)
  {
  }

  lemma AtSplit(s: string, i: nat, a: string, b: string)
    requires At(s, i, a + b)
    ensures At(s, i, a) && At(s, i + |a|, b)
  {
    forall k | 0 <= k < |a|
      ensures s[i + k] == a[k]
    {
      assert (a + b)[k] == a[k];
    }
    forall k | 0 <= k < |b|
      ensures s[i + |a| + k] == b[k]
    {
      assert s[i + (|a| + k)] == (a + b)[|a| + k];
    }
  }

  lemma AtIndex(s: string, i: nat, r: string, k: nat)
    requires At(s, i, r) && k < |r|
    ensures s[i + k] == r[k]
  {
  }

  lemma AtSlice(s: string, i: nat, r: string, e: nat)
    requires At(s, i, r) && e == i + |r|
    ensures s[i..e] == r
  {
  }

  lemma AtNoChar(s: string, i: nat, r: string, e: nat, c: char)
    requires At(s, i, r) && e == i + |r| && c !in r
    ensures forall k | i <= k < e :: s[k] != c
  {
    forall k | i <= k < e
      ensures s[k] != c
    {
      assert s[i + (k - i)] == r[k - i];
    }
  }

  /** A line `r` written in `s` from position `i` ends where `r` does. */
  lemma LineAt(s: string, i: nat, r: string)
    requires At(s, i, r) && '\n' !in r
    requires i + |r| == |s| || s[i + |r|] == '\n'
    ensures LineEnd(s, i) == i + |r|
  {
    AtNoChar(s, i, r, i + |r|, '\n');
    LineEndAt(s, i, i + |r|);
  }

  /** A row the splice pattern accepts: a line that starts and ends with a pipe. */
  predicate Framed(row: string) {
    |row| >= 2 && row[0] == '|' && row[|row| - 1] == '|' && '\n' !in row
  }

  /** A newline at `i` followed by a line that starts and ends with a pipe. */
  predicate FramedRowAt(s: string, i: nat)
    requires i <= |s|
  {
    i + 1 < |s| && s[i] == '\n' && s[i + 1] == '|'
    && LineEnd(s, i + 1) >= i + 3 && s[LineEnd(s, i + 1) - 1] == '|'
  }

  /** `n` framed rows, each introduced by its newline, from `i` to `j`. */
  predicate FramedRun(s: string, i: nat, n: nat, j: nat)
    requires i <= |s|
    decreases n
  {
    if n == 0 then i == j
    else FramedRowAt(s, i) && FramedRun(s, LineEnd(s, i + 1), n - 1, j)
  }

  lemma {:induction false} RunBounds(s: string, i: nat, n: nat, j: nat)
    requires i <= |s| && FramedRun(s, i, n, j)
    ensures i <= j <= |s|
    decreases n
  {
    if n > 0 {
      RunBounds(s, LineEnd(s, i + 1), n - 1, j);
    }
  }

  lemma RowsFromNext(s: string, i: nat, j: nat)
    requires i <= |s| && FramedRowAt(s, i) && RowsFrom(s, LineEnd(s, i + 1)) == Some(j)
    ensures RowsFrom(s, i) == Some(j)
  {
    var e := LineEnd(s, i + 1);
    assert LastPipe(s, i + 2, e) == Some(e - 1);
  }

  lemma RowsFromLast(s: string, i: nat)
    requires i <= |s| && FramedRowAt(s, i) && RowsFrom(s, LineEnd(s, i + 1)).None?
    ensures RowsFrom(s, i) == Some(LineEnd(s, i + 1))
  {
    var e := LineEnd(s, i + 1);
    assert LastPipe(s, i + 2, e) == Some(e - 1);
  }

  /** The row part of the pattern takes a run of framed rows whole and stops where no
      further row starts. */
  lemma {:induction false} RowsFromRun(s: string, i: nat, n: nat, j: nat)
    requires i <= j <= |s| && n >= 1 && FramedRun(s, i, n, j) && RowsFrom(s, j).None?
    ensures RowsFrom(s, i) == Some(j)
    decreases n
  {
    var e := LineEnd(s, i + 1);
    if n == 1 {
      assert e == j;
      RowsFromLast(s, i);
    } else {
      RunBounds(s, e, n - 1, j);
      RowsFromRun(s, e, n - 1, j);
      RowsFromNext(s, i, j);
    }
  }

  /** A framed line at `a` followed by a run of framed rows is one match of the
      splice pattern. */
  lemma BlockAtRun(s: string, a: nat, n: nat, j: nat)
    requires a < |s| && s[a] == '|'
    requires LineEnd(s, a) >= a + 2 && s[LineEnd(s, a) - 1] == '|'
    requires LineEnd(s, a) <= j <= |s| && n >= 1 && FramedRun(s, LineEnd(s, a), n, j)
    requires RowsFrom(s, j).None?
    ensures BlockAt(s, a) == Some(j)
  {
    RowsFromRun(s, LineEnd(s, a), n, j);
  }

  /** Text without a pipe is copied through by the splice. */
  lemma {:induction false} ReplaceSkip(s: string, i: nat, p: nat, h: string)
    requires i <= p <= |s|
    requires forall k | i <= k < p :: s[k] != '|'
    ensures ReplaceFrom(s, i, h) == s[i..p] + ReplaceFrom(s, p, h)
    decreases p - i
  {
    if i < p {
      var rest := ReplaceFrom(s, p, h);
      ReplaceSkip(s, i + 1, p, h);
      assert BlockAt(s, i).None?;
      assert ReplaceFrom(s, i, h) == [s[i]] + (s[i + 1..p] + rest);
      assert s[i..p] == [s[i]] + s[i + 1..p];
      Assoc([s[i]], s[i + 1..p], rest);
    }
  }

  lemma Assoc(a: string, b: string, c: string)
    ensures a + (b + c) == (a + b) + c
  {
  }

  /** A match between two pipe-free stretches is the only thing the splice changes. */
  lemma SpliceOne(s: string, a: nat, j: nat, h: string)
    requires a < j <= |s| && BlockAt(s, a) == Some(j)
    requires forall k | 0 <= k < a :: s[k] != '|'
    requires forall k | j <= k < |s| :: s[k] != '|'
    ensures ReplaceBlocks(s, h) == s[0..a] + h + s[j..|s|]
  {
    ReplaceSkip(s, 0, a, h);
    ReplaceSkip(s, j, |s|, h);
    assert s[j..|s|] + [] == s[j..|s|];
    Assoc(s[0..a], h, s[j..|s|]);
  }

  /** Every row is framed. */
  predicate AllFramed(rows: seq<string>)
    decreases |rows|
  {
    rows == [] || (Framed(rows[0]) && AllFramed(rows[1..]))
  }

  lemma {:induction false} AllFramedOf(rows: seq<string>)
    requires forall k | 0 <= k < |rows| :: Framed(rows[k])
    ensures AllFramed(rows)
    decreases |rows|
  {
    if rows != [] {
      assert Framed(rows[0]);
      AllFramedOf(rows[1..]);
    }
  }

  /** The rows, each preceded by a newline. */
  function RowsText(rows: seq<string>): string
    decreases |rows|
  {
    if rows == [] then "" else "\n" + rows[0] + RowsText(rows[1..])
  }

  lemma {:induction false} UnlinesCons(x: string, rows: seq<string>)
    ensures Unlines([x] + rows) == x + RowsText(rows)
    decreases |rows|
  {
    if rows != [] {
      assert ([x] + rows)[1..] == rows;
      UnlinesCons(rows[0], rows[1..]);
      assert [rows[0]] + rows[1..] == rows;
    }
  }

  /** A framed row just after the newline at `i`. */
  lemma FramedRowIn(s: string, i: nat, r: string)
    requires i < |s| && s[i] == '\n' && At(s, i + 1, r) && Framed(r)
    requires i + 1 + |r| == |s| || s[i + 1 + |r|] == '\n'
    ensures FramedRowAt(s, i)
    ensures LineEnd(s, i + 1) == i + 1 + |r|
  {
    LineAt(s, i + 1, r);
    AtIndex(s, i + 1, r, 0);
    AtIndex(s, i + 1, r, |r| - 1);
  }

  /** Framed rows written out one per line form a run. */
  lemma {:induction false} RowsTextRun(s: string, i: nat, rows: seq<string>)
    requires AllFramed(rows) && At(s, i, RowsText(rows))
    requires i + |RowsText(rows)| == |s| || s[i + |RowsText(rows)|] == '\n'
    ensures FramedRun(s, i, |rows|, i + |RowsText(rows)|)
    decreases |rows|
  {
    if rows != [] {
      var r := rows[0];
      var rest := RowsText(rows[1..]);
      assert RowsText(rows) == ("\n" + r) + rest;
      AtSplit(s, i, "\n" + r, rest);
      AtSplit(s, i, "\n", r);
      AtIndex(s, i, "\n", 0);
      var e := i + 1 + |r|;
      if rest != [] {
        AtIndex(s, e, rest, 0);
      }
      FramedRowIn(s, i, r);
      RowsTextRun(s, e, rows[1..]);
    }
  }

  /** No row starts at `j` when the text from `j` to its end holds no pipe. */
  lemma NoRowsAfter(s: string, j: nat, y: string)
    requires At(s, j, y) && j + |y| == |s| && '|' !in y
    ensures RowsFrom(s, j).None?
  {
    if j + 1 < |s| {
      AtIndex(s, j, y, 1);
    }
  }

  /** A framed header followed by framed rows, and then by text without a pipe, is one
      match of the splice pattern. */
  lemma BlockOf(s: string, a: nat, header: string, rows: seq<string>, j: nat, y: string)
    requires Framed(header) && |rows| >= 1 && AllFramed(rows)
    requires At(s, a, header) && At(s, a + |header|, RowsText(rows))
    requires j == a + |header| + |RowsText(rows)|
    requires At(s, j, y) && j + |y| == |s| && '|' !in y && (y == [] || y[0] == '\n')
    ensures BlockAt(s, a) == Some(j)
  {
    NoRowsAfter(s, j, y);
    if y != [] {
      AtIndex(s, j, y, 0);
    }
    var e := a + |header|;
    assert RowsText(rows)[0] == '\n';
    AtIndex(s, e, RowsText(rows), 0);
    LineAt(s, a, header);
    AtIndex(s, a, header, 0);
    AtIndex(s, a, header, |header| - 1);
    RowsTextRun(s, e, rows);
    BlockAtRun(s, a, |rows|, j);
  }

  /** The text before a middle block of lines. */
  function Before(pre: seq<string>): string {
    if pre == [] then "" else Unlines(pre) + "\n"
  }

  /** The text after a middle block of lines. */
  function After(post: seq<string>): string {
    if post == [] then "" else "\n" + Unlines(post)
  }

  lemma UnlinesThen(mid: seq<string>, post: seq<string>)
    requires |mid| >= 1
    ensures Unlines(mid + post) == Unlines(mid) + After(post)
  {
    if post != [] {
      JoinAppend(mid, post, "\n");
      Assoc(Unlines(mid), "\n", Unlines(post));
    } else {
      assert mid + post == mid;
    }
  }

  lemma UnlinesAround(pre: seq<string>, mid: seq<string>, post: seq<string>)
    requires |mid| >= 1
    ensures Unlines(pre + mid + post) == Before(pre) + Unlines(mid) + After(post)
  {
    UnlinesThen(mid, post);
    var tail := mid + post;
    if pre != [] {
      SeqAssoc(pre, mid, post);
      JoinAppend(pre, tail, "\n");
      Assoc(Unlines(pre) + "\n", Unlines(mid), After(post));
    } else {
      SeqAssoc(pre, mid, post);
      assert pre + tail == tail;
    }
  }

  lemma SeqAssoc<T>(a: seq<T>, b: seq<T>, c: seq<T>)
    ensures a + b + c == a + (b + c)
  {
  }


  lemma PipeFreeAround(pre: seq<string>, post: seq<string>)
    requires forall k | 0 <= k < |pre| :: '|' !in pre[k]
    requires forall k | 0 <= k < |post| :: '|' !in post[k]
    ensures '|' !in Before(pre) && '|' !in After(post)
    ensures After(post) == [] || After(post)[0] == '\n'
  {
    JoinNoChar(pre, "\n", '|');
    JoinNoChar(post, "\n", '|');
  }

  /** The text of the lines, the table taken out as one block. */
  lemma TableText(pre: seq<string>, header: string, rows: seq<string>, post: seq<string>)
    requires |rows| >= 1
    ensures Unlines(pre + ([header] + rows) + post)
         == Before(pre) + (header + RowsText(rows)) + After(post)
  {
    UnlinesAround(pre, [header] + rows, post);
    UnlinesCons(header, rows);
  }

  lemma LinesOfTable(pre: seq<string>, header: string, sep: string, body: seq<string>, post: seq<string>)
    requires forall k | 0 <= k < |pre| :: '\n' !in pre[k]
    requires Framed(header) && Framed(sep)
    requires forall k | 0 <= k < |body| :: Framed(body[k])
    requires forall k | 0 <= k < |post| :: '\n' !in post[k]
    ensures var lines := pre + [header, sep] + body + post;
      Lines(Unlines(lines)) == lines
  {
    var lines := pre + [header, sep] + body + post;
    forall k | 0 <= k < |lines|
      ensures '\n' !in lines[k]
    {
      if k < |pre| { assert lines[k] == pre[k]; }
      else if k == |pre| { assert lines[k] == header; }
      else if k == |pre| + 1 { assert lines[k] == sep; }
      else if k < |pre| + 2 + |body| { assert lines[k] == body[k - |pre| - 2]; }
      else { assert lines[k] == post[k - |pre| - 2 - |body|]; }
    }
    LinesUnlines(lines);
  }

  /** The loop over the lines of a text with one table. */
  lemma LoopOfTable(pre: seq<string>, header: string, sep: string, body: seq<string>,
                    post: seq<string>, text: string)
    requires forall k | 0 <= k < |pre| :: '|' !in pre[k]
    requires '|' in header
    requires forall k | 0 <= k < |body| :: '|' in body[k]
    requires forall k | 0 <= k < |post| :: '|' !in post[k]
    ensures TableLoop(pre + [header, sep] + body + post, 0, false, TableOpen, text)
         == ReplaceBlocks(text, TableHtml(header, body))
  {
    var lines := pre + [header, sep] + body + post;
    var h := |pre|;
    var p := h + 2 + |body|;
    assert lines[h] == header;
    assert lines[h + 2..p] == body;
    forall k | 0 <= k < h
      ensures '|' !in lines[k]
    {
      assert lines[k] == pre[k];
    }
    forall k | h + 2 <= k < p
      ensures '|' in lines[k]
    {
      assert lines[k] == body[k - h - 2];
    }
    forall k | p <= k < |lines|
      ensures '|' !in lines[k]
    {
      assert lines[k] == post[k - p];
    }
    SingleTable(lines, h, p, text);
  }

  /** The pieces of `w + m + y` sit at their positions. */
  lemma AtThree(text: string, w: string, m: string, y: string)
    requires text == w + m + y
    ensures At(text, 0, w) && At(text, |w|, m) && At(text, |w| + |m|, y)
    ensures |text| == |w| + |m| + |y|
  {
    AtWhole(text);
    AtSplit(text, 0, w + m, y);
    AtSplit(text, 0, w, m);
  }

  /** A framed table at `a`, pipe-free text before it and pipe-free text from the next
      line on: the splice replaces the table by `h` and keeps the rest. */
  lemma SpliceAt(text: string, a: nat, header: string, rows: seq<string>, j: nat, y: string, h: string)
    requires Framed(header) && |rows| >= 1 && AllFramed(rows)
    requires At(text, a, header + RowsText(rows)) && j == a + |header + RowsText(rows)|
    requires At(text, j, y) && j + |y| == |text| && '|' !in y && (y == [] || y[0] == '\n')
    requires forall k | 0 <= k < a :: text[k] != '|'
    ensures ReplaceBlocks(text, h) == text[0..a] + h + text[j..|text|]
  {
    AtSplit(text, a, header, RowsText(rows));
    BlockOf(text, a, header, rows, j, y);
    AtNoChar(text, j, y, |text|, '|');
    SpliceOne(text, a, j, h);
  }

  /** The same for a text written as the three pieces. */
  lemma SpliceTable(text: string, w: string, header: string, rows: seq<string>, y: string, h: string)
    requires text == w + (header + RowsText(rows)) + y
    requires '|' !in w && '|' !in y && (y == [] || y[0] == '\n')
    requires Framed(header) && |rows| >= 1 && AllFramed(rows)
    ensures ReplaceBlocks(text, h) == w + h + y
  {
    var block := header + RowsText(rows);
    var a := |w|;
    var j := a + |block|;
    AtThree(text, w, block, y);
    AtNoChar(text, 0, w, a, '|');
    SpliceAt(text, a, header, rows, j, y, h);
    AtSlice(text, 0, w, a);
    AtSlice(text, j, y, |text|);
  }

  lemma Regroup(pre: seq<string>, header: string, sep: string, body: seq<string>, post: seq<string>)
    ensures pre + [header, sep] + body + post == pre + ([header] + ([sep] + body)) + post
  {
    assert [header, sep] + body == [header] + ([sep] + body);
  }

  /** The text holds the pipe that starts the table. */
  lemma PipeInTable(text: string, w: string, header: string, rows: seq<string>, y: string)
    requires text == w + (header + RowsText(rows)) + y && Framed(header)
    ensures '|' in text
  {
    AtThree(text, w, header + RowsText(rows), y);
    AtIndex(text, |w|, header + RowsText(rows), 0);
  }

  /** The loop part of the pass on a text with one framed table. */
  lemma FramedTableLoop(pre: seq<string>, header: string, sep: string, body: seq<string>, post: seq<string>)
    requires forall k | 0 <= k < |pre| :: '|' !in pre[k] && '\n' !in pre[k]
    requires Framed(header) && Framed(sep)
    requires forall k | 0 <= k < |body| :: Framed(body[k])
    requires forall k | 0 <= k < |post| :: '|' !in post[k] && '\n' !in post[k]
    ensures var text := Unlines(pre + [header, sep] + body + post);
      TablesPass(text) == ReplaceBlocks(text, TableHtml(header, body))
  {
    var rows := [sep] + body;
    var text := Unlines(pre + [header, sep] + body + post);
    Regroup(pre, header, sep, body, post);
    TableText(pre, header, rows, post);
    PipeInTable(text, Before(pre), header, rows, After(post));
    LinesOfTable(pre, header, sep, body, post);
    forall k | 0 <= k < |body|
      ensures '|' in body[k]
    {
      assert body[k][0] == '|';
    }
    assert header[0] == '|';
    LoopOfTable(pre, header, sep, body, post, text);
  }

  /** The splice part of the pass on a text with one framed table. */
  lemma FramedTableSplice(pre: seq<string>, header: string, sep: string, body: seq<string>, post: seq<string>, html: string)
    requires forall k | 0 <= k < |pre| :: '|' !in pre[k] && '\n' !in pre[k]
    requires Framed(header) && Framed(sep)
    requires forall k | 0 <= k < |body| :: Framed(body[k])
    requires forall k | 0 <= k < |post| :: '|' !in post[k] && '\n' !in post[k]
    ensures ReplaceBlocks(Unlines(pre + [header, sep] + body + post), html)
         == Unlines(pre + [html] + post)
  {
    var rows := [sep] + body;
    var text := Unlines(pre + [header, sep] + body + post);
    Regroup(pre, header, sep, body, post);
    TableText(pre, header, rows, post);
    PipeFreeAround(pre, post);
    assert AllFramed(rows) by {
      AllFramedOf(rows);
    }
    SpliceTable(text, Before(pre), header, rows, After(post), html);
    UnlinesAround(pre, [html], post);
    assert Unlines([html]) == html;
  }

  /** End to end: a table whose header, separator and rows all start and end with a
      pipe, among lines without pipes, is replaced by its HTML, and the lines around it
      are kept. */
  lemma FramedTable(pre: seq<string>, header: string, sep: string, body: seq<string>, post: seq<string>)
    requires forall k | 0 <= k < |pre| :: '|' !in pre[k] && '\n' !in pre[k]
    requires Framed(header) && Framed(sep)
    requires forall k | 0 <= k < |body| :: Framed(body[k])
    requires forall k | 0 <= k < |post| :: '|' !in post[k] && '\n' !in post[k]
    ensures TablesPass(Unlines(pre + [header, sep] + body + post))
         == Unlines(pre + [TableHtml(header, body)] + post)
  {
    FramedTableLoop(pre, header, sep, body, post);
    FramedTableSplice(pre, header, sep, body, post, TableHtml(header, body));
  }

  // ---------------------------------------------------------------------------
  // Tables without outer pipes

  /** No pipe ends a line that has another line after it. */
  predicate NoFramedLineEnd(s: string) {
    forall k | 0 <= k < |s| - 1 :: !(s[k] == '|' && s[k + 1] == '\n')
  }

  /** No match starts anywhere when no pipe ends a line that has another line after it. */
  lemma NoBlockAt(s: string, i: nat)
    requires i <= |s|
    requires NoFramedLineEnd(s)
    ensures BlockAt(s, i).None?
  {
    if i < |s| && s[i] == '|' {
      var e := LineEnd(s, i);
      if e >= i + 2 && e < |s| && s[e - 1] == '|' {
        assert false;
      }
    }
  }

  /** Without such a line the splice copies the text through. */
  lemma {:induction false} NoSpliceFrom(s: string, i: nat, h: string)
    requires i <= |s|
    requires NoFramedLineEnd(s)
    ensures ReplaceFrom(s, i, h) == s[i..]
    decreases |s| - i
  {
    if i < |s| {
      NoBlockAt(s, i);
      NoSpliceFrom(s, i + 1, h);
      assert s[i..] == [s[i]] + s[i + 1..];
    }
  }

  lemma NoSpliceWithoutFramedLine(s: string, h: string)
    requires NoFramedLineEnd(s)
    ensures ReplaceBlocks(s, h) == s
  {
    NoSpliceFrom(s, 0, h);
    assert s[0..] == s;
  }

  /** A loop whose splices all leave the text alone leaves it alone. */
  lemma {:induction false} LoopKeepsText(lines: seq<string>, i: nat, inTable: bool, html: string, text: string)
    requires NoFramedLineEnd(text)
    ensures TableLoop(lines, i, inTable, html, text) == text
    decreases |lines| - i
  {
    if i >= |lines| {
      if inTable { NoSpliceWithoutFramedLine(text, html + TableClose); }
    } else if '|' in lines[i] && !inTable {
      LoopKeepsText(lines, i + 2, true, html + HeaderRow(lines[i]), text);
    } else if '|' in lines[i] {
      LoopKeepsText(lines, i + 1, true, html + BodyRow(lines[i]), text);
    } else if inTable {
      NoSpliceWithoutFramedLine(text, html + TableClose);
      LoopKeepsText(lines, i + 1, false, html + TableClose, text);
    } else {
      LoopKeepsText(lines, i + 1, false, html, text);
    }
  }

  /** Without a pipe right before a newline the loop over the lines returns the text. */
  lemma UnframedLoopKeepsText(text: string)
    ensures NoFramedLineEnd(text) ==>
      TableLoop(Lines(text), 0, false, TableOpen, text) == text
  {
    if NoFramedLineEnd(text) {
      LoopKeepsText(Lines(text), 0, false, TableOpen, text);
    }
  }
}
