/** The markdown building blocks of the documentation renderer: table rows
    `| a | b |`, and a titled table (a heading, a blank line, the column
    row, the rule row, the data rows and a closing blank line). */
module Markdown {
  import opened JsString
  import opened Seqs

  /** A table row: the cells between `| ` and ` |`, separated by ` | `. */
  function Row(cells: seq<string>): string {
    "| " + Join(cells, " | ") + " |"
  }

  function Table(heading: string, columns: string, rule: string, rows: seq<string>): seq<string> {
    [heading, "", columns, rule] + rows + [""]
  }

  predicate IsHeading(line: string) {
    |line| > 0 && line[0] == '#'
  }

  predicate IsTableLine(line: string) {
    |line| > 0 && line[0] == '|'
  }

  /** A line whose first piece does not open with `#` is no heading. */
  lemma PlainLine(a: string, b: string)
    requires |a| > 0 && a[0] != '#'
    ensures |a + b| > 0 && (a + b)[0] == a[0] && !IsHeading(a + b)
  {
  }

  lemma RowIsTableLine(cells: seq<string>)
    ensures IsTableLine(Row(cells))
  {
    assert Row(cells)[0] == "| "[0];
  }

  /** Rows of one table, in order. */
  function Rows(cellss: seq<seq<string>>): (rows: seq<string>)
    ensures |rows| == |cellss|
    ensures forall i :: 0 <= i < |cellss| ==> rows[i] == Row(cellss[i]) && IsTableLine(rows[i])
  {
    seq(|cellss|, i requires 0 <= i < |cellss| => RowIsTableLine(cellss[i]); Row(cellss[i]))
  }

  /** A table holds exactly one heading, its own, and its data rows sit
      right after the column and rule rows, in order. */
  lemma TableLayout(heading: string, columns: string, rule: string, rows: seq<string>)
    requires IsHeading(heading) && IsTableLine(columns) && IsTableLine(rule)
    requires forall i :: 0 <= i < |rows| ==> IsTableLine(rows[i])
    ensures Filter(Table(heading, columns, rule, rows), IsHeading) == [heading]
    ensures |Table(heading, columns, rule, rows)| == |rows| + 5
    ensures Table(heading, columns, rule, rows)[4..4 + |rows|] == rows
  {
    var t := Table(heading, columns, rule, rows);
    assert t == [heading] + ([""] + [columns, rule] + rows + [""]);
    var rest := [""] + [columns, rule] + rows + [""];
    forall i | 0 <= i < |rest|
      ensures !IsHeading(rest[i])
    {
      if 3 <= i < 3 + |rows| {
        assert rest[i] == rows[i - 3];
      }
    }
    FilterNone(rest, IsHeading);
    FilterAppend([heading], rest, IsHeading);
  }

  /** The headings of a run of blocks with one heading each are those
      headings, in block order. */
  lemma BlocksHeadings(blocks: seq<seq<string>>, headings: seq<string>)
    requires |blocks| == |headings|
    requires forall i :: 0 <= i < |blocks| ==> Filter(blocks[i], IsHeading) == [headings[i]]
    ensures Filter(Flatten(blocks), IsHeading) == headings
  {
    FilterFlattenSingles(blocks, IsHeading, headings);
  }
}
