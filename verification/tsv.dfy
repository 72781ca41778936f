/**
  `parseTsv` of the derivation script: a tab-separated table whose first
  non-blank line names the columns becomes one record per further
  non-blank line. The file system is replaced by the file's contents, with
  `None` for a file that does not exist.
 */
module Tsv {
  import opened Wrappers
  import opened Text

  /**
    A parsed row: a JavaScript object from trimmed column names to the
    row's fields. A column the row is too short for is present with value
    `None` (the script stores `undefined` under it).
   */
  type Record = map<string, Option<string>>

  /** The value of property `key`, `None` when the record lacks it or holds `undefined`. */
  function Field(rec: Record, key: string): Option<string> {
    if key in rec then rec[key] else None
  }

  /** `cols[i]`, which is `undefined` past the end of the row. */
  function Cell(cols: seq<string>, i: nat): Option<string> {
    if i < |cols| then Some(cols[i]) else None
  }

  /** The trimmed column names, in column order. */
  function Names(header: seq<string>): (r: seq<string>)
    ensures |r| == |header|
  {
    seq(|header|, i requires 0 <= i < |header| => Trim(header[i]))
  }

  /** No later column has the same name as column `i`. */
  predicate LastWithName(names: seq<string>, i: int)
    requires 0 <= i < |names|
  {
    forall j :: i < j < |names| ==> names[j] != names[i]
  }

  /**
    The object built by `header.forEach((h, i) => obj[h.trim()] = cols[i])`,
    given the trimmed names; its meaning is `BuildRecordMeaning`.
   */
  function BuildRecord(names: seq<string>, cols: seq<string>): Record
    decreases |names|
  {
    if |names| == 0 then map[]
    else
      var n := |names| - 1;
      BuildRecord(names[..n], cols)[names[n] := Cell(cols, n)]
  }

  /** One key per name, holding the field of the last column with that name. */
  lemma BuildRecordMeaning(names: seq<string>, cols: seq<string>)
    ensures forall key :: key in BuildRecord(names, cols) <==> key in names
    ensures forall i :: 0 <= i < |names| && LastWithName(names, i) ==> BuildRecord(names, cols)[names[i]] == Cell(cols, i)
  {
    BuildRecordKeys(names, cols);
    BuildRecordValues(names, cols);
  }

  /** The keys of the record are exactly the names. */
  lemma {:induction false} BuildRecordKeys(names: seq<string>, cols: seq<string>)
    ensures forall key :: key in BuildRecord(names, cols) <==> key in names
    decreases |names|
  {
    if |names| > 0 {
      var n := |names| - 1;
      var before := names[..n];
      BuildRecordKeys(before, cols);
      var r := BuildRecord(names, cols);
      assert r == BuildRecord(before, cols)[names[n] := Cell(cols, n)];
      assert names == before + [names[n]];
      forall key ensures key in r <==> key in names {
        assert key in names <==> key in before || key == names[n];
      }
    }
  }

  /** The field of each name comes from the last column with that name. */
  lemma {:induction false} BuildRecordValues(names: seq<string>, cols: seq<string>)
    ensures forall i :: 0 <= i < |names| && LastWithName(names, i) ==> names[i] in BuildRecord(names, cols) && BuildRecord(names, cols)[names[i]] == Cell(cols, i)
    decreases |names|
  {
    if |names| > 0 {
      var n := |names| - 1;
      var before := names[..n];
      BuildRecordValues(before, cols);
      var r := BuildRecord(names, cols);
      assert r == BuildRecord(before, cols)[names[n] := Cell(cols, n)];
      forall i | 0 <= i < |names| && LastWithName(names, i) ensures names[i] in r && r[names[i]] == Cell(cols, i) {
        if i < n {
          assert names[i] != names[n];
          assert before[i] == names[i];
          assert LastWithName(before, i) by {
            forall j | i < j < n ensures before[j] != before[i] {
              assert names[j] != names[i];
            }
          }
        }
      }
    }
  }

  /**
    The script keeps a line when `l.trim().length > 0`; since trimming
    removes exactly the surrounding whitespace, that is when the line is
    not blank.
   */
  predicate Kept(line: string) {
    !IsBlank(line)
  }

  /** `Kept` is the script's test on the trimmed line. */
  lemma KeptMeaning(line: string)
    ensures Kept(line) <==> |Trim(line)| > 0
  {
  }

  /** The lines kept by `filter(l => l.trim().length > 0)`, in order. */
  function NonBlank(lines: seq<string>): (r: seq<string>)
    ensures |r| <= |lines|
    ensures forall l :: l in r <==> l in lines && Kept(l)
  {
    if |lines| == 0 then []
    else
      var rest := NonBlank(lines[1..]);
      assert forall l :: l in lines <==> l == lines[0] || l in lines[1..];
      if Kept(lines[0]) then [lines[0]] + rest else rest
  }

  /**
    The filter works piecewise: the lines kept from `a + b` are those kept
    from `a`, in order and with repetitions, followed by those kept from `b`.
   */
  lemma {:induction false} NonBlankConcat(a: seq<string>, b: seq<string>)
    ensures NonBlank(a + b) == NonBlank(a) + NonBlank(b)
    decreases |a|
  {
    if |a| == 0 {
      assert a + b == b;
    } else {
      assert (a + b)[0] == a[0];
      assert (a + b)[1..] == a[1..] + b;
      NonBlankConcat(a[1..], b);
    }
  }

  /** A single line is kept exactly when it is not blank. */
  lemma NonBlankOne(l: string)
    ensures NonBlank([l]) == if Kept(l) then [l] else []
  {
  }

  /** Filtering lines that are all kept changes nothing. */
  lemma {:induction false} NonBlankKeepsAll(lines: seq<string>)
    requires forall k :: 0 <= k < |lines| ==> Kept(lines[k])
    ensures NonBlank(lines) == lines
  {
    if |lines| > 0 {
      NonBlankKeepsAll(lines[1..]);
      assert lines == [lines[0]] + lines[1..];
    }
  }

  /** Filtering lines none of which is kept leaves nothing. */
  lemma {:induction false} NonBlankDropsAll(lines: seq<string>)
    requires forall k :: 0 <= k < |lines| ==> !Kept(lines[k])
    ensures NonBlank(lines) == []
  {
    if |lines| > 0 {
      NonBlankDropsAll(lines[1..]);
    }
  }

  /** The lines of a file's contents: every carriage return removed, split at line feeds, blank lines dropped. */
  function Lines(content: string): (r: seq<string>)
    ensures forall l :: l in r ==> '\n' !in l && '\r' !in l && Kept(l)
  {
    var text := RemoveAll(content, '\r');
    NoCharInPieces(text, '\n', '\r');
    NonBlank(Split(text, '\n'))
  }

  /**
    The lines of contents made of line-feed separated lines `ls` are the
    lines of `ls` that are not blank once their carriage returns are
    removed, in order. Every content has this form (`JoinSplit`), so this
    says which lines `Lines` keeps for any content.
   */
  lemma LinesOfJoin(ls: seq<string>)
    requires |ls| >= 1 && forall i :: 0 <= i < |ls| ==> '\n' !in ls[i]
    ensures Lines(Join(ls, '\n')) == NonBlank(RemoveAllEach(ls, '\r'))
  {
    var rs := RemoveAllEach(ls, '\r');
    RemoveAllJoin(ls, '\n', '\r');
    forall i | 0 <= i < |rs| ensures '\n' !in rs[i] {
      assert multiset(rs[i])['\n'] == multiset(ls[i])['\n'];
    }
    SplitJoin(rs, '\n');
  }

  /** The lines of any content: its line-feed separated pieces that are not blank once their carriage returns are removed. */
  lemma LinesOfContent(content: string)
    ensures Lines(content) == NonBlank(RemoveAllEach(Split(content, '\n'), '\r'))
  {
    JoinSplit(content, '\n');
    LinesOfJoin(Split(content, '\n'));
  }

  /** A character absent from a text is absent from each piece of it. */
  lemma NoCharInPieces(s: string, sep: char, c: char)
    requires c !in s
    ensures forall l :: l in Split(s, sep) ==> c !in l
  {
    JoinSplit(s, sep);
    var parts := Split(s, sep);
    forall k | 0 <= k < |parts| ensures c !in parts[k] {
      JoinContainsPart(parts, sep, k);
      assert multiset(s)[c] == 0;
    }
  }

  /** Every part of a join occurs in it. */
  lemma {:induction false} JoinContainsPart(parts: seq<string>, sep: char, k: int)
    requires 0 <= k < |parts|
    ensures multiset(parts[k]) <= multiset(Join(parts, sep))
    decreases |parts|
  {
    if |parts| > 1 && k > 0 {
      JoinContainsPart(parts[1..], sep, k - 1);
    }
  }

  /** One record per data line, keyed by the trimmed names of the header line's fields. */
  function DataRecords(header: seq<string>, data: seq<string>): (r: seq<Record>)
    ensures |r| == |data|
    ensures forall k :: 0 <= k < |data| ==> r[k] == BuildRecord(Names(header), Split(data[k], '\t'))
  {
    seq(|data|, k requires 0 <= k < |data| => BuildRecord(Names(header), Split(data[k], '\t')))
  }

  /** `parseTsv` over the file's contents, `None` standing for a missing file. */
  function ParseTsv(file: Option<string>): (r: seq<Record>)
    ensures file.None? ==> r == []
    ensures file.Some? ==> |r| == if |Lines(file.value)| == 0 then 0 else |Lines(file.value)| - 1
  {
    match file
    case None => []
    case Some(content) =>
      var lines := Lines(content);
      if |lines| == 0 then [] else DataRecords(Split(lines[0], '\t'), lines[1..])
  }

  /**
    Record `k` is built from the line after the header line: one key per
    trimmed column name of the header line, the last column with a name
    giving its field, `None` when the line has too few fields.
   */
  lemma ParsedRecord(content: string, k: int)
    requires 0 <= k < |ParseTsv(Some(content))|
    ensures var lines := Lines(content);
      var names := Names(Split(lines[0], '\t'));
      var rec := ParseTsv(Some(content))[k];
      && rec == BuildRecord(names, Split(lines[k + 1], '\t'))
      && (forall key :: key in rec <==> key in names)
      && (forall i :: 0 <= i < |names| && LastWithName(names, i) ==>
            rec[names[i]] == Cell(Split(lines[k + 1], '\t'), i))
  {
    var lines := Lines(content);
    BuildRecordMeaning(Names(Split(lines[0], '\t')), Split(lines[k + 1], '\t'));
  }

  /** No field of a parsed record holds a tab, a line feed or a carriage return. */
  lemma FieldsArePlain(file: Option<string>, k: int, key: string)
    requires 0 <= k < |ParseTsv(file)|
    requires key in ParseTsv(file)[k] && ParseTsv(file)[k][key].Some?
    ensures PlainCell(ParseTsv(file)[k][key].value)
  {
    var lines := Lines(file.value);
    ParsedRecord(file.value, k);
    assert lines[k + 1] in lines;
    RecordFieldsArePlain(Names(Split(lines[0], '\t')), lines[k + 1], key);
  }

  /** The fields of a record built from a line free of line breaks are plain. */
  lemma RecordFieldsArePlain(names: seq<string>, line: string, key: string)
    requires '\n' !in line && '\r' !in line
    requires key in BuildRecord(names, Split(line, '\t'))
    requires BuildRecord(names, Split(line, '\t'))[key].Some?
    ensures PlainCell(BuildRecord(names, Split(line, '\t'))[key].value)
  {
    var cols := Split(line, '\t');
    BuildRecordMeaning(names, cols);
    var i :| 0 <= i < |names| && names[i] == key;
    var last := LastIndexWithName(names, i);
    var v := BuildRecord(names, cols)[key].value;
    assert Cell(cols, last) == Some(v);
    assert v in cols;
    NoCharInPieces(line, '\t', '\n');
    NoCharInPieces(line, '\t', '\r');
  }

  /** The last column with the same name as column `i`. */
  lemma LastIndexWithName(names: seq<string>, i: int) returns (last: int)
    requires 0 <= i < |names|
    ensures i <= last < |names| && names[last] == names[i] && LastWithName(names, last)
    decreases |names| - i
  {
    if LastWithName(names, i) {
      last := i;
    } else {
      var j :| i < j < |names| && names[j] == names[i];
      last := LastIndexWithName(names, j);
    }
  }

  // ----- Writing a table back -----

  /** A field or column name the format can carry: no tab, line feed or carriage return. */
  predicate PlainCell(s: string) {
    '\t' !in s && '\n' !in s && '\r' !in s
  }

  /** A line of plain fields that is not blank. */
  predicate PlainRow(cols: seq<string>) {
    |cols| >= 1 && (forall i :: 0 <= i < |cols| ==> PlainCell(cols[i])) && Kept(Join(cols, '\t'))
  }

  /** The table as text: the header line, then one line per row, joined by line feeds. */
  function Render(header: seq<string>, rows: seq<seq<string>>): string
    requires PlainRow(header) && forall k :: 0 <= k < |rows| ==> PlainRow(rows[k])
  {
    Join(RenderedLines(header, rows), '\n')
  }

  /** The lines of `Render`. */
  function RenderedLines(header: seq<string>, rows: seq<seq<string>>): (r: seq<string>)
    requires PlainRow(header) && forall k :: 0 <= k < |rows| ==> PlainRow(rows[k])
    ensures |r| == |rows| + 1 && r[0] == Join(header, '\t')
    ensures forall k :: 0 <= k < |rows| ==> r[k + 1] == Join(rows[k], '\t')
  {
    [Join(header, '\t')] + seq(|rows|, k requires 0 <= k < |rows| => Join(rows[k], '\t'))
  }

  /** A character that is neither the separator nor in any part is not in the join. */
  lemma {:induction false} JoinAvoids(parts: seq<string>, sep: char, c: char)
    requires c != sep && forall i :: 0 <= i < |parts| ==> c !in parts[i]
    ensures c !in Join(parts, sep)
    decreases |parts|
  {
    if |parts| > 1 {
      JoinAvoids(parts[1..], sep, c);
    }
  }

  /** The rendered line of a plain row splits back into the row. */
  lemma RowRoundTrip(cols: seq<string>)
    requires PlainRow(cols)
    ensures '\n' !in Join(cols, '\t') && '\r' !in Join(cols, '\t')
    ensures Split(Join(cols, '\t'), '\t') == cols
  {
    JoinAvoids(cols, '\t', '\n');
    JoinAvoids(cols, '\t', '\r');
    SplitJoin(cols, '\t');
  }

  /** The lines the parser finds in a rendered table are the rendered lines. */
  lemma LinesOfRender(header: seq<string>, rows: seq<seq<string>>)
    requires PlainRow(header) && forall k :: 0 <= k < |rows| ==> PlainRow(rows[k])
    ensures Lines(Render(header, rows)) == RenderedLines(header, rows)
  {
    var lines := RenderedLines(header, rows);
    RowRoundTrip(header);
    assert forall i :: 0 <= i < |lines| ==> '\n' !in lines[i] && '\r' !in lines[i] && Kept(lines[i]) by {
      forall i | 0 <= i < |lines| ensures '\n' !in lines[i] && '\r' !in lines[i] && Kept(lines[i]) {
        if i > 0 {
          assert lines[i] == Join(rows[i - 1], '\t');
          RowRoundTrip(rows[i - 1]);
        }
      }
    }
    var content := Render(header, rows);
    JoinAvoids(lines, '\n', '\r');
    assert RemoveAll(content, '\r') == content;
    SplitJoin(lines, '\n');
    NonBlankKeepsAll(lines);
  }

  /**
    Parsing a rendered table gives back its rows: one record per row,
    each built from the row's fields under the header's column names.
   */
  lemma RenderRoundTrip(header: seq<string>, rows: seq<seq<string>>)
    requires PlainRow(header) && forall k :: 0 <= k < |rows| ==> PlainRow(rows[k])
    ensures |ParseTsv(Some(Render(header, rows)))| == |rows|
    ensures forall k :: 0 <= k < |rows| ==>
      ParseTsv(Some(Render(header, rows)))[k] == BuildRecord(Names(header), rows[k])
  {
    var lines := RenderedLines(header, rows);
    LinesOfRender(header, rows);
    RowRoundTrip(header);
    forall k | 0 <= k < |rows|
      ensures ParseTsv(Some(Render(header, rows)))[k] == BuildRecord(Names(header), rows[k])
    {
      RowRoundTrip(rows[k]);
      ParsedRecord(Render(header, rows), k);
    }
  }

  /** Contents with nothing but whitespace (the empty file included) give no records. */
  lemma BlankContentHasNoRecords(content: string)
    requires IsBlank(content)
    ensures Lines(content) == []
    ensures ParseTsv(Some(content)) == []
  {
    var text := RemoveAll(content, '\r');
    BlankKeepsBlank(content, text);
    BlankPieces(text, '\n');
    NonBlankDropsAll(Split(text, '\n'));
  }

  /** A string whose characters all occur in a blank string is blank. */
  lemma BlankKeepsBlank(s: string, t: string)
    requires IsBlank(s) && multiset(t) <= multiset(s)
    ensures IsBlank(t)
  {
    forall i | 0 <= i < |t| ensures IsWhitespace(t[i]) {
      assert t[i] in multiset(t);
      assert t[i] in s;
    }
  }

  /** Every piece of a blank string is blank. */
  lemma BlankPieces(s: string, sep: char)
    requires IsBlank(s)
    ensures forall k :: 0 <= k < |Split(s, sep)| ==> !Kept(Split(s, sep)[k])
  {
    var parts := Split(s, sep);
    JoinSplit(s, sep);
    forall k | 0 <= k < |parts| ensures IsBlank(parts[k]) {
      JoinContainsPart(parts, sep, k);
      BlankKeepsBlank(s, parts[k]);
    }
  }
}
