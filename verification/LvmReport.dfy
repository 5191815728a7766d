// Parsing the reports of LVM: one row a line, LVM2_KEY='value' fields separated by spaces.
module LvmReport {
  import opened Lvm
  import opened LvmCommands
  import opened VgStatus

  /******* Go's string functions *******/

  /** The pieces between the separators; without a separator, the whole string. */
  function Split(s: string, sep: char): (r: seq<string>)
    ensures r != []
  {
    if s == [] then [[]]
    else
      var rest := Split(s[1..], sep);
      if s[0] == sep then [[]] + rest else [[s[0]] + rest[0]] + rest[1..]
  }

  predicate IsSpace(c: char) {
    c in {' ', '\t', '\n', '\r', '\U{0B}', '\U{0C}', '\U{85}',
          '\U{A0}', '\U{1680}', '\U{2028}', '\U{2029}', '\U{202F}', '\U{205F}', '\U{3000}'}
    || '\U{2000}' <= c <= '\U{200A}'
  }

  function TrimLeft(s: string, cut: char -> bool): string {
    if s != [] && cut(s[0]) then TrimLeft(s[1..], cut) else s
  }

  function TrimRight(s: string, cut: char -> bool): string {
    if s != [] && cut(s[|s| - 1]) then TrimRight(s[..|s| - 1], cut) else s
  }

  function Trim(s: string, cut: char -> bool): string { TrimRight(TrimLeft(s, cut), cut) }

  function Lower(c: char): char { if 'A' <= c <= 'Z' then c - 'A' + 'a' else c }

  function Upper(c: char): char { if 'a' <= c <= 'z' then c - 'a' + 'A' else c }

  predicate IsQuote(c: char) { c == '\'' }

  function Map(s: string, f: char -> char): (r: string)
    ensures |r| == |s| && forall i :: 0 <= i < |s| ==> r[i] == f(s[i])
  {
    seq(|s|, i requires 0 <= i < |s| => f(s[i]))
  }

  /******* The parser *******/

  /** One token into the row; None where the program would panic. */
  function AddToken(row: Row, token: string): Option<Row> {
    if token == [] then Some(row)
    else
      var kv := Split(token, '=');
      if |kv| < 2 || |kv[0]| < 5 then None
      else Some(row[Map(kv[0][5..], Lower) := Trim(kv[1], IsQuote)])
  }

  function AddTokens(row: Row, tokens: seq<string>): Option<Row> {
    if tokens == [] then Some(row)
    else
      var front := AddTokens(row, tokens[..|tokens| - 1]);
      if front.None? then None else AddToken(front.value, tokens[|tokens| - 1])
  }

  function LineRow(line: string): Option<Row> { AddTokens(map[], Split(Trim(line, IsSpace), ' ')) }

  function LineRows(lines: seq<string>): Option<seq<Row>> {
    if lines == [] then Some([])
    else
      var front, last := LineRows(lines[..|lines| - 1]), lines[|lines| - 1];
      if front.None? || last == [] then front
      else
        var row := LineRow(last);
        if row.None? then None else Some(front.value + [row.value])
  }

  method ParseOneLine(line: string) returns (row: Option<Row>)
    ensures row == LineRow(line)
  {
    var ret: Row := map[];
    var tokens := Split(Trim(line, IsSpace), ' ');
    for i := 0 to |tokens|
      invariant AddTokens(map[], tokens[..i]) == Some(ret)
    {
      assert tokens[..i + 1][..i] == tokens[..i];
      ghost var before := ret;
      if tokens[i] != [] {
        var kv := Split(tokens[i], '=');
        if |kv| < 2 || |kv[0]| < 5 {
          PanicStays(tokens, i + 1);
          return None;
        }
        ret := ret[Map(kv[0][5..], Lower) := Trim(kv[1], IsQuote)];
      }
      assert AddToken(before, tokens[i]) == Some(ret);
    }
    assert tokens[..|tokens|] == tokens;
    row := Some(ret);
  }

  lemma {:induction false} PanicStays(tokens: seq<string>, k: nat)
    requires k <= |tokens| && AddTokens(map[], tokens[..k]).None?
    ensures AddTokens(map[], tokens).None?
    decreases |tokens| - k
  {
    if k < |tokens| {
      assert tokens[..k + 1][..k] == tokens[..k];
      PanicStays(tokens, k + 1);
    } else {
      assert tokens[..k] == tokens;
    }
  }

  lemma {:induction false} PanicsStay(lines: seq<string>, k: nat)
    requires k <= |lines| && LineRows(lines[..k]).None?
    ensures LineRows(lines).None?
    decreases |lines| - k
  {
    if k < |lines| {
      assert lines[..k + 1][..k] == lines[..k];
      PanicsStay(lines, k + 1);
    } else {
      assert lines[..k] == lines;
    }
  }

  method ParseLines(output: string) returns (rows: Option<seq<Row>>)
    ensures rows == LineRows(Split(output, '\n'))
  {
    var ret := [];
    var lines := Split(output, '\n');
    for i := 0 to |lines|
      invariant LineRows(lines[..i]) == Some(ret)
    {
      assert lines[..i + 1][..i] == lines[..i];
      if lines[i] == [] { continue; }
      var info := ParseOneLine(lines[i]);
      if info.None? {
        PanicsStay(lines, i + 1);
        return None;
      }
      ret := ret + [info.value];
    }
    assert lines[..|lines|] == lines;
    rows := Some(ret);
  }

  /******* What LVM writes *******/

  function Join(parts: seq<string>, sep: char): string {
    if parts == [] then "" else if |parts| == 1 then parts[0] else parts[0] + [sep] + Join(parts[1..], sep)
  }

  /** Splitting undoes joining. */
  lemma {:induction false} SplitJoin(parts: seq<string>, sep: char)
    requires parts != [] && forall i :: 0 <= i < |parts| ==> sep !in parts[i]
    ensures Split(Join(parts, sep), sep) == parts
  {
    if |parts| == 1 {
      SplitWhole(parts[0], sep);
    } else {
      SplitJoin(parts[1..], sep);
      SplitFirst(parts[0], Join(parts[1..], sep), sep);
    }
  }

  lemma {:induction false} SplitWhole(s: string, sep: char)
    requires sep !in s
    ensures Split(s, sep) == [s]
  {
    if s != [] {
      SplitWhole(s[1..], sep);
      assert [s[0]] + s[1..] == s;
    }
  }

  lemma {:induction false} SplitFirst(s: string, rest: string, sep: char)
    requires sep !in s
    ensures Split(s + [sep] + rest, sep) == [s] + Split(rest, sep)
  {
    var all := s + [sep] + rest;
    if s == [] {
      assert all[1..] == rest;
    } else {
      SplitFirst(s[1..], rest, sep);
      assert all[1..] == s[1..] + [sep] + rest;
      assert [s[0]] + s[1..] == s;
    }
  }

  predicate Plain(s: string) { forall c :: c in s ==> c !in {' ', '=', '\'', '\n'} }

  /** A field name and value that the parser is meant for. */
  predicate FieldOk(k: string, v: string) {
    k != [] && Plain(k) && Plain(v) && forall c :: c in k ==> !('A' <= c <= 'Z')
  }

  function Field(k: string, v: string): string { "LVM2_" + Map(k, Upper) + "='" + v + "'" }

  lemma CaseRoundTrip(k: string)
    requires forall c :: c in k ==> !('A' <= c <= 'Z')
    ensures Map(Map(k, Upper), Lower) == k
  {
    forall i | 0 <= i < |k| ensures Lower(Upper(k[i])) == k[i] {
      assert k[i] in k;
    }
  }

  lemma Unquoted(v: string)
    requires '\'' !in v
    ensures Trim("'" + v + "'", IsQuote) == v
  {
    var q, half := "'" + v + "'", v + "'";
    assert q[1..] == half;
    if v == [] {
      assert half[1..] == [];
      assert TrimLeft(half, IsQuote) == [];
    } else {
      assert half[0] == v[0] && v[0] in v && v[|v| - 1] in v;
      assert TrimLeft(half, IsQuote) == half;
      assert half[..|v|] == v;
      assert TrimRight(v, IsQuote) == v;
    }
  }

  lemma NameIsPlain(k: string)
    requires Plain(k)
    ensures '=' !in "LVM2_" + Map(k, Upper) && ' ' !in "LVM2_" + Map(k, Upper) && '\n' !in "LVM2_" + Map(k, Upper)
  {
    forall i | 0 <= i < |k| ensures Upper(k[i]) !in {' ', '=', '\n'} {
      assert k[i] in k;
    }
  }

  lemma FieldSplits(k: string, v: string)
    requires FieldOk(k, v)
    ensures Split(Field(k, v), '=') == ["LVM2_" + Map(k, Upper), "'" + v + "'"]
    ensures ' ' !in Field(k, v) && '\n' !in Field(k, v)
  {
    var name, value := "LVM2_" + Map(k, Upper), "'" + v + "'";
    assert Field(k, v) == name + ['='] + value;
    NameIsPlain(k);
    SplitFirst(name, value, '=');
    SplitWhole(value, '=');
  }

  lemma FieldParses(row: Row, k: string, v: string)
    requires FieldOk(k, v)
    ensures AddToken(row, Field(k, v)) == Some(row[k := v])
  {
    FieldSplits(k, v);
    assert ("LVM2_" + Map(k, Upper))[5..] == Map(k, Upper);
    CaseRoundTrip(k);
    Unquoted(v);
  }

  /** One line: the fields of a row, in some order, with empty tokens for further spaces. */
  datatype Token = Gap | Named(k: string, v: string)

  function Text(t: Token): string { if t.Gap? then "" else Field(t.k, t.v) }

  function Texts(line: seq<Token>): (r: seq<string>)
    ensures |r| == |line| && forall i :: 0 <= i < |r| ==> r[i] == Text(line[i])
  {
    seq(|line|, i requires 0 <= i < |line| => Text(line[i]))
  }

  predicate LineOk(line: seq<Token>) { forall t :: t in line && t.Named? ==> FieldOk(t.k, t.v) }

  /** The row a line stands for; a later field overrides an earlier one of the same name. */
  function RowOf(line: seq<Token>): Row {
    if line == [] then map[]
    else
      var t := line[|line| - 1];
      if t.Gap? then RowOf(line[..|line| - 1]) else RowOf(line[..|line| - 1])[t.k := t.v]
  }

  /** The line lists the row: each of its fields once, and nothing else. */
  predicate Renders(line: seq<Token>, row: Row) {
    && (forall k :: k in row ==> Named(k, row[k]) in line)
    && (forall t :: t in line && t.Named? ==> t.k in row && row[t.k] == t.v)
  }

  lemma {:induction false} RenderedRow(line: seq<Token>, row: Row)
    requires forall t :: t in line && t.Named? ==> t.k in row && row[t.k] == t.v
    ensures forall k :: k in RowOf(line) <==> k in row && Named(k, row[k]) in line
    ensures forall k :: k in RowOf(line) ==> RowOf(line)[k] == row[k]
  {
    if line != [] {
      var front, t := line[..|line| - 1], line[|line| - 1];
      assert line == front + [t];
      assert t in line;
      RenderedRow(front, row);
    }
  }

  lemma {:induction false} TokensParse(line: seq<Token>)
    requires LineOk(line)
    ensures AddTokens(map[], Texts(line)) == Some(RowOf(line))
  {
    if line != [] {
      var front, t := line[..|line| - 1], line[|line| - 1];
      assert t in line;
      TokensParse(front);
      assert Texts(line)[..|line| - 1] == Texts(front);
      if t.Named? { FieldParses(RowOf(front), t.k, t.v); }
    }
  }

  /******* Whole lines *******/

  function LineText(line: seq<Token>): string { Join(Texts(line), ' ') }

  lemma {:induction false} JoinSnoc(parts: seq<string>, last: string, sep: char)
    requires parts != []
    ensures Join(parts + [last], sep) == Join(parts, sep) + [sep] + last
  {
    if |parts| > 1 {
      JoinSnoc(parts[1..], last, sep);
      assert (parts + [last])[1..] == parts[1..] + [last];
    } else {
      assert (parts + [last])[1..] == [last];
    }
  }

  /** Leading gaps do not change the row, and TrimSpace drops them. */
  function Lead(line: seq<Token>): seq<Token>
    requires line != []
  {
    if line[0].Gap? && |line| > 1 then Lead(line[1..]) else line
  }

  function Tail(line: seq<Token>): seq<Token>
    requires line != []
  {
    if line[|line| - 1].Gap? && |line| > 1 then Tail(line[..|line| - 1]) else line
  }

  lemma {:induction false} LeadTrims(line: seq<Token>)
    requires line != []
    ensures Lead(line) != [] && TrimLeft(LineText(line), IsSpace) == LineText(Lead(line))
    ensures forall t :: t in Lead(line) ==> t in line
    ensures forall t :: t in line && t.Named? ==> t in Lead(line)
  {
    if line[0].Gap? && |line| > 1 {
      LeadTrims(line[1..]);
      assert line == [line[0]] + line[1..];
      assert Texts(line)[1..] == Texts(line[1..]);
      assert LineText(line)[1..] == LineText(line[1..]);
    } else {
      assert line[0].Named? ==> LineText(line)[0] == 'L';
    }
  }

  lemma {:induction false} TailTrims(line: seq<Token>)
    requires line != []
    ensures Tail(line) != [] && TrimRight(LineText(line), IsSpace) == LineText(Tail(line))
    ensures forall t :: t in Tail(line) ==> t in line
    ensures forall t :: t in line && t.Named? ==> t in Tail(line)
  {
    var front, last := line[..|line| - 1], line[|line| - 1];
    assert line == front + [last];
    if |line| == 1 {
      assert last.Named? ==> LineText(line)[|LineText(line)| - 1] == '\'';
    } else {
      assert Texts(line) == Texts(front) + [Text(last)];
      JoinSnoc(Texts(front), Text(last), ' ');
      if last.Gap? {
        TailTrims(front);
        assert LineText(line) == LineText(front) + " ";
        assert LineText(line)[..|LineText(line)| - 1] == LineText(front);
      } else {
        assert LineText(line)[|LineText(line)| - 1] == '\'';
      }
    }
  }

  /** A line that shows a row parses to that row, whatever the order and spacing of its fields. */
  lemma LineParses(line: seq<Token>, row: Row)
    requires line != [] && LineOk(line) && Renders(line, row)
    ensures LineRow(LineText(line)) == Some(row)
  {
    LeadTrims(line);
    TailTrims(Lead(line));
    var core := Tail(Lead(line));
    assert Trim(LineText(line), IsSpace) == LineText(core);
    forall i | 0 <= i < |core| ensures ' ' !in Texts(core)[i] {
      assert core[i] in line;
      if core[i].Named? { FieldSplits(core[i].k, core[i].v); }
    }
    SplitJoin(Texts(core), ' ');
    TokensParse(core);
    RenderedRow(core, row);
    assert RowOf(core) == row;
  }

  lemma {:induction false} NoNewline(line: seq<Token>)
    requires line != [] && LineOk(line)
    ensures '\n' !in LineText(line)
  {
    if line[0].Named? {
      assert line[0] in line;
      FieldSplits(line[0].k, line[0].v);
    }
    if |line| > 1 {
      assert forall t :: t in line[1..] ==> t in line;
      NoNewline(line[1..]);
      assert Texts(line)[1..] == Texts(line[1..]);
    }
  }

  /** The lines show the rows in order; a lone gap is an empty line, which shows none. */
  predicate Shows(lines: seq<seq<Token>>, rows: seq<Row>) {
    if lines == [] then rows == []
    else
      var front, last := lines[..|lines| - 1], lines[|lines| - 1];
      && last != [] && LineOk(last)
      && if last == [Gap] then Shows(front, rows)
         else rows != [] && Renders(last, rows[|rows| - 1]) && Shows(front, rows[..|rows| - 1])
  }

  function LineTexts(lines: seq<seq<Token>>): (r: seq<string>)
    ensures |r| == |lines| && forall i :: 0 <= i < |r| ==> r[i] == LineText(lines[i])
  {
    seq(|lines|, i requires 0 <= i < |lines| => LineText(lines[i]))
  }

  lemma {:induction false} LinesOk(lines: seq<seq<Token>>, rows: seq<Row>)
    requires Shows(lines, rows)
    ensures forall i :: 0 <= i < |lines| ==> lines[i] != [] && LineOk(lines[i])
  {
    if lines != [] {
      var front, last := lines[..|lines| - 1], lines[|lines| - 1];
      LinesOk(front, if last == [Gap] then rows else rows[..|rows| - 1]);
      assert forall i :: 0 <= i < |front| ==> front[i] == lines[i];
    }
  }

  lemma RowsSnoc(lines: seq<string>, last: string, rows: seq<Row>)
    requires LineRows(lines) == Some(rows)
    ensures last == [] ==> LineRows(lines + [last]) == Some(rows)
    ensures last != [] && LineRow(last).Some? ==> LineRows(lines + [last]) == Some(rows + [LineRow(last).value])
  {
  }

  lemma LastLineParses(front: seq<seq<Token>>, last: seq<Token>, shown: seq<Row>)
    requires LineRows(LineTexts(front)) == Some(shown) && last != []
    ensures last == [Gap] ==> LineRows(LineTexts(front + [last])) == Some(shown)
    ensures last != [Gap] && LineRow(LineText(last)).Some? ==>
        LineRows(LineTexts(front + [last])) == Some(shown + [LineRow(LineText(last)).value])
  {
    assert LineTexts(front + [last]) == LineTexts(front) + [LineText(last)];
    RowsSnoc(LineTexts(front), LineText(last), shown);
    if last != [Gap] { TextNotEmpty(last); }
  }

  lemma {:induction false} LinesParse(lines: seq<seq<Token>>, rows: seq<Row>)
    requires Shows(lines, rows)
    ensures LineRows(LineTexts(lines)) == Some(rows)
  {
    if lines != [] {
      var front, last := lines[..|lines| - 1], lines[|lines| - 1];
      assert lines == front + [last];
      if last == [Gap] {
        LinesParse(front, rows);
        LastLineParses(front, last, rows);
      } else {
        var shown, row := rows[..|rows| - 1], rows[|rows| - 1];
        LinesParse(front, shown);
        LineParses(last, row);
        LastLineParses(front, last, shown);
        assert rows == shown + [row];
      }
    }
  }

  lemma TextNotEmpty(line: seq<Token>)
    requires line != [] && line != [Gap]
    ensures LineText(line) != []
  {
  }

  /** What LVM writes for the rows. */
  function Output(lines: seq<seq<Token>>): string { Join(LineTexts(lines), '\n') }

  /** The parser inverts LVM's output format. */
  lemma ParsesBack(lines: seq<seq<Token>>, rows: seq<Row>)
    requires Shows(lines, rows)
    ensures LineRows(Split(Output(lines), '\n')) == Some(rows)
  {
    LinesOk(lines, rows);
    LinesParse(lines, rows);
    forall i | 0 <= i < |lines| ensures '\n' !in LineTexts(lines)[i] {
      NoNewline(lines[i]);
    }
    if lines != [] { SplitJoin(LineTexts(lines), '\n'); }
  }

  /** Whether a report names a logical volume; None where the parser would panic. On what LVM
      writes for some rows it answers for those rows. */
  method HasLogicalVolume(output: string, ghost lines: seq<seq<Token>>, ghost rows: seq<Row>)
    returns (found: Option<bool>)
    ensures Shows(lines, rows) && output == Output(lines) ==>
        found == Some(exists i :: 0 <= i < |rows| && "lv_name" in rows[i] && rows[i]["lv_name"] != "")
  {
    var parsed := ParseLines(output);
    if parsed.None? {
      if Shows(lines, rows) && output == Output(lines) { ParsesBack(lines, rows); }
      return None;
    }
    var some := SomeLvName(parsed.value);
    if Shows(lines, rows) && output == Output(lines) { ParsesBack(lines, rows); }
    ColumnNamed(parsed.value, "lv_name");
    found := Some(some);
  }

  lemma ColumnNamed(rows: seq<Row>, field: string)
    ensures Column(rows, field) - {""} != {} <==>
              exists i :: 0 <= i < |rows| && field in rows[i] && rows[i][field] != ""
  {
    if i :| 0 <= i < |rows| && field in rows[i] && rows[i][field] != "" {
      assert rows[i][field] in Column(rows, field) - {""};
    }
    if v :| v in Column(rows, field) - {""} {
      var i :| 0 <= i < |rows| && field in rows[i] && rows[i][field] == v;
    }
  }
}
