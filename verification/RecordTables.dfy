/** RECORD as any other reader of comma-separated values sees it: a newline ends a line only
    outside quotes. */
module RecordTables {
  import opened Numerals
  import opened Options
  import opened Records
  import opened Texts

  // -- A reader after the standard -------------------------------------------------------

  predicate InPlainField(c: char) {
    c != ',' && c != '\n'
  }

  /** What follows the quote at the end of a quoted field. */
  function AfterQuoted(s: string): (rest: string)
    ensures |rest| <= |s|
  {
    if s == "" then ""
    else if s[0] != '"' then AfterQuoted(s[1..])
    else if |s| > 1 && s[1] == '"' then AfterQuoted(s[2..])
    else s[1..]
  }

  function ReadField(s: string): string {
    if s != "" && s[0] == '"' then Unquoted(s[1..]) else TakeWhile(s, InPlainField)
  }

  function AfterField(s: string): (rest: string)
    ensures |rest| <= |s|
  {
    if s != "" && s[0] == '"' then AfterQuoted(s[1..]) else DropWhile(s, InPlainField)
  }

  /** The fields up to the end of the line. */
  function ReadRow(s: string): seq<string>
    decreases |s|
  {
    var rest := AfterField(s);
    if rest != "" && rest[0] == ',' then [ReadField(s)] + ReadRow(rest[1..]) else [ReadField(s)]
  }

  function AfterRow(s: string): (rest: string)
    ensures |rest| <= |s| && (s != "" ==> |rest| < |s|)
    decreases |s|
  {
    var rest := AfterField(s);
    if rest == "" then ""
    else if rest[0] == ',' then AfterRow(rest[1..])
    else rest[1..]
  }

  function ReadTable(s: string): seq<seq<string>>
    decreases |s|
  {
    if s == "" then [] else [ReadRow(s)] + ReadTable(AfterRow(s))
  }

  // -- Reading what is written -----------------------------------------------------------

  lemma {:induction false} AfterDoubled(s: string, rest: string)
    requires rest == "" || rest[0] != '"'
    ensures AfterQuoted(Doubled(s) + "\"" + rest) == rest
  {
    var t := Doubled(s) + "\"" + rest;
    if s == "" {
      assert t == "\"" + rest && t[1..] == rest;
    } else {
      AfterDoubled(s[1..], rest);
      var tail := Doubled(s[1..]) + "\"" + rest;
      if s[0] == '"' {
        assert t == "\"\"" + tail && t[2..] == tail;
      } else {
        assert t == [s[0]] + tail && t[1..] == tail;
      }
    }
  }

  /** A comma or a newline follows. */
  predicate FieldEnds(rest: string) {
    rest != "" && (rest[0] == ',' || rest[0] == '\n')
  }

  /** A field is read back whatever is in it, newlines and quotes included. */
  lemma FieldRead(field: string, rest: string)
    requires FieldEnds(rest)
    ensures ReadField(CsvQuote(field) + rest) == field && AfterField(CsvQuote(field) + rest) == rest
  {
    var s := CsvQuote(field) + rest;
    if NeedsQuotes(field) {
      assert s[1..] == Doubled(field) + "\"" + rest;
      UnquotedDoubled(field, rest);
      AfterDoubled(field, rest);
    } else {
      PlainFieldRead(field, rest);
    }
  }

  lemma PlainFieldRead(field: string, rest: string)
    requires FieldEnds(rest) && ',' !in field && '"' !in field && '\n' !in field
    ensures ReadField(field + rest) == field && AfterField(field + rest) == rest
  {
    TakeWhileOf(field, rest, InPlainField);
    assert field != "" ==> field[0] in field;
  }

  /** A text that needs no quotes, as hashes and numbers do. */
  predicate IsPlain(s: string) {
    ',' !in s && '"' !in s && '\n' !in s
  }

  lemma PlainRead(field: string, rest: string)
    requires IsPlain(field) && FieldEnds(rest)
    ensures ReadField(field + rest) == field && AfterField(field + rest) == rest
  {
    PlainFieldRead(field, rest);
  }

  /** A line of three fields. */
  lemma RowRead(path: string, hash: string, size: string, rest: string)
    requires IsPlain(hash) && IsPlain(size)
    ensures var s := CsvQuote(path) + "," + hash + "," + size + "\n" + rest;
            ReadRow(s) == [path, hash, size] && AfterRow(s) == rest
  {
    hide ReadField, AfterField, CsvQuote, IsPlain;
    var third := size + ("\n" + rest);
    var second := hash + ("," + third);
    var s := CsvQuote(path) + ("," + second);
    assert CsvQuote(path) + "," + hash + "," + size + "\n" + rest == s;
    FieldRead(path, "," + second);
    PlainRead(hash, "," + third);
    PlainRead(size, "\n" + rest);
    assert ("," + second)[1..] == second && ("," + third)[1..] == third && ("\n" + rest)[1..] == rest;
    LastField(third, size, rest);
    NextField(second, hash, third);
    NextField(s, path, second);
    assert [path] + ([hash] + [size]) == [path, hash, size];
  }

  lemma NextField(s: string, field: string, rest: string)
    requires ReadField(s) == field && AfterField(s) == "," + rest
    ensures ReadRow(s) == [field] + ReadRow(rest) && AfterRow(s) == AfterRow(rest)
  {
    hide ReadField, AfterField;
    assert ("," + rest)[1..] == rest;
  }

  lemma LastField(s: string, field: string, rest: string)
    requires ReadField(s) == field && AfterField(s) == "\n" + rest
    ensures ReadRow(s) == [field] && AfterRow(s) == rest
  {
    hide ReadField, AfterField;
    assert ("\n" + rest)[1..] == rest;
  }

  function EntryRow(base: FilePath, e: RecordEntry): seq<string> {
    [RelativeTo(base, e.target), e.hash, Decimal(e.size)]
  }

  function Rows(base: FilePath, entries: seq<RecordEntry>): seq<seq<string>> {
    seq(|entries|, i requires 0 <= i < |entries| => EntryRow(base, entries[i]))
  }

  lemma DecimalPlain(n: nat)
    ensures IsPlain(Decimal(n))
  {
    hide Decimal;
    assert forall c :: c in Decimal(n) ==> IsDigit(c);
  }

  lemma TableUnfolds(s: string, row: seq<string>, rest: string)
    requires s != "" && ReadRow(s) == row && AfterRow(s) == rest
    ensures ReadTable(s) == [row] + ReadTable(rest)
  {
    hide ReadRow, AfterRow;
  }

  lemma EntryRead(base: FilePath, e: RecordEntry, rest: string)
    requires IsPlain(e.hash)
    ensures ReadTable(Line(base, e) + "\n" + rest) == [EntryRow(base, e)] + ReadTable(rest)
  {
    hide CsvQuote, ReadRow, AfterRow, ReadTable, RelativeTo, IsPlain, Decimal;
    var rel, size := RelativeTo(base, e.target), Decimal(e.size);
    DecimalPlain(e.size);
    RowRead(rel, e.hash, size, rest);
    assert Line(base, e) + "\n" + rest == CsvQuote(rel) + "," + e.hash + "," + size + "\n" + rest;
    TableUnfolds(Line(base, e) + "\n" + rest, EntryRow(base, e), rest);
  }

  lemma LastRead(base: FilePath, record: FilePath)
    ensures ReadTable(LastLine(base, record) + "\n" + "") == [[RelativeTo(base, record), "", ""]]
  {
    hide CsvQuote, ReadRow, AfterRow, RelativeTo;
    var rel := RelativeTo(base, record);
    RowRead(rel, "", "", "");
    assert LastLine(base, record) + "\n" + "" == CsvQuote(rel) + "," + "" + "," + "" + "\n" + "";
    TableUnfolds(LastLine(base, record) + "\n" + "", [rel, "", ""], "");
  }

  lemma EndedFirst(line: string, lines: seq<string>)
    ensures Ended([line] + lines) == line + "\n" + Ended(lines)
  {
    assert ([line] + lines)[1..] == lines;
  }

  lemma {:induction false} LinesRead(base: FilePath, entries: seq<RecordEntry>, record: FilePath)
    requires forall i :: 0 <= i < |entries| ==> IsPlain(entries[i].hash)
    ensures ReadTable(Ended(AllLines(base, entries, record)))
            == Rows(base, entries) + [[RelativeTo(base, record), "", ""]]
  {
    hide ReadTable, Line, LastLine, Ended, IsPlain, RelativeTo;
    var last := LastLine(base, record);
    if entries == [] {
      assert AllLines(base, entries, record) == [last] + [];
      EndedFirst(last, []);
      NoLines();
      LastRead(base, record);
      assert Rows(base, entries) + [[RelativeTo(base, record), "", ""]] == [[RelativeTo(base, record), "", ""]];
    } else {
      var more := AllLines(base, entries[1..], record);
      assert EntryLines(base, entries) == [Line(base, entries[0])] + EntryLines(base, entries[1..]);
      assert AllLines(base, entries, record) == [Line(base, entries[0])] + more;
      EndedFirst(Line(base, entries[0]), more);
      EntryRead(base, entries[0], Ended(more));
      LinesRead(base, entries[1..], record);
      assert Rows(base, entries) == [EntryRow(base, entries[0])] + Rows(base, entries[1..]);
    }
  }

  lemma NoLines()
    ensures Ended([]) == ""
  {
  }

  /** A reader after the standard finds path, hash and size of every file, and the manifest with
      neither, whatever the paths contain. */
  lemma StandardReadBack(base: FilePath, entries: seq<RecordEntry>, record: FilePath)
    requires forall i :: 0 <= i < |entries| ==> IsPlain(entries[i].hash)
    ensures var table := ReadTable(Ended(AllLines(base, entries, record)));
            && |table| == |entries| + 1
            && (forall i :: 0 <= i < |entries| ==>
                 table[i] == [RelativeTo(base, entries[i].target), entries[i].hash, Decimal(entries[i].size)])
            && table[|entries|] == [RelativeTo(base, record), "", ""]
  {
    hide ReadTable, Ended, AllLines, IsPlain, RelativeTo, Decimal;
    LinesRead(base, entries, record);
  }

  /** Without a hash there is nothing to reuse. */
  lemma NoHashNoDigest(path: string, size: string)
    requires ',' !in size && (size == "" || !EndsLine(size[|size| - 1]))
    ensures DigestOf(path + "," + "," + size) == None
  {
    hide FindLast, ParseNumber, TrimQuotes;
    var front := path + ",";
    var line := front + "," + size;
    assert line[|line| - 1] == if size == "" then ',' else size[|size| - 1];
    assert TrimLineEnd(line) == line;
    LastCommaAt(front, size);
    LastCommaAt(path, "");
    assert path + "," + "" == front;
    assert line[..|front|] == front && line[|path| + 1..|front|] == "";
  }
}
