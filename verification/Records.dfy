/** The RECORD manifest of an installed distribution: what the installer writes, the
    uninstaller reads back. */
module Records {
  import opened Numerals
  import opened Options
  import opened Texts

  /** An absolute, normalized path: the names of its components. */
  type FilePath = seq<string>

  predicate IsName(name: string) {
    name != "" && name != "." && name != ".." && '/' !in name
  }

  predicate IsPath(path: FilePath) {
    forall name :: name in path ==> IsName(name)
  }

  // -- Relative paths --------------------------------------------------------------------

  function CommonLength(base: FilePath, target: FilePath): (n: nat)
    ensures n <= |base| && n <= |target| && base[..n] == target[..n]
  {
    if base != [] && target != [] && base[0] == target[0] then 1 + CommonLength(base[1..], target[1..]) else 0
  }

  function Ups(n: nat): seq<string> {
    if n == 0 then [] else Ups(n - 1) + [".."]
  }

  /** Up to the common directory, then down. */
  function RelativeParts(base: FilePath, target: FilePath): seq<string> {
    var n := CommonLength(base, target);
    Ups(|base| - n) + target[n..]
  }

  function RelativeTo(base: FilePath, target: FilePath): string {
    Join(RelativeParts(base, target), "/")
  }

  method RelativePath(base: FilePath, target: FilePath) returns (rel: string)
    ensures rel == RelativeTo(base, target)
  {
    var i := 0;
    while i < |base| && i < |target| && base[i] == target[i]
      invariant i <= |base| && i <= |target|
      invariant CommonLength(base, target) == i + CommonLength(base[i..], target[i..])
    {
      assert base[i..][1..] == base[i + 1..] && target[i..][1..] == target[i + 1..];
      i := i + 1;
    }
    var parts: seq<string> := [];
    for k := i to |base|
      invariant parts == Ups(k - i)
    {
      parts := parts + [".."];
    }
    for k := i to |target|
      invariant parts == Ups(|base| - i) + target[i..k]
    {
      parts := parts + [target[k]];
    }
    assert target[i..|target|] == target[i..];
    rel := Join(parts, "/");
  }

  function Walked(path: FilePath, segments: seq<string>): FilePath
    decreases |segments|
  {
    if segments == [] then path
    else
      var name := segments[0];
      var next :=
        if name == "" || name == "." then path
        else if name == ".." then (if path == [] then path else path[..|path| - 1])
        else path + [name];
      Walked(next, segments[1..])
  }

  function Resolve(base: FilePath, rel: string): FilePath {
    Walked(base, Split(rel, '/'))
  }

  method ResolveRecordPath(base: FilePath, rel: string) returns (path: FilePath)
    ensures path == Resolve(base, rel)
  {
    path := base;
    var segments := Split(rel, '/');
    for i := 0 to |segments|
      invariant Walked(base, segments) == Walked(path, segments[i..])
    {
      assert segments[i..][1..] == segments[i + 1..];
      var name := segments[i];
      if name == "" || name == "." {
      } else if name == ".." {
        path := if path == [] then path else path[..|path| - 1];
      } else {
        path := path + [name];
      }
    }
  }

  lemma {:induction false} WalkedUp(path: FilePath, n: nat, rest: seq<string>)
    requires n <= |path|
    ensures Walked(path, Ups(n) + rest) == Walked(path[..|path| - n], rest)
  {
    if n == 0 {
      assert Ups(0) + rest == rest && path[..|path|] == path;
    } else {
      UpsFirst(n);
      assert (Ups(n) + rest)[1..] == Ups(n - 1) + rest;
      WalkedUp(path[..|path| - 1], n - 1, rest);
      assert path[..|path| - 1][..|path| - n] == path[..|path| - n];
    }
  }

  lemma {:induction false} UpsFirst(n: nat)
    requires n > 0
    ensures |Ups(n)| == n && Ups(n)[0] == ".." && Ups(n)[1..] == Ups(n - 1)
  {
    if n > 1 {
      UpsFirst(n - 1);
      assert Ups(n)[1..] == Ups(n - 1)[1..] + [".."];
    }
  }

  lemma {:induction false} WalkedDown(path: FilePath, names: FilePath)
    requires IsPath(names)
    ensures Walked(path, names) == path + names
    decreases |names|
  {
    if names != [] {
      assert IsName(names[0]);
      WalkedDown(path + [names[0]], names[1..]);
      assert path + [names[0]] + names[1..] == path + names;
    }
  }

  lemma PartsAreNames(base: FilePath, target: FilePath)
    requires IsPath(base) && IsPath(target)
    ensures forall part :: part in RelativeParts(base, target) ==> part != "" && '/' !in part
  {
    hide CommonLength, Ups;
    var n := CommonLength(base, target);
    UpsNames(|base| - n);
    assert forall part :: part in RelativeParts(base, target) ==> part in Ups(|base| - n) || part in target;
  }

  lemma NoParts(base: FilePath, target: FilePath)
    ensures RelativeParts(base, target) == [] <==> base == target
  {
    var n := CommonLength(base, target);
    CommonOfSame(base);
    UpsNames(|base| - n);
    if RelativeParts(base, target) == [] {
      assert |Ups(|base| - n)| == 0 && |target[n..]| == 0;
      assert base[..n] == base && target[..n] == target;
    }
  }

  lemma PartsWalked(base: FilePath, target: FilePath)
    requires IsPath(base) && IsPath(target)
    ensures Walked(base, RelativeParts(base, target)) == target
  {
    hide CommonLength, Walked;
    var n := CommonLength(base, target);
    WalkedUp(base, |base| - n, target[n..]);
    assert IsPath(target[n..]);
    WalkedDown(base[..n], target[n..]);
    assert base[..n] + target[n..] == target;
  }

  /** Resolving a relative path against its base gives the target back. */
  lemma RelativeResolves(base: FilePath, target: FilePath)
    requires IsPath(base) && IsPath(target)
    ensures Resolve(base, RelativeTo(base, target)) == target
    ensures RelativeTo(base, target) == "" <==> base == target
  {
    hide Walked, CommonLength, RelativeParts;
    PartsAreNames(base, target);
    NoParts(base, target);
    PartsWalked(base, target);
    var parts := RelativeParts(base, target);
    if parts == [] {
      NothingWalked(base);
    } else {
      SplitOfJoin(parts, '/');
      assert parts[0] in parts;
      JoinNotEmpty(parts);
    }
  }

  lemma NothingWalked(base: FilePath)
    ensures Resolve(base, "") == base
  {
    assert Walked(base, [""]) == Walked(base, []);
  }

  lemma {:induction false} CommonOfSame(path: FilePath)
    ensures CommonLength(path, path) == |path|
  {
    if path != [] {
      CommonOfSame(path[1..]);
    }
  }

  lemma {:induction false} UpsNames(n: nat)
    ensures |Ups(n)| == n && forall part :: part in Ups(n) ==> part == ".."
  {
    if n > 0 {
      UpsNames(n - 1);
    }
  }

  lemma JoinNotEmpty(parts: seq<string>)
    requires parts != [] && parts[0] != ""
    ensures Join(parts, "/") != ""
  {
  }

  // -- Quoting ---------------------------------------------------------------------------

  function Doubled(s: string): string {
    if s == "" then "" else (if s[0] == '"' then "\"\"" else [s[0]]) + Doubled(s[1..])
  }

  predicate NeedsQuotes(s: string) {
    ',' in s || '"' in s || '\n' in s
  }

  function CsvQuote(s: string): string {
    if NeedsQuotes(s) then "\"" + Doubled(s) + "\"" else s
  }

  /** The field up to its closing quote; a doubled quote stands for itself. */
  function Unquoted(s: string): string {
    if s == "" then ""
    else if s[0] != '"' then [s[0]] + Unquoted(s[1..])
    else if |s| > 1 && s[1] == '"' then "\"" + Unquoted(s[2..])
    else ""
  }

  predicate NotComma(c: char) {
    c != ','
  }

  function TrimLineEnd(line: string): string {
    if line != "" && (line[|line| - 1] == '\r' || line[|line| - 1] == '\n') then TrimLineEnd(line[..|line| - 1])
        else line
  }

  function ParseRecordPath(line: string): string {
    var s := TrimLineEnd(line);
    if s == "" then ""
    else if s[0] == '"' then Unquoted(s[1..])
    else TakeWhile(s, NotComma)
  }

  method ReadRecordPath(line: string) returns (path: string)
    ensures path == ParseRecordPath(line)
  {
    var s := TrimLineEnd(line);
    if s == "" {
      return "";
    }
    if s[0] != '"' {
      return TakeWhile(s, NotComma);
    }
    path := "";
    var i := 1;
    while i < |s|
      invariant 1 <= i <= |s|
      invariant Unquoted(s[1..]) == path + Unquoted(s[i..])
    {
      if s[i] != '"' {
        assert s[i..][1..] == s[i + 1..];
        path := path + [s[i]];
        i := i + 1;
      } else if i + 1 < |s| && s[i + 1] == '"' {
        assert s[i..][2..] == s[i + 2..];
        path := path + "\"";
        i := i + 2;
      } else {
        assert Unquoted(s[i..]) == "";
        return;
      }
    }
    assert s[i..] == "";
  }

  lemma {:induction false} UnquotedDoubled(s: string, rest: string)
    requires rest == "" || rest[0] != '"'
    ensures Unquoted(Doubled(s) + "\"" + rest) == s
  {
    var t := Doubled(s) + "\"" + rest;
    if s == "" {
      assert t == "\"" + rest;
    } else {
      UnquotedDoubled(s[1..], rest);
      var tail := Doubled(s[1..]) + "\"" + rest;
      if s[0] == '"' {
        assert t == "\"\"" + tail && t[2..] == tail;
      } else {
        assert t == [s[0]] + tail && t[1..] == tail;
      }
      assert [s[0]] + s[1..] == s;
    }
  }

  predicate EndsLine(c: char) {
    c == '\r' || c == '\n'
  }

  /** The first field of a written line is read back as it was, whatever follows the comma. */
  lemma FieldReadBack(rel: string, fields: string)
    requires fields != "" && fields[0] == ',' && !EndsLine(fields[|fields| - 1])
    ensures ParseRecordPath(CsvQuote(rel) + fields) == rel
  {
    var line := CsvQuote(rel) + fields;
    assert line[|line| - 1] == fields[|fields| - 1];
    assert TrimLineEnd(line) == line;
    if NeedsQuotes(rel) {
      QuotedReadBack(rel, fields);
    } else {
      PlainReadBack(rel, fields);
    }
  }

  lemma QuotedReadBack(rel: string, fields: string)
    requires fields != "" && fields[0] == ','
    ensures var line := "\"" + Doubled(rel) + "\"" + fields; line[0] == '"' && Unquoted(line[1..]) == rel
  {
    var line := "\"" + Doubled(rel) + "\"" + fields;
    assert line[1..] == Doubled(rel) + "\"" + fields;
    UnquotedDoubled(rel, fields);
  }

  lemma PlainReadBack(rel: string, fields: string)
    requires !NeedsQuotes(rel) && fields != "" && fields[0] == ','
    ensures (rel + fields)[0] != '"' && TakeWhile(rel + fields, NotComma) == rel
  {
    assert forall c :: c in rel ==> NotComma(c);
    TakeWhileOf(rel, fields, NotComma);
    assert rel != "" ==> rel[0] in rel;
  }

  // -- Digests for reuse -----------------------------------------------------------------

  predicate IsQuoteMark(c: char) {
    c == '"'
  }

  function TrimQuotesEnd(s: string): string {
    if s != "" && s[|s| - 1] == '"' then TrimQuotesEnd(s[..|s| - 1]) else s
  }

  function TrimQuotes(s: string): string {
    TrimQuotesEnd(DropWhile(s, IsQuoteMark))
  }

  /** The path, hash and size of a line, split off from the right; nothing without hash or size. */
  function DigestOf(line0: string): Option<(string, string, nat)> {
    var line := TrimLineEnd(line0);
    match FindLast(line, ",")
    case None => None
    case Some(i) =>
      var size := line[i + 1..];
      match FindLast(line[..i], ",")
      case None => None
      case Some(j) =>
        var hash := line[j + 1..i];
        if hash == "" || size == "" then None
        else
          match ParseNumber(size, MAX_U64)
          case None => None
          case Some(n) => Some((TrimQuotes(line[..j]), hash, n))
  }

  lemma LastCommaAt(front: string, rest: string)
    requires ',' !in rest
    ensures FindLast(front + "," + rest, ",") == Some(|front|)
  {
    FoundLast(front, ",", rest);
  }

  lemma FieldsSplit(path: string, hash: string, size: string)
    requires ',' !in hash && ',' !in size && size != "" && !EndsLine(size[|size| - 1]) && hash != ""
    ensures DigestOf(path + "," + hash + "," + size) ==
            match ParseNumber(size, MAX_U64)
            case None => None
            case Some(n) => Some((TrimQuotes(path), hash, n))
  {
    hide FindLast, ParseNumber, TrimQuotes;
    var front := path + "," + hash;
    var line := front + "," + size;
    assert TrimLineEnd(line) == line;
    LastCommaAt(front, size);
    LastCommaAt(path, hash);
    assert line[..|front|] == front && line[|front| + 1..] == size;
    assert line[..|path|] == path && line[|path| + 1..|front|] == hash;
  }

  lemma {:induction false} TrimQuotesEndClean(s: string)
    ensures TrimQuotesEnd(s) != "" ==> TrimQuotesEnd(s)[|TrimQuotesEnd(s)| - 1] != '"'
    ensures '"' !in s ==> TrimQuotesEnd(s) == s && TrimQuotesEnd(s + "\"") == s
    ensures |TrimQuotesEnd(s)| <= |s| && TrimQuotesEnd(s) == s[..|TrimQuotesEnd(s)|]
  {
    assert (s + "\"")[..|s|] == s;
    if s != "" && s[|s| - 1] == '"' {
      TrimQuotesEndClean(s[..|s| - 1]);
    }
  }

  lemma QuotesTrimmed(s: string)
    requires '"' !in s
    ensures TrimQuotes(s) == s && TrimQuotes("\"" + s + "\"") == s
  {
    TrimQuotesEndClean(s);
    if s != "" {
      assert s[0] in s;
    }
    TakeWhileOf("", s, IsQuoteMark);
    assert "" + s == s;
    if s == "" {
      TakeWhileOf("\"\"", "", IsQuoteMark);
      assert "\"" + s + "\"" == "\"\"" + "";
    } else {
      TakeWhileOf("\"", s + "\"", IsQuoteMark);
      assert "\"" + s + "\"" == "\"" + (s + "\"");
    }
  }

  lemma {:induction false} DoubledLonger(s: string)
    ensures |Doubled(s)| >= |s| && ('"' in s ==> |Doubled(s)| > |s|) && ('"' !in s ==> Doubled(s) == s)
  {
    if s != "" {
      DoubledLonger(s[1..]);
      assert s == [s[0]] + s[1..];
    }
  }

  lemma TrimQuotesEnds(s: string)
    ensures var t := TrimQuotes(s); t != "" ==> t[0] != '"' && t[|t| - 1] != '"'
  {
    TrimQuotesEndClean(DropWhile(s, IsQuoteMark));
  }

  lemma {:induction false} DoubledEnds(s: string)
    requires s != "" && s[|s| - 1] != '"'
    ensures Doubled(s) != "" && Doubled(s)[|Doubled(s)| - 1] == s[|s| - 1]
  {
    if |s| > 1 {
      DoubledEnds(s[1..]);
    } else {
      assert s[1..] == "";
    }
  }

  lemma OuterQuotesTrimmed(d: string)
    requires d != "" && d[0] != '"' && d[|d| - 1] != '"'
    ensures TrimQuotes("\"" + d + "\"") == d
  {
    TakeWhileOf("\"", d + "\"", IsQuoteMark);
    assert "\"" + d + "\"" == "\"" + (d + "\"");
    var t := d + "\"";
    assert t[..|d|] == d && t[|t| - 1] == '"';
    assert TrimQuotesEnd(d) == d && TrimQuotesEnd(t) == TrimQuotesEnd(d);
  }

  lemma QuotedPathDiffers(rel: string)
    requires '"' in rel
    ensures TrimQuotes(CsvQuote(rel)) != rel
  {
    hide TrimQuotes;
    assert NeedsQuotes(rel) && CsvQuote(rel) == "\"" + Doubled(rel) + "\"";
    TrimQuotesEnds(CsvQuote(rel));
    DoubledLonger(rel);
    if rel[0] != '"' && rel[|rel| - 1] != '"' {
      DoubledEnds(rel);
      assert Doubled(rel)[0] == rel[0];
      OuterQuotesTrimmed(Doubled(rel));
    }
  }

  /** The digest of a written line is read back, and its path if and only if that has no quotes. */
  lemma DigestReadBack(rel: string, e: RecordEntry)
    requires ',' !in e.hash && e.hash != "" && e.size <= MAX_U64
    ensures var d := DigestOf(CsvQuote(rel) + Fields(e));
            && d.Some? && d.value.1 == e.hash && d.value.2 == e.size
            && (d.value.0 == rel <==> '"' !in rel)
  {
    hide DigestOf, ParseNumber;
    var size := Decimal(e.size);
    assert size[|size| - 1] in size;
    NumberOfDecimal(e.size, MAX_U64);
    assert CsvQuote(rel) + Fields(e) == CsvQuote(rel) + "," + e.hash + "," + size;
    FieldsSplit(CsvQuote(rel), e.hash, size);
    if '"' !in rel {
      QuotesTrimmed(rel);
      DoubledLonger(rel);
    } else {
      QuotedPathDiffers(rel);
    }
  }

  // -- The file --------------------------------------------------------------------------

  datatype RecordEntry = RecordEntry(target: FilePath, hash: string, size: nat)

  function Fields(e: RecordEntry): string {
    "," + e.hash + "," + Decimal(e.size)
  }

  function Line(base: FilePath, e: RecordEntry): string {
    CsvQuote(RelativeTo(base, e.target)) + Fields(e)
  }

  /** The manifest lists itself, without hash and size. */
  function LastLine(base: FilePath, record: FilePath): string {
    CsvQuote(RelativeTo(base, record)) + ",,"
  }

  function EntryLines(base: FilePath, entries: seq<RecordEntry>): seq<string> {
    seq(|entries|, i requires 0 <= i < |entries| => Line(base, entries[i]))
  }

  function AllLines(base: FilePath, entries: seq<RecordEntry>, record: FilePath): seq<string> {
    EntryLines(base, entries) + [LastLine(base, record)]
  }

  function Ended(lines: seq<string>): string {
    if lines == [] then "" else lines[0] + "\n" + Ended(lines[1..])
  }

  function AllTargets(entries: seq<RecordEntry>, record: FilePath): seq<FilePath> {
    seq(|entries|, i requires 0 <= i < |entries| => entries[i].target) + [record]
  }

  method WriteRecord(base: FilePath, entries: seq<RecordEntry>, record: FilePath) returns (content: string)
    ensures content == Ended(AllLines(base, entries, record))
  {
    hide Line, Ended, LastLine;
    content := "";
    NothingEnded(base, entries);
    for i := 0 to |entries|
      invariant content == Ended(EntryLines(base, entries[..i]))
    {
      EntryLinesMore(base, entries, i);
      EndedMore(EntryLines(base, entries[..i]), Line(base, entries[i]));
      content := content + (Line(base, entries[i]) + "\n");
    }
    assert entries[..|entries|] == entries;
    EndedMore(EntryLines(base, entries), LastLine(base, record));
    content := content + (LastLine(base, record) + "\n");
  }

  lemma NothingEnded(base: FilePath, entries: seq<RecordEntry>)
    ensures Ended(EntryLines(base, entries[..0])) == ""
  {
  }

  lemma EntryLinesMore(base: FilePath, entries: seq<RecordEntry>, i: nat)
    requires i < |entries|
    ensures EntryLines(base, entries[..i + 1]) == EntryLines(base, entries[..i]) + [Line(base, entries[i])]
  {
    hide Line;
    assert forall k :: 0 <= k < i ==> entries[..i + 1][k] == entries[..i][k];
  }

  lemma {:induction false} EndedMore(lines: seq<string>, line: string)
    ensures Ended(lines + [line]) == Ended(lines) + (line + "\n")
  {
    if lines == [] {
      assert lines + [line] == [line];
      assert Ended([line]) == line + "\n" + Ended([]);
    } else {
      assert (lines + [line])[1..] == lines[1..] + [line];
      EndedMore(lines[1..], line);
      assert lines[0] + "\n" + (Ended(lines[1..]) + (line + "\n"))
          == (lines[0] + "\n" + Ended(lines[1..])) + (line + "\n");
    }
  }

  /** A line end is a newline, with an optional carriage return in front. */
  function WithoutReturn(line: string): string {
    if line != "" && line[|line| - 1] == '\r' then line[..|line| - 1] else line
  }

  /** The last part is a line only if it is not empty, and no line end was taken off it. */
  function Lines(content: string): seq<string> {
    var parts := Split(content, '\n');
    var last := |parts| - 1;
    seq(last, i requires 0 <= i < last => WithoutReturn(parts[i])) + (if parts[last] == "" then [] else [parts[last]])
  }

  /** The paths found in the lines, without those of empty fields. */
  function ReadPaths(base: FilePath, lines: seq<string>): seq<FilePath> {
    if lines == [] then []
    else
      var rel := ParseRecordPath(lines[0]);
      (if rel == "" then [] else [Resolve(base, rel)]) + ReadPaths(base, lines[1..])
  }

  method ReadRecord(base: FilePath, content: string) returns (paths: seq<FilePath>)
    ensures paths == ReadPaths(base, Lines(content))
  {
    hide Lines, ParseRecordPath, Resolve, ReadPaths;
    var lines := Lines(content);
    paths := [];
    for i := 0 to |lines|
      invariant ReadPaths(base, lines) == paths + ReadPaths(base, lines[i..])
    {
      ReadPathsFrom(base, lines, i);
      var rel := ReadRecordPath(lines[i]);
      if rel != "" {
        var path := ResolveRecordPath(base, rel);
        paths := paths + [path];
      }
    }
    NothingRead(base, lines);
  }

  lemma ReadPathsFrom(base: FilePath, lines: seq<string>, i: nat)
    requires i < |lines|
    ensures var rel := ParseRecordPath(lines[i]);
            ReadPaths(base, lines[i..])
            == (if rel == "" then [] else [Resolve(base, rel)]) + ReadPaths(base, lines[i + 1..])
  {
    assert lines[i..][1..] == lines[i + 1..];
  }

  lemma NothingRead(base: FilePath, lines: seq<string>)
    ensures ReadPaths(base, lines[|lines|..]) == []
  {
  }

  // -- Lines -----------------------------------------------------------------------------

  lemma {:induction false} SplitEnded(lines: seq<string>)
    requires forall line :: line in lines ==> '\n' !in line
    ensures Split(Ended(lines), '\n') == lines + [""]
  {
    if lines != [] {
      assert lines[0] in lines;
      SplitFirst(lines[0], '\n', Ended(lines[1..]));
      SplitEnded(lines[1..]);
      assert lines == [lines[0]] + lines[1..];
    }
  }

  lemma LinesOfEnded(lines: seq<string>)
    requires forall line :: line in lines ==> '\n' !in line && WithoutReturn(line) == line
    ensures Lines(Ended(lines)) == lines
  {
    SplitEnded(lines);
    var parts := lines + [""];
    assert forall i :: 0 <= i < |lines| ==> parts[i] == lines[i] && lines[i] in lines;
    assert Lines(Ended(lines)) == lines;
  }

  lemma {:induction false} NewlinesDoubled(s: string)
    ensures '\n' in Doubled(s) <==> '\n' in s
  {
    if s != "" {
      NewlinesDoubled(s[1..]);
    }
  }

  /** A line contains a newline only through its path. */
  lemma FieldsKeepLine(rel: string, fields: string)
    requires fields != "" && '\n' !in fields && !EndsLine(fields[|fields| - 1])
    ensures '\n' in CsvQuote(rel) + fields <==> '\n' in rel
    ensures WithoutReturn(CsvQuote(rel) + fields) == CsvQuote(rel) + fields
  {
    NewlinesDoubled(rel);
  }

  lemma FieldsEnd(e: RecordEntry)
    requires '\n' !in e.hash
    ensures Fields(e) != "" && Fields(e)[0] == ',' && '\n' !in Fields(e) && !EndsLine(Fields(e)[|Fields(e)| - 1])
  {
    var d := Decimal(e.size);
    assert d[|d| - 1] in d;
    assert Fields(e)[|Fields(e)| - 1] == d[|d| - 1];
  }

  // -- Reading back what was written -----------------------------------------------------

  /** The path below the common directory, up to it and down again. */
  predicate OneLine(base: FilePath, target: FilePath) {
    '\n' !in RelativeTo(base, target)
  }

  predicate EntriesOk(entries: seq<RecordEntry>) {
    forall i :: 0 <= i < |entries| ==> IsPath(entries[i].target) && '\n' !in entries[i].hash
  }

  lemma LineKept(base: FilePath, target: FilePath, fields: string)
    requires fields != "" && fields[0] == ',' && '\n' !in fields && !EndsLine(fields[|fields| - 1])
    requires IsPath(base) && IsPath(target)
    ensures var line := CsvQuote(RelativeTo(base, target)) + fields;
            && ('\n' in line <==> !OneLine(base, target)) && WithoutReturn(line) == line
            && ParseRecordPath(line) == RelativeTo(base, target)
            && Resolve(base, ParseRecordPath(line)) == target && (ParseRecordPath(line) == "" <==> base == target)
  {
    FieldReadBack(RelativeTo(base, target), fields);
    FieldsKeepLine(RelativeTo(base, target), fields);
    RelativeResolves(base, target);
  }

  lemma AllLinesKept(base: FilePath, entries: seq<RecordEntry>, record: FilePath)
    requires IsPath(base) && IsPath(record) && EntriesOk(entries)
    ensures var lines, targets := AllLines(base, entries, record), AllTargets(entries, record);
            && |lines| == |targets|
            && forall i :: 0 <= i < |targets| ==>
              && ('\n' in lines[i] <==> !OneLine(base, targets[i])) && WithoutReturn(lines[i]) == lines[i]
              && Resolve(base, ParseRecordPath(lines[i])) == targets[i]
              && (ParseRecordPath(lines[i]) == "" <==> base == targets[i])
  {
    var lines, targets := AllLines(base, entries, record), AllTargets(entries, record);
    forall i | 0 <= i < |targets|
      ensures '\n' in lines[i] <==> !OneLine(base, targets[i])
      ensures WithoutReturn(lines[i]) == lines[i]
      ensures Resolve(base, ParseRecordPath(lines[i])) == targets[i]
      ensures ParseRecordPath(lines[i]) == "" <==> base == targets[i]
    {
      if i < |entries| {
        FieldsEnd(entries[i]);
        LineKept(base, entries[i].target, Fields(entries[i]));
      } else {
        LineKept(base, record, ",,");
      }
    }
  }

  lemma {:induction false} PathsRead(base: FilePath, lines: seq<string>, targets: seq<FilePath>)
    requires |lines| == |targets|
    requires forall i :: 0 <= i < |lines| ==>
             ParseRecordPath(lines[i]) != "" && Resolve(base, ParseRecordPath(lines[i])) == targets[i]
    ensures ReadPaths(base, lines) == targets
  {
    if lines != [] {
      PathsRead(base, lines[1..], targets[1..]);
      assert [targets[0]] + targets[1..] == targets;
    }
  }

  lemma {:induction false} BaseNotRead(base: FilePath, lines: seq<string>)
    requires forall i :: 0 <= i < |lines| ==>
             (ParseRecordPath(lines[i]) != "" ==> Resolve(base, ParseRecordPath(lines[i])) != base)
    ensures base !in ReadPaths(base, lines)
  {
    if lines != [] {
      BaseNotRead(base, lines[1..]);
    }
  }

  // No newline comes out of a line, so a path that contains one is not read back.

  lemma {:induction false} UnquotedLetters(s: string, c: char)
    requires c !in s && c != '"'
    ensures c !in Unquoted(s)
    decreases |s|
  {
    if s != "" {
      if s[0] != '"' {
        UnquotedLetters(s[1..], c);
      } else if |s| > 1 && s[1] == '"' {
        UnquotedLetters(s[2..], c);
      }
    }
  }

  lemma {:induction false} TrimmedLetters(line: string)
    ensures forall c :: c in TrimLineEnd(line) ==> c in line
  {
    if line != "" && EndsLine(line[|line| - 1]) {
      TrimmedLetters(line[..|line| - 1]);
    }
  }

  lemma ParsedHasNoNewline(line: string)
    requires '\n' !in line
    ensures '\n' !in ParseRecordPath(line)
  {
    TrimmedLetters(line);
    var s := TrimLineEnd(line);
    if s != "" && s[0] == '"' {
      assert forall c :: c in s[1..] ==> c in s;
      UnquotedLetters(s[1..], '\n');
    }
  }

  /** Whatever is walked to is a part of the start followed by names of the segments. */
  lemma {:induction false} WalkedFrom(base: FilePath, keep: nat, names: seq<string>,
                                      segments: seq<string>) returns (keep': nat, names': seq<string>)
    requires keep <= |base|
    ensures keep' <= keep && Walked(base[..keep] + names, segments) == base[..keep'] + names'
    ensures forall name :: name in names' ==> name in names || name in segments
    decreases |segments|
  {
    keep', names' := keep, names;
    if segments != [] {
      var name := segments[0];
      assert forall x :: x in segments[1..] ==> x in segments;
      if name == "" || name == "." {
        keep', names' := WalkedFrom(base, keep, names, segments[1..]);
      } else if name == ".." {
        if names != [] {
          assert (base[..keep] + names)[..keep + |names| - 1] == base[..keep] + names[..|names| - 1];
          keep', names' := WalkedFrom(base, keep, names[..|names| - 1], segments[1..]);
        } else if keep > 0 {
          assert (base[..keep] + names)[..keep - 1] == base[..keep - 1] + [];
          keep', names' := WalkedFrom(base, keep - 1, [], segments[1..]);
        } else {
          keep', names' := WalkedFrom(base, keep, names, segments[1..]);
        }
      } else {
        assert base[..keep] + names + [name] == base[..keep] + (names + [name]);
        keep', names' := WalkedFrom(base, keep, names + [name], segments[1..]);
      }
    }
  }

  lemma {:induction false} CommonIsLongest(base: FilePath, target: FilePath, n: nat)
    requires n <= |base| && n <= |target| && base[..n] == target[..n]
    ensures n <= CommonLength(base, target)
  {
    if n > 0 {
      assert base[0] == base[..n][0] && target[0] == target[..n][0];
      assert base[1..][..n - 1] == base[..n][1..] && target[1..][..n - 1] == target[..n][1..];
      CommonIsLongest(base[1..], target[1..], n - 1);
    }
  }

  lemma {:induction false} CharsOfSplit(s: string, separator: char)
    ensures forall part, c :: part in Split(s, separator) && c in part ==> c in s
  {
    if s != "" {
      CharsOfSplit(s[1..], separator);
    }
  }

  lemma ResolvedIsOneLine(base: FilePath, rel: string, target: FilePath)
    requires '\n' !in rel && Resolve(base, rel) == target
    ensures OneLine(base, target)
  {
    var segments := Split(rel, '/');
    CharsOfSplit(rel, '/');
    assert base[..|base|] + [] == base;
    var keep, names := WalkedFrom(base, |base|, [], segments);
    assert target == base[..keep] + names;
    assert target[..keep] == base[..keep];
    CommonIsLongest(base, target, keep);
    var n := CommonLength(base, target);
    UpsNames(|base| - n);
    assert target[n..] == names[n - keep..];
    assert forall part :: part in RelativeParts(base, target) ==> '\n' !in part;
    if !OneLine(base, target) {
      CharsOfJoin(RelativeParts(base, target), '/', '\n');
    }
  }

  lemma {:induction false} ReadIsOneLine(base: FilePath, lines: seq<string>, target: FilePath)
    requires target in ReadPaths(base, lines) && forall line :: line in lines ==> '\n' !in line
    ensures OneLine(base, target)
  {
    if target in ReadPaths(base, lines[1..]) {
      ReadIsOneLine(base, lines[1..], target);
    } else {
      assert lines[0] in lines;
      ParsedHasNoNewline(lines[0]);
      ResolvedIsOneLine(base, ParseRecordPath(lines[0]), target);
    }
  }

  lemma LinesHaveNoNewline(content: string)
    ensures forall line :: line in Lines(content) ==> '\n' !in line
  {
    var parts := Split(content, '\n');
    forall i | 0 <= i < |parts| ensures '\n' !in parts[i] && '\n' !in WithoutReturn(parts[i]) {
      assert parts[i] in parts;
    }
  }

  /** The uninstaller finds exactly the files that were installed if and only if no relative
      path contains a newline, and none of them is the base directory itself. */
  lemma RecordReadBack(base: FilePath, entries: seq<RecordEntry>, record: FilePath)
    requires IsPath(base) && IsPath(record) && EntriesOk(entries)
    ensures ReadPaths(base, Lines(Ended(AllLines(base, entries, record)))) == AllTargets(entries, record) <==>
            forall i :: 0 <= i <= |entries| ==>
              OneLine(base, AllTargets(entries, record)[i]) && AllTargets(entries, record)[i] != base
  {
    hide AllLines, ReadPaths, Lines, Ended, ParseRecordPath, Resolve, OneLine, EntriesOk, WithoutReturn, IsPath;
    var lines, targets := AllLines(base, entries, record), AllTargets(entries, record);
    AllLinesKept(base, entries, record);
    if ReadPaths(base, Lines(Ended(lines))) == targets {
      ReadAreOneLine(base, lines, targets);
    }
    if forall i :: 0 <= i < |targets| ==> OneLine(base, targets[i]) {
      LinesReadBack(lines);
      if forall i :: 0 <= i < |targets| ==> targets[i] != base {
        PathsRead(base, lines, targets);
      } else {
        BaseNotRead(base, lines);
      }
    }
  }

  lemma LinesReadBack(lines: seq<string>)
    requires forall i :: 0 <= i < |lines| ==> '\n' !in lines[i] && WithoutReturn(lines[i]) == lines[i]
    ensures Lines(Ended(lines)) == lines
  {
    assert forall line :: line in lines ==> '\n' !in line && WithoutReturn(line) == line;
    LinesOfEnded(lines);
  }

  lemma ReadAreOneLine(base: FilePath, lines: seq<string>, targets: seq<FilePath>)
    requires ReadPaths(base, Lines(Ended(lines))) == targets
    ensures forall i :: 0 <= i < |targets| ==> OneLine(base, targets[i])
  {
    hide ReadPaths, Lines, Ended, OneLine;
    LinesHaveNoNewline(Ended(lines));
    forall i | 0 <= i < |targets| ensures OneLine(base, targets[i]) {
      assert targets[i] in targets;
      ReadIsOneLine(base, Lines(Ended(lines)), targets[i]);
    }
  }
}
