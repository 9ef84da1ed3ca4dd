/**
 * The file loaders: a CSV loader built on a quote-aware line parser, a
 * simplified MBOX loader, and the factory choosing a loader by file type.
 * Parsing a date string, reading the MBOX headers and the clock that
 * stamps the ids are parameters.
 */
module DataLoader {
  import opened Wrappers
  import opened Activities
  import opened Calendar
  import opened Text

  // ---------------------------------------------------------------------
  // Activity ids

  /**
   * The id a loader gives the activity from item `index`:
   * `${kind}-${Date.now()}-${index}`, with the clock reading `now` in milliseconds.
   */
  function LoadId(kind: string, now: nat, index: nat): (r: string)
    ensures |r| > |kind| + 1 && r[..|kind| + 1] == kind + "-"
  {
    var r := kind + "-" + NatToString(now) + "-" + NatToString(index);
    assert r == (kind + "-") + (NatToString(now) + "-" + NatToString(index));
    r
  }

  /** Two digit strings, each followed by a dash, cannot start the same text unless they are equal. */
  lemma DigitsDash(x: string, u: string, y: string, v: string)
    requires forall i :: 0 <= i < |x| ==> '0' <= x[i] <= '9'
    requires forall i :: 0 <= i < |y| ==> '0' <= y[i] <= '9'
    requires x + "-" + u == y + "-" + v
    ensures x == y && u == v
  {
    var l, r := x + "-" + u, y + "-" + v;
    assert l[|x|] == '-' && r[|y|] == '-';
    assert forall k :: 0 <= k < |x| ==> l[k] == x[k];
    assert forall k :: 0 <= k < |y| ==> r[k] == y[k];
    assert |x| == |y|;
    assert x == l[..|x|] && y == r[..|y|];
    assert u == l[|x| + 1..] && v == r[|y| + 1..];
  }

  /**
   * Ids of one kind differ whenever the item numbers differ, even when the
   * clock readings they carry differ.
   */
  lemma LoadIdInjective(kind: string, now1: nat, now2: nat, i: nat, j: nat)
    requires LoadId(kind, now1, i) == LoadId(kind, now2, j)
    ensures i == j && now1 == now2
  {
    LoadIdTail(kind, now1, i);
    LoadIdTail(kind, now2, j);
    DigitsDash(NatToString(now1), NatToString(i), NatToString(now2), NatToString(j));
    NatToStringInjective(i, j);
    NatToStringInjective(now1, now2);
  }

  /** What follows the kind and its dash in an id. */
  lemma LoadIdTail(kind: string, now: nat, index: nat)
    ensures LoadId(kind, now, index)[|kind| + 1..] == NatToString(now) + "-" + NatToString(index)
  {
    var t := NatToString(now) + "-" + NatToString(index);
    assert LoadId(kind, now, index) == (kind + "-") + t;
  }

  /** a carries the id of an item before item n. */
  ghost predicate IdBelow(a: Activity, kind: string, now: nat, n: nat) {
    exists j :: 0 <= j < n && a.id == LoadId(kind, now, j)
  }

  /** The activities of xs carry ids of items before item n. */
  ghost predicate IdsBelow(xs: seq<Activity>, kind: string, now: nat, n: nat) {
    forall p :: 0 <= p < |xs| ==> IdBelow(xs[p], kind, now, n)
  }

  /** No two activities of xs share an id. */
  ghost predicate DistinctIds(xs: seq<Activity>) {
    forall p, q :: 0 <= p < q < |xs| ==> xs[p].id != xs[q].id
  }

  /** Appending the activity of item n to activities of earlier items keeps ids distinct. */
  lemma AppendFreshId(xs: seq<Activity>, a: Activity, kind: string, now: nat, n: nat)
    requires IdsBelow(xs, kind, now, n) && DistinctIds(xs)
    requires a.id == LoadId(kind, now, n)
    ensures IdsBelow(xs + [a], kind, now, n + 1) && DistinctIds(xs + [a])
  {
    var r := xs + [a];
    forall p | 0 <= p < |xs| ensures r[p].id != a.id && IdBelow(r[p], kind, now, n + 1) {
      var j :| 0 <= j < n && xs[p].id == LoadId(kind, now, j);
      assert 0 <= j < n + 1 && r[p].id == LoadId(kind, now, j);
      if r[p].id == a.id {
        LoadIdInjective(kind, now, now, j, n);
      }
    }
    assert IdBelow(a, kind, now, n + 1) by {
      assert 0 <= n < n + 1 && a.id == LoadId(kind, now, n);
    }
  }

  /** Adding the outcome of item n (an activity or nothing) to the activities of earlier items keeps ids distinct. */
  lemma AppendRow(xs: seq<Activity>, row: Option<Activity>, kind: string, now: nat, n: nat)
    requires IdsBelow(xs, kind, now, n) && DistinctIds(xs)
    requires row.Some? ==> row.value.id == LoadId(kind, now, n)
    ensures var r := if row.Some? then xs + [row.value] else xs;
      IdsBelow(r, kind, now, n + 1) && DistinctIds(r)
  {
    if row.Some? {
      AppendFreshId(xs, row.value, kind, now, n);
    } else {
      IdsBelowMono(xs, kind, now, n, n + 1);
    }
  }

  /** Activities of earlier items carry ids of items before a later bound too. */
  lemma IdsBelowMono(xs: seq<Activity>, kind: string, now: nat, n: nat, m: nat)
    requires IdsBelow(xs, kind, now, n) && n <= m
    ensures IdsBelow(xs, kind, now, m)
  {
    forall p | 0 <= p < |xs| ensures IdBelow(xs[p], kind, now, m) {
      var j :| 0 <= j < n && xs[p].id == LoadId(kind, now, j);
      assert 0 <= j < m && xs[p].id == LoadId(kind, now, j);
    }
  }

  // ---------------------------------------------------------------------
  // CSV line parsing

  /**
   * What the character loop of the line parser produces from the text
   * still to read, given the field read so far, whether a quoted region is
   * open, and the fields already closed.
   */
  function Scan(rest: string, current: string, inQuotes: bool, result: seq<string>): (r: seq<string>)
    ensures |r| > |result| && r[..|result|] == result
    decreases |rest|
  {
    if rest == [] then
      result + [Trim(current)]
    else if rest[0] == '"' then
      if inQuotes && |rest| > 1 && rest[1] == '"' then
        Scan(rest[2..], current + ['"'], inQuotes, result)
      else
        Scan(rest[1..], current, !inQuotes, result)
    else if rest[0] == ',' && !inQuotes then
      var r := Scan(rest[1..], [], false, result + [Trim(current)]);
      assert r[..|result|] == r[..|result| + 1][..|result|];
      r
    else
      Scan(rest[1..], current + [rest[0]], inQuotes, result)
  }

  /** The fields of one CSV line: one more than its commas outside quotes, each trimmed. */
  function ParseLine(line: string): (r: seq<string>)
    ensures |r| == Commas(line, false) + 1
    ensures AllTrimmed(r)
  {
    ScanLength(line, [], false, []);
    ScanTrimmed(line, [], false, []);
    Scan(line, [], false, [])
  }

  /**
   * The commas of the text still to read that close a field: those outside
   * a quoted region, with quote pairs inside a region skipped as the
   * parser skips them.
   */
  function Commas(rest: string, inQuotes: bool): (n: nat)
    ensures n <= CountChar(rest, ',')
    decreases |rest|
  {
    if rest == [] then 0
    else if rest[0] == '"' then
      if inQuotes && |rest| > 1 && rest[1] == '"' then
        assert rest[1..][1..] == rest[2..];
        Commas(rest[2..], inQuotes)
      else Commas(rest[1..], !inQuotes)
    else if rest[0] == ',' && !inQuotes then 1 + Commas(rest[1..], false)
    else Commas(rest[1..], inQuotes)
  }

  /** Each comma outside quotes closes a field, and the end of the line closes one more. */
  lemma {:induction false} ScanLength(rest: string, current: string, inQuotes: bool, result: seq<string>)
    ensures |Scan(rest, current, inQuotes, result)| == |result| + Commas(rest, inQuotes) + 1
    decreases |rest|
  {
    if rest == [] {
    } else if rest[0] == '"' {
      if inQuotes && |rest| > 1 && rest[1] == '"' {
        ScanLength(rest[2..], current + ['"'], inQuotes, result);
      } else {
        ScanLength(rest[1..], current, !inQuotes, result);
      }
    } else if rest[0] == ',' && !inQuotes {
      ScanLength(rest[1..], [], false, result + [Trim(current)]);
    } else {
      ScanLength(rest[1..], current + [rest[0]], inQuotes, result);
    }
  }

  /** No field has white space at either end. */
  predicate AllTrimmed(fields: seq<string>) {
    forall i :: 0 <= i < |fields| ==> IsTrimmed(fields[i])
  }

  /** Every field the parser closes is trimmed. */
  lemma {:induction false} ScanTrimmed(rest: string, current: string, inQuotes: bool, result: seq<string>)
    requires AllTrimmed(result)
    ensures AllTrimmed(Scan(rest, current, inQuotes, result))
    decreases |rest|
  {
    if rest == [] {
    } else if rest[0] == '"' {
      if inQuotes && |rest| > 1 && rest[1] == '"' {
        ScanTrimmed(rest[2..], current + ['"'], inQuotes, result);
      } else {
        ScanTrimmed(rest[1..], current, !inQuotes, result);
      }
    } else if rest[0] == ',' && !inQuotes {
      ScanTrimmed(rest[1..], [], false, result + [Trim(current)]);
    } else {
      ScanTrimmed(rest[1..], current + [rest[0]], inQuotes, result);
    }
  }

  /** Text without quotes and commas all goes into the current field. */
  lemma {:induction false} ScanPlain(rest: string, current: string, inQuotes: bool, result: seq<string>)
    requires forall i :: 0 <= i < |rest| ==> rest[i] != '"' && rest[i] != ','
    ensures Scan(rest, current, inQuotes, result) == result + [Trim(current + rest)]
    decreases |rest|
  {
    if rest == [] {
      assert current + rest == current;
    } else {
      ScanPlain(rest[1..], current + [rest[0]], inQuotes, result);
      assert current + [rest[0]] + rest[1..] == current + rest;
    }
  }

  /** A line without quotes and commas is one field: the trimmed line. */
  lemma ParsePlainLine(line: string)
    requires forall i :: 0 <= i < |line| ==> line[i] != '"' && line[i] != ','
    ensures ParseLine(line) == [Trim(line)]
  {
    ScanPlain(line, [], false, []);
    assert [] + line == line;
  }

  /** Inside a quoted region, quote-free text (commas included) is copied into the field. */
  lemma {:induction false} ScanQuotedText(text: string, after: string, current: string, result: seq<string>)
    requires forall i :: 0 <= i < |text| ==> text[i] != '"'
    ensures Scan(text + after, current, true, result) == Scan(after, current + text, true, result)
    decreases |text|
  {
    if text == [] {
      assert text + after == after;
      assert current + text == current;
    } else {
      var rest := text + after;
      assert rest[0] == text[0] && rest[1..] == text[1..] + after;
      ScanQuotedText(text[1..], after, current + [text[0]], result);
      assert current + [text[0]] + text[1..] == current + text;
    }
  }

  /** A field written for CSV: every quote doubled. */
  function Escape(s: string): (r: string)
    ensures |r| >= |s|
  {
    if s == [] then []
    else if s[0] == '"' then ['"', '"'] + Escape(s[1..])
    else [s[0]] + Escape(s[1..])
  }

  /** A field written for CSV: escaped and enclosed in quotes. */
  function Quote(s: string): (r: string)
    ensures |r| >= 2 && r[0] == '"' && r[|r| - 1] == '"'
  {
    ['"'] + Escape(s) + ['"']
  }

  /**
   * Inside a quoted region the parser reads an escaped field and its
   * closing quote back as the field itself, provided no quote follows the
   * closing one.
   */
  lemma {:induction false} ScanEscaped(s: string, after: string, current: string, result: seq<string>)
    requires after == [] || after[0] != '"'
    ensures Scan(Escape(s) + ['"'] + after, current, true, result) == Scan(after, current + s, false, result)
    decreases |s|
  {
    var rest := Escape(s) + ['"'] + after;
    if s == [] {
      assert rest == ['"'] + after;
      assert rest[1..] == after;
      assert current + s == current;
    } else if s[0] == '"' {
      assert rest == ['"', '"'] + (Escape(s[1..]) + ['"'] + after);
      assert rest[2..] == Escape(s[1..]) + ['"'] + after;
      ScanEscaped(s[1..], after, current + ['"'], result);
      assert current + ['"'] + s[1..] == current + s;
    } else {
      assert rest == [s[0]] + (Escape(s[1..]) + ['"'] + after);
      assert rest[1..] == Escape(s[1..]) + ['"'] + after;
      ScanEscaped(s[1..], after, current + [s[0]], result);
      assert current + [s[0]] + s[1..] == current + s;
    }
  }

  /** Every field quoted. */
  function QuoteAll(fields: seq<string>): (r: seq<string>)
    ensures |r| == |fields|
  {
    if fields == [] then [] else [Quote(fields[0])] + QuoteAll(fields[1..])
  }

  /** Every field trimmed. */
  function TrimAll(fields: seq<string>): (r: seq<string>)
    ensures |r| == |fields|
  {
    if fields == [] then [] else [Trim(fields[0])] + TrimAll(fields[1..])
  }

  /** At the start of a field, a quoted field is read back as its text, the field left open. */
  lemma ScanQuotedField(f: string, after: string, result: seq<string>)
    requires after == [] || after[0] != '"'
    ensures Scan(Quote(f) + after, [], false, result) == Scan(after, f, false, result)
  {
    var line := Quote(f) + after;
    assert line[0] == '"';
    assert line[1..] == Escape(f) + ['"'] + after;
    assert Scan(line, [], false, result) == Scan(line[1..], [], true, result);
    ScanEscaped(f, after, [], result);
    assert [] + f == f;
  }

  /** The line of quoted fields: the first field quoted, then a comma and the rest. */
  lemma JoinQuoted(fields: seq<string>)
    requires |fields| > 1
    ensures Join(QuoteAll(fields), [',']) == Quote(fields[0]) + ([','] + Join(QuoteAll(fields[1..]), [',']))
  {
    var q := QuoteAll(fields);
    JoinSplit(q, [',']);
    assert q[0] == Quote(fields[0]) && q[1..] == QuoteAll(fields[1..]);
  }

  /** A comma outside quotes closes the current field. */
  lemma ScanComma(tail: string, current: string, result: seq<string>)
    ensures Scan([','] + tail, current, false, result) == Scan(tail, [], false, result + [Trim(current)])
  {
    assert ([','] + tail)[1..] == tail;
  }

  /** A record of one quoted field is read back as that field, trimmed. */
  lemma ScanQuotedSingle(f: string, result: seq<string>)
    ensures Scan(Join(QuoteAll([f]), [',']), [], false, result) == result + TrimAll([f])
  {
    assert [f][1..] == [];
    assert QuoteAll([f]) == [Quote(f)];
    assert Join([Quote(f)], [',']) == Quote(f) + [];
    ScanQuotedField(f, [], result);
    assert TrimAll([f]) == [Trim(f)];
  }

  /** One step of reading quoted fields: the first field, its comma, then the others. */
  lemma ScanQuotedFieldsStep(fields: seq<string>, result: seq<string>)
    requires |fields| > 1
    requires Scan(Join(QuoteAll(fields[1..]), [',']), [], false, result + [Trim(fields[0])])
          == result + [Trim(fields[0])] + TrimAll(fields[1..])
    ensures Scan(Join(QuoteAll(fields), [',']), [], false, result) == result + TrimAll(fields)
  {
    var f := fields[0];
    JoinQuoted(fields);
    var tail := Join(QuoteAll(fields[1..]), [',']);
    ScanQuotedField(f, [','] + tail, result);
    ScanComma(tail, f, result);
    assert TrimAll(fields) == [Trim(f)] + TrimAll(fields[1..]);
    assert result + [Trim(f)] + TrimAll(fields[1..]) == result + TrimAll(fields);
  }

  /** A record of quoted fields, read from the start of a field, yields the trimmed fields. */
  lemma {:induction false} ScanQuotedFields(fields: seq<string>, result: seq<string>)
    requires fields != []
    ensures Scan(Join(QuoteAll(fields), [',']), [], false, result) == result + TrimAll(fields)
    decreases |fields|
  {
    if |fields| == 1 {
      assert fields == [fields[0]];
      ScanQuotedSingle(fields[0], result);
    } else {
      ScanQuotedFields(fields[1..], result + [Trim(fields[0])]);
      ScanQuotedFieldsStep(fields, result);
    }
  }

  /** Writing fields as a CSV line of quoted fields and parsing it back gives the trimmed fields. */
  lemma ParseQuotedRecord(fields: seq<string>)
    requires fields != []
    ensures ParseLine(Join(QuoteAll(fields), [','])) == TrimAll(fields)
  {
    ScanQuotedFields(fields, []);
    assert [] + TrimAll(fields) == TrimAll(fields);
  }

  /** The parser's character loop; `i` skips the second quote of a pair. */
  method ParseCSVLine(line: string) returns (result: seq<string>)
    ensures result == ParseLine(line)
    ensures |result| == Commas(line, false) + 1
    ensures AllTrimmed(result)
  {
    result := [];
    var current: string := [];
    var inQuotes := false;
    var i := 0;
    while i < |line|
      invariant 0 <= i <= |line|
      invariant Scan(line[i..], current, inQuotes, result) == ParseLine(line)
    {
      var c := line[i];
      assert line[i..][1..] == line[i + 1..];
      if c == '"' {
        if inQuotes && i + 1 < |line| && line[i + 1] == '"' {
          assert line[i..][2..] == line[i + 2..];
          current := current + ['"'];
          i := i + 1;
        } else {
          inQuotes := !inQuotes;
        }
      } else if c == ',' && !inQuotes {
        result := result + [Trim(current)];
        current := [];
      } else {
        current := current + [c];
      }
      i := i + 1;
    }
    result := result + [Trim(current)];
    ScanLength(line, [], false, []);
    ScanTrimmed(line, [], false, []);
  }

  // ---------------------------------------------------------------------
  // CSV loading

  /** The first line is a header when, lower-cased, it mentions "title" or "start". */
  predicate IsHeader(line: string) {
    Contains(ToLower(line), "title") || Contains(ToLower(line), "start")
  }

  /** The header test ignores case: a line and its lower-cased form are headers alike. */
  lemma HeaderIgnoresCase(line: string)
    ensures IsHeader(ToLower(line)) == IsHeader(line)
  {
    var l := ToLower(line);
    assert ToLower(l) == l;
  }

  /**
   * A line with no t or s in either case cannot mention "title" or "start",
   * so it is not taken for a header and is loaded as data.
   */
  lemma DataLineNotHeader(line: string)
    requires forall i :: 0 <= i < |line| ==> line[i] !in "tsTS"
    ensures !IsHeader(line)
  {
    var g := ToLower(line);
    forall i | 0 <= i <= |g| - 5 ensures !OccursAt(g, "title", i) && !OccursAt(g, "start", i) {
      assert g[i] == LowerChar(line[i]);
      assert g[i] != 't' && g[i] != 's';
      assert g[i..i + 5][0] == g[i];
    }
  }

  /** `x || ''` on an optional field: an absent field becomes empty. */
  function FieldOrEmpty(parts: seq<string>, i: nat): (r: string)
    ensures i < |parts| ==> r == parts[i]
    ensures i >= |parts| ==> r == []
  {
    if i < |parts| then parts[i] else []
  }

  /** The activity line `index` yields, if any: blank lines and lines of fewer than 3 fields yield none. */
  function CsvRow(raw: string, index: nat, now: nat, parseDate: string -> int): (r: Option<Activity>)
    ensures r.Some? ==> r.value.source == Some(Csv) && r.value.id == LoadId("csv", now, index)
    ensures r.Some? ==> r.value.title != [] && r.value.description.Some? && r.value.location.Some?
    ensures r.Some? <==> Trim(raw) != [] && |ParseLine(Trim(raw))| >= 3
    ensures r.Some? ==> var p := ParseLine(Trim(raw));
      && (p[0] == [] ==> r.value.title == "Untitled")
      && (p[0] != [] ==> r.value.title == p[0])
      && r.value.start == parseDate(p[1])
      && (p[2] == [] ==> r.value.end == r.value.start)
      && (p[2] != [] ==> r.value.end == parseDate(p[2]))
      && r.value.description == Some(FieldOrEmpty(p, 3))
      && r.value.location == Some(FieldOrEmpty(p, 4))
  {
    var line := Trim(raw);
    if line == [] then None
    else
      var parts := ParseLine(line);
      if |parts| < 3 then None
      else
        var title, startStr, endStr := parts[0], parts[1], parts[2];
        Some(Activity(
          LoadId("csv", now, index),
          if title == [] then "Untitled" else title,
          parseDate(startStr),
          parseDate(if endStr == [] then startStr else endStr),
          Some(FieldOrEmpty(parts, 3)),
          Some(FieldOrEmpty(parts, 4)),
          Some(Csv)))
  }

  /** The activities of lines[from..upTo], in line order. */
  function CsvRows(lines: seq<string>, from: nat, upTo: nat, now: nat, parseDate: string -> int): (r: seq<Activity>)
    requires upTo <= |lines|
    ensures from <= upTo ==> |r| <= upTo - from
    ensures from > upTo ==> r == []
    decreases upTo
  {
    if upTo <= from then []
    else
      var prefix := CsvRows(lines, from, upTo - 1, now, parseDate);
      match CsvRow(lines[upTo - 1], upTo - 1, now, parseDate)
      case Some(a) => prefix + [a]
      case None => prefix
  }

  /** One more line is one more row step. */
  lemma CsvRowsStep(lines: seq<string>, from: nat, i: nat, now: nat, parseDate: string -> int)
    requires from <= i < |lines|
    ensures var row := CsvRow(lines[i], i, now, parseDate);
      CsvRows(lines, from, i + 1, now, parseDate)
        == CsvRows(lines, from, i, now, parseDate) + (if row.Some? then [row.value] else [])
  {
  }

  /** Loaded CSV activities carry distinct ids. */
  lemma {:induction false} CsvRowsFacts(lines: seq<string>, from: nat, upTo: nat, now: nat, parseDate: string -> int)
    requires upTo <= |lines|
    ensures IdsBelow(CsvRows(lines, from, upTo, now, parseDate), "csv", now, upTo)
    ensures DistinctIds(CsvRows(lines, from, upTo, now, parseDate))
    decreases upTo
  {
    if from < upTo {
      CsvRowsFacts(lines, from, upTo - 1, now, parseDate);
      CsvRowsStep(lines, from, upTo - 1, now, parseDate);
      var prefix := CsvRows(lines, from, upTo - 1, now, parseDate);
      AppendRow(prefix, CsvRow(lines[upTo - 1], upTo - 1, now, parseDate), "csv", now, upTo - 1);
    }
  }

  /** A CSV activity with a title. */
  predicate IsCsvRecord(a: Activity) {
    a.source == Some(Csv) && a.title != []
  }

  /** A property of every activity of xs and of a holds of every activity of xs + [a]. */
  lemma AllAppend(xs: seq<Activity>, a: Activity, p: Activity -> bool)
    requires forall x :: x in xs ==> p(x)
    requires p(a)
    ensures forall x :: x in xs + [a] ==> p(x)
  {
    forall x | x in xs + [a] ensures p(x) {
      if x != a {
        assert x in xs;
      }
    }
  }

  /** Every loaded activity is a CSV activity with a title. */
  lemma {:induction false} CsvRowsRecords(lines: seq<string>, from: nat, upTo: nat, now: nat, parseDate: string -> int)
    requires upTo <= |lines|
    ensures forall a :: a in CsvRows(lines, from, upTo, now, parseDate) ==> IsCsvRecord(a)
    decreases upTo
  {
    if from < upTo {
      CsvRowsRecords(lines, from, upTo - 1, now, parseDate);
      CsvRowsStep(lines, from, upTo - 1, now, parseDate);
      var prefix := CsvRows(lines, from, upTo - 1, now, parseDate);
      var row := CsvRow(lines[upTo - 1], upTo - 1, now, parseDate);
      if row.Some? {
        var r := prefix + [row.value];
        assert CsvRows(lines, from, upTo, now, parseDate) == r;
        AllAppend(prefix, row.value, IsCsvRecord);
      } else {
        assert CsvRows(lines, from, upTo, now, parseDate) == prefix;
      }
    } else {
      assert CsvRows(lines, from, upTo, now, parseDate) == [];
    }
  }

  /** What loading a CSV text yields: the rows of its lines, the header line skipped. */
  function CsvActivities(data: string, now: nat, parseDate: string -> int): (r: seq<Activity>)
    ensures var lines := Split(data, "\n");
      CsvRows(lines, if IsHeader(lines[0]) then 1 else 0, |lines|, now, parseDate) == r
    ensures |r| <= |Split(data, "\n")|
    ensures forall a :: a in r ==> IsCsvRecord(a)
    ensures DistinctIds(r)
  {
    var lines := Split(data, "\n");
    var startIndex := if IsHeader(lines[0]) then 1 else 0;
    CsvRowsFacts(lines, startIndex, |lines|, now, parseDate);
    CsvRowsRecords(lines, startIndex, |lines|, now, parseDate);
    CsvRows(lines, startIndex, |lines|, now, parseDate)
  }

  /** The CSV loader's line loop. */
  method CsvLoad(data: string, now: nat, parseDate: string -> int) returns (activities: seq<Activity>)
    ensures activities == CsvActivities(data, now, parseDate)
  {
    activities := [];
    var lines := Split(data, "\n");
    var startIndex := if IsHeader(lines[0]) then 1 else 0;
    for i := startIndex to |lines|
      invariant activities == CsvRows(lines, startIndex, i, now, parseDate)
    {
      CsvRowsStep(lines, startIndex, i, now, parseDate);
      var line := Trim(lines[i]);
      if line == [] {
        assert CsvRow(lines[i], i, now, parseDate) == None;
        continue;
      }
      var parts := ParseCSVLine(line);
      if |parts| < 3 {
        assert CsvRow(lines[i], i, now, parseDate) == None;
        continue;
      }
      var title, startStr, endStr := parts[0], parts[1], parts[2];
      var description, location := FieldOrEmpty(parts, 3), FieldOrEmpty(parts, 4);
      var activity := Activity(
        LoadId("csv", now, i),
        if title == [] then "Untitled" else title,
        parseDate(startStr),
        parseDate(if endStr == [] then startStr else endStr),
        Some(description),
        Some(location),
        Some(Csv));
      assert CsvRow(lines[i], i, now, parseDate) == Some(activity);
      activities := activities + [activity];
    }
  }

  /** A line of quoted fields starts and ends with a quote. */
  lemma {:induction false} JoinQuotedEnds(fields: seq<string>)
    requires fields != []
    ensures var line := Join(QuoteAll(fields), [',']);
      |line| >= 2 && line[0] == '"' && line[|line| - 1] == '"'
    decreases |fields|
  {
    if |fields| == 1 {
      assert fields == [fields[0]] && [fields[0]][1..] == [];
      assert QuoteAll(fields) == [Quote(fields[0])];
    } else {
      JoinQuoted(fields);
      JoinQuotedEnds(fields[1..]);
    }
  }

  /**
   * A CSV line of at least three quoted fields loads back as the activity
   * they describe: the trimmed title ("Untitled" when blank), start, end
   * (the start when blank), description and location ('' when missing).
   */
  lemma CsvRowOfQuotedFields(fields: seq<string>, index: nat, now: nat, parseDate: string -> int)
    requires |fields| >= 3
    ensures var t := TrimAll(fields);
      CsvRow(Join(QuoteAll(fields), [',']), index, now, parseDate)
      == Some(Activity(
           LoadId("csv", now, index),
           if t[0] == [] then "Untitled" else t[0],
           parseDate(t[1]),
           parseDate(if t[2] == [] then t[1] else t[2]),
           Some(FieldOrEmpty(t, 3)),
           Some(FieldOrEmpty(t, 4)),
           Some(Csv)))
  {
    var line := Join(QuoteAll(fields), [',']);
    JoinQuotedEnds(fields);
    TrimOfTrimmed(line);
    ParseQuotedRecord(fields);
  }

  // ---------------------------------------------------------------------
  // MBOX loading

  /** The captured Subject, Date and From header values of one message, where present. */
  datatype MailHeaders = MailHeaders(subject: Option<string>, date: Option<string>, from: Option<string>)

  /** An email is shown as an activity of this many minutes ending at its Date. */
  const DEFAULT_EMAIL_DURATION_MINUTES: int := 10

  /** An email shown as an activity: the default duration, at "Email", from the MBOX loader. */
  predicate IsEmail(a: Activity) {
    && a.end - a.start == DEFAULT_EMAIL_DURATION_MINUTES * MS_PER_MINUTE
    && a.location == Some("Email")
    && a.source == Some(Mbox)
  }

  /** The activity message `index` yields: one when it is not blank and has a Subject and a Date. */
  function MboxMessage(message: string, index: nat, now: nat, parseDate: string -> int,
                       headers: string -> MailHeaders): (r: Option<Activity>)
    ensures r.Some? <==> Trim(message) != [] && headers(message).subject.Some? && headers(message).date.Some?
    ensures r.Some? ==> r.value.end == parseDate(headers(message).date.value)
    ensures r.Some? ==> IsEmail(r.value)
    ensures r.Some? ==> r.value.id == LoadId("mbox", now, index) && IsTrimmed(r.value.title)
    ensures r.Some? ==> r.value.title == Trim(headers(message).subject.value)
    ensures r.Some? ==>
      r.value.description == Some(if headers(message).from.Some? then "From: " + headers(message).from.value else [])
  {
    if Trim(message) == [] then None
    else
      var h := headers(message);
      if h.subject.Some? && h.date.Some? then
        var date := parseDate(h.date.value);
        var startDate := date - DEFAULT_EMAIL_DURATION_MINUTES * MS_PER_MINUTE;
        Some(Activity(
          LoadId("mbox", now, index),
          Trim(h.subject.value),
          startDate,
          date,
          Some(if h.from.Some? then "From: " + h.from.value else []),
          Some("Email"),
          Some(Mbox)))
      else
        None
  }

  /** The activities of messages[..upTo], in message order. */
  function MboxRows(messages: seq<string>, upTo: nat, now: nat, parseDate: string -> int,
                    headers: string -> MailHeaders): (r: seq<Activity>)
    requires upTo <= |messages|
    ensures |r| <= upTo
    decreases upTo
  {
    if upTo == 0 then []
    else
      var prefix := MboxRows(messages, upTo - 1, now, parseDate, headers);
      match MboxMessage(messages[upTo - 1], upTo - 1, now, parseDate, headers)
      case Some(a) => prefix + [a]
      case None => prefix
  }

  /** One more message is one more row step. */
  lemma MboxRowsStep(messages: seq<string>, i: nat, now: nat, parseDate: string -> int, headers: string -> MailHeaders)
    requires i < |messages|
    ensures var row := MboxMessage(messages[i], i, now, parseDate, headers);
      MboxRows(messages, i + 1, now, parseDate, headers)
        == MboxRows(messages, i, now, parseDate, headers) + (if row.Some? then [row.value] else [])
  {
  }

  /** Loaded emails carry distinct ids. */
  lemma {:induction false} MboxRowsFacts(messages: seq<string>, upTo: nat, now: nat, parseDate: string -> int,
                                         headers: string -> MailHeaders)
    requires upTo <= |messages|
    ensures IdsBelow(MboxRows(messages, upTo, now, parseDate, headers), "mbox", now, upTo)
    ensures DistinctIds(MboxRows(messages, upTo, now, parseDate, headers))
    decreases upTo
  {
    if upTo > 0 {
      MboxRowsFacts(messages, upTo - 1, now, parseDate, headers);
      MboxRowsStep(messages, upTo - 1, now, parseDate, headers);
      var prefix := MboxRows(messages, upTo - 1, now, parseDate, headers);
      AppendRow(prefix, MboxMessage(messages[upTo - 1], upTo - 1, now, parseDate, headers), "mbox", now, upTo - 1);
    }
  }

  /** Every loaded email lasts the default duration at the "Email" location. */
  lemma {:induction false} MboxRowsEmails(messages: seq<string>, upTo: nat, now: nat, parseDate: string -> int,
                                          headers: string -> MailHeaders)
    requires upTo <= |messages|
    ensures forall a :: a in MboxRows(messages, upTo, now, parseDate, headers) ==> IsEmail(a)
    decreases upTo
  {
    if upTo > 0 {
      MboxRowsEmails(messages, upTo - 1, now, parseDate, headers);
      MboxRowsStep(messages, upTo - 1, now, parseDate, headers);
      var prefix := MboxRows(messages, upTo - 1, now, parseDate, headers);
      var row := MboxMessage(messages[upTo - 1], upTo - 1, now, parseDate, headers);
      if row.Some? {
        var r := prefix + [row.value];
        assert MboxRows(messages, upTo, now, parseDate, headers) == r;
        AllAppend(prefix, row.value, IsEmail);
      } else {
        assert MboxRows(messages, upTo, now, parseDate, headers) == prefix;
      }
    }
  }

  /** What loading an MBOX text yields: one activity per message with a Subject and a Date. */
  function MboxActivities(data: string, now: nat, parseDate: string -> int, headers: string -> MailHeaders): (r: seq<Activity>)
    ensures var messages := Split(data, "\nFrom ");
      r == MboxRows(messages, |messages|, now, parseDate, headers)
    ensures |r| <= |Split(data, "\nFrom ")|
    ensures forall a :: a in r ==> IsEmail(a)
    ensures DistinctIds(r)
  {
    var messages := Split(data, "\nFrom ");
    MboxRowsFacts(messages, |messages|, now, parseDate, headers);
    MboxRowsEmails(messages, |messages|, now, parseDate, headers);
    MboxRows(messages, |messages|, now, parseDate, headers)
  }

  /** `MBOXLoader.load`: the text cut into messages, then the message loop. */
  method MboxLoad(data: string, now: nat, parseDate: string -> int, headers: string -> MailHeaders)
    returns (activities: seq<Activity>)
    ensures activities == MboxActivities(data, now, parseDate, headers)
  {
    var messages := Split(data, "\nFrom ");
    activities := MboxLoop(messages, now, parseDate, headers);
  }

  /** The message loop of the MBOX loader: each message's activity, if any, is appended. */
  method MboxLoop(messages: seq<string>, now: nat, parseDate: string -> int, headers: string -> MailHeaders)
    returns (activities: seq<Activity>)
    ensures activities == MboxRows(messages, |messages|, now, parseDate, headers)
  {
    activities := [];
    for i := 0 to |messages|
      invariant activities == MboxRows(messages, i, now, parseDate, headers)
    {
      var row := MboxMessage(messages[i], i, now, parseDate, headers);
      if row.Some? {
        activities := activities + [row.value];
      }
    }
  }

  // ---------------------------------------------------------------------
  // Loader factory

  /** The three loaders. */
  datatype LoaderKind = CsvLoader | ICalLoader | MboxLoader

  /** The file type each loader is registered under. */
  function FileTypeOf(kind: LoaderKind): string {
    match kind
    case CsvLoader => "csv"
    case ICalLoader => "ical"
    case MboxLoader => "mbox"
  }

  /** The loader for a file type; any other type is an error naming it. */
  function GetLoader(fileType: string): (r: Result<LoaderKind, string>)
    ensures r.Failure? <==> fileType != "csv" && fileType != "ical" && fileType != "mbox"
    ensures r.Failure? ==> r.error == "Unsupported file type: " + fileType
  {
    match fileType
    case "csv" => Success(CsvLoader)
    case "ical" => Success(ICalLoader)
    case "mbox" => Success(MboxLoader)
    case _ => Failure("Unsupported file type: " + fileType)
  }

  /** Each loader is found under its own file type ... */
  lemma GetLoaderOfFileType(kind: LoaderKind)
    ensures GetLoader(FileTypeOf(kind)) == Success(kind)
  {
  }

  /** ... and a loader found for a file type is the one registered under it. */
  lemma GetLoaderFileType(fileType: string)
    ensures GetLoader(fileType).Success? ==> FileTypeOf(GetLoader(fileType).value) == fileType
  {
  }
}
