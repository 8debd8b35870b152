/** Comma-separated values as section 2 of RFC 4180 defines them: fields are
    printed quoted where they must be, and parsed back. */
module Csv {
  import opened Prelude

  /** The characters a field may not hold unless it is quoted. RFC 4180 lists
      printable ASCII alone as plain text; any other character is taken as such here. */
  predicate IsSpecial(c: char) {
    c == ',' || c == '"' || c == '\r' || c == '\n'
  }

  predicate NeedsQuotes(text: string) {
    exists k :: 0 <= k < |text| && IsSpecial(text[k])
  }

  // ── Printing ──

  function Doubled(text: string): string {
    if text == "" then "" else (if text[0] == '"' then "\"\"" else [text[0]]) + Doubled(text[1..])
  }

  function PrintField(text: string): string {
    if NeedsQuotes(text) then "\"" + (Doubled(text) + "\"") else text
  }

  /** A field is quoted exactly when it holds a comma, a quote or a line break, and then only gains quotes. */
  lemma {:induction false} QuotedExactly(text: string)
    ensures PrintField(text) == text <==> !(',' in text || '"' in text || '\r' in text || '\n' in text)
    ensures PrintField(text) != text ==> |PrintField(text)| >= 2 + |text| && PrintField(text)[0] == '"'
  {
    DoubledGrows(text);
  }

  lemma {:induction false} DoubledGrows(text: string)
    ensures |Doubled(text)| >= |text|
  {
    if text != "" {
      DoubledGrows(text[1..]);
    }
  }

  function Join(parts: seq<string>, separator: string): string {
    if parts == [] then "" else if |parts| == 1 then parts[0] else parts[0] + separator + Join(parts[1..], separator)
  }

  function PrintFields(fields: seq<string>): seq<string> {
    seq(|fields|, k requires 0 <= k < |fields| => PrintField(fields[k]))
  }

  function PrintRecord(fields: seq<string>): string {
    Join(PrintFields(fields), ",")
  }

  function PrintRecords(records: seq<seq<string>>): seq<string> {
    seq(|records|, k requires 0 <= k < |records| => PrintRecord(records[k]))
  }

  // ── Parsing, one rule of the grammar each ──

  /** The rest of an escaped field, and what follows its closing quote. */
  function ParseEscaped(s: string): Option<(string, string)> {
    if s == "" then None
    else if s[0] != '"' then
      var more := ParseEscaped(s[1..]);
      if more.None? then None else Some(([s[0]] + more.value.0, more.value.1))
    else if |s| > 1 && s[1] == '"' then
      var more := ParseEscaped(s[2..]);
      if more.None? then None else Some((['"'] + more.value.0, more.value.1))
    else Some(("", s[1..]))
  }

  function ParseNonEscaped(s: string): (string, string) {
    if s == "" || IsSpecial(s[0]) then ("", s)
    else
      var (text, rest) := ParseNonEscaped(s[1..]);
      ([s[0]] + text, rest)
  }

  function ParseField(s: string): (r: Option<(string, string)>)
    ensures r.Some? ==> |r.value.1| <= |s|
  {
    if s != "" && s[0] == '"' then
      EscapedShortens(s[1..]);
      ParseEscaped(s[1..])
    else
      NonEscapedShortens(s);
      Some(ParseNonEscaped(s))
  }

  lemma {:induction false} EscapedShortens(s: string)
    ensures ParseEscaped(s).Some? ==> |ParseEscaped(s).value.1| <= |s|
  {
    if s != "" && s[0] != '"' {
      EscapedShortens(s[1..]);
    } else if |s| > 1 && s[1] == '"' {
      EscapedShortens(s[2..]);
    }
  }

  lemma {:induction false} NonEscapedShortens(s: string)
    ensures |ParseNonEscaped(s).1| <= |s|
  {
    if s != "" && !IsSpecial(s[0]) {
      NonEscapedShortens(s[1..]);
    }
  }

  function ParseRecord(s: string): (r: Option<(seq<string>, string)>)
    ensures r.Some? ==> |r.value.1| <= |s|
    decreases |s|
  {
    var field := ParseField(s);
    if field.None? then None
    else
      var (text, rest) := field.value;
      if rest != "" && rest[0] == ',' then
        var more := ParseRecord(rest[1..]);
        if more.None? then None else Some(([text] + more.value.0, more.value.1))
      else Some(([text], rest))
  }

  /** Records separated by line breaks, with or without one at the end. */
  function ParseFile(s: string): Option<seq<seq<string>>>
    decreases |s|
  {
    var record := ParseRecord(s);
    if record.None? then None
    else
      var (fields, rest) := record.value;
      if rest == "" || rest == "\r\n" then Some([fields])
      else if |rest| > 2 && rest[0] == '\r' && rest[1] == '\n' then
        var more := ParseFile(rest[2..]);
        if more.None? then None else Some([fields] + more.value)
      else None
  }

  // ── Round trips ──

  predicate EndsField(rest: string) {
    rest == "" || rest[0] == ',' || rest[0] == '\r'
  }

  lemma {:induction false} EscapedBack(text: string, rest: string)
    requires rest == "" || rest[0] != '"'
    ensures ParseEscaped(Doubled(text) + "\"" + rest) == Some((text, rest))
  {
    var s := Doubled(text) + "\"" + rest;
    if text == "" {
      assert s == "\"" + rest;
    } else {
      EscapedBack(text[1..], rest);
      var tail := Doubled(text[1..]) + "\"" + rest;
      if text[0] == '"' {
        assert s == "\"\"" + tail;
        assert s[2..] == tail;
      } else {
        assert s == [text[0]] + tail;
        assert s[1..] == tail;
      }
      assert [text[0]] + text[1..] == text;
    }
  }

  lemma {:induction false} NonEscapedBack(text: string, rest: string)
    requires !NeedsQuotes(text) && (rest == "" || IsSpecial(rest[0]))
    ensures ParseNonEscaped(text + rest) == (text, rest)
  {
    if text == "" {
      assert text + rest == rest;
    } else {
      assert !IsSpecial(text[0]);
      assert forall k :: 0 <= k < |text[1..]| ==> text[1..][k] == text[k + 1];
      NonEscapedBack(text[1..], rest);
      assert (text + rest)[1..] == text[1..] + rest;
      assert [text[0]] + text[1..] == text;
    }
  }

  lemma {:induction false} AfterTheQuote(body: string, rest: string)
    ensures ("\"" + body + rest)[0] == '"'
    ensures ("\"" + body + rest)[1..] == body + rest
  {
  }

  lemma {:induction false} StartsPlainly(text: string, rest: string)
    requires !NeedsQuotes(text) && EndsField(rest)
    ensures text + rest == "" || (text + rest)[0] != '"'
  {
    if text != "" {
      assert !IsSpecial(text[0]);
    }
  }

  lemma {:induction false} FieldBack(text: string, rest: string)
    requires EndsField(rest)
    ensures ParseField(PrintField(text) + rest) == Some((text, rest))
  {
    if NeedsQuotes(text) {
      EscapedBack(text, rest);
      AfterTheQuote(Doubled(text) + "\"", rest);
    } else {
      NonEscapedBack(text, rest);
      StartsPlainly(text, rest);
    }
  }

  lemma {:induction false} JoinFirst(parts: seq<string>, separator: string, rest: string)
    requires |parts| > 1
    ensures Join(parts, separator) + rest == parts[0] + (separator + (Join(parts[1..], separator) + rest))
  {
  }

  /** A record's text with what follows it: its first field, a comma, and the rest of it. */
  lemma {:induction false} RecordFirst(fields: seq<string>, rest: string)
    requires |fields| > 1
    ensures PrintRecord(fields) + rest == PrintField(fields[0]) + ("," + (PrintRecord(fields[1..]) + rest))
  {
    JoinFirst(PrintFields(fields), ",", rest);
    assert PrintFields(fields[1..]) == PrintFields(fields)[1..];
  }

  lemma {:induction false} SplitFirst<T>(s: seq<T>)
    requires s != []
    ensures [s[0]] + s[1..] == s
  {
  }

  lemma {:induction false} RecordBack(fields: seq<string>, rest: string)
    requires fields != [] && (rest == "" || rest[0] == '\r')
    ensures ParseRecord(PrintRecord(fields) + rest) == Some((fields, rest))
    decreases |fields|
  {
    SplitFirst(fields);
    if |fields| == 1 {
      assert PrintFields(fields) == [PrintField(fields[0])];
      assert fields == [fields[0]];
      FieldBack(fields[0], rest);
    } else {
      var tail := PrintRecord(fields[1..]) + rest;
      RecordFirst(fields, rest);
      RecordBack(fields[1..], rest);
      FieldBack(fields[0], "," + tail);
      assert ("," + tail)[1..] == tail;
    }
  }

  function PrintFile(records: seq<seq<string>>): string {
    Join(PrintRecords(records), "\r\n") + "\r\n"
  }

  lemma {:induction false} FileFirst(records: seq<seq<string>>)
    requires |records| > 1
    ensures PrintFile(records) == PrintRecord(records[0]) + ("\r\n" + PrintFile(records[1..]))
  {
    JoinFirst(PrintRecords(records), "\r\n", "\r\n");
    assert PrintRecords(records[1..]) == PrintRecords(records)[1..];
  }

  /** Any records, printed line by line with a line break
      after each, parse back to exactly those fields, whatever they hold. */
  lemma {:induction false} FileBack(records: seq<seq<string>>)
    requires records != [] && forall k :: 0 <= k < |records| ==> |records[k]| > 0
    ensures ParseFile(PrintFile(records)) == Some(records)
    decreases |records|
  {
    SplitFirst(records);
    if |records| == 1 {
      assert PrintRecords(records) == [PrintRecord(records[0])];
      assert records == [records[0]];
      RecordBack(records[0], "\r\n");
    } else {
      var tail := PrintFile(records[1..]);
      FileFirst(records);
      FileBack(records[1..]);
      RecordBack(records[0], "\r\n" + tail);
      assert ("\r\n" + tail)[2..] == tail;
    }
  }
}
