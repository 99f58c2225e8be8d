/** Value quoting for the Emare OS command line and the parser of its `print terse` output. */
module TerseParser {
  import opened Text
  import opened Sequences

  // ---------- Quoting ----------

  predicate Dangerous(c: char) { c == ';' || c == '\n' || c == '\r' || c == '\0' }

  function Replace(s: string, c: char, with: string): string {
    if s == [] then [] else (if s[0] == c then with else [s[0]]) + Replace(s[1..], c, with)
  }

  function Escape(s: string): string {
    Replace(Replace(s, '\\', "\\\\"), '"', "\\\"")
  }

  predicate NeedsQuotes(value: string) { ' ' in value || '"' in value }

  /** `_mq`: None where the original raises ValueError. */
  function Quote(value: string): Option<string> {
    if value == [] then Some("\"\"")
    else if exists c :: c in value && Dangerous(c) then None
    else if NeedsQuotes(value) then Some("\"" + Escape(value) + "\"")
    else Some(value)
  }

  // ---------- Parsing ----------

  /** A line as it is read: its index, its flags and its pairs from left to right. */
  datatype Record = Record(index: nat, flags: string, pairs: seq<(string, string)>)

  predicate IsKeyChar(c: char) {
    'a' <= c <= 'z' || 'A' <= c <= 'Z' || IsDigit(c) || c == '_' || c == '-'
  }

  predicate IsUpper(c: char) { 'A' <= c <= 'Z' }

  predicate IsNonSpace(c: char) { !IsSpace(c) }

  /** The offset of the quote that closes a quoted value, skipping escaped characters. */
  function Close(s: string): (k: Option<nat>)
    ensures k.Some? ==> k.value < |s| && s[k.value] == '"'
  {
    if s == [] then None
    else if s[0] == '"' then Some(0)
    else if s[0] == '\\' then
      if |s| == 1 || s[1] == '\n' then None
      else (var k := Close(s[2..]); if k.Some? then Some(k.value + 2) else None)
    else (var k := Close(s[1..]); if k.Some? then Some(k.value + 1) else None)
  }

  /** The value behind a `=` and how many characters it takes. */
  function ReadValue(s: string): (r: (string, nat))
    ensures r.1 <= |s|
  {
    var close := if s != [] && s[0] == '"' then Close(s[1..]) else None;
    if close.Some? then (s[1..close.value + 1], close.value + 2)
    else var n := Run(IsNonSpace, s); (s[..n], n)
  }

  /** All `key=value` pairs of s, from left to right. */
  function ScanPairs(s: string): seq<(string, string)>
    decreases |s|
  {
    if s == [] then []
    else
      var k := Run(IsKeyChar, s);
      if 0 < k < |s| && s[k] == '=' then
        var (value, n) := ReadValue(s[k + 1..]);
        [(s[..k], value)] + ScanPairs(s[k + 1..][n..])
      else ScanPairs(s[1..])
  }

  predicate StartsWith(s: string, prefix: string) { prefix <= s }

  predicate Skipped(line: string) {
    line == [] || StartsWith(line, "Columns:") || StartsWith(line, "#") || StartsWith(line, "Flags:")
  }

  /** The flags in front of the pairs and how many characters they take with their spaces. */
  function ReadFlags(s: string): (r: (string, nat))
    ensures r.1 <= |s|
  {
    var k := Run(IsUpper, s);
    var w := Run(IsSpace, s[k..]);
    if k > 0 && w > 0 then (s[..k], k + w) else ([], 0)
  }

  /** The index, the flags and the pairs of a line, if it starts with a number. */
  function ReadLine(line: string): Option<Record> {
    var d := Run(IsDigit, line);
    var w := Run(IsSpace, line[d..]);
    if d == 0 || w == 0 then None
    else
      var rest := line[d + w..];
      var (flags, n) := ReadFlags(rest);
      Some(Record(NatOf(line[..d]), flags, ScanPairs(rest[n..])))
  }

  function ParseLine(raw: string): Option<Record> {
    var line := Strip(raw);
    if Skipped(line) then None else ReadLine(line)
  }

  // ---------- The dictionaries the parser returns ----------

  datatype Val = Num(n: nat) | Str(s: string)

  datatype Key = Index | Flags | Name(name: string)

  /** The dictionary key a string denotes: two names are taken by the parser itself. */
  function KeyOf(s: string): Key {
    if s == "_index" then Index else if s == "_flags" then Flags else Name(s)
  }

  type Entry = map<Key, Val>

  /** Later pairs overwrite earlier ones, and even the parser's own two keys. */
  function Entered(entry: Entry, pairs: seq<(string, string)>): Entry
    decreases |pairs|
  {
    if pairs == [] then entry
    else Entered(entry[KeyOf(pairs[0].0) := Str(pairs[0].1)], pairs[1..])
  }

  function EntryOf(r: Record): Entry {
    Entered(map[Index := Num(r.index), Flags := Str(r.flags)], r.pairs)
  }

  function ParseEntry(line: string): Option<Entry> {
    var r := ParseLine(line);
    if r.Some? then Some(EntryOf(r.value)) else None
  }

  function ParseTerse(output: string): seq<Entry> {
    Collect(ParseEntry, SplitAt(Strip(output), '\n'))
  }

  method ReadEntry(line: string) returns (entry: Option<Entry>)
    ensures entry == ParseEntry(line)
  {
    var r := ParseLine(line);
    if r.None? {
      return None;
    }
    var fields: Entry := map[Index := Num(r.value.index), Flags := Str(r.value.flags)];
    var pairs := r.value.pairs;
    var i := 0;
    while i < |pairs|
      invariant 0 <= i <= |pairs|
      invariant Entered(fields, pairs[i..]) == EntryOf(r.value)
    {
      fields := fields[KeyOf(pairs[i].0) := Str(pairs[i].1)];
      i := i + 1;
    }
    entry := Some(fields);
  }

  method ReadLines(lines: seq<string>) returns (results: seq<Entry>)
    ensures results == Collect(ParseEntry, lines)
  {
    results := [];
    ghost var parse: string -> Option<Entry> := ParseEntry;
    var i := 0;
    while i < |lines|
      invariant 0 <= i <= |lines|
      invariant results == Collect(parse, lines[..i])
    {
      var entry := ReadEntry(lines[i]);
      CollectNext(parse, lines, i, results, entry);
      if entry.Some? {
        results := results + [entry.value];
      }
      i := i + 1;
    }
    assert lines[..i] == lines;
  }

  /** `_parse_emareos_terse`: one dictionary for each line that is not skipped. */
  method ParseEmareosTerse(output: string) returns (results: seq<Entry>)
    ensures results == ParseTerse(output)
  {
    results := ReadLines(SplitAt(Strip(output), '\n'));
  }

  // ---------- Printing, as the parser's format prescribes ----------

  /** Letters, digits, underscores and hyphens. */
  predicate KeyChar(c: char) {
    'a' <= c <= 'z' || 'A' <= c <= 'Z' || '0' <= c <= '9' || c == '_' || c == '-'
  }

  predicate IsKey(k: string) { k != [] && forall c :: c in k ==> KeyChar(c) }

  /** A value Quote accepts, and that has no white space but the space unless it is quoted. */
  predicate Printable(v: string) {
    Quote(v).Some? && (!NeedsQuotes(v) ==> forall c :: c in v ==> !IsSpace(c))
  }

  predicate Wellformed(r: Record) {
    && (forall c :: c in r.flags ==> 'A' <= c <= 'Z')
    && r.pairs != []
    && forall p :: p in r.pairs ==> IsKey(p.0) && Printable(p.1)
  }

  function PrintPair(p: (string, string)): string
    requires Printable(p.1)
  {
    p.0 + "=" + Quote(p.1).value
  }

  function PrintPairs(pairs: seq<(string, string)>): string
    requires forall p :: p in pairs ==> Printable(p.1)
    decreases pairs, 0
  {
    if pairs == [] then [] else PrintPair(pairs[0]) + PrintMore(pairs[1..])
  }

  function PrintMore(pairs: seq<(string, string)>): string
    requires forall p :: p in pairs ==> Printable(p.1)
    decreases pairs, 1
  {
    if pairs == [] then [] else " " + PrintPairs(pairs)
  }

  function PrintFlags(flags: string): string {
    if flags == [] then [] else flags + " "
  }

  /** What follows the index on a line. */
  function PrintRest(r: Record): string
    requires forall p :: p in r.pairs ==> Printable(p.1)
  {
    PrintFlags(r.flags) + PrintPairs(r.pairs)
  }

  function PrintLine(r: Record): string
    requires forall p :: p in r.pairs ==> Printable(p.1)
  {
    Digits(r.index) + " " + PrintRest(r)
  }

  /** What the parser hands back for a printed value. */
  function ReadBack(v: string): string { if NeedsQuotes(v) then Escape(v) else v }

  function ReadBackAll(pairs: seq<(string, string)>): seq<(string, string)> {
    seq(|pairs|, i requires 0 <= i < |pairs| => (pairs[i].0, ReadBack(pairs[i].1)))
  }

  function Returned(r: Record): Record { r.(pairs := ReadBackAll(r.pairs)) }

  // ---------- Quoting is reversible ----------

  function Unescape(s: string): string {
    if s == [] then []
    else if s[0] == '\\' && |s| > 1 then [s[1]] + Unescape(s[2..])
    else [s[0]] + Unescape(s[1..])
  }

  function EscapeChar(c: char): string {
    if c == '\\' then "\\\\" else if c == '"' then "\\\"" else [c]
  }

  lemma {:induction false} ReplaceConcat(a: string, b: string, c: char, with: string)
    ensures Replace(a + b, c, with) == Replace(a, c, with) + Replace(b, c, with)
  {
    if a == [] {
      assert a + b == b;
    } else {
      assert (a + b)[1..] == a[1..] + b;
      ReplaceConcat(a[1..], b, c, with);
    }
  }

  /** The two replacements, one after the other, escape each character for itself. */
  lemma EscapeFirst(s: string)
    requires s != []
    ensures Escape(s) == EscapeChar(s[0]) + Escape(s[1..])
  {
    var head := if s[0] == '\\' then "\\\\" else [s[0]];
    ReplaceConcat(head, Replace(s[1..], '\\', "\\\\"), '"', "\\\"");
    assert Replace(head, '"', "\\\"") == EscapeChar(s[0]) by {
      if s[0] == '\\' {
        assert head[1..] == "\\" && head[1..][1..] == [];
      } else {
        assert head[1..] == [];
      }
    }
  }

  lemma {:induction false} UnescapeEscape(v: string)
    ensures Unescape(Escape(v)) == v
  {
    if v != [] {
      EscapeFirst(v);
      UnescapeEscape(v[1..]);
      var e := Escape(v);
      assert e[|EscapeChar(v[0])|..] == Escape(v[1..]);
    }
  }

  lemma {:induction false} EscapeLength(v: string)
    ensures |Escape(v)| >= |v|
    ensures |Escape(v)| == |v| <==> '"' !in v && '\\' !in v
    ensures |Escape(v)| == |v| ==> Escape(v) == v
    ensures '\n' in Escape(v) <==> '\n' in v
  {
    if v != [] {
      EscapeFirst(v);
      EscapeLength(v[1..]);
      assert v == [v[0]] + v[1..];
    }
  }

  /** No backslash stands in front of another character. */
  predicate EscapesNothing(s: string) { forall i :: 0 <= i < |s| - 1 ==> s[i] != '\\' }

  /** The parsed value is the printed one exactly unless it was quoted and holds a quote or
      a backslash; it unescapes to the printed one exactly if it was quoted or its
      backslashes escape nothing. */
  lemma ReadBackMeaning(v: string)
    ensures ReadBack(v) == v <==> !(NeedsQuotes(v) && ('"' in v || '\\' in v))
    ensures Unescape(ReadBack(v)) == v <==> NeedsQuotes(v) || EscapesNothing(v)
  {
    EscapeLength(v);
    UnescapeEscape(v);
    UnescapeLength(v);
  }

  lemma {:induction false} UnescapeLength(s: string)
    ensures |Unescape(s)| <= |s|
    ensures Unescape(s) == s <==> EscapesNothing(s)
    ensures Unescape(s) == s <==> |Unescape(s)| == |s|
    decreases |s|
  {
    if |s| > 1 {
      if s[0] == '\\' {
        UnescapeLength(s[2..]);
      } else {
        UnescapeLength(s[1..]);
        assert s == [s[0]] + s[1..];
        if !EscapesNothing(s) {
          var i :| 0 <= i < |s| - 1 && s[i] == '\\';
          assert s[1..][i - 1] == s[i];
        }
      }
    }
  }

  // ---------- Which values are refused, and how the others are quoted ----------

  /** A value is refused exactly if it holds a semicolon, a newline, a carriage return or a
      NUL: any of these could end the command. */
  lemma RefusedExactly(v: string)
    ensures Quote(v).None? <==> ';' in v || '\n' in v || '\r' in v || '\0' in v
  {
    if c :| c in v && Dangerous(c) {
      assert c in {';', '\n', '\r', '\0'};
    }
    assert Dangerous(';') && Dangerous('\n') && Dangerous('\r') && Dangerous('\0');
  }

  lemma {:induction false} EscapeAddsNothingElse(v: string, c: char)
    requires c != '\\' && c != '"'
    ensures c in Escape(v) <==> c in v
  {
    if v != [] {
      EscapeFirst(v);
      EscapeAddsNothingElse(v[1..], c);
      assert v == [v[0]] + v[1..];
    }
  }

  /** No quoted text holds one of these characters. */
  lemma QuotedTextIsSafe(v: string)
    requires Quote(v).Some?
    ensures var q := Quote(v).value; ';' !in q && '\n' !in q && '\r' !in q && '\0' !in q
  {
    RefusedExactly(v);
    EscapeAddsNothingElse(v, ';');
    EscapeAddsNothingElse(v, '\n');
    EscapeAddsNothingElse(v, '\r');
    EscapeAddsNothingElse(v, '\0');
  }

  /** An accepted value is given as it is if it is not empty and holds neither space nor
      quote; otherwise between quotes, with a text that unescapes to it and in which the
      closing quote is the first one that is not escaped. */
  lemma QuotedExactly(v: string)
    requires Quote(v).Some?
    ensures v != [] && ' ' !in v && '"' !in v ==> Quote(v).value == v
    ensures v == [] || ' ' in v || '"' in v ==>
              var q := Quote(v).value;
              && |q| >= 2 && q[0] == '"' && q[|q| - 1] == '"'
              && Unescape(q[1..|q| - 1]) == v && Close(q[1..]) == Some(|q| - 2)
  {
    if v == [] || ' ' in v || '"' in v {
      var q, e := Quote(v).value, Escape(v);
      assert q == "\"" + e + "\"";
      assert q[1..|q| - 1] == e && q[1..] == e + ['"'];
      UnescapeEscape(v);
      CloseOfEscaped(v, ['"']);
    }
  }

  // ---------- What is no pair, and what is no line ----------

  /** A character that is no letter, digit, underscore or hyphen belongs to no key. */
  lemma OtherCharsArePassedOver(c: char, s: string)
    requires !('a' <= c <= 'z' || 'A' <= c <= 'Z' || '0' <= c <= '9' || c == '_' || c == '-')
    ensures ScanPairs([c] + s) == ScanPairs(s)
  {
    var t := [c] + s;
    assert t[1..] == s && Run(IsKeyChar, t) == 0;
  }

  /** A quote that is not closed is an ordinary character of an unquoted value. */
  lemma UnclosedQuoteIsOrdinary(s: string)
    requires s != [] && s[0] == '"' && forall i :: 0 < i < |s| ==> s[i] != '"'
    ensures var (value, n) := ReadValue(s);
            && value == s[..n] && (forall i :: 0 <= i < n ==> !IsSpace(s[i])) && (n < |s| ==> IsSpace(s[n]))
  {
    assert forall i :: 0 <= i < |s[1..]| ==> s[1..][i] == s[i + 1];
  }

  /** A line counts exactly if, stripped, it begins with digits and white space: headings and
      comments do not. */
  lemma LinesExactly(raw: string)
    ensures var s := Strip(raw);
            ParseLine(raw).Some? <==>
              exists d :: 0 < d < |s| && IsSpace(s[d]) && forall i :: 0 <= i < d ==> '0' <= s[i] <= '9'
  {
    ReadLineExactly(Strip(raw));
  }

  lemma ReadLineExactly(s: string)
    ensures (!Skipped(s) && ReadLine(s).Some?) <==>
              exists d :: 0 < d < |s| && IsSpace(s[d]) && forall i :: 0 <= i < d ==> '0' <= s[i] <= '9'
  {
    var d := Run(IsDigit, s);
    var w := Run(IsSpace, s[d..]);
    assert w > 0 <==> d < |s| && IsSpace(s[d]) by {
      if d < |s| { assert s[d..][0] == s[d]; }
    }
    if k :| 0 < k < |s| && IsSpace(s[k]) && forall i :: 0 <= i < k ==> '0' <= s[i] <= '9' {
      assert forall i :: 0 <= i < k ==> IsDigit(s[i]);
      assert !IsDigit(s[k]) && d == k;
    }
    if d > 0 {
      assert IsDigit(s[0]);
      DigitLinesAreKept(s);
    }
  }

  // ---------- Parsing what was printed ----------

  /** An escaped character never closes a value. */
  lemma ClosePast(c: char, s: string, k: nat)
    requires Close(s) == Some(k)
    ensures Close(EscapeChar(c) + s) == Some(|EscapeChar(c)| + k)
  {
    var t := EscapeChar(c) + s;
    if c == '\\' || c == '"' {
      assert t[0] == '\\' && t[1] == c && t[2..] == s;
    } else {
      assert t[0] == c && t[1..] == s;
    }
  }

  lemma {:induction false} CloseOfEscaped(v: string, rest: string)
    requires rest != [] && rest[0] == '"'
    ensures Close(Escape(v) + rest) == Some(|Escape(v)|)
  {
    if v == [] {
      assert Escape(v) + rest == rest;
    } else {
      var head, tail := EscapeChar(v[0]), Escape(v[1..]);
      EscapeFirst(v);
      CloseOfEscaped(v[1..], rest);
      ClosePast(v[0], tail + rest, |tail|);
      assert (head + tail) + rest == head + (tail + rest);
    }
  }

  lemma ReadPrintedValue(v: string, rest: string)
    requires Printable(v) && (rest != [] ==> IsSpace(rest[0]))
    ensures ReadValue(Quote(v).value + rest) == (ReadBack(v), |Quote(v).value|)
  {
    var q := Quote(v).value;
    var s := q + rest;
    if v == [] || NeedsQuotes(v) {
      assert Escape([]) == [];
      assert s[1..] == Escape(v) + (['"'] + rest);
      CloseOfEscaped(v, ['"'] + rest);
      assert s[1..|Escape(v)| + 1] == Escape(v);
    } else {
      assert q == v && v[0] in v;
      RunOfBlock(IsNonSpace, v, rest);
    }
  }

  /** A bare value is cut at its first white space: for unquoted values the condition
      on white space is exactly what the round trip needs. */
  lemma BareValueReadsBackExactly(v: string, rest: string)
    requires v != [] && Quote(v) == Some(v) && !NeedsQuotes(v) && (rest != [] ==> IsSpace(rest[0]))
    ensures ReadValue(v + rest).0 == v <==> forall c :: c in v ==> !IsSpace(c)
  {
    assert (v + rest)[0] == v[0] && v[0] in v;
    if forall c :: c in v ==> !IsSpace(c) {
      RunOfBlock(IsNonSpace, v, rest);
      assert (v + rest)[..|v|] == v;
    } else {
      var i :| 0 <= i < |v| && IsSpace(v[i]);
      assert !IsNonSpace((v + rest)[i]);
      assert Run(IsNonSpace, v + rest) <= i;
    }
  }

  /** A key, a `=` and a text whose value takes n characters are scanned as one pair. */
  lemma ScanPair(key: string, text: string, value: string, n: nat)
    requires IsKey(key) && n <= |text| && ReadValue(text) == (value, n)
    ensures ScanPairs(key + (['='] + text)) == [(key, value)] + ScanPairs(text[n..])
  {
    var s := key + (['='] + text);
    RunOfBlock(IsKeyChar, key, ['='] + text);
    assert s[..|key|] == key && s[|key|] == '=' && s[|key| + 1..] == text;
  }

  lemma ScanOnePair(key: string, v: string, rest: string)
    requires IsKey(key) && Printable(v) && (rest != [] ==> IsSpace(rest[0]))
    ensures ScanPairs(key + "=" + Quote(v).value + rest) == [(key, ReadBack(v))] + ScanPairs(rest)
  {
    ReadPrintedValue(v, rest);
    PairFollowed(key, Quote(v).value, rest);
    ScanPair(key, Quote(v).value + rest, ReadBack(v), |Quote(v).value|);
  }

  lemma PairFollowed(key: string, q: string, rest: string)
    ensures key + "=" + q + rest == key + (['='] + (q + rest))
    ensures (q + rest)[|q|..] == rest
  {
  }

  lemma ScanMore(pairs: seq<(string, string)>)
    requires forall p :: p in pairs ==> Printable(p.1)
    ensures ScanPairs(PrintMore(pairs)) == ScanPairs(PrintPairs(pairs))
    ensures PrintMore(pairs) != [] ==> IsSpace(PrintMore(pairs)[0])
  {
    if pairs != [] {
      var s := PrintMore(pairs);
      assert s[1..] == PrintPairs(pairs);
      assert Run(IsKeyChar, s) == 0;
    }
  }

  lemma ReadBackFirst(pairs: seq<(string, string)>)
    requires pairs != []
    ensures ReadBackAll(pairs) == [(pairs[0].0, ReadBack(pairs[0].1))] + ReadBackAll(pairs[1..])
  {
  }

  lemma {:induction false} ScanPrintedPairs(pairs: seq<(string, string)>)
    requires forall p :: p in pairs ==> IsKey(p.0) && Printable(p.1)
    ensures ScanPairs(PrintPairs(pairs)) == ReadBackAll(pairs)
  {
    if pairs != [] {
      assert pairs[0] in pairs;
      var (key, v) := pairs[0];
      ScanMore(pairs[1..]);
      ScanOnePair(key, v, PrintMore(pairs[1..]));
      ScanPrintedPairs(pairs[1..]);
      ReadBackFirst(pairs);
    }
  }

  lemma QuotedShape(v: string)
    requires Printable(v)
    ensures var q := Quote(v).value; q != [] && !IsSpace(q[|q| - 1]) && '\n' !in q
  {
    EscapeLength(v);
    if v != [] && !NeedsQuotes(v) { assert v[|v| - 1] in v; }
  }

  lemma OnePairShape(key: string, v: string, rest: string)
    requires IsKey(key) && Printable(v) && '\n' !in rest && (rest != [] ==> !IsSpace(rest[|rest| - 1]))
    ensures var s := key + "=" + Quote(v).value + rest;
            && s != [] && !IsSpace(s[|s| - 1]) && '\n' !in s
            && Run(IsKeyChar, s) == |key| && s[|key|] == '='
  {
    QuotedShape(v);
    KeyedShape(key, Quote(v).value + rest);
    PairFollowed(key, Quote(v).value, rest);
  }

  lemma KeyedShape(key: string, text: string)
    requires IsKey(key) && text != [] && !IsSpace(text[|text| - 1]) && '\n' !in text
    ensures var s := key + (['='] + text);
            && s != [] && !IsSpace(s[|s| - 1]) && '\n' !in s
            && Run(IsKeyChar, s) == |key| && s[|key|] == '='
  {
    var s := key + (['='] + text);
    assert '\n' !in key;
    RunOfBlock(IsKeyChar, key, ['='] + text);
    assert s[|s| - 1] == text[|text| - 1];
  }

  lemma {:induction false} PrintedPairsShape(pairs: seq<(string, string)>)
    requires pairs != [] && forall p :: p in pairs ==> IsKey(p.0) && Printable(p.1)
    ensures var s := PrintPairs(pairs);
            && s != [] && !IsSpace(s[|s| - 1]) && '\n' !in s
            && var k := Run(IsKeyChar, s); 0 < k < |s| && s[k] == '='
    decreases |pairs|
  {
    assert pairs[0] in pairs;
    if |pairs| > 1 { PrintedPairsShape(pairs[1..]); }
    OnePairShape(pairs[0].0, pairs[0].1, PrintMore(pairs[1..]));
  }

  /** The pairs do not start with something that reads as flags. */
  lemma PairsAreNoFlags(s: string)
    requires var k := Run(IsKeyChar, s); 0 < k < |s| && s[k] == '='
    ensures ReadFlags(s) == ([], 0)
  {
    var k, u := Run(IsKeyChar, s), Run(IsUpper, s);
    assert !IsUpper(s[k]);
    assert u <= k;
    assert !IsSpace(s[u]);
    assert s[u..][0] == s[u];
  }

  lemma FlagsAreRead(flags: string, s: string)
    requires flags != [] && forall c :: c in flags ==> IsUpper(c)
    requires s != [] && !IsSpace(s[0])
    ensures ReadFlags(flags + " " + s) == (flags, |flags| + 1)
    ensures (flags + " " + s)[|flags| + 1..] == s
  {
    var t := flags + " " + s;
    assert t == flags + (" " + s);
    RunOfBlock(IsUpper, flags, " " + s);
    assert t[|flags|..] == " " + s;
    RunOfBlock(IsSpace, " ", s);
    assert t[..|flags|] == flags;
  }

  lemma ReadPrintedFlags(flags: string, s: string)
    requires forall c :: c in flags ==> IsUpper(c)
    requires s != [] && !IsSpace(s[0]) && ReadFlags(s) == ([], 0)
    ensures ReadFlags(PrintFlags(flags) + s) == (flags, |PrintFlags(flags)|)
    ensures (PrintFlags(flags) + s)[|PrintFlags(flags)|..] == s
    ensures !IsSpace((PrintFlags(flags) + s)[0])
  {
    if flags == [] {
      assert PrintFlags(flags) + s == s;
    } else {
      FlagsAreRead(flags, s);
      assert PrintFlags(flags) + s == flags + " " + s && |PrintFlags(flags)| == |flags| + 1;
      assert flags[0] in flags && (flags + " " + s)[0] == flags[0];
    }
  }

  lemma DigitLinesAreKept(line: string)
    requires line != [] && IsDigit(line[0])
    ensures !Skipped(line)
  {
    assert "Columns:"[0] == 'C' && "Flags:"[0] == 'F' && "#"[0] == '#';
  }

  lemma ReadIndex(d: string, rest: string)
    requires d != [] && forall c :: c in d ==> IsDigit(c)
    requires rest != [] && !IsSpace(rest[0])
    ensures var line := d + " " + rest;
            && Run(IsDigit, line) == |d| && line[..|d|] == d
            && Run(IsSpace, line[|d|..]) == 1 && line[|d| + 1..] == rest
            && IsDigit(line[0]) && !IsSpace(line[0])
  {
    var line := d + " " + rest;
    assert line == d + (" " + rest);
    assert d[0] in d && line[0] == d[0];
    RunOfBlock(IsDigit, d, " " + rest);
    assert line[|d|..] == " " + rest;
    RunOfBlock(IsSpace, " ", rest);
  }

  /** The index, the flags and the pairs of a line are read off one after the other. */
  lemma ParseShapedLine(d: string, rest: string, flags: string, n: nat)
    requires d != [] && forall c :: c in d ==> IsDigit(c)
    requires rest != [] && !IsSpace(rest[0]) && !IsSpace(rest[|rest| - 1])
    requires ReadFlags(rest) == (flags, n)
    ensures ParseLine(d + " " + rest) == Some(Record(NatOf(d), flags, ScanPairs(rest[n..])))
  {
    var line := d + " " + rest;
    ReadIndex(d, rest);
    assert line[|line| - 1] == rest[|rest| - 1];
    StripTight(line);
    DigitLinesAreKept(line);
  }

  lemma PrintedRestFlags(r: Record)
    requires Wellformed(r)
    ensures var rest := PrintRest(r);
            && rest != [] && !IsSpace(rest[0])
            && ReadFlags(rest) == (r.flags, |PrintFlags(r.flags)|)
            && rest[|PrintFlags(r.flags)|..] == PrintPairs(r.pairs)
  {
    var body := PrintPairs(r.pairs);
    PrintedPairsShape(r.pairs);
    PairsAreNoFlags(body);
    ReadPrintedFlags(r.flags, body);
  }

  lemma FlaggedShape(flags: string, body: string)
    requires (forall c :: c in flags ==> IsUpper(c)) && body != [] && !IsSpace(body[|body| - 1]) && '\n' !in body
    ensures var rest := PrintFlags(flags) + body;
            rest != [] && !IsSpace(rest[|rest| - 1]) && '\n' !in rest
  {
    var rest := PrintFlags(flags) + body;
    assert rest[|rest| - 1] == body[|body| - 1];
    assert '\n' !in flags;
  }

  lemma PrintedRestShape(r: Record)
    requires Wellformed(r)
    ensures var rest := PrintRest(r);
            rest != [] && !IsSpace(rest[|rest| - 1]) && '\n' !in rest
  {
    PrintedPairsShape(r.pairs);
    FlaggedShape(r.flags, PrintPairs(r.pairs));
  }

  /** A printed record parses to its own index, flags, keys and values. */
  lemma ParsePrintedLine(r: Record)
    requires Wellformed(r)
    ensures ParseLine(PrintLine(r)) == Some(Returned(r))
  {
    PrintedRestShape(r);
    PrintedRestFlags(r);
    ParseShapedLine(Digits(r.index), PrintRest(r), r.flags, |PrintFlags(r.flags)|);
    NatOfDigits(r.index);
    ScanPrintedPairs(r.pairs);
  }

  lemma IndexedLineShape(d: string, rest: string)
    requires d != [] && forall c :: c in d ==> IsDigit(c)
    requires rest != [] && !IsSpace(rest[|rest| - 1]) && '\n' !in rest
    ensures var line := d + " " + rest;
            line != [] && !IsSpace(line[0]) && !IsSpace(line[|line| - 1]) && '\n' !in line
  {
    var line := d + " " + rest;
    assert d[0] in d && line[0] == d[0];
    assert line[|line| - 1] == rest[|rest| - 1];
    assert '\n' !in d;
  }

  lemma PrintedLineShape(r: Record)
    requires Wellformed(r)
    ensures var line := PrintLine(r);
            line != [] && !IsSpace(line[0]) && !IsSpace(line[|line| - 1]) && '\n' !in line
  {
    var d, rest := Digits(r.index), PrintRest(r);
    PrintedRestShape(r);
    IndexedLineShape(d, rest);
    assert PrintLine(r) == d + " " + rest;
  }

  /** A record without pairs does not come back: without flags its line is skipped,
      and flags at the end of a line are not read as flags. */
  lemma RecordsWithoutPairsAreLost(index: nat, flags: string)
    requires forall c :: c in flags ==> IsUpper(c)
    ensures ParseLine(PrintLine(Record(index, flags, [])))
         == if flags == [] then None else Some(Record(index, [], []))
  {
    var d := Digits(index);
    NatOfDigits(index);
    if flags == [] {
      assert PrintLine(Record(index, flags, [])) == d + " ";
      LoneIndexIsSkipped(d);
    } else {
      assert PrintLine(Record(index, flags, [])) == d + " " + flags + " ";
      LoneFlagsAreNoFlags(d, flags);
    }
  }

  lemma LoneIndexIsSkipped(d: string)
    requires d != [] && forall c :: c in d ==> IsDigit(c)
    ensures ParseLine(d + " ") == None
  {
    assert d[0] in d && d[|d| - 1] in d;
    TrailingSpace(d);
    RunOfBlock(IsDigit, d, []);
    assert d + [] == d;
  }

  lemma LoneFlagsAreNoFlags(d: string, flags: string)
    requires d != [] && forall c :: c in d ==> IsDigit(c)
    requires flags != [] && forall c :: c in flags ==> IsUpper(c)
    ensures ParseLine(d + " " + flags + " ") == Some(Record(NatOf(d), [], []))
  {
    LoneFlagsShape(d, flags);
    ParseShapedLine(d, flags, [], 0);
    TrailingSpaceIgnored(d + " " + flags, Record(NatOf(d), [], ScanPairs(flags[0..])));
    ScanFlagsOnly(flags);
    assert flags[0..] == flags;
  }

  lemma LoneFlagsShape(d: string, flags: string)
    requires d != [] && forall c :: c in d ==> IsDigit(c)
    requires flags != [] && forall c :: c in flags ==> IsUpper(c)
    ensures ReadFlags(flags) == ([], 0)
    ensures !IsSpace(flags[0]) && !IsSpace(flags[|flags| - 1])
    ensures var line := d + " " + flags; !IsSpace(line[0]) && !IsSpace(line[|line| - 1])
  {
    assert d[0] in d && flags[0] in flags && flags[|flags| - 1] in flags;
    assert (d + " " + flags)[0] == d[0];
    RunOfBlock(IsUpper, flags, []);
    assert flags + [] == flags;
  }

  lemma TrailingSpaceIgnored(line: string, r: Record)
    requires line != [] && !IsSpace(line[0]) && !IsSpace(line[|line| - 1])
    requires ParseLine(line) == Some(r)
    ensures ParseLine(line + " ") == Some(r)
  {
    TrailingSpace(line);
    StripTight(line);
  }

  lemma {:induction false} ScanFlagsOnly(flags: string)
    requires forall c :: c in flags ==> IsUpper(c)
    ensures ScanPairs(flags) == []
  {
    if flags != [] {
      RunOfBlock(IsKeyChar, flags, []);
      assert flags + [] == flags;
      ScanFlagsOnly(flags[1..]);
    }
  }

  lemma TrailingSpace(s: string)
    requires s != [] && !IsSpace(s[0]) && !IsSpace(s[|s| - 1])
    ensures Strip(s + " ") == s
  {
    assert (s + " ")[..|s|] == s;
    assert StripLeft(s + " ") == s + " ";
    assert StripRight(s + " ") == StripRight(s);
  }

  function PrintLines(rs: seq<Record>): seq<string>
    requires forall r :: r in rs ==> Wellformed(r)
  {
    seq(|rs|, i requires 0 <= i < |rs| && Wellformed(rs[i]) => PrintLine(rs[i]))
  }

  function ReturnedEntries(rs: seq<Record>): seq<Entry> {
    seq(|rs|, i requires 0 <= i < |rs| => EntryOf(Returned(rs[i])))
  }

  lemma {:induction false} JoinEnds(lines: seq<string>)
    requires lines != []
    requires forall l :: l in lines ==> l != [] && !IsSpace(l[0]) && !IsSpace(l[|l| - 1])
    ensures var s := Join(lines, '\n'); s != [] && !IsSpace(s[0]) && !IsSpace(s[|s| - 1])
  {
    assert lines[0] in lines;
    if |lines| > 1 { JoinEnds(lines[1..]); }
  }

  lemma PrintedLinesShape(rs: seq<Record>)
    requires forall r :: r in rs ==> Wellformed(r)
    ensures forall l :: l in PrintLines(rs) ==> l != [] && !IsSpace(l[0]) && !IsSpace(l[|l| - 1]) && '\n' !in l
  {
    forall l | l in PrintLines(rs) ensures l != [] && !IsSpace(l[0]) && !IsSpace(l[|l| - 1]) && '\n' !in l {
      var i :| 0 <= i < |rs| && PrintLines(rs)[i] == l;
      assert rs[i] in rs;
      PrintedLineShape(rs[i]);
    }
  }

  lemma ParsePrintedEntry(r: Record)
    requires Wellformed(r)
    ensures ParseEntry(PrintLine(r)) == Some(EntryOf(Returned(r)))
  {
    ParsePrintedLine(r);
  }

  lemma ParsePrintedLines(rs: seq<Record>)
    requires forall r :: r in rs ==> Wellformed(r)
    ensures Collect(ParseEntry, PrintLines(rs)) == ReturnedEntries(rs)
  {
    forall i | 0 <= i < |rs| ensures ParseEntry(PrintLines(rs)[i]) == Some(ReturnedEntries(rs)[i]) {
      assert rs[i] in rs;
      ParsePrintedEntry(rs[i]);
    }
    CollectAll(ParseEntry, PrintLines(rs), ReturnedEntries(rs));
  }

  /** Printing any records, one line each, and parsing the output gives all of them back. */
  lemma ParsePrinted(rs: seq<Record>)
    requires forall r :: r in rs ==> Wellformed(r)
    ensures ParseTerse(Join(PrintLines(rs), '\n')) == ReturnedEntries(rs)
  {
    var lines := PrintLines(rs);
    if rs == [] {
      NothingPrinted();
    } else {
      PrintedLinesShape(rs);
      JoinEnds(lines);
      StripTight(Join(lines, '\n'));
      SplitOfJoin(lines, '\n');
      ParsePrintedLines(rs);
    }
  }

  lemma NothingPrinted()
    ensures ParseTerse([]) == []
  {
    assert Strip([]) == [];
    assert ParseEntry([]) == None by {
      assert Skipped([]);
    }
    assert SplitAt([], '\n') == [[]];
    assert Collect(ParseEntry, [[]]) == Collect(ParseEntry, [[]][1..]);
  }

  /** With distinct keys the dictionary holds, next to what it held before, exactly the
      keys of the pairs, each with its own value. */
  lemma {:induction false} EnteredKeys(entry: Entry, pairs: seq<(string, string)>)
    requires forall i, j :: 0 <= i < j < |pairs| ==> KeyOf(pairs[i].0) != KeyOf(pairs[j].0)
    ensures forall k :: k in Entered(entry, pairs) <==>
              k in entry || exists i :: 0 <= i < |pairs| && KeyOf(pairs[i].0) == k
    ensures forall i :: 0 <= i < |pairs| ==> Entered(entry, pairs)[KeyOf(pairs[i].0)] == Str(pairs[i].1)
    ensures forall k :: k in entry && (forall i :: 0 <= i < |pairs| ==> KeyOf(pairs[i].0) != k) ==>
              Entered(entry, pairs)[k] == entry[k]
    decreases |pairs|
  {
    if pairs != [] {
      var more, next := pairs[1..], entry[KeyOf(pairs[0].0) := Str(pairs[0].1)];
      EnteredKeys(next, more);
      assert forall i :: 0 < i < |pairs| ==> pairs[i] == more[i - 1];
      assert forall i :: 0 <= i < |more| ==> more[i] == pairs[i + 1];
    }
  }

  lemma KeysDiffer(a: string, b: string)
    ensures KeyOf(a) == KeyOf(b) <==> a == b
  {
    assert "_index"[1] == 'i' && "_flags"[1] == 'f';
  }

  lemma EntryHolds(r: Record)
    requires forall i, j :: 0 <= i < j < |r.pairs| ==> r.pairs[i].0 != r.pairs[j].0
    requires forall i :: 0 <= i < |r.pairs| ==> KeyOf(r.pairs[i].0).Name?
    ensures var e := EntryOf(r);
            && (forall k :: k in e <==>
                  k == Index || k == Flags || exists i :: 0 <= i < |r.pairs| && KeyOf(r.pairs[i].0) == k)
            && e[Index] == Num(r.index) && e[Flags] == Str(r.flags)
            && forall i :: 0 <= i < |r.pairs| ==> e[KeyOf(r.pairs[i].0)] == Str(r.pairs[i].1)
  {
    forall i, j | 0 <= i < j < |r.pairs| ensures KeyOf(r.pairs[i].0) != KeyOf(r.pairs[j].0) {
      KeysDiffer(r.pairs[i].0, r.pairs[j].0);
    }
    EnteredKeys(map[Index := Num(r.index), Flags := Str(r.flags)], r.pairs);
  }

  /** Of pairs with the same key the last one counts, also over the parser's own entries. */
  lemma {:induction false} LastPairCounts(entry: Entry, pairs: seq<(string, string)>, i: nat)
    requires i < |pairs| && forall j :: i < j < |pairs| ==> KeyOf(pairs[j].0) != KeyOf(pairs[i].0)
    ensures KeyOf(pairs[i].0) in Entered(entry, pairs)
    ensures Entered(entry, pairs)[KeyOf(pairs[i].0)] == Str(pairs[i].1)
    decreases |pairs|
  {
    var more, next := pairs[1..], entry[KeyOf(pairs[0].0) := Str(pairs[0].1)];
    assert forall j :: 0 < j < |pairs| ==> pairs[j] == more[j - 1];
    assert forall j :: 0 <= j < |more| ==> more[j] == pairs[j + 1];
    if i == 0 {
      OtherPairsKeep(next, more, KeyOf(pairs[0].0));
    } else {
      LastPairCounts(next, more, i - 1);
    }
  }

  lemma {:induction false} OtherPairsKeep(entry: Entry, pairs: seq<(string, string)>, k: Key)
    requires k in entry && forall j :: 0 <= j < |pairs| ==> KeyOf(pairs[j].0) != k
    ensures k in Entered(entry, pairs) && Entered(entry, pairs)[k] == entry[k]
    decreases |pairs|
  {
    if pairs != [] {
      assert forall j :: 0 <= j < |pairs[1..]| ==> pairs[1..][j] == pairs[j + 1];
      OtherPairsKeep(entry[KeyOf(pairs[0].0) := Str(pairs[0].1)], pairs[1..], k);
    }
  }

  /** A line that names `_index` or `_flags` as a key overwrites the parser's own entries. */
  lemma OwnEntriesAreOverwritten(index: nat, flags: string, v: string)
    ensures EntryOf(Record(index, flags, [("_index", v)])) == map[Index := Str(v), Flags := Str(flags)]
    ensures EntryOf(Record(index, flags, [("_flags", v)])) == map[Index := Num(index), Flags := Str(v)]
  {
    var a, b := [("_index", v)], [("_flags", v)];
    var entry: Entry := map[Index := Num(index), Flags := Str(flags)];
    assert a[1..] == [] && b[1..] == [];
    assert KeyOf("_index") == Index && KeyOf("_flags") == Flags by {
      assert "_index"[1] == 'i' && "_flags"[1] == 'f';
    }
    assert Entered(entry, a) == Entered(entry[Index := Str(v)], []);
    assert Entered(entry, b) == Entered(entry[Flags := Str(v)], []);
  }
}
