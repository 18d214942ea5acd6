/** EnvFileConfigurationProvider.Load: turns the lines of a .env file into
    the provider's key/value data. */
module EnvFileParser {
  import opened Text
  import opened Sequences

  /** What one line of a .env file contributes. */
  datatype Line =
    | Blank                              // nothing but white space
    | Comment                            // first non-blank character is '#'
    | NoSeparator                        // no '=' anywhere: silently skipped
    | Entry(key: string, value: string)  // a key/value pair

  /** A value that starts and ends with a double quote, the two being distinct characters. */
  predicate IsQuoted(value: string) {
    |value| >= 2 && value[0] == '"' && value[|value| - 1] == '"'
  }

  /** Removes one pair of surrounding double quotes, if present: quoting
      the result again gives the value back, and a value without such a
      pair is left alone. Only the outer pair goes. */
  function StripQuotes(value: string): (r: string)
    ensures IsQuoted(value) ==> Quote(r) == value
    ensures !IsQuoted(value) ==> r == value
  {
    if IsQuoted(value) then value[1..|value| - 1] else value
  }

  /** line, once trimmed, splits at its first '=' into key and value. */
  ghost predicate SplitsAtFirstEquals(line: string, key: string, value: string) {
    exists i :: 0 <= i < |line| && line[i] == '=' && '=' !in line[..i]
                && key == Trim(line[..i]) && value == StripQuotes(Trim(line[i + 1..]))
  }

  /** Classifies one line the way the body of the read loop does. */
  function ParseLine(raw: string): (r: Line)
    ensures r.Entry? ==> IsTrimmed(r.key) && '=' !in r.key
  {
    var line := Trim(raw);
    if line == [] then Blank
    else if line[0] == '#' then Comment
    else
      var i := IndexOf(line, '=');
      if i == -1 then NoSeparator
      else
        TrimKeepsAbsent(line[..i], '=');
        Entry(Trim(line[..i]), StripQuotes(Trim(line[i + 1..])))
  }

  /** Which of the four outcomes a line has, in terms of its trimmed text:
      blank, comment and missing '=' each exactly when the loop skips it for
      that reason, and an entry splits the text at its first '='. */
  lemma ParseLineCases(raw: string)
    ensures ParseLine(raw) == Blank <==> Trim(raw) == []
    ensures ParseLine(raw) == Comment <==> Trim(raw) != [] && Trim(raw)[0] == '#'
    ensures ParseLine(raw) == NoSeparator <==> Trim(raw) != [] && Trim(raw)[0] != '#' && '=' !in Trim(raw)
    ensures ParseLine(raw).Entry? <==> Trim(raw) != [] && Trim(raw)[0] != '#' && '=' in Trim(raw)
    ensures ParseLine(raw).Entry? ==> SplitsAtFirstEquals(Trim(raw), ParseLine(raw).key, ParseLine(raw).value)
  {
  }

  /** The line a .env writer emits for a pair: KEY="value". */
  function FormatEntry(key: string, value: string): string {
    key + "=" + Quote(value)
  }

  /** A key that survives a write/read round trip: trimmed, free of '=',
      and not starting with '#'. */
  predicate IsPlainKey(key: string) {
    IsTrimmed(key) && '=' !in key && (key == [] || key[0] != '#')
  }

  /** Reading back a written line gives the pair that was written, whatever
      the value holds: white space, '=', '#' and quotes all survive. */
  lemma ParseFormattedEntry(key: string, value: string)
    requires IsPlainKey(key)
    ensures ParseLine(FormatEntry(key, value)) == Entry(key, value)
  {
    var line := FormatEntry(key, value);
    FormattedEntryLayout(key, value);
    TrimOfTrimmed(line);
    IndexOfFirst(line, '=', |key|);
    TrimOfTrimmed(key);
    TrimOfTrimmed(Quote(value));
    SplitEntry(line, |key|);
  }

  /** value between a pair of double quotes. */
  function Quote(value: string): (r: string)
    ensures IsQuoted(r) && IsTrimmed(r)
  {
    "\"" + value + "\""
  }

  /** Quoting and then stripping gives the value back, whatever it holds,
      quotes included. */
  lemma StripQuotesOfQuote(value: string)
    ensures StripQuotes(Quote(value)) == value
  {
    var q := Quote(value);
    assert q[1..|q| - 1] == value;
  }

  /** Where the pieces of a written line sit. */
  lemma FormattedEntryLayout(key: string, value: string)
    requires IsPlainKey(key)
    ensures IsTrimmed(FormatEntry(key, value))
    ensures FormatEntry(key, value)[..|key|] == key
    ensures |key| < |FormatEntry(key, value)| && FormatEntry(key, value)[|key|] == '='
    ensures FormatEntry(key, value)[|key| + 1..] == Quote(value)
    ensures FormatEntry(key, value)[0] != '#'
  {
    var line := FormatEntry(key, value);
    assert line == key + "=" + Quote(value);
  }

  /** A trimmed line that is not a comment and has its first '=' at i is
      the entry whose key and value are the trimmed text around that '='. */
  lemma SplitEntry(line: string, i: nat)
    requires Trim(line) == line && line != [] && line[0] != '#'
    requires IndexOf(line, '=') == i
    requires i < |line|
    ensures ParseLine(line) == Entry(Trim(line[..i]), StripQuotes(Trim(line[i + 1..])))
  {
  }

  /** Replays one parsed line onto the data gathered so far. */
  function Apply(data: map<string, string>, line: Line): map<string, string> {
    match line
    case Entry(key, value) => data[key := value]
    case _ => data
  }

  /** Whether a parsed line is an entry for key. */
  predicate IsEntryFor(line: Line, key: string) {
    line.Entry? && line.key == key
  }

  /** Every line of a file, parsed on its own, in file order. */
  function Classify(lines: seq<string>): seq<Line> {
    Map(ParseLine, lines)
  }

  /** Position i of the classification is the parse of line i. */
  lemma ClassifyAt(lines: seq<string>, i: nat)
    requires i < |lines|
    ensures Classify(lines)[i] == ParseLine(lines[i])
  {
    MapAt(ParseLine, lines, i);
  }

  /** Classifying a file in two parts gives the two classifications, joined. */
  lemma ClassifyConcat(a: seq<string>, b: seq<string>)
    ensures Classify(a + b) == Classify(a) + Classify(b)
  {
    MapConcat(ParseLine, a, b);
  }

  /** The data the read loop gathers from parsed lines: each replayed in
      file order onto an empty map. */
  function Collect(parsed: seq<Line>): map<string, string> {
    if |parsed| == 0 then map[] else Apply(Collect(parsed[..|parsed| - 1]), parsed[|parsed| - 1])
  }

  /** Collecting one more line applies it to what was collected before. */
  lemma CollectSnoc(parsed: seq<Line>, line: Line)
    ensures Collect(parsed + [line]) == Apply(Collect(parsed), line)
  {
    assert (parsed + [line])[..|parsed|] == parsed;
  }

  /** Collecting two runs of lines one after the other overlays the second
      run's data on the first's. */
  lemma {:induction false} CollectConcat(a: seq<Line>, b: seq<Line>)
    ensures Collect(a + b) == Collect(a) + Collect(b)
  {
    if |b| > 0 {
      var init := b[..|b| - 1];
      var last := b[|b| - 1];
      assert a + b == (a + init) + [last];
      CollectConcat(a, init);
      CollectSnoc(a + init, last);
    } else {
      assert a + b == a;
    }
  }

  /** A key is collected exactly when some line is an entry for it, and it
      holds the value of the last such entry. */
  lemma {:induction false} CollectKeepsLastEntry(parsed: seq<Line>, key: string)
    ensures key in Collect(parsed) <==> exists i :: 0 <= i < |parsed| && IsEntryFor(parsed[i], key)
    ensures key in Collect(parsed) ==>
              exists i :: 0 <= i < |parsed| && parsed[i] == Entry(key, Collect(parsed)[key])
                          && forall j :: i < j < |parsed| ==> !IsEntryFor(parsed[j], key)
  {
    if |parsed| > 0 {
      var init := parsed[..|parsed| - 1];
      var last := parsed[|parsed| - 1];
      CollectKeepsLastEntry(init, key);
      if IsEntryFor(last, key) {
        assert parsed[|parsed| - 1] == Entry(key, Collect(parsed)[key]);
      } else {
        assert forall i :: 0 <= i < |init| ==> init[i] == parsed[i];
        if key in Collect(parsed) {
          var i :| 0 <= i < |init| && init[i] == Entry(key, Collect(init)[key])
                   && forall j :: i < j < |init| ==> !IsEntryFor(init[j], key);
          assert parsed[i] == Entry(key, Collect(parsed)[key]);
        }
      }
    }
  }

  /** The data Load builds from the lines of a .env file. */
  function Parse(lines: seq<string>): map<string, string> {
    Collect(Classify(lines))
  }

  /** Every stored key is trimmed and free of '='. */
  lemma ParseKeysAreTrimmed(lines: seq<string>, key: string)
    requires key in Parse(lines)
    ensures IsTrimmed(key) && '=' !in key
  {
    CollectKeepsLastEntry(Classify(lines), key);
    var i :| 0 <= i < |lines| && IsEntryFor(Classify(lines)[i], key);
    ClassifyAt(lines, i);
  }

  /** Parsing a file in two parts and overlaying the second on the first
      gives the same data as parsing it whole. */
  lemma ParseConcat(a: seq<string>, b: seq<string>)
    ensures Parse(a + b) == Parse(a) + Parse(b)
  {
    ClassifyConcat(a, b);
    CollectConcat(Classify(a), Classify(b));
  }

  /** A line that is blank, a comment or lacks '=' contributes nothing, and
      the lines after it are read as if it were absent. */
  lemma SkippedLineIsInert(before: seq<string>, line: string, after: seq<string>)
    requires !ParseLine(line).Entry?
    ensures Parse(before + [line] + after) == Parse(before + after)
  {
    ParseConcat(before + [line], after);
    ParseConcat(before, [line]);
    ParseConcat(before, after);
    assert Classify([line]) == [ParseLine(line)] by {
      assert [line][..0] == [];
    }
    assert Collect([ParseLine(line)]) == map[] by {
      assert [ParseLine(line)][..0] == [];
    }
  }

  /** Reading line n applies its parse to the data of the lines before it. */
  lemma ParseStep(lines: seq<string>, n: nat)
    requires n < |lines|
    ensures Parse(lines[..n + 1]) == Apply(Parse(lines[..n]), ParseLine(lines[n]))
  {
    assert lines[..n + 1][..n] == lines[..n];
    CollectSnoc(Classify(lines[..n]), ParseLine(lines[n]));
  }

  /** The provider's state: the dictionary Load assigns to Data. */
  datatype Provider = Provider(data: map<string, string>)

  /** EnvFileConfigurationProvider.Load: reads the lines in order into a
      fresh dictionary, each line classified by ParseLine, and replaces the
      provider's data with it, so nothing the provider held before survives. */
  method Load(provider: Provider, lines: seq<string>) returns (loaded: Provider)
    ensures loaded.data == Parse(lines)
  {
    var data: map<string, string> := map[];
    var n := 0;
    while n < |lines|
      invariant 0 <= n <= |lines|
      invariant data == Parse(lines[..n])
    {
      ParseStep(lines, n);
      match ParseLine(lines[n]) {
        case Entry(key, value) =>
          data := data[key := value];
        case _ =>
      }
      n := n + 1;
    }
    assert lines[..n] == lines;
    loaded := Provider(data);
  }
}
