/** The interpretation GetCommitInfo gives to the text of
    `git status --porcelain=v2 --branch`: its split into lines, the header
    map built from `# <key> <value>` lines with `ToDictionary`, and the
    "any changed entry" test behind the Modified output.
 */
module PorcelainStatus {
  import opened Wrappers
  import Text

  /** `output.Split('\n', '\r')`: a CR LF pair leaves an empty line between. */
  const LineBreaks: set<char> := {'\n', '\r'}

  function Lines(text: string): (lines: seq<string>)
    ensures |lines| >= 1
    ensures forall i :: 0 <= i < |lines| ==> Text.NoneOf(lines[i], LineBreaks)
  {
    Text.Split(text, LineBreaks)
  }

  const HeaderMarker := "# "

  predicate IsHeaderLine(line: string) {
    HeaderMarker <= line
  }

  /** `line.Substring(2).Split(' ', 2)` of a header line as a key/value pair,
      or None when the line has no space after the marker (then
      `lineParts[1]` throws). */
  function Entry(line: string): Option<(string, string)>
    requires IsHeaderLine(line)
  {
    Text.SplitOnce(line[|HeaderMarker|..], ' ')
  }

  /** A header line is the marker, its key, a space and its value. */
  lemma EntryParts(line: string)
    requires IsHeaderLine(line) && Entry(line).Some?
    ensures line == HeaderMarker + Entry(line).value.0 + " " + Entry(line).value.1
  {
    var rest := line[|HeaderMarker|..];
    var key, value := Entry(line).value.0, Entry(line).value.1;
    assert line == HeaderMarker + rest;
    assert rest == key + " " + value;
    Text.AppendRegroup(HeaderMarker, key, " ", value);
  }

  /** The key is the text after the marker up to the first space, the value
      everything after that space; with no space there is no entry. */
  lemma EntryShape(line: string)
    requires IsHeaderLine(line)
    ensures Entry(line).Some? ==>
      line == HeaderMarker + Entry(line).value.0 + " " + Entry(line).value.1 && ' ' !in Entry(line).value.0
    ensures Entry(line).None? <==> ' ' !in line[|HeaderMarker|..]
  {
    if Entry(line).Some? {
      EntryParts(line);
    }
  }

  /** Round trip: a header line written from a space-free key and any value
      reads back as that key and that value, spaces in the value kept. */
  lemma EntryOfHeader(key: string, value: string)
    requires ' ' !in key
    ensures IsHeaderLine(HeaderMarker + key + " " + value)
    ensures Entry(HeaderMarker + key + " " + value) == Some((key, value))
  {
    var line := HeaderMarker + key + " " + value;
    assert line[|HeaderMarker|..] == key + [' '] + value;
    Text.SplitOnceOf(key, ' ', value);
  }

  /** The entry a line contributes to the header map, if any. */
  function HeaderOf(line: string): Option<(string, string)>
  {
    if IsHeaderLine(line) then Entry(line) else None
  }

  /** A header line whose `lineParts[1]` does not exist. */
  predicate Malformed(line: string) {
    IsHeaderLine(line) && Entry(line).None?
  }

  /** The exceptions `ToDictionary` lets escape. */
  datatype HeaderError =
    | MissingValue(line: string)
    | DuplicateKey(key: string)

  /** `lines.Where(StartsWith("# ")).Select(Split).ToDictionary(...)`.
      The recursion peels the last line, so an error in an earlier line
      wins, as the in-order enumeration has it; for one line the value
      selector runs before the insertion, so a space-free line fails with
      MissingValue even when its key repeats. */
  function ParseHeaders(lines: seq<string>): Result<map<string, string>, HeaderError>
  {
    if |lines| == 0 then Ok(map[])
    else
      var last := lines[|lines| - 1];
      match ParseHeaders(lines[..|lines| - 1])
      case Err(e) => Err(e)
      case Ok(headers) =>
        if !IsHeaderLine(last) then Ok(headers)
        else
          match Entry(last)
          case None => Err(MissingValue(last))
          case Some((key, value)) =>
            if key in headers then Err(DuplicateKey(key)) else Ok(headers[key := value])
  }

  /** Every header line has a value. */
  ghost predicate AllHaveValues(lines: seq<string>) {
    forall i :: 0 <= i < |lines| ==> !Malformed(lines[i])
  }

  /** No two header lines share a key. */
  ghost predicate DistinctKeys(lines: seq<string>) {
    forall i, j ::
      0 <= i < j < |lines| && HeaderOf(lines[i]).Some? && HeaderOf(lines[j]).Some? ==>
        HeaderOf(lines[i]).value.0 != HeaderOf(lines[j]).value.0
  }

  /** What `ToDictionary` accepts without throwing. */
  ghost predicate WellFormed(lines: seq<string>) {
    AllHaveValues(lines) && DistinctKeys(lines)
  }

  /** Every header line's entry is in the map. */
  ghost predicate HasEntries(lines: seq<string>, headers: map<string, string>) {
    forall i :: 0 <= i < |lines| && HeaderOf(lines[i]).Some? ==>
      HeaderOf(lines[i]).value.0 in headers && headers[HeaderOf(lines[i]).value.0] == HeaderOf(lines[i]).value.1
  }

  /** Every entry of the map is some header line's entry. */
  ghost predicate KeysFromLines(lines: seq<string>, headers: map<string, string>) {
    forall key :: key in headers ==>
      exists i :: 0 <= i < |lines| && HeaderOf(lines[i]) == Some((key, headers[key]))
  }

  /** The header map holds exactly the entries of the header lines. */
  ghost predicate Collects(lines: seq<string>, headers: map<string, string>) {
    HasEntries(lines, headers) && KeysFromLines(lines, headers)
  }

  /** Some header line of `lines` has key `key`. */
  ghost predicate HasKey(lines: seq<string>, key: string) {
    exists i :: 0 <= i < |lines| && HeaderOf(lines[i]).Some? && HeaderOf(lines[i]).value.0 == key
  }

  lemma AllHaveValuesSnoc(prefix: seq<string>, last: string)
    ensures AllHaveValues(prefix + [last]) <==> AllHaveValues(prefix) && !Malformed(last)
  {
    var lines := prefix + [last];
    assert forall i :: 0 <= i < |prefix| ==> lines[i] == prefix[i];
    assert lines[|prefix|] == last;
  }

  lemma DistinctKeysSnoc(prefix: seq<string>, last: string)
    ensures DistinctKeys(prefix + [last]) <==>
      && DistinctKeys(prefix)
      && (HeaderOf(last).Some? ==> !HasKey(prefix, HeaderOf(last).value.0))
  {
    var lines := prefix + [last];
    var n := |prefix|;
    assert forall i :: 0 <= i < n ==> lines[i] == prefix[i];
    assert lines[n] == last;
    if DistinctKeys(lines) {
      forall i, j | 0 <= i < j < n && HeaderOf(prefix[i]).Some? && HeaderOf(prefix[j]).Some?
        ensures HeaderOf(prefix[i]).value.0 != HeaderOf(prefix[j]).value.0
      {
        assert HeaderOf(lines[i]) == HeaderOf(prefix[i]) && HeaderOf(lines[j]) == HeaderOf(prefix[j]);
      }
      if HeaderOf(last).Some? {
        forall i | 0 <= i < n && HeaderOf(prefix[i]).Some?
          ensures HeaderOf(prefix[i]).value.0 != HeaderOf(last).value.0
        {
          assert HeaderOf(lines[i]) == HeaderOf(prefix[i]) && HeaderOf(lines[n]) == HeaderOf(last);
        }
      }
    }
  }

  /** A line appended to well-formed lines keeps them well-formed exactly
      when it has a value and, if it is a header, a key not seen before. */
  lemma WellFormedSnoc(prefix: seq<string>, last: string)
    ensures WellFormed(prefix + [last]) <==>
      && WellFormed(prefix)
      && !Malformed(last)
      && (HeaderOf(last).Some? ==> !HasKey(prefix, HeaderOf(last).value.0))
  {
    AllHaveValuesSnoc(prefix, last);
    DistinctKeysSnoc(prefix, last);
  }

  /** What `Collects` says about keys: a key is in the map exactly when
      some header line carries it. */
  lemma CollectsKeys(lines: seq<string>, headers: map<string, string>, key: string)
    requires Collects(lines, headers)
    ensures key in headers <==> HasKey(lines, key)
  {
    if key in headers {
      var i :| 0 <= i < |lines| && HeaderOf(lines[i]) == Some((key, headers[key]));
    }
  }

  /** An appended line that is no header leaves the map collecting the lines. */
  lemma CollectsSnocOther(prefix: seq<string>, last: string, headers: map<string, string>)
    requires Collects(prefix, headers)
    requires HeaderOf(last).None?
    ensures Collects(prefix + [last], headers)
  {
    var lines := prefix + [last];
    var n := |prefix|;
    assert forall i :: 0 <= i < n ==> lines[i] == prefix[i];
    assert lines[n] == last;
    forall k | k in headers
      ensures exists i :: 0 <= i < |lines| && HeaderOf(lines[i]) == Some((k, headers[k]))
    {
      var i :| 0 <= i < n && HeaderOf(prefix[i]) == Some((k, headers[k]));
      assert HeaderOf(lines[i]) == Some((k, headers[k]));
    }
  }

  /** Every header line of the longer list has its entry in the extended map. */
  lemma EntriesSnoc(prefix: seq<string>, last: string, headers: map<string, string>, key: string, value: string)
    requires HasEntries(prefix, headers)
    requires HeaderOf(last) == Some((key, value))
    requires key !in headers
    ensures HasEntries(prefix + [last], headers[key := value])
  {
    var lines := prefix + [last];
    var headers' := headers[key := value];
    forall i | 0 <= i < |lines| && HeaderOf(lines[i]).Some?
      ensures HeaderOf(lines[i]).value.0 in headers' && headers'[HeaderOf(lines[i]).value.0] == HeaderOf(lines[i]).value.1
    {
      if i < |prefix| {
        assert lines[i] == prefix[i];
      } else {
        assert lines[i] == last;
      }
    }
  }

  /** Every key of the extended map comes from a header line of the longer list. */
  lemma KeysSnoc(prefix: seq<string>, last: string, headers: map<string, string>, key: string, value: string)
    requires KeysFromLines(prefix, headers)
    requires HeaderOf(last) == Some((key, value))
    ensures KeysFromLines(prefix + [last], headers[key := value])
  {
    var lines := prefix + [last];
    var headers' := headers[key := value];
    forall k | k in headers'
      ensures exists i :: 0 <= i < |lines| && HeaderOf(lines[i]) == Some((k, headers'[k]))
    {
      if k == key {
        assert lines[|prefix|] == last;
      } else {
        var i :| 0 <= i < |prefix| && HeaderOf(prefix[i]) == Some((k, headers[k]));
        assert lines[i] == prefix[i];
      }
    }
  }

  /** Adding the entry of an appended header line with a new key keeps the
      map collecting the lines. */
  lemma CollectsSnocEntry(prefix: seq<string>, last: string, headers: map<string, string>, key: string, value: string)
    requires Collects(prefix, headers)
    requires HeaderOf(last) == Some((key, value))
    requires key !in headers
    ensures Collects(prefix + [last], headers[key := value])
  {
    EntriesSnoc(prefix, last, headers, key, value);
    KeysSnoc(prefix, last, headers, key, value);
  }

  /** Parsing succeeds exactly on well-formed lines, and then the map is
      the header lines' entries. */
  lemma {:induction false} ParseHeadersCorrect(lines: seq<string>)
    ensures ParseHeaders(lines).Ok? <==> WellFormed(lines)
    ensures ParseHeaders(lines).Ok? ==> Collects(lines, ParseHeaders(lines).value)
  {
    if |lines| > 0 {
      var n := |lines| - 1;
      var prefix, last := lines[..n], lines[n];
      assert lines == prefix + [last];
      ParseHeadersCorrect(prefix);
      WellFormedSnoc(prefix, last);
      if ParseHeaders(prefix).Ok? {
        var headers := ParseHeaders(prefix).value;
        if HeaderOf(last).Some? {
          CollectsKeys(prefix, headers, HeaderOf(last).value.0);
        }
        match HeaderOf(last)
        case None => CollectsSnocOther(prefix, last, headers);
        case Some((key, value)) =>
          if key !in headers {
            CollectsSnocEntry(prefix, last, headers, key, value);
          }
      }
    }
  }

  /** Error `e` is what `line` raises after the lines `before`: a header
      line with no value, or a header whose key an earlier one already has. */
  ghost predicate RaisesAfter(before: seq<string>, line: string, e: HeaderError) {
    match e
    case MissingValue(l) => l == line && Malformed(line)
    case DuplicateKey(key) => HeaderOf(line).Some? && HeaderOf(line).value.0 == key && HasKey(before, key)
  }

  /** The exception that escapes is the one of the first offending line:
      every line before it is well-formed, and it is the line with no value
      or a repeated key the error names. */
  lemma {:induction false} ParseHeadersFirstError(lines: seq<string>)
    ensures ParseHeaders(lines).Err? ==>
      exists i :: 0 <= i < |lines| && WellFormed(lines[..i]) && RaisesAfter(lines[..i], lines[i], ParseHeaders(lines).error)
  {
    if |lines| > 0 {
      var n := |lines| - 1;
      var prefix, last := lines[..n], lines[n];
      assert lines == prefix + [last];
      ParseHeadersFirstError(prefix);
      ParseHeadersCorrect(prefix);
      if ParseHeaders(prefix).Err? {
        var i :| 0 <= i < |prefix| && WellFormed(prefix[..i]) && RaisesAfter(prefix[..i], prefix[i], ParseHeaders(prefix).error);
        assert lines[..i] == prefix[..i] && lines[i] == prefix[i];
      } else if ParseHeaders(lines).Err? {
        if HeaderOf(last).Some? {
          CollectsKeys(prefix, ParseHeaders(prefix).value, HeaderOf(last).value.0);
        }
        assert RaisesAfter(lines[..n], lines[n], ParseHeaders(lines).error);
      }
    }
  }

  /** A header line with a new, space-free key adds its entry to the map. */
  lemma ParseHeadersSnocEntry(prefix: seq<string>, headers: map<string, string>, key: string, value: string)
    requires ParseHeaders(prefix) == Ok(headers)
    requires ' ' !in key && key !in headers
    ensures ParseHeaders(prefix + [HeaderMarker + key + " " + value]) == Ok(headers[key := value])
  {
    var lines := prefix + [HeaderMarker + key + " " + value];
    assert lines[..|prefix|] == prefix;
    EntryOfHeader(key, value);
  }

  /** Two header lines with distinct space-free keys give a map of both entries. */
  lemma TwoHeaders(k0: string, v0: string, k1: string, v1: string)
    requires ' ' !in k0 && ' ' !in k1 && k0 != k1
    ensures ParseHeaders([HeaderMarker + k0 + " " + v0, HeaderMarker + k1 + " " + v1]) == Ok(map[k0 := v0, k1 := v1])
  {
    var l0, l1 := HeaderMarker + k0 + " " + v0, HeaderMarker + k1 + " " + v1;
    assert ParseHeaders([l0]) == Ok(map[k0 := v0]) by {
      var h0: map<string, string> := map[];
      assert ParseHeaders([]) == Ok(h0);
      ParseHeadersSnocEntry([], h0, k0, v0);
      assert [] + [l0] == [l0];
    }
    assert ParseHeaders([l0, l1]) == Ok(map[k0 := v0, k1 := v1]) by {
      ParseHeadersSnocEntry([l0], map[k0 := v0], k1, v1);
      assert [l0] + [l1] == [l0, l1];
    }
  }

  /** Three header lines with distinct space-free keys give a map of all three entries. */
  lemma ThreeHeaders(k0: string, v0: string, k1: string, v1: string, k2: string, v2: string)
    requires ' ' !in k0 && ' ' !in k1 && ' ' !in k2 && k0 != k1 && k0 != k2 && k1 != k2
    ensures ParseHeaders([HeaderMarker + k0 + " " + v0, HeaderMarker + k1 + " " + v1, HeaderMarker + k2 + " " + v2]) ==
      Ok(map[k0 := v0, k1 := v1, k2 := v2])
  {
    var l0, l1, l2 := HeaderMarker + k0 + " " + v0, HeaderMarker + k1 + " " + v1, HeaderMarker + k2 + " " + v2;
    assert ParseHeaders([l0, l1] + [l2]) == Ok(map[k0 := v0, k1 := v1, k2 := v2]) by {
      TwoHeaders(k0, v0, k1, v1);
      ParseHeadersSnocEntry([l0, l1], map[k0 := v0, k1 := v1], k2, v2);
    }
    assert [l0, l1] + [l2] == [l0, l1, l2];
  }

  /** A line that is no header leaves the map as it was. */
  lemma ParseHeadersSnocOther(prefix: seq<string>, line: string)
    requires !IsHeaderLine(line)
    ensures ParseHeaders(prefix + [line]) == ParseHeaders(prefix)
  {
    assert (prefix + [line])[..|prefix|] == prefix;
  }

  /** "1" changed, "2" renamed or copied, "u" unmerged. */
  predicate IsChangeLine(line: string) {
    "1" <= line || "2" <= line || "u" <= line
  }

  /** A change entry is a line whose first character is '1', '2' or 'u'. */
  lemma ChangeLineMarkers(line: string)
    ensures IsChangeLine(line) <==> |line| > 0 && line[0] in {'1', '2', 'u'}
  {
  }

  /** `lines.Any(IsChangeLine)`. */
  function AnyChange(lines: seq<string>): bool
  {
    |lines| > 0 && (IsChangeLine(lines[0]) || AnyChange(lines[1..]))
  }

  /** `Any` answers true exactly when some line is a change line. */
  lemma {:induction false} AnyChangeFindsChangeLine(lines: seq<string>)
    ensures AnyChange(lines) <==> exists i :: 0 <= i < |lines| && IsChangeLine(lines[i])
  {
    if |lines| > 0 {
      AnyChangeFindsChangeLine(lines[1..]);
      if !IsChangeLine(lines[0]) && exists i :: 0 <= i < |lines| && IsChangeLine(lines[i]) {
        var i :| 0 <= i < |lines| && IsChangeLine(lines[i]);
        assert lines[1..][i - 1] == lines[i];
      }
    }
  }

  /** The Modified output: "Modified" exactly when some line is a change
      line, "Unmodified" otherwise; header, untracked ("?"), ignored ("!")
      and empty lines never make it "Modified". */
  function ModifiedText(lines: seq<string>): (r: string)
    ensures r == "Modified" || r == "Unmodified"
    ensures r == "Modified" <==> exists i :: 0 <= i < |lines| && IsChangeLine(lines[i])
    ensures (forall i :: 0 <= i < |lines| ==> lines[i] == "" || lines[i][0] in {'#', '?', '!'}) ==> r == "Unmodified"
  {
    AnyChangeFindsChangeLine(lines);
    if AnyChange(lines) then "Modified" else "Unmodified"
  }

  /** Appending a line flips the verdict to "Modified" exactly when it is a change line. */
  lemma ModifiedAfterAppend(lines: seq<string>, line: string)
    ensures ModifiedText(lines + [line]) == "Modified" <==> ModifiedText(lines) == "Modified" || IsChangeLine(line)
  {
    var all := lines + [line];
    assert all[|lines|] == line;
    assert forall i :: 0 <= i < |lines| ==> all[i] == lines[i];
  }
}
