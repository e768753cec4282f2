/**
  Extraction of the deployment endpoint from the stdout of `bentoml deploy
  create`. The script splits the text into lines, walks them in order, and
  whenever a line contains the marker `"endpoints": [` it overwrites the
  endpoint with the NEXT line, stripped of surrounding whitespace and then of
  every double quote. So the last marker wins, no marker leaves the endpoint
  empty, and a marker on the final line indexes past the end of the list and
  raises `IndexError`, which nothing in the script catches.

  `Extract` is the declarative description; `ScanEndpoint` is the loop the
  script runs, proved to compute it.
 */
module EndpointScan {
  import opened PyText
  import opened Options

  const Marker: string := "\"endpoints\": ["

  /** The endpoint found, or the `IndexError` raised at `lines[index]`. */
  datatype Scan = Endpoint(url: string) | IndexError(index: nat)

  /** `line.strip().replace('"', '')`: whitespace is stripped first, quotes removed afterwards. */
  function Clean(line: string): (url: string)
    ensures '"' !in url
  {
    RemoveAll(Strip(line), '"')
  }

  /** Index of the last line containing the marker, if any. */
  function LastMarkerLine(lines: seq<string>): (r: Option<nat>)
    ensures r.Some? ==> r.value < |lines|
    decreases |lines|
  {
    if lines == [] then None
    else if Contains(lines[|lines| - 1], Marker) then Some(|lines| - 1)
    else LastMarkerLine(lines[..|lines| - 1])
  }

  /** `LastMarkerLine` finds nothing exactly when no line has the marker, and otherwise a marker line with none after it. */
  lemma {:induction false} LastMarkerLineSpec(lines: seq<string>)
    ensures LastMarkerLine(lines).None? ==> forall j :: 0 <= j < |lines| ==> !Contains(lines[j], Marker)
    ensures LastMarkerLine(lines).Some? ==> Contains(lines[LastMarkerLine(lines).value], Marker)
    ensures LastMarkerLine(lines).Some? ==>
      forall j :: LastMarkerLine(lines).value < j < |lines| ==> !Contains(lines[j], Marker)
    decreases |lines|
  {
    if lines != [] && !Contains(lines[|lines| - 1], Marker) {
      var front := lines[..|lines| - 1];
      LastMarkerLineSpec(front);
      assert forall j :: 0 <= j < |front| ==> front[j] == lines[j];
    }
  }

  /** What the scan yields for a list of lines. */
  function ExtractFromLines(lines: seq<string>): Scan {
    match LastMarkerLine(lines)
    case None => Endpoint("")
    case Some(i) => if i + 1 < |lines| then Endpoint(Clean(lines[i + 1])) else IndexError(i + 1)
  }

  /** What the scan yields for the whole stdout of the create command. */
  function Extract(stdout: string): Scan {
    ExtractFromLines(Split(stdout, '\n'))
  }

  /** Helper: extending the scanned prefix by one line either finds a new last marker or keeps the old one. */
  lemma LastMarkerLineStep(lines: seq<string>, n: nat)
    requires n < |lines|
    ensures LastMarkerLine(lines[..n + 1])
         == if Contains(lines[n], Marker) then Some(n) else LastMarkerLine(lines[..n])
  {
    assert lines[..n + 1][..n] == lines[..n];
  }

  /** The loop of the script: `for index, message in enumerate(lines)`. */
  method ScanEndpoint(stdout: string) returns (r: Scan)
    ensures r == Extract(stdout)
  {
    var lines := Split(stdout, '\n');
    var endpoint := "";
    var index := 0;
    while index < |lines|
      invariant 0 <= index <= |lines|
      invariant LastMarkerLine(lines[..index]).None? ==> endpoint == ""
      invariant LastMarkerLine(lines[..index]).Some? ==>
        LastMarkerLine(lines[..index]).value + 1 < |lines|
        && endpoint == Clean(lines[LastMarkerLine(lines[..index]).value + 1])
    {
      LastMarkerLineStep(lines, index);
      if Contains(lines[index], Marker) {
        if index + 1 >= |lines| {
          assert lines[..index + 1] == lines;
          return IndexError(index + 1);
        }
        endpoint := Clean(lines[index + 1]);
      }
      index := index + 1;
    }
    assert lines[..index] == lines;
    return Endpoint(endpoint);
  }

  /** The scan fails exactly when the final line holds the marker, and then at the index one past the last line. */
  lemma IndexErrorIffMarkerLast(stdout: string)
    ensures Extract(stdout).IndexError?
        <==> Contains(Split(stdout, '\n')[|Split(stdout, '\n')| - 1], Marker)
    ensures Extract(stdout).IndexError? ==> Extract(stdout).index == |Split(stdout, '\n')|
  {
  }

  /** No marker anywhere: the endpoint stays the empty string. */
  lemma NoMarkerGivesEmpty(stdout: string)
    requires forall j :: 0 <= j < |Split(stdout, '\n')| ==> !Contains(Split(stdout, '\n')[j], Marker)
    ensures Extract(stdout) == Endpoint("")
  {
    LastMarkerLineSpec(Split(stdout, '\n'));
  }

  /** Helper: a marker line with no marker line after it is the one `LastMarkerLine` finds. */
  lemma {:induction false} LastMarkerLineIs(lines: seq<string>, i: nat)
    requires i < |lines| && Contains(lines[i], Marker)
    requires forall j :: i < j < |lines| ==> !Contains(lines[j], Marker)
    ensures LastMarkerLine(lines) == Some(i)
    decreases |lines|
  {
    if i < |lines| - 1 {
      var front := lines[..|lines| - 1];
      assert !Contains(lines[|lines| - 1], Marker);
      assert front[i] == lines[i];
      assert forall j :: i < j < |front| ==> front[j] == lines[j];
      LastMarkerLineIs(front, i);
    }
  }

  /**
    The last marker wins: if line `i` holds the marker, no later line does,
    and line `i + 1` exists, the endpoint is line `i + 1` cleaned, whatever
    earlier lines held.
   */
  lemma LastMarkerWins(lines: seq<string>, i: nat)
    requires i + 1 < |lines| && Contains(lines[i], Marker)
    requires forall j :: i < j < |lines| ==> !Contains(lines[j], Marker)
    ensures ExtractFromLines(lines) == Endpoint(Clean(lines[i + 1]))
  {
    LastMarkerLineIs(lines, i);
  }

  /** An extracted endpoint never contains a double quote. */
  lemma EndpointHasNoQuote(stdout: string)
    requires Extract(stdout).Endpoint?
    ensures '"' !in Extract(stdout).url
  {
  }

  /** Helper: text between two quotes is already stripped, because quotes are not whitespace. */
  lemma StripQuoted(inner: string)
    ensures Strip("\"" + inner + "\"") == "\"" + inner + "\""
  {
    var quoted := "\"" + inner + "\"";
    assert !IsSpace(quoted[0]) && !IsSpace(quoted[|quoted| - 1]);
    assert [] + quoted + [] == quoted;
    StripExactly([], quoted, []);
  }

  /** Helper: removing quotes from a quoted text without inner quotes gives the inner text. */
  lemma UnquoteQuoted(inner: string)
    requires '"' !in inner
    ensures RemoveAll("\"" + inner + "\"", '"') == inner
  {
    RemoveAllAppend("\"", inner, '"');
    RemoveAllAppend("\"" + inner, "\"", '"');
    RemoveAllAbsent(inner, '"');
    assert RemoveAll("\"", '"') == [];
  }

  /**
    Strip comes before quote removal: a quoted value with whitespace inside
    the quotes keeps that whitespace, `"  url "` gives `  url `.
   */
  lemma CleanKeepsInnerWhitespace(url: string)
    requires '"' !in url
    ensures Clean("\"  " + url + " \"") == "  " + url + " "
  {
    var inner := "  " + url + " ";
    assert "\"  " + url + " \"" == "\"" + inner + "\"";
    assert '"' !in inner by {
      forall k | 0 <= k < |inner| ensures inner[k] != '"' {
        if 2 <= k < 2 + |url| { assert inner[k] == url[k - 2]; }
      }
    }
    StripQuoted(inner);
    UnquoteQuoted(inner);
  }

  /** Helper: a line without double quotes cannot contain the marker, which has one. */
  lemma NoQuoteNoMarker(line: string)
    requires '"' !in line
    ensures !Contains(line, Marker)
  {
    ContainsOccurs(line, Marker);
    forall i ensures !OccursAt(line, Marker, i) {
      if 0 <= i && i + |Marker| <= |line| {
        assert line[i..i + |Marker|][0] == line[i];
        assert line[i] in line;
      }
    }
  }

  /** A one-line output without double quotes has no marker, so the endpoint stays the empty string. */
  lemma OneLineWithoutQuotesScansEmpty(stdout: string)
    requires '\n' !in stdout && '"' !in stdout
    ensures Extract(stdout) == Endpoint("")
  {
    SplitNoSeparator(stdout, '\n');
    NoQuoteNoMarker(stdout);
  }

  /** Helper: a line holding one address between quotes does not contain the marker. */
  lemma QuotedLineNoMarker(url: string)
    requires '"' !in url
    ensures !Contains("\"  " + url + " \"", Marker)
  {
    var line := "\"  " + url + " \"";
    ContainsOccurs(line, Marker);
    assert |Marker| == 14 && Marker[10] == '"';
    assert |line| == |url| + 5;
    forall i ensures !OccursAt(line, Marker, i) {
      if 0 <= i && i + |Marker| <= |line| {
        var w := line[i..i + |Marker|];
        assert w[10] == line[i + 10];
        assert line[i + 10] == url[i + 7];
        assert url[i + 7] in url;
        assert w[10] != Marker[10];
      }
    }
  }

  /**
    The create output the tool prints on success, a marker line followed by a
    quoted address with spaces inside the quotes and a final newline: the
    scan returns the address with those inner spaces still in it.
   */
  lemma QuotedEndpointOutput(url: string)
    requires '"' !in url && '\n' !in url
    ensures Extract(Marker + "\n\"  " + url + " \"\n") == Endpoint("  " + url + " ")
  {
    var line := "\"  " + url + " \"";
    var lines := [Marker, line, ""];
    assert '\n' !in line by {
      forall k | 0 <= k < |line| ensures line[k] != '\n' {
        if 3 <= k < 3 + |url| { assert line[k] == url[k - 3]; }
      }
    }
    assert Join(lines[2..], '\n') == "";
    assert Join(lines[1..], '\n') == line + "\n";
    assert Join(lines, '\n') == Marker + "\n\"  " + url + " \"\n";
    SplitJoin(lines, '\n');
    assert Contains(Marker, Marker) by { assert OccursAt(Marker, Marker, 0); }
    NoQuoteNoMarker("");
    QuotedLineNoMarker(url);
    LastMarkerWins(lines, 0);
    CleanKeepsInnerWhitespace(url);
  }
}
