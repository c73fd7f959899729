/** Extracting a region from an example file, and the cache of extracted regions. */
module Regions {
  import opened Wrappers
  import opened Text
  import opened Seqs

  datatype RegionError =
    | FileNotFound(path: string)
    | UnsupportedFile(region: string)
    | RegionNotFound(region: string)
    | RegionEndNotFound(region: string)

  // ----- dedent

  function DedentLine(line: string, baseIndent: string): string {
    if Trim(line) == "" then ""
    else if StartsWith(line, baseIndent) then line[|baseIndent|..]
    else line
  }

  function DedentLines(lines: seq<string>, baseIndent: string): (r: seq<string>)
    ensures |r| == |lines|
  {
    seq(|lines|, i requires 0 <= i < |lines| => DedentLine(lines[i], baseIndent))
  }

  function DropTrailingEmpty(lines: seq<string>): seq<string> {
    if lines != [] && lines[|lines| - 1] == "" then DropTrailingEmpty(lines[..|lines| - 1]) else lines
  }

  function Dedented(content: string, baseIndent: string): string {
    Join(DropTrailingEmpty(DedentLines(Split(content, NL), baseIndent)), NL)
  }

  method Dedent(content: string, baseIndent: string) returns (r: string)
    ensures r == Dedented(content, baseIndent)
  {
    var dedentedLines := DedentLines(Split(content, NL), baseIndent);
    while |dedentedLines| > 0 && dedentedLines[|dedentedLines| - 1] == ""
      invariant DropTrailingEmpty(dedentedLines) == DropTrailingEmpty(DedentLines(Split(content, NL), baseIndent))
    {
      dedentedLines := dedentedLines[..|dedentedLines| - 1];
    }
    r := Join(dedentedLines, NL);
  }

  // ----- extraction

  function LineEnding(content: string): string {
    if Includes(content, CRLF) then CRLF else [NL]
  }

  function RegionStart(region: string, ending: string): string {
    "//#region " + region + ending
  }

  function RegionEnd(region: string, ending: string): string {
    "//#endregion " + region + ending
  }

  /** The index after the last newline before `i`, or 0. */
  function LineStart(content: string, i: nat): (r: nat)
    requires i <= |content|
    ensures r <= i
    ensures r > 0 ==> content[r - 1] == NL
    ensures forall j :: r <= j < i ==> content[j] != NL
  {
    if i == 0 || content[i - 1] == NL then i else LineStart(content, i - 1)
  }

  datatype MarkerSearch = NoStart | NoEnd | Found(start: nat, afterStart: nat, end: nat)

  /** Where two markers stand, and where the line of the first one ends. */
  function FindMarkers(content: string, opening: string, closing: string): (r: MarkerSearch)
    requires opening != "" && opening[|opening| - 1] == NL
    ensures r.Found? ==> r.start <= r.afterStart < |content| && r.start <= r.end <= |content|
  {
    var start := IndexOf(content, opening, 0);
    if start.None? then NoStart
    else
      var end := IndexOf(content, closing, start.value);
      if end.None? then NoEnd
      else
        MarkerEndsLine(content, start.value, opening);
        Found(start.value, IndexOf(content, [NL], start.value).value, end.value)
  }

  lemma {:induction false} MarkerEndsLine(content: string, i: nat, marker: string)
    requires StartsWithAt(content, i, marker) && marker != "" && marker[|marker| - 1] == NL
    ensures IndexOf(content, [NL], i).Some?
  {
    assert content[i + |marker| - 1] == marker[|marker| - 1];
    assert StartsWithAt(content, i + |marker| - 1, [NL]);
    IndexOfIsFirst(content, [NL], i);
  }

  /** The text between the marker lines, dedented by what precedes the start marker on its line. */
  function RegionBody(content: string, start: nat, afterStart: nat, end: nat): string
    requires start <= afterStart < |content| && start <= end <= |content|
  {
    if afterStart >= end then ""
    else Dedented(content[afterStart + 1..end], content[LineStart(content, start)..start])
  }

  function ExtractBetween(content: string, opening: string, closing: string, region: string)
    : Result<string, RegionError>
    requires opening != "" && opening[|opening| - 1] == NL
  {
    match FindMarkers(content, opening, closing)
    case NoStart => Failure(RegionNotFound(region))
    case NoEnd => Failure(RegionEndNotFound(region))
    case Found(start, afterStart, end) => Success(RegionBody(content, start, afterStart, end))
  }

  function ExtractRegion(content: string, region: string, examplePath: string): Result<string, RegionError> {
    if !EndsWith(examplePath, ".ts") then Failure(UnsupportedFile(region)) else ExtractSupported(content, region)
  }

  /** The region of a file whose kind is supported. */
  function ExtractSupported(content: string, region: string): Result<string, RegionError> {
    var ending := LineEnding(content);
    ExtractBetween(content, RegionStart(region, ending), RegionEnd(region, ending), region)
  }

  // ----- extracting undoes embedding

  /** What extraction makes of a line: white space only becomes empty. */
  function Normal(line: string): string {
    if AllSpace(line) then "" else line
  }

  function NormalLines(lines: seq<string>): (r: seq<string>)
    ensures |r| == |lines|
  {
    seq(|lines|, i requires 0 <= i < |lines| => Normal(lines[i]))
  }

  /**
   `embedded` is `code` indented; a blank line may be written as any white space, and a line that
   is indented less stands as it is.
   */
  ghost predicate EmbeddedAs(code: seq<string>, indent: string, embedded: seq<string>) {
    && |embedded| == |code|
    && forall i :: 0 <= i < |code| ==> NL !in embedded[i] && EmbeddedLine(code[i], indent, embedded[i])
  }

  predicate EmbeddedLine(code: string, indent: string, embedded: string) {
    || embedded == indent + code
    || (AllSpace(code) && AllSpace(embedded))
    || (!StartsWith(embedded, indent) && !AllSpace(embedded) && code == embedded)
  }

  lemma {:induction false} DedentEmbedded(code: seq<string>, indent: string, embedded: seq<string>, last: string)
    requires AllSpace(indent) && AllSpace(last) && EmbeddedAs(code, indent, embedded)
    ensures DedentLines(embedded + [last], indent) == NormalLines(code) + [""]
  {
    var dedented := DedentLines(embedded + [last], indent);
    forall i | 0 <= i < |code| ensures dedented[i] == Normal(code[i]) {
      TrimEmptyIff(embedded[i]);
      var line := embedded[i];
      if line == indent + code[i] {
        assert line[|indent|..] == code[i];
        assert AllSpace(line) <==> AllSpace(code[i]) by {
          assert forall k :: 0 <= k < |code[i]| ==> line[|indent| + k] == code[i][k];
        }
      }
    }
    TrimEmptyIff(last);
    assert dedented == NormalLines(code) + [""];
  }

  lemma {:induction false} SplitEmbedded(embedded: seq<string>, last: string)
    requires NL !in last && forall i :: 0 <= i < |embedded| ==> NL !in embedded[i]
    ensures Split(Flat(embedded, NL) + last, NL) == embedded + [last]
  {
    var parts := embedded + [last];
    FlatAppend(embedded, [last], NL);
    FlatJoin(parts, NL);
    assert Flat([last], NL) == last + [NL];
    Assoc(Flat(embedded, NL), last, [NL]);
    var joined := Flat(embedded, NL) + last;
    assert joined == (joined + [NL])[..|joined|] == Join(parts, NL);
    SplitJoin(parts, NL);
  }

  ghost predicate NoEarlier(content: string, marker: string, from: nat, i: nat) {
    forall k :: from <= k < i ==> !StartsWithAt(content, k, marker)
  }

  /**
   The marker `opening` stands at `start`, alone on its line but for `indent`; then come the
   lines `embedded`; then white space `last` and, at `end`, the marker `closing`.
   */
  ghost predicate HoldsRegion(file: string, opening: string, closing: string, indent: string, embedded: seq<string>,
                              last: string, start: nat, end: nat) {
    && StartsWithAt(file, start, opening)
    && StartsWithAt(file, end, closing)
    && HoldsBody(file, indent, embedded, last, start, start + |opening|, end)
  }

  ghost predicate HoldsBody(file: string, indent: string, embedded: seq<string>, last: string,
                            start: nat, body: nat, end: nat) {
    && |indent| <= start < body <= end <= |file|
    && AllSpace(last) && NL !in last && file[body..end] == Flat(embedded, NL) + last
    && file[start - |indent|..start] == indent
    && (start == |indent| || file[start - |indent| - 1] == NL)
  }

  /** No copy of either marker stands earlier in the file. */
  ghost predicate MarkersAreFirst(file: string, opening: string, closing: string, start: nat, end: nat) {
    NoEarlier(file, opening, 0, start) && NoEarlier(file, closing, start, end)
  }

  /**
   Extracting undoes embedding: code indented like its opening marker, between its markers in a file
   with no earlier copy of a marker, comes back line for line, with blank lines emptied and
   trailing blank lines dropped.  In a file with CRLF line ends a line keeps its carriage return.
   */
  lemma {:induction false} ExtractEmbedded(file: string, region: string, indent: string, code: seq<string>,
                                           embedded: seq<string>, last: string, start: nat, end: nat,
                                           examplePath: string)
    requires EndsWith(examplePath, ".ts")
    requires AllSpace(indent) && NL !in indent && NL !in region
    requires EmbeddedAs(code, indent, embedded)
    requires var (opening, closing) := (RegionStart(region, LineEnding(file)), RegionEnd(region, LineEnding(file)));
             && HoldsRegion(file, opening, closing, indent, embedded, last, start, end)
             && MarkersAreFirst(file, opening, closing, start, end)
    ensures ExtractRegion(file, region, examplePath) == Success(Join(DropTrailingEmpty(NormalLines(code)), NL))
  {
    hide RegionStart, RegionEnd, HoldsBody, MarkersAreFirst, RegionBody, StartsWithAt, FindMarkers, EmbeddedAs,
      Includes, EndsWith, AllSpace, Join, DropTrailingEmpty, NormalLines, ExtractBetween;
    var ending := LineEnding(file);
    OpeningLine(region, ending);
    var opening, closing := RegionStart(region, ending), RegionEnd(region, ending);
    BodyHeld(file, indent, code, embedded, last, start, start + |opening|, end);
    ExtractHeld(file, opening, closing, region, start, end, Join(DropTrailingEmpty(NormalLines(code)), NL));
  }

  lemma {:induction false} OpeningLine(region: string, ending: string)
    requires NL !in region && (ending == CRLF || ending == [NL])
    ensures var opening := RegionStart(region, ending);
            opening != "" && opening[|opening| - 1] == NL && NL !in opening[..|opening| - 1]
  {
    var front := "//#region " + region + ending[..|ending| - 1];
    assert RegionStart(region, ending)[..|RegionStart(region, ending)| - 1] == front;
  }

  /** Lines end in CRLF when the file holds one anywhere. */
  lemma {:induction false} LineEndingIff(content: string)
    ensures LineEnding(content) == CRLF <==> exists k :: StartsWithAt(content, k, CRLF)
    ensures LineEnding(content) != CRLF ==> LineEnding(content) == "\n"
  {
    hide StartsWithAt;
    IndexOfIsFirst(content, CRLF, 0);
    if k :| StartsWithAt(content, k, CRLF) {
    }
  }

  /** The lines up to the last one that is not empty. */
  lemma {:induction false} DropTrailingEmptyIs(lines: seq<string>)
    ensures var r := DropTrailingEmpty(lines);
            && r <= lines
            && (r != [] ==> r[|r| - 1] != "")
            && forall i :: |r| <= i < |lines| ==> lines[i] == ""
  {
    if lines != [] && lines[|lines| - 1] == "" {
      DropTrailingEmptyIs(lines[..|lines| - 1]);
    }
  }

  // ----- when there is nothing to extract

  ghost predicate Occurs(content: string, marker: string, from: nat) {
    exists k :: from <= k && StartsWithAt(content, k, marker)
  }

  /** The first copy of a marker. */
  ghost predicate FirstAt(content: string, marker: string, start: nat) {
    StartsWithAt(content, start, marker) && NoEarlier(content, marker, 0, start)
  }

  /**
   Extraction fails for the kind of file, without an opening marker, or without a closing one behind
   the first opening one.
  */
  lemma {:induction false} ExtractFailsIff(content: string, region: string, examplePath: string)
    ensures var opening := RegionStart(region, LineEnding(content));
            var closing := RegionEnd(region, LineEnding(content));
            var r := ExtractRegion(content, region, examplePath);
            && (r == Failure(UnsupportedFile(region)) <==> !EndsWith(examplePath, ".ts"))
            && (r == Failure(RegionNotFound(region)) <==> EndsWith(examplePath, ".ts") && !Occurs(content, opening, 0))
            && (r == Failure(RegionEndNotFound(region)) <==>
                  EndsWith(examplePath, ".ts")
                  && exists start: nat :: FirstAt(content, opening, start) && !Occurs(content, closing, start))
            && (r.Failure? ==> r.error in {UnsupportedFile(region), RegionNotFound(region), RegionEndNotFound(region)})
  {
    hide RegionStart, RegionEnd, StartsWithAt, EndsWith, RegionBody, LineEnding;
    var opening, closing := RegionStart(region, LineEnding(content)), RegionEnd(region, LineEnding(content));
    EndsInNewline(region, content);
    var found := IndexOf(content, opening, 0);
    IndexOfIsFirst(content, opening, 0);
    if found.Some? {
      IndexOfIsFirst(content, closing, found.value);
      assert FirstAt(content, opening, found.value);
      forall start: nat | FirstAt(content, opening, start) ensures start == found.value {
      }
    }
  }

  lemma {:induction false} EndsInNewline(region: string, content: string)
    ensures var opening := RegionStart(region, LineEnding(content)); opening != "" && opening[|opening| - 1] == NL
  {
  }

  lemma {:induction false} ExtractHeld(file: string, opening: string, closing: string, region: string, start: nat,
                                       end: nat, text: string)
    requires opening != "" && opening[|opening| - 1] == NL && NL !in opening[..|opening| - 1]
    requires StartsWithAt(file, start, opening) && StartsWithAt(file, end, closing)
    requires start + |opening| <= end && MarkersAreFirst(file, opening, closing, start, end)
    requires RegionBody(file, start, start + |opening| - 1, end) == text
    ensures ExtractBetween(file, opening, closing, region) == Success(text)
  {
    hide FindMarkers, RegionBody, StartsWithAt, MarkersAreFirst;
    MarkersFound(file, opening, closing, start, end);
  }

  lemma {:induction false} BodyHeld(file: string, indent: string, code: seq<string>, embedded: seq<string>,
                                    last: string, start: nat, body: nat, end: nat)
    requires AllSpace(indent) && NL !in indent && EmbeddedAs(code, indent, embedded)
    requires HoldsBody(file, indent, embedded, last, start, body, end)
    ensures body <= end && RegionBody(file, start, body - 1, end) == Join(DropTrailingEmpty(NormalLines(code)), NL)
  {
    IndentFound(file, indent, start);
    DedentedEmbedded(code, indent, embedded, last);
  }

  lemma {:induction false} MarkersFound(file: string, opening: string, closing: string, start: nat, end: nat)
    requires opening != "" && opening[|opening| - 1] == NL && NL !in opening[..|opening| - 1]
    requires StartsWithAt(file, start, opening) && StartsWithAt(file, end, closing) && start <= end
    requires MarkersAreFirst(file, opening, closing, start, end)
    ensures FindMarkers(file, opening, closing) == Found(start, start + |opening| - 1, end)
  {
    NewlineAfterMarker(file, start, opening);
    IndexOfIs(file, opening, 0, start);
    IndexOfIs(file, closing, start, end);
  }

  lemma {:induction false} DedentedEmbedded(code: seq<string>, indent: string, embedded: seq<string>, last: string)
    requires AllSpace(indent) && AllSpace(last) && NL !in last && EmbeddedAs(code, indent, embedded)
    ensures Dedented(Flat(embedded, NL) + last, indent) == Join(DropTrailingEmpty(NormalLines(code)), NL)
  {
    SplitEmbedded(embedded, last);
    DedentEmbedded(code, indent, embedded, last);
    DropLast(NormalLines(code));
  }

  lemma {:induction false} DropLast(lines: seq<string>)
    ensures DropTrailingEmpty(lines + [""]) == DropTrailingEmpty(lines)
  {
    assert (lines + [""])[..|lines|] == lines;
  }

  lemma {:induction false} IndexOfIs(s: string, pat: string, from: nat, i: nat)
    requires from <= i && StartsWithAt(s, i, pat) && NoEarlier(s, pat, from, i)
    ensures IndexOf(s, pat, from) == Some(i)
  {
    IndexOfIsFirst(s, pat, from);
  }

  lemma {:induction false} NewlineAfterMarker(s: string, i: nat, marker: string)
    requires StartsWithAt(s, i, marker)
    requires marker != "" && marker[|marker| - 1] == NL && NL !in marker[..|marker| - 1]
    ensures IndexOf(s, [NL], i) == Some(i + |marker| - 1)
  {
    var last := i + |marker| - 1;
    assert s[i..i + |marker|][|marker| - 1] == s[last];
    forall k | i <= k < last ensures !StartsWithAt(s, k, [NL]) {
      assert s[k] == marker[k - i] == marker[..|marker| - 1][k - i];
      assert s[k..k + 1] == [s[k]];
    }
    assert s[last..last + 1] == [NL];
    IndexOfIs(s, [NL], i, last);
  }

  lemma {:induction false} IndentFound(file: string, indent: string, start: nat)
    requires NL !in indent && |indent| <= start <= |file| && file[start - |indent|..start] == indent
    requires start == |indent| || file[start - |indent| - 1] == NL
    ensures file[LineStart(file, start)..start] == indent
  {
    var first := start - |indent|;
    assert forall j :: first <= j < start ==> file[j] == indent[j - first];
    assert LineStart(file, start) == first;
  }
}
