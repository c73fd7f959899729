/**
 Labelled code fences: which lines open one, what the opener says, and which lines close one.
 Each recogniser reads a line left to right; the regular expressions it stands for never need
 to give a character back, because every repeated class excludes what must follow it.
 */
module FencePatterns {
  import opened Wrappers
  import opened Text

  datatype FileMode = Jsdoc | Markdown

  /** What an opening line carries: its prefix and the reference to the snippet. */
  datatype OpenMatch = OpenMatch(
    linePrefix: string,
    language: string,
    displayName: Option<string>,
    examplePath: string,
    regionName: Option<string>)

  const FENCE: string := "```"
  const SOURCE: string := "source=\""

  predicate InPath(c: char) {
    c != '"' && c != '#'
  }

  predicate NotQuote(c: char) {
    c != '"'
  }

  predicate NotSpace(c: char) {
    !IsSpace(c)
  }

  /** The length of the line prefix: a star between optional white space, or nothing. */
  function PrefixEnd(mode: FileMode, line: string): (r: Option<nat>)
    ensures r.Some? ==> r.value <= |line|
  {
    match mode
    case Markdown => Some(0)
    case Jsdoc =>
      var star := Span(line, 0, IsSpace);
      if star < |line| && line[star] == '*' then Some(Span(line, star + 1, IsSpace)) else None
  }

  datatype Source = Source(path: string, region: Option<string>)

  /** `path"` or `path#region"` at the start of a text. */
  function PathOf(text: string): Option<Source> {
    var end := Span(text, 0, InPath);
    if end == 0 || end == |text| then None
    else if text[end] == '"' then Some(Source(text[..end], None))
    else RegionOf(text[..end], text[end + 1..])
  }

  function RegionOf(path: string, text: string): Option<Source> {
    var end := Span(text, 0, NotQuote);
    if end == 0 || end == |text| then None else Some(Source(path, Some(text[..end])))
  }

  function SourceOf(text: string): Option<Source> {
    if StartsWith(text, SOURCE) then PathOf(text[|SOURCE|..]) else None
  }

  datatype Label = Label(displayName: Option<string>, source: Source)

  /** A display name, white space and the source attribute. */
  function NamedOf(text: string): Option<Label> {
    var nameEnd := Span(text, 0, NotSpace);
    var gap := Span(text[nameEnd..], 0, IsSpace);
    if nameEnd == 0 || gap == 0 then None
    else
      match SourceOf(text[nameEnd..][gap..])
      case None => None
      case Some(source) => Some(Label(Some(text[..nameEnd]), source))
  }

  /** What follows the language word: white space, then preferably with a display name. */
  function LabelOf(text: string): Option<Label> {
    var gap := Span(text, 0, IsSpace);
    if gap == 0 then None
    else
      var rest := text[gap..];
      if NamedOf(rest).Some? then NamedOf(rest)
      else
        match SourceOf(rest)
        case None => None
        case Some(source) => Some(Label(None, source))
  }

  /** The match of a labelled opening fence, if the line is one. */
  function MatchOpener(mode: FileMode, line: string): Option<OpenMatch> {
    var prefix := PrefixEnd(mode, line);
    if prefix.None? || !StartsWith(line[prefix.value..], FENCE) then None
    else
      var text := line[prefix.value..][|FENCE|..];
      var wordEnd := Span(text, 0, IsWord);
      if wordEnd == 0 then None
      else
        match LabelOf(text[wordEnd..])
        case None => None
        case Some(Label(displayName, source)) =>
          Some(OpenMatch(line[..prefix.value], text[..wordEnd], displayName, source.path, source.region))
  }

  predicate IsOpener(mode: FileMode, line: string) {
    MatchOpener(mode, line).Some?
  }

  predicate IsCloser(mode: FileMode, line: string) {
    var prefix := PrefixEnd(mode, line);
    && prefix.Some?
    && StartsWith(line[prefix.value..], FENCE)
    && AllSpace(line[prefix.value..][|FENCE|..])
  }

  /** No line both opens and closes: after the backticks one needs a word, the other only space. */
  lemma {:induction false} OpenerIsNotCloser(mode: FileMode, line: string)
    requires IsOpener(mode, line)
    ensures !IsCloser(mode, line)
  {
    hide LabelOf, PrefixEnd;
    var text := line[PrefixEnd(mode, line).value..][|FENCE|..];
    assert IsWord(text[0]) && !IsSpace(text[0]);
  }

  lemma {:induction false} SpanExcludes(s: string, i: nat, p: char -> bool, c: char)
    requires i <= |s| && !p(c)
    ensures c !in s[i..Span(s, i, p)]
    decreases |s| - i
  {
    if i < |s| && p(s[i]) {
      SpanExcludes(s, i + 1, p, c);
      assert s[i..Span(s, i, p)] == [s[i]] + s[i + 1..Span(s, i, p)];
    }
  }

  /** The path an opener names holds no `#`; a region it names is not empty. */
  lemma {:induction false} SourceHasNoHash(text: string)
    ensures SourceOf(text).Some? ==> '#' !in SourceOf(text).value.path
    ensures SourceOf(text).Some? && SourceOf(text).value.region.Some? ==> SourceOf(text).value.region.value != ""
  {
    if StartsWith(text, SOURCE) {
      SpanExcludes(text[|SOURCE|..], 0, InPath, '#');
    }
  }

  lemma {:induction false} OpenerHasNoHash(mode: FileMode, line: string)
    requires IsOpener(mode, line)
    ensures '#' !in MatchOpener(mode, line).value.examplePath && MatchOpener(mode, line).value.linePrefix <= line
  {
    hide SourceOf, PrefixEnd, IsWord;
    var text := line[PrefixEnd(mode, line).value..][|FENCE|..];
    var rest := text[Span(text, 0, IsWord)..];
    LabelHasNoHash(rest);
  }

  lemma {:induction false} LabelHasNoHash(text: string)
    ensures LabelOf(text).Some? ==> '#' !in LabelOf(text).value.source.path
  {
    hide SourceOf, IsSpace;
    var rest := text[Span(text, 0, IsSpace)..];
    SourceHasNoHash(rest);
    var after := rest[Span(rest, 0, NotSpace)..];
    SourceHasNoHash(after[Span(after, 0, IsSpace)..]);
  }

  /** The pair of recognisers a scan uses. */
  datatype Patterns = Patterns(open: string -> Option<OpenMatch>, close: string -> bool)

  function PatternsFor(mode: FileMode): Patterns {
    Patterns(line => MatchOpener(mode, line), line => IsCloser(mode, line))
  }

  /** No line both opens and closes. */
  ghost predicate Exclusive(p: Patterns) {
    forall line :: p.open(line).Some? ==> !p.close(line)
  }

  /** The prefix an opener reports is where its line starts, and its path holds no `#`. */
  ghost predicate Reporting(p: Patterns) {
    forall line :: p.open(line).Some? ==>
      p.open(line).value.linePrefix <= line && '#' !in p.open(line).value.examplePath
  }

  /** Both modes use recognisers of this kind. */
  lemma {:induction false} PatternsAreSound(mode: FileMode)
    ensures Exclusive(PatternsFor(mode)) && Reporting(PatternsFor(mode))
  {
    hide MatchOpener, IsCloser;
    forall line | IsOpener(mode, line)
      ensures !IsCloser(mode, line)
      ensures MatchOpener(mode, line).value.linePrefix <= line && '#' !in MatchOpener(mode, line).value.examplePath
    {
      OpenerIsNotCloser(mode, line);
      OpenerHasNoHash(mode, line);
    }
  }
}
