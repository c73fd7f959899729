/**
 The shape of fence lines, stated by how they are put together, and the proof that the
 recognisers read exactly the lines of that shape and give back their parts.
 */
module FenceSyntax {
  import opened Wrappers
  import opened Text
  import opened Seqs
  import opened FencePatterns

  ghost predicate All(s: string, p: char -> bool) {
    forall i :: 0 <= i < |s| ==> p(s[i])
  }

  /** A non-empty run of `p`. */
  ghost predicate Some1(s: string, p: char -> bool) {
    s != "" && All(s, p)
  }

  lemma {:induction false} SpanRun(run: string, rest: string, p: char -> bool)
    requires All(run, p) && (rest != "" ==> !p(rest[0]))
    ensures Span(run + rest, 0, p) == |run|
    ensures (run + rest)[..|run|] == run && (run + rest)[|run|..] == rest
  {
    SpanIs(run + rest, 0, p, |run|);
  }

  lemma {:induction false} SpanAllOf(s: string, p: char -> bool)
    ensures All(s[..Span(s, 0, p)], p) && s == s[..Span(s, 0, p)] + s[Span(s, 0, p)..]
  {
    forall k | 0 <= k < Span(s, 0, p) ensures p(s[..Span(s, 0, p)][k]) {
      SpanAll(s, 0, p, k);
    }
  }

  // ----- the source attribute

  ghost predicate IsSource(source: Source) {
    && Some1(source.path, InPath)
    && (source.region.Some? ==> Some1(source.region.value, NotQuote))
  }

  function RegionText(region: Option<string>): string {
    if region.Some? then "#" + region.value else ""
  }

  function PathText(source: Source): string {
    source.path + (RegionText(source.region) + "\"")
  }

  /** A path text is read back; what follows its closing quote does not matter. */
  lemma {:induction false} PathRead(source: Source, tail: string)
    requires IsSource(source)
    ensures PathOf(PathText(source) + tail) == Some(source)
  {
    var after := RegionText(source.region) + "\"" + tail;
    Assoc(source.path, RegionText(source.region) + "\"", tail);
    SpanRun(source.path, after, InPath);
    if source.region.Some? {
      var r := source.region.value;
      assert after[1..] == r + ("\"" + tail);
      assert after[0] == '#';
      SpanRun(r, "\"" + tail, NotQuote);
      RegionAfter(source.path, after);
    } else {
      assert after[0] == '"';
    }
  }

  lemma RegionAfter(path: string, after: string)
    requires after != ""
    ensures (path + after)[|path| + 1..] == after[1..]
  {
  }

  /** The first character of a text, and what is left of the region text once its `#` is cut off. */
  lemma FirstCut(text: string)
    requires text != ""
    ensures text == [text[0]] + text[1..]
  {
  }

  lemma {:induction false} RegionGlued(region: string, tail: string)
    ensures "#" + (region + ("\"" + tail)) == "#" + region + "\"" + tail
  {
    Assoc("#" + region, "\"", tail);
    Assoc("#", region, "\"" + tail);
  }

  /** Whatever is read as a path begins with that path's text. */
  lemma {:induction false} PathFound(text: string) returns (tail: string)
    requires PathOf(text).Some?
    ensures IsSource(PathOf(text).value) && text == PathText(PathOf(text).value) + tail
  {
    hide All;
    var end := Span(text, 0, InPath);
    var path, after := text[..end], text[end..];
    SpanAllOf(text, InPath);
    FirstCut(after);
    if text[end] == '"' {
      tail := after[1..];
      assert RegionText(None) + "\"" == "\"";
      Assoc(path, "\"", tail);
    } else {
      var rest := after[1..];
      assert rest == text[end + 1..];
      tail := RegionFound(path, rest);
      var region := RegionOf(path, rest).value.region;
      assert after == RegionText(region) + "\"" + tail by {
        RegionGlued(region.value, tail);
      }
      Assoc(path, RegionText(region) + "\"", tail);
    }
  }

  lemma {:induction false} RegionFound(path: string, rest: string) returns (tail: string)
    requires RegionOf(path, rest).Some?
    ensures var found := RegionOf(path, rest).value;
            found.path == path && found.region.Some? && Some1(found.region.value, NotQuote)
            && rest == found.region.value + ("\"" + tail)
  {
    hide All;
    var quote := Span(rest, 0, NotQuote);
    SpanAllOf(rest, NotQuote);
    FirstCut(rest[quote..]);
    tail := rest[quote..][1..];
  }

  function SourceText(source: Source): string {
    SOURCE + PathText(source)
  }

  lemma {:induction false} SourceRead(source: Source, tail: string)
    requires IsSource(source)
    ensures SourceOf(SourceText(source) + tail) == Some(source)
  {
    hide PathOf, PathText;
    var text := SourceText(source) + tail;
    Assoc(SOURCE, PathText(source), tail);
    assert text[..|SOURCE|] == SOURCE && text[|SOURCE|..] == PathText(source) + tail;
    PathRead(source, tail);
  }

  lemma {:induction false} SourceFound(text: string) returns (tail: string)
    requires SourceOf(text).Some?
    ensures IsSource(SourceOf(text).value) && text == SourceText(SourceOf(text).value) + tail
  {
    hide PathOf, PathText;
    var rest := text[|SOURCE|..];
    tail := PathFound(rest);
    Cut(text, |SOURCE|);
    Assoc(SOURCE, PathText(PathOf(rest).value), tail);
  }

  // ----- the label

  ghost predicate IsLabel(tag: Label) {
    IsSource(tag.source) && (tag.displayName.Some? ==> Some1(tag.displayName.value, NotSpace))
  }

  lemma {:induction false} SourceStartsWithS(source: Source, tail: string)
    ensures var text := SourceText(source) + tail; text != "" && text[0] == 's' && !IsSpace(text[0])
  {
    hide PathText;
  }

  lemma {:induction false} NamedRead(name: string, gap: string, source: Source, tail: string)
    requires Some1(name, NotSpace) && Some1(gap, IsSpace) && IsSource(source)
    ensures NamedOf(name + (gap + (SourceText(source) + tail))) == Some(Label(Some(name), source))
  {
    hide SourceOf, SourceText;
    var rest := SourceText(source) + tail;
    SourceStartsWithS(source, tail);
    SpanRun(name, gap + rest, NotSpace);
    SpanRun(gap, rest, IsSpace);
    SourceRead(source, tail);
  }

  lemma {:induction false} NamedFound(text: string) returns (gap: string, tail: string)
    requires NamedOf(text).Some?
    ensures NamedOf(text).value.displayName.Some? && IsLabel(NamedOf(text).value) && Some1(gap, IsSpace)
    ensures var tag := NamedOf(text).value;
            text == tag.displayName.value + (gap + (SourceText(tag.source) + tail))
  {
    hide SourceOf, SourceText, IsSource;
    var nameEnd := Span(text, 0, NotSpace);
    var after := text[nameEnd..];
    var end := Span(after, 0, IsSpace);
    SpanAllOf(text, NotSpace);
    SpanAllOf(after, IsSpace);
    gap := after[..end];
    tail := SourceFound(after[end..]);
  }

  /** A display name, white space and the source attribute, whatever follows. */
  ghost predicate IsNamedText(text: string, name: string, gap: string, source: Source, tail: string) {
    Some1(name, NotSpace) && Some1(gap, IsSpace) && IsSource(source)
      && text == name + (gap + (SourceText(source) + tail))
  }

  ghost predicate CanBeNamed(text: string) {
    exists name, gap, source, tail :: IsNamedText(text, name, gap, source, tail)
  }

  lemma {:induction false} NamedIff(text: string)
    ensures NamedOf(text).Some? <==> CanBeNamed(text)
  {
    hide NamedOf, SourceText, IsSource, Some1;
    if NamedOf(text).Some? {
      var gap, tail := NamedFound(text);
      var found := NamedOf(text).value;
      assert IsNamedText(text, found.displayName.value, gap, found.source, tail);
    }
    if name, gap, source, tail :| IsNamedText(text, name, gap, source, tail) {
      NamedRead(name, gap, source, tail);
    }
  }

  /**
   The text after a label's leading white space: the source attribute, behind a display name or,
   when no reading of the text gives a display name, alone.
   */
  ghost predicate IsLabelText(text: string, tag: Label, gap: string, tail: string) {
    && IsLabel(tag)
    && match tag.displayName
       case Some(name) => IsNamedText(text, name, gap, tag.source, tail)
       case None => !CanBeNamed(text) && text == SourceText(tag.source) + tail
  }

  lemma {:induction false} LabelRead(space: string, text: string, tag: Label, gap: string, tail: string)
    requires Some1(space, IsSpace) && IsLabelText(text, tag, gap, tail)
    ensures LabelOf(space + text) == Some(tag)
  {
    hide SourceOf, SourceText, NamedOf, IsSource;
    match tag.displayName
    case Some(name) =>
      assert text[0] == name[0];
      SpanRun(space, text, IsSpace);
      NamedRead(name, gap, tag.source, tail);
    case None =>
      NamedIff(text);
      SourceStartsWithS(tag.source, tail);
      SpanRun(space, text, IsSpace);
      SourceRead(tag.source, tail);
  }

  lemma {:induction false} LabelFound(text: string) returns (space: string, rest: string, gap: string, tail: string)
    requires LabelOf(text).Some?
    ensures text == space + rest && Some1(space, IsSpace) && IsLabelText(rest, LabelOf(text).value, gap, tail)
  {
    hide SourceOf, SourceText, NamedOf, IsSource;
    var end := Span(text, 0, IsSpace);
    SpanAllOf(text, IsSpace);
    space, rest := text[..end], text[end..];
    if NamedOf(rest).Some? {
      gap, tail := NamedFound(rest);
    } else {
      gap := "";
      NamedIff(rest);
      tail := SourceFound(rest);
    }
  }

  // ----- whole lines

  /** White space, a star, white space in a comment; nothing in Markdown. */
  ghost predicate IsPrefix(mode: FileMode, prefix: string) {
    match mode
    case Markdown => prefix == ""
    case Jsdoc => exists a, b :: StarBetween(a, b, prefix)
  }

  ghost predicate StarBetween(a: string, b: string, prefix: string) {
    All(a, IsSpace) && All(b, IsSpace) && prefix == a + ("*" + b)
  }

  /** The second run of a comment prefix, measured from behind the star. */
  lemma {:induction false} CommentPrefixEnd(line: string)
    ensures var star := Span(line, 0, IsSpace);
            star < |line| && line[star] == '*' ==>
              PrefixEnd(Jsdoc, line) == Some(star + 1 + Span(line[star..][1..], 0, IsSpace))
  {
    hide IsSpace;
    var star := Span(line, 0, IsSpace);
    if star < |line| && line[star] == '*' {
      SpanShift(line, star + 1, 0, IsSpace);
      assert line[star + 1..] == line[star..][1..];
    }
  }

  /** A line whose prefix ends in front of a backtick is cut exactly there. */
  lemma {:induction false} PrefixRead(mode: FileMode, prefix: string, rest: string)
    requires IsPrefix(mode, prefix) && rest != "" && rest[0] == '`'
    ensures PrefixEnd(mode, prefix + rest) == Some(|prefix|)
    ensures (prefix + rest)[..|prefix|] == prefix && (prefix + rest)[|prefix|..] == rest
  {
    CutConcat(prefix, rest, 0);
    if mode == Jsdoc {
      var a, b :| StarBetween(a, b, prefix);
      CommentPrefixRead(a, b, rest);
      Assoc(a, "*" + b, rest);
      Assoc("*", b, rest);
    } else {
      assert prefix + rest == rest;
    }
  }

  lemma {:induction false} CommentPrefixRead(a: string, b: string, rest: string)
    requires All(a, IsSpace) && All(b, IsSpace) && rest != "" && rest[0] == '`'
    ensures PrefixEnd(Jsdoc, a + ("*" + (b + rest))) == Some(|a| + 1 + |b|)
  {
    hide All, PrefixEnd;
    var after := "*" + (b + rest);
    var line := a + after;
    SpanRun(a, after, IsSpace);
    SpanRun(b, rest, IsSpace);
    assert after[1..] == b + rest;
    CommentPrefixEnd(line);
    assert line[|a|] == after[0];
  }

  /** A text that runs to its star and on through white space is cut into these parts. */
  lemma {:induction false} StarCut(line: string, star: nat, length: nat)
    requires star < |line| && length <= |line[star..][1..]|
    ensures line[..star + 1 + length] == line[..star] + ([line[star]] + line[star..][1..][..length])
  {
    CutTwice(line, star, star + 1 + length);
    assert line[star..star + 1 + length] == [line[star]] + line[star..][1..][..length];
  }

  lemma {:induction false} CommentPrefixFound(line: string)
    requires PrefixEnd(Jsdoc, line).Some?
    ensures IsPrefix(Jsdoc, line[..PrefixEnd(Jsdoc, line).value])
  {
    hide *;
    var star, after := StarFound(line);
    var length := Span(after, 0, IsSpace);
    SpanAllOf(line, IsSpace);
    SpanAllOf(after, IsSpace);
    StarCut(line, star, length);
    Between(line[..star], after[..length], line[..star + 1 + length]);
  }

  lemma {:induction false} StarFound(line: string) returns (star: nat, after: string)
    requires PrefixEnd(Jsdoc, line).Some?
    ensures star == Span(line, 0, IsSpace) < |line| && line[star] == '*' && after == line[star..][1..]
    ensures PrefixEnd(Jsdoc, line) == Some(star + 1 + Span(after, 0, IsSpace))
  {
    star := Span(line, 0, IsSpace);
    after := line[star..][1..];
    CommentPrefixEnd(line);
  }

  lemma {:induction false} Between(a: string, b: string, prefix: string)
    requires All(a, IsSpace) && All(b, IsSpace) && prefix == a + (['*'] + b)
    ensures IsPrefix(Jsdoc, prefix)
  {
    hide All;
    assert StarBetween(a, b, prefix);
  }

  lemma {:induction false} PrefixFound(mode: FileMode, line: string)
    requires PrefixEnd(mode, line).Some?
    ensures IsPrefix(mode, line[..PrefixEnd(mode, line).value])
  {
    match mode
    case Jsdoc => CommentPrefixFound(line);
    case Markdown =>
  }

  /** A closing line: prefix, backticks, white space. */
  ghost predicate IsCloserText(mode: FileMode, line: string, prefix: string, space: string) {
    IsPrefix(mode, prefix) && AllSpace(space) && line == prefix + (FENCE + space)
  }

  /** The closing recogniser accepts exactly the closing lines. */
  lemma {:induction false} CloserIff(mode: FileMode, line: string)
    ensures IsCloser(mode, line) <==> exists prefix, space :: IsCloserText(mode, line, prefix, space)
  {
    hide IsPrefix, PrefixEnd;
    if IsCloser(mode, line) {
      var end := PrefixEnd(mode, line).value;
      var rest := line[end..];
      PrefixFound(mode, line);
      assert line == line[..end] + (FENCE + rest[|FENCE|..]);
      assert IsCloserText(mode, line, line[..end], rest[|FENCE|..]);
    }
    if prefix, space :| IsCloserText(mode, line, prefix, space) {
      PrefixRead(mode, prefix, FENCE + space);
      assert (FENCE + space)[|FENCE|..] == space;
    }
  }

  /** An opening line: prefix, backticks, language, white space, label, anything. */
  ghost predicate IsOpenerText(mode: FileMode, line: string, m: OpenMatch, space: string, text: string, gap: string,
                               tail: string) {
    && IsPrefix(mode, m.linePrefix)
    && Some1(m.language, IsWord)
    && Some1(space, IsSpace)
    && IsLabelText(text, Label(m.displayName, Source(m.examplePath, m.regionName)), gap, tail)
    && line == m.linePrefix + (FENCE + (m.language + (space + text)))
  }

  /** The opening recogniser gives back the parts a line is put together from, and finds nothing else. */
  lemma {:induction false} OpenerIff(mode: FileMode, line: string, m: OpenMatch)
    ensures MatchOpener(mode, line) == Some(m)
       <==> exists space, text, gap, tail :: IsOpenerText(mode, line, m, space, text, gap, tail)
  {
    hide IsPrefix, IsLabelText, LabelOf, MatchOpener;
    if MatchOpener(mode, line) == Some(m) {
      var space, text, gap, tail := OpenerFound(mode, line, m);
    }
    if space, text, gap, tail :| IsOpenerText(mode, line, m, space, text, gap, tail) {
      OpenerRead(mode, line, m, space, text, gap, tail);
    }
  }

  lemma {:induction false} OpenerRead(mode: FileMode, line: string, m: OpenMatch, space: string, text: string,
                                      gap: string, tail: string)
    requires IsOpenerText(mode, line, m, space, text, gap, tail)
    ensures MatchOpener(mode, line) == Some(m)
  {
    hide IsPrefix, IsLabelText, LabelOf, PrefixEnd;
    var labelled := space + text;
    var worded := m.language + labelled;
    PrefixRead(mode, m.linePrefix, FENCE + worded);
    assert (FENCE + worded)[|FENCE|..] == worded && StartsWith(FENCE + worded, FENCE);
    assert labelled[0] == space[0];
    SpanRun(m.language, labelled, IsWord);
    LabelRead(space, text, Label(m.displayName, Source(m.examplePath, m.regionName)), gap, tail);
  }

  lemma {:induction false} OpenerFound(mode: FileMode, line: string, m: OpenMatch)
    returns (space: string, text: string, gap: string, tail: string)
    ensures MatchOpener(mode, line) == Some(m) ==> IsOpenerText(mode, line, m, space, text, gap, tail)
  {
    hide IsPrefix, IsLabelText, LabelOf, PrefixEnd;
    space, text, gap, tail := "", "", "", "";
    if MatchOpener(mode, line) == Some(m) {
      var end := PrefixEnd(mode, line).value;
      var rest := line[end..];
      var worded := rest[|FENCE|..];
      var wordEnd := Span(worded, 0, IsWord);
      PrefixFound(mode, line);
      SpanAllOf(worded, IsWord);
      space, text, gap, tail := LabelFound(worded[wordEnd..]);
      FenceCut(line, end, worded);
      hide PrefixEnd, MatchOpener;
      assert worded == m.language + (space + text);
    }
  }

  lemma {:induction false} FenceCut(line: string, end: nat, after: string)
    requires end <= |line| && StartsWith(line[end..], FENCE) && after == line[end..][|FENCE|..]
    ensures line == line[..end] + (FENCE + after)
  {
    Cut(line, end);
    Cut(line[end..], |FENCE|);
  }
}
