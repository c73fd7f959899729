/** Printing and parsing the `name=value` arguments of a prompt command. */
module PromptArgs {
  import opened Wrappers
  import opened Text
  import opened Seqs

  const QUOTE: char := '"'

  /** Assigning this key of a plain object does not add a key. */
  const PROTO: string := "__proto__"

  predicate IsNameChar(c: char) {
    IsWord(c) || c == '-'
  }

  predicate NotSpace(c: char) {
    !IsSpace(c)
  }

  predicate NotQuote(c: char) {
    c != QUOTE
  }

  // ----- parsing

  /** The end of a value at `i`: a quoted text if its quote closes, else a run without white space. */
  function ValueEnd(s: string, i: nat): (end: nat)
    requires i <= |s|
    ensures i <= end <= |s|
  {
    if i < |s| && s[i] == QUOTE && Span(s, i + 1, NotQuote) < |s| then Span(s, i + 1, NotQuote) + 1
    else Span(s, i, NotSpace)
  }

  datatype Match = Match(nameEnd: nat, end: nat)

  /** A name, an equals sign and a non-empty value at `i`. */
  function MatchAt(s: string, i: nat): (r: Option<Match>)
    requires i <= |s|
    ensures r.Some? ==> i < r.value.nameEnd < r.value.nameEnd + 1 < r.value.end <= |s|
  {
    var nameEnd := Span(s, i, IsNameChar);
    if i < nameEnd < |s| && s[nameEnd] == '=' && ValueEnd(s, nameEnd + 1) > nameEnd + 1 then
      Some(Match(nameEnd, ValueEnd(s, nameEnd + 1)))
    else None
  }

  /** Every match from `i` on, as the raw texts of its name and value. */
  function MatchAll(s: string, i: nat): seq<(string, string)>
    requires i <= |s|
    decreases |s| - i
  {
    if i == |s| then []
    else
      match MatchAt(s, i)
      case Some(m) => [(s[i..m.nameEnd], s[m.nameEnd + 1..m.end])] + MatchAll(s, m.end)
      case None => MatchAll(s, i + 1)
  }

  /** A raw value without a leading and a trailing quote. */
  function Unquote(raw: string): (r: string)
    ensures |r| <= |raw|
  {
    var r := if raw != "" && raw[0] == QUOTE then raw[1..] else raw;
    if r != "" && r[|r| - 1] == QUOTE then r[..|r| - 1] else r
  }

  function Assign(args: map<string, string>, key: string, value: string): map<string, string> {
    if key == PROTO then args else args[key := value]
  }

  function Collect(args: map<string, string>, matches: seq<(string, string)>): map<string, string>
    decreases |matches|
  {
    if matches == [] then args
    else Collect(Assign(args, matches[0].0, Unquote(matches[0].1)), matches[1..])
  }

  function Parsed(rest: string): map<string, string> {
    Collect(map[], MatchAll(rest, 0))
  }

  method ParsePromptArgs(rest: string) returns (args: map<string, string>)
    ensures args == Parsed(rest)
  {
    args := map[];
    var matches := MatchAll(rest, 0);
    for i := 0 to |matches|
      invariant Collect(args, matches[i..]) == Parsed(rest)
    {
      var (key, raw) := matches[i];
      assert matches[i..][1..] == matches[i + 1..] && matches[i..][0] == matches[i];
      if key != PROTO {
        args := args[key := Unquote(raw)];
      }
    }
  }

  // ----- printing

  datatype Argument = Argument(name: string, value: string)

  predicate HasSpace(s: string) {
    exists i :: 0 <= i < |s| && IsSpace(s[i])
  }

  /** The value as the completer offers it: quoted when it holds white space. */
  function RawValue(value: string): string {
    if HasSpace(value) then [QUOTE] + value + [QUOTE] else value
  }

  function Print(a: Argument): string {
    a.name + "=" + RawValue(a.value)
  }

  /** Several arguments, separated by spaces. */
  function PrintAll(args: seq<Argument>): string {
    if args == [] then ""
    else if |args| == 1 then Print(args[0])
    else Print(args[0]) + " " + PrintAll(args[1..])
  }

  predicate IsName(name: string) {
    && name != "" && name != PROTO
    && forall i :: 0 <= i < |name| ==>
         var c := name[i];
         'a' <= c <= 'z' || 'A' <= c <= 'Z' || '0' <= c <= '9' || c == '_' || c == '-'
  }

  /** A value that survives: not empty, and free of quotes where a quote would be taken for the parser's own. */
  predicate Printable(value: string) {
    && value != ""
    && if HasSpace(value) then QUOTE !in value else value[0] != QUOTE && value[|value| - 1] != QUOTE
  }

  // ----- reading from the middle of a text

  lemma {:induction false} ValueEndShift(s: string, from: nat, i: nat)
    requires from + i <= |s|
    ensures ValueEnd(s, from + i) == from + ValueEnd(s[from..], i)
  {
    hide NotQuote, NotSpace;
    SpanShift(s, from, i, NotSpace);
    if from + i < |s| {
      assert s[from + i] == s[from..][i];
      SpanShift(s, from, i + 1, NotQuote);
    }
  }

  lemma {:induction false} MatchAtShift(s: string, from: nat, i: nat)
    requires from + i <= |s|
    ensures MatchAt(s, from + i) == match MatchAt(s[from..], i)
                                    case Some(m) => Some(Match(from + m.nameEnd, from + m.end))
                                    case None => None
  {
    hide ValueEnd, IsNameChar;
    SpanShift(s, from, i, IsNameChar);
    var nameEnd := Span(s[from..], i, IsNameChar);
    if nameEnd < |s[from..]| {
      assert s[from..][nameEnd] == s[from + nameEnd];
      ValueEndShift(s, from, nameEnd + 1);
    }
  }

  lemma {:induction false} MatchAllShift(s: string, from: nat, i: nat)
    requires from + i <= |s|
    ensures MatchAll(s, from + i) == MatchAll(s[from..], i)
    decreases |s| - i
  {
    hide MatchAt;
    if from + i < |s| {
      MatchAtShift(s, from, i);
      match MatchAt(s[from..], i)
      case Some(m) =>
        SliceShift(s, from, i, m.nameEnd);
        SliceShift(s, from, m.nameEnd + 1, m.end);
        MatchAllShift(s, from, m.end);
      case None =>
        MatchAllShift(s, from, i + 1);
    }
  }

  lemma SliceShift(s: string, from: nat, i: nat, j: nat)
    requires i <= j && from + j <= |s|
    ensures s[from..][i..j] == s[from + i..from + j]
  {
  }

  // ----- one argument at the start of a text

  lemma {:induction false} NameRead(name: string, after: string)
    requires IsName(name) && after != "" && after[0] == '='
    ensures Span(name + after, 0, IsNameChar) == |name|
  {
    SpanIs(name + after, 0, IsNameChar, |name|);
  }

  /** A text that begins with a name, an equals sign and a value: the match and what follows it. */
  lemma {:induction false} FirstMatch(name: string, tail: string)
    requires IsName(name) && ValueEnd(tail, 0) > 0
    ensures var end := ValueEnd(tail, 0);
            MatchAll(name + "=" + tail, 0) == [(name, tail[..end])] + MatchAll(tail[end..], 0)
  {
    hide *;
    MatchAtName(name, tail);
    CutName(name, tail);
    MatchFirst(name + "=" + tail, name, tail, ValueEnd(tail, 0));
  }

  lemma {:induction false} MatchFirst(s: string, name: string, tail: string, end: nat)
    requires |name| < |s| && s[..|name|] == name && s[|name| + 1..] == tail && end <= |tail|
    requires MatchAt(s, 0) == Some(Match(|name|, |name| + 1 + end))
    ensures MatchAll(s, 0) == [(name, tail[..end])] + MatchAll(tail[end..], 0)
  {
    hide *;
    HeadMatch(s, |name|, end);
    CutAt(s, |name| + 1, end);
  }

  lemma CutAt(s: string, from: nat, i: nat)
    requires from + i <= |s|
    ensures s[from..from + i] == s[from..][..i] && s[from + i..] == s[from..][i..]
  {
  }

  lemma CutName(name: string, tail: string)
    ensures var s := name + "=" + tail; s[..|name|] == name && s[|name|] == '=' && s[|name| + 1..] == tail
  {
  }

  lemma {:induction false} MatchAtName(name: string, tail: string)
    requires IsName(name) && ValueEnd(tail, 0) > 0
    ensures MatchAt(name + "=" + tail, 0) == Some(Match(|name|, |name| + 1 + ValueEnd(tail, 0)))
  {
    var s := name + "=" + tail;
    Assoc(name, "=", tail);
    NameRead(name, "=" + tail);
    CutName(name, tail);
    ValueEndShift(s, |name| + 1, 0);
    hide ValueEnd, IsNameChar;
  }

  lemma {:induction false} HeadMatch(s: string, n: nat, end: nat)
    requires n + 1 + end <= |s| && MatchAt(s, 0) == Some(Match(n, n + 1 + end))
    ensures MatchAll(s, 0) == [(s[..n], s[n + 1..n + 1 + end])] + MatchAll(s[n + 1 + end..], 0)
  {
    hide MatchAt;
    MatchAllShift(s, n + 1 + end, 0);
  }

  /** A value the parser can return: it does not start with a quote, and does not mix white space and quotes. */
  predicate Attainable(value: string) {
    (value == "" || value[0] != QUOTE) && !(HasSpace(value) && QUOTE in value)
  }

  /** Such a value, unless empty, is read whole when white space or the end of the text follows. */
  lemma {:induction false} ValueRead(value: string, after: string)
    requires Attainable(value) && value != "" && (after == "" || IsSpace(after[0]))
    ensures ValueEnd(RawValue(value) + after, 0) == |RawValue(value)| > 0
  {
    var raw := RawValue(value);
    var s := raw + after;
    if HasSpace(value) {
      assert s == [QUOTE] + value + ([QUOTE] + after);
      forall j | 1 <= j < 1 + |value| ensures NotQuote(s[j]) {
        assert s[j] == value[j - 1];
      }
      SpanIs(s, 1, NotQuote, 1 + |value|);
    } else {
      assert forall j :: 0 <= j < |value| ==> s[j] == value[j];
      SpanIs(s, 0, NotSpace, |value|);
    }
  }

  /** It comes back unchanged exactly when it is printable. */
  lemma {:induction false} UnquotedIff(value: string)
    requires Attainable(value) && value != ""
    ensures Unquote(RawValue(value)) == value <==> Printable(value)
  {
    if HasSpace(value) {
      assert RawValue(value)[1..] == value + [QUOTE];
    }
  }

  lemma {:induction false} SpaceSkipped(rest: string)
    ensures MatchAll(" " + rest, 0) == MatchAll(rest, 0)
  {
    var s := " " + rest;
    assert Span(s, 0, IsNameChar) == 0;
    assert s[1..] == rest;
    MatchAllShift(s, 1, 0);
  }

  // ----- reading what was printed

  /** What the parser matches: an empty value is no match. */
  function Matches(args: seq<Argument>): seq<(string, string)> {
    if args == [] then []
    else (if args[0].value == "" then [] else [(args[0].name, RawValue(args[0].value))]) + Matches(args[1..])
  }

  ghost predicate AllNamed(args: seq<Argument>) {
    forall i :: 0 <= i < |args| ==> IsName(args[i].name)
  }

  ghost predicate AllAttainable(args: seq<Argument>) {
    forall i :: 0 <= i < |args| ==> Attainable(args[i].value)
  }

  ghost predicate AllPrintable(args: seq<Argument>) {
    forall i :: 0 <= i < |args| ==> Printable(args[i].value)
  }

  /** What follows the first argument. */
  function Rest(args: seq<Argument>): string
    requires args != []
  {
    if |args| == 1 then "" else " " + PrintAll(args[1..])
  }

  lemma {:induction false} PrintFirst(args: seq<Argument>)
    requires args != []
    ensures PrintAll(args) == args[0].name + "=" + (RawValue(args[0].value) + Rest(args))
    ensures Rest(args) == "" || IsSpace(Rest(args)[0])
  {
    hide RawValue;
    Assoc(args[0].name + "=", RawValue(args[0].value), Rest(args));
    if |args| > 1 {
      Assoc(Print(args[0]), " ", PrintAll(args[1..]));
    }
  }

  lemma {:induction false} MatchesOfRest(args: seq<Argument>)
    requires args != []
    ensures MatchAll(Rest(args), 0) == MatchAll(PrintAll(args[1..]), 0)
  {
    hide MatchAll, PrintAll;
    if |args| > 1 {
      SpaceSkipped(PrintAll(args[1..]));
    } else {
      assert args[1..] == [];
      PrintNothing();
    }
  }

  lemma PrintNothing()
    ensures PrintAll([]) == ""
  {
  }

  lemma {:induction false} PrintedMatches(args: seq<Argument>)
    requires AllNamed(args) && AllAttainable(args)
    ensures MatchAll(PrintAll(args), 0) == Matches(args)
  {
    hide MatchAll, PrintAll, Rest, Attainable, IsName, RawValue, ValueEnd;
    if args == [] {
      PrintNothing();
      EmptyText();
    } else {
      var (a, after) := (args[0], Rest(args));
      var raw := RawValue(a.value);
      PrintFirst(args);
      PrintedMatches(args[1..]);
      MatchesOfRest(args);
      if a.value == "" {
        NoSpaceInEmpty();
        assert "" + after == after;
        EmptyValueSkipped(a.name, after, 0);
      } else {
        ValueRead(a.value, after);
        FirstMatch(a.name, raw + after);
        CutConcat(raw, after, 0);
      }
    }
  }

  lemma EmptyText()
    ensures MatchAll("", 0) == []
  {
  }

  ghost predicate DistinctNames(args: seq<Argument>) {
    forall i, j :: 0 <= i < j < |args| ==> args[i].name != args[j].name
  }

  /** The record a list of arguments stands for. */
  function RecordOf(args: seq<Argument>): map<string, string> {
    if args == [] then map[] else RecordOf(args[1..])[args[0].name := args[0].value]
  }

  lemma AssignOrdinary(args: map<string, string>, a: Argument)
    requires a.name != PROTO
    ensures Assign(args, a.name, a.value) == args[a.name := a.value]
  {
  }

  /** The record that is read. */
  function ReadRecord(args: seq<Argument>): map<string, string> {
    if args == [] then map[]
    else if args[0].value == "" then ReadRecord(args[1..])
    else ReadRecord(args[1..])[args[0].name := Unquote(RawValue(args[0].value))]
  }

  lemma {:induction false} NotInReadRecord(args: seq<Argument>, name: string)
    requires forall i :: 0 <= i < |args| ==> args[i].name != name
    ensures name !in ReadRecord(args)
  {
    if args == [] {
    } else {
      NotInReadRecord(args[1..], name);
    }
  }

  lemma {:induction false} CollectMatches(start: map<string, string>, args: seq<Argument>)
    requires AllNamed(args) && DistinctNames(args)
    ensures Collect(start, Matches(args)) == start + ReadRecord(args)
    decreases |args|
  {
    hide RawValue, Unquote;
    if args == [] {
      assert start + map[] == start;
    } else {
      var a := args[0];
      assert a.name != PROTO;
      hide IsName, Assign;
      if a.value == "" {
        assert Matches(args) == Matches(args[1..]);
        CollectMatches(start, args[1..]);
      } else {
        var value := Unquote(RawValue(a.value));
        AssignOrdinary(start, Argument(a.name, value));
        assert Matches(args)[1..] == Matches(args[1..]);
        CollectMatches(start[a.name := value], args[1..]);
        NotInReadRecord(args[1..], a.name);
        OverlaidLater(start, ReadRecord(args[1..]), a.name, value);
      }
    }
  }

  /** Printing and parsing named arguments with attainable values reads their record. */
  lemma {:induction false} ParsedRecord(args: seq<Argument>)
    requires AllNamed(args) && DistinctNames(args) && AllAttainable(args)
    ensures Parsed(PrintAll(args)) == ReadRecord(args)
  {
    hide PrintAll, Matches, ReadRecord;
    PrintedMatches(args);
    CollectMatches(map[], args);
    assert map[] + ReadRecord(args) == ReadRecord(args);
  }

  lemma PrintableIsAttainable(value: string)
    requires Printable(value)
    ensures Attainable(value)
  {
  }

  /** A record holds each argument under its name. */
  lemma {:induction false} RecordAt(args: seq<Argument>, i: nat)
    requires DistinctNames(args) && i < |args|
    ensures args[i].name in RecordOf(args) && RecordOf(args)[args[i].name] == args[i].value
    ensures args[i].name in ReadRecord(args) <==> args[i].value != ""
    ensures args[i].value != "" ==> ReadRecord(args)[args[i].name] == Unquote(RawValue(args[i].value))
  {
    hide Unquote, RawValue;
    if i > 0 {
      RecordAt(args[1..], i - 1);
      assert args[i] == args[1..][i - 1];
    } else {
      NotInReadRecord(args[1..], args[0].name);
    }
  }

  lemma {:induction false} PrintableRecord(args: seq<Argument>)
    requires AllPrintable(args)
    ensures ReadRecord(args) == RecordOf(args)
  {
    hide Unquote, RawValue;
    if args == [] {
    } else {
      assert Printable(args[0].value);
      PrintableIsAttainable(args[0].value);
      UnquotedIff(args[0].value);
      hide Printable;
      PrintableRecord(args[1..]);
    }
  }

  lemma OverlaidLater(start: map<string, string>, rest: map<string, string>, name: string,
                      value: string)
    requires name !in rest
    ensures start[name := value] + rest == start + rest[name := value]
  {
  }

  // ----- what the parser can return

  /** Every value read from a text is attainable. */
  lemma {:induction false} MatchesAreAttainable(s: string, i: nat)
    requires i <= |s|
    ensures forall m :: m in MatchAll(s, i) ==> Attainable(Unquote(m.1))
    decreases |s| - i
  {
    hide Attainable, Unquote, ValueEnd;
    if i == |s| {
    } else {
      match MatchAt(s, i)
      case Some(m) =>
        MatchesAreAttainable(s, m.end);
        RawIsAttainable(s, m.nameEnd + 1);
      case None =>
        MatchesAreAttainable(s, i + 1);
    }
  }

  lemma {:induction false} RawIsAttainable(s: string, i: nat)
    requires i <= |s|
    ensures Attainable(Unquote(s[i..ValueEnd(s, i)]))
  {
    hide Attainable, Unquote;
    var end := ValueEnd(s, i);
    var raw := s[i..end];
    if i < |s| && s[i] == QUOTE && Span(s, i + 1, NotQuote) < |s| {
      QuotedRaw(s, i, Span(s, i + 1, NotQuote));
    } else {
      forall k | 0 <= k < |raw| ensures !IsSpace(raw[k]) {
        SpanAll(s, i, NotSpace, i + k);
      }
      if raw != "" && raw[0] == QUOTE {
        forall k | 1 <= k < |raw| ensures raw[k] != QUOTE {
          SpanAll(s, i + 1, NotQuote, i + k);
        }
      }
      UnquotedRaw(raw);
    }
  }

  lemma {:induction false} QuotedRaw(s: string, i: nat, close: nat)
    requires i < close < |s| && s[i] == QUOTE && s[close] == QUOTE && close == Span(s, i + 1, NotQuote)
    ensures Attainable(Unquote(s[i..close + 1]))
  {
    var raw := s[i..close + 1];
    forall k | 1 <= k < |raw| - 1 ensures raw[k] != QUOTE {
      SpanAll(s, i + 1, NotQuote, i + k);
    }
    assert raw[1..][|raw| - 2] == QUOTE;
    var value := raw[1..][..|raw| - 2];
    assert forall k :: 0 <= k < |value| ==> value[k] == raw[k + 1];
  }

  lemma {:induction false} UnquotedRaw(raw: string)
    requires !HasSpace(raw)
    requires raw != "" && raw[0] == QUOTE ==> forall k :: 1 <= k < |raw| ==> raw[k] != QUOTE
    ensures Attainable(Unquote(raw))
  {
    var value := Unquote(raw);
    var from := if raw != "" && raw[0] == QUOTE then 1 else 0;
    assert forall k :: 0 <= k < |value| ==> value[k] == raw[from + k];
  }

  /** A collected value was there before or was matched. */
  lemma {:induction false} CollectedFrom(args: map<string, string>, matches: seq<(string, string)>, key: string,
                                         value: string)
    requires key in Collect(args, matches) && Collect(args, matches)[key] == value
    ensures (key in args && args[key] == value) || exists m :: m in matches && Unquote(m.1) == value
    decreases |matches|
  {
    hide Unquote;
    if matches == [] {
    } else {
      CollectedFrom(Assign(args, matches[0].0, Unquote(matches[0].1)), matches[1..], key, value);
      assert matches == [matches[0]] + matches[1..];
    }
  }

  lemma {:induction false} ParsedIsAttainable(rest: string, key: string)
    requires key in Parsed(rest)
    ensures Attainable(Parsed(rest)[key])
  {
    hide Attainable, Unquote, MatchAll, Collect;
    MatchesAreAttainable(rest, 0);
    CollectedFrom(map[], MatchAll(rest, 0), key, Parsed(rest)[key]);
  }

  // ----- printing and parsing are inverse

  /** Parsing what was printed gives the arguments back, also when a quoted value holds `k=v` text. */
  lemma {:induction false} ParsePrinted(args: seq<Argument>)
    requires AllNamed(args) && DistinctNames(args) && AllPrintable(args)
    ensures Parsed(PrintAll(args)) == RecordOf(args)
  {
    hide Parsed, PrintAll, IsName, ReadRecord, RecordOf;
    forall i | 0 <= i < |args| ensures Attainable(args[i].value) {
      PrintableIsAttainable(args[i].value);
    }
    ParsedRecord(args);
    PrintableRecord(args);
  }

  /** Arguments come back exactly when every one of their values is printable. */
  lemma {:induction false} ParsePrintedIff(args: seq<Argument>)
    requires AllNamed(args) && DistinctNames(args)
    ensures Parsed(PrintAll(args)) == RecordOf(args) <==> AllPrintable(args)
  {
    hide Parsed, PrintAll, IsName, Printable, ReadRecord, RecordOf, Attainable, Unquote, RawValue;
    if AllPrintable(args) {
      ParsePrinted(args);
    } else if Parsed(PrintAll(args)) == RecordOf(args) {
      forall i | 0 <= i < |args| ensures Attainable(args[i].value) {
        RecordAt(args, i);
        ParsedIsAttainable(PrintAll(args), args[i].name);
      }
      ParsedRecord(args);
      forall i | 0 <= i < |args| ensures Printable(args[i].value) {
        RecordAt(args, i);
        UnquotedIff(args[i].value);
      }
    }
  }

  /** An equals sign with nothing behind it matches nothing. */
  lemma {:induction false} EmptyValueSkipped(name: string, after: string, i: nat)
    requires IsName(name) && i <= |name| && (after == "" || IsSpace(after[0]))
    ensures MatchAll(name + "=" + after, i) == MatchAll(after, 0)
    decreases |name| - i
  {
    var s := name + "=" + after;
    hide MatchAll;
    if i == |name| {
      NoMatchAtEquals(name, after);
      NoMatch(s, i);
      AfterEquals(name, after);
    } else {
      NoMatchInName(name, after, i);
      NoMatch(s, i);
      EmptyValueSkipped(name, after, i + 1);
    }
  }

  lemma NoMatch(s: string, i: nat)
    requires i < |s| && MatchAt(s, i) == None
    ensures MatchAll(s, i) == MatchAll(s, i + 1)
  {
  }

  lemma {:induction false} AfterEquals(name: string, after: string)
    ensures MatchAll(name + "=" + after, |name| + 1) == MatchAll(after, 0)
  {
    hide MatchAll;
    var s := name + "=" + after;
    CutName(name, after);
    MatchAllShift(s, |name| + 1, 0);
  }

  lemma {:induction false} NoMatchAtEquals(name: string, after: string)
    ensures MatchAt(name + "=" + after, |name|) == None
  {
    CutName(name, after);
  }

  lemma {:induction false} NoMatchInName(name: string, after: string, i: nat)
    requires IsName(name) && i < |name| && (after == "" || IsSpace(after[0]))
    ensures MatchAt(name + "=" + after, i) == None
  {
    var s := name + "=" + after;
    CutName(name, after);
    forall k | i <= k < |name| ensures IsNameChar(s[k]) {
      assert s[k] == name[k];
    }
    SpanIs(s, i, IsNameChar, |name|);
    assert after != "" ==> s[|name| + 1] == after[0];
  }

  lemma NoSpaceInEmpty()
    ensures RawValue("") == ""
  {
  }
}
