/** Collecting the answers to an elicitation form, field by field. */
module FormInput {
  import opened Wrappers
  import opened Text

  /** A number other than NaN. */
  datatype Number = Finite(value: real) | PositiveInfinity | NegativeInfinity

  datatype FormValue =
    | TextValue(text: string)
    | NumberValue(number: Number)
    | BooleanValue(flag: bool)
    | ListValue(items: seq<string>)

  datatype FieldType =
    | BooleanField
    | NumberField(integer: bool, minimum: Option<real>, maximum: Option<real>)
    | ListField
    | StringField(options: Option<seq<string>>)

  datatype Field = Field(name: string, fieldType: FieldType, default: Option<FormValue>)

  /** The runtime's lower-casing and its reading of a number, where `None` stands for NaN. */
  datatype Runtime = Runtime(lower: string -> string, toNumber: string -> Option<Number>)

  // ----- one answer

  predicate AtLeast(n: Number, bound: real) {
    n.PositiveInfinity? || (n.Finite? && n.value >= bound)
  }

  predicate AtMost(n: Number, bound: real) {
    n.NegativeInfinity? || (n.Finite? && n.value <= bound)
  }

  predicate IsInteger(n: Number) {
    n.Finite? && n.value == n.value.Floor as real
  }

  function NonEmptyItems(items: seq<string>): seq<string> {
    if items == [] then []
    else (if Trim(items[0]) == "" then [] else [Trim(items[0])]) + NonEmptyItems(items[1..])
  }

  function ParseFieldAnswer(field: FieldType, answer: string, rt: Runtime): Option<FormValue> {
    match field
    case BooleanField =>
      var lowered := rt.lower(answer);
      if lowered in ["y", "yes", "true"] then Some(BooleanValue(true))
      else if lowered in ["n", "no", "false"] then Some(BooleanValue(false))
      else None
    case NumberField(integer, minimum, maximum) =>
      var value := rt.toNumber(answer);
      if value.None? then None
      else if integer && !IsInteger(value.value) then None
      else if minimum.Some? && !AtLeast(value.value, minimum.value) then None
      else if maximum.Some? && !AtMost(value.value, maximum.value) then None
      else Some(NumberValue(value.value))
    case ListField => Some(ListValue(NonEmptyItems(Split(answer, ','))))
    case StringField(options) =>
      if options.Some? && answer !in options.value then None else Some(TextValue(answer))
  }

  /** The value has the field's type and lies in its range or among its options. */
  predicate Meets(field: FieldType, value: FormValue) {
    match field
    case BooleanField => value.BooleanValue?
    case NumberField(integer, minimum, maximum) =>
      && value.NumberValue?
      && (integer ==> IsInteger(value.number))
      && (minimum.Some? ==> AtLeast(value.number, minimum.value))
      && (maximum.Some? ==> AtMost(value.number, maximum.value))
    case ListField => value.ListValue? && forall i :: 0 <= i < |value.items| ==> value.items[i] != ""
    case StringField(options) => value.TextValue? && (options.Some? ==> value.text in options.value)
  }

  lemma {:induction false} ItemsAreNotEmpty(items: seq<string>)
    ensures forall i :: 0 <= i < |NonEmptyItems(items)| ==> NonEmptyItems(items)[i] != ""
  {
    if items == [] {
    } else {
      ItemsAreNotEmpty(items[1..]);
    }
  }

  /** A parsed answer meets the field; for numbers and options, every answer that does is parsed. */
  lemma {:induction false} ParsedMeets(field: FieldType, answer: string, rt: Runtime)
    ensures var v := ParseFieldAnswer(field, answer, rt);
            && (v.Some? ==> Meets(field, v.value))
            && (field.NumberField? ==>
                  (v.Some? <==> rt.toNumber(answer).Some? && Meets(field, NumberValue(rt.toNumber(answer).value))))
            && (field.StringField? ==> (v.Some? <==> Meets(field, TextValue(answer))))
  {
    ItemsAreNotEmpty(Split(answer, ','));
  }

  // ----- the record that is filled

  /** The names `in` finds on every plain object. */
  const INHERITED: set<string> := {
    "constructor", "__defineGetter__", "__defineSetter__", "hasOwnProperty", "__lookupGetter__", "__lookupSetter__",
    "isPrototypeOf", "propertyIsEnumerable", "toString", "valueOf", "__proto__", "toLocaleString"
  }

  type Content = map<string, FormValue>

  /** `content[name] = value`: the key `__proto__` names the prototype and adds no entry. */
  function Write(content: Content, name: string, value: FormValue): Content {
    if name == "__proto__" then content else content[name := value]
  }

  /** `name in content`. */
  predicate Has(content: Content, name: string) {
    name in content || name in INHERITED
  }

  // ----- the walk through the form

  /** What a question gives: an answer, or an error. */
  datatype Reply = Said(answer: string) | Threw

  /** The user, by the number of questions asked before. */
  type User = nat -> Reply

  datatype Outcome = Accept(content: Content) | Decline | Cancel

  const MAX_ATTEMPTS: nat := 3

  datatype FieldEnd = FieldValue(value: FormValue) | NoValue | Ended(outcome: Outcome)

  /** The attempts at one field from `attempt` on: how they end, and how many questions were asked in all. */
  function AskField(field: Field, required: bool, user: User, rt: Runtime, asked: nat, attempt: nat): (FieldEnd, nat)
    requires attempt <= MAX_ATTEMPTS
    decreases MAX_ATTEMPTS - attempt
  {
    if attempt == MAX_ATTEMPTS then (NoValue, asked)
    else
      match user(asked)
      case Threw => (Ended(Cancel), asked + 1)
      case Said(answer) =>
        if rt.lower(answer) == "decline" then (Ended(Decline), asked + 1)
        else if rt.lower(answer) == "cancel" then (Ended(Cancel), asked + 1)
        else if answer == "" then
          if field.default.Some? then (FieldValue(field.default.value), asked + 1)
          else if !required then (NoValue, asked + 1)
          else AskField(field, required, user, rt, asked + 1, attempt + 1)
        else
          match ParseFieldAnswer(field.fieldType, answer, rt)
          case None => AskField(field, required, user, rt, asked + 1, attempt + 1)
          case Some(value) => (FieldValue(value), asked + 1)
  }

  function Collect(fields: seq<Field>, required: seq<string>, user: User, rt: Runtime, asked: nat, content: Content)
    : (Outcome, nat)
    decreases |fields|
  {
    if fields == [] then (Accept(content), asked)
    else
      var field, isRequired := fields[0], fields[0].name in required;
      var (end, asked') := AskField(field, isRequired, user, rt, asked, 0);
      if end.Ended? then (end.outcome, asked')
      else
        var content' := if end.FieldValue? then Write(content, field.name, end.value) else content;
        if isRequired && !Has(content', field.name) then (Cancel, asked')
        else Collect(fields[1..], required, user, rt, asked', content')
  }

  method CollectFormInput(fields: seq<Field>, required: seq<string>, user: User, rt: Runtime)
    returns (outcome: Outcome, asked: nat)
    ensures (outcome, asked) == Collect(fields, required, user, rt, 0, map[])
  {
    hide ParseFieldAnswer;
    var content: Content := map[];
    asked := 0;
    for i := 0 to |fields|
      invariant Collect(fields[i..], required, user, rt, asked, content)
          == Collect(fields, required, user, rt, 0, map[])
    {
      var field := fields[i];
      assert fields[i..][0] == field && fields[i..][1..] == fields[i + 1..];
      var isRequired := field.name in required;
      var end: FieldEnd;
      end, asked := AskOneField(field, isRequired, user, rt, asked);
      if end.Ended? {
        return end.outcome, asked;
      }
      if end.FieldValue? {
        content := Write(content, field.name, end.value);
      }
      if isRequired && !Has(content, field.name) {
        return Cancel, asked;
      }
    }
    outcome := Accept(content);
  }

  /** The attempts at one field, up to the value or the answer that ends the form. */
  method AskOneField(field: Field, required: bool, user: User, rt: Runtime, start: nat)
    returns (end: FieldEnd, asked: nat)
    ensures (end, asked) == AskField(field, required, user, rt, start, 0)
  {
    hide ParseFieldAnswer;
    asked := start;
    for attempt := 0 to MAX_ATTEMPTS
      invariant AskField(field, required, user, rt, start, 0) == AskField(field, required, user, rt, asked, attempt)
    {
      var reply := user(asked);
      asked := asked + 1;
      if reply.Threw? {
        return Ended(Cancel), asked;
      }
      var answer := reply.answer;
      if rt.lower(answer) == "decline" {
        return Ended(Decline), asked;
      }
      if rt.lower(answer) == "cancel" {
        return Ended(Cancel), asked;
      }
      if answer == "" {
        if field.default.Some? {
          return FieldValue(field.default.value), asked;
        }
        if !required {
          return NoValue, asked;
        }
        continue;
      }
      var value := ParseFieldAnswer(field.fieldType, answer, rt);
      if value.Some? {
        return FieldValue(value.value), asked;
      }
    }
    end := NoValue;
  }

  // ----- what an accepted form holds

  /** Question `k` was answered with the value: with nothing, for the default, or with a text that is parsed to it. */
  ghost predicate AnsweredBy(field: Field, value: FormValue, user: User, rt: Runtime, k: nat) {
    && user(k).Said?
    && if user(k).answer == "" then field.default == Some(value)
       else ParseFieldAnswer(field.fieldType, user(k).answer, rt) == Some(value) && Meets(field.fieldType, value)
  }

  lemma {:induction false} AskFieldEnds(field: Field, required: bool, user: User, rt: Runtime, asked: nat, attempt: nat)
    requires attempt <= MAX_ATTEMPTS
    ensures var (end, asked') := AskField(field, required, user, rt, asked, attempt);
            && asked <= asked' <= asked + (MAX_ATTEMPTS - attempt)
            && (end.Ended? ==> !end.outcome.Accept?)
            && (end.FieldValue? ==> asked < asked' && AnsweredBy(field, end.value, user, rt, asked' - 1))
    decreases MAX_ATTEMPTS - attempt
  {
    hide ParseFieldAnswer, Meets;
    if attempt < MAX_ATTEMPTS {
      AskFieldEnds(field, required, user, rt, asked + 1, attempt + 1);
      if user(asked).Said? {
        ParsedMeets(field.fieldType, user(asked).answer, rt);
      }
    }
  }

  /** How many questions were asked before the `i`-th field. */
  function AskedBefore(fields: seq<Field>, required: seq<string>, user: User, rt: Runtime, i: nat): nat
    requires i <= |fields|
  {
    if i == 0 then 0
    else
      var (field, asked) := (fields[i - 1], AskedBefore(fields, required, user, rt, i - 1));
      AskField(field, field.name in required, user, rt, asked, 0).1
  }

  /** The last of the at most three questions asked for the `i`-th field was answered with the value. */
  ghost predicate FieldAnswered(fields: seq<Field>, required: seq<string>, user: User, rt: Runtime, i: nat,
                                value: FormValue)
    requires i < |fields|
  {
    var (from, to) := (AskedBefore(fields, required, user, rt, i), AskedBefore(fields, required, user, rt, i + 1));
    from < to <= from + MAX_ATTEMPTS && AnsweredBy(fields[i], value, user, rt, to - 1)
  }

  /** Every entry was answered to a question for a field of its name, among the first `n` fields. */
  ghost predicate AllAnswered(content: Content, fields: seq<Field>, required: seq<string>, user: User, rt: Runtime,
                              n: nat)
    requires n <= |fields|
  {
    forall name :: name in content ==>
      exists i :: 0 <= i < n && fields[i].name == name && FieldAnswered(fields, required, user, rt, i, content[name])
  }

  lemma {:induction false} WriteAnswered(content: Content, fields: seq<Field>, required: seq<string>, user: User,
                                         rt: Runtime, n: nat, end: FieldEnd)
    requires n < |fields| && AllAnswered(content, fields, required, user, rt, n)
    requires end.FieldValue? ==> FieldAnswered(fields, required, user, rt, n, end.value)
    ensures AllAnswered(if end.FieldValue? then Write(content, fields[n].name, end.value) else content,
                        fields, required, user, rt, n + 1)
  {
    hide FieldAnswered;
  }

  ghost predicate AllPresent(content: Content, fields: seq<Field>, required: seq<string>, from: nat) {
    forall i :: from <= i < |fields| && fields[i].name in required ==> Has(content, fields[i].name)
  }

  lemma {:induction false} CollectKeeps(fields: seq<Field>, required: seq<string>, user: User, rt: Runtime, n: nat,
                                        content: Content)
    requires n <= |fields| && AllAnswered(content, fields, required, user, rt, n)
    ensures var asked := AskedBefore(fields, required, user, rt, n);
            var (outcome, asked') := Collect(fields[n..], required, user, rt, asked, content);
            && asked' <= asked + MAX_ATTEMPTS * (|fields| - n)
            && (outcome.Accept? ==>
                  && AllAnswered(outcome.content, fields, required, user, rt, |fields|)
                  && AllPresent(outcome.content, fields, required, n)
                  && content.Keys <= outcome.content.Keys)
    decreases |fields| - n
  {
    hide AskField, FieldAnswered, AnsweredBy, AllAnswered;
    if n == |fields| {
    } else {
      var field, asked := fields[n], AskedBefore(fields, required, user, rt, n);
      var (end, asked') := AskField(field, field.name in required, user, rt, asked, 0);
      assert fields[n..][0] == field && fields[n..][1..] == fields[n + 1..];
      AskFieldEnds(field, field.name in required, user, rt, asked, 0);
      if !end.Ended? {
        var content' := if end.FieldValue? then Write(content, field.name, end.value) else content;
        if end.FieldValue? {
          FieldAnsweredNow(fields, required, user, rt, n, end.value, asked');
        }
        WriteAnswered(content, fields, required, user, rt, n, end);
        CollectKeeps(fields, required, user, rt, n + 1, content');
      }
    }
  }

  lemma FieldAnsweredNow(fields: seq<Field>, required: seq<string>, user: User, rt: Runtime, n: nat,
                         value: FormValue, asked': nat)
    requires n < |fields| && asked' == AskedBefore(fields, required, user, rt, n + 1)
    requires var asked := AskedBefore(fields, required, user, rt, n); asked < asked' <= asked + MAX_ATTEMPTS
    requires AnsweredBy(fields[n], value, user, rt, asked' - 1)
    ensures FieldAnswered(fields, required, user, rt, n, value)
  {
  }

  /**
   For every user: at most three questions a field; and an accepted form holds only fields of the
   schema, each with what the last question for that field was answered with, its default or a
   parsed text that meets the field; and it holds every required field whose name no plain object
   already has.
   */
  lemma {:induction false} AcceptIsSound(fields: seq<Field>, required: seq<string>, user: User, rt: Runtime)
    ensures var (outcome, asked) := Collect(fields, required, user, rt, 0, map[]);
            && asked <= 3 * |fields|
            && (outcome.Accept? ==>
                  && AllAnswered(outcome.content, fields, required, user, rt, |fields|)
                  && forall f :: f in fields && f.name in required && f.name !in INHERITED ==>
                    f.name in outcome.content)
  {
    hide AskField, FieldAnswered;
    assert fields[0..] == fields;
    CollectKeeps(fields, required, user, rt, 0, map[]);
  }

  // ----- single answers

  /** Yes and no are read in three spellings each, whatever their case. */
  lemma BooleanIff(answer: string, rt: Runtime, flag: bool)
    ensures ParseFieldAnswer(BooleanField, answer, rt) == Some(BooleanValue(flag))
       <==> rt.lower(answer) in (if flag then {"y", "yes", "true"} else {"n", "no", "false"})
    ensures ParseFieldAnswer(BooleanField, answer, rt) == None
       <==> rt.lower(answer) !in {"y", "yes", "true", "n", "no", "false"}
  {
  }

  /** A number is read as the runtime reads it when it keeps to its field, a text as it stands. */
  lemma NumberAndTextAre(field: FieldType, answer: string, rt: Runtime)
    ensures var v := ParseFieldAnswer(field, answer, rt);
            && (field.NumberField? && v.Some? ==> Some(v.value.number) == rt.toNumber(answer))
            && (field.StringField? && v.Some? ==> v.value == TextValue(answer))
            && (field.ListField? ==> v == Some(ListValue(NonEmptyItems(Split(answer, ',')))))
    ensures field.NumberField? && rt.toNumber(answer).Some? && rt.toNumber(answer).value.Finite? ==>
              var x := rt.toNumber(answer).value.value;
              (ParseFieldAnswer(field, answer, rt).Some?
               <==> && (field.integer ==> x.Floor as real == x)
                    && (field.minimum.Some? ==> field.minimum.value <= x)
                    && (field.maximum.Some? ==> x <= field.maximum.value))
  {
  }

  /** A list is read as its parts between the commas without white space around them, blank ones left out. */
  lemma {:induction false} ItemsAre(items: seq<string>, item: string)
    ensures NonEmptyItems([]) == []
    ensures AllSpace(item) ==> NonEmptyItems(items + [item]) == NonEmptyItems(items)
    ensures !AllSpace(item) ==>
              exists a, t, b :: Surrounded(item, a, t, b) && NonEmptyItems(items + [item]) == NonEmptyItems(items) + [t]
  {
    hide Trim, Surrounded;
    TrimEmptyIff(item);
    if items == [] {
      assert items + [item] == [item] && [item][1..] == [];
      var a, b := TrimParts(item);
    } else {
      assert (items + [item])[1..] == items[1..] + [item];
      ItemsAre(items[1..], item);
      if !AllSpace(item) {
        var a, t, b :| Surrounded(item, a, t, b)
          && NonEmptyItems(items[1..] + [item]) == NonEmptyItems(items[1..]) + [t];
      }
    }
  }

  // ----- how the form ends

  predicate Says(user: User, rt: Runtime, k: nat, word: string) {
    user(k).Said? && rt.lower(user(k).answer) == word
  }

  predicate EndsForm(user: User, rt: Runtime, k: nat) {
    user(k).Threw? || Says(user, rt, k, "decline") || Says(user, rt, k, "cancel")
  }

  /** One field ends the form exactly when its last question is answered with one of the two words or fails. */
  lemma {:induction false} FieldEndsForm(field: Field, required: bool, user: User, rt: Runtime, asked: nat,
                                         attempt: nat)
    requires attempt <= MAX_ATTEMPTS
    ensures var (end, asked') := AskField(field, required, user, rt, asked, attempt);
            && asked <= asked'
            && (end.Ended? ==> asked < asked' && EndsForm(user, rt, asked' - 1))
            && (end.Ended? ==> end.outcome == if Says(user, rt, asked' - 1, "decline") then Decline else Cancel)
            && (forall k :: asked <= k < asked' && EndsForm(user, rt, k) ==> end.Ended? && k == asked' - 1)
    decreases MAX_ATTEMPTS - attempt
  {
    hide ParseFieldAnswer;
    if attempt == MAX_ATTEMPTS {
    } else {
      FieldEndsForm(field, required, user, rt, asked + 1, attempt + 1);
    }
  }

  /**
   The first question answered with "decline" declines the form, and nothing else does; "cancel" or
   a failure cancels it.
  */
  lemma {:induction false} FormEnds(fields: seq<Field>, required: seq<string>, user: User, rt: Runtime, asked: nat,
                                    content: Content)
    ensures var (outcome, asked') := Collect(fields, required, user, rt, asked, content);
            && asked <= asked'
            && (forall k :: asked <= k < asked' && EndsForm(user, rt, k) ==>
                  k == asked' - 1 && outcome == if Says(user, rt, k, "decline") then Decline else Cancel)
            && (outcome.Decline? ==> asked < asked' && Says(user, rt, asked' - 1, "decline"))
    decreases |fields|
  {
    hide AskField, ParseFieldAnswer, EndsForm;
    if fields == [] {
    } else {
      var field := fields[0];
      var (end, asked') := AskField(field, field.name in required, user, rt, asked, 0);
      FieldEndsForm(field, field.name in required, user, rt, asked, 0);
      if !end.Ended? {
        var content' := if end.FieldValue? then Write(content, field.name, end.value) else content;
        FormEnds(fields[1..], required, user, rt, asked', content');
      }
    }
  }
}
