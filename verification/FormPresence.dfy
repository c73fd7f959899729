/**
 When form collection accepts a form that misses a required field.  Its presence check also finds
 the names that every plain object inherits, so such a field can end without a value; the exact
 condition on the schema is proved, for all schemas at once.
 */
module FormPresence {
  import opened FormInput

  // ----- what can be answered

  /** An answer that is neither empty nor a word that ends the form. */
  predicate Plain(answer: string, rt: Runtime) {
    answer != "" && rt.lower(answer) != "decline" && rt.lower(answer) != "cancel"
  }

  ghost predicate Parses(field: Field, rt: Runtime, answer: string) {
    Plain(answer, rt) && ParseFieldAnswer(field.fieldType, answer, rt).Some?
  }

  ghost predicate Rejects(field: Field, rt: Runtime, answer: string) {
    Plain(answer, rt) && ParseFieldAnswer(field.fieldType, answer, rt).None?
  }

  /** Some answers let the form go on behind the field. */
  ghost predicate Passable(field: Field, required: seq<string>, rt: Runtime) {
    || field.name !in required
    || field.default.Some?
    || field.name in INHERITED
    || exists answer :: Parses(field, rt, answer)
  }

  /** Some answers let the form go on behind the required field without a value for it. */
  ghost predicate Missable(field: Field, rt: Runtime) {
    && field.name in INHERITED
    && (field.name == "__proto__" || field.default.None? || exists answer :: Rejects(field, rt, answer))
  }

  ghost predicate DistinctNames(fields: seq<Field>) {
    forall i, j :: 0 <= i < j < |fields| ==> fields[i].name != fields[j].name
  }

  /** The form is accepted for this user, and misses a required field. */
  ghost predicate MissesRequired(fields: seq<Field>, required: seq<string>, user: User, rt: Runtime) {
    var outcome := Collect(fields, required, user, rt, 0, map[]).0;
    outcome.Accept? && exists f :: f in fields && f.name in required && f.name !in outcome.content
  }

  // ----- only such fields are missed

  lemma {:induction false} ValueNeedsAnswer(field: Field, required: bool, user: User, rt: Runtime, asked: nat,
                                            attempt: nat)
    requires attempt <= MAX_ATTEMPTS && AskField(field, required, user, rt, asked, attempt).0.FieldValue?
    ensures field.default.Some? || exists answer :: Parses(field, rt, answer)
    decreases MAX_ATTEMPTS - attempt
  {
    hide ParseFieldAnswer;
    if attempt == MAX_ATTEMPTS || user(asked).Threw? {
      assert false;
    } else {
      var answer := user(asked).answer;
      if answer != "" && ParseFieldAnswer(field.fieldType, answer, rt).Some? {
        assert Parses(field, rt, answer);
      } else if field.default.None? {
        ValueNeedsAnswer(field, required, user, rt, asked + 1, attempt + 1);
      }
    }
  }

  lemma {:induction false} NoValueNeedsAnswer(field: Field, user: User, rt: Runtime, asked: nat)
    requires AskField(field, true, user, rt, asked, 0).0.NoValue?
    ensures field.default.None? || exists answer :: Rejects(field, rt, answer)
  {
    hide ParseFieldAnswer;
    var answer := user(asked).answer;
    if answer != "" {
      assert Rejects(field, rt, answer);
    }
  }

  /** Behind each field of an accepted form the form went on, without a value only where one can be missed. */
  lemma {:induction false} AcceptedFields(fields: seq<Field>, required: seq<string>, user: User, rt: Runtime,
                                          asked: nat, content: Content)
    requires DistinctNames(fields) && forall f :: f in fields ==> f.name !in content
    requires Collect(fields, required, user, rt, asked, content).0.Accept?
    ensures var content' := Collect(fields, required, user, rt, asked, content).0.content;
            && content.Keys <= content'.Keys
            && forall f :: f in fields ==>
                 Passable(f, required, rt) && (f.name in required && f.name !in content' ==> Missable(f, rt))
    decreases |fields|
  {
    hide AskField, Passable, Missable, ParseFieldAnswer;
    if fields == [] {
    } else {
      var field, rest := fields[0], fields[1..];
      var (end, asked') := AskField(field, field.name in required, user, rt, asked, 0);
      var content' := if end.FieldValue? then Write(content, field.name, end.value) else content;
      AskFieldEnds(field, field.name in required, user, rt, asked, 0);
      assert fields == [field] + rest;
      assert forall f :: f in rest ==> f.name != field.name;
      AcceptedFields(rest, required, user, rt, asked', content');
      FirstFieldPassed(field, required, user, rt, asked, content);
    }
  }

  lemma {:induction false} FirstFieldPassed(field: Field, required: seq<string>, user: User, rt: Runtime, asked: nat,
                                            content: Content)
    requires var end := AskField(field, field.name in required, user, rt, asked, 0).0;
             var content' := if end.FieldValue? then Write(content, field.name, end.value) else content;
             && !end.Ended? && field.name !in content
             && (field.name in required ==> Has(content', field.name))
    ensures Passable(field, required, rt)
    ensures var end := AskField(field, field.name in required, user, rt, asked, 0).0;
            var content' := if end.FieldValue? then Write(content, field.name, end.value) else content;
            field.name in required && field.name !in content' ==> Missable(field, rt)
  {
    hide AskField, Parses, Rejects, ParseFieldAnswer;
    var end := AskField(field, field.name in required, user, rt, asked, 0).0;
    if end.FieldValue? {
      ValueNeedsAnswer(field, field.name in required, user, rt, asked, 0);
    } else if field.name in required {
      NoValueNeedsAnswer(field, user, rt, asked);
    }
  }

  // ----- such fields can be missed

  /** From question `asked` on the user gives these answers. */
  ghost predicate Says(user: User, asked: nat, script: seq<string>) {
    forall i :: 0 <= i < |script| ==> user(asked + i) == Said(script[i])
  }

  function Reading(script: seq<string>): User {
    (k: nat) => if k < |script| then Said(script[k]) else Said("")
  }

  /** Whoever gives these answers ends the field like this. */
  ghost predicate Leads(field: Field, required: bool, rt: Runtime, script: seq<string>, end: FieldEnd) {
    forall user: User, asked: nat :: Says(user, asked, script) ==>
      AskField(field, required, user, rt, asked, 0) == (end, asked + |script|)
  }

  ghost predicate EmptyGoesOn(rt: Runtime) {
    rt.lower("") != "decline" && rt.lower("") != "cancel"
  }

  lemma {:induction false} EmptyOnceLeads(field: Field, required: bool, rt: Runtime)
    requires EmptyGoesOn(rt) && (field.default.Some? || !required)
    ensures Leads(field, required, rt, [""], if field.default.Some? then FieldValue(field.default.value) else NoValue)
  {
    hide ParseFieldAnswer;
    forall user: User, asked: nat | Says(user, asked, [""])
      ensures AskField(field, required, user, rt, asked, 0)
           == (if field.default.Some? then FieldValue(field.default.value) else NoValue, asked + 1)
    {
      assert user(asked + 0) == Said([""][0]);
    }
  }

  lemma {:induction false} ParsedLeads(field: Field, required: bool, rt: Runtime, answer: string)
    requires Parses(field, rt, answer)
    ensures Leads(field, required, rt, [answer], FieldValue(ParseFieldAnswer(field.fieldType, answer, rt).value))
  {
    hide ParseFieldAnswer;
    forall user: User, asked: nat | Says(user, asked, [answer])
      ensures AskField(field, required, user, rt, asked, 0)
           == (FieldValue(ParseFieldAnswer(field.fieldType, answer, rt).value), asked + 1)
    {
      assert user(asked + 0) == Said([answer][0]);
    }
  }

  /** An answer that is of no use, three times. */
  lemma {:induction false} ThriceLeads(field: Field, rt: Runtime, answer: string)
    requires Rejects(field, rt, answer) || (answer == "" && EmptyGoesOn(rt) && field.default.None?)
    ensures Leads(field, true, rt, [answer, answer, answer], NoValue)
  {
    hide ParseFieldAnswer;
    forall user: User, asked: nat | Says(user, asked, [answer, answer, answer])
      ensures AskField(field, true, user, rt, asked, 0) == (NoValue, asked + 3)
    {
      var script := [answer, answer, answer];
      assert user(asked + 0) == Said(script[0]) && user(asked + 1) == Said(script[1])
        && user(asked + 2) == Said(script[2]);
      assert AskField(field, true, user, rt, asked + 3, 3) == (NoValue, asked + 3);
      assert AskField(field, true, user, rt, asked + 2, 2) == (NoValue, asked + 3);
      assert AskField(field, true, user, rt, asked + 1, 1) == (NoValue, asked + 3);
    }
  }

  /** Answers behind which the form goes on; for the field to be missed, without a value for it. */
  lemma {:induction false} PassingScript(field: Field, required: seq<string>, rt: Runtime, missing: string)
    returns (script: seq<string>, end: FieldEnd)
    requires EmptyGoesOn(rt) && Passable(field, required, rt)
    requires field.name == missing ==> field.name in required && Missable(field, rt)
    ensures Leads(field, field.name in required, rt, script, end) && !end.Ended?
    ensures field.name in required && end.NoValue? ==> field.name in INHERITED
    ensures field.name == missing && end.FieldValue? ==> field.name == "__proto__"
  {
    hide Rejects, Leads, ParseFieldAnswer;
    var isRequired := field.name in required;
    if field.name == missing && field.name != "__proto__" {
      var answer := "";
      if field.default.Some? {
        answer :| Rejects(field, rt, answer);
      }
      ThriceLeads(field, rt, answer);
      script, end := [answer, answer, answer], NoValue;
    } else if field.default.Some? || !isRequired {
      EmptyOnceLeads(field, isRequired, rt);
      script, end := [""], if field.default.Some? then FieldValue(field.default.value) else NoValue;
    } else if answer :| Parses(field, rt, answer) {
      ParsedLeads(field, isRequired, rt, answer);
      script, end := [answer], FieldValue(ParseFieldAnswer(field.fieldType, answer, rt).value);
    } else {
      ThriceLeads(field, rt, "");
      script, end := ["", "", ""], NoValue;
    }
  }

  /** Accepted without the missing field. */
  ghost predicate AcceptsWithout(fields: seq<Field>, required: seq<string>, user: User, rt: Runtime, asked: nat,
                                 content: Content, missing: string) {
    var outcome := Collect(fields, required, user, rt, asked, content).0;
    outcome.Accept? && missing !in outcome.content
  }

  ghost predicate ScriptAccepts(fields: seq<Field>, required: seq<string>, rt: Runtime, content: Content,
                                missing: string, script: seq<string>) {
    forall user: User, asked: nat :: Says(user, asked, script) ==>
      AcceptsWithout(fields, required, user, rt, asked, content, missing)
  }

  lemma {:induction false} MissingScript(fields: seq<Field>, required: seq<string>, rt: Runtime, content: Content,
                                         missing: string)
    returns (script: seq<string>)
    requires EmptyGoesOn(rt) && missing !in content
    requires forall f :: f in fields ==> Passable(f, required, rt)
    requires forall f :: f in fields && f.name == missing ==> f.name in required && Missable(f, rt)
    ensures ScriptAccepts(fields, required, rt, content, missing, script)
    decreases |fields|
  {
    hide AskField, Passable, Missable, Leads, Says, EmptyGoesOn, AcceptsWithout, ParseFieldAnswer;
    if fields == [] {
      script := [];
      NothingToAsk(required, rt, content, missing);
    } else {
      var field, rest := fields[0], fields[1..];
      var first, end := PassingScript(field, required, rt, missing);
      var content' := if end.FieldValue? then Write(content, field.name, end.value) else content;
      var later := MissingScript(rest, required, rt, content', missing);
      script := first + later;
      ScriptsInARow(fields, required, rt, content, missing, first, end, later);
    }
  }

  lemma {:induction false} NothingToAsk(required: seq<string>, rt: Runtime, content: Content, missing: string)
    requires missing !in content
    ensures ScriptAccepts([], required, rt, content, missing, [])
  {
  }

  lemma {:induction false} SaysInARow(user: User, asked: nat, first: seq<string>, later: seq<string>)
    requires Says(user, asked, first + later)
    ensures Says(user, asked, first) && Says(user, asked + |first|, later)
  {
    forall i | 0 <= i < |first| ensures user(asked + i) == Said(first[i]) {
      assert (first + later)[i] == first[i];
    }
    forall i | 0 <= i < |later| ensures user(asked + |first| + i) == Said(later[i]) {
      assert (first + later)[|first| + i] == later[i];
      assert asked + (|first| + i) == asked + |first| + i;
    }
  }

  lemma {:induction false} ScriptsInARow(fields: seq<Field>, required: seq<string>, rt: Runtime, content: Content,
                                         missing: string, first: seq<string>, end: FieldEnd, later: seq<string>)
    requires fields != [] && !end.Ended?
    requires Leads(fields[0], fields[0].name in required, rt, first, end)
    requires var content' := if end.FieldValue? then Write(content, fields[0].name, end.value) else content;
             && (fields[0].name in required ==> Has(content', fields[0].name))
             && ScriptAccepts(fields[1..], required, rt, content', missing, later)
    ensures ScriptAccepts(fields, required, rt, content, missing, first + later)
  {
    hide AskField, Says, ParseFieldAnswer;
    forall user: User, asked: nat | Says(user, asked, first + later)
      ensures AcceptsWithout(fields, required, user, rt, asked, content, missing)
    {
      SaysInARow(user, asked, first, later);
      var content' := if end.FieldValue? then Write(content, fields[0].name, end.value) else content;
      assert AcceptsWithout(fields[1..], required, user, rt, asked + |first|, content', missing);
    }
  }

  // ----- the exact condition

  /**
   Some user gets a form accepted that misses a required field, exactly when every field can be
   passed and some required field can be missed: its name is inherited by plain objects, and it is
   `__proto__`, has no default, or rejects some plain answer.
   */
  lemma {:induction false} MissedRequiredIff(fields: seq<Field>, required: seq<string>, rt: Runtime)
    requires DistinctNames(fields) && EmptyGoesOn(rt)
    ensures (exists user: User :: MissesRequired(fields, required, user, rt))
       <==> && (forall f :: f in fields ==> Passable(f, required, rt))
            && exists f :: f in fields && f.name in required && Missable(f, rt)
  {
    hide Collect, Passable, Missable, EmptyGoesOn;
    if user: User :| MissesRequired(fields, required, user, rt) {
      AcceptedFields(fields, required, user, rt, 0, map[]);
    }
    if forall f :: f in fields ==> Passable(f, required, rt) {
      if f :| f in fields && f.name in required && Missable(f, rt) {
        OfOneName(fields, f);
        var script := MissingScript(fields, required, rt, map[], f.name);
        ReadingSays(script);
        assert AcceptsWithout(fields, required, Reading(script), rt, 0, map[], f.name);
        assert MissesRequired(fields, required, Reading(script), rt);
      }
    }
  }

  lemma {:induction false} OfOneName(fields: seq<Field>, f: Field)
    requires DistinctNames(fields) && f in fields
    ensures forall g :: g in fields && g.name == f.name ==> g == f
  {
  }

  lemma {:induction false} ReadingSays(script: seq<string>)
    ensures Says(Reading(script), 0, script)
  {
  }

  /** Without inherited names among the required ones nothing is missed. */
  lemma {:induction false} OrdinaryNamesAreNotMissed(fields: seq<Field>, required: seq<string>, user: User, rt: Runtime)
    requires DistinctNames(fields) && forall f :: f in fields && f.name in required ==> f.name !in INHERITED
    ensures !MissesRequired(fields, required, user, rt)
  {
    hide Collect;
    AcceptIsSound(fields, required, user, rt);
  }

  /** The simplest case: one required field without default, and a user who answers nothing. */
  lemma {:induction false} EmptyAnswersAcceptIff(field: Field, rt: Runtime)
    requires field.default.None? && EmptyGoesOn(rt)
    ensures MissesRequired([field], [field.name], Reading([]), rt) <==> field.name in INHERITED
  {
    hide AskField, ParseFieldAnswer;
    ThriceLeads(field, rt, "");
    var user := Reading([]);
    assert Says(user, 0, ["", "", ""]);
    assert AskField(field, true, user, rt, 0, 0) == (NoValue, 3);
    assert [field][1..] == [] && field in [field];
    assert Collect([], [field.name], user, rt, 3, map[]).0 == Accept(map[]);
  }
}
