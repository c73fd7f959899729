/** The two demonstration authorization servers: codes and tokens over whole runs. */
module Grants {
  import opened Wrappers
  import opened Text
  import opened Seqs

  // ----- the authorization code grant (section 4.1 of RFC 6749)

  class CodeServer {
    /** Code to requested scope, until the code is exchanged. */
    var pendingCodes: map<string, string>
    /** Token to granted scope. */
    var issuedTokens: map<string, string>
    var registeredRedirectUris: map<string, seq<string>>

    function State(): Codes
      reads this
    {
      Codes(pendingCodes, issuedTokens, registeredRedirectUris)
    }

    constructor ()
      ensures State() == Codes(map[], map[], map[])
    {
      pendingCodes, issuedTokens, registeredRedirectUris := map[], map[], map[];
    }

    method Register(uris: seq<string>, isAllowed: string -> bool, clientId: string) returns (ok: bool)
      modifies this`registeredRedirectUris
      ensures ok <==> uris != [] && forall i :: 0 <= i < |uris| ==> isAllowed(uris[i])
      ensures State() == if ok then Registered(old(State()), uris, clientId) else old(State())
    {
      ok := |uris| > 0 && forall i :: 0 <= i < |uris| ==> isAllowed(uris[i]);
      if ok {
        registeredRedirectUris := registeredRedirectUris[clientId := uris];
      }
    }

    method Authorize(clientId: string, redirectUri: string, scope: string, code: string) returns (ok: bool)
      modifies this`pendingCodes
      ensures ok <==> MayAuthorize(old(State()), clientId, redirectUri)
      ensures State() == if ok then Authorized(old(State()), scope, code) else old(State())
    {
      if clientId !in registeredRedirectUris || redirectUri !in registeredRedirectUris[clientId] {
        return false;
      }
      pendingCodes := pendingCodes[code := scope];
      ok := true;
    }

    method Token(code: string, token: string) returns (scope: Option<string>)
      modifies this`pendingCodes, this`issuedTokens
      ensures scope == if code in old(pendingCodes) then Some(old(pendingCodes)[code]) else None
      ensures State() == if scope.Some? then Exchanged(old(State()), code, token) else old(State())
    {
      if code !in pendingCodes {
        return None;
      }
      scope := Some(pendingCodes[code]);
      pendingCodes := pendingCodes - {code};
      issuedTokens := issuedTokens[token := scope.value];
    }

    /** The scopes of a bearer header whose token was issued. */
    method VerifyBearer(header: Option<string>) returns (scopes: Option<seq<string>>)
      ensures scopes.Some? <==> header.Some? && StartsWith(header.value, "Bearer ") && header.value[7..] in issuedTokens
      ensures scopes.Some? ==> scopes.value == NonEmpty(Split(issuedTokens[header.value[7..]], ' '))
    {
      if header.None? || !StartsWith(header.value, "Bearer ") {
        return None;
      }
      var token := header.value[7..];
      if token !in issuedTokens {
        return None;
      }
      scopes := Some(NonEmpty(Split(issuedTokens[token], ' ')));
    }
  }

  function NonEmpty(words: seq<string>): seq<string> {
    if words == [] then [] else (if words[0] == "" then [] else [words[0]]) + NonEmpty(words[1..])
  }

  datatype Codes = Codes(
    pending: map<string, string>,
    issued: map<string, string>,
    registered: map<string, seq<string>>)

  function Registered(s: Codes, uris: seq<string>, clientId: string): Codes {
    s.(registered := s.registered[clientId := uris])
  }

  predicate MayAuthorize(s: Codes, clientId: string, redirectUri: string) {
    clientId in s.registered && redirectUri in s.registered[clientId]
  }

  function Authorized(s: Codes, scope: string, code: string): Codes {
    s.(pending := s.pending[code := scope])
  }

  function Exchanged(s: Codes, code: string, token: string): Codes
    requires code in s.pending
  {
    s.(pending := s.pending - {code}, issued := s.issued[token := s.pending[code]])
  }

  datatype CodeStep =
    | RegisterStep(uris: seq<string>, clientId: string)
    | AuthorizeStep(clientId: string, redirectUri: string, scope: string, code: string)
    | TokenStep(code: string, token: string)

  /** A run's record: the scope each code was issued for, and the code each token was given for. */
  datatype CodeRun = CodeRun(s: Codes, scopeOf: map<string, string>, codeOf: map<string, string>)

  function StartCodes(): CodeRun {
    CodeRun(Codes(map[], map[], map[]), map[], map[])
  }

  /** Codes and tokens are random: none comes twice. */
  predicate FreshStep(r: CodeRun, step: CodeStep) {
    match step
    case RegisterStep(_, _) => true
    case AuthorizeStep(_, _, _, code) => code !in r.scopeOf
    case TokenStep(_, token) => token !in r.codeOf
  }

  function NextCodes(r: CodeRun, step: CodeStep): CodeRun {
    match step
    case RegisterStep(uris, clientId) => r.(s := Registered(r.s, uris, clientId))
    case AuthorizeStep(clientId, redirectUri, scope, code) =>
      if !MayAuthorize(r.s, clientId, redirectUri) then r
      else CodeRun(Authorized(r.s, scope, code), r.scopeOf[code := scope], r.codeOf)
    case TokenStep(code, token) =>
      if code !in r.s.pending then r
      else CodeRun(Exchanged(r.s, code, token), r.scopeOf, r.codeOf[token := code])
  }

  /** Every token was given for one code, no two for the same, with exactly that code's scope. */
  ghost predicate OneTokenPerCode(r: CodeRun) {
    && r.s.issued.Keys == r.codeOf.Keys
    && (forall t, t' :: t in r.codeOf && t' in r.codeOf && r.codeOf[t] == r.codeOf[t'] ==> t == t')
    && (forall t :: t in r.codeOf ==> r.codeOf[t] in r.scopeOf && r.s.issued[t] == r.scopeOf[r.codeOf[t]])
  }

  /** Pending codes are issued ones that no token was given for. */
  ghost predicate PendingUnused(r: CodeRun) {
    && (forall c :: c in r.s.pending ==> c in r.scopeOf && r.s.pending[c] == r.scopeOf[c])
    && (forall t :: t in r.codeOf ==> r.codeOf[t] !in r.s.pending)
  }

  function RunCodes(r: CodeRun, steps: seq<CodeStep>): CodeRun
    decreases |steps|
  {
    if steps == [] then r else RunCodes(NextCodes(r, steps[0]), steps[1..])
  }

  predicate AllFresh(r: CodeRun, steps: seq<CodeStep>)
    decreases |steps|
  {
    steps != [] ==> FreshStep(r, steps[0]) && AllFresh(NextCodes(r, steps[0]), steps[1..])
  }

  lemma CodeStepKeeps(r: CodeRun, step: CodeStep)
    requires OneTokenPerCode(r) && PendingUnused(r) && FreshStep(r, step)
    ensures OneTokenPerCode(NextCodes(r, step)) && PendingUnused(NextCodes(r, step))
  {
  }

  /** Over every run each code yields at most one token, with exactly the scope the code was issued for. */
  lemma {:induction false} EveryCodeRunConserves(r: CodeRun, steps: seq<CodeStep>)
    requires OneTokenPerCode(r) && PendingUnused(r) && AllFresh(r, steps)
    ensures OneTokenPerCode(RunCodes(r, steps)) && PendingUnused(RunCodes(r, steps))
    decreases |steps|
  {
    hide OneTokenPerCode, PendingUnused, FreshStep, NextCodes;
    if steps == [] {
    } else {
      CodeStepKeeps(r, steps[0]);
      EveryCodeRunConserves(NextCodes(r, steps[0]), steps[1..]);
    }
  }

  /** So it does from the start: two tokens of a run never come from one code. */
  lemma {:induction false} RunsFromStartConserve(steps: seq<CodeStep>)
    requires AllFresh(StartCodes(), steps)
    ensures OneTokenPerCode(RunCodes(StartCodes(), steps))
  {
    EveryCodeRunConserves(StartCodes(), steps);
  }

  lemma {:induction false} RegistrationStays(r: CodeRun, steps: seq<CodeStep>, clientId: string)
    requires clientId in r.s.registered
    requires forall i :: 0 <= i < |steps| && steps[i].RegisterStep? ==> steps[i].clientId != clientId
    ensures var s := RunCodes(r, steps).s;
            clientId in s.registered && s.registered[clientId] == r.s.registered[clientId]
    decreases |steps|
  {
    if steps == [] {
    } else {
      RegistrationStays(NextCodes(r, steps[0]), steps[1..], clientId);
    }
  }

  /** The step issues or uses up the code. */
  predicate UsesCode(step: CodeStep, code: string) {
    (step.AuthorizeStep? || step.TokenStep?) && step.code == code
  }

  lemma {:induction false} PendingStays(r: CodeRun, steps: seq<CodeStep>, code: string)
    requires code in r.s.pending && forall i :: 0 <= i < |steps| ==> !UsesCode(steps[i], code)
    ensures var s := RunCodes(r, steps).s; code in s.pending && s.pending[code] == r.s.pending[code]
    decreases |steps|
  {
    if steps == [] {
    } else {
      assert !UsesCode(steps[0], code);
      PendingStays(NextCodes(r, steps[0]), steps[1..], code);
    }
  }

  lemma {:induction false} IssuedStays(r: CodeRun, steps: seq<CodeStep>, token: string)
    requires token in r.s.issued
    requires forall i :: 0 <= i < |steps| && steps[i].TokenStep? ==> steps[i].token != token
    ensures var s := RunCodes(r, steps).s; token in s.issued && s.issued[token] == r.s.issued[token]
    decreases |steps|
  {
    if steps == [] {
    } else {
      IssuedStays(NextCodes(r, steps[0]), steps[1..], token);
    }
  }

  /**
   Whatever else happens in between, a client gets a code for exactly the redirect URIs it
   registered, and for the code a token that keeps the scope it asked for.
  */
  lemma {:induction false} ClientGetsToken(r: CodeRun, uris: seq<string>, clientId: string, redirectUri: string,
                                           scope: string, code: string, token: string, a: seq<CodeStep>,
                                           b: seq<CodeStep>, c: seq<CodeStep>)
    requires forall i :: 0 <= i < |a| && a[i].RegisterStep? ==> a[i].clientId != clientId
    requires forall i :: 0 <= i < |b| ==> !UsesCode(b[i], code)
    requires forall i :: 0 <= i < |c| && c[i].TokenStep? ==> c[i].token != token
    ensures var registered := RunCodes(NextCodes(r, RegisterStep(uris, clientId)), a);
            var asked := NextCodes(registered, AuthorizeStep(clientId, redirectUri, scope, code));
            var exchanged := NextCodes(RunCodes(asked, b), TokenStep(code, token));
            && (redirectUri !in uris ==> asked == registered)
            && (redirectUri in uris ==>
                  && code !in exchanged.s.pending
                  && token in RunCodes(exchanged, c).s.issued && RunCodes(exchanged, c).s.issued[token] == scope)
  {
    RegistrationStays(NextCodes(r, RegisterStep(uris, clientId)), a, clientId);
    if redirectUri in uris {
      var registered := RunCodes(NextCodes(r, RegisterStep(uris, clientId)), a);
      var asked := NextCodes(registered, AuthorizeStep(clientId, redirectUri, scope, code));
      PendingStays(asked, b, code);
      IssuedStays(NextCodes(RunCodes(asked, b), TokenStep(code, token)), c, token);
    }
  }

  /** A code that is not pending, be it unknown or used, gives no token. */
  lemma UnknownCodeGivesNothing(r: CodeRun, code: string, token: string)
    requires code !in r.s.pending
    ensures NextCodes(r, TokenStep(code, token)) == r
  {
  }

  // ----- the client credentials grant (section 4.4 of RFC 6749)

  datatype Client = Client(id: string, secret: string, allowedScopes: Option<seq<string>>)

  datatype AuthInfo = AuthInfo(clientId: string, scopes: seq<string>, expiresAt: int)

  const TOKEN_SECONDS: int := 3600

  function Allowed(scopes: seq<string>, allowed: seq<string>): seq<string> {
    if scopes == [] then []
    else (if scopes[0] in allowed then [scopes[0]] else []) + Allowed(scopes[1..], allowed)
  }

  function Granted(client: Client, scope: Option<string>): seq<string> {
    var requested := NonEmpty(Split(if scope.Some? then scope.value else "", ' '));
    if client.allowedScopes.Some? then Allowed(requested, client.allowedScopes.value) else requested
  }

  lemma {:induction false} AllowedIs(scopes: seq<string>, allowed: seq<string>)
    ensures forall s :: s in Allowed(scopes, allowed) <==> s in scopes && s in allowed
  {
    if scopes == [] {
    } else {
      AllowedIs(scopes[1..], allowed);
      assert scopes == [scopes[0]] + scopes[1..];
    }
  }

  /** What is granted is what was requested and, for a limited client, allowed. */
  lemma {:induction false} GrantedIs(client: Client, scope: Option<string>, s: string)
    ensures s in Granted(client, scope)
       <==> && s in NonEmpty(Split(if scope.Some? then scope.value else "", ' '))
            && (client.allowedScopes.Some? ==> s in client.allowedScopes.value)
  {
    if client.allowedScopes.Some? {
      AllowedIs(NonEmpty(Split(if scope.Some? then scope.value else "", ' ')), client.allowedScopes.value);
    }
  }

  datatype Verdict = Valid(info: AuthInfo) | Unknown | Expired

  class CredentialsServer {
    const clients: map<string, Client>
    var issuedTokens: map<string, AuthInfo>

    constructor (clients: map<string, Client>)
      ensures this.clients == clients && issuedTokens == map[]
    {
      this.clients := clients;
      issuedTokens := map[];
    }

    /** `now` is the clock in seconds. */
    method Issue(id: Option<string>, secret: Option<string>, scope: Option<string>, token: string, now: int)
      returns (granted: Option<seq<string>>)
      modifies this
      ensures granted.Some? <==>
                id.Some? && id.value != "" && id.value in clients && Some(clients[id.value].secret) == secret
      ensures granted.Some? ==> granted.value == Granted(clients[id.value], scope)
      ensures issuedTokens == if granted.None? then old(issuedTokens)
              else old(issuedTokens)[token := AuthInfo(clients[id.value].id, granted.value, now + 3600)]
    {
      if id.None? || id.value == "" || id.value !in clients || Some(clients[id.value].secret) != secret {
        return None;
      }
      var client := clients[id.value];
      granted := Some(Granted(client, scope));
      issuedTokens := issuedTokens[token := AuthInfo(client.id, granted.value, now + TOKEN_SECONDS)];
    }

    method VerifyAccessToken(token: string, now: int) returns (verdict: Verdict)
      modifies this
      ensures (verdict, issuedTokens) == Verified(old(issuedTokens), token, now)
      ensures verdict.Unknown? <==> token !in old(issuedTokens)
      ensures verdict.Expired? <==> token in old(issuedTokens) && old(issuedTokens)[token].expiresAt <= now
      ensures verdict.Valid? ==> verdict.info == old(issuedTokens)[token]
      ensures issuedTokens == if verdict.Expired? then old(issuedTokens) - {token} else old(issuedTokens)
    {
      if token !in issuedTokens {
        return Unknown;
      }
      var info := issuedTokens[token];
      if now >= info.expiresAt {
        issuedTokens := issuedTokens - {token};
        return Expired;
      }
      verdict := Valid(info);
    }
  }

  function Verified(tokens: map<string, AuthInfo>, token: string, now: int): (Verdict, map<string, AuthInfo>) {
    if token !in tokens then (Unknown, tokens)
    else if now >= tokens[token].expiresAt then (Expired, tokens - {token})
    else (Valid(tokens[token]), tokens)
  }

  datatype TokenStepCC = IssueStep(token: string, info: AuthInfo) | VerifyStep(token: string, now: int)

  function NextTokens(tokens: map<string, AuthInfo>, step: TokenStepCC): map<string, AuthInfo> {
    match step
    case IssueStep(token, info) => tokens[token := info]
    case VerifyStep(token, now) => Verified(tokens, token, now).1
  }

  function RunTokens(tokens: map<string, AuthInfo>, steps: seq<TokenStepCC>): map<string, AuthInfo>
    decreases |steps|
  {
    if steps == [] then tokens else RunTokens(NextTokens(tokens, steps[0]), steps[1..])
  }

  /**
   A token rejected as expired stays rejected: whatever is issued under other tokens and whatever
   the clock shows later, also when it runs back, no verification accepts it again.
   */
  lemma {:induction false} ExpiredStaysRejected(tokens: map<string, AuthInfo>, token: string, now: int,
                                                steps: seq<TokenStepCC>, later: int)
    requires Verified(tokens, token, now).0 == Expired
    requires forall i :: 0 <= i < |steps| && steps[i].IssueStep? ==> steps[i].token != token
    ensures Verified(RunTokens(Verified(tokens, token, now).1, steps), token, later).0 == Unknown
  {
    AbsentStaysAbsent(Verified(tokens, token, now).1, token, steps);
  }

  lemma {:induction false} AbsentStaysAbsent(tokens: map<string, AuthInfo>, token: string, steps: seq<TokenStepCC>)
    requires token !in tokens
    requires forall i :: 0 <= i < |steps| && steps[i].IssueStep? ==> steps[i].token != token
    ensures token !in RunTokens(tokens, steps)
    decreases |steps|
  {
    if steps == [] {
    } else {
      AbsentStaysAbsent(NextTokens(tokens, steps[0]), token, steps[1..]);
    }
  }

  /**
   An issued token is accepted with its record up to its end, whatever is issued under other tokens
   and verified before.
  */
  lemma {:induction false} IssuedIsAccepted(tokens: map<string, AuthInfo>, token: string, info: AuthInfo,
                                            steps: seq<TokenStepCC>, now: int)
    requires forall i :: 0 <= i < |steps| && steps[i].token == token ==>
               steps[i].VerifyStep? && steps[i].now < info.expiresAt
    ensures now < info.expiresAt ==>
              Verified(RunTokens(NextTokens(tokens, IssueStep(token, info)), steps), token, now).0 == Valid(info)
  {
    HeldStays(NextTokens(tokens, IssueStep(token, info)), token, steps);
  }

  lemma {:induction false} HeldStays(tokens: map<string, AuthInfo>, token: string, steps: seq<TokenStepCC>)
    requires token in tokens
    requires forall i :: 0 <= i < |steps| && steps[i].token == token ==>
               steps[i].VerifyStep? && steps[i].now < tokens[token].expiresAt
    ensures token in RunTokens(tokens, steps) && RunTokens(tokens, steps)[token] == tokens[token]
    decreases |steps|
  {
    if steps == [] {
    } else {
      HeldStays(NextTokens(tokens, steps[0]), token, steps[1..]);
    }
  }

  // ----- what a token is good for

  /** A token is accepted, with the record it was issued with, exactly while the clock shows less than its end. */
  lemma VerifiedIff(tokens: map<string, AuthInfo>, token: string, now: int, info: AuthInfo)
    ensures Verified(tokens, token, now).0 == Valid(info)
       <==> token in tokens && tokens[token] == info && now < info.expiresAt
    ensures Verified(tokens, token, now).0 == Expired <==> token in tokens && tokens[token].expiresAt <= now
    ensures forall t :: t in tokens && (t != token || now < tokens[t].expiresAt) ==>
              t in Verified(tokens, token, now).1 && Verified(tokens, token, now).1[t] == tokens[t]
  {
  }

  /** The words between the spaces, in order, the empty ones left out. */
  lemma {:induction false} NonEmptyIs(words: seq<string>, word: string)
    ensures NonEmpty([]) == []
    ensures NonEmpty(words + [word]) == NonEmpty(words) + if word == "" then [] else [word]
  {
    if words == [] {
      assert words + [word] == [word] && [word][1..] == [];
    } else {
      assert (words + [word])[1..] == words[1..] + [word];
      NonEmptyIs(words[1..], word);
    }
  }

  /** What is granted keeps the order of the request. */
  lemma {:induction false} GrantedKeepsOrder(client: Client, scope: Option<string>)
    ensures Subsequence(Granted(client, scope), NonEmpty(Split(if scope.Some? then scope.value else "", ' ')))
  {
    var requested := NonEmpty(Split(if scope.Some? then scope.value else "", ' '));
    if client.allowedScopes.Some? {
      AllowedKeepsOrder(requested, client.allowedScopes.value);
    } else {
      SubsequenceSelf(requested);
    }
  }

  lemma {:induction false} AllowedKeepsOrder(scopes: seq<string>, allowed: seq<string>)
    ensures Subsequence(Allowed(scopes, allowed), scopes)
  {
    if scopes == [] {
    } else {
      AllowedKeepsOrder(scopes[1..], allowed);
      var rest := Allowed(scopes[1..], allowed);
      assert ([scopes[0]] + rest)[1..] == rest;
      assert [] + rest == rest;
    }
  }
}
