/**
 Handlers that answer a call with a question and carry their progress in a sealed state, which
 the client hands back on the retried call.  The seal is taken as unforgeable: a state that is
 presented was minted by an earlier round of the same run.
 */
module SealedRounds {
  import opened Wrappers

  /** A handler with its view of requests and results. */
  datatype Handler<!Q, !R, S> = Handler(
    handle: Q -> R,
    presented: Q -> Option<S>,
    minted: R -> Option<S>)

  /** The requests of a run, from any number of clients; results follow from the handler. */
  ghost predicate Sealed<Q, R, S>(h: Handler<Q, R, S>, run: seq<Q>) {
    forall i :: 0 <= i < |run| && h.presented(run[i]).Some? ==> MintedBefore(h, run, i, h.presented(run[i]).value)
  }

  ghost predicate MintedBefore<Q, R, S>(h: Handler<Q, R, S>, run: seq<Q>, i: nat, state: S)
    requires i <= |run|
  {
    exists j: nat :: j < i && h.minted(h.handle(run[j])) == Some(state)
  }

  // ----- wipe-cache: confirm, then pick a scope, then wipe

  datatype CacheStep = CacheStep(step: string)

  const CONFIRMED: CacheStep := CacheStep("confirmed")

  /** The accepted content of the two questions, when there is any, and the presented state. */
  datatype WipeRequest = WipeRequest(state: Option<CacheStep>, confirm: Option<bool>, scope: Option<string>)

  datatype WipeResult = AskConfirm | AskScope(state: CacheStep) | Wiped(scope: string)

  function WipeCache(q: WipeRequest): WipeResult {
    if q.state != Some(CONFIRMED) then
      if q.confirm != Some(true) then AskConfirm else AskScope(CONFIRMED)
    else if q.scope.None? then AskScope(CONFIRMED)
    else Wiped(q.scope.value)
  }

  function WipeHandler(): Handler<WipeRequest, WipeResult, CacheStep> {
    Handler(WipeCache, (q: WipeRequest) => q.state, (r: WipeResult) => if r.AskScope? then Some(r.state) else None)
  }

  /** Whoever holds a sealed state, somebody accepted the confirmation before. */
  lemma {:induction false} ConfirmedBefore(run: seq<WipeRequest>, i: nat)
    requires Sealed(WipeHandler(), run) && i < |run|
    requires run[i].state.Some? || WipeCache(run[i]).AskScope?
    ensures exists j: nat :: j <= i && run[j].confirm == Some(true) && run[j].state != Some(CONFIRMED)
  {
    if run[i].state.Some? {
      assert WipeHandler().presented(run[i]).Some?;
      var j: nat :| j < i && WipeHandler().minted(WipeHandler().handle(run[j])) == run[i].state;
      ConfirmedBefore(run, j);
    }
  }

  /** Over every run, a wipe was confirmed in an earlier round. */
  lemma {:induction false} WipeIsConfirmed(run: seq<WipeRequest>, i: nat)
    requires Sealed(WipeHandler(), run) && i < |run| && WipeCache(run[i]).Wiped?
    ensures exists j: nat :: j < i && run[j].confirm == Some(true) && WipeCache(run[j]).AskScope?
  {
    assert WipeHandler().presented(run[i]).Some?;
    var k: nat :| k < i && WipeHandler().minted(WipeHandler().handle(run[k])) == run[i].state;
    ConfirmedBefore(run, k);
    var j: nat :| j <= k && run[j].confirm == Some(true) && run[j].state != Some(CONFIRMED);
    assert WipeCache(run[j]).AskScope?;
  }

  // ----- deploy: confirm, sign in, done

  datatype DeployStep = Confirm | SignedIn

  datatype DeployState = DeployState(step: DeployStep, env: string)

  datatype Action = Accept | Decline | Cancel

  datatype DeployRequest = DeployRequest(env: string, state: Option<DeployState>, confirm: Option<bool>,
                                         auth: Option<Action>)

  datatype DeployResult =
    | AskDeploy(env: string, state: DeployState)
    | AskSignIn(env: string, state: DeployState)
    | AuthMissing
    | Deployed(env: string)

  function Deploy(q: DeployRequest): DeployResult {
    var step := if q.state.Some? then q.state.value.step else Confirm;
    if step == Confirm then
      if q.confirm != Some(true) then AskDeploy(q.env, DeployState(Confirm, q.env))
      else AskSignIn(q.env, DeployState(SignedIn, q.env))
    else if q.auth != Some(Accept) then AuthMissing
    else Deployed(if q.state.Some? then q.state.value.env else q.env)
  }

  function DeployHandler(): Handler<DeployRequest, DeployResult, DeployState> {
    Handler(Deploy, (q: DeployRequest) => q.state,
            (r: DeployResult) => if r.AskDeploy? || r.AskSignIn? then Some(r.state) else None)
  }

  /**
   Over every run, a deployment to an environment follows an accepted confirmation in an earlier
   round that named that environment, and comes with an accepted sign-in, whatever environment
   the last call itself names.
   */
  lemma {:induction false} DeployIsConfirmed(run: seq<DeployRequest>, i: nat)
    requires Sealed(DeployHandler(), run) && i < |run| && Deploy(run[i]).Deployed?
    ensures run[i].auth == Some(Accept)
    ensures exists j: nat :: j < i && run[j].confirm == Some(true) && run[j].env == Deploy(run[i]).env
                             && Deploy(run[j]).AskSignIn?
  {
    assert DeployHandler().presented(run[i]).Some?;
    var j: nat :| j < i && DeployHandler().minted(DeployHandler().handle(run[j])) == run[i].state;
    assert Deploy(run[j]) == AskSignIn(run[j].env, DeployState(SignedIn, run[j].env));
  }

  /** A declined confirmation leads nowhere: its own round only asks again. */
  lemma {:induction false} RefusalAsksAgain(run: seq<DeployRequest>, i: nat)
    requires Sealed(DeployHandler(), run) && i < |run|
    requires forall j :: 0 <= j <= i ==> run[j].confirm != Some(true)
    ensures Deploy(run[i]) == AskDeploy(run[i].env, DeployState(Confirm, run[i].env))
  {
    if run[i].state.Some? {
      assert DeployHandler().presented(run[i]).Some?;
      var j: nat :| j < i && DeployHandler().minted(DeployHandler().handle(run[j])) == run[i].state;
      RefusalAsksAgain(run, j);
    }
  }

  // ----- and what is confirmed happens

  /** A wipe is of the scope that its own call accepted, and comes whenever a sealed state and a scope do. */
  lemma WipeIff(q: WipeRequest, scope: string)
    ensures WipeCache(q) == Wiped(scope) <==> q.state == Some(CacheStep("confirmed")) && q.scope == Some(scope)
  {
  }

  /** Confirming hands out the state with which the next call wipes the scope it names. */
  lemma WipeHappens(q: WipeRequest, next: WipeRequest, scope: string)
    requires q.state.None? && q.confirm == Some(true)
    ensures WipeCache(q).AskScope?
    ensures next.state == Some(WipeCache(q).state) && next.scope == Some(scope) ==> WipeCache(next) == Wiped(scope)
    ensures next.state == Some(WipeCache(q).state) && next.scope.None? ==>
        WipeCache(next) == AskScope(WipeCache(q).state)
  {
  }

  /** Confirming hands out the state with which the next call, once signed in, deploys to the environment confirmed. */
  lemma DeployHappens(q: DeployRequest, next: DeployRequest)
    requires q.state.None? && q.confirm == Some(true)
    requires Deploy(q).AskSignIn? ==> next.state == Some(Deploy(q).state)
    ensures Deploy(q).AskSignIn? && Deploy(q).env == q.env
    ensures Deploy(next) == if next.auth == Some(Accept) then Deployed(q.env) else AuthMissing
  {
  }
}
