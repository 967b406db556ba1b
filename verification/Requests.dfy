/** The request loop (kin_provider.rs): one retry for the token, one for the endpoint, under any outcomes. */
module Requests {
  import opened Wrappers
  import opened ByteStrings

  const UNAUTHORIZED: nat := 401

  datatype Outcome = Response(status: nat, body: Bytes) | TransportFailure(error: Bytes)

  /** Everything one turn of the loop may meet. */
  datatype Turn = Turn(
    preflight: Result<(), Bytes>,
    endpoint: Result<Bytes, Bytes>,
    outcome: Outcome,
    tokenRefreshed: bool,
    endpointRefreshed: bool)

  /** What the loop does, in order. */
  datatype Action =
    | Preflight
    | Resolve(endpoint: Bytes)
    | Send(endpoint: Bytes, outcome: Outcome)
    | RefreshToken
    | RefreshEndpoint(endpoint: Bytes)
    | Record(endpoint: Bytes)

  function ToResult(outcome: Outcome): Result<Outcome, Bytes> {
    match outcome
    case Response(_, _) => Ok(outcome)
    case TransportFailure(error) => Err(error)
  }

  /** The outcome spends a budget that is still there. */
  predicate Retries(outcome: Outcome, endpointRetryUsed: bool, authRetryUsed: bool) {
    match outcome
    case Response(status, _) => status == UNAUTHORIZED && !authRetryUsed
    case TransportFailure(_) => !endpointRetryUsed
  }

  predicate Refreshed(turn: Turn) {
    if turn.outcome.Response? then turn.tokenRefreshed else turn.endpointRefreshed
  }

  datatype Finished = Finished(result: Result<Outcome, Bytes>, log: seq<Action>)

  /** The log of one turn up to its outcome, and of the refresh a spent budget asks for. */
  function TurnLog(turn: Turn, endpoint: Bytes, refreshes: bool): seq<Action> {
    [Preflight, Resolve(endpoint), Send(endpoint, turn.outcome)] +
    (if !refreshes then [] else if turn.outcome.Response? then [RefreshToken] else [RefreshEndpoint(endpoint)])
  }

  function Budget(endpointRetryUsed: bool, authRetryUsed: bool): nat {
    (if endpointRetryUsed then 0 else 1) + (if authRetryUsed then 0 else 1)
  }

  /** The loop from turn `i` on. */
  function Attempt(world: nat -> Turn, i: nat, endpointRetryUsed: bool, authRetryUsed: bool): Finished
    decreases Budget(endpointRetryUsed, authRetryUsed)
  {
    var turn := world(i);
    if turn.preflight.Err? then Finished(Err(turn.preflight.error), [])
    else if turn.endpoint.Err? then Finished(Err(turn.endpoint.error), [Preflight])
    else
      var endpoint := turn.endpoint.value;
      var retries := Retries(turn.outcome, endpointRetryUsed, authRetryUsed);
      var log := TurnLog(turn, endpoint, retries);
      if retries && Refreshed(turn) then
        var rest := Attempt(world, i + 1, endpointRetryUsed || turn.outcome.TransportFailure?,
                            authRetryUsed || turn.outcome.Response?);
        Finished(rest.result, log + rest.log)
      else Finished(ToResult(turn.outcome), log + [Record(endpoint)])
  }

  method SendWithAuthRetry(world: nat -> Turn) returns (r: Result<Outcome, Bytes>, log: seq<Action>)
    ensures Finished(r, log) == Attempt(world, 0, false, false)
  {
    var endpointRetryUsed, authRetryUsed := false, false;
    var i := 0;
    log := [];
    while true
      invariant 0 <= i
      invariant var rest := Attempt(world, i, endpointRetryUsed, authRetryUsed);
                Attempt(world, 0, false, false) == Finished(rest.result, log + rest.log)
      decreases Budget(endpointRetryUsed, authRetryUsed)
    {
      ghost var rest := Attempt(world, i, endpointRetryUsed, authRetryUsed);
      var turn := world(i);
      if turn.preflight.Err? {
        assert log + [] == log;
        return Err(turn.preflight.error), log;
      }
      if turn.endpoint.Err? {
        return Err(turn.endpoint.error), log + [Preflight];
      }
      var endpoint := turn.endpoint.value;
      ghost var before, retries := log, Retries(turn.outcome, endpointRetryUsed, authRetryUsed);
      log := log + [Preflight, Resolve(endpoint), Send(endpoint, turn.outcome)];
      match turn.outcome {
        case Response(status, _) =>
          if status == UNAUTHORIZED && !authRetryUsed {
            authRetryUsed := true;
            log := log + [RefreshToken];
            if turn.tokenRefreshed {
              Chain(before, TurnLog(turn, endpoint, retries), log, Attempt(world, i + 1, endpointRetryUsed, true).log);
              i := i + 1;
              continue;
            }
          }
          Chain(before, TurnLog(turn, endpoint, retries), log, [Record(endpoint)]);
          return Ok(turn.outcome), log + [Record(endpoint)];
        case TransportFailure(error) =>
          if !endpointRetryUsed {
            endpointRetryUsed := true;
            log := log + [RefreshEndpoint(endpoint)];
            if turn.endpointRefreshed {
              Chain(before, TurnLog(turn, endpoint, retries), log, Attempt(world, i + 1, true, authRetryUsed).log);
              i := i + 1;
              continue;
            }
          }
          Chain(before, TurnLog(turn, endpoint, retries), log, [Record(endpoint)]);
          return Err(error), log + [Record(endpoint)];
      }
    }
  }

  lemma Chain(before: seq<Action>, turn: seq<Action>, now: seq<Action>, rest: seq<Action>)
    requires now == before + turn
    ensures before + (turn + rest) == now + rest
  {
  }

  /// What the log shows

  function Count(log: seq<Action>, p: Action -> bool): nat {
    if log == [] then 0 else (if p(log[0]) then 1 else 0) + Count(log[1..], p)
  }

  predicate IsSend(a: Action) {
    a.Send?
  }

  predicate IsTokenRefresh(a: Action) {
    a.RefreshToken?
  }

  predicate IsEndpointRefresh(a: Action) {
    a.RefreshEndpoint?
  }

  lemma {:induction false} CountConcat(a: seq<Action>, b: seq<Action>, p: Action -> bool)
    ensures Count(a + b, p) == Count(a, p) + Count(b, p)
  {
    if a == [] {
      assert a + b == b;
    } else {
      assert (a + b)[1..] == a[1..] + b;
      CountConcat(a[1..], b, p);
    }
  }

  lemma CountOne(a: Action, p: Action -> bool)
    ensures Count([a], p) == if p(a) then 1 else 0
  {
    assert [a][1..] == [];
  }

  lemma CountTurn(turn: Turn, endpoint: Bytes, refreshes: bool, p: Action -> bool)
    requires !p(Preflight) && !p(Resolve(endpoint))
    ensures Count(TurnLog(turn, endpoint, refreshes), p) ==
            (if p(Send(endpoint, turn.outcome)) then 1 else 0) +
            (if refreshes && p(if turn.outcome.Response? then RefreshToken else RefreshEndpoint(endpoint)) then 1 else 0)
  {
    var send := Send(endpoint, turn.outcome);
    var tail := if !refreshes then [] else if turn.outcome.Response? then [RefreshToken] else [RefreshEndpoint(endpoint)];
    var head := [Preflight, Resolve(endpoint), send];
    CountConcat(head, tail, p);
    assert head[1..] == [Resolve(endpoint), send] && head[1..][1..] == [send];
    CountOne(send, p);
    if refreshes { CountOne(tail[0], p); }
  }

  lemma CountAll(turn: Turn, endpoint: Bytes, refreshes: bool, rest: seq<Action>)
    ensures var log := TurnLog(turn, endpoint, refreshes) + rest;
            && Count(log, IsSend) == 1 + Count(rest, IsSend)
            && Count(log, IsTokenRefresh) ==
                 (if refreshes && turn.outcome.Response? then 1 else 0) + Count(rest, IsTokenRefresh)
            && Count(log, IsEndpointRefresh) ==
                 (if refreshes && turn.outcome.TransportFailure? then 1 else 0) + Count(rest, IsEndpointRefresh)
  {
    var log := TurnLog(turn, endpoint, refreshes);
    CountTurn(turn, endpoint, refreshes, IsSend);
    CountConcat(log, rest, IsSend);
    CountTurn(turn, endpoint, refreshes, IsTokenRefresh);
    CountConcat(log, rest, IsTokenRefresh);
    CountTurn(turn, endpoint, refreshes, IsEndpointRefresh);
    CountConcat(log, rest, IsEndpointRefresh);
  }

  /** At most one send more than the budgets left, and each budget is spent at most once. */
  lemma {:induction false} SendsAreBounded(world: nat -> Turn, i: nat, endpointRetryUsed: bool, authRetryUsed: bool)
    ensures var log := Attempt(world, i, endpointRetryUsed, authRetryUsed).log;
            && Count(log, IsSend) <= 1 + Budget(endpointRetryUsed, authRetryUsed)
            && Count(log, IsTokenRefresh) <= (if authRetryUsed then 0 else 1)
            && Count(log, IsEndpointRefresh) <= (if endpointRetryUsed then 0 else 1)
    decreases Budget(endpointRetryUsed, authRetryUsed)
  {
    var turn := world(i);
    if turn.preflight.Err? {
    } else if turn.endpoint.Err? {
      CountOne(Preflight, IsSend);
      CountOne(Preflight, IsTokenRefresh);
      CountOne(Preflight, IsEndpointRefresh);
    } else {
      var endpoint := turn.endpoint.value;
      var retries := Retries(turn.outcome, endpointRetryUsed, authRetryUsed);
      if retries && Refreshed(turn) {
        var eu, au := endpointRetryUsed || turn.outcome.TransportFailure?, authRetryUsed || turn.outcome.Response?;
        SendsAreBounded(world, i + 1, eu, au);
        CountAll(turn, endpoint, retries, Attempt(world, i + 1, eu, au).log);
      } else {
        CountAll(turn, endpoint, retries, [Record(endpoint)]);
        CountOne(Record(endpoint), IsSend);
        CountOne(Record(endpoint), IsTokenRefresh);
        CountOne(Record(endpoint), IsEndpointRefresh);
      }
    }
  }

  /** Three sends do happen: a stale token, then a moved endpoint. */
  lemma ThreeSendsHappen(endpoint: Bytes)
    ensures exists world: nat -> Turn :: Count(Attempt(world, 0, false, false).log, IsSend) == 3
  {
    var stale := Turn(Ok(()), Ok(endpoint), Response(UNAUTHORIZED, []), true, true);
    var moved := Turn(Ok(()), Ok(endpoint), TransportFailure([]), true, true);
    var world := (i: nat) => if i == 0 then stale else moved;
    var third := Attempt(world, 2, true, true);
    var second := Attempt(world, 1, false, true);
    CountAll(moved, endpoint, false, [Record(endpoint)]);
    CountOne(Record(endpoint), IsSend);
    CountAll(moved, endpoint, true, third.log);
    CountAll(stale, endpoint, true, second.log);
    assert world(0) == stale && world(1) == moved && world(2) == moved;
    assert third.log == TurnLog(moved, endpoint, false) + [Record(endpoint)];
    assert second.log == TurnLog(moved, endpoint, true) + third.log;
    assert Attempt(world, 0, false, false).log == TurnLog(stale, endpoint, true) + second.log;
  }

  /** Every send is directly preceded by resolving that very endpoint, and that by a preflight. */
  ghost predicate Guarded(log: seq<Action>) {
    forall k :: 0 <= k < |log| && log[k].Send? ==>
      k >= 2 && log[k - 1] == Resolve(log[k].endpoint) && log[k - 2] == Preflight
  }

  lemma GuardedConcat(a: seq<Action>, b: seq<Action>)
    requires Guarded(a) && Guarded(b)
    ensures Guarded(a + b)
  {
    forall k | 0 <= k < |a + b| && (a + b)[k].Send?
      ensures k >= 2 && (a + b)[k - 1] == Resolve((a + b)[k].endpoint) && (a + b)[k - 2] == Preflight
    {
      if k < |a| { assert a[k].Send?; } else { assert b[k - |a|].Send?; }
    }
  }

  lemma {:induction false} EverySendIsGuarded(world: nat -> Turn, i: nat, endpointRetryUsed: bool, authRetryUsed: bool)
    ensures Guarded(Attempt(world, i, endpointRetryUsed, authRetryUsed).log)
    decreases Budget(endpointRetryUsed, authRetryUsed)
  {
    var turn := world(i);
    if turn.preflight.Ok? && turn.endpoint.Ok? {
      var retries := Retries(turn.outcome, endpointRetryUsed, authRetryUsed);
      if retries && Refreshed(turn) {
        var eu, au := endpointRetryUsed || turn.outcome.TransportFailure?, authRetryUsed || turn.outcome.Response?;
        EverySendIsGuarded(world, i + 1, eu, au);
        GuardedConcat(TurnLog(turn, turn.endpoint.value, retries), Attempt(world, i + 1, eu, au).log);
      }
    }
  }

  predicate NoTokenRefresh(log: seq<Action>) {
    forall k :: 0 <= k < |log| ==> !log[k].RefreshToken?
  }

  predicate NoEndpointRefresh(log: seq<Action>) {
    forall k :: 0 <= k < |log| ==> !log[k].RefreshEndpoint?
  }

  /** Right after send `k`: a token refresh for the first 401, an endpoint refresh for the first transport failure. */
  predicate FollowsSend(log: seq<Action>, k: nat, endpointRetryUsed: bool, authRetryUsed: bool)
    requires k + 1 < |log| && log[k].Send?
  {
    var outcome := log[k].outcome;
    && (log[k + 1].RefreshToken? <==>
          outcome.Response? && outcome.status == 401 && !authRetryUsed && NoTokenRefresh(log[..k]))
    && (log[k + 1].RefreshEndpoint? <==>
          outcome.TransportFailure? && !endpointRetryUsed && NoEndpointRefresh(log[..k]))
  }

  ghost predicate RefreshesExactly(log: seq<Action>, endpointRetryUsed: bool, authRetryUsed: bool) {
    && (forall k :: 0 <= k < |log| && (log[k].RefreshToken? || log[k].RefreshEndpoint?) ==> k > 0 && log[k - 1].Send?)
    && (forall k :: 0 <= k < |log| && log[k].Send? ==>
          k + 1 < |log| && FollowsSend(log, k, endpointRetryUsed, authRetryUsed))
  }

  lemma RefreshesConcat(turn: seq<Action>, rest: seq<Action>, eu: bool, au: bool)
    requires |turn| == 4 && turn[0].Preflight? && turn[1].Resolve? && turn[2].Send? && !turn[3].Send?
    requires RefreshesExactly(turn, eu, au)
    requires RefreshesExactly(rest, eu || turn[3].RefreshEndpoint?, au || turn[3].RefreshToken?)
    ensures RefreshesExactly(turn + rest, eu, au)
  {
    var log := turn + rest;
    assert forall k :: |turn| <= k < |log| ==> log[k] == rest[k - |turn|];
    forall k | 0 <= k < |log| && log[k].Send? ensures k + 1 < |log| && FollowsSend(log, k, eu, au) {
      if k < |turn| {
        assert log[..k] == turn[..k];
      } else {
        assert log[..k] == turn + rest[..k - |turn|];
        assert FollowsSend(rest, k - |turn|, eu || turn[3].RefreshEndpoint?, au || turn[3].RefreshToken?);
        assert log[3] == turn[3];
        assert forall j :: 0 <= j < k - |turn| ==> log[..k][|turn| + j] == rest[j];
      }
    }
  }

  /** The first 401 is answered with a token refresh and the first transport failure with an endpoint refresh, and nothing else is. */
  lemma {:induction false} RefreshesWhatFailed(world: nat -> Turn, i: nat, endpointRetryUsed: bool, authRetryUsed: bool)
    ensures RefreshesExactly(Attempt(world, i, endpointRetryUsed, authRetryUsed).log, endpointRetryUsed, authRetryUsed)
    decreases Budget(endpointRetryUsed, authRetryUsed)
  {
    var turn := world(i);
    if turn.preflight.Ok? && turn.endpoint.Ok? {
      var retries := Retries(turn.outcome, endpointRetryUsed, authRetryUsed);
      var log := TurnLog(turn, turn.endpoint.value, retries);
      if retries {
        var eu, au := endpointRetryUsed || turn.outcome.TransportFailure?, authRetryUsed || turn.outcome.Response?;
        if Refreshed(turn) { RefreshesWhatFailed(world, i + 1, eu, au); }
        RefreshesConcat(
          log, if Refreshed(turn) then Attempt(world, i + 1, eu, au).log else [Record(turn.endpoint.value)],
          endpointRetryUsed, authRetryUsed);
      }
    }
  }

  /** What was recorded, and whether it is the endpoint of the last send, whose outcome is `result`. */
  ghost predicate RecordsReturned(log: seq<Action>, result: Result<Outcome, Bytes>) {
    && (forall k :: 0 <= k < |log| - 1 ==> !log[k].Record?)
    && (log != [] && log[|log| - 1].Record? ==>
          exists k :: IsLastSend(log, k) && log[k].endpoint == log[|log| - 1].endpoint && ToResult(log[k].outcome) == result)
  }

  ghost predicate IsLastSend(log: seq<Action>, k: int) {
    0 <= k < |log| && log[k].Send? && forall j :: k < j < |log| ==> !log[j].Send?
  }

  lemma RecordsConcat(a: seq<Action>, b: seq<Action>, result: Result<Outcome, Bytes>)
    requires RecordsReturned(b, result) && forall k :: 0 <= k < |a| ==> !a[k].Record?
    ensures RecordsReturned(a + b, result)
  {
    var log := a + b;
    if b != [] && b[|b| - 1].Record? {
      var k :| IsLastSend(b, k) && b[k].endpoint == b[|b| - 1].endpoint && ToResult(b[k].outcome) == result;
      assert IsLastSend(log, |a| + k);
    }
  }

  /** The turn ends before anything is sent, with this result. */
  predicate Unsent(turn: Turn, result: Result<Outcome, Bytes>) {
    if turn.preflight.Err? then result == Err(turn.preflight.error)
    else turn.endpoint.Err? && result == Err(turn.endpoint.error)
  }

  predicate Recorded(log: seq<Action>) {
    log != [] && log[|log| - 1].Record?
  }

  /**
   A record is made at most once, last, of the endpoint of exactly the send whose outcome is returned. It is
   missing only where a turn failed before sending; so a final transport failure is recorded too.
   */
  lemma {:induction false} RecordsWhatItReturns(world: nat -> Turn, i: nat, endpointRetryUsed: bool, authRetryUsed: bool)
    ensures var done := Attempt(world, i, endpointRetryUsed, authRetryUsed);
            && RecordsReturned(done.log, done.result)
            && (done.result.Ok? ==> Recorded(done.log))
            && (Recorded(done.log) || exists j: nat :: i <= j && Unsent(world(j), done.result))
    decreases Budget(endpointRetryUsed, authRetryUsed)
  {
    var turn := world(i);
    if turn.preflight.Ok? && turn.endpoint.Ok? {
      var endpoint := turn.endpoint.value;
      var retries := Retries(turn.outcome, endpointRetryUsed, authRetryUsed);
      var log := TurnLog(turn, endpoint, retries);
      if retries && Refreshed(turn) {
        var eu, au := endpointRetryUsed || turn.outcome.TransportFailure?, authRetryUsed || turn.outcome.Response?;
        RecordsWhatItReturns(world, i + 1, eu, au);
        RecordsConcat(log, Attempt(world, i + 1, eu, au).log, Attempt(world, i + 1, eu, au).result);
      } else {
        assert IsLastSend(log + [Record(endpoint)], 2);
      }
    }
  }
}
