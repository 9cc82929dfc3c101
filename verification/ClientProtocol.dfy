/**
 What a client worker may do, told as a trace of its actions over every connection it makes, and what
 any trace it may produce guarantees its callers.
 */
module ClientProtocol {
  import opened Bytes

  const LIVE_PROTOCOL_VERSION: nat := 4

  /** A one-shot channel back to a caller. */
  type Reply = nat

  datatype RemoteErrorCode = UnsupportedVersion | ProtocolViolation | Busy | Git | Watcher | Cancelled

  datatype ClientError = Disconnected | OutcomeUnknown | Protocol | Transport | Remote(code: RemoteErrorCode)

  /** What a caller is told. */
  datatype Outcome = Done | Failed(error: ClientError)

  datatype CommandKind = SetTarget | Apply | Refresh | Submit | Cancel
  {
    /** The command may have taken effect even when no answer comes. */
    predicate Mutates() { this == Apply || this == Submit || this == Cancel }
  }

  /** Why a reply is sent. */
  datatype Cause =
    | Refused
    | Undelivered
    | ResultArrived
    | AnswerArrived(id: nat)
    | Abandoned
    | Acknowledged

  datatype Action =
    | Connects
    | Begins
    | Takes(reply: Reply)
    | SendsRequest(reply: Reply, kind: CommandKind, delivered: bool)
    | SendsLookup(id: nat, reply: Reply, delivered: bool)
    | Answers(reply: Reply, cause: Cause, outcome: Outcome)
    | Ends(result: Outcome)
    | Shuts

  /** Errors after which connecting again would fail in the same way. */
  predicate IsTerminal(result: Outcome) {
    result == Failed(Protocol) || result == Failed(Remote(UnsupportedVersion))
        || result == Failed(Remote(ProtocolViolation))
  }

  datatype Pending = Pending(reply: Reply, unknownOnDisconnect: bool)

  /** What has happened so far, as far as it bears on what may happen next. */
  datatype Watch = Watch(begun: bool, taken: set<Reply>, answered: set<Reply>, sent: set<Reply>,
                         awaiting: Option<Pending>, lookups: map<nat, Reply>, used: set<nat>,
                         connections: nat, ended: Option<Outcome>, met: bool, shut: bool)
  {
    /** A connection is up. */
    predicate Serving() { connections > 0 && ended.None? && !shut }

    /** The first connection is free; a later one needs a server once met, an end that was not final, and
        nothing owed. */
    ghost predicate MayConnect() {
      && !shut && awaiting.None? && lookups == map[]
      && (connections > 0 ==> met && ended.Some? && !IsTerminal(ended.value) && taken == answered)
    }

    ghost predicate Held(reply: Reply) {
      (awaiting.Some? && awaiting.value.reply == reply) || reply in lookups.Values
    }

    ghost predicate MaySend(reply: Reply) {
      Serving() && begun && reply in taken && reply !in answered && reply !in sent && !Held(reply)
    }

    ghost predicate MayAnswer(reply: Reply, cause: Cause, outcome: Outcome) {
      && reply in taken && reply !in answered
      && match cause
         case Refused => !Held(reply) && reply !in sent && outcome == Failed(Disconnected)
         case Undelivered => !Held(reply) && reply in sent && outcome == Failed(Disconnected)
         case ResultArrived => Serving() && begun && awaiting.Some? && awaiting.value.reply == reply
         case AnswerArrived(id) => Serving() && begun && id in lookups && lookups[id] == reply
         case Abandoned =>
           ended.Some? && Held(reply)
               && outcome == Failed(if awaiting.Some? && awaiting.value == Pending(reply, true) then OutcomeUnknown
                                    else Disconnected)
         case Acknowledged => !Held(reply) && reply !in sent
    }

    ghost predicate Allows(action: Action) {
      match action
      case Connects => MayConnect()
      case Begins => Serving() && !begun
      case Takes(reply) => !shut && reply !in taken
      case SendsRequest(reply, _, _) => awaiting.None? && MaySend(reply)
      case SendsLookup(id, reply, _) => id !in used && MaySend(reply)
      case Answers(reply, cause, outcome) => MayAnswer(reply, cause, outcome)
      case Ends(_) => connections > 0 && ended.None?
      case Shuts => !shut
    }

    function After(action: Action): Watch {
      match action
      case Connects => this.(begun := false, connections := connections + 1, ended := None)
      case Begins => this.(begun := true, met := true)
      case Takes(reply) => this.(taken := taken + {reply})
      case SendsRequest(reply, kind, delivered) =>
        this.(sent := sent + {reply}, awaiting := if delivered then Some(Pending(reply, kind.Mutates())) else awaiting)
      case SendsLookup(id, reply, delivered) =>
        this.(sent := sent + {reply}, used := used + {id}, lookups := if delivered then lookups[id := reply]
              else lookups)
      case Answers(reply, cause, _) =>
        this.(answered := answered + {reply},
              awaiting := if awaiting.Some? && awaiting.value.reply == reply then None else awaiting,
              lookups := map id | id in lookups && lookups[id] != reply :: lookups[id])
      case Ends(result) => this.(ended := Some(result))
      case Shuts => this.(shut := true)
    }
  }

  const AT_START := Watch(false, {}, {}, {}, None, map[], {}, 0, None, false, false)

  function WatchAfter(trace: seq<Action>): Watch {
    if trace == [] then AT_START else WatchAfter(trace[..|trace| - 1]).After(trace[|trace| - 1])
  }

  /** Every action was allowed when it happened. */
  ghost predicate Accepted(trace: seq<Action>) {
    trace == [] || (Accepted(trace[..|trace| - 1]) && WatchAfter(trace[..|trace| - 1]).Allows(trace[|trace| - 1]))
  }

  lemma AcceptedPush(trace: seq<Action>, action: Action)
    requires Accepted(trace) && WatchAfter(trace).Allows(action)
    ensures Accepted(trace + [action]) && WatchAfter(trace + [action]) == WatchAfter(trace).After(action)
  {
    assert (trace + [action])[..|trace|] == trace;
  }

  lemma {:induction false} AcceptedAt(trace: seq<Action>, i: nat)
    requires Accepted(trace) && i < |trace|
    ensures Accepted(trace[..i]) && WatchAfter(trace[..i]).Allows(trace[i])
    ensures WatchAfter(trace[..i + 1]) == WatchAfter(trace[..i]).After(trace[i])
  {
    assert trace[..i + 1][..i] == trace[..i];
    if i == |trace| - 1 {
      assert trace[..i + 1] == trace;
    } else {
      var init := trace[..|trace| - 1];
      AcceptedAt(init, i);
      assert init[..i] == trace[..i] && init[i] == trace[i] && init[..i + 1] == trace[..i + 1];
    }
  }

  /** What is held is held once: sent, not answered, by one request or under one id. */
  ghost predicate Coherent(w: Watch) {
    && w.answered <= w.taken && w.sent <= w.taken
    && (forall id :: id in w.lookups ==> id in w.used && w.lookups[id] in w.sent && w.lookups[id] !in w.answered)
    && (forall id, other :: id in w.lookups && other in w.lookups && w.lookups[id] == w.lookups[other] ==> id == other)
    && (w.awaiting.Some? ==> w.awaiting.value.reply in w.sent && w.awaiting.value.reply !in w.answered
                             && w.awaiting.value.reply !in w.lookups.Values)
  }

  lemma StaysCoherent(w: Watch, action: Action)
    requires Coherent(w) && w.Allows(action)
    ensures Coherent(w.After(action))
  {
  }

  lemma {:induction false} AcceptedIsCoherent(trace: seq<Action>)
    requires Accepted(trace)
    ensures Coherent(WatchAfter(trace))
  {
    if trace != [] {
      AcceptedIsCoherent(trace[..|trace| - 1]);
      StaysCoherent(WatchAfter(trace[..|trace| - 1]), trace[|trace| - 1]);
    }
  }

  // ---- what accepted traces guarantee ------------------------------------

  /** What only ever grows. */
  lemma {:induction false} Grows(trace: seq<Action>, i: nat, j: nat)
    requires Accepted(trace) && i <= j <= |trace|
    ensures WatchAfter(trace[..i]).taken <= WatchAfter(trace[..j]).taken
    ensures WatchAfter(trace[..i]).answered <= WatchAfter(trace[..j]).answered
    ensures WatchAfter(trace[..i]).sent <= WatchAfter(trace[..j]).sent
    ensures WatchAfter(trace[..i]).used <= WatchAfter(trace[..j]).used
    ensures WatchAfter(trace[..i]).connections <= WatchAfter(trace[..j]).connections
    ensures WatchAfter(trace[..i]).shut ==> WatchAfter(trace[..j]).shut
    decreases j
  {
    if i < j {
      Grows(trace, i, j - 1);
      AcceptedAt(trace, j - 1);
    }
  }

  /** No reply is answered twice. */
  lemma AnsweredOnce(trace: seq<Action>, i: nat, j: nat)
    requires Accepted(trace) && i < j < |trace| && trace[i].Answers? && trace[j].Answers?
    ensures trace[i].reply != trace[j].reply
  {
    AcceptedAt(trace, i);
    AcceptedAt(trace, j);
    Grows(trace, i + 1, j);
  }

  /** No request and no lookup is sent twice, and none before its connection began. */
  lemma SentOnce(trace: seq<Action>, i: nat, j: nat)
    requires Accepted(trace) && i < j < |trace|
    requires (trace[i].SendsRequest? || trace[i].SendsLookup?) && (trace[j].SendsRequest? || trace[j].SendsLookup?)
    ensures trace[i].reply != trace[j].reply
  {
    AcceptedAt(trace, i);
    AcceptedAt(trace, j);
    Grows(trace, i + 1, j);
  }

  /** A lookup id is never used again, on this connection or a later one. */
  lemma IdsNeverReused(trace: seq<Action>, i: nat, j: nat)
    requires Accepted(trace) && i < j < |trace| && trace[i].SendsLookup? && trace[j].SendsLookup?
    ensures trace[i].id != trace[j].id
  {
    AcceptedAt(trace, i);
    AcceptedAt(trace, j);
    Grows(trace, i + 1, j);
  }

  /** The connection in force at `i` was begun at `b`. */
  ghost predicate BegunAt(trace: seq<Action>, b: nat, i: nat)
    requires i <= |trace|
  {
    b < i && trace[b] == Begins && forall k :: b < k < i ==> trace[k] != Connects
  }

  lemma {:induction false} BegunSomewhere(trace: seq<Action>, i: nat) returns (b: nat)
    requires i <= |trace| && WatchAfter(trace[..i]).begun
    ensures BegunAt(trace, b, i)
  {
    assert trace[..i][..i - 1] == trace[..i - 1];
    b := i - 1;
    if trace[i - 1] != Begins {
      b := BegunSomewhere(trace, i - 1);
    }
  }

  /** Nothing is sent before the server has begun the connection it is sent on. */
  lemma NothingSentBeforeItBegins(trace: seq<Action>, i: nat) returns (b: nat)
    requires Accepted(trace) && i < |trace| && (trace[i].SendsRequest? || trace[i].SendsLookup?)
    ensures BegunAt(trace, b, i)
  {
    AcceptedAt(trace, i);
    b := BegunSomewhere(trace, i);
  }

  /** Once delivered, a request is awaited until its reply is answered. */
  lemma {:induction false} AwaitedUntilAnswered(trace: seq<Action>, i: nat, j: nat)
    requires Accepted(trace) && i < j <= |trace| && trace[i].SendsRequest? && trace[i].delivered
    requires forall k :: i < k < j ==> !(trace[k].Answers? && trace[k].reply == trace[i].reply)
    ensures WatchAfter(trace[..j]).awaiting == Some(Pending(trace[i].reply, trace[i].kind.Mutates()))
    decreases j
  {
    AcceptedAt(trace, j - 1);
    if i < j - 1 {
      AwaitedUntilAnswered(trace, i, j - 1);
    }
  }

  /** At most one request is pending: between two sent requests the first was answered. */
  lemma OneRequestAtATime(trace: seq<Action>, i: nat, j: nat) returns (k: nat)
    requires Accepted(trace) && i < j < |trace| && trace[i].SendsRequest? && trace[i].delivered
             && trace[j].SendsRequest?
    ensures i < k < j && trace[k].Answers? && trace[k].reply == trace[i].reply
  {
    AcceptedAt(trace, j);
    if forall m :: i < m < j ==> !(trace[m].Answers? && trace[m].reply == trace[i].reply) {
      AwaitedUntilAnswered(trace, i, j);
      assert false;
    }
    k :| i < k < j && trace[k].Answers? && trace[k].reply == trace[i].reply;
  }

  /** A lookup outstanding at `j` was sent with its id, and no connection was made since. */
  lemma {:induction false} OutstandingWasSent(trace: seq<Action>, j: nat, id: nat) returns (i: nat)
    requires Accepted(trace) && j <= |trace| && id in WatchAfter(trace[..j]).lookups
    ensures i < j && trace[i] == SendsLookup(id, WatchAfter(trace[..j]).lookups[id], true)
    ensures forall k :: i < k < j ==> trace[k] != Connects
    decreases j
  {
    hide Accepted;
    assert trace[..0] == [];
    AcceptedAt(trace, j - 1);
    i := j - 1;
    if !(trace[j - 1].SendsLookup? && trace[j - 1].id == id && trace[j - 1].delivered) {
      i := OutstandingWasSent(trace, j - 1, id);
    }
  }

  /** An answer reaches only the caller whose lookup was sent with that id on the current connection. */
  lemma AnswersReachTheirLookup(trace: seq<Action>, j: nat) returns (i: nat)
    requires Accepted(trace) && j < |trace| && trace[j].Answers? && trace[j].cause.AnswerArrived?
    ensures i < j && trace[i] == SendsLookup(trace[j].cause.id, trace[j].reply, true)
    ensures forall k :: i < k < j ==> trace[k] != Connects
  {
    AcceptedAt(trace, j);
    i := OutstandingWasSent(trace, j, trace[j].cause.id);
  }

  lemma {:induction false} TakenWasTaken(trace: seq<Action>, reply: Reply)
    ensures reply in WatchAfter(trace).taken <==> Takes(reply) in trace
  {
    if trace != [] {
      var init := trace[..|trace| - 1];
      TakenWasTaken(init, reply);
      assert trace == init + [trace[|trace| - 1]];
    }
  }

  lemma AnsweredNext(w: Watch, action: Action, reply: Reply)
    ensures reply in w.After(action).answered <==> reply in w.answered || (action.Answers? && action.reply == reply)
  {
  }

  lemma {:induction false} AnsweredWasAnswered(trace: seq<Action>, reply: Reply)
    ensures reply in WatchAfter(trace).answered <==>
            exists i :: 0 <= i < |trace| && trace[i].Answers? && trace[i].reply == reply
  {
    hide Watch.After;
    if trace != [] {
      var n := |trace| - 1;
      AnsweredWasAnswered(trace[..n], reply);
      AnsweredNext(WatchAfter(trace[..n]), trace[n], reply);
      if reply in WatchAfter(trace[..n]).answered {
        var i :| 0 <= i < n && trace[..n][i].Answers? && trace[..n][i].reply == reply;
        assert trace[i].Answers? && trace[i].reply == reply;
      }
      if i: nat :| i < n && trace[i].Answers? && trace[i].reply == reply {
        assert trace[..n][i].Answers? && trace[..n][i].reply == reply;
      }
    }
  }

  /** When everything taken has been answered, each reply taken was answered exactly once. */
  lemma EveryReplyAnsweredOnce(trace: seq<Action>, reply: Reply) returns (i: nat)
    requires Accepted(trace) && WatchAfter(trace).taken == WatchAfter(trace).answered && Takes(reply) in trace
    ensures i < |trace| && trace[i].Answers? && trace[i].reply == reply
    ensures forall j :: 0 <= j < |trace| && j != i && trace[j].Answers? ==> trace[j].reply != reply
  {
    TakenWasTaken(trace, reply);
    AnsweredWasAnswered(trace, reply);
    i :| 0 <= i < |trace| && trace[i].Answers? && trace[i].reply == reply;
    forall j | 0 <= j < |trace| && j != i && trace[j].Answers?
      ensures trace[j].reply != reply
    {
      if j < i {
        AnsweredOnce(trace, j, i);
      } else {
        AnsweredOnce(trace, i, j);
      }
    }
  }

  /** A caller whose command may have taken effect is never told it failed for want of a connection. */
  lemma MutationsAreNotMistakenForFailures(trace: seq<Action>, i: nat, j: nat)
    requires Accepted(trace) && i < j < |trace| && trace[i].SendsRequest? && trace[i].delivered
    requires trace[j].Answers? && trace[j].reply == trace[i].reply
    ensures trace[j].cause == ResultArrived
            || (trace[j].cause == Abandoned
                && trace[j].outcome == Failed(if trace[i].kind.Mutates() then OutcomeUnknown else Disconnected))
  {
    AcceptedAt(trace, j);
    forall k | i < k < j
      ensures !(trace[k].Answers? && trace[k].reply == trace[i].reply)
    {
      if trace[k].Answers? {
        AnsweredOnce(trace, k, j);
      }
    }
    AwaitedUntilAnswered(trace, i, j);
    AcceptedIsCoherent(trace[..j]);
  }

  /** Once shut, the worker only sees its last connection off and answers what it owes. */
  lemma NothingStartsOnceShut(trace: seq<Action>, i: nat, j: nat)
    requires Accepted(trace) && i < j < |trace| && trace[i] == Shuts
    ensures trace[j].Answers? || trace[j].Ends?
  {
    AcceptedAt(trace, i);
    Grows(trace, i + 1, j);
    AcceptedAt(trace, j);
  }

  /** What the last connection before `j` ended with. */
  lemma {:induction false} EndedSomewhere(trace: seq<Action>, j: nat) returns (e: nat)
    requires Accepted(trace) && j <= |trace| && WatchAfter(trace[..j]).ended.Some?
    ensures e < j && trace[e] == Ends(WatchAfter(trace[..j]).ended.value)
    ensures forall k :: e < k < j ==> trace[k] != Connects && !trace[k].Ends?
    decreases j
  {
    hide Accepted;
    assert trace[..0] == [];
    AcceptedAt(trace, j - 1);
    e := j - 1;
    if !trace[j - 1].Ends? {
      e := EndedSomewhere(trace, j - 1);
    }
  }

  lemma {:induction false} MetSomewhere(trace: seq<Action>, j: nat) returns (b: nat)
    requires j <= |trace| && WatchAfter(trace[..j]).met
    ensures b < j && trace[b] == Begins
  {
    assert trace[..j][..j - 1] == trace[..j - 1];
    b := j - 1;
    if trace[j - 1] != Begins {
      b := MetSomewhere(trace, j - 1);
    }
  }

  /** A second connection is made only after the one before it ended, and not for a reason that would
      come back; only when some server has been met; and only when every reply taken so far has been
      answered. */
  lemma ReconnectsOnlyWhenItMay(trace: seq<Action>, i: nat, j: nat) returns (e: nat, b: nat)
    requires Accepted(trace) && i < j < |trace| && trace[i] == Connects && trace[j] == Connects
    ensures i < e < j && trace[e].Ends? && !IsTerminal(trace[e].result)
    ensures forall k :: e < k < j ==> trace[k] != Connects && !trace[k].Ends?
    ensures b < j && trace[b] == Begins
    ensures forall reply :: Takes(reply) in trace[..j] ==>
                              exists k :: 0 <= k < j && trace[k].Answers? && trace[k].reply == reply
  {
    AcceptedAt(trace, i);
    Grows(trace, i + 1, j);
    AcceptedAt(trace, j);
    e := EndedSomewhere(trace, j);
    b := MetSomewhere(trace, j);
    forall reply | Takes(reply) in trace[..j]
      ensures exists k :: 0 <= k < j && trace[k].Answers? && trace[k].reply == reply
    {
      TakenWasTaken(trace[..j], reply);
      AnsweredWasAnswered(trace[..j], reply);
      var k :| 0 <= k < j && trace[..j][k].Answers? && trace[..j][k].reply == reply;
      assert trace[k].Answers? && trace[k].reply == reply;
    }
  }
}
