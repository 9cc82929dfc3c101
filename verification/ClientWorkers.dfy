/**
 The client worker: one loop per connection and one between connections. What the outside world does
 next is a script; an input that the worker is not waiting for is passed over.
 */
module ClientWorkers {
  import opened Bytes
  import opened ClientProtocol

  datatype Command = Request(kind: CommandKind, reply: Reply) | Close(reply: Reply)

  datatype ServerEvent =
    | Initialize(version: nat)
    | Document(target: nat)
    | Files
    | RequestResult(outcome: Outcome)
    | Health
    | ErrorEvent(code: RemoteErrorCode)
    | LookupResult(id: nat, outcome: Outcome)

  datatype Received = Event(event: ServerEvent) | Lost(error: ClientError)

  /** One thing the world does: what a channel or the transport yields, and whether a send goes out. */
  datatype Input =
    | CommandInput(command: Option<Command>, delivered: bool)
    | LookupInput(lookup: Option<Reply>, delivered: bool)
    | ServerInput(received: Received)
    | IdleTimeout
    | InitializeSent(ok: bool)
    | Reconnected(ok: bool)
  {
    function Replies(): set<Reply> {
      match this
      case CommandInput(Some(command), _) => {command.reply}
      case LookupInput(Some(reply), _) => {reply}
      case _ => {}
    }
  }

  datatype ConnectionState = Connecting | Connected | Down(error: ClientError)

  /** How a stretch of work ended, if it did. */
  datatype Ended = StillRunning | Over(result: Outcome)

  function AsSet(reply: Option<Reply>): set<Reply> {
    if reply.Some? then {reply.value} else {}
  }

  /** Each reply channel is handed to the worker once. */
  ghost predicate HandedOnce(script: seq<Input>) {
    forall i, j :: 0 <= i < j < |script| ==> script[i].Replies() !! script[j].Replies()
  }

  ghost predicate NotYetTaken(script: seq<Input>, at: nat, taken: set<Reply>) {
    forall i :: at <= i < |script| ==> script[i].Replies() !! taken
  }

  /** The replies in hand were neither sent nor answered, and every other reply taken and not answered is
      held. */
  ghost predicate Owes(w: Watch, inHand: set<Reply>) {
    && inHand !! w.sent && inHand !! w.answered && inHand <= w.taken
    && forall reply :: reply in w.taken && reply !in w.answered ==> reply in inHand || w.Held(reply)
  }

  /** A lookup leaves the hand: it is held once it has gone out, and answered at once when it has not. */
  lemma LookupLeavesHand(w: Watch, id: nat, reply: Reply, inHand: set<Reply>)
    requires Coherent(w) && Owes(w, inHand + {reply}) && reply !in inHand && id !in w.lookups
    ensures var sent := w.After(SendsLookup(id, reply, true));
            && Owes(sent, inHand)
            && sent == w.(sent := w.sent + {reply}, used := w.used + {id}, lookups := w.lookups[id := reply])
    ensures var failed := w.After(SendsLookup(id, reply, false));
            && Owes(failed.After(Answers(reply, Undelivered, Failed(Disconnected))), inHand)
            && failed.After(Answers(reply, Undelivered, Failed(Disconnected)))
               == w.(sent := w.sent + {reply}, used := w.used + {id}, answered := w.answered + {reply})
            && failed.Allows(Answers(reply, Undelivered, Failed(Disconnected)))
  {
    LookupHeld(w, id, reply);
    var after := w.After(SendsLookup(id, reply, false)).After(Answers(reply, Undelivered, Failed(Disconnected)));
    assert reply !in w.answered;
    assert !w.Held(reply);
    assert after.lookups == w.lookups;
  }

  /** So does a request. */
  lemma RequestLeavesHand(w: Watch, reply: Reply, kind: CommandKind, inHand: set<Reply>)
    requires Coherent(w) && Owes(w, inHand + {reply}) && reply !in inHand && w.awaiting.None?
    ensures var sent := w.After(SendsRequest(reply, kind, true));
            && Owes(sent, inHand)
            && sent == w.(sent := w.sent + {reply}, awaiting := Some(Pending(reply, kind.Mutates())))
    ensures var failed := w.After(SendsRequest(reply, kind, false));
            && Owes(failed.After(Answers(reply, Undelivered, Failed(Disconnected))), inHand)
            && failed.After(Answers(reply, Undelivered, Failed(Disconnected)))
               == w.(sent := w.sent + {reply}, answered := w.answered + {reply})
            && failed.Allows(Answers(reply, Undelivered, Failed(Disconnected)))
  {
    var after := w.After(SendsRequest(reply, kind, false)).After(Answers(reply, Undelivered, Failed(Disconnected)));
    assert reply !in w.answered;
    assert !w.Held(reply);
    assert after.lookups == w.lookups;
  }

  lemma LookupAnswered(w: Watch, id: nat, cause: Cause, outcome: Outcome, inHand: set<Reply>)
    requires Coherent(w) && Owes(w, inHand) && id in w.lookups
    ensures var after := w.After(Answers(w.lookups[id], cause, outcome));
            && Owes(after, inHand) && after == w.(answered := w.answered + {w.lookups[id]}, lookups := w.lookups - {id})
  {
    ApartFromPending(w, id);
    OneLookupGone(w, id);
    var after := w.After(Answers(w.lookups[id], cause, outcome));
    assert after.lookups == w.lookups - {id};
    forall reply | reply in after.taken && reply !in after.answered
      ensures reply in inHand || after.Held(reply)
    {
      assert reply in inHand || w.Held(reply);
    }
  }

  class Worker {
    const script: seq<Input>
    const reconnects: bool
    const retries: bool
    var at: nat
    var outstanding: map<nat, Reply>
    var nextLookup: nat
    var initialized: bool
    var pending: Option<Pending>
    var closed: bool
    var target: nat
    var connection: ConnectionState
    ghost var trace: seq<Action>
    ghost var connections: nat
    ghost var lastEnd: Option<Outcome>
    ghost var met: bool

    ghost function Now(): Watch
      reads this`trace
    {
      WatchAfter(trace)
    }

    /** The trace is one the protocol accepts, the fields are what it says is held, and every reply taken
        and not answered is held, in a field or by the code at work. */
    ghost predicate Valid(inHand: set<Reply>)
      reads this`at, this`trace, this`initialized, this`pending, this`outstanding, this`nextLookup, this`closed
      reads this`connections, this`lastEnd, this`met
    {
      && at <= |script| && HandedOnce(script) && NotYetTaken(script, at, Now().taken)
      && Accepted(trace) && Now().begun == initialized && Now().awaiting == pending && Now().lookups == outstanding
      && (forall id :: id in Now().used ==> id < nextLookup)
      && Now().connections == connections && Now().ended == lastEnd && Now().met == met && Now().shut == closed
      && (initialized ==> met) && (connections > 1 ==> reconnects && retries)
      && Owes(Now(), inHand)
    }

    /** A connection is up and being served. */
    ghost predicate Serving()
      reads this`connections, this`lastEnd, this`closed
    {
      connections > 0 && lastEnd.None? && !closed
    }

    /** Another connection may be made with these replies in hand. */
    ghost predicate MayConnect(inHand: set<Reply>)
      reads this`pending, this`outstanding, this`closed, this`connections, this`lastEnd, this`met
    {
      && !closed && pending.None? && outstanding == map[]
      && (connections > 0 ==>
            met && lastEnd.Some? && !IsTerminal(lastEnd.value) && inHand == {} && reconnects && retries)
    }

    constructor (script: seq<Input>, reconnects: bool, retries: bool, target: nat)
      requires HandedOnce(script)
      ensures Valid({}) && trace == [] && connections == 0 && !closed && this.script == script
              && connection == Connecting
      ensures pending.None? && outstanding == map[]
    {
      this.script, this.reconnects, this.retries, this.target := script, reconnects, retries, target;
      at, outstanding, nextLookup, initialized, pending, closed, connection := 0, map[], 0, false, None, false,
          Connecting;
      trace, connections, lastEnd, met := [], 0, None, false;
    }

    /** Takes a reply out of a channel. */
    ghost method Take(reply: Reply, inHand: set<Reply>)
      requires Valid(inHand) && !closed && reply !in Now().taken
      requires forall i :: at <= i < |script| ==> reply !in script[i].Replies()
      modifies this`trace
      ensures Valid(inHand + {reply}) && trace == old(trace) + [Takes(reply)]
    {
      hide Coherent;
      AcceptedIsCoherent(trace);
      CoherentBounds(Now());
      AcceptedPush(trace, Takes(reply));
      trace := trace + [Takes(reply)];
    }

    /** Answers a reply in hand. */
    ghost method AnswerInHand(reply: Reply, cause: Cause, outcome: Outcome, inHand: set<Reply>)
      requires Valid(inHand) && reply in inHand
      requires cause == Acknowledged || (cause == Refused && outcome == Failed(Disconnected))
      modifies this`trace
      ensures Valid(inHand - {reply}) && trace == old(trace) + [Answers(reply, cause, outcome)]
    {
      InHandIsNotHeld(reply, inHand);
      AcceptedPush(trace, Answers(reply, cause, outcome));
      trace := trace + [Answers(reply, cause, outcome)];
      assert Now().lookups == outstanding;
    }

    lemma LookupBelow(id: nat)
      requires Accepted(trace) && id !in Now().used
      ensures id !in Now().lookups
    {
      AcceptedIsCoherent(trace);
    }

    lemma SendableInHand(reply: Reply, inHand: set<Reply>)
      requires Valid(inHand) && reply in inHand && Serving() && initialized
      ensures pending.None? ==> forall kind, delivered :: Now().Allows(SendsRequest(reply, kind, delivered))
      ensures forall id, delivered :: id !in Now().used ==> Now().Allows(SendsLookup(id, reply, delivered))
    {
      InHandIsNotHeld(reply, inHand);
    }

    lemma InHandIsNotHeld(reply: Reply, inHand: set<Reply>)
      requires Valid(inHand) && reply in inHand
      ensures !Now().Held(reply)
    {
      AcceptedIsCoherent(trace);
    }

    /** Asks the transport to send a request; one that goes out is pending. */
    method Request(kind: CommandKind, reply: Reply, delivered: bool, ghost inHand: set<Reply>) returns (result: Outcome)
      requires Valid(inHand + {reply}) && reply !in inHand && pending.None? && Serving()
      modifies this`trace, this`pending
      ensures Valid(inHand)
      ensures result == if initialized && !delivered then Failed(Disconnected) else Done
      ensures pending == if initialized && delivered then Some(Pending(reply, kind.Mutates())) else None
      ensures !initialized ==> trace == old(trace) + [Answers(reply, Refused, Failed(Disconnected))]
      ensures initialized && delivered ==> trace == old(trace) + [SendsRequest(reply, kind, true)]
      ensures initialized && !delivered ==>
                trace == old(trace) + [SendsRequest(reply, kind, false)]
                    + [Answers(reply, Undelivered, Failed(Disconnected))]
    {
      hide HandedOnce, NotYetTaken, Coherent, Owes, Watch.Allows, Watch.After, WatchAfter, Accepted;
      assert reply in inHand + {reply};
      if !initialized {
        AnswerInHand(reply, Refused, Failed(Disconnected), inHand + {reply});
        assert inHand + {reply} - {reply} == inHand;
        return Done;
      }
      AcceptedIsCoherent(trace);
      RequestLeavesHand(Now(), reply, kind, inHand);
      SendableInHand(reply, inHand + {reply});
      AcceptedPush(trace, SendsRequest(reply, kind, delivered));
      trace := trace + [SendsRequest(reply, kind, delivered)];
      if !delivered {
        AcceptedPush(trace, Answers(reply, Undelivered, Failed(Disconnected)));
        trace := trace + [Answers(reply, Undelivered, Failed(Disconnected))];
        return Failed(Disconnected);
      }
      pending := Some(Pending(reply, kind.Mutates()));
      return Done;
    }

    /** Asks the transport to send a lookup under a new id. */
    method Lookup(reply: Reply, delivered: bool, ghost inHand: set<Reply>) returns (result: Outcome)
      requires Valid(inHand + {reply}) && reply !in inHand && Serving()
      modifies this`trace, this`outstanding, this`nextLookup
      ensures Valid(inHand)
      ensures result == if initialized && !delivered then Failed(Disconnected) else Done
      ensures nextLookup == old(nextLookup) + if initialized then 1 else 0
      ensures outstanding == if initialized && delivered then old(outstanding)[old(nextLookup) := reply]
              else old(outstanding)
      ensures !initialized ==> trace == old(trace) + [Answers(reply, Refused, Failed(Disconnected))]
      ensures initialized && delivered ==> trace == old(trace) + [SendsLookup(old(nextLookup), reply, true)]
      ensures initialized && !delivered ==>
                trace == old(trace) + [SendsLookup(old(nextLookup), reply, false)]
                    + [Answers(reply, Undelivered, Failed(Disconnected))]
    {
      hide HandedOnce, NotYetTaken, Coherent, Owes, Watch.Allows, Watch.After, WatchAfter, Accepted;
      assert reply in inHand + {reply};
      if !initialized {
        AnswerInHand(reply, Refused, Failed(Disconnected), inHand + {reply});
        assert inHand + {reply} - {reply} == inHand;
        return Done;
      }
      var id := nextLookup;
      AcceptedIsCoherent(trace);
      LookupBelow(id);
      ghost var before := Now();
      LookupLeavesHand(before, id, reply, inHand);
      SendableInHand(reply, inHand + {reply});
      nextLookup := nextLookup + 1;
      AcceptedPush(trace, SendsLookup(id, reply, delivered));
      trace := trace + [SendsLookup(id, reply, delivered)];
      if !delivered {
        AcceptedPush(trace, Answers(reply, Undelivered, Failed(Disconnected)));
        trace := trace + [Answers(reply, Undelivered, Failed(Disconnected))];
        return Failed(Disconnected);
      }
      outstanding := outstanding[id := reply];
      return Done;
    }

    /** The handshake's verdict on an event. */
    method Check(event: ServerEvent, ghost inHand: set<Reply>) returns (result: Outcome)
      requires Valid(inHand) && Serving()
      modifies this`initialized, this`trace, this`met
      ensures Valid(inHand) && met == (old(met) || initialized)
      ensures match event
              case Initialize(version) =>
                if version != LIVE_PROTOCOL_VERSION then
                  result == Failed(Remote(UnsupportedVersion)) && initialized == old(initialized) && trace == old(trace)
                else
                  && initialized && result == (if old(initialized) then Failed(Protocol) else Done)
                  && trace == old(trace) + if old(initialized) then [] else [Begins]
              case ErrorEvent(_) => result == Done && initialized == old(initialized) && trace == old(trace)
              case _ =>
                result == (if initialized then Done else Failed(Protocol)) && initialized == old(initialized)
                    && trace == old(trace)
    {
      match event
      case Initialize(version) =>
        if version != LIVE_PROTOCOL_VERSION {
          return Failed(Remote(UnsupportedVersion));
        }
        if initialized {
          return Failed(Protocol);
        }
        AcceptedPush(trace, Begins);
        trace := trace + [Begins];
        initialized, met := true, true;
        return Done;
      case ErrorEvent(_) => return Done;
      case _ => return if initialized then Done else Failed(Protocol);
    }

    /** Answers the pending request. */
    method AnswerPending(cause: Cause, outcome: Outcome, ghost inHand: set<Reply>)
      requires Valid(inHand) && pending.Some?
      requires (cause == ResultArrived && initialized && Serving())
               || (cause == Abandoned && lastEnd.Some?
                   && outcome == Failed(if pending.value.unknownOnDisconnect then OutcomeUnknown else Disconnected))
      modifies this`trace, this`pending
      ensures Valid(inHand) && pending == None
      ensures trace == old(trace) + [Answers(old(pending).value.reply, cause, outcome)]
    {
      AcceptedIsCoherent(trace);
      ghost var action := Answers(pending.value.reply, cause, outcome);
      AcceptedPush(trace, action);
      trace := trace + [action];
      pending := None;
      assert Now().lookups == outstanding;
    }

    /** Answers an outstanding lookup. */
    method AnswerLookup(id: nat, cause: Cause, outcome: Outcome, ghost inHand: set<Reply>)
      requires Valid(inHand) && id in outstanding
      requires (cause == AnswerArrived(id) && initialized && Serving())
               || (cause == Abandoned && lastEnd.Some? && outcome == Failed(Disconnected))
      modifies this`trace, this`outstanding
      ensures Valid(inHand) && outstanding == old(outstanding) - {id}
      ensures trace == old(trace) + [Answers(old(outstanding)[id], cause, outcome)]
    {
      AcceptedIsCoherent(trace);
      ghost var action, before := Answers(outstanding[id], cause, outcome), Now();
      ApartFromPending(before, id);
      LookupAnswered(before, id, cause, outcome, inHand);
      AcceptedPush(trace, action);
      hide Coherent, Owes, HandedOnce, NotYetTaken;
      trace := trace + [action];
      outstanding := outstanding - {id};
    }

    /** What the worker makes of a server event. */
    method HandleEvent(event: ServerEvent, ghost inHand: set<Reply>) returns (result: Outcome)
      requires Valid(inHand) && Serving()
      modifies this`initialized, this`trace, this`met, this`pending, this`outstanding, this`target, this`connection
      ensures Valid(inHand)
      ensures initialized == (old(initialized) || event == Initialize(LIVE_PROTOCOL_VERSION))
      ensures met == (old(met) || initialized)
      ensures result == match event
                        case Initialize(version) =>
                          if version != LIVE_PROTOCOL_VERSION then Failed(Remote(UnsupportedVersion))
                          else if old(initialized) then Failed(Protocol) else Done
                        case ErrorEvent(code) => Failed(Remote(code))
                        case _ => if old(initialized) then Done else Failed(Protocol)
      ensures pending == if old(initialized) && event.RequestResult? then None else old(pending)
      ensures outstanding == if old(initialized) && event.LookupResult? then old(outstanding) - {event.id}
              else old(outstanding)
      ensures trace == old(trace) +
                if event == Initialize(LIVE_PROTOCOL_VERSION) && !old(initialized) then [Begins]
                else if event.RequestResult? && old(initialized) && old(pending).Some? then
                  [Answers(old(pending).value.reply, ResultArrived, event.outcome)]
                else if event.LookupResult? && old(initialized) && event.id in old(outstanding) then
                  [Answers(old(outstanding)[event.id], AnswerArrived(event.id), event.outcome)]
                else []
      ensures connection == if event.ErrorEvent? then Down(Remote(event.code))
                            else if event.Document? && old(initialized) then Connected else old(connection)
      ensures target == if event.Document? && old(initialized) then event.target else old(target)
    {
      result := Check(event, inHand);
      if result != Done {
        return;
      }
      match event
      case RequestResult(outcome) =>
        if pending.Some? {
          AnswerPending(ResultArrived, outcome, inHand);
        }
      case LookupResult(id, outcome) =>
        if id in outstanding {
          AnswerLookup(id, AnswerArrived(id), outcome, inHand);
        }
      case Document(shown) =>
        target := shown;
        connection := Connected;
      case ErrorEvent(code) =>
        connection := Down(Remote(code));
        return Failed(Remote(code));
      case _ =>
    }

    /** Gives up on everything the lost connection owed an answer for. */
    method AbandonRequest(ghost inHand: set<Reply>)
      requires Valid(inHand) && lastEnd.Some?
      modifies this`trace, this`pending, this`outstanding
      ensures Valid(inHand) && pending == None && outstanding == map[] && old(trace) <= trace
    {
      while outstanding != map[]
        invariant Valid(inHand) && pending == old(pending) && old(trace) <= trace
        decreases |outstanding|
      {
        var id :| id in outstanding;
        AnswerLookup(id, Abandoned, Failed(Disconnected), inHand);
      }
      if pending.Some? {
        AnswerPending(Abandoned, Failed(if pending.value.unknownOnDisconnect then OutcomeUnknown else Disconnected),
                      inHand);
      }
    }

    /** Reads the next input of the script. */
    method Next(ghost inHand: set<Reply>) returns (input: Input)
      requires Valid(inHand) && at < |script|
      modifies this`at
      ensures Valid(inHand) && at == old(at) + 1 && input == script[old(at)]
      ensures input.Replies() !! Now().taken && forall i :: at <= i < |script| ==>
              input.Replies() !! script[i].Replies()
    {
      input := script[at];
      at := at + 1;
    }

    /** Handles a command taken while no request is pending; `Over` when the connection ends with it. */
    method HandleCommand(command: Option<Command>, delivered: bool, ghost inHand: set<Reply>) returns (ended: Ended)
      requires Valid(inHand) && pending.None? && Serving()
      requires command.Some? ==> command.value.reply !in Now().taken && forall i :: at <= i < |script| ==>
               command.value.reply !in script[i].Replies()
      modifies this`trace, this`pending, this`closed
      ensures Valid(inHand) && old(trace) <= trace
      ensures closed == (command.None? || command.value.Close?)
      ensures command.None? ==> ended == Over(Done) && trace == old(trace) + [Shuts]
      ensures command.Some? && command.value.Close? ==>
                && ended == Over(Done)
                && trace == old(trace) + [Takes(command.value.reply)] + [Shuts]
                    + [Answers(command.value.reply, Acknowledged, Done)]
      ensures command.Some? && command.value.Request? ==>
                ended == if initialized && !delivered then Over(Failed(Disconnected)) else StillRunning
    {
      if command.None? {
        Close(inHand);
        return Over(Done);
      }
      var reply := command.value.reply;
      assert reply !in inHand;
      Take(reply, inHand);
      match command.value
      case Close(_) =>
        Close(inHand + {reply});
        AnswerInHand(reply, Acknowledged, Done, inHand + {reply});
        assert inHand + {reply} - {reply} == inHand;
        return Over(Done);
      case Request(kind, _) =>
        var result := Request(kind, reply, delivered, inHand);
        return if result == Done then StillRunning else Over(result);
    }

    /** Waits for the outcome of sending the initialize command; `None` when the script ends first. */
    method SendInitialize(ghost inHand: set<Reply>) returns (sent: Option<bool>)
      requires Valid(inHand)
      modifies this`at
      ensures Valid(inHand) && at >= old(at) && (sent.Some? ==> at > old(at)) && (sent.None? ==> at == |script|)
    {
      while at < |script|
        invariant Valid(inHand) && at >= old(at)
        decreases |script| - at
      {
        var input := Next(inHand);
        if input.InitializeSent? {
          return Some(input.ok);
        }
      }
      return None;
    }

    /** Serves one connection until it ends. */
    method Connection(ready: Option<Reply>) returns (ended: Ended, stillReady: Option<Reply>)
      requires Valid(AsSet(ready)) && MayConnect(AsSet(ready)) && (ready.None? ==> met)
      modifies this
      ensures Valid(AsSet(stillReady)) && at >= old(at) && old(trace) <= trace
      ensures connections == old(connections) + 1 && lastEnd.None?
      ensures (stillReady == ready || stillReady == None) && (stillReady.None? ==> met)
      ensures ended.StillRunning? ==> at == |script|
      ensures ended.Over? ==> at > old(at)
      ensures closed ==> ended == Over(Done)
    {
      hide Worker.Valid;
      stillReady := ready;
      Connect(AsSet(ready));
      var sent := SendInitialize(AsSet(ready));
      if sent.None? {
        return StillRunning, stillReady;
      }
      if !sent.value {
        return Over(Failed(Disconnected)), stillReady;
      }
      while at < |script|
        invariant Valid(AsSet(stillReady)) && Serving() && connections == old(connections) + 1 && at > old(at)
        invariant (stillReady == ready || stillReady == None) && (stillReady.None? ==> met)
        invariant at <= |script| && old(trace) <= trace
        decreases |script| - at
      {
        var input := Next(AsSet(stillReady));
        ended, stillReady := Serve(input, stillReady);
        AtEnd(AsSet(stillReady));
        if ended.Over? {
          return;
        }
      }
      return StillRunning, stillReady;
    }

    /** What the worker does with one input while a connection is up. */
    method Serve(input: Input, ready: Option<Reply>) returns (ended: Ended, stillReady: Option<Reply>)
      requires Valid(AsSet(ready)) && Serving() && (ready.None? ==> met)
      requires input.Replies() !! Now().taken && forall i :: at <= i < |script| ==>
               input.Replies() !! script[i].Replies()
      modifies this`trace, this`initialized, this`met, this`pending, this`outstanding, this`nextLookup, this`closed,
               this`target, this`connection
      ensures Valid(AsSet(stillReady)) && old(trace) <= trace
      ensures (stillReady == ready || stillReady == None) && (stillReady.None? ==> met)
      ensures closed ==> ended == Over(Done)
      ensures input == IdleTimeout ==> ended == Over(Failed(Disconnected)) && trace == old(trace)
    {
      hide Worker.Valid;
      stillReady := ready;
      match input
      case CommandInput(command, delivered) =>
        if pending.Some? {
          return StillRunning, ready;
        }
        ended := HandleCommand(command, delivered, AsSet(ready));
      case LookupInput(lookup, delivered) =>
        if lookup.None? {
          Close(AsSet(ready));
          return Over(Done), ready;
        }
        var result := TakeLookup(lookup.value, delivered, AsSet(ready));
        ended := if result == Done then StillRunning else Over(result);
      case ServerInput(received) =>
        if received.Lost? {
          return Over(Failed(received.error)), ready;
        }
        var result := HandleEvent(received.event, AsSet(ready));
        if result != Done {
          return Over(result), ready;
        }
        stillReady := Greet(ready);
        ended := StillRunning;
      case IdleTimeout => return Over(Failed(Disconnected)), ready;
      case _ => return StillRunning, ready;
    }

    /** Tells whoever waits for the first connection that it is up. */
    method Greet(ready: Option<Reply>) returns (stillReady: Option<Reply>)
      requires Valid(AsSet(ready)) && (ready.None? ==> met)
      modifies this`trace
      ensures Valid(AsSet(stillReady)) && (stillReady.None? ==> met)
      ensures stillReady == if initialized then None else ready
      ensures trace == old(trace) + if initialized && ready.Some? then [Answers(ready.value, Acknowledged, Done)]
              else []
    {
      stillReady := ready;
      if initialized && ready.Some? {
        AnswerInHand(ready.value, Acknowledged, Done, AsSet(ready));
        assert AsSet(ready) - {ready.value} == AsSet(None);
        stillReady := None;
      }
    }

    /** Starts over with a new connection. */
    method Connect(ghost inHand: set<Reply>)
      requires Valid(inHand) && MayConnect(inHand)
      modifies this`initialized, this`trace, this`connections, this`lastEnd
      ensures Valid(inHand) && trace == old(trace) + [Connects] && !initialized
      ensures connections == old(connections) + 1 && lastEnd.None?
    {
      if inHand == {} {
        NothingOwed();
      }
      AcceptedPush(trace, Connects);
      trace := trace + [Connects];
      connections, lastEnd, initialized := connections + 1, None, false;
    }

    /** The connection is over. */
    ghost method End(result: Outcome, inHand: set<Reply>)
      requires Valid(inHand) && connections > 0 && lastEnd.None?
      modifies this`trace, this`lastEnd
      ensures Valid(inHand) && lastEnd == Some(result) && trace == old(trace) + [Ends(result)]
    {
      AcceptedPush(trace, Ends(result));
      trace := trace + [Ends(result)];
      lastEnd := Some(result);
    }

    /** No more is to be done. */
    method Close(ghost inHand: set<Reply>)
      requires Valid(inHand) && !closed
      modifies this`closed, this`trace
      ensures Valid(inHand) && closed && trace == old(trace) + [Shuts]
    {
      AcceptedPush(trace, Shuts);
      trace := trace + [Shuts];
      closed := true;
    }

    lemma NothingTaken()
      requires trace == []
      ensures Now().taken == {}
    {
    }

    lemma Watched(inHand: set<Reply>)
      requires Valid(inHand)
      ensures Accepted(trace) && Now().connections == connections && (connections > 1 ==> reconnects && retries)
    {
    }

    lemma AtEnd(inHand: set<Reply>)
      requires Valid(inHand)
      ensures at <= |script|
    {
    }

    method TakeLookup(reply: Reply, delivered: bool, ghost inHand: set<Reply>) returns (result: Outcome)
      requires Valid(inHand) && Serving() && reply !in Now().taken
      requires forall i :: at <= i < |script| ==> reply !in script[i].Replies()
      modifies this`trace, this`outstanding, this`nextLookup
      ensures Valid(inHand) && old(trace) <= trace
    {
      assert reply !in inHand;
      Take(reply, inHand);
      result := Lookup(reply, delivered, inHand);
    }

    /** Takes a reply out of a channel between connections and refuses it. */
    method Refuse(reply: Reply)
      requires Valid({}) && !closed && reply !in Now().taken && forall i :: at <= i < |script| ==>
               reply !in script[i].Replies()
      modifies this`trace
      ensures Valid({}) && trace == old(trace) + [Takes(reply)] + [Answers(reply, Refused, Failed(Disconnected))]
    {
      Take(reply, {});
      assert {} + {reply} == {reply};
      AnswerInHand(reply, Refused, Failed(Disconnected), {reply});
      assert {reply} - {reply} == {};
    }

    /** Tries again and again to connect, refusing what is asked meanwhile. `None` when the script ends. */
    method Reconnect() returns (again: Option<bool>)
      requires Valid({}) && !closed
      modifies this`at, this`trace, this`closed
      ensures Valid({}) && at >= old(at) && old(trace) <= trace
      ensures again.None? ==> at == |script|
      ensures closed <==> again == Some(false)
    {
      hide Worker.Valid;
      var delay := 250;
      AtEnd({});
      while at < |script|
        invariant Valid({}) && at >= old(at) && at <= |script| && 250 <= delay <= 5000 && !closed && old(trace) <= trace
        decreases |script| - at
      {
        var input := Next({});
        match input
        case Reconnected(ok) =>
          if ok {
            return Some(true);
          }
          delay := Min(delay * 2, 5000);
        case LookupInput(Some(reply), _) => Refuse(reply);
        case CommandInput(Some(Request(_, reply)), _) => Refuse(reply);
        case CommandInput(Some(Close(reply)), _) =>
          Take(reply, {});
          assert {} + {reply} == {reply};
          Close({reply});
          AnswerInHand(reply, Acknowledged, Done, {reply});
          assert {reply} - {reply} == {};
          return Some(false);
        case CommandInput(None, _) =>
          Close({});
          return Some(false);
        case _ =>
        AtEnd({});
      }
      return None;
    }

    /** Answers everything a connection that is over leaves owed, and decides whether to make another. */
    method SeeOff(result: Outcome, waiting: Option<Reply>) returns (retry: bool)
      requires Valid(AsSet(waiting)) && connections > 0 && lastEnd.None? && (waiting.None? ==> met)
      modifies this`trace, this`lastEnd, this`pending, this`outstanding
      ensures Valid({}) && pending.None? && outstanding == map[] && lastEnd == Some(result) && old(trace) <= trace
      ensures retry <==> !closed && waiting.None? && reconnects && retries && !IsTerminal(result)
      ensures retry ==> met
    {
      hide Worker.Valid;
      End(result, AsSet(waiting));
      AbandonRequest(AsSet(waiting));
      retry := !closed && waiting.None? && reconnects && retries && !IsTerminal(result);
      if waiting.Some? {
        AnswerInHand(waiting.value, Acknowledged, result, AsSet(waiting));
        assert AsSet(waiting) - {waiting.value} == {};
      }
    }

    /** The whole life of the worker. `finished` is false when the script ends before it does. */
    method Run(ready: Reply) returns (finished: bool)
      requires Valid({}) && trace == [] && connections == 0 && !closed && pending.None? && outstanding == map[]
      requires forall i :: 0 <= i < |script| ==> ready !in script[i].Replies()
      modifies this
      ensures Accepted(trace) && Takes(ready) in trace
      ensures Now().connections > 1 ==> reconnects && retries
      ensures finished ==> Now().taken == Now().answered && pending.None? && outstanding == map[]
      ensures finished ==> connection.Down? && lastEnd.Some?
      ensures finished ==> connection.error == Disconnected || lastEnd.value == Failed(connection.error)
    {
      hide Worker.Valid, Worker.Serving, WatchAfter, Accepted;
      NothingTaken();
      Take(ready, {});
      assert {} + {ready} == {ready} == AsSet(Some(ready));
      AtEnd({ready});
      var waiting := Some(ready);
      while true
        invariant Valid(AsSet(waiting)) && MayConnect(AsSet(waiting)) && (waiting.None? ==> met)
        invariant at <= |script| && |trace| > 0 && trace[0] == Takes(ready)
        decreases |script| - at
      {
        var ended;
        ended, waiting := Connection(waiting);
        if ended.StillRunning? {
          Watched(AsSet(waiting));
          return false;
        }
        var retry := SeeOff(ended.result, waiting);
        waiting := None;
        if !retry {
          NothingOwed();
          Watched({});
          connection := Down(if ended.result.Failed? then ended.result.error else Disconnected);
          return true;
        }
        connection := Connecting;
        var again := Reconnect();
        if again.None? {
          Watched({});
          return false;
        }
        AtEnd({});
        if !again.value {
          break;
        }
      }
      NothingOwed();
      Watched({});
      connection := Down(Disconnected);
      return true;
    }

    lemma NothingOwed()
      requires Valid({}) && pending.None? && outstanding == map[]
      ensures Now().taken == Now().answered
    {
      AcceptedIsCoherent(trace);
      forall reply | reply in Now().taken
        ensures reply in Now().answered
      {
        assert !Now().Held(reply);
      }
    }
  }

  lemma CoherentBounds(w: Watch)
    requires Coherent(w)
    ensures w.answered <= w.taken && w.sent <= w.taken
  {
  }

  lemma LookupHeld(w: Watch, id: nat, reply: Reply)
    requires id !in w.lookups
    ensures forall other :: other in w.lookups.Values || other == reply <==> other in w.lookups[id := reply].Values
  {
    var after := w.lookups[id := reply];
    forall other | other in w.lookups.Values
      ensures other in after.Values
    {
      var k :| k in w.lookups && w.lookups[k] == other;
      assert k in after && after[k] == other;
    }
    assert id in after && after[id] == reply;
  }

  lemma ApartFromPending(w: Watch, id: nat)
    requires Coherent(w) && id in w.lookups
    ensures w.awaiting.Some? ==> w.awaiting.value.reply != w.lookups[id]
    ensures w.lookups[id] in w.taken && w.lookups[id] !in w.answered && w.lookups[id] in w.sent
  {
  }

  lemma OneLookupGone(w: Watch, id: nat)
    requires Coherent(w) && id in w.lookups
    ensures (map k | k in w.lookups && w.lookups[k] != w.lookups[id] :: w.lookups[k]) == w.lookups - {id}
    ensures forall reply :: reply in w.lookups.Values && reply != w.lookups[id] ==> reply in (w.lookups - {id}).Values
  {
    var after := w.lookups - {id};
    forall reply | reply in w.lookups.Values && reply != w.lookups[id]
      ensures reply in after.Values
    {
      var k :| k in w.lookups && w.lookups[k] == reply;
      assert k in after && after[k] == reply;
    }
  }
}
