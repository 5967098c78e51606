/**
 A connection's asynchronous store: the handler pushes statuses and responses into two bounded
 channels, two goroutines save them, and at the end a handshake over two close channels stops both.

 `Apply` is one atomic step of one goroutine; a run is any interleaving of enabled steps.
 */
module AsyncStore {
  import opened Bytes

  /** The remote store has one close channel per loop; in the JSON store both loops share the first. */
  datatype Kind = Remote | Json

  const QUEUE_CAPACITY := 200

  function CloseCapacity(kind: Kind): nat {
    if kind.Remote? then 1 else 200
  }

  /** How far the handler has come. */
  datatype Handler = Streaming | SendingClose | SendingCloseResponse | ClosingFirst | ClosingSecond | CleaningUp | Ended

  /** A consumer loop: waiting in its select, saving one item, or returned. */
  datatype Consumer<T> = Waiting | Saving(item: T) | Stopped

  /** A close channel: the values in its buffer, and whether it is closed. */
  datatype CloseChan = CloseChan(buffered: nat, closed: bool)

  /** One channel with its consumer, and the history of what was pushed and saved. */
  datatype Lane<T> = Lane(pushed: seq<T>, queue: seq<T>, consumer: Consumer<T>, saved: seq<T>)

  datatype System<S, R> = System(
    handler: Handler, statuses: Lane<S>, responses: Lane<R>, close: CloseChan, closeResponse: CloseChan, cancelled: bool)

  function Init<S, R>(): System<S, R> {
    System(Streaming, Lane([], [], Waiting, []), Lane([], [], Waiting, []), CloseChan(0, false), CloseChan(0, false), false)
  }

  // ----- Steps -----

  datatype Action<S, R> =
    | Push(status: S) | PushResponse(response: R) | EndStream
    | SendClose | SendCloseResponse | CloseFirst | CloseSecond | CleanUp
    | TakeStatus | SaveStatus | StopProcess | CancelProcess
    | TakeResponse | SaveResponse | StopResponse | CancelResponse

  /** A receive from a close channel goes through if something is buffered or the channel is closed. */
  predicate CanReceive(c: CloseChan) {
    c.buffered > 0 || c.closed
  }

  function Receive(c: CloseChan): CloseChan {
    if c.buffered > 0 then c.(buffered := c.buffered - 1) else c
  }

  /** The close channel that the Response loop waits on. */
  function ResponseClose<S, R>(kind: Kind, s: System<S, R>): CloseChan {
    if kind.Remote? then s.closeResponse else s.close
  }

  /** A send waits while the buffer is full; a send or a second close on a closed channel panics. */
  predicate Enabled<S, R>(kind: Kind, s: System<S, R>, a: Action<S, R>) {
    match a
    case Push(_) => s.handler.Streaming? && |s.statuses.queue| < QUEUE_CAPACITY
    case PushResponse(_) => s.handler.Streaming? && |s.responses.queue| < QUEUE_CAPACITY
    case EndStream => s.handler.Streaming?
    case SendClose => s.handler.SendingClose? && s.close.buffered < CloseCapacity(kind)
    case SendCloseResponse => s.handler.SendingCloseResponse? && s.closeResponse.buffered < CloseCapacity(kind)
    case CloseFirst => s.handler.ClosingFirst?
    case CloseSecond => s.handler.ClosingSecond?
    case CleanUp => s.handler.CleaningUp?
    case TakeStatus => s.statuses.consumer.Waiting? && s.statuses.queue != []
    case SaveStatus => s.statuses.consumer.Saving?
    case StopProcess => s.statuses.consumer.Waiting? && CanReceive(s.close)
    case CancelProcess => kind.Remote? && s.statuses.consumer.Waiting? && s.cancelled
    case TakeResponse => s.responses.consumer.Waiting? && s.responses.queue != []
    case SaveResponse => s.responses.consumer.Saving?
    case StopResponse => s.responses.consumer.Waiting? && CanReceive(ResponseClose(kind, s))
    case CancelResponse => kind.Remote? && s.responses.consumer.Waiting? && s.cancelled
  }

  predicate Panics<S, R>(s: System<S, R>, a: Action<S, R>) {
    match a
    case SendClose => s.close.closed
    case SendCloseResponse => s.closeResponse.closed
    case CloseFirst => s.close.closed
    case CloseSecond => s.closeResponse.closed
    case _ => false
  }

  function Pushed<T>(l: Lane<T>, x: T): Lane<T> {
    Lane(l.pushed + [x], l.queue + [x], l.consumer, l.saved)
  }

  function Taken<T>(l: Lane<T>): Lane<T>
    requires l.queue != []
  {
    Lane(l.pushed, l.queue[1..], Saving(l.queue[0]), l.saved)
  }

  function Saved<T>(l: Lane<T>): Lane<T>
    requires l.consumer.Saving?
  {
    Lane(l.pushed, l.queue, Waiting, l.saved + [l.consumer.item])
  }

  function Halted<T>(l: Lane<T>): Lane<T> {
    l.(consumer := Stopped)
  }

  function Apply<S, R>(kind: Kind, s: System<S, R>, a: Action<S, R>): System<S, R>
    requires Enabled(kind, s, a)
  {
    match a
    case Push(x) => s.(statuses := Pushed(s.statuses, x))
    case PushResponse(x) => s.(responses := Pushed(s.responses, x))
    case EndStream => s.(handler := SendingClose)
    case SendClose => s.(handler := SendingCloseResponse, close := s.close.(buffered := s.close.buffered + 1))
    case SendCloseResponse =>
      s.(handler := ClosingFirst, closeResponse := s.closeResponse.(buffered := s.closeResponse.buffered + 1))
    case CloseFirst => s.(handler := ClosingSecond, close := s.close.(closed := true))
    case CloseSecond => s.(handler := CleaningUp, closeResponse := s.closeResponse.(closed := true))
    case CleanUp => s.(handler := Ended, cancelled := true)
    case TakeStatus => s.(statuses := Taken(s.statuses))
    case SaveStatus => s.(statuses := Saved(s.statuses))
    case StopProcess => s.(statuses := Halted(s.statuses), close := Receive(s.close))
    case CancelProcess => s.(statuses := Halted(s.statuses))
    case TakeResponse => s.(responses := Taken(s.responses))
    case SaveResponse => s.(responses := Saved(s.responses))
    case StopResponse =>
      if kind.Remote? then s.(responses := Halted(s.responses), closeResponse := Receive(s.closeResponse))
      else s.(responses := Halted(s.responses), close := Receive(s.close))
    case CancelResponse => s.(responses := Halted(s.responses))
  }

  // ----- What every step keeps -----

  function InFlight<T>(l: Lane<T>): seq<T> {
    if l.consumer.Saving? then [l.consumer.item] else []
  }

  /** Whatever was pushed was saved, is being saved, or still waits, in this order. */
  predicate Conserved<T(==)>(l: Lane<T>) {
    l.pushed == l.saved + InFlight(l) + l.queue && |l.queue| <= QUEUE_CAPACITY
  }

  function Rank(h: Handler): nat {
    match h
    case Streaming => 6
    case SendingClose => 5
    case SendingCloseResponse => 4
    case ClosingFirst => 3
    case ClosingSecond => 2
    case CleaningUp => 1
    case Ended => 0
  }

  /** Before its send a close channel is empty and open; afterwards it holds at most that one value. */
  predicate ChannelRight(c: CloseChan, sent: bool, closed: bool) {
    c.closed == closed && c.buffered <= (if sent then 1 else 0)
  }

  predicate Inv<S(==), R(==)>(kind: Kind, s: System<S, R>) {
    && Conserved(s.statuses) && Conserved(s.responses)
    && ChannelRight(s.close, Rank(s.handler) <= 4, Rank(s.handler) <= 2)
    && ChannelRight(s.closeResponse, Rank(s.handler) <= 3, Rank(s.handler) <= 1)
    && s.cancelled == s.handler.Ended?
    // no loop returns before the handler has sent or closed its channel
    && (s.statuses.consumer.Stopped? ==> Rank(s.handler) <= 4)
    && (s.responses.consumer.Stopped? ==> Rank(s.handler) <= (if kind.Remote? then 3 else 4))
  }

  lemma InitRight<S, R>(kind: Kind)
    ensures Inv(kind, Init<S, R>())
  {}

  lemma PushConserves<T>(l: Lane<T>, x: T)
    requires Conserved(l) && |l.queue| < QUEUE_CAPACITY
    ensures Conserved(Pushed(l, x))
  {}

  lemma TakeConserves<T>(l: Lane<T>)
    requires Conserved(l) && l.consumer.Waiting? && l.queue != []
    ensures Conserved(Taken(l))
  {
    assert l.saved + [] + l.queue == l.saved + [l.queue[0]] + l.queue[1..];
  }

  lemma SaveConserves<T>(l: Lane<T>)
    requires Conserved(l) && l.consumer.Saving?
    ensures Conserved(Saved(l))
  {}

  /** Every step of every goroutine keeps the invariant, and none of the handler's panics. */
  lemma StepKeepsInv<S, R>(kind: Kind, s: System<S, R>, a: Action<S, R>)
    requires Inv(kind, s) && Enabled(kind, s, a)
    ensures Inv(kind, Apply(kind, s, a)) && !Panics(s, a)
  {
    match a
    case Push(x) => PushConserves(s.statuses, x);
    case PushResponse(x) => PushConserves(s.responses, x);
    case TakeStatus => TakeConserves(s.statuses);
    case SaveStatus => SaveConserves(s.statuses);
    case TakeResponse => TakeConserves(s.responses);
    case SaveResponse => SaveConserves(s.responses);
    case _ =>
  }

  // ----- Runs -----

  /** The state after a run of enabled steps. */
  function After<S, R>(kind: Kind, s: System<S, R>, run: seq<Action<S, R>>): Option<System<S, R>>
    decreases |run|
  {
    if run == [] then Some(s)
    else if !Enabled(kind, s, run[0]) then None
    else After(kind, Apply(kind, s, run[0]), run[1..])
  }

  ghost predicate Reachable<S(!new), R(!new)>(kind: Kind, s: System<S, R>) {
    exists run :: After(kind, Init<S, R>(), run) == Some(s)
  }

  lemma {:induction false} RunKeepsInv<S, R>(kind: Kind, s: System<S, R>, run: seq<Action<S, R>>)
    requires Inv(kind, s) && After(kind, s, run).Some?
    ensures Inv(kind, After(kind, s, run).value)
    decreases |run|
  {
    if run != [] {
      StepKeepsInv(kind, s, run[0]);
      RunKeepsInv(kind, Apply(kind, s, run[0]), run[1..]);
    }
  }

  lemma AlwaysRight<S(!new), R(!new)>(kind: Kind, s: System<S, R>)
    requires Reachable(kind, s)
    ensures Inv(kind, s)
  {
    var run :| After(kind, Init<S, R>(), run) == Some(s);
    InitRight<S, R>(kind);
    RunKeepsInv(kind, Init<S, R>(), run);
  }

  /**
   In every reachable state what was handed to the save call is a prefix of what was pushed, in
   order and each once; what is missing is in flight or still queued.
   */
  lemma SavesArePrefix<S(!new), R(!new)>(kind: Kind, s: System<S, R>)
    requires Reachable(kind, s)
    ensures s.statuses.saved + InFlight(s.statuses) + s.statuses.queue == s.statuses.pushed
    ensures s.responses.saved + InFlight(s.responses) + s.responses.queue == s.responses.pushed
    ensures s.statuses.saved + InFlight(s.statuses) <= s.statuses.pushed
  {
    AlwaysRight(kind, s);
  }

  /** The handler's two close sends never wait and never meet a closed channel. */
  lemma CloseSendsNeverBlock<S(!new), R(!new)>(kind: Kind, s: System<S, R>)
    requires Reachable(kind, s)
    ensures s.handler.SendingClose? ==> Enabled(kind, s, SendClose) && !Panics(s, SendClose)
    ensures s.handler.SendingCloseResponse? ==> Enabled(kind, s, SendCloseResponse) && !Panics(s, SendCloseResponse)
    ensures s.handler.ClosingFirst? ==> !Panics(s, CloseFirst)
    ensures s.handler.ClosingSecond? ==> !Panics(s, CloseSecond)
  {
    AlwaysRight(kind, s);
  }

  /**
   As long as the decoder pushes, a push waits exactly for a queue of 200; both loops are alive, so it
   then waits for a step that can be taken.
   */
  lemma PushesAreDrained<S(!new), R(!new)>(kind: Kind, s: System<S, R>, x: S, y: R)
    requires Reachable(kind, s) && s.handler.Streaming?
    ensures Enabled(kind, s, Push(x)) <==> |s.statuses.queue| < 200
    ensures Enabled(kind, s, PushResponse(y)) <==> |s.responses.queue| < 200
    ensures |s.statuses.queue| >= 200 ==> Enabled(kind, s, TakeStatus) || Enabled(kind, s, SaveStatus)
    ensures |s.responses.queue| >= 200 ==> Enabled(kind, s, TakeResponse) || Enabled(kind, s, SaveResponse)
  {
    AlwaysRight(kind, s);
  }

  /**
   The context is cancelled once everything is closed, so it stops no loop that could not stop anyway:
   a loop can return by it exactly if it waits after the handler's end, and then its close channel lets it, too.
   */
  lemma CancelAddsNothing<S(!new), R(!new)>(kind: Kind, s: System<S, R>)
    requires Reachable(kind, s)
    ensures Enabled(kind, s, CancelProcess) <==> kind.Remote? && s.handler.Ended? && s.statuses.consumer.Waiting?
    ensures Enabled(kind, s, CancelResponse) <==> kind.Remote? && s.handler.Ended? && s.responses.consumer.Waiting?
    ensures Enabled(kind, s, CancelProcess) ==> Enabled(kind, s, StopProcess)
    ensures Enabled(kind, s, CancelResponse) ==> Enabled(kind, s, StopResponse)
  {
    AlwaysRight(kind, s);
  }

  // ----- Shutdown -----

  function Work<T>(l: Lane<T>): nat {
    match l.consumer
    case Waiting => 2 * |l.queue| + 1
    case Saving(_) => 2 * |l.queue| + 2
    case Stopped => 0
  }

  /** How many steps are left at most once the stream has ended. */
  function Measure<S, R>(s: System<S, R>): nat {
    Rank(s.handler) + Work(s.statuses) + Work(s.responses)
  }

  /** After the stream has ended, every step of any goroutine brings the shutdown closer. */
  lemma EveryStepCounts<S, R>(kind: Kind, s: System<S, R>, a: Action<S, R>)
    requires Inv(kind, s) && !s.handler.Streaming? && Enabled(kind, s, a)
    ensures Measure(Apply(kind, s, a)) < Measure(s) && !Apply(kind, s, a).handler.Streaming?
  {}

  predicate Over<S, R>(s: System<S, R>) {
    s.handler.Ended? && s.statuses.consumer.Stopped? && s.responses.consumer.Stopped?
  }

  /** And until all three have returned there always is such a step: nobody waits for ever. */
  lemma NoDeadlock<S, R>(kind: Kind, s: System<S, R>) returns (a: Action<S, R>)
    requires Inv(kind, s) && !s.handler.Streaming? && !Over(s)
    ensures Enabled(kind, s, a)
  {
    match s.handler
    case SendingClose => a := SendClose;
    case SendingCloseResponse => a := SendCloseResponse;
    case ClosingFirst => a := CloseFirst;
    case ClosingSecond => a := CloseSecond;
    case CleaningUp => a := CleanUp;
    case Ended =>
      if s.statuses.consumer.Saving? {
        a := SaveStatus;
      } else if s.statuses.consumer.Waiting? {
        a := StopProcess;
      } else if s.responses.consumer.Saving? {
        a := SaveResponse;
      } else {
        a := StopResponse;
      }
  }

  /** A run that cannot go on. */
  ghost predicate Maximal<S(!new), R(!new)>(kind: Kind, s: System<S, R>) {
    forall a :: !Enabled(kind, s, a)
  }

  /**
   Whatever the schedule, a run after the end of the stream has at most as many steps as the measure
   says, and when it cannot go on all three goroutines have returned.
   */
  lemma {:induction false} ShutdownTerminates<S(!new), R(!new)>(kind: Kind, s: System<S, R>, run: seq<Action<S, R>>)
    requires Inv(kind, s) && !s.handler.Streaming? && After(kind, s, run).Some?
    ensures |run| <= Measure(s) <= 2 * (2 * 200 + 2) + 5
    ensures Maximal(kind, After(kind, s, run).value) ==> Over(After(kind, s, run).value)
    decreases |run|
  {
    if run == [] {
      if !Over(s) {
        var a := NoDeadlock(kind, s);
      }
    } else {
      StepKeepsInv(kind, s, run[0]);
      EveryStepCounts(kind, s, run[0]);
      ShutdownTerminates(kind, Apply(kind, s, run[0]), run[1..]);
    }
  }

  /** When all is over, only the last pushes can be missing from what was saved, and no more than a queue holds. */
  lemma AtTheEnd<S(!new), R(!new)>(kind: Kind, s: System<S, R>)
    requires Reachable(kind, s) && Over(s)
    ensures s.statuses.pushed == s.statuses.saved + s.statuses.queue && |s.statuses.queue| <= 200
    ensures s.responses.pushed == s.responses.saved + s.responses.queue && |s.responses.queue| <= 200
  {
    AlwaysRight(kind, s);
  }

  /**
   That loss is real: once its channel can be received from, a waiting Process loop may return with
   any number of the queued statuses saved, from none to all of them.
   */
  lemma {:induction false} StopsAnywhere<S, R>(kind: Kind, s: System<S, R>, k: nat) returns (run: seq<Action<S, R>>)
    requires s.statuses.consumer.Waiting? && CanReceive(s.close) && k <= |s.statuses.queue|
    ensures After(kind, s, run).Some?
    ensures var t := After(kind, s, run).value.statuses;
      && t.consumer.Stopped? && t.pushed == s.statuses.pushed
      && t.saved == s.statuses.saved + s.statuses.queue[..k] && t.queue == s.statuses.queue[k..]
    ensures var t := After(kind, s, run).value;
      t.handler == s.handler && t.responses == s.responses && t.close.closed == s.close.closed && t.closeResponse == s.closeResponse
    decreases k
  {
    if k == 0 {
      run := [StopProcess];
      assert After(kind, s, run) == After(kind, Apply(kind, s, StopProcess), []);
    } else {
      var taken := Apply(kind, s, TakeStatus);
      var saved := Apply(kind, taken, SaveStatus);
      var rest := StopsAnywhere(kind, saved, k - 1);
      run := [TakeStatus] + ([SaveStatus] + rest);
      assert run[1..] == [SaveStatus] + rest && run[1..][1..] == rest;
      assert After(kind, s, run) == After(kind, taken, run[1..]) == After(kind, saved, rest);
      assert s.statuses.queue[..k] == [s.statuses.queue[0]] + s.statuses.queue[1..][..k - 1];
    }
  }

  /** The same for the Response loop, which in the JSON store waits on the other loop's close channel. */
  lemma {:induction false} ResponsesStopAnywhere<S, R>(kind: Kind, s: System<S, R>, k: nat) returns (run: seq<Action<S, R>>)
    requires s.responses.consumer.Waiting? && CanReceive(ResponseClose(kind, s)) && k <= |s.responses.queue|
    ensures After(kind, s, run).Some?
    ensures var t := After(kind, s, run).value;
      && t.handler == s.handler && t.statuses == s.statuses
      && t.responses.consumer.Stopped? && t.responses.pushed == s.responses.pushed
      && t.responses.saved == s.responses.saved + s.responses.queue[..k] && t.responses.queue == s.responses.queue[k..]
    decreases k
  {
    if k == 0 {
      run := [StopResponse];
      assert After(kind, s, run) == After(kind, Apply(kind, s, StopResponse), []);
    } else {
      var taken := Apply(kind, s, TakeResponse);
      var saved := Apply(kind, taken, SaveResponse);
      var rest := ResponsesStopAnywhere(kind, saved, k - 1);
      run := [TakeResponse] + ([SaveResponse] + rest);
      assert run[1..] == [SaveResponse] + rest && run[1..][1..] == rest;
      assert After(kind, s, run) == After(kind, taken, run[1..]) == After(kind, saved, rest);
      assert s.responses.queue[..k] == [s.responses.queue[0]] + s.responses.queue[1..][..k - 1];
    }
  }

  // ----- From one state to the end -----

  lemma {:induction false} AfterAppend<S, R>(kind: Kind, s: System<S, R>, a: seq<Action<S, R>>, b: seq<Action<S, R>>)
    requires After(kind, s, a).Some?
    ensures After(kind, s, a + b) == After(kind, After(kind, s, a).value, b)
    decreases |a|
  {
    if a == [] {
      assert [] + b == b;
    } else {
      assert (a + b)[1..] == a[1..] + b;
      AfterAppend(kind, Apply(kind, s, a[0]), a[1..], b);
    }
  }

  /** Loops that have returned leave their lane as it is, and an empty queue stays empty. */
  lemma LanesStay<S, R>(kind: Kind, s: System<S, R>, a: Action<S, R>)
    requires !s.handler.Streaming? && Enabled(kind, s, a)
    ensures var t := Apply(kind, s, a);
      && !t.handler.Streaming?
      && (s.statuses.consumer.Stopped? ==> t.statuses == s.statuses)
      && (s.responses.consumer.Stopped? ==> t.responses == s.responses)
      && (s.statuses.queue == [] ==> t.statuses.queue == [])
      && (s.responses.queue == [] ==> t.responses.queue == [])
  {}

  lemma {:induction false} RunLanesStay<S, R>(kind: Kind, s: System<S, R>, run: seq<Action<S, R>>)
    requires !s.handler.Streaming? && After(kind, s, run).Some?
    ensures var t := After(kind, s, run).value;
      && (s.statuses.consumer.Stopped? ==> t.statuses == s.statuses)
      && (s.responses.consumer.Stopped? ==> t.responses == s.responses)
      && (s.statuses.queue == [] ==> t.statuses.queue == [])
      && (s.responses.queue == [] ==> t.responses.queue == [])
    decreases |run|
  {
    if run != [] {
      LanesStay(kind, s, run[0]);
      RunLanesStay(kind, Apply(kind, s, run[0]), run[1..]);
    }
  }

  /** A run that takes `s` to the end, with all three goroutines returned. */
  ghost predicate Ends<S, R>(kind: Kind, s: System<S, R>, run: seq<Action<S, R>>) {
    After(kind, s, run).Some? && Over(After(kind, s, run).value)
  }

  /** From every state after the stream some run leads to the end. */
  lemma {:induction false} Finish<S, R>(kind: Kind, s: System<S, R>) returns (run: seq<Action<S, R>>)
    requires Inv(kind, s) && !s.handler.Streaming?
    ensures Ends(kind, s, run)
    decreases Measure(s)
  {
    run := [];
    if !Over(s) {
      var a := NoDeadlock(kind, s);
      StepKeepsInv(kind, s, a);
      EveryStepCounts(kind, s, a);
      run := Finish(kind, Apply(kind, s, a));
      assert ([a] + run)[1..] == run;
      run := [a] + run;
    }
  }

  /** A run that has come to `t` goes on to the end, and a loop that has returned in `t` saves no more. */
  lemma FinishFrom<S, R>(kind: Kind, s: System<S, R>, begun: seq<Action<S, R>>) returns (run: seq<Action<S, R>>)
    requires Inv(kind, s) && After(kind, s, begun).Some? && !After(kind, s, begun).value.handler.Streaming?
    ensures Ends(kind, s, run)
    ensures var t := After(kind, s, begun).value;
      && (t.statuses.consumer.Stopped? ==> After(kind, s, run).value.statuses == t.statuses)
      && (t.responses.consumer.Stopped? ==> After(kind, s, run).value.responses == t.responses)
  {
    var t := After(kind, s, begun).value;
    RunKeepsInv(kind, s, begun);
    var rest := Finish(kind, t);
    RunLanesStay(kind, t, rest);
    AfterAppend(kind, s, begun, rest);
    run := begun + rest;
  }

  lemma OneStep<S, R>(kind: Kind, s: System<S, R>, a: Action<S, R>, rest: seq<Action<S, R>>)
    requires Enabled(kind, s, a)
    ensures After(kind, s, [a] + rest) == After(kind, Apply(kind, s, a), rest)
  {
    assert ([a] + rest)[1..] == rest;
  }

  // ----- The close channel that the JSON store shares -----

  /** The Response loop has returned although the handler has sent the first close value only. */
  ghost predicate ReturnedEarly<S(!new), R(!new)>(kind: Kind, s: System<S, R>) {
    Reachable(kind, s) && s.handler.SendingCloseResponse? && s.responses.consumer.Stopped?
  }

  /** The first close value may be taken by the Response loop of a JSON store; its Process loop then waits for the channel to close. */
  lemma TakenByTheOther<S(!new), R(!new)>() returns (s: System<S, R>)
    ensures ReturnedEarly(Json, s) && s.statuses.consumer.Waiting? && !Enabled(Json, s, StopProcess)
  {
    var start := Init<S, R>();
    var ended := Apply(Json, start, EndStream);
    var sent := Apply(Json, ended, SendClose);
    s := Apply(Json, sent, StopResponse);
    var run: seq<Action<S, R>> := [EndStream] + ([SendClose] + ([StopResponse] + []));
    OneStep(Json, start, EndStream, [SendClose] + ([StopResponse] + []));
    OneStep(Json, ended, SendClose, [StopResponse] + []);
    OneStep(Json, sent, StopResponse, []);
    assert After(Json, start, run) == Some(s);
  }

  /** That happens with a JSON store, and with no other. */
  lemma ReturnedEarlyIff<S(!new), R(!new)>(kind: Kind)
    ensures (exists s: System<S, R> :: ReturnedEarly(kind, s)) <==> kind.Json?
  {
    if kind.Json? {
      var s := TakenByTheOther<S, R>();
    }
    forall s: System<S, R> | ReturnedEarly(kind, s)
      ensures kind.Json?
    {
      AlwaysRight(kind, s);
    }
  }

  // ----- Exactly when something is lost -----

  /** The Process loop returns at once, with its queue as it is. */
  lemma LoseStatuses<S, R>(kind: Kind, s: System<S, R>) returns (run: seq<Action<S, R>>)
    requires Inv(kind, s) && s.handler.SendingClose?
    ensures Ends(kind, s, run) && After(kind, s, run).value.statuses.queue == s.statuses.queue
  {
    var idle, begun := s, [];
    if s.statuses.consumer.Saving? {
      idle, begun := Apply(kind, s, SaveStatus), [SaveStatus] + [];
      OneStep(kind, s, SaveStatus, []);
    }
    var closing := Apply(kind, idle, SendClose);
    var steps: seq<Action<S, R>> := [SendClose] + ([StopProcess] + []);
    OneStep(kind, idle, SendClose, [StopProcess] + []);
    OneStep(kind, closing, StopProcess, []);
    AfterAppend(kind, s, begun, steps);
    run := FinishFrom(kind, s, begun + steps);
  }

  lemma LoseResponses<S, R>(kind: Kind, s: System<S, R>) returns (run: seq<Action<S, R>>)
    requires Inv(kind, s) && s.handler.SendingClose?
    ensures Ends(kind, s, run) && After(kind, s, run).value.responses.queue == s.responses.queue
  {
    var idle, begun := s, [];
    if s.responses.consumer.Saving? {
      idle, begun := Apply(kind, s, SaveResponse), [SaveResponse] + [];
      OneStep(kind, s, SaveResponse, []);
    }
    var closing := Apply(kind, idle, SendClose);
    var closed := Apply(kind, closing, SendCloseResponse);
    var steps: seq<Action<S, R>> := [SendClose] + ([SendCloseResponse] + ([StopResponse] + []));
    OneStep(kind, idle, SendClose, [SendCloseResponse] + ([StopResponse] + []));
    OneStep(kind, closing, SendCloseResponse, [StopResponse] + []);
    OneStep(kind, closed, StopResponse, []);
    AfterAppend(kind, s, begun, steps);
    run := FinishFrom(kind, s, begun + steps);
  }

  lemma KeptWhenEmpty<S, R>(kind: Kind, s: System<S, R>, run: seq<Action<S, R>>)
    requires Inv(kind, s) && !s.handler.Streaming? && Ends(kind, s, run)
    ensures var t := After(kind, s, run).value;
      && t.statuses.pushed == t.statuses.saved + t.statuses.queue && t.responses.pushed == t.responses.saved + t.responses.queue
      && (s.statuses.queue == [] ==> t.statuses.queue == []) && (s.responses.queue == [] ==> t.responses.queue == [])
  {
    RunKeepsInv(kind, s, run);
    RunLanesStay(kind, s, run);
  }

  /**
   When the stream has ended, every schedule saves every pushed status exactly if none is queued at
   that moment; the one being saved is not lost.
   */
  lemma NoStatusLostIff<S(!new), R(!new)>(kind: Kind, s: System<S, R>)
    requires Inv(kind, s) && s.handler.SendingClose?
    ensures (forall run :: Ends(kind, s, run) ==>
               After(kind, s, run).value.statuses.saved == After(kind, s, run).value.statuses.pushed)
       <==> s.statuses.queue == []
  {
    forall run | Ends(kind, s, run)
      ensures s.statuses.queue == [] ==> After(kind, s, run).value.statuses.saved == After(kind, s, run).value.statuses.pushed
    {
      KeptWhenEmpty(kind, s, run);
    }
    if s.statuses.queue != [] {
      var run := LoseStatuses(kind, s);
      KeptWhenEmpty(kind, s, run);
    }
  }

  /** The same for responses. */
  lemma NoResponseLostIff<S(!new), R(!new)>(kind: Kind, s: System<S, R>)
    requires Inv(kind, s) && s.handler.SendingClose?
    ensures (forall run :: Ends(kind, s, run) ==>
               After(kind, s, run).value.responses.saved == After(kind, s, run).value.responses.pushed)
       <==> s.responses.queue == []
  {
    forall run | Ends(kind, s, run)
      ensures s.responses.queue == [] ==> After(kind, s, run).value.responses.saved == After(kind, s, run).value.responses.pushed
    {
      KeptWhenEmpty(kind, s, run);
    }
    if s.responses.queue != [] {
      var run := LoseResponses(kind, s);
      KeptWhenEmpty(kind, s, run);
    }
  }

  lemma {:induction false} PushAll<S, R>(kind: Kind, s: System<S, R>, xs: seq<S>) returns (run: seq<Action<S, R>>)
    requires s.handler.Streaming? && |s.statuses.queue| + |xs| <= QUEUE_CAPACITY
    ensures After(kind, s, run) == Some(s.(statuses := Lane(s.statuses.pushed + xs, s.statuses.queue + xs, s.statuses.consumer, s.statuses.saved)))
    decreases |xs|
  {
    if xs == [] {
      run := [];
      assert s.statuses.pushed + [] == s.statuses.pushed && s.statuses.queue + [] == s.statuses.queue;
    } else {
      var rest := PushAll(kind, Apply(kind, s, Push(xs[0])), xs[1..]);
      OneStep(kind, s, Push(xs[0]), rest);
      run := [Push(xs[0])] + rest;
      assert xs == [xs[0]] + xs[1..];
      Regroup(s.statuses.pushed, [xs[0]], xs[1..]);
      Regroup(s.statuses.queue, [xs[0]], xs[1..]);
    }
  }

  lemma {:induction false} PushAllResponses<S, R>(kind: Kind, s: System<S, R>, ys: seq<R>) returns (run: seq<Action<S, R>>)
    requires s.handler.Streaming? && |s.responses.queue| + |ys| <= QUEUE_CAPACITY
    ensures After(kind, s, run)
         == Some(s.(responses := Lane(s.responses.pushed + ys, s.responses.queue + ys, s.responses.consumer, s.responses.saved)))
    decreases |ys|
  {
    if ys == [] {
      run := [];
      assert s.responses.pushed + [] == s.responses.pushed && s.responses.queue + [] == s.responses.queue;
    } else {
      var rest := PushAllResponses(kind, Apply(kind, s, PushResponse(ys[0])), ys[1..]);
      OneStep(kind, s, PushResponse(ys[0]), rest);
      run := [PushResponse(ys[0])] + rest;
      assert ys == [ys[0]] + ys[1..];
      Regroup(s.responses.pushed, [ys[0]], ys[1..]);
      Regroup(s.responses.queue, [ys[0]], ys[1..]);
    }
  }

  /** The handler goes through the whole handshake before any loop moves. */
  lemma CloseAll<S, R>(kind: Kind, s: System<S, R>) returns (run: seq<Action<S, R>>)
    requires Inv(kind, s) && s.handler.Streaming?
    ensures After(kind, s, run).Some?
    ensures var t := After(kind, s, run).value;
      && t.statuses == s.statuses && t.responses == s.responses && t.handler.CleaningUp? && t.close.closed && t.closeResponse.closed
  {
    var s1 := Apply(kind, s, EndStream);
    var s2 := Apply(kind, s1, SendClose);
    var s3 := Apply(kind, s2, SendCloseResponse);
    var s4 := Apply(kind, s3, CloseFirst);
    run := [EndStream] + ([SendClose] + ([SendCloseResponse] + ([CloseFirst] + ([CloseSecond] + []))));
    OneStep(kind, s, EndStream, [SendClose] + ([SendCloseResponse] + ([CloseFirst] + ([CloseSecond] + []))));
    OneStep(kind, s1, SendClose, [SendCloseResponse] + ([CloseFirst] + ([CloseSecond] + [])));
    OneStep(kind, s2, SendCloseResponse, [CloseFirst] + ([CloseSecond] + []));
    OneStep(kind, s3, CloseFirst, [CloseSecond] + []);
    OneStep(kind, s4, CloseSecond, []);
  }

  /** The stream ends, and each loop saves a prefix of its queue before it returns. */
  lemma LeaveAfter<S, R>(kind: Kind, s: System<S, R>, k: nat, l: nat) returns (run: seq<Action<S, R>>)
    requires Inv(kind, s) && s.handler.Streaming? && s.statuses.consumer.Waiting? && s.responses.consumer.Waiting?
    requires k <= |s.statuses.queue| && l <= |s.responses.queue|
    ensures After(kind, s, run).Some? && !After(kind, s, run).value.handler.Streaming?
    ensures var t := After(kind, s, run).value;
      && t.statuses.consumer.Stopped? && t.statuses.pushed == s.statuses.pushed
      && t.statuses.saved == s.statuses.saved + s.statuses.queue[..k]
      && t.responses.consumer.Stopped? && t.responses.pushed == s.responses.pushed
      && t.responses.saved == s.responses.saved + s.responses.queue[..l]
  {
    var close := CloseAll(kind, s);
    var closed := After(kind, s, close).value;
    var stops := StopsAnywhere(kind, closed, k);
    var stopped := After(kind, closed, stops).value;
    var others := ResponsesStopAnywhere(kind, stopped, l);
    AfterAppend(kind, closed, stops, others);
    AfterAppend(kind, s, close, stops + others);
    run := close + (stops + others);
  }

  /**
   From the start: a device pushes `xs` and `ys` and goes, and of the statuses exactly the first `k`
   and of the responses exactly the first `l` are ever saved, whatever `k` and `l` are.
   */
  lemma AnyPrefixMayBeAll<S, R>(kind: Kind, xs: seq<S>, k: nat, ys: seq<R>, l: nat) returns (run: seq<Action<S, R>>)
    requires k <= |xs| <= 200 && l <= |ys| <= 200
    ensures Ends(kind, Init<S, R>(), run)
    ensures var t := After(kind, Init<S, R>(), run).value;
      && t.statuses.pushed == xs && t.statuses.saved == xs[..k]
      && t.responses.pushed == ys && t.responses.saved == ys[..l]
  {
    var start := Init<S, R>();
    InitRight<S, R>(kind);
    var pushes := PushAll(kind, start, xs);
    var half := After(kind, start, pushes).value;
    var more := PushAllResponses(kind, half, ys);
    AfterAppend(kind, start, pushes, more);
    var full := After(kind, half, more).value;
    RunKeepsInv(kind, start, pushes + more);
    assert full.statuses.pushed == xs == full.statuses.queue && full.responses.pushed == ys == full.responses.queue;
    var leave := LeaveAfter(kind, full, k, l);
    AfterAppend(kind, start, pushes + more, leave);
    run := FinishFrom(kind, start, pushes + more + leave);
  }
}
