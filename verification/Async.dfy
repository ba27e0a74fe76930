/** The asynchronous context of hiredis outside subscriptions and monitoring: a queue of reply
    callbacks that runs user code, which may call back into the context. */
module Async {
  import opened Basics

  /** A registered callback; `fn` is false for a null function. */
  datatype Callback = Callback(fn: bool, privdata: nat)

  datatype Reply = Plain(text: string) | ErrorReply(text: string)

  /** What arrives: replies, and push messages meant for the push handler. */
  datatype Arrival = Answer(reply: Reply) | Push

  /** One run of a user function; no reply stands for the null reply. */
  datatype Call = Call(cb: Callback, reply: Option<Reply>)

  /** What user code does with the context, from outside or from inside a callback. */
  datatype Action = Command(cb: Callback) | Disconnect | Free

  datatype Connecting = Failed | Pending | Done

  datatype Input = ReadFailed | Arrived(arrivals: seq<Arrival>, broken: bool)

  datatype Output = WriteFailed | Partial | Flushed

  datatype Event = Readable(connecting: Connecting, input: Input) | Writable(connecting: Connecting, output: Output)
    | Timeout | Outside(action: Action)

  // ----- what a run should do

  /** Each command's callback with the reply of the same rank, or the null reply once replies ran out. */
  function Settled(accepted: seq<Callback>, received: seq<Reply>): (calls: seq<Call>)
    ensures |calls| == |accepted|
  {
    seq(|accepted|, i requires 0 <= i < |accepted| =>
      Call(accepted[i], if i < |received| then Some(received[i]) else None))
  }

  /** The calls user code sees: those with a function. */
  function Seen(calls: seq<Call>): seq<Call> {
    if calls == [] then []
    else Seen(calls[..|calls| - 1]) + (if calls[|calls| - 1].cb.fn then [calls[|calls| - 1]] else [])
  }

  /** The replies among what arrives. */
  function Answers(arrivals: seq<Arrival>): seq<Reply> {
    if arrivals == [] then []
    else Answers(arrivals[..|arrivals| - 1])
         + (if arrivals[|arrivals| - 1].Answer? then [arrivals[|arrivals| - 1].reply] else [])
  }

  lemma SeenNext(calls: seq<Call>, call: Call)
    ensures Seen(calls + [call]) == Seen(calls) + (if call.cb.fn then [call] else [])
  {
    assert (calls + [call])[..|calls|] == calls;
  }

  lemma AnswersNext(arrivals: seq<Arrival>, i: nat)
    requires i < |arrivals|
    ensures Answers(arrivals[..i + 1]) == Answers(arrivals[..i]) + (if arrivals[i].Answer? then [arrivals[i].reply] else [])
  {
    assert arrivals[..i + 1][..i] == arrivals[..i];
  }

  lemma {:induction false} AnswersPrefix(arrivals: seq<Arrival>, i: nat)
    requires i <= |arrivals|
    ensures Answers(arrivals[..i]) <= Answers(arrivals)
    decreases |arrivals| - i
  {
    if i < |arrivals| {
      AnswersNext(arrivals, i);
      AnswersPrefix(arrivals, i + 1);
    } else {
      assert arrivals[..i] == arrivals;
    }
  }

  lemma SettledNext(accepted: seq<Callback>, k: nat, received: seq<Reply>)
    requires k < |accepted|
    ensures Settled(accepted[..k + 1], received) == Settled(accepted[..k], received)
            + [Call(accepted[k], if k < |received| then Some(received[k]) else None)]
  {
  }

  lemma SettledReply(accepted: seq<Callback>, received: seq<Reply>, reply: Reply)
    requires |accepted| == |received|
    ensures Settled(accepted, received + [reply]) == Settled(accepted, received)
  {
  }

  // ----- histories

  /** What happens to a context, in order: an event comes in, user code calls the context, a reply is taken off
      the reader, a callback comes off the queue, the connection is given up because of an error. */
  datatype Note = Handling(event: Event) | Asked(action: Action) | Took(reply: Reply) | Ran(call: Call) | Lost

  function Init(h: seq<Note>): seq<Note>
    requires h != []
  {
    h[..|h| - 1]
  }

  function Last(h: seq<Note>): Note
    requires h != []
  {
    h[|h| - 1]
  }

  function Events(h: seq<Note>): seq<Event> {
    if h == [] then [] else Events(Init(h)) + (if Last(h).Handling? then [Last(h).event] else [])
  }

  function Tooks(h: seq<Note>): seq<Reply> {
    if h == [] then [] else Tooks(Init(h)) + (if Last(h).Took? then [Last(h).reply] else [])
  }

  function Runs(h: seq<Note>): seq<Call> {
    if h == [] then [] else Runs(Init(h)) + (if Last(h).Ran? then [Last(h).call] else [])
  }

  /** Teardown has begun: user code asked for it or the connection was lost. */
  predicate Closed(h: seq<Note>) {
    Lost in h || Asked(Disconnect) in h || Asked(Free) in h
  }

  /** The commands user code issued before teardown began. */
  function Taken(h: seq<Note>): seq<Callback> {
    if h == [] then []
    else Taken(Init(h)) + (if Last(h).Asked? && Last(h).action.Command? && !Closed(Init(h)) then [Last(h).action.cb] else [])
  }

  /** The event being handled, the replies taken and callbacks run before it, and whether the connection is up. */
  datatype Moment = Moment(event: Event, replies: nat, runs: nat, connected: bool)

  predicate Connects(event: Event) {
    (event.Readable? || event.Writable?) && event.connecting.Done?
  }

  function Now(h: seq<Note>): Moment {
    if h == [] then Moment(Outside(Free), 0, 0, false)
    else match Last(h)
      case Handling(event) => Moment(event, |Tooks(Init(h))|, |Runs(Init(h))|, Now(Init(h)).connected || Connects(event))
      case _ => Now(Init(h))
  }

  /** The next reply the reader holds. */
  function NextReply(h: seq<Note>): Option<Reply> {
    var m := Now(h);
    if !m.event.Readable? || m.event.input.ReadFailed? || !m.connected then None else
    var incoming, k := Answers(m.event.input.arrivals), |Tooks(h)| - m.replies;
    if 0 <= k < |incoming| then Some(incoming[k]) else None
  }

  /** What the n-th run of a user function does. */
  function Entry(script: seq<seq<Action>>, n: nat): seq<Action> {
    if n < |script| then script[n] else []
  }

  /** What is left of the script after n runs. */
  function Left(script: seq<seq<Action>>, n: nat): seq<seq<Action>> {
    if n < |script| then script[n..] else []
  }

  lemma LeftNext(script: seq<seq<Action>>, n: nat)
    ensures if Left(script, n) == [] then Entry(script, n) == [] && Left(script, n + 1) == []
            else Left(script, n)[0] == Entry(script, n) && Left(script, n)[1..] == Left(script, n + 1)
  {
  }

  /** The calls the event or the user function at work makes, and those it made so far. */
  function Owed(script: seq<seq<Action>>, h: seq<Note>): seq<Action> {
    if h == [] then []
    else match Last(h)
      case Handling(event) => if event.Outside? then [event.action] else []
      case Ran(call) => if call.cb.fn then Entry(script, |Seen(Runs(Init(h)))|) else []
      case _ => Owed(script, Init(h))
  }

  function Turn(h: seq<Note>): seq<Action> {
    if h == [] then []
    else match Last(h)
      case Handling(_) => []
      case Ran(_) => []
      case Asked(action) => Turn(Init(h)) + [action]
      case _ => Turn(Init(h))
  }

  /** The event at hand gives a reason to give the connection up. */
  predicate Failing(h: seq<Note>) {
    var m := Now(h);
    match m.event
    case Readable(connecting, input) =>
      if !m.connected then connecting.Failed?
      else
        || input.ReadFailed?
        || (if NextReply(h).Some? then NextReply(h).value.ErrorReply? && |Runs(h)| == |Taken(h)| else input.broken)
    case Writable(connecting, output) =>
      if m.connected then output.WriteFailed? else connecting.Failed?
    case Timeout => !m.connected || |Runs(h)| > m.runs
    case Outside(_) => false
  }

  /** The event at hand has had its effect: all replies are taken unless the connection is lost or a free was
      asked for, failures have ended the connection, a timeout has left no callback owed. */
  predicate Finished(h: seq<Note>) {
    var m := Now(h);
    match m.event
    case Readable(connecting, input) =>
      if !m.connected then connecting.Failed? ==> Lost in h
      else Lost in h || Asked(Free) in h || (input.Arrived? && !input.broken && NextReply(h).None?)
    case Writable(connecting, _) => !m.connected && connecting.Failed? ==> Lost in h
    case Timeout => |Runs(h)| == |Taken(h)| && (!m.connected || |Runs(h)| > m.runs ==> Lost in h)
    case Outside(_) => true
  }

  /** Callbacks run with the null reply. */
  predicate Orphaned(h: seq<Note>) {
    Now(h).event.Timeout? || Lost in h || Asked(Free) in h
  }

  /** What may come after a history. */
  predicate Follows(script: seq<seq<Action>>, h: seq<Note>, note: Note) {
    if note.Asked? then
      |Turn(h)| < |Owed(script, h)| && note.action == Owed(script, h)[|Turn(h)|]
    else
      && Turn(h) == Owed(script, h)
      && match note
         case Handling(_) => Finished(h)
         case Took(reply) => NextReply(h) == Some(reply) && Lost !in h && Asked(Free) !in h
         case Ran(call) => call.reply.None? ==> Orphaned(h)
         case Lost => Failing(h)
  }

  predicate Proper(script: seq<seq<Action>>, h: seq<Note>) {
    h == [] || (Proper(script, Init(h)) && Follows(script, Init(h), Last(h)))
  }

  lemma TellLists(h: seq<Note>, note: Note)
    ensures var t := h + [note];
            && Events(t) == (if note.Handling? then Events(h) + [note.event] else Events(h))
            && Tooks(t) == (if note.Took? then Tooks(h) + [note.reply] else Tooks(h))
            && Runs(t) == (if note.Ran? then Runs(h) + [note.call] else Runs(h))
            && Taken(t) == (if note.Asked? && note.action.Command? && !Closed(h) then Taken(h) + [note.action.cb] else Taken(h))
  {
    hide Closed;
    var t := h + [note];
    assert Init(t) == h && Last(t) == note;
  }

  lemma TellState(script: seq<seq<Action>>, h: seq<Note>, note: Note)
    ensures var t := h + [note];
            && Now(t) == (if note.Handling? then Moment(note.event, |Tooks(h)|, |Runs(h)|, Now(h).connected || Connects(note.event)) else Now(h))
            && Proper(script, t) == (Proper(script, h) && Follows(script, h, note))
  {
    hide Follows, Tooks, Runs;
    var t := h + [note];
    assert Init(t) == h && Last(t) == note;
  }

  /** What one more note changes. */
  lemma Tell(script: seq<seq<Action>>, h: seq<Note>, note: Note)
    ensures var t := h + [note];
            && Events(t) == (if note.Handling? then Events(h) + [note.event] else Events(h))
            && Tooks(t) == (if note.Took? then Tooks(h) + [note.reply] else Tooks(h))
            && Runs(t) == (if note.Ran? then Runs(h) + [note.call] else Runs(h))
            && Taken(t) == (if note.Asked? && note.action.Command? && !Closed(h) then Taken(h) + [note.action.cb] else Taken(h))
            && Closed(t) == (Closed(h) || note == Lost || (note.Asked? && !note.action.Command?))
            && Now(t) == (if note.Handling? then Moment(note.event, |Tooks(h)|, |Runs(h)|, Now(h).connected || Connects(note.event)) else Now(h))
            && (Orphaned(h) && !note.Handling? ==> Orphaned(t))
            && Proper(script, t) == (Proper(script, h) && Follows(script, h, note))
  {
    hide Follows, Events, Tooks, Runs, Taken, Now, Proper;
    TellLists(h, note);
    TellState(script, h, note);
  }

  lemma TellTurn(script: seq<seq<Action>>, h: seq<Note>, note: Note)
    ensures var t := h + [note];
            && Owed(script, t) == (match note
                 case Handling(event) => (if event.Outside? then [event.action] else [])
                 case Ran(call) => (if call.cb.fn then Entry(script, |Seen(Runs(h))|) else [])
                 case _ => Owed(script, h))
            && Turn(t) == (if note.Handling? || note.Ran? then [] else if note.Asked? then Turn(h) + [note.action] else Turn(h))
  {
    var t := h + [note];
    assert Init(t) == h && Last(t) == note;
  }

  lemma Started(h: seq<Note>)
    requires h != [] && Last(h).Ran?
    ensures h == Init(h) + [Last(h)] && Runs(h) == Runs(Init(h)) + [Last(h).call]
  {
  }

  lemma ReplyNow(h: seq<Note>)
    requires NextReply(h).Some?
    ensures Now(h).event.Readable? && Now(h).connected && Now(h).event.input.Arrived?
  {
  }

  /** The reply behind those taken since the event came in. */
  lemma NextIs(h: seq<Note>, before: seq<Reply>, arrivals: seq<Arrival>, i: nat)
    requires Now(h).event.Readable? && Now(h).event.input.Arrived? && Now(h).event.input.arrivals == arrivals && Now(h).connected
    requires i < |arrivals| && arrivals[i].Answer? && Now(h).replies == |before| && Tooks(h) == before + Answers(arrivals[..i])
    ensures NextReply(h) == Some(arrivals[i].reply)
    ensures Answers(arrivals[..i + 1]) == Answers(arrivals[..i]) + [arrivals[i].reply]
  {
    AnswersNext(arrivals, i);
    AnswersPrefix(arrivals, i + 1);
    assert Answers(arrivals)[|Answers(arrivals[..i])|] == arrivals[i].reply;
  }

  lemma NoneNext(h: seq<Note>, arrivals: seq<Arrival>)
    requires Now(h).event.Readable? && Now(h).event.input.Arrived? && Now(h).event.input.arrivals == arrivals
    requires |Tooks(h)| == Now(h).replies + |Answers(arrivals)|
    ensures NextReply(h).None?
  {
  }

  lemma MayAsk(script: seq<seq<Action>>, h: seq<Note>, action: Action)
    requires |Turn(h)| < |Owed(script, h)| && action == Owed(script, h)[|Turn(h)|]
    ensures Follows(script, h, Asked(action))
  {
  }

  /** A callback comes off the queue, with the reply taken for it. */
  ghost function Shifted(h: seq<Note>, reply: Option<Reply>, cb: Callback): seq<Note> {
    (if reply.Some? then h + [Took(reply.value)] else h) + [Ran(Call(cb, reply))]
  }

  lemma TellShift(script: seq<seq<Action>>, h: seq<Note>, reply: Option<Reply>, cb: Callback)
    requires Turn(h) == Owed(script, h)
    requires if reply.Some? then NextReply(h) == reply && Lost !in h && Asked(Free) !in h else Orphaned(h)
    ensures var t := Shifted(h, reply, cb);
            && h <= t && t != [] && Last(t) == Ran(Call(cb, reply)) && Runs(Init(t)) == Runs(h)
            && (Proper(script, h) ==> Proper(script, t)) && Taken(t) == Taken(h) && Runs(t) == Runs(h) + [Call(cb, reply)]
            && Tooks(t) == Tooks(h) + (if reply.Some? then [reply.value] else [])
            && Closed(t) == Closed(h) && Now(t) == Now(h) && Events(t) == Events(h) && (Orphaned(h) ==> Orphaned(t))
            && (Lost in t <==> Lost in h) && (Asked(Free) in t <==> Asked(Free) in h) && (Asked(Disconnect) in t <==> Asked(Disconnect) in h)
  {
    hide Proper, Taken, Tooks, Runs, Seen, Now, Events, Turn, Owed, NextReply, Finished, Failing;
    var m := if reply.Some? then h + [Took(reply.value)] else h;
    if reply.Some? {
      Tell(script, h, Took(reply.value));
      TellTurn(script, h, Took(reply.value));
    }
    Tell(script, m, Ran(Call(cb, reply)));
    assert Init(m + [Ran(Call(cb, reply))]) == m;
  }

  // ----- what proper histories have in common

  /** A history only adds to what was accepted, received and run before, and nothing is accepted once
      teardown has begun. */
  lemma {:induction false} Grows(h: seq<Note>, k: nat)
    requires k <= |h|
    ensures Taken(h[..k]) <= Taken(h) && Tooks(h[..k]) <= Tooks(h) && Runs(h[..k]) <= Runs(h) && Events(h[..k]) <= Events(h)
    ensures Closed(h[..k]) ==> Taken(h) == Taken(h[..k])
    decreases |h|
  {
    if k == |h| {
      assert h[..k] == h;
    } else {
      var t := Init(h);
      assert t[..k] == h[..k] && t + [Last(h)] == h;
      Grows(t, k);
      TellLists(t, Last(h));
      if Closed(h[..k]) { ClosedStays(t, k); }
    }
  }

  lemma ClosedStays(h: seq<Note>, k: nat)
    requires k <= |h| && Closed(h[..k])
    ensures Closed(h)
  {
    assert forall note :: note in h[..k] ==> note in h;
  }

  predicate Up(events: seq<Event>) {
    events != [] && (Up(events[..|events| - 1]) || Connects(events[|events| - 1]))
  }

  /** The replies of an event that comes in on a connection. */
  function Brought(event: Event, connected: bool): seq<Reply> {
    if connected && event.Readable? && event.input.Arrived? then Answers(event.input.arrivals) else []
  }

  /** All replies that arrive once the connection is up. */
  function Incoming(events: seq<Event>): seq<Reply> {
    if events == [] then []
    else Incoming(events[..|events| - 1]) + Brought(events[|events| - 1], Up(events))
  }

  lemma IncomingNext(events: seq<Event>, event: Event)
    ensures Up(events + [event]) == (Up(events) || Connects(event))
    ensures Incoming(events + [event]) == Incoming(events) + Brought(event, Up(events + [event]))
  {
    assert (events + [event])[..|events|] == events;
  }

  /** While nothing is lost and no free was asked for, the replies taken are those of the earlier events and
      some of this one's. */
  ghost predicate InStep(h: seq<Note>) {
    var m, all := Now(h), Incoming(Events(h));
    && m.connected == Up(Events(h)) && Tooks(h) <= all
    && (Lost !in h && Asked(Free) !in h ==>
          m.replies <= |Tooks(h)| && m.replies <= |all| && all[m.replies..] == Brought(m.event, m.connected))
  }

  lemma InStepFinished(h: seq<Note>)
    requires InStep(h) && Finished(h) && Lost !in h && Asked(Free) !in h
    ensures Tooks(h) == Incoming(Events(h))
  {
  }

  lemma InStepNext(script: seq<seq<Action>>, h: seq<Note>, note: Note)
    requires InStep(h) && Follows(script, h, note)
    ensures InStep(h + [note])
  {
    hide Taken, Runs, Owed, Turn, Failing, Up, Incoming, Events, Tooks, Now;
    var t := h + [note];
    Tell(script, h, note);
    if note.Handling? {
      IncomingNext(Events(h), note.event);
      if Lost !in h && Asked(Free) !in h {
        InStepFinished(h);
        assert Incoming(Events(t))[|Tooks(h)|..] == Brought(note.event, Up(Events(t)));
      }
    } else if note.Took? {
      var m, all := Now(h), Incoming(Events(h));
      var k := |Tooks(h)| - m.replies;
      assert all[m.replies..][k] == all[|Tooks(h)|];
    }
  }

  /** The replies received are, in order, the ones that arrived on the connection, and all of them while
      nothing is lost and no free was asked for. */
  lemma {:induction false} ReceivedArrived(script: seq<seq<Action>>, h: seq<Note>)
    requires Proper(script, h)
    ensures Tooks(h) <= Incoming(Events(h))
    ensures Finished(h) && Lost !in h && Asked(Free) !in h ==> Tooks(h) == Incoming(Events(h))
  {
    AllInStep(script, h);
    if Finished(h) && Lost !in h && Asked(Free) !in h { InStepFinished(h); }
  }

  lemma {:induction false} AllInStep(script: seq<seq<Action>>, h: seq<Note>)
    requires Proper(script, h)
    ensures InStep(h)
  {
    if h != [] {
      assert h == Init(h) + [Last(h)];
      AllInStep(script, Init(h));
      InStepNext(script, Init(h), Last(h));
    }
  }

  // ----- the context

  class Context {
    var connected: bool
    var disconnecting: bool
    var freeing: bool
    var inCallback: bool
    var noAutoFree: bool
    var err: bool
    var unwritten: bool
    var replies: seq<Callback>
    /** What the user functions do, one entry for each run still to come. */
    var script: seq<seq<Action>>
    /** The runs of user functions so far. */
    var log: seq<Call>
    /** The commands accepted and the replies taken off the reader so far. */
    var accepted: seq<Callback>
    var received: seq<Reply>
    /** The memory is gone, or an assertion stopped the program. */
    var freed: bool
    var aborted: bool

    /** The script and the option the context began with, and what has happened since. */
    ghost const given: seq<seq<Action>>
    ghost const kept: bool
    ghost var history: seq<Note>

    constructor (noAutoFree: bool, script: seq<seq<Action>>)
      ensures Resting() && Live() && given == this.script == script && kept == this.noAutoFree == noAutoFree
      ensures log == [] && accepted == [] && received == [] && history == [] && !Closing()
    {
      connected, disconnecting, freeing, inCallback, err, unwritten := false, false, false, false, false, false;
      this.noAutoFree, this.script := noAutoFree, script;
      replies, log, freed, aborted := [], [], false, false;
      accepted, received := [], [];
      given, kept, history := script, noAutoFree, [];
    }

    ghost predicate Live()
      reads this
    {
      !freed && !aborted
    }

    predicate Closing()
      reads `disconnecting, `freeing
    {
      disconnecting || freeing
    }

    /** How many commands have had their callback run. */
    ghost function Run(): int
      reads `accepted, `replies
    {
      |accepted| - |replies|
    }

    /** The fields are what the history says. */
    ghost predicate Told()
      reads `disconnecting, `freeing, `noAutoFree, `err, `accepted, `received, `history
    {
      && Proper(given, history) && accepted == Taken(history) && received == Tooks(history)
      && Closing() == Closed(history) && freeing == (Asked(Free) in history)
      && noAutoFree == (kept && Asked(Disconnect) !in history) && (Lost in history ==> err)
    }

    /** Commands whose callback is still owed are the last ones accepted. Those before had their own reply
        or, from some command on and only after an error or in teardown, the null reply. */
    ghost predicate Queued()
      reads `disconnecting, `freeing, `noAutoFree, `err, `accepted, `received, `history, `replies, `freed, `aborted
    {
      && Told()
      && |replies| <= |accepted| && replies == accepted[Run()..]
      && Runs(history) == Settled(accepted[..Run()], received)
      && |received| <= Run() && (|received| < Run() ==> err || freeing)
      && (freed ==> replies == [] && Closing() && (freeing || !noAutoFree))
      && (aborted ==> replies == [] && |received| == |accepted| && NextReply(history).Some? && NextReply(history).value.Plain?)
    }

    ghost predicate Valid()
      reads this
    {
      Queued() && log == Seen(Runs(history)) && script == Left(given, |log|)
    }

    /** The event or user function at work has made all its calls. */
    ghost predicate Quiet()
      reads this
    {
      Turn(history) == Owed(given, history)
    }

    /** Outside callbacks: a free asked for in a callback is still outstanding only after an error, which has
        ended the connection. */
    ghost predicate Idle()
      reads this
    {
      !inCallback && (freeing && !freed ==> err) && (err ==> Lost in history)
    }

    /** Between events. */
    ghost predicate Resting()
      reads this
    {
      Valid() && Quiet() && Idle() && connected == Now(history).connected && (aborted || Finished(history))
    }

    /** The event has come in and nothing was done about it yet. */
    ghost predicate Starting(event: Event)
      reads this
    {
      && Valid() && Idle() && Turn(history) == [] && Owed(given, history) == (if event.Outside? then [event.action] else [])
      && Now(history) == Moment(event, |received|, Run(), connected || Connects(event))
    }

    /** What no step takes back. */
    twostate predicate Onward()
      reads this
    {
      && old(history) <= history
      && (old(Closing()) ==> Closing() && accepted == old(accepted))
      && (old(disconnecting) ==> disconnecting) && (old(freeing) ==> freeing) && (old(err) ==> err)
      && |script| <= |old(script)|
      && Now(history) == Now(old(history)) && Events(history) == Events(old(history))
      && (old(Lost in history) ==> Lost in history) && (old(Orphaned(history)) ==> Orphaned(history))
    }

    /** `__redisAsyncCommand` for a command other than subscribe, unsubscribe and monitor. */
    method AsyncCommand(cb: Callback) returns (ok: bool)
      requires Valid() && Live() && Follows(given, history, Asked(Command(cb)))
      modifies this`replies, this`unwritten, this`accepted, this`history
      ensures Valid() && Onward() && history == old(history) + [Asked(Command(cb))]
      ensures (ok <==> !Closing()) && Run() == old(Run())
      ensures accepted == old(accepted) + (if ok then [cb] else [])
    {
      hide Proper, Follows, Taken, Tooks, Runs, Seen, Settled, Now, Closed, NextReply, Turn, Owed, Events;
      Tell(given, history, Asked(Command(cb)));
      history := history + [Asked(Command(cb))];
      if Closing() { return false; }
      replies := replies + [cb];
      accepted := accepted + [cb];
      assert accepted[..Run()] == old(accepted[..Run()]);
      unwritten := true;
      return true;
    }

    /** A callback is off the queue and has not run yet. */
    ghost predicate Due(cb: Callback, reply: Option<Reply>)
      reads this
    {
      && Queued() && history != [] && Last(history) == Ran(Call(cb, reply))
      && log == Seen(Runs(Init(history))) && script == Left(given, |log|)
    }

    /** Takes the oldest callback off the queue; it is then due with the reply or, without one, null. */
    method Shift(reply: Option<Reply>) returns (cb: Callback)
      requires Valid() && Live() && Quiet() && replies != []
      requires if reply.Some? then |received| == Run() && NextReply(history) == reply && !err && !freeing else (err || freeing) && Orphaned(history)
      modifies this`replies, this`received, this`history
      ensures Due(cb, reply) && Onward() && Run() == old(Run()) + 1
      ensures replies == old(replies)[1..] && cb == old(replies)[0]
      ensures received == old(received) + (if reply.Some? then [reply.value] else [])
    {
      hide Proper, Taken, Tooks, Runs, Seen, Settled, Now, NextReply, Turn, Owed, Events;
      hide Follows, Closed, Finished, Failing, Left, Orphaned, Shifted;
      cb := replies[0];
      ghost var k := Run();
      assert cb == accepted[k];
      replies := replies[1..];
      TellShift(given, history, reply, cb);
      history := Shifted(history, reply, cb);
      if reply.Some? {
        SettledReply(accepted[..k], received, reply.value);
        received := received + [reply.value];
      }
      SettledNext(accepted, k, received);
    }

    /** `__redisRunCallback`: the user function may call the context, but starts no other callback. */
    method RunCallback(cb: Callback, reply: Option<Reply>)
      requires Due(cb, reply) && Live() && !inCallback
      modifies this
      ensures Valid() && Quiet() && Live() && !inCallback && Onward() && Run() == old(Run())
      ensures err == old(err) && received == old(received) && connected == old(connected)
      ensures script == if cb.fn && old(script) != [] then old(script)[1..] else old(script)
      ensures script == old(script) ==> replies == old(replies)
      ensures !cb.fn ==> freeing == old(freeing)
      decreases |script|, 0
    {
      hide Proper, Taken, Tooks, Runs, Seen, Settled, Now, NextReply, Turn, Owed, Events;
      hide Follows, Closed, Finished, Failing, Left, Entry, Orphaned, Queued, Told, Run, Closing;
      LeftNext(given, |log|);
      Started(history);
      SeenNext(Runs(Init(history)), Last(history).call);
      TellTurn(given, Init(history), Last(history));
      if !cb.fn { return; }
      inCallback := true;
      log := log + [Call(cb, reply)];
      if script != [] {
        var actions := script[0];
        script := script[1..];
        RunActions(actions);
      }
      inCallback := false;
    }

    /** What a user function does. */
    method RunActions(actions: seq<Action>)
      requires Valid() && Live() && inCallback && Turn(history) == [] && Owed(given, history) == actions
      modifies this
      ensures Valid() && Quiet() && Live() && inCallback && Onward() && Run() == old(Run()) && script == old(script)
      ensures err == old(err) && received == old(received) && connected == old(connected) && log == old(log)
      decreases |script|, 6
    {
      hide Now, Events, Turn, Owed, Follows, Valid, Orphaned;
      var i := 0;
      while i < |actions|
        invariant 0 <= i <= |actions| && Turn(history) == actions[..i] && Owed(given, history) == actions
        invariant Valid() && Live() && inCallback && Onward() && Run() == old(Run()) && script == old(script)
        invariant err == old(err) && received == old(received) && connected == old(connected) && log == old(log)
      {
        MayAsk(given, history, actions[i]);
        TellTurn(given, history, Asked(actions[i]));
        Perform(actions[i]);
        i := i + 1;
      }
    }

    /** User code calling the context. Inside a callback nothing is torn down yet. */
    method Perform(action: Action)
      requires Valid() && Live() && Follows(given, history, Asked(action))
      requires inCallback || (Idle() && Turn(history) == [] && Owed(given, history) == [action])
      modifies this
      ensures Onward() && !aborted && Valid() && connected == old(connected)
      ensures old(inCallback) ==> inCallback && !freed && history == old(history) + [Asked(action)] && script == old(script)
      ensures old(inCallback) ==> log == old(log) && err == old(err) && received == old(received) && Run() == old(Run())
      ensures !old(inCallback) ==> Quiet() && Idle()
      ensures accepted == old(accepted) + (if action.Command? && !old(Closing()) then [action.cb] else [])
      ensures (action.Free? ==> freeing && (!old(inCallback) ==> freed)) && (action.Disconnect? ==> disconnecting)
      decreases |script|, 5
    {
      hide Proper, Taken, Tooks, Runs, Seen, Settled, Now, NextReply, Turn, Owed, Events;
      TellTurn(given, history, Asked(action));
      match action
      case Command(cb) => var _ := AsyncCommand(cb);
      case Disconnect => AsyncDisconnect();
      case Free => AsyncFree();
    }

    /** `redisAsyncFree`. */
    method AsyncFree()
      requires Valid() && Live() && Follows(given, history, Asked(Free))
      requires inCallback || (Turn(history) == [] && Owed(given, history) == [Free])
      modifies this
      ensures Onward() && !aborted && Valid() && freeing && inCallback == old(inCallback) && connected == old(connected)
      ensures (freed <==> !old(inCallback)) && accepted == old(accepted)
      ensures old(inCallback) ==> history == old(history) + [Asked(Free)] && script == old(script)
      ensures old(inCallback) ==> log == old(log) && err == old(err) && received == old(received) && Run() == old(Run())
      ensures !old(inCallback) ==> Quiet() && err == old(err)
      decreases |script|, 4
    {
      hide Proper, Taken, Tooks, Runs, Seen, Settled, Now, NextReply, Turn, Owed, Events;
      Tell(given, history, Asked(Free));
      TellTurn(given, history, Asked(Free));
      history := history + [Asked(Free)];
      freeing := true;
      if !inCallback { FreeNow(); }
    }

    /** `redisAsyncDisconnect`. */
    method AsyncDisconnect()
      requires Valid() && Live() && Follows(given, history, Asked(Disconnect))
      requires inCallback || (Idle() && Turn(history) == [] && Owed(given, history) == [Disconnect])
      modifies this
      ensures Onward() && !aborted && Valid() && disconnecting && accepted == old(accepted) && connected == old(connected)
      ensures old(inCallback) ==> inCallback && !freed && history == old(history) + [Asked(Disconnect)] && script == old(script)
      ensures old(inCallback) ==> log == old(log) && err == old(err) && received == old(received) && Run() == old(Run())
      ensures !old(inCallback) ==> Quiet() && Idle() && (old(replies) == [] ==> freed)
      decreases |script|, 4
    {
      hide Proper, Taken, Tooks, Runs, Seen, Settled, Now, NextReply, Turn, Owed, Events;
      Tell(given, history, Asked(Disconnect));
      TellTurn(given, history, Asked(Disconnect));
      history := history + [Asked(Disconnect)];
      disconnecting := true;
      noAutoFree := false;
      if !inCallback && replies == [] { DisconnectNow(); }
    }

    /** `__redisAsyncDisconnect`: without an error the queue is empty, as the source asserts. */
    method DisconnectNow()
      requires Valid() && Quiet() && Live() && !inCallback && (freeing ==> err)
      requires if err then Lost in history || Failing(history) else replies == [] && disconnecting
      modifies this
      ensures Onward() && !aborted && Valid() && Quiet() && Idle() && disconnecting
      ensures (freed <==> !old(noAutoFree)) && received == old(received) && accepted == old(accepted)
      ensures (old(replies) == [] ==> replies == [] && Run() == old(Run())) && err == old(err) && connected == old(connected)
      ensures old(noAutoFree) ==> noAutoFree
      decreases |script|, 3
    {
      hide Proper, Taken, Tooks, Runs, Seen, Settled, Now, NextReply, Turn, Owed, Events;
      if err {
        if Lost !in history {
          Tell(given, history, Lost);
          TellTurn(given, history, Lost);
          history := history + [Lost];
        }
        disconnecting := true;
      } else {
        assert replies == [];
      }
      if !noAutoFree { FreeNow(); }
    }

    /** `__redisAsyncFree`: every callback still owed runs with the null reply. */
    method FreeNow()
      requires Valid() && Quiet() && Live() && !inCallback && Closing() && (freeing || !noAutoFree)
      requires replies == [] || ((err || freeing) && Orphaned(history))
      modifies this
      ensures Onward() && !aborted && Valid() && Quiet() && !inCallback && freed && received == old(received)
      ensures err == old(err) && connected == old(connected) && (old(replies) == [] ==> Run() == old(Run()))
      decreases |script|, 2
    {
      hide Proper, Taken, Tooks, Runs, Seen, Settled, Now, NextReply, Turn, Owed, Events;
      hide Follows, Finished, Failing, Orphaned;
      if replies != [] { Drain(); }
      freed := true;
    }

    /** The loops of `__redisAsyncFree` and `redisAsyncHandleTimeout` over the callbacks still owed. */
    method Drain()
      requires Valid() && Quiet() && Live() && !inCallback && (err || freeing) && Orphaned(history)
      modifies this
      ensures Valid() && Quiet() && Live() && !inCallback && Onward() && replies == []
      ensures received == old(received) && err == old(err) && connected == old(connected)
      ensures Run() >= old(Run()) && (old(replies) == [] <==> Run() == old(Run()))
      decreases |script|, 1
    {
      hide Valid, Quiet, Due, Orphaned, Now, Events;
      while replies != []
        invariant Valid() && Quiet() && Live() && !inCallback && Onward() && Orphaned(history)
        invariant received == old(received) && err == old(err) && connected == old(connected)
        invariant Run() >= old(Run()) && (Run() == old(Run()) ==> replies == old(replies))
        invariant old(replies) == [] ==> replies == [] && Run() == old(Run())
        decreases |script|, |replies|
      {
        var cb := Shift(None);
        RunCallback(cb, None);
      }
    }

    /** One reply in `redisProcessCallbacks`; without a callback owed, an error reply ends the connection
        and any other reply fails the source's assertion. */
    method Deliver(reply: Reply) returns (go: bool)
      requires Valid() && Quiet() && Live() && !inCallback && !err && !freeing && NextReply(history) == Some(reply)
      modifies this
      ensures Onward() && Valid() && Quiet() && Idle() && (go ==> Live() && !err && !freeing) && connected == old(connected)
      ensures received == Tooks(history)
      ensures old(replies) == [] ==> !go && aborted == reply.Plain? && err == reply.ErrorReply? && received == old(received)
      ensures old(replies) != [] ==> !aborted && received == old(received) + [reply] && (go <==> !freed) && (go <==> !freeing)
    {
      hide Proper, Taken, Tooks, Runs, Seen, Settled, Now, NextReply, Turn, Owed, Events;
      if replies == [] {
        if reply.ErrorReply? {
          err := true;
          ReplyNow(history);
          DisconnectNow();
        } else {
          aborted := true;
        }
        return false;
      }
      var cb := Shift(Some(reply));
      RunCallback(cb, Some(reply));
      if cb.fn && freeing {
        FreeNow();
        return false;
      }
      return true;
    }

    /** One turn of the loop of `redisProcessCallbacks`. */
    method TakeOne(arrivals: seq<Arrival>, i: nat, ghost before: seq<Reply>) returns (go: bool, ghost done: nat)
      requires Valid() && Quiet() && Idle() && Live() && !err && !freeing && i < |arrivals|
      requires Now(history).connected && Now(history).replies == |before|
      requires Now(history).event.Readable? && Now(history).event.input.Arrived? && Now(history).event.input.arrivals == arrivals
      requires received == before + Answers(arrivals[..i]) && received == Tooks(history)
      modifies this
      ensures Onward() && Valid() && Quiet() && Idle() && connected == old(connected) && i <= done <= i + 1
      ensures received == before + Answers(arrivals[..done]) && received == Tooks(history)
      ensures if go then done == i + 1 && Live() && !err && !freeing else freeing || aborted || err
      ensures (!go && !aborted && !err ==> freed && freeing) && (aborted ==> done == i)
    {
      hide Valid, Quiet, Now, Events, NextReply, Tooks, Answers, Orphaned;
      if arrivals[i].Answer? {
        NextIs(history, before, arrivals, i);
        done := if replies != [] then i + 1 else i;
        go := Deliver(arrivals[i].reply);
      } else {
        AnswersNext(arrivals, i);
        go, done := true, i + 1;
      }
    }

    /** The loop of `redisProcessCallbacks` over the replies the reader holds. */
    method TakeReplies(arrivals: seq<Arrival>) returns (ghost done: nat, go: bool)
      requires Valid() && Quiet() && Idle() && Live() && !err && !freeing && received == Tooks(history)
      requires Now(history).connected && Now(history).replies == |received|
      requires Now(history).event.Readable? && Now(history).event.input.Arrived? && Now(history).event.input.arrivals == arrivals
      modifies this
      ensures Onward() && Valid() && Quiet() && Idle() && connected == old(connected)
      ensures done <= |arrivals| && received == old(received) + Answers(arrivals[..done]) && received == Tooks(history)
      ensures if go then done == |arrivals| && Live() && !err && !freeing else freeing || aborted || err
      ensures !go && !aborted && !err ==> freed && freeing
      ensures aborted ==> done < |arrivals|
    {
      assert Answers(arrivals[..0]) == [];
      hide Valid, Quiet, Now, Events, Tooks, Answers, Orphaned, Idle, Closing;
      var i := 0;
      done, go := 0, true;
      while i < |arrivals|
        invariant Valid() && Quiet() && Live() && Idle() && !err && !freeing && Onward() && connected == old(connected)
        invariant 0 <= i <= |arrivals| && done == i && received == old(received) + Answers(arrivals[..i]) && received == Tooks(history)
        invariant go
      {
        go, done := TakeOne(arrivals, i, old(received));
        if !go { return; }
        i := i + 1;
      }
    }

    /** `redisProcessCallbacks` on the replies the reader holds, followed by a protocol error if broken.
        It stops early only because the context went away or failed. */
    method ProcessCallbacks(arrivals: seq<Arrival>, broken: bool) returns (ghost done: nat)
      requires Valid() && Quiet() && Idle() && Live() && !err
      requires Now(history).connected && Now(history).replies == |received|
      requires Now(history).event.Readable? && Now(history).event.input == Arrived(arrivals, broken)
      modifies this
      ensures Onward() && Valid() && Quiet() && Idle() && connected == old(connected)
      ensures done <= |arrivals| && received == old(received) + Answers(arrivals[..done])
      ensures aborted || Finished(history)
      ensures done < |arrivals| ==> (freed && freeing) || aborted || err
      ensures done == |arrivals| && broken ==> err || freed
      ensures Live() && !err && disconnecting && replies == [] ==> unwritten || noAutoFree
    {
      hide Proper, Taken, Tooks, Runs, Seen, Settled, Now, NextReply, Turn, Owed, Events;
      hide Follows;
      var go;
      done, go := TakeReplies(arrivals);
      if !go { return; }
      assert arrivals[..done] == arrivals;
      NoneNext(history, arrivals);
      if broken {
        err := true;
        DisconnectNow();
      } else if disconnecting && !unwritten && replies == [] {
        DisconnectNow();
      }
      NoneNext(history, arrivals);
    }

    /** `__redisAsyncHandleConnect`: whether the handler goes on. */
    method HandleConnect(connecting: Connecting, ghost event: Event) returns (go: bool)
      requires Starting(event) && Live() && (event.Readable? || event.Writable?) && event.connecting == connecting
      modifies this
      ensures Onward() && !aborted && Valid() && Quiet() && Idle() && received == old(received)
      ensures connected == Now(history).connected && (go <==> connected) && (go ==> Live() && err == old(err))
      ensures !connected && connecting.Failed? ==> Lost in history
      ensures go || !err ==> Live() && replies == old(replies) && log == old(log) && history == old(history)
    {
      hide Proper, Taken, Tooks, Runs, Seen, Settled, Now, NextReply, Turn, Owed, Events;
      if connected { return true; }
      match connecting
      case Failed =>
        err := true;
        DisconnectNow();
        go := false;
      case Pending => go := false;
      case Done =>
        connected := true;
        go := true;
    }

    /** `redisAsyncHandleRead`. */
    method HandleRead(connecting: Connecting, input: Input) returns (ghost done: nat)
      requires Starting(Readable(connecting, input)) && Live()
      modifies this
      ensures Onward() && Resting()
      ensures old(err) || input.ReadFailed? ==> done == 0
      ensures input.Arrived? ==> done <= |input.arrivals|
      ensures received == old(received) + if done == 0 then [] else Answers(input.arrivals[..done])
      ensures input.Arrived? && done < |input.arrivals| ==> (freed && freeing) || aborted || err || !connected
      ensures old(connected) && (input.ReadFailed? || (input.broken && done == |input.arrivals|)) ==> err || freed
    {
      hide Proper, Taken, Tooks, Runs, Seen, Settled, Now, NextReply, Turn, Owed, Events;
      done := 0;
      var go := HandleConnect(connecting, Readable(connecting, input));
      if !go { return; }
      if err || input.ReadFailed? {
        err := true;
        DisconnectNow();
      } else {
        done := ProcessCallbacks(input.arrivals, input.broken);
      }
    }

    /** `redisAsyncHandleWrite`. */
    method HandleWrite(connecting: Connecting, output: Output)
      requires Starting(Writable(connecting, output)) && Live()
      modifies this
      ensures Onward() && Resting() && !aborted && received == old(received)
      ensures !err ==> Live() && replies == old(replies) && log == old(log)
    {
      hide Proper, Taken, Tooks, Runs, Seen, Settled, Now, NextReply, Turn, Owed, Events;
      var go := HandleConnect(connecting, Writable(connecting, output));
      if !go { return; }
      if err || (unwritten && output.WriteFailed?) {
        err := true;
        DisconnectNow();
      } else if output.Flushed? {
        unwritten := false;
      }
    }

    /** `redisAsyncHandleTimeout`: callbacks run in the drain may still register commands, which are
        drained too. */
    method HandleTimeout()
      requires Starting(Timeout) && Live()
      modifies this
      ensures Onward() && Resting() && !aborted && received == old(received)
      ensures if old(connected) && old(replies) == [] then unchanged(this)
              else err && disconnecting && replies == [] && (freed || noAutoFree)
    {
      hide Proper, Taken, Tooks, Runs, Seen, Settled, Now, NextReply, Turn, Owed, Events;
      if connected && replies == [] { return; }
      err := true;
      Drain();
      DisconnectNow();
    }

    method Handle(event: Event)
      requires Resting() && Live()
      modifies this
      ensures Resting() && Events(history) == old(Events(history)) + [event]
      ensures event == Outside(Free) ==> freed
    {
      hide Proper, Taken, Tooks, Runs, Seen, Settled, Now, NextReply, Turn, Owed, Events;
      Tell(given, history, Handling(event));
      TellTurn(given, history, Handling(event));
      history := history + [Handling(event)];
      match event
      case Readable(connecting, input) => var _ := HandleRead(connecting, input);
      case Writable(connecting, output) => HandleWrite(connecting, output);
      case Timeout => HandleTimeout();
      case Outside(action) => Perform(action);
    }

    /** The events one after the other, then a free, unless the context goes away before. */
    method HandleAll(events: seq<Event>)
      requires Resting() && Live() && history == []
      modifies this
      ensures Resting() && !Live()
      ensures Events(history) == events + [Outside(Free)] || Events(history) <= events
    {
      assert Events(history) == events[..0];
      hide Resting, Valid, Quiet, Idle, Now, Finished, Events;
      var i := 0;
      while i < |events| && !freed && !aborted
        invariant 0 <= i <= |events| && Resting() && Events(history) == events[..i]
      {
        assert events[..i + 1] == events[..i] + [events[i]];
        Handle(events[i]);
        i := i + 1;
      }
      assert i == |events| ==> events[..i] == events;
      if !freed && !aborted { Handle(Outside(Free)); }
    }
  }

  /** Any run, finished by a free unless the context went away before: the run has a proper history over the
      given events, the commands accepted are the ones user code issued before teardown began, the replies
      received are the ones taken off the events in order, and every accepted command's callback ran exactly
      once, in the order of the commands, with the reply of its rank, or null from the first command on that
      got no reply. */
  method Drive(noAutoFree: bool, script: seq<seq<Action>>, events: seq<Event>)
    returns (log: seq<Call>, aborted: bool, accepted: seq<Callback>, received: seq<Reply>, ghost history: seq<Note>)
    ensures Proper(script, history) && Turn(history) == Owed(script, history)
    ensures accepted == Taken(history) && received == Tooks(history) && |received| <= |accepted|
    ensures received <= Incoming(Events(history))
    ensures Runs(history) == Settled(accepted, received) && log == Seen(Settled(accepted, received))
    ensures if aborted then |received| == |accepted| && NextReply(history).Some? && NextReply(history).value.Plain?
            else Finished(history) && Closed(history)
    ensures Events(history) == events + [Outside(Free)]
            || (Events(history) <= events && (aborted || !noAutoFree || Asked(Free) in history || Asked(Disconnect) in history))
  {
    hide Proper, Taken, Tooks, Runs, Seen, Settled, Now, NextReply, Turn, Owed, Events, Follows, Finished, Closed, Left, Orphaned;
    var ac := new Context(noAutoFree, script);
    ac.HandleAll(events);
    log, aborted, accepted, received, history := ac.log, ac.aborted, ac.accepted, ac.received, ac.history;
    assert ac.accepted[..ac.Run()] == ac.accepted;
    ReceivedArrived(script, history);
  }

  /** With functions given for all commands, call number i is command number i's. */
  lemma {:induction false} SeenAll(accepted: seq<Callback>, received: seq<Reply>)
    requires forall i :: 0 <= i < |accepted| ==> accepted[i].fn
    ensures Seen(Settled(accepted, received)) == Settled(accepted, received)
  {
    if accepted != [] {
      var k := |accepted| - 1;
      SettledNext(accepted, k, received);
      assert accepted[..k + 1] == accepted;
      SeenNext(Settled(accepted[..k], received), Settled(accepted, received)[k]);
      SeenAll(accepted[..k], received);
    }
  }
}
