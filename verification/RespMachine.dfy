/** The reader's explicit stack, without buffers and objects: a machine that takes one type byte or
    one item at a time. It computes what the recursive parser computes, and each of its steps is final:
    later text cannot change it. */
module RespMachine {
  import opened Basics
  import opened Resp

  /** An aggregate being filled. */
  datatype Frame = Frame(kind: Kind, total: nat, done: seq<Reply>)

  /** The stack, innermost last, and the type of the current item once its byte has been read. */
  datatype Machine = Machine(frames: seq<Frame>, cur: Option<Kind>)

  const Idle := Machine([], None)

  datatype Outcome =
    | Blocked
    | Failed(error: ProtocolError)
    | Finished(reply: Reply, used: nat)
    | Next(m: Machine, used: nat)

  function Parent(frames: seq<Frame>): Option<Kind> {
    if frames == [] then None else Some(frames[|frames| - 1].kind)
  }

  /** A complete value goes into the innermost open aggregate; aggregates it completes are closed. */
  function Deliver(frames: seq<Frame>, reply: Reply, used: nat): Outcome
    decreases |frames|
  {
    if frames == [] then Finished(reply, used) else
    var outer, top := frames[..|frames| - 1], frames[|frames| - 1];
    var top' := top.(done := top.done + [reply]);
    if |top'.done| == top.total
    then Deliver(outer, AggregateReply(top.kind, top'.done), used)
    else Next(Machine(outer + [top'], None), used)
  }

  function Step(cfg: Config, m: Machine, s: string): Outcome {
    match m.cur
    case None =>
      if s == "" then Blocked
      else (match KindOf(s[0])
            case None => Failed(BadTypeByte(s[0]))
            case Some(kind) => Next(m.(cur := Some(kind)), 1))
    case Some(kind) =>
      match ReadItem(cfg, kind, Parent(m.frames), s)
      case Incomplete => Blocked
      case Bad(e) => Failed(e)
      case Leaf(reply, used) => Deliver(m.frames, reply, used)
      case Open(count, used) =>
        if count == 0 then Deliver(m.frames, AggregateReply(kind, []), used)
        else Next(Machine(m.frames + [Frame(kind, count, [])], None), used)
  }

  lemma {:induction false} DeliverUses(frames: seq<Frame>, reply: Reply, used: nat)
    ensures var o := Deliver(frames, reply, used); (o.Next? || o.Finished?) && o.used == used
    decreases |frames|
  {
    if frames != [] {
      var top := frames[|frames| - 1];
      DeliverUses(frames[..|frames| - 1], AggregateReply(top.kind, top.done + [reply]), used);
    }
  }

  lemma StepUses(cfg: Config, m: Machine, s: string)
    ensures var o := Step(cfg, m, s); o.Next? || o.Finished? ==> 1 <= o.used <= |s|
  {
    if m.cur.Some? {
      match ReadItem(cfg, m.cur.value, Parent(m.frames), s) {
        case Leaf(reply, used) => DeliverUses(m.frames, reply, used);
        case Open(count, used) => DeliverUses(m.frames, AggregateReply(m.cur.value, []), used);
        case _ =>
      }
    }
  }

  function Run(cfg: Config, m: Machine, s: string): Parsed<Reply>
    decreases |s|
  {
    StepUses(cfg, m, s);
    match Step(cfg, m, s)
    case Blocked => More
    case Failed(e) => Fail(e)
    case Finished(reply, used) => Done(reply, s[used..])
    case Next(m', used) => Run(cfg, m', s[used..])
  }

  /** What follows once a value has been read with these frames open. */
  function Resume(cfg: Config, frames: seq<Frame>, p: Parsed<Reply>): Parsed<Reply> {
    match p
    case More => More
    case Fail(e) => Fail(e)
    case Done(reply, rest) =>
      match Deliver(frames, reply, 0)
      case Finished(whole, _) => Done(whole, rest)
      case Next(m, _) => Run(cfg, m, rest)
      case _ => More
  }

  lemma {:induction false} DeliverShift(frames: seq<Frame>, reply: Reply, used: nat)
    ensures Deliver(frames, reply, used) ==
            match Deliver(frames, reply, 0)
            case Finished(whole, _) => Finished(whole, used)
            case Next(m, _) => Next(m, used)
            case other => other
    decreases |frames|
  {
    if frames != [] {
      var top := frames[|frames| - 1];
      DeliverShift(frames[..|frames| - 1], AggregateReply(top.kind, top.done + [reply]), used);
    }
  }

  /** The stack machine resumes exactly as the recursive parser returns, at any nesting depth. */
  lemma {:induction false} RunIsParse(cfg: Config, frames: seq<Frame>, s: string)
    ensures Run(cfg, Machine(frames, None), s) == Resume(cfg, frames, Parse(cfg, Parent(frames), s))
    decreases |s|, 0
  {
    hide ReadItem;
    if s != "" && KindOf(s[0]).Some? {
      RunIsParseTyped(cfg, frames, KindOf(s[0]).value, s[1..]);
    }
  }

  lemma RunDelivers(cfg: Config, m: Machine, s: string, reply: Reply, used: nat)
    requires used <= |s| && Step(cfg, m, s) == Deliver(m.frames, reply, used)
    ensures Run(cfg, m, s) == Resume(cfg, m.frames, Done(reply, s[used..]))
  {
    DeliverShift(m.frames, reply, used);
    DeliverUses(m.frames, reply, 0);
  }

  lemma {:induction false} RunIsParseTyped(cfg: Config, frames: seq<Frame>, kind: Kind, s: string)
    ensures Run(cfg, Machine(frames, Some(kind)), s) ==
            Resume(cfg, frames, ParseTyped(cfg, kind, Parent(frames), s))
    decreases |s|, 3
  {
    var m := Machine(frames, Some(kind));
    var item := ReadItem(cfg, kind, Parent(frames), s);
    if item.Leaf? {
      RunDelivers(cfg, m, s, item.reply, item.used);
    } else if item.Open? && item.count == 0 {
      RunDelivers(cfg, m, s, AggregateReply(kind, []), item.used);
    } else if item.Open? {
      RunOpens(cfg, frames, kind, item.count, item.used, s);
    }
  }

  lemma {:induction false} RunOpens(cfg: Config, frames: seq<Frame>, kind: Kind, count: nat, used: nat, s: string)
    requires ReadItem(cfg, kind, Parent(frames), s) == Open(count, used) && count > 0
    ensures Run(cfg, Machine(frames, Some(kind)), s) ==
            Resume(cfg, frames, ParseTyped(cfg, kind, Parent(frames), s))
    decreases |s|, 2
  {
    hide ReadItem, Deliver;
    var top, rest := Frame(kind, count, []), s[used..];
    RunIsParseMany(cfg, frames, top, rest);
    assert Step(cfg, Machine(frames, Some(kind)), s) == Next(Machine(frames + [top], None), used);
    var many := ParseMany(cfg, kind, count, rest);
    if many.Done? { assert top.done + many.value == many.value; }
  }

  /** What follows once the remaining elements of the aggregate `top` have been read. */
  function ResumeMany(cfg: Config, outer: seq<Frame>, top: Frame, p: Parsed<seq<Reply>>): Parsed<Reply> {
    match p
    case More => More
    case Fail(e) => Fail(e)
    case Done(elements, rest) =>
      Resume(cfg, outer, Done(AggregateReply(top.kind, top.done + elements), rest))
  }

  lemma ResumeManyCons(cfg: Config, outer: seq<Frame>, top: Frame, first: Reply, count: nat, s: string, rest: string)
    requires Parse(cfg, Some(top.kind), s) == Done(first, rest)
    ensures ResumeMany(cfg, outer, top, ParseMany(cfg, top.kind, count + 1, s)) ==
            ResumeMany(cfg, outer, top.(done := top.done + [first]), ParseMany(cfg, top.kind, count, rest))
  {
    var others := ParseMany(cfg, top.kind, count, rest);
    if others.Done? {
      assert (top.done + [first]) + others.value == top.done + ([first] + others.value);
    }
  }

  lemma {:induction false} RunIsParseMany(cfg: Config, outer: seq<Frame>, top: Frame, s: string)
    requires |top.done| < top.total
    ensures Run(cfg, Machine(outer + [top], None), s) ==
            ResumeMany(cfg, outer, top, ParseMany(cfg, top.kind, top.total - |top.done|, s))
    decreases |s|, 1
  {
    hide ReadItem, Step, Run, ParseTyped;
    var frames := outer + [top];
    assert frames[..|frames| - 1] == outer && frames[|frames| - 1] == top;
    RunIsParse(cfg, frames, s);
    var p := Parse(cfg, Some(top.kind), s);
    if p.Done? {
      var top' := top.(done := top.done + [p.value]);
      ResumeManyCons(cfg, outer, top, p.value, top.total - |top'.done|, s, p.rest);
      if |top'.done| == top.total {
        assert top'.done + [] == top'.done;
      } else {
        RunIsParseMany(cfg, outer, top', p.rest);
      }
    }
  }

  /** From an empty stack the machine is the parser. */
  lemma MachineIsParser(cfg: Config, s: string)
    ensures Run(cfg, Idle, s) == Parse(cfg, None, s)
  {
    RunIsParse(cfg, [], s);
  }

  // ----- steps are final

  lemma StepStable(cfg: Config, m: Machine, s: string, t: string)
    requires !Step(cfg, m, s).Blocked?
    ensures Step(cfg, m, s + t) == Step(cfg, m, s)
  {
    if m.cur.Some? { ReadItemStable(cfg, m.cur.value, Parent(m.frames), s, t); }
  }

  /** What a client will see from here on. */
  function Ahead(cfg: Config, m: Machine, s: string): Seen {
    match Run(cfg, m, s)
    case More => Seen([], None)
    case Fail(e) => Seen([], Some(e))
    case Done(reply, rest) => Before([reply], Stream(cfg, rest))
  }

  lemma AheadIdle(cfg: Config, s: string)
    ensures Ahead(cfg, Idle, s) == Stream(cfg, s)
  {
    MachineIsParser(cfg, s);
  }

  /** Having been fed `fed` and having handed out `out`, a machine with `unread` text left will, on
      every continuation of the stream, hand out exactly the rest. */
  ghost predicate Tracks(cfg: Config, fed: string, out: seq<Reply>, m: Machine, unread: string) {
    forall t: string :: Stream(cfg, fed + t) == Before(out, Ahead(cfg, m, unread + t))
  }

  /** The stream is dead: no continuation adds a reply. */
  ghost predicate Dead(cfg: Config, fed: string, out: seq<Reply>, e: ProtocolError) {
    forall t: string :: Stream(cfg, fed + t) == Seen(out, Some(e))
  }

  lemma TracksStart(cfg: Config)
    ensures Tracks(cfg, "", [], Idle, "")
  {
    forall t: string ensures Stream(cfg, "" + t) == Before([], Ahead(cfg, Idle, "" + t)) {
      AheadIdle(cfg, "" + t);
      assert [] + Ahead(cfg, Idle, "" + t).replies == Ahead(cfg, Idle, "" + t).replies;
    }
  }

  lemma TracksFeed(cfg: Config, fed: string, out: seq<Reply>, m: Machine, unread: string, chunk: string)
    requires Tracks(cfg, fed, out, m, unread)
    ensures Tracks(cfg, fed + chunk, out, m, unread + chunk)
  {
    forall t: string
      ensures Stream(cfg, (fed + chunk) + t) == Before(out, Ahead(cfg, m, (unread + chunk) + t))
    {
      assert (fed + chunk) + t == fed + (chunk + t) && (unread + chunk) + t == unread + (chunk + t);
    }
  }

  lemma TracksNext(cfg: Config, fed: string, out: seq<Reply>, m: Machine, unread: string)
    requires Tracks(cfg, fed, out, m, unread) && Step(cfg, m, unread).Next?
    ensures var o := Step(cfg, m, unread);
            o.used <= |unread| && Tracks(cfg, fed, out, o.m, unread[o.used..])
  {
    StepUses(cfg, m, unread);
    var o := Step(cfg, m, unread);
    forall t: string ensures Stream(cfg, fed + t) == Before(out, Ahead(cfg, o.m, unread[o.used..] + t)) {
      StepStable(cfg, m, unread, t);
      assert (unread + t)[o.used..] == unread[o.used..] + t;
    }
  }

  lemma TracksFinish(cfg: Config, fed: string, out: seq<Reply>, m: Machine, unread: string)
    requires Tracks(cfg, fed, out, m, unread) && Step(cfg, m, unread).Finished?
    ensures var o := Step(cfg, m, unread);
            o.used <= |unread| && Tracks(cfg, fed, out + [o.reply], Idle, unread[o.used..])
  {
    StepUses(cfg, m, unread);
    var o := Step(cfg, m, unread);
    forall t: string
      ensures Stream(cfg, fed + t) == Before(out + [o.reply], Ahead(cfg, Idle, unread[o.used..] + t))
    {
      StepStable(cfg, m, unread, t);
      assert (unread + t)[o.used..] == unread[o.used..] + t;
      AheadIdle(cfg, unread[o.used..] + t);
      var later := Stream(cfg, unread[o.used..] + t);
      assert out + ([o.reply] + later.replies) == (out + [o.reply]) + later.replies;
    }
  }

  lemma TracksFail(cfg: Config, fed: string, out: seq<Reply>, m: Machine, unread: string)
    requires Tracks(cfg, fed, out, m, unread) && Step(cfg, m, unread).Failed?
    ensures Dead(cfg, fed, out, Step(cfg, m, unread).error)
  {
    forall t: string ensures Stream(cfg, fed + t) == Seen(out, Some(Step(cfg, m, unread).error)) {
      StepStable(cfg, m, unread, t);
      assert out + [] == out;
    }
  }

  lemma TracksBlocked(cfg: Config, fed: string, out: seq<Reply>, m: Machine, unread: string)
    requires Tracks(cfg, fed, out, m, unread) && Step(cfg, m, unread).Blocked?
    ensures Stream(cfg, fed) == Seen(out, None)
  {
    assert fed + "" == fed && unread + "" == unread && out + [] == out;
  }

  /** Reading is monotone: more text never takes back a reply or an error. */
  lemma StreamExtends(cfg: Config, s: string, t: string)
    ensures Stream(cfg, s).replies <= Stream(cfg, s + t).replies
    ensures Stream(cfg, s).error.Some? ==> Stream(cfg, s + t) == Stream(cfg, s)
    decreases |s|
  {
    MachineIsParser(cfg, s);
    MachineIsParser(cfg, s + t);
    RunStable(cfg, Idle, s, t);
    match Parse(cfg, None, s)
    case Done(reply, rest) => StreamExtends(cfg, rest, t);
    case _ =>
  }

  lemma {:induction false} RunStable(cfg: Config, m: Machine, s: string, t: string)
    ensures Run(cfg, m, s).Fail? ==> Run(cfg, m, s + t) == Run(cfg, m, s)
    ensures Run(cfg, m, s).Done? ==>
              Run(cfg, m, s + t) == Done(Run(cfg, m, s).value, Run(cfg, m, s).rest + t)
    decreases |s|
  {
    StepUses(cfg, m, s);
    match Step(cfg, m, s)
    case Blocked =>
    case Failed(_) => StepStable(cfg, m, s, t);
    case Finished(_, used) =>
      StepStable(cfg, m, s, t);
      assert (s + t)[used..] == s[used..] + t;
    case Next(m', used) =>
      StepStable(cfg, m, s, t);
      assert (s + t)[used..] == s[used..] + t;
      RunStable(cfg, m', s[used..], t);
  }
}
