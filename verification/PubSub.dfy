/** Subscriptions over a pipelined connection: the client's callback dictionaries and flag, the two
    directions of the wire, and a server that answers in order. */
module PubSub {
  import opened Basics

  datatype Topic = Topic(pattern: bool, name: string)

  /** What travels: requests to the server and what it sends back. `count` is the number of subscriptions
      the server reports, 0 in a request; `Plain` is any other command and its reply. */
  datatype Item =
    | Sub(topic: Topic, count: nat)
    | Unsub(topic: Topic, count: nat)
    | Pub(topic: Topic)
    | Plain(id: nat)

  datatype Entry = Entry(cb: nat, pending: int)

  // ----- queues

  /** The topics subscribed after an item. */
  function Word(m: Item, base: set<Topic>): set<Topic> {
    match m
    case Sub(t, _) => base + {t}
    case Unsub(t, _) => base - {t}
    case _ => base
  }

  function View(q: seq<Item>, base: set<Topic>): set<Topic> {
    if q == [] then base else View(q[1..], Word(q[0], base))
  }

  /** How many subscribes of a topic are under way. */
  function Subs(q: seq<Item>, t: Topic): nat {
    if q == [] then 0 else (if q[0].Sub? && q[0].topic == t then 1 else 0) + Subs(q[1..], t)
  }

  /** What may be said of the items of a queue, given the topics subscribed before each: that the server
      tells the truth, that no unsubscribe comes with nothing subscribed, and that each unsubscribe is of
      a subscribed topic. */
  datatype Rule = Truthful | Guarded | Needed

  predicate Fit(rule: Rule, m: Item, base: set<Topic>) {
    match rule
    case Truthful => (m.Unsub? ==> m.count == |Word(m, base)|) && (m.Pub? ==> m.topic in base)
    case Guarded => m.Unsub? ==> base != {}
    case Needed => m.Unsub? ==> m.topic in base
  }

  predicate Fits(rule: Rule, q: seq<Item>, base: set<Topic>)
    decreases q
  {
    q == [] || (Fit(rule, q[0], base) && Fits(rule, q[1..], Word(q[0], base)))
  }

  lemma {:induction false} Appended(q: seq<Item>, m: Item, t: Topic, rule: Rule, base: set<Topic>)
    ensures Subs(q + [m], t) == Subs(q, t) + (if m.Sub? && m.topic == t then 1 else 0)
    ensures View(q + [m], base) == Word(m, View(q, base))
    ensures Fits(rule, q + [m], base) <==> Fits(rule, q, base) && Fit(rule, m, View(q, base))
    decreases q
  {
    if q == [] {
      assert q + [m] == [m] && [m][1..] == [];
    } else {
      assert (q + [m])[1..] == q[1..] + [m];
      Appended(q[1..], m, t, rule, Word(q[0], base));
    }
  }

  /** A topic in view was there before or is subscribed in the queue. */
  lemma {:induction false} Seen(q: seq<Item>, base: set<Topic>, t: Topic)
    requires t in View(q, base)
    ensures t in base || Subs(q, t) > 0
    decreases q
  {
    if q != [] { Seen(q[1..], Word(q[0], base), t); }
  }

  /** With nothing subscribed before and no subscribe, no message comes. */
  lemma {:induction false} Quiet(q: seq<Item>, i: nat)
    requires Fits(Truthful, q, {}) && i < |q| && forall t :: Subs(q, t) == 0
    ensures q[i].Plain? || q[i].Unsub?
    decreases q
  {
    var t := if q[0].Plain? then Topic(false, "") else q[0].topic;
    assert Subs(q, t) == 0;
    assert forall t :: Subs(q, t) == 0 ==> Subs(q[1..], t) == 0;
    if i > 0 { Quiet(q[1..], i - 1); }
  }

  // ----- the dictionaries

  datatype Dicts = Dicts(channels: map<string, Entry>, patterns: map<string, Entry>)
  {
    function Find(t: Topic): Option<Entry> {
      var dict := if t.pattern then patterns else channels;
      if t.name in dict then Some(dict[t.name]) else None
    }

    function With(t: Topic, entry: Entry): (d: Dicts)
      ensures forall u :: d.Find(u) == if u == t then Some(entry) else Find(u)
    {
      if t.pattern then this.(patterns := patterns[t.name := entry])
      else this.(channels := channels[t.name := entry])
    }

    function Without(t: Topic): (d: Dicts)
      ensures forall u :: d.Find(u) == if u == t then None else Find(u)
    {
      if t.pattern then this.(patterns := patterns - {t.name}) else this.(channels := channels - {t.name})
    }
  }

  const EMPTY: Dicts := Dicts(map[], map[])

  lemma Nothing(d: Dicts)
    requires forall t :: d.Find(t).None?
    ensures d == EMPTY
  {
    forall name ensures name !in d.channels && name !in d.patterns {
      assert d.Find(Topic(false, name)).None? && d.Find(Topic(true, name)).None?;
    }
  }

  // ----- the connection

  /** The client, the wire and the server, with two facts of the past: the topics subscribed according to
      the messages read so far, and the callback of each topic's latest subscribe. */
  datatype State = State(
    subscribed: bool, dicts: Dicts, replies: seq<nat>, toServer: seq<Item>, toClient: seq<Item>,
    held: set<Topic>, read: set<Topic>, latest: map<Topic, nat>)
  {
    function Find(t: Topic): Option<Entry> { dicts.Find(t) }

    function Pending(t: Topic): int { if Find(t).Some? then Find(t).value.pending else 0 }

    /** Unconfirmed subscribes. */
    function Unconfirmed(t: Topic): nat { Subs(toServer, t) + Subs(toClient, t) }

    /** The topics whose latest request is a subscribe. */
    function Asked(): set<Topic> { View(toServer, held) }

    function Size(): nat { |toClient| + |toServer| }

    /** Everything under way, in the order in which its answer is read. */
    function At(i: nat): Item
      requires i < Size()
    {
      if i < |toClient| then toClient[i] else toServer[i - |toClient|]
    }
  }

  predicate TopicOk(s: State, t: Topic) {
    && s.Pending(t) == s.Unconfirmed(t)
    && (s.Find(t).Some? <==> t in s.read || s.Unconfirmed(t) > 0)
    && (s.Find(t).Some? ==> t in s.latest && s.Find(t).value.cb == s.latest[t])
  }

  /** What a regular callback may take without harm to the dictionaries. */
  predicate Harmless(s: State, m: Item) {
    m.Plain? || (m.Unsub? && (s.Find(m.topic).Some? ==> s.Unconfirmed(m.topic) > 0))
  }

  /** As many such items come first as regular commands wait for a reply. */
  predicate Shielded(s: State) {
    && |s.replies| <= s.Size() && (|s.replies| > |s.toClient| ==> s.held == {})
    && forall i :: 0 <= i < |s.replies| ==> Harmless(s, s.At(i))
  }

  ghost predicate Inv(s: State) {
    && s.held == View(s.toClient, s.read)
    && Fits(Truthful, s.toClient, s.read)
    && (forall t :: TopicOk(s, t))
    && (s.subscribed <==> s.dicts != EMPTY)
    && (forall i :: 0 <= i < |s.toServer| ==> !s.toServer[i].Pub?)
    && Shielded(s)
  }

  // ----- steps

  datatype Step =
    | Command(id: nat)
    | Subscribe(topic: Topic, cb: nat)
    | Unsubscribe(topic: Topic)
    | Serve
    | Publish(topic: Topic)
    | Read

  const INIT: State := State(false, EMPTY, [], [], [], {}, {}, map[])

  /** A message no callback is owed for, outside a subscription, fails the source's assertion. */
  predicate Aborts(s: State) { s.toClient != [] && s.replies == [] && !s.subscribed }

  predicate Enabled(s: State, step: Step) {
    match step
    case Command(_) => !s.subscribed
    case Subscribe(_, _) => true
    case Unsubscribe(_) => s.subscribed
    case Serve => s.toServer != []
    case Publish(t) => t in s.held
    case Read => s.toClient != [] && !Aborts(s)
  }

  /** What the server sends for a request. */
  function Answer(m: Item, count: nat): Item {
    match m
    case Sub(t, _) => Sub(t, count)
    case Unsub(t, _) => Unsub(t, count)
    case _ => m
  }

  /** `__redisGetSubscribeCallback`: what a subscription message does to the dictionaries. */
  function TakenFrom(d: Dicts, m: Item): Dicts
    requires !m.Plain?
  {
    match d.Find(m.topic)
    case None => d
    case Some(e) =>
      if m.Sub? then d.With(m.topic, e.(pending := e.pending - 1))
      else if m.Unsub? && e.pending == 0 then d.Without(m.topic)
      else d
  }

  /** Whether it ends the subscription. */
  predicate Ends(d: Dicts, m: Item)
    requires !m.Plain?
  {
    m.Unsub? && m.count == 0 && d.Find(m.topic).Some? && TakenFrom(d, m) == EMPTY
  }

  function Asking(s: State, m: Item): State { s.(toServer := s.toServer + [m]) }

  function Registered(s: State, t: Topic, cb: nat): State {
    Asking(s, Sub(t, 0)).(subscribed := true, dicts := s.dicts.With(t, Entry(cb, s.Pending(t) + 1)),
                          latest := s.latest[t := cb])
  }

  function Served(s: State): State
    requires s.toServer != []
  {
    var held := Word(s.toServer[0], s.held);
    s.(held := held, toServer := s.toServer[1..], toClient := s.toClient + [Answer(s.toServer[0], |held|)])
  }

  function Took(s: State): State
    requires s.toClient != []
  {
    var m := s.toClient[0];
    var r := s.(toClient := s.toClient[1..], read := Word(m, s.read));
    if s.replies != [] then r.(replies := s.replies[1..])
    else if m.Plain? then r
    else r.(dicts := TakenFrom(s.dicts, m), subscribed := s.subscribed && !Ends(s.dicts, m))
  }

  function Apply(s: State, step: Step): State
    requires Enabled(s, step)
  {
    match step
    case Command(id) => Asking(s, Plain(id)).(replies := s.replies + [id])
    case Subscribe(t, cb) => Registered(s, t, cb)
    case Unsubscribe(t) => Asking(s, Unsub(t, 0))
    case Serve => Served(s)
    case Publish(t) => s.(toClient := s.toClient + [Pub(t)])
    case Read => Took(s)
  }

  // ----- every step keeps the invariant

  lemma {:induction false} NoSub(q: seq<Item>, i: nat, t: Topic)
    requires Subs(q, t) == 0 && i < |q|
    ensures !(q[i].Sub? && q[i].topic == t)
    decreases q
  {
    if i > 0 { NoSub(q[1..], i - 1, t); }
  }

  /** Outside a subscription nothing is held, and only unsubscribes and regular commands are under way. */
  lemma Outside(s: State)
    requires Inv(s) && !s.subscribed
    ensures s.held == {} && s.read == {}
    ensures forall i :: 0 <= i < s.Size() ==> Harmless(s, s.At(i))
  {
    forall t ensures t !in s.read && Subs(s.toClient, t) == 0 && Subs(s.toServer, t) == 0 && s.Find(t).None? {
      assert TopicOk(s, t);
    }
    assert s.read == {};
    forall t ensures t !in s.held { if t in s.held { Seen(s.toClient, s.read, t); } }
    forall i | 0 <= i < s.Size() ensures Harmless(s, s.At(i)) {
      if i < |s.toClient| {
        Quiet(s.toClient, i);
      } else if !s.At(i).Plain? {
        NoSub(s.toServer, i - |s.toClient|, s.At(i).topic);
      }
    }
  }

  /** One more request behind the others changes nothing before it. */
  lemma AskingAt(s: State, m: Item)
    ensures Asking(s, m).Size() == s.Size() + 1 && Asking(s, m).At(s.Size()) == m
    ensures forall i :: 0 <= i < s.Size() ==> Asking(s, m).At(i) == s.At(i)
    ensures forall t :: Asking(s, m).Unconfirmed(t) == s.Unconfirmed(t) + (if m.Sub? && m.topic == t then 1 else 0)
    ensures Asking(s, m).Asked() == Word(m, s.Asked())
  {
    forall t ensures Subs(s.toServer + [m], t) == Subs(s.toServer, t) + (if m.Sub? && m.topic == t then 1 else 0) {
      Appended(s.toServer, m, t, Truthful, s.held);
    }
    Appended(s.toServer, m, Topic(false, ""), Truthful, s.held);
  }

  lemma CommandKeeps(s: State, id: nat)
    requires Inv(s) && !s.subscribed
    ensures Inv(Apply(s, Command(id)))
  {
    hide Subs, View, Fits;
    var s' := Apply(s, Command(id));
    Outside(s);
    AskingAt(s, Plain(id));
    forall t ensures TopicOk(s', t) { assert TopicOk(s, t); }
    forall i | 0 <= i < |s'.replies| ensures Harmless(s', s'.At(i)) {
      if i < s.Size() { assert Harmless(s, s.At(i)); }
    }
  }

  lemma SubscribeKeeps(s: State, t: Topic, cb: nat)
    requires Inv(s)
    ensures Inv(Registered(s, t, cb))
  {
    hide Subs, View, Fits;
    var s' := Registered(s, t, cb);
    AskingAt(s, Sub(t, 0));
    forall u ensures TopicOk(s', u) && s'.Unconfirmed(u) >= s.Unconfirmed(u) {
      assert TopicOk(s, u) && TopicOk(s, t);
      assert s'.Unconfirmed(u) == Asking(s, Sub(t, 0)).Unconfirmed(u);
    }
    assert s'.Find(t).Some?;
    forall i | 0 <= i < |s.replies| ensures Harmless(s', s'.At(i)) {
      assert Harmless(s, s.At(i)) && s'.At(i) == Asking(s, Sub(t, 0)).At(i);
    }
  }

  lemma UnsubscribeKeeps(s: State, t: Topic)
    requires Inv(s) && s.subscribed
    ensures Inv(Asking(s, Unsub(t, 0)))
  {
    hide Subs, View, Fits;
    var s' := Asking(s, Unsub(t, 0));
    AskingAt(s, Unsub(t, 0));
    forall u ensures TopicOk(s', u) { assert TopicOk(s, u); }
    forall i | 0 <= i < |s.replies| ensures Harmless(s', s'.At(i)) { assert Harmless(s, s.At(i)); }
  }

  lemma ServedAt(s: State)
    requires s.toServer != []
    ensures Served(s).Size() == s.Size()
    ensures forall i :: 0 <= i < s.Size() ==>
              Served(s).At(i) == if i == |s.toClient| then Answer(s.toServer[0], |Served(s).held|) else s.At(i)
    ensures forall t :: Served(s).Unconfirmed(t) == s.Unconfirmed(t)
  {
    var m := Answer(s.toServer[0], |Served(s).held|);
    forall t ensures Served(s).Unconfirmed(t) == s.Unconfirmed(t) {
      Appended(s.toClient, m, t, Truthful, s.read);
    }
  }

  lemma ServeKeeps(s: State)
    requires Inv(s) && s.toServer != []
    ensures Inv(Served(s)) && Served(s).Asked() == s.Asked()
  {
    var s', m := Served(s), Answer(s.toServer[0], |Served(s).held|);
    assert Word(m, s.held) == Word(s.toServer[0], s.held);
    assert s'.Asked() == s.Asked();
    hide Subs, View, Fits;
    ServedAt(s);
    Appended(s.toClient, m, Topic(false, ""), Truthful, s.read);
    forall t ensures TopicOk(s', t) { assert TopicOk(s, t); }
    forall i | 0 <= i < |s.replies| ensures Harmless(s', s'.At(i)) { assert Harmless(s, s.At(i)); }
    if |s.replies| > |s.toClient| { assert Harmless(s, s.At(|s.toClient|)); }
  }

  lemma PublishKeeps(s: State, t: Topic)
    requires Inv(s) && t in s.held
    ensures Inv(Apply(s, Publish(t)))
  {
    hide Subs, View, Fits;
    var s', m := Apply(s, Publish(t)), Pub(t);
    Appended(s.toClient, m, t, Truthful, s.read);
    forall u ensures s'.Unconfirmed(u) == s.Unconfirmed(u) && TopicOk(s', u) {
      assert TopicOk(s, u);
      Appended(s.toClient, m, u, Truthful, s.read);
    }
    forall i | 0 <= i < |s.replies| ensures Harmless(s', s'.At(i)) {
      assert Harmless(s, s.At(i)) && s'.At(i) == s.At(i);
    }
  }

  /** The topics after a message is read. */
  lemma TookTopic(s: State, t: Topic)
    requires Inv(s) && s.toClient != []
    ensures TopicOk(Took(s), t)
    ensures s.Unconfirmed(t) == Took(s).Unconfirmed(t) + (if s.toClient[0].Sub? && s.toClient[0].topic == t then 1 else 0)
  {
    hide View, Fits;
    assert TopicOk(s, t);
    if s.replies != [] { assert Harmless(s, s.At(0)); }
  }

  lemma ReadKeeps(s: State)
    requires Inv(s) && s.toClient != [] && !Aborts(s)
    ensures Inv(Took(s))
  {
    var s', m := Took(s), s.toClient[0];
    assert s'.held == View(s'.toClient, s'.read) && Fits(Truthful, s'.toClient, s'.read);
    assert m.Unsub? ==> m.count == |s'.read|;
    hide Subs, View, Fits, TopicOk;
    forall t ensures TopicOk(s', t) { TookTopic(s, t); }
    TookFlag(s);
    forall i | 0 <= i < |s'.replies| ensures Harmless(s', s'.At(i)) {
      assert Harmless(s, s.At(i + 1)) && s'.At(i) == s.At(i + 1);
      if !s'.At(i).Plain? { TookTopic(s, s'.At(i).topic); }
      assert Harmless(s, s.At(0));
    }
  }

  lemma TookFlag(s: State)
    requires Inv(s) && s.toClient != [] && !Aborts(s)
    requires s.toClient[0].Unsub? ==> s.toClient[0].count == |Word(s.toClient[0], s.read)|
    ensures Took(s).subscribed <==> Took(s).dicts != EMPTY
  {
    hide Subs, View, Fits;
    var s', m := Took(s), s.toClient[0];
    if s.replies == [] && !m.Plain? {
      assert TopicOk(s, m.topic);
      if s'.dicts == EMPTY {
        forall t ensures t !in s'.read { TookTopic(s, t); }
        assert s'.read == {};
      }
    }
  }

  lemma StepKeeps(s: State, step: Step)
    requires Inv(s) && Enabled(s, step)
    ensures Inv(Apply(s, step))
  {
    hide Inv, Registered, Served, Took;
    match step
    case Command(id) => CommandKeeps(s, id);
    case Subscribe(t, cb) => SubscribeKeeps(s, t, cb);
    case Unsubscribe(t) => UnsubscribeKeeps(s, t);
    case Serve => ServeKeeps(s);
    case Publish(t) => PublishKeeps(s, t);
    case Read => ReadKeeps(s);
  }

  // ----- runs

  predicate IsRun(s: State, steps: seq<Step>)
    decreases steps
  {
    steps == [] || (Enabled(s, steps[0]) && IsRun(Apply(s, steps[0]), steps[1..]))
  }

  function After(s: State, steps: seq<Step>): State
    requires IsRun(s, steps)
    decreases steps
  {
    if steps == [] then s else After(Apply(s, steps[0]), steps[1..])
  }

  lemma {:induction false} RunKeeps(s: State, steps: seq<Step>)
    requires Inv(s) && IsRun(s, steps)
    ensures Inv(After(s, steps))
    decreases steps
  {
    hide Inv, Apply, Enabled;
    if steps != [] {
      StepKeeps(s, steps[0]);
      RunKeeps(Apply(s, steps[0]), steps[1..]);
    }
  }

  lemma InitOk()
    ensures Inv(INIT)
  {
    forall t ensures TopicOk(INIT, t) { assert INIT.Find(t) == None; }
  }

  /** In every run, whatever the order of commands, answers, messages and reads: a topic the server holds
      still has the callback of its latest subscribe, its counter is the number of unconfirmed subscribes,
      a message on its way finds its callback, and the flag is set exactly while there are entries. */
  lemma Safe(steps: seq<Step>, t: Topic)
    requires IsRun(INIT, steps)
    ensures var s := After(INIT, steps);
            && (t in s.held ==> s.Find(t).Some? && t in s.latest && s.Find(t).value.cb == s.latest[t])
            && s.Pending(t) == s.Unconfirmed(t)
            && (s.toClient != [] && s.toClient[0] == Pub(t) ==> s.Find(t).Some?)
            && (s.subscribed <==> s.dicts != EMPTY) && (!s.subscribed ==> s.held == {})
  {
    InitOk();
    RunKeeps(INIT, steps);
    hide IsRun, After;
    var s := After(INIT, steps);
    assert TopicOk(s, t);
    if t in s.held { Seen(s.toClient, s.read, t); }
    if !s.subscribed { Outside(s); }
  }

  lemma {:induction false} RunNext(s: State, steps: seq<Step>)
    requires IsRun(s, steps) && steps != []
    ensures var k := |steps| - 1;
            && IsRun(s, steps[..k]) && Enabled(After(s, steps[..k]), steps[k])
            && After(s, steps) == Apply(After(s, steps[..k]), steps[k])
    decreases steps
  {
    hide Apply, Enabled;
    var k := |steps| - 1;
    if k > 0 {
      RunNext(Apply(s, steps[0]), steps[1..]);
      assert steps[1..][..k - 1] == steps[..k][1..];
    } else {
      assert steps[1..] == [] && steps[..0] == [];
    }
  }

  /** The topics whose latest request is a subscribe, from the calls alone. */
  function AskedBy(steps: seq<Step>): set<Topic> {
    if steps == [] then {} else
    var before := AskedBy(steps[..|steps| - 1]);
    match steps[|steps| - 1]
    case Subscribe(t, _) => before + {t}
    case Unsubscribe(t) => before - {t}
    case _ => before
  }

  lemma {:induction false} AskedIs(steps: seq<Step>)
    requires IsRun(INIT, steps)
    ensures After(INIT, steps).Asked() == AskedBy(steps)
    decreases |steps|
  {
    if steps != [] {
      var k := |steps| - 1;
      RunNext(INIT, steps);
      AskedIs(steps[..k]);
      var s := After(INIT, steps[..k]);
      InitOk();
      RunKeeps(INIT, steps[..k]);
      hide IsRun, After, View, Inv;
      match steps[k]
      case Command(id) => AskingAt(s, Plain(id));
      case Subscribe(t, cb) => AskingAt(s, Sub(t, 0));
      case Unsubscribe(t) => AskingAt(s, Unsub(t, 0));
      case Serve => ServeKeeps(s);
      case _ =>
    }
  }

  /** Every unsubscribe called obeys a rule. */
  predicate Obeys(rule: Rule, steps: seq<Step>) {
    forall i :: 0 <= i < |steps| && steps[i].Unsubscribe? ==> Fit(rule, Unsub(steps[i].topic, 0), AskedBy(steps[..i]))
  }

  lemma ObeysBefore(rule: Rule, steps: seq<Step>, k: nat)
    requires Obeys(rule, steps) && k <= |steps|
    ensures Obeys(rule, steps[..k])
  {
    forall i | 0 <= i < k && steps[..k][i].Unsubscribe?
      ensures Fit(rule, Unsub(steps[..k][i].topic, 0), AskedBy(steps[..k][..i]))
    {
      assert steps[..k][..i] == steps[..i];
    }
  }

  // ----- what goes wrong, and when

  /** A subscription message, or a reply without its command, comes while the flag is clear: it is handed
      to a regular command's callback or fails the source's assertion. */
  predicate GoesWrong(s: State) {
    s.toClient != [] && !s.subscribed && (s.replies == [] || !s.toClient[0].Plain?)
  }

  /** Regular commands' replies come first and in order; outside a subscription nothing else comes. */
  predicate Aligned(s: State) {
    && |s.replies| <= s.Size() && (!s.subscribed ==> |s.replies| == s.Size())
    && (forall i :: 0 <= i < |s.replies| ==> s.At(i) == Plain(s.replies[i]))
    && (forall i :: |s.replies| <= i < s.Size() ==> !s.At(i).Plain?)
  }

  predicate Both(rule: Rule, s: State) { Fits(rule, s.toClient, s.read) && Fits(rule, s.toServer, s.held) }

  lemma BothKeep(rule: Rule, s: State, step: Step)
    requires Inv(s) && Enabled(s, step) && Both(rule, s) && rule != Truthful
    requires step.Unsubscribe? ==> Fit(rule, Unsub(step.topic, 0), s.Asked())
    ensures Both(rule, Apply(s, step))
  {
    var any := Topic(false, "");
    match step
    case Command(id) => Appended(s.toServer, Plain(id), any, rule, s.held);
    case Subscribe(t, cb) => Appended(s.toServer, Sub(t, 0), any, rule, s.held);
    case Unsubscribe(t) => Appended(s.toServer, Unsub(t, 0), any, rule, s.held);
    case Serve => Appended(s.toClient, Answer(s.toServer[0], |Served(s).held|), any, rule, s.read);
    case Publish(t) => Appended(s.toClient, Pub(t), any, rule, s.read);
    case Read =>
  }

  lemma AlignedKeep(s: State, step: Step)
    requires Inv(s) && Enabled(s, step) && Both(Guarded, s) && Both(Guarded, Apply(s, step)) && Aligned(s)
    ensures Aligned(Apply(s, step))
  {
    hide Inv, Both, Aligned, Took, Registered, Served;
    StepKeeps(s, step);
    match step
    case Command(id) => AskAligned(s, Plain(id), Apply(s, step));
    case Subscribe(t, cb) =>
      assert Apply(s, step) == Registered(s, t, cb);
      RegisteredAligned(s, t, cb);
    case Unsubscribe(t) => AskAligned(s, Unsub(t, 0), Apply(s, step));
    case Serve => ServeAligned(s);
    case Publish(t) => PublishAligned(s, t);
    case Read => ReadAligned(s);
  }

  /** A request goes behind everything under way, and a regular one is owed its reply. */
  lemma AskAligned(s: State, m: Item, s': State)
    requires Aligned(s) && s'.toClient == s.toClient && s'.toServer == s.toServer + [m]
    requires s'.subscribed || (m.Plain? && !s.subscribed)
    requires if m.Plain? then !s.subscribed && s'.replies == s.replies + [m.id] else s'.replies == s.replies
    ensures Aligned(s')
  {
    assert forall i :: 0 <= i < s.Size() ==> s'.At(i) == s.At(i);
    assert s'.At(s.Size()) == m;
  }

  lemma RegisteredAligned(s: State, t: Topic, cb: nat)
    requires Aligned(s)
    ensures Aligned(Registered(s, t, cb))
  {
    hide Aligned;
    AskAligned(s, Sub(t, 0), Registered(s, t, cb));
  }

  lemma ServeAligned(s: State)
    requires s.toServer != [] && Aligned(s)
    ensures Aligned(Served(s))
  {
    var s' := Served(s);
    ServedAt(s);
    forall i | 0 <= i < s.Size() ensures s'.At(i).Plain? == s.At(i).Plain? && (s.At(i).Plain? ==> s'.At(i) == s.At(i)) {
      if i == |s.toClient| { assert s.At(i) == s.toServer[0]; }
    }
  }

  lemma PublishAligned(s: State, t: Topic)
    requires Inv(s) && t in s.held && Aligned(s)
    ensures Aligned(Apply(s, Publish(t)))
  {
    var s' := Apply(s, Publish(t));
    if !s.subscribed { Outside(s); }
    forall i | |s.replies| <= i < s'.Size() ensures !s'.At(i).Plain? {
      if i < |s.toClient| {
        assert s'.At(i) == s.At(i);
      } else if i > |s.toClient| {
        assert s'.At(i) == s.At(i - 1);
      }
    }
    assert forall i :: 0 <= i < |s.replies| ==> s'.At(i) == s.At(i);
  }

  lemma FirstGuarded(s: State)
    requires Both(Guarded, s) && s.Size() > 0
    ensures s.At(0).Unsub? ==> if s.toClient != [] then s.read != {} else s.held != {}
  {
  }

  lemma NothingUnderWay(s: State)
    requires Inv(s) && !s.subscribed && Both(Guarded, s) && forall i :: 0 <= i < s.Size() ==> !s.At(i).Plain?
    ensures s.Size() == 0
  {
    hide Inv, Both;
    Outside(s);
    if s.Size() > 0 { FirstGuarded(s); }
  }

  lemma ReadAligned(s: State)
    requires Inv(s) && s.toClient != [] && !Aborts(s) && Aligned(s) && Inv(Took(s)) && Both(Guarded, Took(s))
    ensures Aligned(Took(s))
  {
    hide View, Subs, TopicOk, Shielded;
    var s' := Took(s);
    assert forall i :: 0 <= i < s'.Size() ==> s'.At(i) == s.At(i + 1);
    if !s'.subscribed && s.replies == [] {
      assert forall i :: 0 <= i < s'.Size() ==> !s'.At(i).Plain?;
      NothingUnderWay(s');
    }
  }

  lemma {:induction false} ObeyKeep(rule: Rule, steps: seq<Step>)
    requires IsRun(INIT, steps) && Obeys(rule, steps) && rule != Truthful
    ensures Both(rule, After(INIT, steps))
    decreases |steps|
  {
    if steps != [] {
      var k := |steps| - 1;
      RunNext(INIT, steps);
      ObeysBefore(rule, steps, k);
      ObeyKeep(rule, steps[..k]);
      InitOk();
      RunKeeps(INIT, steps[..k]);
      AskedIs(steps[..k]);
      hide IsRun, After, Both, Inv;
      BothKeep(rule, After(INIT, steps[..k]), steps[k]);
    }
  }

  lemma {:induction false} GuardedAligned(steps: seq<Step>)
    requires IsRun(INIT, steps) && Obeys(Guarded, steps)
    ensures Aligned(After(INIT, steps))
    decreases |steps|
  {
    if steps != [] {
      var k := |steps| - 1;
      RunNext(INIT, steps);
      ObeyKeep(Guarded, steps);
      ObeysBefore(Guarded, steps, k);
      ObeyKeep(Guarded, steps[..k]);
      GuardedAligned(steps[..k]);
      InitOk();
      RunKeeps(INIT, steps[..k]);
      hide IsRun, After, Both, Inv;
      AlignedKeep(After(INIT, steps[..k]), steps[k]);
    }
  }

  /** If each unsubscribe is called while some topic's latest request is a subscribe, nothing goes wrong
      in any run, and a reply always meets its own command. */
  lemma NeverWrong(steps: seq<Step>)
    requires IsRun(INIT, steps) && Obeys(Guarded, steps)
    ensures var s := After(INIT, steps);
            && !GoesWrong(s) && !Aborts(s)
            && (s.toClient != [] && s.toClient[0].Plain? ==> s.replies != [] && s.toClient[0].id == s.replies[0])
            && (s.toClient != [] && !s.toClient[0].Plain? ==> s.replies == [])
  {
    GuardedAligned(steps);
    hide IsRun, After;
    var s := After(INIT, steps);
    if s.toClient != [] { assert s.At(0) == s.toClient[0]; }
  }

  /** If each unsubscribe is of a topic whose latest request is a subscribe, then besides every subscription
      message reaches the callback of its topic's latest subscribe. */
  lemma Routing(steps: seq<Step>)
    requires IsRun(INIT, steps) && Obeys(Needed, steps)
    ensures Obeys(Guarded, steps)
    ensures var s := After(INIT, steps);
            s.toClient != [] && !s.toClient[0].Plain? ==>
              var t := s.toClient[0].topic;
              s.replies == [] && s.Find(t).Some? && t in s.latest && s.Find(t).value.cb == s.latest[t]
  {
    assert Obeys(Guarded, steps);
    NeverWrong(steps);
    ObeyKeep(Needed, steps);
    InitOk();
    RunKeeps(INIT, steps);
    hide IsRun, After;
    var s := After(INIT, steps);
    if s.toClient != [] && !s.toClient[0].Plain? { assert TopicOk(s, s.toClient[0].topic); }
  }

  /** An unsubscribe is the last thing under way and comes with nothing subscribed. */
  predicate LastVain(s: State) {
    if s.toServer != [] then
      s.toServer[|s.toServer| - 1].Unsub? && View(s.toServer[..|s.toServer| - 1], s.held) == {}
    else
      s.toClient != [] && s.toClient[|s.toClient| - 1].Unsub? && View(s.toClient[..|s.toClient| - 1], s.read) == {}
  }

  lemma ViewTail(q: seq<Item>, base: set<Topic>)
    requires |q| > 1
    ensures View(q[1..][..|q| - 2], Word(q[0], base)) == View(q[..|q| - 1], base)
  {
    assert q[..|q| - 1][1..] == q[1..][..|q| - 2];
  }

  lemma VainServe(s: State)
    requires LastVain(s) && s.toServer != [] && s.held == View(s.toClient, s.read)
    ensures LastVain(Served(s))
  {
    var last := s.toServer[|s.toServer| - 1];
    if |s.toServer| > 1 {
      ViewTail(s.toServer, s.held);
      assert s.toServer[1..][|s.toServer| - 2] == last;
    } else {
      hide View;
      assert s.toServer[..0] == [] && s.held == View([], s.held);
      assert Served(s).toClient[..|s.toClient|] == s.toClient;
    }
  }

  lemma VainRead(s: State)
    requires LastVain(s) && s.toServer == [] && |s.toClient| > 1
    ensures LastVain(Took(s))
  {
    ViewTail(s.toClient, s.read);
    hide View;
    assert s.toClient[1..][|s.toClient| - 2] == s.toClient[|s.toClient| - 1];
    assert Took(s).toClient == s.toClient[1..] && Took(s).read == Word(s.toClient[0], s.read);
  }

  lemma VainEnd(s: State)
    requires Inv(s) && LastVain(s) && s.toServer == [] && |s.toClient| == 1
    ensures GoesWrong(s)
  {
    assert s.toClient[..0] == [] && s.toClient[1..] == [];
    assert s.read == {};
    forall t ensures s.dicts.Find(t).None? {
      assert TopicOk(s, t);
      assert s.Unconfirmed(t) == 0;
    }
    Nothing(s.dicts);
  }

  /** Answering and reading what is under way then leads to something going wrong. */
  lemma {:induction false} VainBreaks(s: State) returns (more: seq<Step>)
    requires Inv(s) && LastVain(s)
    ensures IsRun(s, more) && GoesWrong(After(s, more))
    decreases |s.toServer|, |s.toClient|
  {
    if GoesWrong(s) { return []; }
    if s.toServer == [] && |s.toClient| == 1 {
      VainEnd(s);
      return [];
    }
    var step := if s.toServer != [] then Serve else Read;
    if s.toServer != [] {
      VainServe(s);
    } else {
      VainRead(s);
    }
    StepKeeps(s, step);
    hide Inv, LastVain;
    var rest := VainBreaks(Apply(s, step));
    more := [step] + rest;
    assert more[0] == step && more[1..] == rest;
  }

  lemma {:induction false} RunOn(s: State, steps: seq<Step>, more: seq<Step>)
    requires IsRun(s, steps) && IsRun(After(s, steps), more)
    ensures IsRun(s, steps + more) && After(s, steps + more) == After(After(s, steps), more)
    decreases steps
  {
    hide Apply, Enabled;
    if steps == [] {
      assert steps + more == more;
    } else {
      assert (steps + more)[1..] == steps[1..] + more;
      RunOn(Apply(s, steps[0]), steps[1..], more);
    }
  }

  /** The other direction: in any run, an unsubscribe called while no topic's latest request is a subscribe
      can go wrong, though the source accepts it. */
  lemma Breaking(steps: seq<Step>, t: Topic) returns (more: seq<Step>)
    requires IsRun(INIT, steps) && After(INIT, steps).subscribed && AskedBy(steps) == {}
    ensures IsRun(INIT, steps + ([Unsubscribe(t)] + more))
    ensures GoesWrong(After(INIT, steps + ([Unsubscribe(t)] + more)))
  {
    var s := After(INIT, steps);
    var s' := Apply(s, Unsubscribe(t));
    InitOk();
    RunKeeps(INIT, steps);
    AskedIs(steps);
    UnsubscribeKeeps(s, t);
    assert s'.toServer[..|s.toServer|] == s.toServer;
    more := VainBreaks(s');
    hide Inv, LastVain, View;
    var all := [Unsubscribe(t)] + more;
    assert all[0] == Unsubscribe(t) && all[1..] == more;
    assert IsRun(s, all) && After(s, all) == After(s', more);
    RunOn(INIT, steps, all);
  }

  /** The shortest case: subscribing to a channel and unsubscribing from it twice. */
  lemma TwiceBreaks(t: Topic, cb: nat) returns (more: seq<Step>)
    ensures var steps := [Subscribe(t, cb), Unsubscribe(t)] + ([Unsubscribe(t)] + more);
            IsRun(INIT, steps) && GoesWrong(After(INIT, steps))
  {
    var steps := [Subscribe(t, cb), Unsubscribe(t)];
    var s1 := Apply(INIT, Subscribe(t, cb));
    assert steps[1..] == [Unsubscribe(t)] && steps[1..][1..] == [];
    assert IsRun(s1, steps[1..]) && After(s1, steps[1..]) == Apply(s1, Unsubscribe(t));
    assert After(INIT, steps) == After(s1, steps[1..]);
    assert AskedBy(steps[..1]) == {t} by { assert steps[..1] == [Subscribe(t, cb)] && steps[..1][..0] == []; }
    assert AskedBy(steps) == {t} - {t};
    more := Breaking(steps, t);
  }

  // ----- several channels in one command

  /** The loop of `__redisAsyncCommand` over the channels of one SUBSCRIBE: the counter it fills the
      entries from is carried from one channel to the next. */
  function RegisterAll(dict: map<string, Entry>, names: seq<string>, cb: nat, carry: int): map<string, Entry>
    decreases names
  {
    if names == [] then dict else
    var n := if names[0] in dict then dict[names[0]].pending + 1 else carry;
    RegisterAll(dict[names[0] := Entry(cb, n)], names[1..], cb, n)
  }

  /** What the entries should be: each channel's own counter goes up with each mention. */
  function Wanted(dict: map<string, Entry>, names: seq<string>, cb: nat): map<string, Entry>
    decreases names
  {
    if names == [] then dict else
    var n := if names[0] in dict then dict[names[0]].pending + 1 else 1;
    Wanted(dict[names[0] := Entry(cb, n)], names[1..], cb)
  }

  /** No new channel is named while the counter, last taken from a known channel, is other than 1. */
  predicate CarryFree(dict: map<string, Entry>, names: seq<string>, cb: nat, carry: int)
    decreases names
  {
    names == [] ||
    var n := if names[0] in dict then dict[names[0]].pending + 1 else carry;
    (names[0] in dict || carry == 1) && CarryFree(dict[names[0] := Entry(cb, n)], names[1..], cb, n)
  }

  function Mentions(names: seq<string>, x: string): nat {
    if names == [] then 0 else (if names[0] == x then 1 else 0) + Mentions(names[1..], x)
  }

  lemma {:induction false} FinalCounter(dict: map<string, Entry>, names: seq<string>, cb: nat, carry: int, x: string)
    requires x in dict
    ensures var d := RegisterAll(dict, names, cb, carry);
            x in d && d[x].pending == dict[x].pending + Mentions(names, x)
    ensures var d := Wanted(dict, names, cb); x in d && d[x].pending == dict[x].pending + Mentions(names, x)
    decreases names
  {
    if names != [] {
      var n := if names[0] in dict then dict[names[0]].pending + 1 else carry;
      FinalCounter(dict[names[0] := Entry(cb, n)], names[1..], cb, n, x);
      var w := if names[0] in dict then dict[names[0]].pending + 1 else 1;
      FinalCounter(dict[names[0] := Entry(cb, w)], names[1..], cb, w, x);
    }
  }

  /** The counters come out right exactly when no new channel follows a known one with subscribes pending. */
  lemma {:induction false} CarryExact(dict: map<string, Entry>, names: seq<string>, cb: nat, carry: int)
    ensures RegisterAll(dict, names, cb, carry) == Wanted(dict, names, cb) <==> CarryFree(dict, names, cb, carry)
    decreases names
  {
    if names != [] {
      var x := names[0];
      var n := if x in dict then dict[x].pending + 1 else carry;
      if x in dict || carry == 1 {
        CarryExact(dict[x := Entry(cb, n)], names[1..], cb, n);
      } else {
        FinalCounter(dict[x := Entry(cb, n)], names[1..], cb, n, x);
        FinalCounter(dict[x := Entry(cb, 1)], names[1..], cb, 1, x);
      }
    }
  }

  /** SUBSCRIBE a with a confirmation outstanding, then SUBSCRIBE a b: b starts at 2. */
  lemma CarryWrong()
    ensures var a := map["a" := Entry(0, 1)];
            && RegisterAll(a, ["a", "b"], 1, 1) == map["a" := Entry(1, 2), "b" := Entry(1, 2)]
            && Wanted(a, ["a", "b"], 1) == map["a" := Entry(1, 2), "b" := Entry(1, 1)]
  {
    var a := map["a" := Entry(0, 1)];
    assert ["a", "b"][1..] == ["b"] && ["b"][1..] == [];
    assert "a" != "b" by { assert "a"[0] != "b"[0]; }
    var a' := a["a" := Entry(1, 2)];
    assert RegisterAll(a, ["a", "b"], 1, 1) == RegisterAll(a', ["b"], 1, 2) == a'["b" := Entry(1, 2)];
    assert Wanted(a, ["a", "b"], 1) == Wanted(a', ["b"], 1) == a'["b" := Entry(1, 1)];
  }

  // ----- the client's code

  /** Who a message is handed to. */
  datatype Target = ToCommand(id: nat) | ToTopic(cb: nat)

  function Requests(pattern: bool, names: seq<string>): seq<Item> {
    seq(|names|, i requires 0 <= i < |names| => Sub(Topic(pattern, names[i]), 0))
  }

  function Leaving(pattern: bool, names: seq<string>): seq<Step> {
    seq(|names|, i requires 0 <= i < |names| => Unsubscribe(Topic(pattern, names[i])))
  }

  lemma {:induction false} LeavingRuns(s: State, pattern: bool, names: seq<string>)
    requires s.subscribed
    ensures IsRun(s, Leaving(pattern, names))
    ensures After(s, Leaving(pattern, names)) ==
            s.(toServer := s.toServer + seq(|names|, k requires 0 <= k < |names| => Unsub(Topic(pattern, names[k]), 0)))
    decreases names
  {
    var items := seq(|names|, k requires 0 <= k < |names| => Unsub(Topic(pattern, names[k]), 0));
    if names == [] {
      assert s.toServer + items == s.toServer;
    } else {
      var next := Apply(s, Unsubscribe(Topic(pattern, names[0])));
      assert Leaving(pattern, names)[1..] == Leaving(pattern, names[1..]);
      LeavingRuns(next, pattern, names[1..]);
      assert items == [items[0]] + seq(|names| - 1, k requires 0 <= k < |names| - 1 => Unsub(Topic(pattern, names[1..][k]), 0));
      Assoc(s.toServer, [items[0]], items[1..]);
    }
  }

  class Link {
    var subscribed: bool
    var channels: map<string, Entry>
    var patterns: map<string, Entry>
    var replies: seq<nat>
    var toServer: seq<Item>
    var toClient: seq<Item>
    var held: set<Topic>
    ghost var read: set<Topic>
    ghost var latest: map<Topic, nat>

    ghost function Now(): State
      reads this
    {
      State(subscribed, Dicts(channels, patterns), replies, toServer, toClient, held, read, latest)
    }

    constructor ()
      ensures Now() == INIT
    {
      subscribed, channels, patterns, replies := false, map[], map[], [];
      toServer, toClient, held := [], [], {};
      read, latest := {}, map[];
    }

    /** `__redisAsyncCommand` for a regular command outside a subscription. */
    method AsyncCommand(id: nat)
      requires !subscribed
      modifies this
      ensures Now() == Apply(old(Now()), Command(id))
    {
      replies := replies + [id];
      toServer := toServer + [Plain(id)];
    }

    /** The entry of one topic of a subscribe command, and the counter carried on to the next. */
    method Register(pattern: bool, name: string, cb: nat, carry: int) returns (pending: int)
      modifies `channels, `patterns, `latest
      ensures var dict := old(if pattern then patterns else channels);
              && pending == (if name in dict then dict[name].pending + 1 else carry)
              && (if pattern then patterns else channels) == dict[name := Entry(cb, pending)]
      ensures if pattern then channels == old(channels) else patterns == old(patterns)
      ensures latest == old(latest)[Topic(pattern, name) := cb]
    {
      pending := carry;
      if pattern {
        if name in patterns { pending := patterns[name].pending + 1; }
        patterns := patterns[name := Entry(cb, pending)];
      } else {
        if name in channels { pending := channels[name].pending + 1; }
        channels := channels[name := Entry(cb, pending)];
      }
      latest := latest[Topic(pattern, name) := cb];
    }

    /** `__redisAsyncCommand` for SUBSCRIBE and PSUBSCRIBE: one counter serves all channels. */
    method AsyncSubscribe(pattern: bool, names: seq<string>, cb: nat)
      requires names != []
      modifies this
      ensures subscribed && toServer == old(toServer) + Requests(pattern, names)
      ensures channels == if pattern then old(channels) else RegisterAll(old(channels), names, cb, 1)
      ensures patterns == if pattern then RegisterAll(old(patterns), names, cb, 1) else old(patterns)
      ensures unchanged(`replies, `toClient, `held, `read)
      ensures |names| == 1 ==> Now() == Apply(old(Now()), Subscribe(Topic(pattern, names[0]), cb))
    {
      subscribed := true;
      var pending: int := 1;
      var i := 0;
      ghost var dict := if pattern then patterns else channels;
      assert names[0..] == names;
      while i < |names|
        invariant 0 <= i <= |names| && subscribed
        invariant unchanged(`replies, `toClient, `held, `read, `toServer)
        invariant if pattern then channels == old(channels) else patterns == old(patterns)
        invariant RegisterAll(if pattern then patterns else channels, names[i..], cb, pending) == RegisterAll(dict, names, cb, 1)
        invariant i == 0 ==> pending == 1 && channels == old(channels) && patterns == old(patterns) && latest == old(latest)
        invariant i == 1 ==> latest == old(latest)[Topic(pattern, names[0]) := cb]
        invariant i == 1 ==> Dicts(channels, patterns) == old(Now()).dicts.With(Topic(pattern, names[0]),
                               Entry(cb, old(Now()).Pending(Topic(pattern, names[0])) + 1))
      {
        assert names[i..][0] == names[i] && names[i..][1..] == names[i + 1..];
        pending := Register(pattern, names[i], cb, pending);
        i := i + 1;
      }
      toServer := toServer + seq(|names|, k requires 0 <= k < |names| => Sub(Topic(pattern, names[k]), 0));
      assert |names| == 1 ==> Requests(pattern, names) == [Sub(Topic(pattern, names[0]), 0)];
    }

    /** `__redisAsyncCommand` for UNSUBSCRIBE and PUNSUBSCRIBE with topics: it registers nothing, so that one
        command is as many steps as it has topics. */
    method AsyncUnsubscribe(pattern: bool, names: seq<string>) returns (ok: bool)
      requires names != []
      modifies this
      ensures ok == old(subscribed)
      ensures ok ==> IsRun(old(Now()), Leaving(pattern, names)) && Now() == After(old(Now()), Leaving(pattern, names))
      ensures !ok ==> Now() == old(Now())
    {
      if !subscribed { return false; }
      LeavingRuns(Now(), pattern, names);
      toServer := toServer + seq(|names|, k requires 0 <= k < |names| => Unsub(Topic(pattern, names[k]), 0));
      return true;
    }

    /** `__redisGetSubscribeCallback`: the callback of the message's topic; the variable keeps what it held
        when there is none. */
    method GetSubscribeCallback(m: Item, before: Option<Target>) returns (target: Option<Target>)
      requires !m.Plain? && subscribed
      modifies this`channels, this`patterns, this`subscribed
      ensures Dicts(channels, patterns) == TakenFrom(old(Now()).dicts, m)
      ensures subscribed == !Ends(old(Now()).dicts, m)
      ensures target == match old(Now()).Find(m.topic) { case Some(e) => Some(ToTopic(e.cb)) case None => before }
    {
      target := before;
      var t := m.topic;
      var dict := if t.pattern then patterns else channels;
      if t.name in dict {
        var e := dict[t.name];
        if m.Sub? { e := e.(pending := e.pending - 1); }
        dict := if m.Unsub? && e.pending == 0 then dict - {t.name} else dict[t.name := e];
        target := Some(ToTopic(e.cb));
        if t.pattern {
          patterns := dict;
        } else {
          channels := dict;
        }
        assert Dicts(channels, patterns) == TakenFrom(old(Now()).dicts, m);
        hide TakenFrom;
        if m.Unsub? && m.count == 0 && |channels| == 0 && |patterns| == 0 {
          subscribed := false;
        }
      }
    }

    /** One turn of `redisProcessCallbacks` on a reply that is no error: who gets the message. `before` is
        the callback of the previous turn. */
    method ProcessReply(before: Option<Target>) returns (aborted: bool, target: Option<Target>)
      requires toClient != []
      modifies this
      ensures aborted == Aborts(old(Now()))
      ensures !aborted ==> Now() == Apply(old(Now()), Read)
      ensures !aborted && old(replies) != [] ==> target == Some(ToCommand(old(replies)[0]))
      ensures !aborted && old(replies) == [] && !old(toClient)[0].Plain? ==>
                target == match old(Now()).Find(old(toClient)[0].topic) { case Some(e) => Some(ToTopic(e.cb)) case None => before }
    {
      var m := toClient[0];
      aborted, target := false, before;
      if replies != [] {
        target := Some(ToCommand(replies[0]));
        replies := replies[1..];
      } else if !subscribed {
        return true, before;
      } else if !m.Plain? {
        target := GetSubscribeCallback(m, before);
      }
      toClient := toClient[1..];
      read := Word(m, read);
    }
  }
}
