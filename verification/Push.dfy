/** Subscriptions over RESP3, where the server sends their messages as pushes: which of them reach the
    subscription's callbacks, and what becomes of a run. */
module Push {
  import opened Basics
  import opened PubSub
  import opened SortList

  // ----- the messages let through

  function First(a: string): char { if a == "" then '\0' else a[0] }

  function Rest(a: string): string { if a == "" then "" else a[1..] }

  /** `strncasecmp` finds no difference in the first n characters. */
  predicate Alike(a: string, b: string, n: nat) {
    n == 0 || (Lower(First(a)) == Lower(First(b)) && (First(a) == '\0' || Alike(Rest(a), Rest(b), n - 1)))
  }

  /** `redisIsSubscribeReply` on the word a push begins with. */
  predicate Passes(word: string) {
    |word| >= |"message"| &&
    var word' := if Lower(word[0]) == 'p' then word[1..] else word;
    Alike(word', "subscribe", |word'|) || Alike(word', "message", |word'|)
  }

  predicate Folded(a: string) { forall i :: 0 <= i < |a| ==> a[i] != '\0' && Lower(a[i]) == a[i] }

  predicate Begins(a: string, b: string) { |a| <= |b| && forall i :: 0 <= i < |a| ==> Lower(a[i]) == b[i] }

  lemma {:induction false} AlikeExact(a: string, b: string)
    requires '\0' !in a && Folded(b)
    ensures Alike(a, b, |a|) <==> Begins(a, b)
  {
    if a != "" {
      assert a[0] in a && Lower(a[0]) != '\0';
      if b != "" {
        assert '\0' !in a[1..];
        AlikeExact(a[1..], b[1..]);
        if Begins(a[1..], b[1..]) && Lower(a[0]) == b[0] {
          forall i | 0 <= i < |a| ensures Lower(a[i]) == b[i] { if i > 0 { assert a[1..][i - 1] == a[i] && b[1..][i - 1] == b[i]; } }
        }
        if Begins(a, b) {
          forall i | 0 <= i < |a| - 1 ensures Lower(a[1..][i]) == b[1..][i] { assert a[i + 1] == a[1..][i]; }
        }
      }
    }
  }

  /** The words let through are, but for a leading p and case, what "subscribe" or "message" begin with. */
  lemma PassesExactly(word: string)
    requires '\0' !in word
    ensures Passes(word) <==>
            && |word| >= 7
            && var word' := if Lower(word[0]) == 'p' then word[1..] else word;
            Begins(word', "subscribe") || Begins(word', "message")
  {
    if |word| >= 7 {
      var word' := if Lower(word[0]) == 'p' then word[1..] else word;
      AlikeExact(word', "subscribe");
      AlikeExact(word', "message");
    }
  }

  function Verb(m: Item): string {
    if m.Sub? then "subscribe" else if m.Unsub? then "unsubscribe" else "message"
  }

  function Kind(m: Item): string
    requires !m.Plain?
  {
    if m.topic.pattern then "p" + Verb(m) else Verb(m)
  }

  lemma VerbBegins(m: Item)
    ensures |Verb(m)| >= 7 && '\0' !in Verb(m) && Lower(Verb(m)[0]) != 'p'
    ensures Begins(Verb(m), "subscribe") || Begins(Verb(m), "message") <==> !m.Unsub?
  {
    assert Folded("subscribe") && Folded("message");
  }

  /** Of the messages of a subscription only the answers to an unsubscribe are not let through. */
  lemma KindPasses(m: Item)
    requires !m.Plain?
    ensures Passes(Kind(m)) <==> !m.Unsub?
  {
    hide Passes, Begins, Verb;
    VerbBegins(m);
    assert ("p" + Verb(m))[1..] == Verb(m);
    PassesExactly(Kind(m));
  }

  // ----- runs

  /** `redisIsSpontaneousPushReply`: the message goes to the push handler. */
  predicate Handled(m: Item) { !m.Plain? && !Passes(Kind(m)) }

  predicate PushEnabled(s: State, step: Step) {
    if step.Read? then s.toClient != [] && (Handled(s.toClient[0]) || !Aborts(s)) else Enabled(s, step)
  }

  /** A step over RESP3: as over RESP2, but for the messages that go to the push handler. */
  function PushApply(s: State, step: Step): State
    requires PushEnabled(s, step)
  {
    if step.Read? && Handled(s.toClient[0])
    then s.(toClient := s.toClient[1..], read := Word(s.toClient[0], s.read))
    else Apply(s, step)
  }

  predicate IsPushRun(s: State, steps: seq<Step>)
    decreases steps
  {
    steps == [] || (PushEnabled(s, steps[0]) && IsPushRun(PushApply(s, steps[0]), steps[1..]))
  }

  function PushAfter(s: State, steps: seq<Step>): State
    requires IsPushRun(s, steps)
    decreases steps
  {
    if steps == [] then s else PushAfter(PushApply(s, steps[0]), steps[1..])
  }

  /** The topics ever subscribed, each with the callback of its latest subscribe. */
  function Ever(steps: seq<Step>, base: map<Topic, nat>): map<Topic, nat>
    decreases steps
  {
    if steps == [] then base
    else Ever(steps[1..], if steps[0].Subscribe? then base[steps[0].topic := steps[0].cb] else base)
  }

  // ----- what every step keeps

  /** A topic ever subscribed has an entry with its latest callback, and no other has. */
  predicate EntryOk(s: State, t: Topic) {
    && s.Pending(t) == s.Unconfirmed(t) && (s.Find(t).Some? <==> t in s.latest)
    && (t in s.latest ==> s.Find(t).value.cb == s.latest[t])
  }

  /** The regular replies come first, each for its callback; what follows is of topics ever subscribed. */
  predicate ItemOk(s: State, i: nat)
    requires i < s.Size()
  {
    if i < |s.replies| then s.At(i) == Plain(s.replies[i])
    else !s.At(i).Plain? && (s.At(i).Unsub? || s.At(i).topic in s.latest)
  }

  ghost predicate PushInv(s: State) {
    && (forall t :: EntryOk(s, t))
    && |s.replies| <= s.Size() && (forall i :: 0 <= i < s.Size() ==> ItemOk(s, i))
    && (|s.replies| > |s.toClient| ==> s.held == {}) && s.held <= s.latest.Keys
    && (s.subscribed <==> s.latest != map[]) && (!s.subscribed ==> |s.replies| == s.Size())
  }

  lemma CommandStays(s: State, id: nat)
    requires PushInv(s) && !s.subscribed
    ensures PushInv(Apply(s, Command(id)))
  {
    hide Subs;
    var s' := Apply(s, Command(id));
    AskingAt(s, Plain(id));
    assert forall i :: 0 <= i < s'.Size() ==> s'.At(i) == Asking(s, Plain(id)).At(i);
    forall t ensures EntryOk(s', t) { assert EntryOk(s, t) && s'.Unconfirmed(t) == Asking(s, Plain(id)).Unconfirmed(t); }
    forall i | 0 <= i < s'.Size() ensures ItemOk(s', i) { if i < s.Size() { assert ItemOk(s, i); } }
    assert s.held == {};
  }

  lemma SubscribeStays(s: State, t: Topic, cb: nat)
    requires PushInv(s)
    ensures PushInv(Registered(s, t, cb))
  {
    hide Subs;
    var s' := Registered(s, t, cb);
    AskingAt(s, Sub(t, 0));
    assert forall i :: 0 <= i < s'.Size() ==> s'.At(i) == Asking(s, Sub(t, 0)).At(i);
    forall u ensures EntryOk(s', u) {
      assert EntryOk(s, u) && EntryOk(s, t) && s'.Unconfirmed(u) == Asking(s, Sub(t, 0)).Unconfirmed(u);
    }
    forall i | 0 <= i < s'.Size() ensures ItemOk(s', i) { if i < s.Size() { assert ItemOk(s, i); } }
    assert t in s'.latest;
  }

  lemma UnsubscribeStays(s: State, t: Topic)
    requires PushInv(s) && s.subscribed
    ensures PushInv(Asking(s, Unsub(t, 0)))
  {
    hide Subs;
    var s' := Asking(s, Unsub(t, 0));
    AskingAt(s, Unsub(t, 0));
    forall u ensures EntryOk(s', u) { assert EntryOk(s, u); }
    forall i | 0 <= i < s'.Size() ensures ItemOk(s', i) { if i < s.Size() { assert ItemOk(s, i); } }
  }

  lemma ServeStays(s: State)
    requires PushInv(s) && s.toServer != []
    ensures PushInv(Served(s))
  {
    hide Subs;
    var s', k := Served(s), |s.toClient|;
    ServedAt(s);
    assert ItemOk(s, k) && s.At(k) == s.toServer[0];
    forall t ensures EntryOk(s', t) { assert EntryOk(s, t); }
    forall i | 0 <= i < s'.Size() ensures ItemOk(s', i) { assert ItemOk(s, i); }
  }

  lemma PublishStays(s: State, t: Topic)
    requires PushInv(s) && t in s.held
    ensures PushInv(Apply(s, Publish(t)))
  {
    hide Subs;
    var s', k := Apply(s, Publish(t)), |s.toClient|;
    forall u ensures EntryOk(s', u) {
      assert EntryOk(s, u);
      Appended(s.toClient, Pub(t), u, Truthful, s.read);
    }
    forall i | 0 <= i < s'.Size() ensures ItemOk(s', i) {
      if i < k {
        assert ItemOk(s, i) && s'.At(i) == s.At(i);
      } else if i > k {
        assert ItemOk(s, i - 1) && s'.At(i) == s.At(i - 1);
      }
    }
  }

  lemma ReadStays(s: State)
    requires PushInv(s) && PushEnabled(s, Read)
    ensures PushInv(PushApply(s, Read))
  {
    hide Passes, Kind;
    var s', m := PushApply(s, Read), s.toClient[0];
    assert ItemOk(s, 0) && s.At(0) == m;
    if !m.Plain? { KindPasses(m); }
    forall t ensures EntryOk(s', t) { assert EntryOk(s, t); }
    assert s'.Size() == s.Size() - 1;
    forall i | 0 <= i < s'.Size() ensures ItemOk(s', i) { assert ItemOk(s, i + 1) && s'.At(i) == s.At(i + 1); }
  }

  lemma StepStays(s: State, step: Step)
    requires PushInv(s) && PushEnabled(s, step)
    ensures PushInv(PushApply(s, step))
    ensures PushApply(s, step).latest == if step.Subscribe? then s.latest[step.topic := step.cb] else s.latest
  {
    hide PushInv, Passes, TakenFrom;
    match step
    case Command(id) => CommandStays(s, id);
    case Subscribe(t, cb) => SubscribeStays(s, t, cb);
    case Unsubscribe(t) => UnsubscribeStays(s, t);
    case Serve => ServeStays(s);
    case Publish(t) => PublishStays(s, t);
    case Read => ReadStays(s);
  }

  lemma {:induction false} RunStays(s: State, steps: seq<Step>)
    requires PushInv(s) && IsPushRun(s, steps)
    ensures PushInv(PushAfter(s, steps)) && PushAfter(s, steps).latest == Ever(steps, s.latest)
    decreases steps
  {
    hide PushInv, PushApply, PushEnabled;
    if steps != [] {
      StepStays(s, steps[0]);
      RunStays(PushApply(s, steps[0]), steps[1..]);
    }
  }

  lemma InitStays()
    ensures PushInv(INIT)
  {
    forall t ensures EntryOk(INIT, t) { assert INIT.Find(t) == None; }
  }

  /** In every run over RESP3, with no condition on its unsubscribes: the source's assertion does not fail, every
      regular reply goes to its own callback, and every counter is that of the unconfirmed subscribes. But no
      unsubscribe ever has an effect: a topic keeps its entry from its first subscribe on, and the flag stays. */
  lemma NeverLeft(steps: seq<Step>, t: Topic)
    requires IsPushRun(INIT, steps)
    ensures var s, ever := PushAfter(INIT, steps), Ever(steps, map[]);
            && (s.toClient != [] ==> PushEnabled(s, Read))
            && (s.toClient != [] && s.replies != [] ==> s.toClient[0] == Plain(s.replies[0]))
            && (s.toClient != [] && s.toClient[0].Plain? ==> s.replies != [])
            && (s.toClient != [] && s.toClient[0] == Pub(t) ==> t in ever)
            && s.Find(t) == (if t in ever then Some(Entry(ever[t], s.Unconfirmed(t))) else None)
            && (s.subscribed <==> ever != map[])
  {
    InitStays();
    RunStays(INIT, steps);
    hide IsPushRun, PushAfter, Ever, Passes, Subs;
    var s := PushAfter(INIT, steps);
    assert EntryOk(s, t);
    if s.toClient != [] { assert ItemOk(s, 0) && s.At(0) == s.toClient[0]; }
  }
}
