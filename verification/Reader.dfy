/** `redisReader`: the incremental reply reader with its buffer, its task stack and the reply objects
    it builds in place. Object pointers are indexes into the store `objs`, in order of allocation. */
module Reader {
  import opened Basics
  import opened Decimal
  import opened Resp
  import opened RespMachine

  /** A `redisReply`. A null element pointer is `None`. */
  datatype Object = Object(kind: Kind, integer: int, str: string, vtype: string, element: seq<Option<nat>>)

  /** A `redisReadTask`. Type -1 is `None`. */
  datatype Task = Task(kind: Option<Kind>, elements: int, idx: int, obj: Option<nat>, parent: Option<nat>)

  const STACK_SIZE: nat := 9
  const COMPACT_AT: nat := 1024

  // ----- what the object store represents

  function LeafObject(r: Reply): Object
    requires !r.AggregateReply?
  {
    match r
    case TextReply(kind, text) => Object(kind, 0, text, "", [])
    case VerbReply(format, text) => Object(Verb, 0, text, format, [])
    case IntegerReply(v) => Object(Integer, v, "", "", [])
    case DoubleReply(digits) => Object(Double, 0, digits, "", [])
    case NilReply => Object(Nil, 0, "", "", [])
    case BoolReply(b) => Object(Bool, if b then 1 else 0, "", "", [])
  }

  function AggregateObject(kind: Kind, element: seq<Option<nat>>): Object {
    Object(kind, 0, "", "", element)
  }

  /** How many objects a reply takes. */
  ghost function Size(r: Reply): (n: nat)
    ensures n >= 1
    decreases r
  {
    if r.AggregateReply? then 1 + SizeAll(r.elements) else 1
  }

  ghost function SizeAll(rs: seq<Reply>): nat
    decreases rs
  {
    if rs == [] then 0 else SizeAll(rs[..|rs| - 1]) + Size(rs[|rs| - 1])
  }

  /** The objects from `at` on are reply r: the object itself, then its elements one after another. */
  ghost predicate Holds(objs: seq<Object>, at: nat, r: Reply)
    decreases r
  {
    at + Size(r) <= |objs| &&
    if r.AggregateReply?
    then objs[at] == AggregateObject(r.kind, objs[at].element)
         && |objs[at].element| == |r.elements|
         && HoldsAll(objs, at + 1, objs[at].element, r.elements)
    else objs[at] == LeafObject(r)
  }

  /** The first |rs| slots point to the replies rs, laid out from `at` on. */
  ghost predicate HoldsAll(objs: seq<Object>, at: nat, slots: seq<Option<nat>>, rs: seq<Reply>)
    decreases rs
  {
    |rs| <= |slots| &&
    (rs != [] ==>
       var init := rs[..|rs| - 1];
       && HoldsAll(objs, at, slots, init)
       && slots[|rs| - 1] == Some(at + SizeAll(init))
       && Holds(objs, at + SizeAll(init), rs[|rs| - 1]))
  }

  lemma {:induction false} HoldsAppend(objs: seq<Object>, at: nat, slots: seq<Option<nat>>, rs: seq<Reply>, r: Reply)
    requires HoldsAll(objs, at, slots, rs) && |rs| < |slots|
    requires slots[|rs|] == Some(at + SizeAll(rs)) && Holds(objs, at + SizeAll(rs), r)
    ensures HoldsAll(objs, at, slots, rs + [r]) && SizeAll(rs + [r]) == SizeAll(rs) + Size(r)
  {
    assert (rs + [r])[..|rs|] == rs;
  }

  ghost predicate Agree(objs: seq<Object>, objs': seq<Object>, lo: nat, hi: nat) {
    |objs| <= |objs'| && forall k :: lo <= k < hi && k < |objs| ==> objs'[k] == objs[k]
  }

  lemma {:induction false} HoldsFrame(objs: seq<Object>, objs': seq<Object>, at: nat, r: Reply)
    requires Holds(objs, at, r) && Agree(objs, objs', at, at + Size(r))
    ensures Holds(objs', at, r)
    decreases r, 0
  {
    if r.AggregateReply? {
      HoldsAllFrame(objs, objs', at + 1, objs[at].element, objs[at].element, r.elements);
    }
  }

  lemma {:induction false} HoldsAllFrame(objs: seq<Object>, objs': seq<Object>, at: nat,
                                         slots: seq<Option<nat>>, slots': seq<Option<nat>>, rs: seq<Reply>)
    requires HoldsAll(objs, at, slots, rs) && Agree(objs, objs', at, at + SizeAll(rs))
    requires |slots| == |slots'| && forall i :: 0 <= i < |rs| ==> slots'[i] == slots[i]
    ensures HoldsAll(objs', at, slots', rs)
    decreases rs, 1
  {
    if rs != [] {
      var init, last := rs[..|rs| - 1], rs[|rs| - 1];
      assert SizeAll(rs) == SizeAll(init) + Size(last);
      HoldsAllFrame(objs, objs', at, slots, slots', init);
      HoldsFrame(objs, objs', at + SizeAll(init), last);
    }
  }

  // ----- what the task stack represents

  /** Task t is the aggregate f. Its next element goes to address `next`; the slot for it now holds
      `slot`, and every later slot is still null. */
  ghost predicate Level(objs: seq<Object>, t: Task, f: Frame, next: nat, slot: Option<nat>) {
    && t.kind == Some(f.kind) && IsAggregate(f.kind)
    && t.elements == f.total && |f.done| < f.total
    && t.obj.Some? && t.obj.value < next <= |objs|
    && var p, element := t.obj.value, objs[t.obj.value].element;
    && objs[p] == AggregateObject(f.kind, element) && |element| == f.total
    && HoldsAll(objs, p + 1, element, f.done) && p + 1 + SizeAll(f.done) == next
    && element[|f.done|] == slot
    && forall j :: |f.done| < j < f.total ==> element[j] == None
  }

  ghost predicate Stack(objs: seq<Object>, task: seq<Task>, frames: seq<Frame>, next: nat, slot: Option<nat>, base: nat)
    decreases |frames|
  {
    var k := |frames|;
    && k < |task|
    && if k == 0
       then next == base && task[0].parent == None && task[0].idx == -1
       else
         && Level(objs, task[k - 1], frames[k - 1], next, slot)
         && task[k].idx == |frames[k - 1].done| && task[k].parent == Some(k - 1)
         && Stack(objs, task, frames[..k - 1], task[k - 1].obj.value, task[k - 1].obj, base)
  }

  lemma StackTop(objs: seq<Object>, task: seq<Task>, frames: seq<Frame>, next: nat, slot: Option<nat>, base: nat)
    requires Stack(objs, task, frames, next, slot, base)
    ensures |frames| < |task|
    ensures frames == [] ==> next == base
    ensures frames != [] ==>
              var f, prv := frames[|frames| - 1], task[|frames| - 1];
              && prv.kind == Some(f.kind) && IsAggregate(f.kind) && prv.obj.Some?
              && prv.elements == f.total && task[|frames|].idx == |f.done| < f.total
  {
  }

  lemma {:induction false} StackFrame(objs: seq<Object>, objs': seq<Object>, task: seq<Task>, task': seq<Task>,
                                      frames: seq<Frame>, next: nat, slot: Option<nat>, base: nat)
    requires Stack(objs, task, frames, next, slot, base)
    requires Agree(objs, objs', 0, next)
    requires |task| <= |task'| && task'[..|frames|] == task[..|frames|]
    requires task'[|frames|].idx == task[|frames|].idx && task'[|frames|].parent == task[|frames|].parent
    ensures Stack(objs', task', frames, next, slot, base)
    decreases |frames|
  {
    var k := |frames|;
    if k > 0 {
      var t, f := task[k - 1], frames[k - 1];
      assert task'[k - 1] == task'[..k][k - 1] == task[..k][k - 1] == t;
      assert task'[..k - 1] == task'[..k][..k - 1] == task[..k][..k - 1] == task[..k - 1];
      var element := objs[t.obj.value].element;
      HoldsAllFrame(objs, objs', t.obj.value + 1, element, element, f.done);
      StackFrame(objs, objs', task, task', frames[..k - 1], t.obj.value, t.obj, base);
    }
  }

  lemma {:induction false} StackAbove(objs: seq<Object>, task: seq<Task>, frames: seq<Frame>, next: nat, slot: Option<nat>, base: nat)
    requires Stack(objs, task, frames, next, slot, base)
    ensures base <= next
    ensures frames != [] ==> base <= task[|frames| - 1].obj.value < next
    decreases |frames|
  {
    if frames != [] {
      var k := |frames| - 1;
      StackAbove(objs, task, frames[..k], task[k].obj.value, task[k].obj, base);
    }
  }

  /** The slot waiting for the next object. */
  lemma StackParent(objs: seq<Object>, task: seq<Task>, frames: seq<Frame>, base: nat)
    requires Stack(objs, task, frames, |objs|, None, base)
    ensures var k := |frames|;
            && k < |task| && (task[k].parent == if k == 0 then None else Some(k - 1))
            && (k > 0 ==>
                  && task[k - 1].obj.Some? && task[k - 1].obj.value < |objs|
                  && var p := objs[task[k - 1].obj.value];
                  && IsAggregate(p.kind) && 0 <= task[k].idx < |p.element| && p.element[task[k].idx] == None)
  {
  }

  /** The objects with a new one in the waiting slot. */
  ghost function Filled(objs: seq<Object>, p: nat, idx: int, o: Object): seq<Object>
    requires p < |objs| && 0 <= idx < |objs[p].element|
  {
    (objs + [o])[p := objs[p].(element := objs[p].element[idx := Some(|objs|)])]
  }

  lemma LevelFilled(objs: seq<Object>, t: Task, f: Frame, o: Object)
    requires Level(objs, t, f, |objs|, None)
    ensures Level(Filled(objs, t.obj.value, |f.done|, o), t, f, |objs|, Some(|objs|))
  {
    var p := t.obj.value;
    var objs' := Filled(objs, p, |f.done|, o);
    HoldsAllFrame(objs, objs', p + 1, objs[p].element, objs'[p].element, f.done);
  }

  lemma Attached(objs: seq<Object>, objs': seq<Object>, task: seq<Task>, frames: seq<Frame>, base: nat, o: Object)
    requires Stack(objs, task, frames, |objs|, None, base)
    requires frames == [] ==> objs' == objs + [o]
    requires frames != [] ==>
               var k := |frames| - 1;
               && k + 1 < |task| && task[k].obj.Some? && task[k].obj.value < |objs| && 0 <= task[k + 1].idx < |objs[task[k].obj.value].element|
               && objs' == Filled(objs, task[k].obj.value, task[k + 1].idx, o)
    ensures Stack(objs', task, frames, |objs|, Some(|objs|), base) && Agree(objs, objs', 0, base)
  {
    hide Level, HoldsAll;
    StackAbove(objs, task, frames, |objs|, None, base);
    if frames != [] {
      var k := |frames| - 1;
      var p := task[k].obj.value;
      LevelFilled(objs, task[k], frames[k], o);
      StackFrame(objs, objs', task, task, frames[..k], p, Some(p), base);
    }
  }

  /** The last element of the innermost aggregate closes it. */
  lemma CloseLevel(objs: seq<Object>, task: seq<Task>, frames: seq<Frame>, at: nat, r: Reply, base: nat)
    requires frames != [] && Stack(objs, task, frames, at, Some(at), base)
    requires Holds(objs, at, r) && at + Size(r) == |objs|
    requires |frames[|frames| - 1].done| + 1 == frames[|frames| - 1].total
    ensures var k := |frames| - 1;
            var p, whole := task[k].obj.value, AggregateReply(frames[k].kind, frames[k].done + [r]);
            && Stack(objs, task, frames[..k], p, Some(p), base)
            && Holds(objs, p, whole) && p + Size(whole) == |objs|
  {
    var k := |frames| - 1;
    var p := task[k].obj.value;
    HoldsAppend(objs, p + 1, objs[p].element, frames[k].done, r);
  }

  /** One more level on a stack. */
  lemma StackMore(objs: seq<Object>, task: seq<Task>, frames: seq<Frame>, f: Frame, next: nat, slot: Option<nat>, base: nat)
    requires |frames| + 1 < |task| && Level(objs, task[|frames|], f, next, slot)
    requires task[|frames| + 1].idx == |f.done| && task[|frames| + 1].parent == Some(|frames|)
    requires Stack(objs, task, frames, task[|frames|].obj.value, task[|frames|].obj, base)
    ensures Stack(objs, task, frames + [f], next, slot, base)
  {
    assert (frames + [f])[..|frames|] == frames;
    hide HoldsAll;
  }

  /** Any other element moves the innermost aggregate to its next slot. */
  lemma LevelMore(objs: seq<Object>, t: Task, f: Frame, at: nat, r: Reply)
    requires Level(objs, t, f, at, Some(at)) && Holds(objs, at, r) && at + Size(r) == |objs| && |f.done| + 1 < f.total
    ensures Level(objs, t, f.(done := f.done + [r]), |objs|, None)
  {
    HoldsAppend(objs, t.obj.value + 1, objs[t.obj.value].element, f.done, r);
  }

  lemma AdvanceLevel(objs: seq<Object>, task: seq<Task>, frames: seq<Frame>, at: nat, r: Reply, base: nat)
    requires frames != [] && Stack(objs, task, frames, at, Some(at), base)
    requires Holds(objs, at, r) && at + Size(r) == |objs|
    requires |frames[|frames| - 1].done| + 1 < frames[|frames| - 1].total
    ensures var k, cur := |frames| - 1, task[|frames|];
            var f := frames[k].(done := frames[k].done + [r]);
            var task' := task[k + 1 := cur.(kind := None, elements := -1, idx := cur.idx + 1)];
            Stack(objs, task', frames[..k] + [f], |objs|, None, base)
  {
    var k, cur := |frames| - 1, task[|frames|];
    var p := task[k].obj.value;
    var f := frames[k].(done := frames[k].done + [r]);
    var task' := task[k + 1 := cur.(kind := None, elements := -1, idx := cur.idx + 1)];
    LevelMore(objs, task[k], frames[k], at, r);
    hide Level, Holds, HoldsAll, Stack;
    StackFrame(objs, objs, task, task', frames[..k], p, Some(p), base);
    StackMore(objs, task', frames[..k], f, |objs|, None, base);
  }

  /** A new aggregate becomes the innermost one; all its slots are null. */
  lemma PushLevel(objs: seq<Object>, task: seq<Task>, frames: seq<Frame>, q: nat, kind: Kind, n: nat, base: nat)
    requires Stack(objs, task, frames, q, Some(q), base) && q + 1 == |objs|
    requires objs[q] == AggregateObject(kind, seq(n, _ => None)) && IsAggregate(kind) && n > 0
    requires |frames| + 1 < |task| && task[|frames|].kind == Some(kind)
    ensures var k := |frames|;
            var task' := task[k := task[k].(elements := n, obj := Some(q))]
                             [k + 1 := Task(None, -1, 0, None, Some(k))];
            Stack(objs, task', frames + [Frame(kind, n, [])], |objs|, None, base)
  {
    var k, f := |frames|, Frame(kind, n, []);
    var task' := task[k := task[k].(elements := n, obj := Some(q))]
                     [k + 1 := Task(None, -1, 0, None, Some(k))];
    hide Level, HoldsAll, Stack;
    assert task'[..k] == task[..k];
    StackFrame(objs, objs, task, task', frames, q, Some(q), base);
    LevelNew(objs, task'[k], f, q);
    StackMore(objs, task', frames, f, |objs|, None, base);
  }

  lemma LevelNew(objs: seq<Object>, t: Task, f: Frame, q: nat)
    requires q + 1 == |objs| && objs[q] == AggregateObject(f.kind, seq(f.total, _ => None)) && IsAggregate(f.kind) && f.total > 0
    requires f.done == [] && t.kind == Some(f.kind) && t.elements == f.total && t.obj == Some(q)
    ensures Level(objs, t, f, |objs|, None)
  {
    assert HoldsAll(objs, q + 1, objs[q].element, []);
  }

  // ----- loops over the buffer

  /** `seekNewline`. */
  method SeekNewline(s: string) returns (r: Option<nat>)
    ensures r == Newline(s)
  {
    var pos, len := 0, |s| - 1;
    while pos < len
      invariant 0 <= pos && (pos <= len || pos == 0)
      invariant forall k: nat :: k < pos ==> !NewlineAt(s, k)
      decreases len - pos
    {
      while pos < len && s[pos] != '\r'
        invariant 0 <= pos <= len
        invariant forall k: nat :: k < pos ==> !NewlineAt(s, k)
      {
        pos := pos + 1;
      }
      if pos == len {
        break;
      } else if s[pos + 1] == '\n' {
        NewlineFirst(s, pos);
        return Some(pos);
      } else {
        pos := pos + 1;
      }
    }
    if Newline(s).Some? { NewlineFirst(s, Newline(s).value); }
    return None;
  }

  /** A position counted from the end if negative, but never before the beginning. */
  function Counted(len: nat, i: int): nat { if i >= 0 then i else if len + i >= 0 then len + i else 0 }

  /** `sdsrange`: what of the string lies between two positions, both included. */
  method Range(s: string, start: int, end: int) returns (r: string)
    ensures var lo, hi := Counted(|s|, start), Counted(|s|, end);
            && (lo <= hi < |s| ==> r == s[lo..hi + 1])
            && (lo <= |s| <= hi ==> r == s[lo..])
            && (lo > hi || lo > |s| ==> r == "")
  {
    var len := |s|;
    if len == 0 { return s; }
    var lo, hi := start, end;
    if lo < 0 {
      lo := len + lo;
      if lo < 0 { lo := 0; }
    }
    if hi < 0 {
      hi := len + hi;
      if hi < 0 { hi := 0; }
    }
    var newlen := if lo > hi then 0 else hi - lo + 1;
    if newlen != 0 {
      if lo >= len {
        newlen := 0;
      } else if hi >= len {
        hi := len - 1;
        newlen := if lo > hi then 0 else hi - lo + 1;
      }
    } else {
      lo := 0;
    }
    return if newlen == 0 then "" else s[lo..lo + newlen];
  }

  /** The value of a line item, and the object `create…Object` makes of it. */
  method MakeLine(cfg: Config, kind: Kind, inPush: bool, ghost parent: Option<Kind>, line: string)
    returns (error: Option<ProtocolError>, o: Object, ghost r: Reply)
    requires inPush <==> parent == Some(Push)
    ensures error.Some? ==> LineItem(cfg, kind, parent, line) == Bad(error.value)
    ensures error.None? ==> LineItem(cfg, kind, parent, line) == Leaf(r, |line| + 2)
    ensures error.None? ==> !r.AggregateReply? && o == LeafObject(r)
  {
    o, r := Object(Nil, 0, "", "", []), NilReply;
    if kind == Integer {
      var v := String2ll(line);
      if v == None { return Some(BadInteger), o, r; }
      return None, Object(Integer, v.value, "", "", []), IntegerReply(v.value);
    } else if kind == Double {
      if |line| >= DOUBLE_BUFFER { return Some(DoubleTooLarge), o, r; }
      if !cfg.isDouble(line) { return Some(BadDouble), o, r; }
      if inPush { return Some(AssertionFailed), o, r; }
      return None, Object(Double, 0, line, "", []), DoubleReply(line);
    } else if kind == Nil {
      if inPush { return Some(AssertionFailed), o, r; }
      return None, o, r;
    } else if kind == Bool {
      if inPush { return Some(AssertionFailed), o, r; }
      var truth := line != "" && (line[0] == 't' || line[0] == 'T');
      return None, Object(Bool, if truth then 1 else 0, "", "", []), BoolReply(truth);
    }
    return None, Object(kind, 0, line, "", []), TextReply(kind, line);
  }

  datatype Bulk =
    | Partial
    | Faulty(error: ProtocolError)
    | Made(o: Object, r: Reply, used: nat)

  /** The value of a bulk item whose length line ends at `header`. */
  method MakeBulk(kind: Kind, inPush: bool, ghost parent: Option<Kind>, s: string, header: nat)
    returns (made: Bulk)
    requires inPush <==> parent == Some(Push)
    requires header + 2 <= |s| && IsBulk(kind)
    ensures made.Partial? <==> BulkItem(kind, parent, s, header).Incomplete?
    ensures made.Faulty? ==> BulkItem(kind, parent, s, header) == Bad(made.error)
    ensures made.Made? ==> BulkItem(kind, parent, s, header) == Leaf(made.r, made.used)
    ensures made.Made? ==> 2 <= made.used <= |s| && !made.r.AggregateReply? && made.o == LeafObject(made.r)
  {
    var bytelen := header + 2;
    var read := String2ll(s[..header]);
    if read == None { return Faulty(BadBulkLength); }
    var len := read.value;
    if len < -1 { return Faulty(BulkLengthOutOfRange); }
    if len == -1 {
      if inPush { return Faulty(AssertionFailed); }
      return Made(Object(Nil, 0, "", "", []), NilReply, bytelen);
    }
    bytelen := bytelen + len + 2;
    if bytelen > |s| { return Partial; }
    var payload := s[header + 2..header + 2 + len];
    if kind == Verb {
      if len < 4 || s[header + 5] != ':' { return Faulty(BadVerbatim); }
      return Made(Object(Verb, 0, payload[4..], payload[..3], []), VerbReply(payload[..3], payload[4..]), bytelen);
    }
    return Made(Object(kind, 0, payload, "", []), TextReply(kind, payload), bytelen);
  }

  /** The number of elements an aggregate announces, -1 for a nil. */
  method MakeCount(cfg: Config, kind: Kind, inPush: bool, ghost parent: Option<Kind>, line: string)
    returns (error: Option<ProtocolError>, elements: int)
    requires inPush <==> parent == Some(Push)
    ensures error.Some? ==> AggregateItem(cfg, kind, parent, line) == Bad(error.value)
    ensures error.None? ==> elements >= -1
    ensures error.None? && elements == -1 ==> AggregateItem(cfg, kind, parent, line) == Leaf(NilReply, |line| + 2)
    ensures error.None? && elements >= 0 ==> AggregateItem(cfg, kind, parent, line) == Open(elements, |line| + 2)
  {
    var count := String2ll(line);
    if count == None { return Some(BadMultiBulkLength), 0; }
    elements := count.value;
    if elements < -1 || (cfg.maxElements > 0 && elements > cfg.maxElements) {
      return Some(MultiBulkLengthOutOfRange), 0;
    }
    if elements == -1 {
      if inPush { return Some(AssertionFailed), 0; }
      return None, -1;
    }
    if kind == Map { elements := elements * 2; }
    return None, elements;
  }

  lemma StepDelivers(cfg: Config, m: Machine, kind: Kind, s: string, r: Reply, used: nat)
    requires m.cur == Some(kind) && (r.AggregateReply? ==> r == AggregateReply(kind, []))
    requires ReadItem(cfg, kind, Parent(m.frames), s) == if r.AggregateReply? then Open(0, used) else Leaf(r, used)
    ensures Step(cfg, m, s) == Deliver(m.frames, r, used)
  {
    hide ReadItem, Deliver;
  }

  lemma StepOpens(cfg: Config, m: Machine, kind: Kind, s: string, count: nat, used: nat)
    requires m.cur == Some(kind) && count > 0 && ReadItem(cfg, kind, Parent(m.frames), s) == Open(count, used)
    ensures Step(cfg, m, s) == Next(Machine(m.frames + [Frame(kind, count, [])], None), used)
  {
    hide ReadItem, Deliver;
  }

  class RedisReader {
    const cfg: Config

    var err: Option<ProtocolError>
    var buf: string
    var pos: nat
    var task: seq<Task>
    var ridx: int
    var reply: Option<nat>
    var objs: seq<Object>

    ghost var fed: string         // all text accepted so far
    ghost var out: seq<Reply>     // all replies handed out so far
    ghost var frames: seq<Frame>  // the open aggregates
    ghost var base: nat           // objects from here on belong to the reply being built

    ghost function Unread(): string
      requires pos <= |buf|
      reads this
    {
      buf[pos..]
    }

    /** In the middle of a reply. */
    ghost predicate Working()
      reads this
    {
      && err == None && pos <= |buf|
      && ridx == |frames| && Stack(objs, task, frames, |objs|, None, base)
      && reply == (if frames == [] then None else Some(base))
      && Tracks(cfg, fed, out, Machine(frames, task[ridx].kind), Unread())
    }

    /** Between two replies. */
    ghost predicate Resting()
      reads this
    {
      && err == None && pos <= |buf|
      && ridx == -1 && frames == [] && |task| > 0 && base == |objs| && reply == None
      && Tracks(cfg, fed, out, Idle, Unread())
    }

    /** The reply `whole` has just been completed and is about to be handed out. */
    ghost predicate Emitting(whole: Reply)
      reads this
    {
      && err == None && pos <= |buf|
      && ridx == -1 && frames == [] && |task| > 0
      && reply == Some(base) && Holds(objs, base, whole) && base + Size(whole) == |objs|
      && Tracks(cfg, fed, out + [whole], Idle, Unread())
    }

    /** After a protocol error. */
    ghost predicate Broken()
      reads this
    {
      && err.Some? && buf == "" && pos == 0 && ridx == -1 && frames == [] && base <= |objs|
      && Dead(cfg, fed, out, err.value)
    }

    ghost predicate Valid()
      reads this
    {
      Working() || Resting() || Broken()
    }

    constructor (cfg: Config)
      ensures Valid() && Resting() && this.cfg == cfg
      ensures fed == "" && out == [] && objs == []
    {
      this.cfg := cfg;
      err := None;
      buf, pos := "", 0;
      task := seq(STACK_SIZE, _ => Task(None, 0, 0, None, None));
      ridx := -1;
      reply := None;
      objs := [];
      fed, out, frames, base := "", [], [], 0;
      new;
      TracksStart(cfg);
    }

    /** `__redisReaderSetError`: the buffer and the stack are dropped; the error stays. */
    method SetError(e: ProtocolError)
      requires err == None && Dead(cfg, fed, out, e) && base <= |objs|
      modifies this
      ensures Broken() && err == Some(e)
      ensures fed == old(fed) && out == old(out) && objs == old(objs) && base == old(base)
    {
      reply := None;
      buf, pos := "", 0;
      ridx := -1;
      err := Some(e);
      frames := [];
    }

    /** The part of every `create…Object` that stores the new object into its parent's slot. The slot
        is null until then. */
    method Attach(o: Object)
      requires ridx == |frames| && Stack(objs, task, frames, |objs|, None, base)
      modifies this`objs
      ensures |objs| == old(|objs|) + 1 && objs[old(|objs|)] == o
      ensures Stack(objs, task, frames, old(|objs|), Some(old(|objs|)), base)
      ensures base <= old(|objs|) && Agree(old(objs), objs, 0, base)
    {
      hide Stack, Level, HoldsAll;
      StackAbove(objs, task, frames, |objs|, None, base);
      StackParent(objs, task, frames, base);
      ghost var before := objs;
      var q, cur := |objs|, task[ridx];
      objs := objs + [o];
      if cur.parent.Some? {
        var p := task[cur.parent.value].obj.value;
        assert IsAggregate(objs[p].kind);
        assert objs[p].element[cur.idx] == None;
        objs := objs[p := objs[p].(element := objs[p].element[cur.idx := Some(q)])];
      }
      Attached(before, objs, task, frames, base, o);
    }

    /** `moveToNextTask`: the value r, finished at address `at`, completes zero or more aggregates. */
    method MoveToNextTask(ghost r: Reply, ghost at: nat, ghost used: nat) returns (ghost whole: Reply)
      requires ridx == |frames| && Stack(objs, task, frames, at, Some(at), base)
      requires Holds(objs, at, r) && at + Size(r) == |objs|
      modifies this`task, this`ridx, this`frames
      ensures |task| == old(|task|)
      ensures ridx == |frames| || (ridx == -1 && frames == [])
      ensures ridx == -1 ==> Deliver(old(frames), r, used) == Finished(whole, used)
                             && Holds(objs, base, whole) && base + Size(whole) == |objs|
      ensures ridx >= 0 ==> Deliver(old(frames), r, used) == Next(Machine(frames, None), used)
                            && frames != [] && Stack(objs, task, frames, |objs|, None, base)
                            && task[ridx].kind == None
    {
      hide Holds, HoldsAll, Level, Stack;
      ghost var value: Reply, addr: nat := r, at;
      StackTop(objs, task, frames, at, Some(at), base);
      while ridx >= 0
        invariant 0 <= ridx == |frames| < |task| && |task| == old(|task|)
        invariant Stack(objs, task, frames, addr, Some(addr), base)
        invariant Holds(objs, addr, value) && addr + Size(value) == |objs|
        invariant Deliver(old(frames), r, used) == Deliver(frames, value, used)
        decreases ridx
      {
        if ridx == 0 {
          StackTop(objs, task, frames, addr, Some(addr), base);
          ridx := ridx - 1;
          whole := value;
          return;
        }
        StackTop(objs, task, frames, addr, Some(addr), base);
        var cur, prv := task[ridx], task[ridx - 1];
        assert prv.kind.Some? && IsAggregate(prv.kind.value);
        ghost var k := |frames| - 1;
        ghost var f := frames[k];
        if cur.idx == prv.elements - 1 {
          CloseLevel(objs, task, frames, addr, value, base);
          ridx := ridx - 1;
          value, addr := AggregateReply(f.kind, f.done + [value]), prv.obj.value;
          frames := frames[..k];
        } else {
          assert cur.idx < prv.elements;
          AdvanceLevel(objs, task, frames, addr, value, base);
          task := task[ridx := cur.(kind := None, elements := -1, idx := cur.idx + 1)];
          frames := frames[..k] + [f.(done := f.done + [value])];
          whole := value;
          return;
        }
      }
    }

    /** What every `process…` function achieves: on success one more item has been taken, on failure
        the text is either faulty or incomplete. */
    ghost predicate Progressed(ok: bool, whole: Reply)
      reads this
    {
      if ok then Working() || Emitting(whole)
      else Broken() || (Working() && Stalled())
    }

    /** The unread text does not hold the whole current item yet. */
    ghost predicate Stalled()
      requires Working()
      reads this
    {
      match task[ridx].kind
      case None => Unread() == ""
      case Some(kind) => ReadItem(cfg, kind, Parent(frames), Unread()).Incomplete?
    }

    /** The current item sits directly in a push message, which some constructors refuse. */
    method InPush() returns (b: bool)
      requires ridx == |frames| && Stack(objs, task, frames, |objs|, None, base)
      ensures b <==> Parent(frames) == Some(Push)
    {
      var cur := task[ridx];
      b := cur.parent.Some? && objs[task[cur.parent.value].obj.value].kind == Push;
    }

    /** A faulty item ends the stream. */
    method Refuse(e: ProtocolError, ghost kind: Kind, ghost unread: string)
      requires err == None && base <= |objs| && Tracks(cfg, fed, out, Machine(frames, Some(kind)), unread)
      requires ReadItem(cfg, kind, Parent(frames), unread) == Bad(e)
      modifies this
      ensures Broken() && err == Some(e)
      ensures fed == old(fed) && out == old(out) && objs == old(objs) && base == old(base)
    {
      hide ReadItem, Deliver, Ahead;
      TracksFail(cfg, fed, out, Machine(frames, Some(kind)), unread);
      SetError(e);
    }

    /** The common end of an item without elements: create its object, set the root reply, move on.
        The cursor has already passed the item. */
    method Complete(o: Object, ghost r: Reply, ghost kind: Kind, ghost unread: string, ghost used: nat)
      returns (ghost whole: Reply)
      requires err == None && pos <= |buf| && ridx == |frames|
      requires Stack(objs, task, frames, |objs|, None, base)
      requires reply == (if frames == [] then None else Some(base))
      requires used <= |unread| && Unread() == unread[used..]
      requires Tracks(cfg, fed, out, Machine(frames, Some(kind)), unread)
      requires ReadItem(cfg, kind, Parent(frames), unread) ==
               if r.AggregateReply? then Open(0, used) else Leaf(r, used)
      requires r.AggregateReply? ==> r.kind == kind
      requires if r.AggregateReply? then r.elements == [] && o == AggregateObject(r.kind, []) else o == LeafObject(r)
      modifies this`task, this`ridx, this`frames, this`objs, this`reply
      ensures Working() || Emitting(whole)
      ensures base <= |objs| && Agree(old(objs), objs, 0, base)
    {
      hide Step, Deliver, Ahead, Stream, Level, Stack, ReadItem;
      ghost var m := Machine(frames, Some(kind));
      StepDelivers(cfg, m, kind, unread, r, used);
      StackTop(objs, task, frames, |objs|, None, base);
      ghost var at := |objs|;
      var q := |objs|;
      Attach(o);
      assert Holds(objs, at, r);
      if ridx == 0 { reply := Some(q); }
      whole := MoveToNextTask(r, at, used);
      if ridx == -1 {
        TracksFinish(cfg, fed, out, m, unread);
      } else {
        TracksNext(cfg, fed, out, m, unread);
      }
    }

    /** `processLineItem`. */
    method ProcessLineItem() returns (ok: bool, ghost whole: Reply)
      requires Working() && task[ridx].kind.Some? && IsLine(task[ridx].kind.value)
      modifies this
      ensures Progressed(ok, whole)
      ensures fed == old(fed) && out == old(out) && base == old(base)
      ensures base <= |objs| && Agree(old(objs), objs, 0, base)
      ensures err == None ==> buf == old(buf) && (if ok then pos > old(pos) else pos == old(pos))
    {
      hide Step, Deliver, Ahead, Stream, Level, Holds, HoldsAll, LineItem, Stack, Tracks, Newline, Size;
      StackAbove(objs, task, frames, |objs|, None, base);
      StackTop(objs, task, frames, |objs|, None, base);
      whole := NilReply;
      var kind := task[ridx].kind.value;
      ghost var unread := Unread();
      var newline := SeekNewline(buf[pos..]);
      if newline == None { return false, whole; }
      var len := newline.value;
      var line := buf[pos..pos + len];
      assert line == unread[..len];
      pos := pos + len + 2;
      assert Unread() == unread[len + 2..];
      var inPush := InPush();
      var error, o, r := MakeLine(cfg, kind, inPush, Parent(frames), line);
      if error.Some? {
        Refuse(error.value, kind, unread);
        return false, whole;
      }
      whole := Complete(o, r, kind, unread, len + 2);
      return true, whole;
    }

    /** `processBulkItem`: nothing is consumed until the whole item is there. */
    method ProcessBulkItem() returns (ok: bool, ghost whole: Reply)
      requires Working() && task[ridx].kind.Some? && IsBulk(task[ridx].kind.value)
      modifies this
      ensures Progressed(ok, whole)
      ensures fed == old(fed) && out == old(out) && base == old(base)
      ensures base <= |objs| && Agree(old(objs), objs, 0, base)
      ensures err == None ==> buf == old(buf) && (if ok then pos > old(pos) else pos == old(pos))
    {
      hide Step, Deliver, Ahead, Stream, Level, Holds, HoldsAll, BulkItem, Stack, Tracks, Newline, Size;
      StackAbove(objs, task, frames, |objs|, None, base);
      StackTop(objs, task, frames, |objs|, None, base);
      whole := NilReply;
      var kind := task[ridx].kind.value;
      ghost var unread := Unread();
      var s := buf[pos..];
      var newline := SeekNewline(s);
      if newline == None { return false, whole; }
      var inPush := InPush();
      var made := MakeBulk(kind, inPush, Parent(frames), s, newline.value);
      match made {
        case Faulty(e) =>
          Refuse(e, kind, unread);
          return false, whole;
        case Partial =>
          return false, whole;
        case Made(o, r, used) =>
          pos := pos + used;
          assert Unread() == unread[used..];
          whole := Complete(o, r, kind, unread, used);
          return true, whole;
      }
    }

    /** `redisReaderGrow`. */
    method Grow()
      requires Working()
      modifies this`task
      ensures Working() && |task| == old(|task|) + STACK_SIZE && task[ridx] == old(task[ridx])
    {
      hide Level, Ahead, Stream;
      ghost var before := task;
      task := task + seq(STACK_SIZE, _ => Task(None, 0, 0, None, None));
      assert task[..|frames|] == before[..|frames|] && task[ridx] == before[ridx];
      StackFrame(objs, objs, before, task, frames, |objs|, None, base);
    }

    /** `processAggregateItem`: the stack grows before the count is read. */
    method ProcessAggregateItem() returns (ok: bool, ghost whole: Reply)
      requires Working() && task[ridx].kind.Some? && IsAggregate(task[ridx].kind.value)
      modifies this
      ensures Progressed(ok, whole)
      ensures fed == old(fed) && out == old(out) && base == old(base)
      ensures base <= |objs| && Agree(old(objs), objs, 0, base)
      ensures err == None ==> buf == old(buf) && (if ok then pos > old(pos) else pos == old(pos))
    {
      if ridx == |task| - 1 { Grow(); }
      ok, whole := ReadAggregate();
    }

    method ReadAggregate() returns (ok: bool, ghost whole: Reply)
      requires Working() && task[ridx].kind.Some? && IsAggregate(task[ridx].kind.value)
      requires ridx + 1 < |task|
      modifies this
      ensures Progressed(ok, whole)
      ensures fed == old(fed) && out == old(out) && base == old(base)
      ensures base <= |objs| && Agree(old(objs), objs, 0, base)
      ensures err == None ==> buf == old(buf) && (if ok then pos > old(pos) else pos == old(pos))
    {
      hide Step, Deliver, Ahead, Stream, Level, Holds, HoldsAll, AggregateItem, Stack, Tracks, Newline, Size;
      StackAbove(objs, task, frames, |objs|, None, base);
      StackTop(objs, task, frames, |objs|, None, base);
      whole := NilReply;
      var kind := task[ridx].kind.value;
      ghost var unread := Unread();
      var newline := SeekNewline(buf[pos..]);
      if newline == None { return false, whole; }
      var len := newline.value;
      var line := buf[pos..pos + len];
      assert line == unread[..len];
      var inPush := InPush();
      var error, elements := MakeCount(cfg, kind, inPush, Parent(frames), line);
      if error.Some? {
        Refuse(error.value, kind, unread);
        return false, whole;
      }
      pos := pos + len + 2;
      assert Unread() == unread[len + 2..];
      whole := EnterAggregate(kind, elements, unread, len + 2);
      return true, whole;
    }

    /** The part of `processAggregateItem` behind the count: a nil, an empty aggregate or one to descend into. */
    method EnterAggregate(kind: Kind, elements: int, ghost unread: string, ghost used: nat) returns (ghost whole: Reply)
      requires err == None && pos <= |buf| && ridx == |frames|
      requires Stack(objs, task, frames, |objs|, None, base) && |frames| + 1 < |task|
      requires task[ridx].kind == Some(kind) && IsAggregate(kind) && elements >= -1
      requires reply == (if frames == [] then None else Some(base))
      requires used <= |unread| && Unread() == unread[used..]
      requires Tracks(cfg, fed, out, Machine(frames, Some(kind)), unread)
      requires ReadItem(cfg, kind, Parent(frames), unread) ==
               if elements == -1 then Leaf(NilReply, used) else Open(elements, used)
      modifies this`task, this`ridx, this`frames, this`objs, this`reply
      ensures Working() || Emitting(whole)
      ensures base <= |objs| && Agree(old(objs), objs, 0, base)
    {
      hide Stack, Tracks, ReadItem, Holds, Size;
      if elements > 0 {
        whole := NilReply;
        OpenAggregate(kind, elements, unread, used);
      } else {
        ghost var r := if elements == -1 then NilReply else AggregateReply(kind, []);
        var o := Object(if elements == -1 then Nil else kind, 0, "", "", []);
        whole := Complete(o, r, kind, unread, used);
      }
    }

    /** The part of `processAggregateItem` that creates a non-empty aggregate and descends into it. */
    method OpenAggregate(kind: Kind, elements: nat, ghost unread: string, ghost used: nat)
      requires err == None && pos <= |buf| && ridx == |frames|
      requires Stack(objs, task, frames, |objs|, None, base) && |frames| + 1 < |task|
      requires task[ridx].kind == Some(kind) && IsAggregate(kind) && elements > 0
      requires reply == (if frames == [] then None else Some(base))
      requires used <= |unread| && Unread() == unread[used..]
      requires Tracks(cfg, fed, out, Machine(frames, Some(kind)), unread)
      requires ReadItem(cfg, kind, Parent(frames), unread) == Open(elements, used)
      modifies this`task, this`ridx, this`frames, this`objs, this`reply
      ensures Working() && base <= |objs| && Agree(old(objs), objs, 0, base)
    {
      hide Step, Deliver, Ahead, Stream, Level, ReadItem;
      StepOpens(cfg, Machine(frames, Some(kind)), kind, unread, elements, used);
      TracksNext(cfg, fed, out, Machine(frames, Some(kind)), unread);
      var q, root := |objs|, ridx == 0;
      Attach(AggregateObject(kind, seq(elements, _ => None)));
      PushLevel(objs, task, frames, q, kind, elements, base);
      task := task[ridx := task[ridx].(elements := elements, obj := Some(q))]
                  [ridx + 1 := Task(None, -1, 0, None, Some(ridx))];
      ridx := ridx + 1;
      frames := frames + [Frame(kind, elements, [])];
      if root { reply := Some(q); }
    }

    /** The first half of `processItem`: the type byte is consumed on its own. */
    method ReadType() returns (ok: bool)
      requires Working() && task[ridx].kind == None
      modifies this
      ensures fed == old(fed) && out == old(out) && base == old(base) && objs == old(objs) && base <= |objs|
      ensures ok ==> Working() && buf == old(buf) && pos == old(pos) + 1 && task[ridx].kind.Some?
      ensures !ok ==> Broken() || (Working() && Stalled() && buf == old(buf) && pos == old(pos))
    {
      hide Ahead, Stream, Level, ReadItem, Deliver;
      StackAbove(objs, task, frames, |objs|, None, base);
      if pos == |buf| { return false; }
      ghost var m, unread := Machine(frames, None), Unread();
      var c := buf[pos];
      match KindOf(c)
      case None =>
        TracksFail(cfg, fed, out, m, unread);
        SetError(BadTypeByte(c));
        return false;
      case Some(kind) =>
        TracksNext(cfg, fed, out, m, unread);
        ghost var before := task;
        pos := pos + 1;
        task := task[ridx := task[ridx].(kind := Some(kind))];
        StackFrame(objs, objs, before, task, frames, |objs|, None, base);
        assert Unread() == unread[1..];
        return true;
    }

    /** `processItem`. */
    method ProcessItem() returns (ok: bool, ghost whole: Reply)
      requires Working()
      modifies this
      ensures Progressed(ok, whole)
      ensures fed == old(fed) && out == old(out) && base == old(base)
      ensures base <= |objs| && Agree(old(objs), objs, 0, base)
      ensures err == None ==> buf == old(buf) && pos >= old(pos) && (ok ==> pos > old(pos))
    {
      hide Ahead, Stream, Level, ReadItem;
      whole := NilReply;
      if task[ridx].kind == None {
        var read := ReadType();
        if !read { return false, whole; }
      }
      var kind := task[ridx].kind.value;
      if IsLine(kind) {
        ok, whole := ProcessLineItem();
      } else if IsBulk(kind) {
        ok, whole := ProcessBulkItem();
      } else {
        ok, whole := ProcessAggregateItem();
      }
    }

    /** `redisReaderFeed`. */
    method Feed(chunk: string) returns (ok: bool)
      requires Valid()
      modifies this
      ensures Valid() && ok == old(err.None?) && err == old(err)
      ensures fed == old(fed) + (if ok then chunk else "")
      ensures out == old(out) && objs == old(objs) && base == old(base)
    {
      hide Ahead, Stream, Level, Step;
      if err.Some? { return false; }
      ghost var unread, cur := Unread(), if ridx == -1 then None else task[ridx].kind;
      if |chunk| >= 1 {
        TracksFeed(cfg, fed, out, Machine(frames, cur), unread, chunk);
        buf := buf + chunk;
        fed := fed + chunk;
        assert Unread() == unread + chunk;
      }
      return true;
    }

    /** The part of `redisReaderGetReply` up to and including its loop. */
    method Process() returns (ghost whole: Reply)
      requires Working() || Resting()
      modifies this
      ensures Broken() || Emitting(whole) || (Working() && Stalled())
      ensures fed == old(fed) && out == old(out) && base == old(base)
      ensures base <= |objs| && Agree(old(objs), objs, 0, base)
      ensures err == None ==> buf == old(buf) && pos >= old(pos) && (ridx == -1 ==> pos > old(pos))
    {
      hide Ahead, Stream, Level, ReadItem, Step, Holds;
      whole := NilReply;
      if ridx == -1 {
        task := task[0 := Task(None, -1, -1, None, None)];
        ridx := 0;
      }
      assert Working();
      StackAbove(objs, task, frames, |objs|, None, base);
      ghost var start := pos;
      while ridx >= 0
        invariant Working() || Emitting(whole)
        invariant fed == old(fed) && out == old(out) && base == old(base)
        invariant base <= |objs| && Agree(old(objs), objs, 0, base)
        invariant buf == old(buf) && pos >= start && (ridx == -1 ==> pos > start)
        decreases ridx >= 0, |buf| - pos
      {
        var ok;
        ok, whole := ProcessItem();
        if !ok { break; }
      }
    }

    /** `redisReaderGetReply`. A returned pointer stands for the next reply of the stream; no pointer
        and no error means that everything the text fed so far holds has been handed out. */
    method GetReply() returns (ok: bool, r: Option<nat>, ghost whole: Reply)
      requires Valid()
      modifies this
      ensures Valid() && fed == old(fed) && ok == err.None?
      ensures r.Some? ==> ok && out == old(out) + [whole] && Holds(objs, r.value, whole) && Resting()
      ensures r.Some? ==> |Unread()| < old(|Unread()|)
      ensures r.None? ==> out == old(out)
      ensures old(err.Some?) ==> r.None? && err == old(err)
      ensures r.None? ==> Stream(cfg, fed) == Seen(out, err)
      ensures Agree(old(objs), objs, 0, old(base))
    {
      hide Ahead, Level, ReadItem, Stack, Deliver, Stream, Holds, Size;
      whole := NilReply;
      if err.Some? {
        assert fed + "" == fed;
        return false, None, whole;
      }
      if |buf| == 0 {
        NothingUnread();
        return true, None, whole;
      }
      ghost var was := Unread();
      whole := Process();
      if err.Some? {
        assert fed + "" == fed;
        return false, None, whole;
      }
      ghost var unread := Unread();
      if pos >= COMPACT_AT {
        buf := Range(buf, pos, -1);
        pos := 0;
        assert Unread() == unread;
      }
      r := None;
      if ridx == -1 {
        r := reply;
        reply := None;
        out := out + [whole];
        base := |objs|;
      } else {
        NothingUnread();
      }
      return true, r, whole;
    }

    /** A reader that cannot go on has handed out all there is. */
    lemma NothingUnread()
      requires (Working() && Stalled()) || (Valid() && err == None && Unread() == "")
      ensures Stream(cfg, fed) == Seen(out, None)
    {
      hide Ahead, Stream, Deliver, Level;
      var m := Machine(frames, if ridx == -1 then None else task[ridx].kind);
      assert Newline("") == None;
      assert Step(cfg, m, Unread()).Blocked?;
      TracksBlocked(cfg, fed, out, m, Unread());
    }
  }

  // ----- a client: feed a chunk, take every reply it completes, feed the next

  lemma {:induction false} HoldsAt(objs: seq<Object>, at: nat, slots: seq<Option<nat>>, rs: seq<Reply>, i: nat)
    requires HoldsAll(objs, at, slots, rs) && i < |rs|
    ensures slots[i].Some? && Holds(objs, slots[i].value, rs[i])
    decreases |rs|
  {
    if i < |rs| - 1 { HoldsAt(objs, at, slots, rs[..|rs| - 1], i); }
  }

  /** Walks the objects of a reply through their element pointers. */
  method Extract(objs: seq<Object>, at: nat, ghost r: Reply) returns (v: Reply)
    requires Holds(objs, at, r) && WellTyped(r)
    ensures v == r
    decreases r
  {
    var o := objs[at];
    if IsAggregate(o.kind) {
      var elements: seq<Reply> := [];
      var i := 0;
      while i < |o.element|
        invariant i <= |o.element| == |r.elements| && elements == r.elements[..i]
      {
        HoldsAt(objs, at + 1, o.element, r.elements, i);
        var e := Extract(objs, o.element[i].value, r.elements[i]);
        elements := elements + [e];
        i := i + 1;
      }
      return AggregateReply(o.kind, elements);
    }
    return match o.kind
      case Integer => IntegerReply(o.integer)
      case Double => DoubleReply(o.str)
      case Nil => NilReply
      case Bool => BoolReply(o.integer == 1)
      case Verb => VerbReply(o.vtype, o.str)
      case _ => TextReply(o.kind, o.str);
  }

  /** Takes replies until none is left. */
  method Drain(rd: RedisReader) returns (replies: seq<Reply>)
    requires rd.Valid()
    modifies rd
    ensures rd.Valid() && rd.fed == old(rd.fed) && rd.out == old(rd.out) + replies
    ensures Stream(rd.cfg, rd.fed) == Seen(rd.out, rd.err)
    ensures old(rd.err.Some?) ==> replies == [] && rd.err == old(rd.err)
  {
    hide Stream, Holds, Tracks, Dead, Stack;
    replies := [];
    while true
      invariant rd.Valid() && rd.fed == old(rd.fed) && rd.out == old(rd.out) + replies
      invariant old(rd.err.Some?) ==> rd.err == old(rd.err) && replies == []
      decreases |rd.Unread()|
    {
      var ok, p, whole := rd.GetReply();
      if p == None { return; }
      EmittedWellTyped(rd, whole);
      var v := Extract(rd.objs, p.value, whole);
      replies := replies + [v];
    }
  }

  lemma EmittedWellTyped(rd: RedisReader, whole: Reply)
    requires rd.Resting() && whole in rd.out
    ensures WellTyped(whole)
  {
    StreamWellTyped(rd.cfg, rd.fed + "");
    var seen := Stream(rd.cfg, rd.fed + "");
    assert seen == Before(rd.out, Ahead(rd.cfg, Idle, rd.Unread() + ""));
    assert whole in seen.replies;
  }

  function Concat(chunks: seq<string>): string {
    if chunks == [] then "" else Concat(chunks[..|chunks| - 1]) + chunks[|chunks| - 1]
  }

  /** Chunking invariance: however the stream is cut, a client that drains the reader after every feed
      sees exactly what the recursive grammar says of the whole text, errors included. */
  method ReadChunks(cfg: Config, chunks: seq<string>) returns (seen: Seen)
    ensures seen == Stream(cfg, Concat(chunks))
  {
    hide Stream, Tracks, Dead, Stack;
    var rd := new RedisReader(cfg);
    var replies: seq<Reply> := [];
    ghost var ignored := "";
    var i := 0;
    assert Concat(chunks[..0]) == "";
    DrainedAtStart(cfg);
    while i < |chunks|
      invariant i <= |chunks| && fresh(rd) && rd.Valid() && rd.cfg == cfg && replies == rd.out
      invariant Concat(chunks[..i]) == rd.fed + ignored && (rd.err == None ==> ignored == "")
      invariant Stream(cfg, rd.fed) == Seen(rd.out, rd.err)
    {
      assert chunks[..i + 1][..i] == chunks[..i];
      var ok := rd.Feed(chunks[i]);
      if !ok { ignored := ignored + chunks[i]; }
      var more := Drain(rd);
      replies := replies + more;
      i := i + 1;
    }
    assert chunks[..i] == chunks;
    assert rd.err == None ==> rd.fed + ignored == rd.fed;
    if rd.err.Some? { ErrorSticks(rd, ignored); }
    seen := Seen(replies, rd.err);
  }

  lemma ErrorSticks(rd: RedisReader, later: string)
    requires rd.Valid() && rd.err.Some?
    ensures Stream(rd.cfg, rd.fed + later) == Seen(rd.out, rd.err)
  {
    hide Stream, Stack;
  }

  lemma DrainedAtStart(cfg: Config)
    ensures Stream(cfg, "") == Seen([], None)
  {
  }
}
