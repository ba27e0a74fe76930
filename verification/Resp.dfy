/** The Redis serialization protocol as a recursive grammar over unread text: what one reply is, and
    what sequence of replies a stream holds. This is the reference the incremental reader is measured
    against. */
module Resp {
  import opened Basics
  import opened Decimal

  /** Reply types of read.h. */
  datatype Kind =
    | Error | Status | Integer | Double | Nil | Bool
    | String | Verb
    | Array | Map | Set | Push

  predicate IsLine(k: Kind) { k in {Error, Status, Integer, Double, Nil, Bool} }
  predicate IsBulk(k: Kind) { k == String || k == Verb }
  predicate IsAggregate(k: Kind) { k in {Array, Map, Set, Push} }

  datatype Reply =
    | TextReply(kind: Kind, text: string)
    | VerbReply(format: string, text: string)
    | IntegerReply(value: int)
    | DoubleReply(digits: string)
    | NilReply
    | BoolReply(truth: bool)
    | AggregateReply(kind: Kind, elements: seq<Reply>)

  /** Protocol errors. `AssertionFailed` stands for the aborting assertion of the reply constructors,
      which do not accept a nil, boolean or double inside a push message. */
  datatype ProtocolError =
    | BadInteger | DoubleTooLarge | BadDouble
    | BadBulkLength | BulkLengthOutOfRange | BadVerbatim
    | BadMultiBulkLength | MultiBulkLengthOutOfRange
    | BadTypeByte(c: char)
    | AssertionFailed

  /** What the protocol leaves to the embedding: the element limit (no limit when not positive), and
      whether libc reads a text as a double. */
  datatype Config = Config(maxElements: int, isDouble: string -> bool)

  const DOUBLE_BUFFER: nat := 326

  function KindOf(c: char): Option<Kind> {
    match c
    case '-' => Some(Error)
    case '+' => Some(Status)
    case ':' => Some(Integer)
    case ',' => Some(Double)
    case '_' => Some(Nil)
    case '$' => Some(String)
    case '*' => Some(Array)
    case '%' => Some(Map)
    case '~' => Some(Set)
    case '#' => Some(Bool)
    case '=' => Some(Verb)
    case '>' => Some(Push)
    case _ => None
  }

  /** A CR LF starts at position k. */
  predicate NewlineAt(s: string, k: nat) {
    k + 1 < |s| && s[k] == '\r' && s[k + 1] == '\n'
  }

  /** Where the first CR LF of s stands. */
  function Newline(s: string): (r: Option<nat>)
    ensures r.Some? ==> r.value + 1 < |s|
  {
    if |s| < 2 then None
    else if NewlineAt(s, 0) then Some(0)
    else match Newline(s[1..])
      case None => None
      case Some(j) => Some(j + 1)
  }

  /** It is the first one, and none is missed. */
  lemma {:induction false} NewlineFirst(s: string, k: nat)
    ensures Newline(s) == Some(k) <==> NewlineAt(s, k) && forall i: nat :: i < k ==> !NewlineAt(s, i)
    ensures Newline(s) == None ==> !NewlineAt(s, k)
  {
    if |s| >= 2 && !NewlineAt(s, 0) {
      assert forall i: nat :: NewlineAt(s[1..], i) <==> NewlineAt(s, i + 1);
      if k > 0 {
        NewlineFirst(s[1..], k - 1);
        if forall i: nat :: i < k ==> !NewlineAt(s, i) {
          assert forall i: nat :: i < k - 1 ==> !NewlineAt(s[1..], i);
        }
        if forall i: nat :: i < k - 1 ==> !NewlineAt(s[1..], i) {
          forall i: nat | i < k ensures !NewlineAt(s, i) {
            if i > 0 { assert !NewlineAt(s[1..], i - 1); }
          }
        }
      }
    }
  }

  /** One item after its type byte. `used` counts the characters it takes. */
  datatype Item =
    | Incomplete
    | Bad(error: ProtocolError)
    | Leaf(reply: Reply, used: nat)
    | Open(count: nat, used: nat)

  /** A nil, boolean or double is not allowed directly inside a push message. */
  function Plain(parent: Option<Kind>, reply: Reply, used: nat): Item {
    if parent == Some(Push) then Bad(AssertionFailed) else Leaf(reply, used)
  }

  function LineItem(cfg: Config, kind: Kind, parent: Option<Kind>, line: string): Item
  {
    match kind
    case Integer =>
      (match Read(line)
       case None => Bad(BadInteger)
       case Some(v) => Leaf(IntegerReply(v), |line| + 2))
    case Double =>
      if |line| >= DOUBLE_BUFFER then Bad(DoubleTooLarge)
      else if !cfg.isDouble(line) then Bad(BadDouble)
      else Plain(parent, DoubleReply(line), |line| + 2)
    case Nil => Plain(parent, NilReply, |line| + 2)
    case Bool => Plain(parent, BoolReply(line != "" && (line[0] == 't' || line[0] == 'T')), |line| + 2)
    case _ => Leaf(TextReply(kind, line), |line| + 2)
  }

  function BulkReply(kind: Kind, payload: string): Reply
    requires kind == Verb ==> |payload| >= 4
  {
    if kind == Verb then VerbReply(payload[..3], payload[4..]) else TextReply(kind, payload)
  }

  /** A length line, then that many characters and two more that close them. */
  function BulkItem(kind: Kind, parent: Option<Kind>, s: string, header: nat): Item
    requires header <= |s|
  {
    match Read(s[..header])
    case None => Bad(BadBulkLength)
    case Some(len) =>
      var start := header + 2;
      if len < -1 then Bad(BulkLengthOutOfRange)
      else if len == -1 then Plain(parent, NilReply, start)
      else if start + len + 2 > |s| then Incomplete
      else if kind == Verb && (len < 4 || s[start + 3] != ':') then Bad(BadVerbatim)
      else Leaf(BulkReply(kind, s[start..start + len]), start + len + 2)
  }

  /** A count line; a map announces pairs. */
  function AggregateItem(cfg: Config, kind: Kind, parent: Option<Kind>, line: string): Item
  {
    match Read(line)
    case None => Bad(BadMultiBulkLength)
    case Some(count) =>
      if count < -1 || (cfg.maxElements > 0 && count > cfg.maxElements) then Bad(MultiBulkLengthOutOfRange)
      else if count == -1 then Plain(parent, NilReply, |line| + 2)
      else Open(if kind == Map then 2 * count else count, |line| + 2)
  }

  function ReadItem(cfg: Config, kind: Kind, parent: Option<Kind>, s: string): (item: Item)
    ensures item.Leaf? || item.Open? ==> 2 <= item.used <= |s|
  {
    match Newline(s)
    case None => Incomplete
    case Some(j) =>
      if IsLine(kind) then LineItem(cfg, kind, parent, s[..j])
      else if IsBulk(kind) then BulkItem(kind, parent, s, j)
      else AggregateItem(cfg, kind, parent, s[..j])
  }

  datatype Parsed<+T> = More | Fail(error: ProtocolError) | Done(value: T, rest: string)

  /** The recursive parser: one reply, or the news that more text is needed. */
  function Parse(cfg: Config, parent: Option<Kind>, s: string): (r: Parsed<Reply>)
    ensures r.Done? ==> |r.rest| < |s|
    decreases |s|, 0
  {
    if s == "" then More
    else match KindOf(s[0])
      case None => Fail(BadTypeByte(s[0]))
      case Some(kind) => ParseTyped(cfg, kind, parent, s[1..])
  }

  function ParseTyped(cfg: Config, kind: Kind, parent: Option<Kind>, s: string): (r: Parsed<Reply>)
    ensures r.Done? ==> |r.rest| < |s|
    decreases |s|, 2
  {
    match ReadItem(cfg, kind, parent, s)
    case Incomplete => More
    case Bad(e) => Fail(e)
    case Leaf(reply, used) => Done(reply, s[used..])
    case Open(count, used) =>
      match ParseMany(cfg, kind, count, s[used..])
      case More => More
      case Fail(e) => Fail(e)
      case Done(elements, rest) => Done(AggregateReply(kind, elements), rest)
  }

  function ParseMany(cfg: Config, kind: Kind, count: nat, s: string): (r: Parsed<seq<Reply>>)
    ensures r.Done? ==> |r.rest| <= |s| && |r.value| == count
    decreases |s|, 1
  {
    if count == 0 then Done([], s)
    else match Parse(cfg, Some(kind), s)
      case More => More
      case Fail(e) => Fail(e)
      case Done(first, rest) =>
        match ParseMany(cfg, kind, count - 1, rest)
        case More => More
        case Fail(e) => Fail(e)
        case Done(others, rest') => Done([first] + others, rest')
  }

  /** What a client sees of a stream: replies in order, then possibly an error that sticks. */
  datatype Seen = Seen(replies: seq<Reply>, error: Option<ProtocolError>)

  function Before(replies: seq<Reply>, later: Seen): Seen {
    Seen(replies + later.replies, later.error)
  }

  function Stream(cfg: Config, s: string): Seen
    decreases |s|
  {
    match Parse(cfg, None, s)
    case More => Seen([], None)
    case Fail(e) => Seen([], Some(e))
    case Done(reply, rest) => Before([reply], Stream(cfg, rest))
  }

  /** Text and aggregate replies carry the kinds they can have. */
  predicate WellTyped(r: Reply)
    decreases r
  {
    match r
    case TextReply(kind, _) => kind in {Error, Status, String}
    case AggregateReply(kind, elements) =>
      IsAggregate(kind) && forall i :: 0 <= i < |elements| ==> WellTyped(elements[i])
    case _ => true
  }

  lemma {:induction false} ParseWellTyped(cfg: Config, parent: Option<Kind>, s: string)
    ensures var p := Parse(cfg, parent, s); p.Done? ==> WellTyped(p.value)
    decreases |s|, 0
  {
    hide ReadItem;
    if s != "" && KindOf(s[0]).Some? {
      var kind, rest := KindOf(s[0]).value, s[1..];
      ItemWellTyped(cfg, kind, parent, rest);
      var item := ReadItem(cfg, kind, parent, rest);
      if item.Open? { ParseManyWellTyped(cfg, kind, item.count, rest[item.used..]); }
    }
  }

  lemma ItemWellTyped(cfg: Config, kind: Kind, parent: Option<Kind>, s: string)
    ensures var item := ReadItem(cfg, kind, parent, s);
            (item.Leaf? ==> WellTyped(item.reply)) && (item.Open? ==> IsAggregate(kind))
  {
  }

  lemma {:induction false} ParseManyWellTyped(cfg: Config, kind: Kind, count: nat, s: string)
    ensures var p := ParseMany(cfg, kind, count, s);
            p.Done? ==> forall i :: 0 <= i < |p.value| ==> WellTyped(p.value[i])
    decreases |s|, 1
  {
    hide ReadItem;
    if count > 0 {
      ParseWellTyped(cfg, Some(kind), s);
      var p := Parse(cfg, Some(kind), s);
      if p.Done? {
        ParseManyWellTyped(cfg, kind, count - 1, p.rest);
        var q := ParseMany(cfg, kind, count - 1, p.rest);
        if q.Done? {
          var all := [p.value] + q.value;
          forall i | 0 <= i < |all| ensures WellTyped(all[i]) {
            if i > 0 { assert all[i] == q.value[i - 1]; }
          }
        }
      }
    }
  }

  lemma {:induction false} StreamWellTyped(cfg: Config, s: string)
    ensures forall r :: r in Stream(cfg, s).replies ==> WellTyped(r)
    decreases |s|
  {
    hide ParseTyped;
    ParseWellTyped(cfg, None, s);
    var p := Parse(cfg, None, s);
    if p.Done? { StreamWellTyped(cfg, p.rest); }
  }

  // ----- what has been read does not depend on what follows

  lemma {:induction false} NewlineStable(s: string, t: string)
    requires Newline(s).Some?
    ensures Newline(s + t) == Newline(s)
  {
    assert (s + t)[0] == s[0] && (s + t)[1] == s[1] && (s + t)[1..] == s[1..] + t;
    if !NewlineAt(s, 0) { NewlineStable(s[1..], t); }
  }

  lemma BulkItemStable(kind: Kind, parent: Option<Kind>, s: string, header: nat, t: string)
    requires header + 2 <= |s| && !BulkItem(kind, parent, s, header).Incomplete?
    ensures BulkItem(kind, parent, s + t, header) == BulkItem(kind, parent, s, header)
  {
    assert (s + t)[..header] == s[..header];
    match Read(s[..header])
    case None =>
    case Some(len) =>
      if len >= 0 {
        var start := header + 2;
        assert (s + t)[start..start + len] == s[start..start + len];
      }
  }

  lemma ReadItemStable(cfg: Config, kind: Kind, parent: Option<Kind>, s: string, t: string)
    requires !ReadItem(cfg, kind, parent, s).Incomplete?
    ensures ReadItem(cfg, kind, parent, s + t) == ReadItem(cfg, kind, parent, s)
  {
    NewlineStable(s, t);
    var j := Newline(s).value;
    assert (s + t)[..j] == s[..j];
    if IsBulk(kind) { BulkItemStable(kind, parent, s, j, t); }
  }
}
