/** `internal_dfa_exec`: all paths of a pattern at once, with one vector of states for the current
    character and one for the next. */
module Dfa {
  import Basics
  import opened DfaPaths

  const NOMATCH: int := -1
  const ERROR_DFA_UITEM: int := -16
  const ERROR_DFA_WSSIZE: int := -19

  /** The match options that concern this function; `startOffset` is where the search began. */
  datatype Options = Options(notEmpty: bool, notEmptyAtStart: bool, shortest: bool, startOffset: nat)

  predicate LengthOk(m: Match, opts: Options, pos: nat) {
    pos > m.from || (!opts.notEmpty && (!opts.notEmptyAtStart || m.from > opts.startOffset))
  }

  /** Some single path reaches the end of the pattern at pos. */
  ghost predicate Accepts(m: Match, opts: Options, pos: nat)
    requires ValidMatch(m)
  {
    Reaches(m, At(End(m)), pos) && LengthOk(m, opts, pos)
  }

  /** All match ends below hi, shortest first. */
  ghost function Ends(m: Match, opts: Options, hi: nat): seq<nat>
    requires ValidMatch(m)
  {
    if hi == 0 then [] else Ends(m, opts, hi - 1) + if Accepts(m, opts, hi - 1) then [hi - 1] else []
  }

  // ----- the offsets vector

  /** How the vector holds the match ends: longest first, as many as fit; the count is 0 once some had
      to be dropped, and negative while there is none. */
  ghost predicate Stored(offsets: seq<int>, offsetcount: nat, matchCount: int, ends: seq<nat>, from: nat)
    requires offsetcount <= |offsets| && offsetcount % 2 == 0
  {
    var k := offsetcount / 2;
    && matchCount == (if ends == [] then NOMATCH else if |ends| <= k then |ends| else 0)
    && forall j :: 0 <= j < |ends| && j < k ==>
         offsets[2 * j] == from && offsets[2 * j + 1] == ends[|ends| - 1 - j]
  }

  lemma StoredCount(offsets: seq<int>, offsetcount: nat, matchCount: int, ends: seq<nat>, from: nat)
    requires offsetcount <= |offsets| && offsetcount % 2 == 0 && Stored(offsets, offsetcount, matchCount, ends, from)
    ensures matchCount >= NOMATCH
  {
  }

  /** memmove(offsets + 2, offsets, count) */
  method ShiftUp(offsets: array<int>, count: int)
    requires 0 < count && count + 2 <= offsets.Length
    modifies offsets
    ensures forall i :: 2 <= i < count + 2 ==> offsets[i] == old(offsets[i - 2])
    ensures forall i :: 0 <= i < offsets.Length && !(2 <= i < count + 2) ==> offsets[i] == old(offsets[i])
  {
    forall i | 2 <= i < count + 2 { offsets[i] := offsets[i - 2]; }
  }

  /** A match ending at `end` is put in front of the shorter ones. */
  method RecordMatch(offsets: array<int>, offsetcount: nat, matchCount: int, from: nat, end: nat, ghost ends: seq<nat>)
    returns (matchCount': int)
    requires offsetcount <= offsets.Length && offsetcount % 2 == 0
    requires Stored(offsets[..], offsetcount, matchCount, ends, from)
    modifies offsets
    ensures Stored(offsets[..], offsetcount, matchCount', ends + [end], from)
    ensures forall i :: offsetcount <= i < offsets.Length ==> offsets[i] == old(offsets[i])
  {
    matchCount' := matchCount;
    if matchCount' < 0 {
      matchCount' := if offsetcount >= 2 then 1 else 0;
    } else if matchCount' > 0 {
      matchCount' := matchCount' + 1;
      if matchCount' * 2 > offsetcount { matchCount' := 0; }
    }
    var count := (if matchCount' == 0 then offsetcount else matchCount' * 2) - 2;
    if count > 0 { ShiftUp(offsets, count); }
    if offsetcount >= 2 {
      offsets[0] := from;
      offsets[1] := end;
    }
    ghost var longer := ends + [end];
    forall j | 0 <= j < |longer| && j < offsetcount / 2
      ensures offsets[2 * j] == from && offsets[2 * j + 1] == longer[|longer| - 1 - j]
    {
      if j > 0 {
        assert old(offsets[..])[2 * (j - 1)] == from && old(offsets[..])[2 * (j - 1) + 1] == ends[|ends| - j];
      }
    }
  }

  // ----- adding states

  /** ADD_ACTIVE and ADD_NEW: a full vector ends the match attempt. */
  method Add(vec: array<State>, n: nat, s: State) returns (ok: bool, n': nat)
    requires n <= vec.Length
    modifies vec
    ensures ok <==> n < vec.Length
    ensures ok ==> n' == n + 1 && vec[..n'] == old(vec[..n]) + [s]
    ensures !ok ==> n' == n
  {
    if n < vec.Length {
      vec[n] := s;
      return true, n + 1;
    }
    return false, n;
  }

  lemma FirstAlternative(code: seq<Instr>, c: nat)
    requires WellFormed(code) && IsGroup(code, c)
    ensures LinksOk(code, c) && States(Alternatives(code, c)) ==
            [At(c + 1)] + if code[code[c].link].Alt? then States(Alternatives(code, code[c].link)) else []
  {
    assert LinksOk(code, c);
  }

  /** The loop over the alternatives of a bracket. */
  method AddAlternatives(code: seq<Instr>, o: nat, vec: array<State>, n: nat) returns (ok: bool, n': nat)
    requires WellFormed(code) && IsGroup(code, o) && n <= vec.Length
    modifies vec
    ensures ok <==> n + |Alternatives(code, o)| <= vec.Length
    ensures ok ==> n' == n + |Alternatives(code, o)| && vec[..n'] == old(vec[..n]) + States(Alternatives(code, o))
  {
    hide States, Alternatives;
    var c := o;
    n' := n;
    ghost var added: seq<State> := [];
    ghost var all := States(Alternatives(code, o));
    assert [] + all == all;
    while true
      invariant IsGroup(code, c) && n' == n + |added| <= vec.Length
      invariant vec[..n'] == old(vec[..n]) + added
      invariant all == added + States(Alternatives(code, c))
      decreases |code| - c
    {
      assert LinksOk(code, c);
      ghost var rest := if code[code[c].link].Alt? then States(Alternatives(code, code[c].link)) else [];
      FirstAlternative(code, c);
      Basics.Assoc(added, [At(c + 1)], rest);
      Basics.Assoc(old(vec[..n]), added, [At(c + 1)]);
      ok, n' := Add(vec, n', At(c + 1));
      if !ok { return; }
      added := added + [At(c + 1)];
      c := code[c].link;
      if !code[c].Alt? { break; }
    }
  }

  /** Follows the links of a group to its closing bracket. */
  method FindKet(code: seq<Instr>, o: nat) returns (k: nat)
    requires WellFormed(code) && IsGroup(code, o)
    ensures k == KetOf(code, o)
  {
    assert LinksOk(code, o);
    k := code[o].link;
    while code[k].Alt?
      invariant o < k < |code| && (code[k].Alt? || code[k].Ket?)
      invariant KetOf(code, o) == if code[k].Alt? then KetOf(code, k) else k
      decreases |code| - k
    {
      assert LinksOk(code, k);
      k := code[k].link;
    }
  }

  datatype Status = Ok | Full | Unsupported

  method AddTwo(vec: array<State>, n: nat, s: State, t: State) returns (ok: bool, n': nat)
    requires n <= vec.Length
    modifies vec
    ensures ok <==> n + 2 <= vec.Length
    ensures ok ==> n' == n + 2 && vec[..n'] == old(vec[..n]) + [s, t]
  {
    ghost var before := vec[..n];
    ok, n' := Add(vec, n, s);
    if ok {
      ok, n' := Add(vec, n', t);
      assert ok ==> vec[..n'] == (before + [s]) + [t] == before + [s, t];
    }
  }

  /** States reached from s without taking a character, added to the current vector. */
  method AddFree(code: seq<Instr>, end: nat, s: State, vec: array<State>, n: nat) returns (ok: bool, n': nat)
    requires WellFormed(code) && s.offset < |code| && n <= vec.Length
    modifies vec
    ensures ok <==> n + |Eps(code, end, s)| <= vec.Length
    ensures ok ==> n' == n + |Eps(code, end, s)| && vec[..n'] == old(vec[..n]) + Eps(code, end, s)
  {
    assert LinksOk(code, s.offset);
    var next := s.offset + 1;
    ok, n' := true, n;
    match code[s.offset]
    case Bra(_) =>
      ok, n' := AddAlternatives(code, s.offset, vec, n);
    case Alt(_) =>
      var k := FindKet(code, s.offset);
      ok, n' := Add(vec, n, At(k));
    case Ket(back, repeats) =>
      if s.offset != end {
        if repeats {
          ok, n' := AddTwo(vec, n, At(next), At(back));
        } else {
          ok, n' := Add(vec, n, At(next));
        }
      }
    case BraZero =>
      var k := FindKet(code, next);
      ok, n' := AddTwo(vec, n, At(next), At(k + 1));
    case SkipZero =>
      var k := FindKet(code, next);
      ok, n' := Add(vec, n, At(k + 1));
    case Star(_) => ok, n' := Add(vec, n, At(next));
    case Query(_) => ok, n' := Add(vec, n, At(next));
    case Upto(_, _) => ok, n' := Add(vec, n, At(next));
    case Plus(_) =>
      if s.count > 0 { ok, n' := Add(vec, n, At(next)); }
    case Range(min, _, _) =>
      if s.count >= min { ok, n' := Add(vec, n, At(next)); }
    case One(_) =>
    case Exact(_, _) =>
    case Other =>
  }

  /** The state s moves to by taking character c, added to the next vector. */
  method AddTaking(code: seq<Instr>, s: State, c: char, vec: array<State>, n: nat) returns (ok: bool, n': nat)
    requires WellFormed(code) && s.offset < |code| && n <= vec.Length
    modifies vec
    ensures ok <==> n + |Take(code, s, c)| <= vec.Length
    ensures ok ==> n' == n + |Take(code, s, c)| && vec[..n'] == old(vec[..n]) + Take(code, s, c)
  {
    var next, count := At(s.offset + 1), s.count + 1;
    var again := State(s.offset, count);
    ok, n' := true, n;
    match code[s.offset]
    case One(test) => if test(c) { ok, n' := Add(vec, n, next); }
    case Star(test) => if test(c) { ok, n' := Add(vec, n, At(s.offset)); }
    case Plus(test) => if test(c) { ok, n' := Add(vec, n, again); }
    case Query(test) => if test(c) { ok, n' := Add(vec, n, next); }
    case Exact(k, test) =>
      if test(c) {
        if count >= k { ok, n' := Add(vec, n, next); } else { ok, n' := Add(vec, n, again); }
      }
    case Upto(k, test) =>
      if test(c) {
        if count >= k { ok, n' := Add(vec, n, next); } else { ok, n' := Add(vec, n, again); }
      }
    case Range(_, max, test) =>
      if test(c) {
        if count >= max && max != 0 { ok, n' := Add(vec, n, next); } else { ok, n' := Add(vec, n, again); }
      }
    case _ =>
  }

  /** The linear search for a duplicate among the states already processed. */
  method IsDuplicate(vec: array<State>, i: nat) returns (b: bool)
    requires i < vec.Length
    ensures b <==> vec[i] in vec[..i]
  {
    var j := 0;
    while j < i
      invariant j <= i && vec[i] !in vec[..j]
    {
      if vec[j].offset == vec[i].offset && vec[j].count == vec[i].count {
        assert vec[..i][j] == vec[i];
        return true;
      }
      j := j + 1;
    }
    return false;
  }

  // ----- one position

  /** One state that is no duplicate: its free moves go to the current vector, its move over the
      current character to the next one. */
  method ProcessState(m: Match, pos: nat, end: nat, s: State, active: array<State>, n: nat, next: array<State>, k: nat)
    returns (status: Status, n': nat, k': nat)
    requires ValidMatch(m) && end == End(m) && s.offset < |m.code|
    requires active != next && n <= active.Length && k <= next.Length
    modifies active, next
    ensures status == Unsupported <==> m.code[s.offset].Other?
    ensures status == Full ==> active.Length < n + |Eps(m.code, end, s)| || next.Length < k + |TakeAt(m, s, pos)|
    ensures status == Ok ==> n' == n + |Eps(m.code, end, s)| <= active.Length && k' == k + |TakeAt(m, s, pos)| <= next.Length
    ensures status == Ok ==> active[..n'] == old(active[..n]) + Eps(m.code, end, s)
    ensures status == Ok ==> next[..k'] == old(next[..k]) + TakeAt(m, s, pos)
  {
    hide Eps, Take;
    n', k' := n, k;
    if m.code[s.offset].Other? { return Unsupported, n, k; }
    var ok;
    ok, n' := AddFree(m.code, end, s, active, n);
    if !ok { return Full, n, k; }
    if pos < |m.subject| {
      ok, k' := AddTaking(m.code, s, m.subject[pos], next, k);
      if !ok { return Full, n, k; }
    }
    return Ok, n', k';
  }

  /** A workspace of this many states is never too small. */
  function Enough(m: Match): nat
    requires ValidMatch(m)
  {
    MaxStates(m) * (|m.code| + 1)
  }

  datatype Scan = Scan(status: Status, stop: bool, count: nat, matchCount: int)

  /** The inner loop: every state of the current vector, including those it adds, is processed once. */
  method ScanPosition(m: Match, opts: Options, pos: nat, end: nat, active: array<State>, n0: nat, next: array<State>,
                      offsets: array<int>, offsetcount: nat, matchCount0: int)
    returns (r: Scan)
    requires ValidMatch(m) && end == End(m) && m.from <= pos <= |m.subject|
    requires active != next && n0 <= active.Length == next.Length && n0 <= MaxStates(m)
    requires Sound(m, active[..n0], pos) && Entered(m, active[..n0], pos)
    requires offsetcount <= offsets.Length && offsetcount % 2 == 0
    requires Stored(offsets[..], offsetcount, matchCount0, Ends(m, opts, pos), m.from)
    modifies active, next, offsets
    ensures r.status == Unsupported ==> exists s :: Reaches(m, s, pos) && s.offset < |m.code| && m.code[s.offset].Other?
    ensures r.status == Full ==> active.Length < Enough(m)
    ensures r.status == Ok && r.stop ==> opts.shortest && Accepts(m, opts, pos)
                                         && Stored(offsets[..], offsetcount, r.matchCount, Ends(m, opts, pos) + [pos], m.from)
    ensures r.status == Ok && !r.stop ==>
              && r.count <= next.Length && r.count <= MaxStates(m)
              && Sound(m, next[..r.count], pos + 1) && Entered(m, next[..r.count], pos + 1)
              && Stored(offsets[..], offsetcount, r.matchCount, Ends(m, opts, pos + 1), m.from)
              && (opts.shortest ==> !Accepts(m, opts, pos))
    ensures forall i :: offsetcount <= i < offsets.Length ==> offsets[i] == old(offsets[i])
  {
    hide Eps, Take, TakeAt, Reaches, Enters, Stored, Ends, Scanning, Counted;
    ghost var ends := Ends(m, opts, pos);
    ScanStart(m, pos, active[..n0]);
    CountedStart(m, n0, active[..n0]);
    var n, k: nat, matchCount := n0, 0, matchCount0;
    var i := 0;
    assert next[..0] == [];
    while i < n
      invariant i <= n <= active.Length && k <= next.Length
      invariant Scanning(m, pos, active[..n], i, next[..k]) && Counted(m, n0, active[..n], i, next[..k])
      invariant opts.shortest && LengthOk(m, opts, pos) ==> At(end) !in active[..i]
      invariant Stored(offsets[..], offsetcount, matchCount,
                       if At(end) in active[..i] && LengthOk(m, opts, pos) then ends + [pos] else ends, m.from)
      invariant forall j :: offsetcount <= j < offsets.Length ==> offsets[j] == old(offsets[j])
      decreases active.Length - i
    {
      var s := active[i];
      ghost var list, nextList := active[..n], next[..k];
      assert list[i] == s && list[..i] == active[..i];
      ScannedState(m, pos, list, i, nextList);
      var duplicate := IsDuplicate(active, i);
      if duplicate {
        ScanDuplicate(m, pos, list, i, nextList);
        CountedDuplicate(m, n0, list, i, nextList);
        assert list[..i + 1] == active[..i + 1];
        i := i + 1;
        continue;
      }
      ScanNew(m, pos, list, i, nextList);
      CountedNew(m, n0, pos, list, i, nextList);
      var status, n', k' := ProcessState(m, pos, end, s, active, n, next, k);
      if status == Unsupported { return Scan(Unsupported, false, 0, 0); }
      if status == Full {
        FullMeansSmall(m, active.Length, n0, n + |Eps(m.code, end, s)|, k + |TakeAt(m, s, pos)|);
        return Scan(Full, false, 0, 0);
      }
      n, k := n', k';
      assert active[..i + 1] == active[..n][..i + 1] == list[..i] + [s];
      if s.offset == end && LengthOk(m, opts, pos) {
        assert s == At(end);
        matchCount := RecordMatch(offsets, offsetcount, matchCount, m.from, pos, ends);
        if opts.shortest { return Scan(Ok, true, 0, matchCount); }
      }
      i := i + 1;
    }
    assert active[..n][..i] == active[..i] == active[..n];
    ScanFinish(m, opts, pos, n0, active[..n], next[..k]);
    r := Scan(Ok, false, k, matchCount);
  }

  lemma CountedStart(m: Match, n0: nat, list: seq<State>)
    requires ValidMatch(m) && |list| == n0
    ensures Counted(m, n0, list, 0, [])
  {
  }

  /** A scanned state is reached; at the end bracket its count is zero. */
  lemma ScannedState(m: Match, pos: nat, list: seq<State>, i: nat, next: seq<State>)
    requires ValidMatch(m) && Scanning(m, pos, list, i, next) && i < |list|
    ensures Sound(m, list, pos) && Reaches(m, list[i], pos) && list[i].offset < |m.code|
    ensures list[i].offset == End(m) ==> list[i] == At(End(m))
  {
    hide Reaches, FreeDone, TakeDone, Entered;
    ReachesInside(m, list[i], pos);
  }

  lemma ScanFinish(m: Match, opts: Options, pos: nat, n0: nat, list: seq<State>, next: seq<State>)
    requires ValidMatch(m) && m.from <= pos
    requires Scanning(m, pos, list, |list|, next) && Counted(m, n0, list, |list|, next)
    ensures Sound(m, next, pos + 1) && Entered(m, next, pos + 1) && |next| <= MaxStates(m)
    ensures At(End(m)) in list <==> Reaches(m, At(End(m)), pos)
    ensures Ends(m, opts, pos + 1) ==
            if At(End(m)) in list && LengthOk(m, opts, pos) then Ends(m, opts, pos) + [pos] else Ends(m, opts, pos)
  {
    hide Reaches, Enters, Eps, Take;
    assert list[..|list|] == list;
    ScanComplete(m, pos, list, next);
    FewStates(m, pos, Elements(list));
    EndsNext(m, opts, pos, At(End(m)) in list);
  }

  lemma EndsNext(m: Match, opts: Options, pos: nat, hit: bool)
    requires ValidMatch(m) && (hit <==> Reaches(m, At(End(m)), pos))
    ensures Ends(m, opts, pos + 1) ==
            if hit && LengthOk(m, opts, pos) then Ends(m, opts, pos) + [pos] else Ends(m, opts, pos)
  {
    hide Reaches;
  }

  lemma FullMeansSmall(m: Match, capacity: nat, n0: nat, n: nat, k: nat)
    requires ValidMatch(m) && n0 <= MaxStates(m)
    requires n <= n0 + MaxStates(m) * |m.code| && k <= MaxStates(m)
    requires capacity < n || capacity < k
    ensures capacity < Enough(m)
  {
    var c, b := |m.code|, MaxStates(m);
    assert b * (c + 1) == b * c + b;
  }

  // ----- the whole match

  /** The vectors share the workspace: two ints are reserved, the rest is split into state blocks of
      three ints. */
  function Capacity(wscount: nat): nat
    requires wscount >= 2
  {
    (wscount - 2) / 6
  }

  /** The number of match ends, and the value the function returns for them. */
  ghost function Reported(m: Match, opts: Options): seq<nat>
    requires ValidMatch(m)
  {
    var all := Ends(m, opts, |m.subject| + 1);
    if opts.shortest && all != [] then [all[0]] else all
  }

  /** `internal_dfa_exec`: unless the workspace is too small or an unsupported item is met, the offsets
      hold exactly the positions where some single path ends, longest first. */
  method InternalDfaExec(m: Match, opts: Options, offsets: array<int>, offsetcount0: nat, wscount: nat)
    returns (rc: int)
    requires ValidMatch(m) && wscount >= 20 && offsetcount0 <= offsets.Length
    modifies offsets
    ensures rc == ERROR_DFA_WSSIZE ==> Capacity(wscount) < Enough(m)
    ensures rc == ERROR_DFA_UITEM ==>
              exists s, pos :: Reaches(m, s, pos) && s.offset < |m.code| && m.code[s.offset].Other?
    ensures rc != ERROR_DFA_WSSIZE && rc != ERROR_DFA_UITEM ==>
              Stored(offsets[..], offsetcount0 - offsetcount0 % 2, rc, Reported(m, opts), m.from)
    ensures forall i :: offsetcount0 - offsetcount0 % 2 <= i < offsets.Length ==> offsets[i] == old(offsets[i])
  {
    hide Eps, Take, TakeAt, Reaches, Enters, Stored, Ends, Reported, Sound, Entered, MaxStates, Enough, Alternatives, WellFormed;
    var offsetcount := offsetcount0 - offsetcount0 % 2;
    var capacity := Capacity(wscount);
    var active, next := new State[capacity], new State[capacity];
    var matchCount := NOMATCH;
    var ok: bool, count: nat, end: nat := Begin(m, next);
    if !ok { return ERROR_DFA_WSSIZE; }
    NothingStored(m, opts, offsets[..], offsetcount);
    var pos := m.from;
    while true
      invariant m.from <= pos <= |m.subject|
      invariant fresh(active) && fresh(next) && active != next && active.Length == next.Length == capacity
      invariant count <= capacity && count <= MaxStates(m)
      invariant Sound(m, next[..count], pos) && Entered(m, next[..count], pos)
      invariant Stored(offsets[..], offsetcount, matchCount, Ends(m, opts, pos), m.from)
      invariant opts.shortest ==> Ends(m, opts, pos) == []
      invariant forall i :: offsetcount <= i < offsets.Length ==> offsets[i] == old(offsets[i])
      decreases |m.subject| - pos
    {
      active, next := next, active;
      var scan := ScanPosition(m, opts, pos, end, active, count, next, offsets, offsetcount, matchCount);
      if scan.status == Unsupported { return ERROR_DFA_UITEM; }
      if scan.status == Full { return ERROR_DFA_WSSIZE; }
      matchCount := scan.matchCount;
      if scan.stop {
        ShortestFound(m, opts, pos);
        StoredCount(offsets[..], offsetcount, matchCount, Reported(m, opts), m.from);
        return matchCount;
      }
      ShortestNone(m, opts, pos);
      if scan.count == 0 {
        assert next[..0] == [];
        AllFound(m, opts, pos + 1);
        StoredCount(offsets[..], offsetcount, matchCount, Reported(m, opts), m.from);
        return matchCount;
      }
      if pos == |m.subject| { NothingPastTheEnd(m, next[..scan.count]); }
      count := scan.count;
      pos := pos + 1;
    }
  }

  /** The states the match begins with, and where the pattern ends. */
  method Begin(m: Match, next: array<State>) returns (ok: bool, count: nat, end: nat)
    requires ValidMatch(m)
    modifies next
    ensures !ok ==> next.Length < Enough(m)
    ensures ok ==> count <= next.Length && count <= MaxStates(m) && end == End(m)
    ensures ok ==> Sound(m, next[..count], m.from) && Entered(m, next[..count], m.from)
  {
    hide Reaches, Enters, MaxStates, Enough, Sound, Entered;
    ok, count := AddAlternatives(m.code, m.start, next, 0);
    AlternativesFew(m);
    end := FindKet(m.code, m.start);
    if !ok {
      FullMeansSmall(m, next.Length, 0, |Alternatives(m.code, m.start)|, 0);
      return;
    }
    StartEntered(m, next[..count]);
  }

  lemma AlternativesFew(m: Match)
    requires ValidMatch(m)
    ensures |Alternatives(m.code, m.start)| <= MaxStates(m)
    ensures |Alternatives(m.code, m.start)| <= MaxStates(m) * |m.code|
  {
    var c, l := |m.code|, |m.subject| - m.from + 1;
    MulMono(1, l, c);
    assert c * l == l * c;
    MulMono(1, c, c * l);
    assert c * (c * l) == (c * l) * c;
  }

  lemma StartEntered(m: Match, list: seq<State>)
    requires ValidMatch(m) && list == States(Alternatives(m.code, m.start))
    ensures Sound(m, list, m.from) && Entered(m, list, m.from)
  {
    hide Reaches;
    forall s | s in list ensures Reaches(m, s, m.from) { ReachesFirst(m, s); }
    forall s | Enters(m, s, m.from) ensures s in list {
      if s !in list {
        var r, before: nat :| before + 1 == m.from && Steps(m, r, before, s);
        ReachesInside(m, r, before);
        assert false;
      }
    }
  }

  lemma NothingStored(m: Match, opts: Options, offsets: seq<int>, offsetcount: nat)
    requires ValidMatch(m) && offsetcount <= |offsets| && offsetcount % 2 == 0
    ensures Ends(m, opts, m.from) == []
    ensures Stored(offsets, offsetcount, NOMATCH, Ends(m, opts, m.from), m.from)
  {
    hide Ends;
    NoneBefore(m, opts, m.from);
  }

  lemma {:induction false} NoneBefore(m: Match, opts: Options, hi: nat)
    requires ValidMatch(m) && hi <= m.from
    ensures Ends(m, opts, hi) == []
  {
    hide Reaches;
    if hi > 0 {
      NoneBefore(m, opts, hi - 1);
      if Reaches(m, At(End(m)), hi - 1) { ReachesInside(m, At(End(m)), hi - 1); assert false; }
    }
  }

  lemma NothingPastTheEnd(m: Match, list: seq<State>)
    requires ValidMatch(m) && Sound(m, list, |m.subject| + 1)
    ensures list == []
  {
    hide Reaches;
    if list != [] {
      ReachesInside(m, list[0], |m.subject| + 1);
      assert false;
    }
  }

  lemma {:induction false} EndsExtend(m: Match, opts: Options, lo: nat, hi: nat)
    requires ValidMatch(m) && lo <= hi
    ensures Ends(m, opts, lo) <= Ends(m, opts, hi)
    ensures (forall pos :: lo <= pos < hi ==> !Accepts(m, opts, pos)) ==> Ends(m, opts, lo) == Ends(m, opts, hi)
    decreases hi
  {
    hide Reaches;
    if lo < hi { EndsExtend(m, opts, lo, hi - 1); }
  }

  lemma ShortestFound(m: Match, opts: Options, pos: nat)
    requires ValidMatch(m) && opts.shortest && pos <= |m.subject| && Accepts(m, opts, pos) && Ends(m, opts, pos) == []
    ensures Reported(m, opts) == Ends(m, opts, pos) + [pos]
  {
    hide Reaches;
    EndsExtend(m, opts, pos + 1, |m.subject| + 1);
    assert Ends(m, opts, pos + 1) == [pos];
  }

  lemma ShortestNone(m: Match, opts: Options, pos: nat)
    requires ValidMatch(m)
    ensures !Accepts(m, opts, pos) ==> Ends(m, opts, pos + 1) == Ends(m, opts, pos)
  {
    hide Reaches;
  }

  /** When no path goes on, all ends have been met. */
  lemma AllFound(m: Match, opts: Options, hi: nat)
    requires ValidMatch(m) && m.from < hi <= |m.subject| + 1 && Entered(m, [], hi)
    requires opts.shortest ==> Ends(m, opts, hi) == []
    ensures Reported(m, opts) == Ends(m, opts, hi)
  {
    hide Reaches, Enters;
    forall pos | hi <= pos < |m.subject| + 1 ensures !Accepts(m, opts, pos) {
      NothingLater(m, hi, At(End(m)), pos);
    }
    EndsExtend(m, opts, hi, |m.subject| + 1);
  }
}
