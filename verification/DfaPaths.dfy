/** Compiled patterns as the DFA matcher sees them, and what it means to follow one path through a
    pattern. Instructions are numbered; a bracket carries the number of its next alternative or of its
    closing bracket, as the link bytes do. */
module DfaPaths {

  datatype Instr =
    | Bra(link: nat)                                  // OP_BRA, OP_SBRA, OP_CBRA, OP_SCBRA
    | Alt(link: nat)                                  // OP_ALT
    | Ket(back: nat, repeats: bool)                   // OP_KET; OP_KETRMAX and OP_KETRMIN repeat
    | BraZero                                         // OP_BRAZERO, OP_BRAMINZERO
    | SkipZero                                        // OP_SKIPZERO
    | One(test: char -> bool)                         // OP_CHAR, OP_NOT, OP_ALLANY, OP_CLASS
    | Star(test: char -> bool)                        // OP_STAR, OP_CRSTAR and their lazy forms
    | Plus(test: char -> bool)
    | Query(test: char -> bool)
    | Exact(n: nat, test: char -> bool)
    | Upto(n: nat, test: char -> bool)
    | Range(min: nat, max: nat, test: char -> bool)   // OP_CRRANGE; max 0 is no limit
    | Other                                           // any opcode outside this fragment, and OP_END

  /** Links go forward to an alternative or a closing bracket, and a group follows its OP_BRAZERO or
      OP_SKIPZERO. */
  predicate LinksOk(code: seq<Instr>, i: nat)
    requires i < |code|
  {
    match code[i]
    case Bra(link) => i < link < |code| && (code[link].Alt? || code[link].Ket?)
    case Alt(link) => i < link < |code| && (code[link].Alt? || code[link].Ket?)
    case Ket(back, _) => back < |code|
    case BraZero => i + 1 < |code| && code[i + 1].Bra?
    case SkipZero => i + 1 < |code| && code[i + 1].Bra?
    case _ => true
  }

  /** OP_END comes last. */
  predicate WellFormed(code: seq<Instr>) {
    && |code| > 0 && code[|code| - 1].Other?
    && forall i: nat :: i < |code| ==> LinksOk(code, i)
  }

  predicate IsGroup(code: seq<Instr>, o: nat) {
    o < |code| && (code[o].Bra? || code[o].Alt?)
  }

  /** The closing bracket of the group that o opens or continues. */
  function KetOf(code: seq<Instr>, o: nat): (k: nat)
    requires WellFormed(code) && IsGroup(code, o)
    ensures o < k < |code| && code[k].Ket?
    decreases |code| - o
  {
    assert LinksOk(code, o);
    if code[code[o].link].Alt? then KetOf(code, code[o].link) else code[o].link
  }

  /** Where the alternatives of the group start, from o on. */
  function Alternatives(code: seq<Instr>, o: nat): (starts: seq<nat>)
    requires WellFormed(code) && IsGroup(code, o)
    ensures 1 <= |starts| <= |code| - o
    ensures forall i :: 0 <= i < |starts| ==> starts[i] < |code|
    decreases |code| - o
  {
    assert LinksOk(code, o);
    [o + 1] + if code[code[o].link].Alt? then Alternatives(code, code[o].link) else []
  }

  /** A stateblock: an instruction and, for repeats, how many characters it has taken. */
  datatype State = State(offset: nat, count: nat)

  function At(offset: nat): State { State(offset, 0) }

  function States(starts: seq<nat>): (ss: seq<State>)
    ensures |ss| == |starts|
    ensures forall i :: 0 <= i < |ss| ==> ss[i] == At(starts[i])
  {
    seq(|starts|, i requires 0 <= i < |starts| => At(starts[i]))
  }

  /** States a path may move to without taking a character. `end` is the closing bracket of the whole
      pattern, where paths stop. */
  function Eps(code: seq<Instr>, end: nat, s: State): seq<State>
    requires WellFormed(code) && s.offset < |code|
  {
    var next := s.offset + 1;
    assert LinksOk(code, s.offset);
    match code[s.offset]
    case Bra(_) => States(Alternatives(code, s.offset))
    case Alt(_) => [At(KetOf(code, s.offset))]
    case Ket(back, repeats) =>
      if s.offset == end then [] else if repeats then [At(next), At(back)] else [At(next)]
    case BraZero => [At(next), At(KetOf(code, next) + 1)]
    case SkipZero => [At(KetOf(code, next) + 1)]
    case Star(_) => [At(next)]
    case Query(_) => [At(next)]
    case Upto(_, _) => [At(next)]
    case Plus(_) => if s.count > 0 then [At(next)] else []
    case Range(min, _, _) => if s.count >= min then [At(next)] else []
    case One(_) => []
    case Exact(_, _) => []
    case Other => []
  }

  /** States a path may move to by taking character c. */
  function Take(code: seq<Instr>, s: State, c: char): seq<State>
    requires WellFormed(code) && s.offset < |code|
  {
    var next, again := At(s.offset + 1), State(s.offset, s.count + 1);
    match code[s.offset]
    case One(test) => if test(c) then [next] else []
    case Star(test) => if test(c) then [At(s.offset)] else []
    case Plus(test) => if test(c) then [again] else []
    case Query(test) => if test(c) then [next] else []
    case Exact(n, test) => if test(c) then [if s.count + 1 >= n then next else again] else []
    case Upto(n, test) => if test(c) then [if s.count + 1 >= n then next else again] else []
    case Range(_, max, test) => if test(c) then [if s.count + 1 >= max && max != 0 then next else again] else []
    case _ => []
  }

  lemma EpsInCode(code: seq<Instr>, end: nat, s: State)
    requires WellFormed(code) && s.offset < |code|
    ensures |Eps(code, end, s)| <= |code|
    ensures forall t :: t in Eps(code, end, s) ==> t.offset < |code| && t.count == 0
  {
    assert LinksOk(code, s.offset);
  }

  lemma TakeInCode(code: seq<Instr>, s: State, c: char)
    requires WellFormed(code) && s.offset < |code|
    ensures |Take(code, s, c)| <= 1
    ensures forall t :: t in Take(code, s, c) ==>
              t.offset < |code| && (t.count == 0 || (t.count == s.count + 1 && !code[t.offset].Ket?))
  {
  }

  // ----- paths

  /** A pattern applied at position `from` of a subject; `start` is its opening bracket. */
  datatype Match = Match(code: seq<Instr>, start: nat, subject: string, from: nat)

  predicate ValidMatch(m: Match) {
    WellFormed(m.code) && m.start < |m.code| && m.code[m.start].Bra? && m.from <= |m.subject|
  }

  function End(m: Match): nat
    requires ValidMatch(m)
  {
    KetOf(m.code, m.start)
  }

  /** A point of a path: a state and a position in the subject. */
  datatype Point = Point(s: State, pos: nat)

  predicate First(m: Match, p: Point)
    requires ValidMatch(m)
  {
    p.pos == m.from && p.s in States(Alternatives(m.code, m.start))
  }

  predicate Moves(m: Match, p: Point, q: Point)
    requires ValidMatch(m)
  {
    p.s.offset < |m.code| &&
    if q.pos == p.pos then q.s in Eps(m.code, End(m), p.s)
    else q.pos == p.pos + 1 && p.pos < |m.subject| && q.s in Take(m.code, p.s, m.subject[p.pos])
  }

  ghost predicate IsPath(m: Match, path: seq<Point>)
    requires ValidMatch(m)
  {
    && |path| > 0 && First(m, path[0])
    && forall i :: 0 < i < |path| ==> Moves(m, path[i - 1], path[i])
  }

  /** Some single path leads to state s at position pos. */
  ghost predicate Reaches(m: Match, s: State, pos: nat)
    requires ValidMatch(m)
  {
    exists path :: IsPath(m, path) && path[|path| - 1] == Point(s, pos)
  }

  lemma ReachesFirst(m: Match, s: State)
    requires ValidMatch(m) && s in States(Alternatives(m.code, m.start))
    ensures Reaches(m, s, m.from)
  {
    assert IsPath(m, [Point(s, m.from)]);
  }

  lemma ReachesMove(m: Match, s: State, pos: nat, t: State, pos': nat)
    requires ValidMatch(m) && Reaches(m, s, pos) && Moves(m, Point(s, pos), Point(t, pos'))
    ensures Reaches(m, t, pos')
  {
    var path :| IsPath(m, path) && path[|path| - 1] == Point(s, pos);
    var longer := path + [Point(t, pos')];
    forall i | 0 < i < |longer| ensures Moves(m, longer[i - 1], longer[i]) {
      if i < |path| { assert Moves(m, path[i - 1], path[i]); }
    }
    assert IsPath(m, longer) && longer[|longer| - 1] == Point(t, pos');
  }

  lemma PathPrefix(m: Match, path: seq<Point>)
    requires ValidMatch(m) && IsPath(m, path) && |path| > 1
    ensures IsPath(m, path[..|path| - 1]) && Moves(m, path[|path| - 2], path[|path| - 1])
  {
    var n := |path| - 1;
    forall i | 0 < i < n ensures Moves(m, path[..n][i - 1], path[..n][i]) {
      assert Moves(m, path[i - 1], path[i]);
    }
  }

  lemma {:induction false} PathInside(m: Match, path: seq<Point>)
    requires ValidMatch(m) && IsPath(m, path)
    ensures var p := path[|path| - 1]; m.from <= p.pos <= |m.subject| && p.s.offset < |m.code|
    ensures path[|path| - 1].s.count <= path[|path| - 1].pos - m.from
    ensures path[|path| - 1].s.count > 0 ==> !m.code[path[|path| - 1].s.offset].Ket?
  {
    var n := |path| - 1;
    if n > 0 {
      PathPrefix(m, path);
      PathInside(m, path[..n]);
      EpsInCode(m.code, End(m), path[n - 1].s);
      if path[n].pos != path[n - 1].pos { TakeInCode(m.code, path[n - 1].s, m.subject[path[n - 1].pos]); }
    }
  }

  /** Reached states lie in the code, inside the subject, and their counts are bounded by the characters
      taken; a count never outlives its repeat. */
  lemma ReachesInside(m: Match, s: State, pos: nat)
    requires ValidMatch(m) && Reaches(m, s, pos)
    ensures m.from <= pos <= |m.subject| && s.offset < |m.code| && s.count <= pos - m.from
    ensures s.count > 0 ==> !m.code[s.offset].Ket?
  {
    var path :| IsPath(m, path) && path[|path| - 1] == Point(s, pos);
    PathInside(m, path);
  }

  // ----- when a set of states is everything reached at a position

  /** States by which a path can enter position pos. */
  ghost predicate Enters(m: Match, s: State, pos: nat)
    requires ValidMatch(m)
  {
    || (pos == m.from && s in States(Alternatives(m.code, m.start)))
    || exists r, before: nat :: before + 1 == pos && Steps(m, r, before, s)
  }

  /** A path reaches r at position `before` and takes the character there. */
  ghost predicate Steps(m: Match, r: State, before: nat, s: State)
    requires ValidMatch(m)
  {
    Reaches(m, r, before) && Moves(m, Point(r, before), Point(s, before + 1))
  }

  /** A set that holds every entry and is closed under free moves holds every reached state. */
  lemma {:induction false} ClosureOnPath(m: Match, pos: nat, all: set<State>, path: seq<Point>)
    requires ValidMatch(m) && IsPath(m, path) && path[|path| - 1].pos == pos
    requires forall s :: Enters(m, s, pos) ==> s in all
    requires forall s, t :: s in all && s.offset < |m.code| && t in Eps(m.code, End(m), s) ==> t in all
    ensures path[|path| - 1].s in all
  {
    var n := |path| - 1;
    if n > 0 {
      PathPrefix(m, path);
      if path[n - 1].pos == pos {
        ClosureOnPath(m, pos, all, path[..n]);
      } else {
        assert Reaches(m, path[n - 1].s, pos - 1) by {
          assert path[..n][|path[..n]| - 1] == Point(path[n - 1].s, pos - 1);
        }
        assert Steps(m, path[n - 1].s, pos - 1, path[n].s);
        assert Enters(m, path[n].s, pos);
      }
    } else {
      assert Enters(m, path[0].s, pos);
    }
  }

  lemma ClosureHoldsAll(m: Match, pos: nat, all: set<State>)
    requires ValidMatch(m)
    requires forall s :: Enters(m, s, pos) ==> s in all
    requires forall s, t :: s in all && s.offset < |m.code| && t in Eps(m.code, End(m), s) ==> t in all
    ensures forall s :: Reaches(m, s, pos) ==> s in all
  {
    forall s | Reaches(m, s, pos) ensures s in all {
      var path :| IsPath(m, path) && path[|path| - 1] == Point(s, pos);
      ClosureOnPath(m, pos, all, path);
    }
  }

  /** Nothing enters a position: nothing is reached there or later. */
  lemma {:induction false} NothingLater(m: Match, pos: nat, s: State, later: nat)
    requires ValidMatch(m) && m.from < pos <= later
    requires forall s :: !Enters(m, s, pos)
    ensures !Reaches(m, s, later)
    decreases later
  {
    if later == pos {
      ClosureHoldsAll(m, pos, {});
    } else {
      forall t ensures !Enters(m, t, later) {
        if Enters(m, t, later) {
          var r, before: nat :| before + 1 == later && Steps(m, r, before, t);
          NothingLater(m, pos, r, before);
          assert false;
        }
      }
      ClosureHoldsAll(m, later, {});
    }
  }

  // ----- what the scan of one position establishes

  ghost predicate Sound(m: Match, list: seq<State>, pos: nat)
    requires ValidMatch(m)
  {
    forall s :: s in list ==> Reaches(m, s, pos)
  }

  ghost predicate Entered(m: Match, list: seq<State>, pos: nat)
    requires ValidMatch(m)
  {
    forall s :: Enters(m, s, pos) ==> s in list
  }

  /** Every free move of the states in `done` is in the list. */
  ghost predicate FreeDone(m: Match, done: seq<State>, list: seq<State>)
    requires ValidMatch(m)
  {
    forall s, t :: s in done && s.offset < |m.code| && t in Eps(m.code, End(m), s) ==> t in list
  }

  /** Every move of the states in `done` over the character at pos is in the next list. */
  ghost predicate TakeDone(m: Match, done: seq<State>, pos: nat, next: seq<State>)
    requires ValidMatch(m)
  {
    pos < |m.subject| ==>
      forall s, t :: s in done && s.offset < |m.code| && t in Take(m.code, s, m.subject[pos]) ==> t in next
  }

  /** The moves of s over the character at pos, none at the end of the subject. */
  function TakeAt(m: Match, s: State, pos: nat): seq<State>
    requires ValidMatch(m) && s.offset < |m.code|
  {
    if pos < |m.subject| then Take(m.code, s, m.subject[pos]) else []
  }

  lemma SoundFree(m: Match, s: State, pos: nat, list: seq<State>)
    requires ValidMatch(m) && Sound(m, list, pos) && s in list && s.offset < |m.code|
    ensures Sound(m, list + Eps(m.code, End(m), s), pos)
  {
    hide IsPath, Eps;
    forall t | t in list + Eps(m.code, End(m), s) ensures Reaches(m, t, pos) {
      if t !in list { ReachesMove(m, s, pos, t, pos); }
    }
  }

  lemma SoundTake(m: Match, s: State, pos: nat, next: seq<State>)
    requires ValidMatch(m) && Reaches(m, s, pos) && s.offset < |m.code| && Sound(m, next, pos + 1)
    ensures Sound(m, next + TakeAt(m, s, pos), pos + 1)
  {
    hide IsPath, Take;
    forall t | t in next + TakeAt(m, s, pos) ensures Reaches(m, t, pos + 1) {
      if t !in next { ReachesMove(m, s, pos, t, pos + 1); }
    }
  }

  lemma StepDone(m: Match, s: State, pos: nat, done: seq<State>, list: seq<State>, next: seq<State>)
    requires ValidMatch(m) && s.offset < |m.code|
    requires FreeDone(m, done, list) && TakeDone(m, done, pos, next)
    ensures FreeDone(m, done + [s], list + Eps(m.code, End(m), s))
    ensures TakeDone(m, done + [s], pos, next + TakeAt(m, s, pos))
  {
    hide Eps, Take;
  }

  /** The scan has processed the first i states of the list. */
  ghost predicate Scanning(m: Match, pos: nat, list: seq<State>, i: nat, next: seq<State>)
    requires ValidMatch(m)
  {
    && i <= |list| && Sound(m, list, pos) && Entered(m, list, pos) && Sound(m, next, pos + 1)
    && FreeDone(m, list[..i], list) && TakeDone(m, list[..i], pos, next)
  }

  lemma ScanStart(m: Match, pos: nat, list: seq<State>)
    requires ValidMatch(m) && Sound(m, list, pos) && Entered(m, list, pos)
    ensures Scanning(m, pos, list, 0, [])
  {
    hide Reaches, Enters, Eps, Take;
  }

  lemma ScanDuplicate(m: Match, pos: nat, list: seq<State>, i: nat, next: seq<State>)
    requires ValidMatch(m) && Scanning(m, pos, list, i, next) && i < |list| && list[i] in list[..i]
    ensures Scanning(m, pos, list, i + 1, next)
    ensures forall t :: t in list[..i + 1] <==> t in list[..i]
  {
    hide Reaches, Enters, Eps, Take;
    assert list[..i + 1] == list[..i] + [list[i]];
  }

  lemma ScanNew(m: Match, pos: nat, list: seq<State>, i: nat, next: seq<State>)
    requires ValidMatch(m) && Scanning(m, pos, list, i, next) && i < |list| && list[i].offset < |m.code|
    ensures Scanning(m, pos, list + Eps(m.code, End(m), list[i]), i + 1, next + TakeAt(m, list[i], pos))
    ensures (list + Eps(m.code, End(m), list[i]))[..i + 1] == list[..i] + [list[i]]
  {
    hide Reaches, Enters, Eps, Take, TakeAt;
    var s := list[i];
    SoundFree(m, s, pos, list);
    SoundTake(m, s, pos, next);
    StepDone(m, s, pos, list[..i], list, next);
    assert (list + Eps(m.code, End(m), s))[..i + 1] == list[..i] + [s];
  }

  /** Once every listed state is processed, the list holds exactly what is reached here, and the next
      list exactly what enters the next position. */
  lemma ScanComplete(m: Match, pos: nat, list: seq<State>, next: seq<State>)
    requires ValidMatch(m) && m.from <= pos
    requires Sound(m, list, pos) && Entered(m, list, pos)
    requires FreeDone(m, list, list) && TakeDone(m, list, pos, next)
    ensures forall s :: Reaches(m, s, pos) <==> s in list
    ensures Entered(m, next, pos + 1)
  {
    hide Eps, Take, IsPath;
    ClosureHoldsAll(m, pos, Elements(list));
    forall s | Enters(m, s, pos + 1) ensures s in next {
      var r, before: nat :| before + 1 == pos + 1 && Steps(m, r, before, s);
      ReachesInside(m, r, pos);
      assert s in Take(m.code, r, m.subject[pos]);
    }
  }

  // ----- how many states there can be

  ghost function Column(offset: nat, counts: nat): set<State> {
    set c | 0 <= c < counts :: State(offset, c)
  }

  ghost function Box(offsets: nat, counts: nat): set<State> {
    if offsets == 0 then {} else Box(offsets - 1, counts) + Column(offsets - 1, counts)
  }

  lemma {:induction false} ColumnSize(offset: nat, counts: nat)
    ensures |Column(offset, counts)| == counts
  {
    if counts == 0 {
      assert Column(offset, counts) == {};
    } else {
      ColumnSize(offset, counts - 1);
      assert Column(offset, counts) == Column(offset, counts - 1) + {State(offset, counts - 1)};
    }
  }

  lemma {:induction false} BoxMember(offsets: nat, counts: nat, s: State)
    ensures s in Box(offsets, counts) <==> s.offset < offsets && s.count < counts
  {
    if offsets > 0 { BoxMember(offsets - 1, counts, s); }
  }

  lemma BoxStep(offsets: nat, counts: nat)
    ensures |Box(offsets + 1, counts)| == |Box(offsets, counts)| + counts
  {
    var inner, column := Box(offsets, counts), Column(offsets, counts);
    ColumnSize(offsets, counts);
    forall s | s in inner ensures s !in column { BoxMember(offsets, counts, s); }
    DisjointSize(inner, column);
  }

  lemma {:induction false} BoxSize(offsets: nat, counts: nat)
    ensures |Box(offsets, counts)| == offsets * counts
    decreases offsets, 0
  {
    if offsets == 0 {
      assert Box(0, counts) == {};
    } else {
      BoxNext(offsets - 1, counts);
    }
  }

  lemma {:induction false} BoxNext(offsets: nat, counts: nat)
    ensures |Box(offsets + 1, counts)| == (offsets + 1) * counts
    decreases offsets, 1
  {
    hide Box;
    BoxSize(offsets, counts);
    BoxStep(offsets, counts);
    MulNext(offsets, counts);
  }

  lemma MulNext(x: nat, y: nat)
    ensures (x + 1) * y == x * y + y
  {
  }

  lemma DisjointSize<T>(a: set<T>, b: set<T>)
    requires a !! b
    ensures |a + b| == |a| + |b|
  {
  }

  lemma {:induction false} SubsetSize<T>(a: set<T>, b: set<T>)
    requires a <= b
    ensures |a| <= |b|
  {
    assert b == a + (b - a);
  }

  /** The number of distinct states a position can have. */
  function MaxStates(m: Match): nat
    requires ValidMatch(m)
  {
    |m.code| * (|m.subject| - m.from + 1)
  }

  ghost function Elements(list: seq<State>): set<State> { set s | s in list }

  /** Each distinct state has added at most |code| states here and one for the next position. */
  ghost predicate Counted(m: Match, n0: nat, list: seq<State>, i: nat, next: seq<State>)
    requires ValidMatch(m) && i <= |list|
  {
    var seen := Elements(list[..i]);
    |list| <= n0 + |seen| * |m.code| && |next| <= |seen|
  }

  lemma CountedDuplicate(m: Match, n0: nat, list: seq<State>, i: nat, next: seq<State>)
    requires ValidMatch(m) && i < |list| && Counted(m, n0, list, i, next) && list[i] in list[..i]
    ensures Counted(m, n0, list, i + 1, next)
  {
    assert list[..i + 1] == list[..i] + [list[i]];
    assert Elements(list[..i + 1]) == Elements(list[..i]);
  }

  lemma CountedNew(m: Match, n0: nat, pos: nat, list: seq<State>, i: nat, next: seq<State>)
    requires ValidMatch(m) && i < |list| && Counted(m, n0, list, i, next) && list[i] !in list[..i]
    requires list[i].offset < |m.code| && Sound(m, list, pos)
    ensures var list', next' := list + Eps(m.code, End(m), list[i]), next + TakeAt(m, list[i], pos);
            && Counted(m, n0, list', i + 1, next')
            && |list'| <= n0 + MaxStates(m) * |m.code| && |next'| <= MaxStates(m)
  {
    hide Reaches, Eps, Take;
    var s := list[i];
    var seen := Elements(list[..i]);
    var list' := list + Eps(m.code, End(m), s);
    assert list'[..i + 1] == list[..i] + [s];
    assert Elements(list'[..i + 1]) == seen + {s};
    FewStates(m, pos, seen + {s});
    EpsInCode(m.code, End(m), s);
    if pos < |m.subject| { TakeInCode(m.code, s, m.subject[pos]); }
    var c, b := |m.code|, MaxStates(m);
    MulNext(|seen|, c);
    MulMono(|seen + {s}|, b, c);
  }

  lemma MulMono(x: nat, y: nat, z: nat)
    requires x <= y
    ensures x * z <= y * z
  {
  }

  lemma FewStates(m: Match, pos: nat, seen: set<State>)
    requires ValidMatch(m) && forall s :: s in seen ==> Reaches(m, s, pos)
    ensures |seen| <= MaxStates(m)
  {
    hide IsPath;
    var counts := |m.subject| - m.from + 1;
    BoxSize(|m.code|, counts);
    forall s | s in seen ensures s in Box(|m.code|, counts) {
      ReachesInside(m, s, pos);
      BoxMember(|m.code|, counts, s);
    }
    SubsetSize(seen, Box(|m.code|, counts));
  }
}
