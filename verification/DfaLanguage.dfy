/** Patterns by their syntax and the words they stand for; a path through compiled code reaches the end of
    the pattern exactly on those words. */
module DfaLanguage {
  import opened DfaPaths
  import Dfa

  /** A single-character item with its repeat is one instruction. A group is matched once or, if its closing
      bracket repeats, once or more; `Opt` is a group behind OP_BRAZERO, `Skip` one behind OP_SKIPZERO. */
  datatype Regex =
    | Leaf(op: Instr)
    | Group(alts: seq<Branch>, repeats: bool)
    | Opt(alts: seq<Branch>, repeats: bool)
    | Skip(alts: seq<Branch>, repeats: bool)

  /** One alternative of a group. */
  datatype Branch = Branch(items: seq<Regex>)

  predicate IsLeaf(op: Instr) {
    match op
    case Exact(n, _) => n > 0
    case Upto(n, _) => n > 0
    case Range(min, max, _) => max == 0 || (min <= max && max > 0)
    case One(_) => true
    case Star(_) => true
    case Plus(_) => true
    case Query(_) => true
    case _ => false
  }

  /** How many characters a leaf may take. */
  predicate Times(op: Instr, n: nat)
    requires IsLeaf(op)
  {
    match op
    case One(_) => n == 1
    case Star(_) => true
    case Plus(_) => n >= 1
    case Query(_) => n <= 1
    case Exact(k, _) => n == k
    case Upto(k, _) => n <= k
    case Range(min, max, _) => min <= n && (max == 0 || n <= max)
  }

  /** The characters of x from i to j all pass the leaf's test. */
  ghost predicate AllPass(x: string, op: Instr, i: nat, j: nat)
    requires IsLeaf(op)
  {
    i <= j <= |x| && forall k :: i <= k < j ==> op.test(x[k])
  }

  // ----- the language: does x[i..j] belong to it?

  ghost predicate In(x: string, r: Regex, i: nat, j: nat)
    decreases r, 0
  {
    match r
    case Leaf(op) => IsLeaf(op) && AllPass(x, op, i, j) && Times(op, j - i)
    case Group(alts, repeats) => InGroup(x, alts, repeats, i, j)
    case Opt(alts, repeats) => i == j || InGroup(x, alts, repeats, i, j)
    case Skip(_, _) => i == j
  }

  ghost predicate InGroup(x: string, alts: seq<Branch>, repeats: bool, i: nat, j: nat)
    decreases alts, 3
  {
    exists n: nat :: n > 0 && (repeats || n == 1) && Iter(x, alts, n, i, j)
  }

  /** n matches of the alternatives one after the other. */
  ghost predicate Iter(x: string, alts: seq<Branch>, n: nat, i: nat, j: nat)
    decreases alts, 2, n
  {
    if n == 0 then i == j else exists k :: Iter(x, alts, n - 1, i, k) && InAlts(x, alts, k, j)
  }

  ghost predicate InAlts(x: string, alts: seq<Branch>, i: nat, j: nat)
    decreases alts, 1
  {
    exists a :: 0 <= a < |alts| && InSeq(x, alts[a].items, i, j)
  }

  ghost predicate InSeq(x: string, rs: seq<Regex>, i: nat, j: nat)
    decreases rs, 1
  {
    if rs == [] then i == j else exists k :: In(x, rs[0], i, k) && InSeq(x, rs[1..], k, j)
  }

  // ----- where the code of a pattern is

  function Size(r: Regex): (n: nat)
    ensures n > 0
    decreases r, 0
  {
    match r
    case Leaf(_) => 1
    case Group(alts, _) => 1 + SizeAlts(alts)
    case Opt(alts, _) => 2 + SizeAlts(alts)
    case Skip(alts, _) => 2 + SizeAlts(alts)
  }

  function SizeSeq(rs: seq<Regex>): nat
    decreases rs, 1
  {
    if rs == [] then 0 else Size(rs[0]) + SizeSeq(rs[1..])
  }

  /** The alternatives, each with the bracket behind it. */
  function SizeAlts(alts: seq<Branch>): nat
    decreases alts, 2
  {
    if alts == [] then 0 else SizeSeq(alts[0].items) + 1 + SizeAlts(alts[1..])
  }

  ghost predicate Placed(code: seq<Instr>, r: Regex, b: nat)
    decreases r, 0
  {
    b < |code| &&
    match r
    case Leaf(op) => IsLeaf(op) && code[b] == op
    case Group(alts, repeats) => code[b].Bra? && PlacedAlts(code, alts, b, b, repeats)
    case Opt(alts, repeats) => code[b].BraZero? && b + 1 < |code| && code[b + 1].Bra? && PlacedAlts(code, alts, b + 1, b + 1, repeats)
    case Skip(alts, repeats) => code[b].SkipZero? && b + 1 < |code| && code[b + 1].Bra? && PlacedAlts(code, alts, b + 1, b + 1, repeats)
  }

  ghost predicate PlacedSeq(code: seq<Instr>, rs: seq<Regex>, b: nat)
    decreases rs, 1
  {
    rs == [] || (Placed(code, rs[0], b) && PlacedSeq(code, rs[1..], b + Size(rs[0])))
  }

  /** Alternatives from the bracket at h on, in the group that opens at b. */
  ghost predicate PlacedAlts(code: seq<Instr>, alts: seq<Branch>, h: nat, b: nat, repeats: bool)
    decreases alts, 2
  {
    alts != [] &&
    var next := h + 1 + SizeSeq(alts[0].items);
    && h < |code| && next < |code| && (code[h].Bra? || code[h].Alt?) && code[h].link == next
    && PlacedSeq(code, alts[0].items, h + 1)
    && if |alts| == 1 then code[next] == Ket(b, repeats)
       else code[next].Alt? && PlacedAlts(code, alts[1..], next, b, repeats)
  }

  /** The bracket in front of alternative a. */
  function Head(alts: seq<Branch>, h: nat, a: nat): nat
    requires a <= |alts|
    decreases alts
  {
    if a == 0 then h else Head(alts[1..], h + 1 + SizeSeq(alts[0].items), a - 1)
  }

  lemma {:induction false} KetPlaced(code: seq<Instr>, alts: seq<Branch>, h: nat, b: nat, repeats: bool)
    requires WellFormed(code) && PlacedAlts(code, alts, h, b, repeats)
    ensures IsGroup(code, h) && h + SizeAlts(alts) < |code|
    ensures KetOf(code, h) == h + SizeAlts(alts) && code[h + SizeAlts(alts)] == Ket(b, repeats)
    decreases alts
  {
    if |alts| == 1 {
      assert alts[1..] == [];
    } else {
      KetPlaced(code, alts[1..], h + 1 + SizeSeq(alts[0].items), b, repeats);
    }
  }

  /** Alternative a lies behind its bracket, which links to the next one or to the closing bracket. */
  ghost predicate BranchAt(code: seq<Instr>, alts: seq<Branch>, h: nat, a: nat)
    requires a < |alts|
  {
    var o := Head(alts, h, a);
    o < |code| && IsGroup(code, o) && PlacedSeq(code, alts[a].items, o + 1) && code[o].link == Head(alts, h, a + 1)
  }

  lemma {:induction false} HeadNext(alts: seq<Branch>, h: nat, a: nat)
    requires a < |alts|
    ensures Head(alts, h, a + 1) == Head(alts, h, a) + 1 + SizeSeq(alts[a].items)
    ensures Head(alts, h, |alts|) == h + SizeAlts(alts)
    decreases alts
  {
    if |alts| > 1 {
      HeadNext(alts[1..], h + 1 + SizeSeq(alts[0].items), if a == 0 then 0 else a - 1);
    } else {
      assert alts[1..] == [];
    }
  }

  lemma FirstBranch(code: seq<Instr>, alts: seq<Branch>, h: nat, b: nat, repeats: bool)
    requires WellFormed(code) && PlacedAlts(code, alts, h, b, repeats)
    ensures alts != [] && IsGroup(code, h) && BranchAt(code, alts, h, 0) && h + 1 in Alternatives(code, h)
    ensures code[h].link == h + 1 + SizeSeq(alts[0].items)
  {
    hide PlacedSeq, SizeSeq;
    assert LinksOk(code, h) && Head(alts, h, 0) == h;
    assert Head(alts, h, 1) == Head(alts[1..], h + 1 + SizeSeq(alts[0].items), 0);
  }

  lemma HeadStart(alts: seq<Branch>, h: nat)
    ensures Head(alts, h, 0) == h
  {
  }

  lemma HeadShift(alts: seq<Branch>, h: nat, a: nat)
    requires a < |alts|
    ensures Head(alts, h, a + 1) == Head(alts[1..], h + 1 + SizeSeq(alts[0].items), a)
  {
  }

  lemma LaterPlaced(code: seq<Instr>, alts: seq<Branch>, h: nat, b: nat, repeats: bool)
    requires PlacedAlts(code, alts, h, b, repeats) && |alts| > 1
    ensures var next := h + 1 + SizeSeq(alts[0].items);
            next < |code| && code[next].Alt? && PlacedAlts(code, alts[1..], next, b, repeats)
  {
  }

  lemma BranchNext(code: seq<Instr>, alts: seq<Branch>, h: nat, a: nat)
    requires 0 < a < |alts| && BranchAt(code, alts[1..], h + 1 + SizeSeq(alts[0].items), a - 1)
    ensures BranchAt(code, alts, h, a)
    ensures Head(alts, h, a) == Head(alts[1..], h + 1 + SizeSeq(alts[0].items), a - 1)
  {
    hide PlacedSeq, SizeSeq, Head;
    HeadShift(alts, h, a - 1);
    HeadShift(alts, h, a);
  }

  /** The alternatives of a bracket are its own and those of the next. */
  lemma LaterAlternative(code: seq<Instr>, h: nat, o: nat)
    requires WellFormed(code) && IsGroup(code, h) && code[h].link < |code| && code[code[h].link].Alt? && IsGroup(code, code[h].link)
    requires o in Alternatives(code, code[h].link)
    ensures o in Alternatives(code, h)
  {
    assert LinksOk(code, h);
  }

  lemma {:induction false} BranchPlaced(code: seq<Instr>, alts: seq<Branch>, h: nat, b: nat, repeats: bool, a: nat)
    requires WellFormed(code) && PlacedAlts(code, alts, h, b, repeats) && a < |alts|
    ensures IsGroup(code, h) && BranchAt(code, alts, h, a) && Head(alts, h, a) + 1 in Alternatives(code, h)
    decreases alts
  {
    hide PlacedAlts, PlacedSeq, SizeSeq, Head, Alternatives, BranchAt;
    FirstBranch(code, alts, h, b, repeats);
    HeadStart(alts, h);
    if a > 0 {
      var next := h + 1 + SizeSeq(alts[0].items);
      LaterPlaced(code, alts, h, b, repeats);
      BranchPlaced(code, alts[1..], next, b, repeats, a - 1);
      BranchNext(code, alts, h, a);
      LaterAlternative(code, h, Head(alts, h, a) + 1);
    }
  }

  /** Behind an alternative that is not the last, OP_ALT leads to the closing bracket. */
  lemma {:induction false} AltPlaced(code: seq<Instr>, alts: seq<Branch>, h: nat, b: nat, repeats: bool, a: nat)
    requires WellFormed(code) && PlacedAlts(code, alts, h, b, repeats) && 0 < a < |alts|
    ensures var o := Head(alts, h, a); o < |code| && code[o].Alt? && KetOf(code, o) == h + SizeAlts(alts)
    decreases alts
  {
    var next := h + 1 + SizeSeq(alts[0].items);
    if a == 1 {
      KetPlaced(code, alts[1..], next, b, repeats);
    } else {
      hide KetOf;
      AltPlaced(code, alts[1..], next, b, repeats, a - 1);
    }
  }

  // ----- every word of the language is matched by a path

  lemma ReachEps(m: Match, s: State, pos: nat, t: State)
    requires ValidMatch(m) && Reaches(m, s, pos) && s.offset < |m.code| && t in Eps(m.code, End(m), s)
    ensures Reaches(m, t, pos)
  {
    ReachesMove(m, s, pos, t, pos);
  }

  lemma ReachTake(m: Match, s: State, pos: nat, t: State)
    requires ValidMatch(m) && Reaches(m, s, pos) && s.offset < |m.code| && pos < |m.subject|
    requires t in Take(m.code, s, m.subject[pos])
    ensures Reaches(m, t, pos + 1)
  {
    ReachesMove(m, s, pos, t, pos + 1);
  }

  /** The leaf can take n characters and be there still. */
  predicate Stays(op: Instr, n: nat)
    requires IsLeaf(op)
  {
    match op
    case Star(_) => true
    case Plus(_) => true
    case Exact(k, _) => n < k
    case Upto(k, _) => n < k
    case Range(_, max, _) => max == 0 || n < max
    case _ => n == 0
  }

  function Counting(op: Instr, b: nat, n: nat): State { if op.Star? then At(b) else State(b, n) }

  lemma {:induction false} LeafRun(m: Match, op: Instr, b: nat, i: nat, n: nat)
    requires ValidMatch(m) && b < |m.code| && m.code[b] == op && IsLeaf(op) && Reaches(m, At(b), i)
    requires AllPass(m.subject, op, i, i + n) && Stays(op, n)
    ensures Reaches(m, Counting(op, b, n), i + n)
  {
    if n > 0 {
      LeafRun(m, op, b, i, n - 1);
      ReachTake(m, Counting(op, b, n - 1), i + n - 1, Counting(op, b, n));
    }
  }

  lemma LeafForward(m: Match, op: Instr, b: nat, i: nat, j: nat)
    requires ValidMatch(m) && b < |m.code| && m.code[b] == op && Reaches(m, At(b), i) && In(m.subject, Leaf(op), i, j)
    ensures Reaches(m, At(b + 1), j)
  {
    hide Reaches;
    var n := j - i;
    if Stays(op, n) {
      LeafRun(m, op, b, i, n);
      ReachEps(m, Counting(op, b, n), j, At(b + 1));
    } else {
      LeafRun(m, op, b, i, n - 1);
      ReachTake(m, Counting(op, b, n - 1), j - 1, At(b + 1));
    }
  }

  lemma {:induction false} ItemForward(m: Match, r: Regex, b: nat, i: nat, j: nat)
    requires ValidMatch(m) && Placed(m.code, r, b) && b + Size(r) <= End(m)
    requires Reaches(m, At(b), i) && In(m.subject, r, i, j)
    ensures Reaches(m, At(b + Size(r)), j)
    decreases r, 0
  {
    hide PlacedAlts, InGroup, SizeAlts, Reaches;
    match r
    case Leaf(op) => LeafForward(m, op, b, i, j);
    case Group(alts, repeats) => GroupForward(m, alts, repeats, b, i, j);
    case Opt(alts, repeats) =>
      KetPlaced(m.code, alts, b + 1, b + 1, repeats);
      if i == j {
        ReachEps(m, At(b), i, At(b + Size(r)));
      } else {
        ReachEps(m, At(b), i, At(b + 1));
        GroupForward(m, alts, repeats, b + 1, i, j);
      }
    case Skip(alts, repeats) =>
      KetPlaced(m.code, alts, b + 1, b + 1, repeats);
      ReachEps(m, At(b), i, At(b + Size(r)));
  }

  lemma {:induction false} SeqForward(m: Match, rs: seq<Regex>, b: nat, i: nat, j: nat)
    requires ValidMatch(m) && PlacedSeq(m.code, rs, b) && b + SizeSeq(rs) <= End(m)
    requires Reaches(m, At(b), i) && InSeq(m.subject, rs, i, j)
    ensures Reaches(m, At(b + SizeSeq(rs)), j)
    decreases rs, 1
  {
    if rs != [] {
      var k :| In(m.subject, rs[0], i, k) && InSeq(m.subject, rs[1..], k, j);
      ItemForward(m, rs[0], b, i, k);
      SeqForward(m, rs[1..], b + Size(rs[0]), k, j);
    }
  }

  /** From the start of an alternative to the closing bracket. */
  lemma {:induction false} BranchForward(m: Match, alts: seq<Branch>, repeats: bool, b: nat, a: nat, i: nat, j: nat)
    requires ValidMatch(m) && b < |m.code| && PlacedAlts(m.code, alts, b, b, repeats) && b + SizeAlts(alts) <= End(m)
    requires a < |alts| && InSeq(m.subject, alts[a].items, i, j) && Reaches(m, At(Head(alts, b, a) + 1), i)
    ensures Reaches(m, At(b + SizeAlts(alts)), j)
    decreases alts, 2
  {
    hide PlacedAlts, InSeq, Head, SizeAlts, SizeSeq, KetOf, Reaches, PlacedSeq, Alternatives;
    BranchPlaced(m.code, alts, b, b, repeats, a);
    HeadNext(alts, b, a);
    HeadsRise(alts, b, a + 1);
    SeqForward(m, alts[a].items, Head(alts, b, a) + 1, i, j);
    if a + 1 < |alts| {
      AltPlaced(m.code, alts, b, b, repeats, a + 1);
      ReachEps(m, At(Head(alts, b, a + 1)), j, At(b + SizeAlts(alts)));
    }
  }

  lemma {:induction false} HeadsRise(alts: seq<Branch>, h: nat, a: nat)
    requires a <= |alts|
    ensures h <= Head(alts, h, a) <= h + SizeAlts(alts)
    decreases alts
  {
    if a > 0 { HeadsRise(alts[1..], h + 1 + SizeSeq(alts[0].items), a - 1); }
  }

  lemma {:induction false} IterForward(m: Match, alts: seq<Branch>, repeats: bool, b: nat, n: nat, i: nat, j: nat)
    requires ValidMatch(m) && b < |m.code| && m.code[b].Bra? && PlacedAlts(m.code, alts, b, b, repeats)
    requires b + SizeAlts(alts) < End(m) && Reaches(m, At(b), i)
    requires n > 0 && (repeats || n == 1) && Iter(m.subject, alts, n, i, j)
    ensures Reaches(m, At(b + SizeAlts(alts)), j)
    decreases alts, 3, n
  {
    hide PlacedAlts, InSeq, InAlts, Head, SizeAlts, Reaches;
    var k :| Iter(m.subject, alts, n - 1, i, k) && InAlts(m.subject, alts, k, j);
    if n > 1 {
      IterForward(m, alts, repeats, b, n - 1, i, k);
      KetBack(m, alts, b, k);
    }
    AltsForward(m, alts, repeats, b, k, j);
  }

  /** A repeating closing bracket leads back to the opening one. */
  lemma KetBack(m: Match, alts: seq<Branch>, b: nat, k: nat)
    requires ValidMatch(m) && b < |m.code| && PlacedAlts(m.code, alts, b, b, true) && b + SizeAlts(alts) < End(m)
    requires Reaches(m, At(b + SizeAlts(alts)), k)
    ensures Reaches(m, At(b), k)
  {
    hide PlacedAlts, SizeAlts, Reaches;
    KetPlaced(m.code, alts, b, b, true);
    ReachEps(m, At(b + SizeAlts(alts)), k, At(b));
  }

  /** One match of the alternatives. */
  lemma {:induction false} AltsForward(m: Match, alts: seq<Branch>, repeats: bool, b: nat, k: nat, j: nat)
    requires ValidMatch(m) && b < |m.code| && m.code[b].Bra? && PlacedAlts(m.code, alts, b, b, repeats)
    requires b + SizeAlts(alts) < End(m) && Reaches(m, At(b), k) && InAlts(m.subject, alts, k, j)
    ensures Reaches(m, At(b + SizeAlts(alts)), j)
    decreases alts, 3, 0
  {
    hide PlacedAlts, InSeq, Head, SizeAlts, Reaches;
    var a :| 0 <= a < |alts| && InSeq(m.subject, alts[a].items, k, j);
    BranchPlaced(m.code, alts, b, b, repeats, a);
    ReachEps(m, At(b), k, At(Head(alts, b, a) + 1));
    BranchForward(m, alts, repeats, b, a, k, j);
  }

  lemma {:induction false} GroupForward(m: Match, alts: seq<Branch>, repeats: bool, b: nat, i: nat, j: nat)
    requires ValidMatch(m) && b < |m.code| && m.code[b].Bra? && PlacedAlts(m.code, alts, b, b, repeats)
    requires b + SizeAlts(alts) < End(m) && Reaches(m, At(b), i) && InGroup(m.subject, alts, repeats, i, j)
    ensures Reaches(m, At(b + SizeAlts(alts) + 1), j)
    decreases alts, 4
  {
    var n: nat :| n > 0 && (repeats || n == 1) && Iter(m.subject, alts, n, i, j);
    IterForward(m, alts, repeats, b, n, i, j);
    KetPlaced(m.code, alts, b, b, repeats);
    ReachEps(m, At(b + SizeAlts(alts)), j, At(b + SizeAlts(alts) + 1));
  }

  // ----- every path matches a word of the language

  /** State s at position pos is where matching r from position i can stand, the exit excluded. */
  ghost predicate Inside(x: string, r: Regex, b: nat, i: nat, s: State, pos: nat)
    decreases r, 0
  {
    match r
    case Leaf(op) => IsLeaf(op) && AllPass(x, op, i, pos) && Stays(op, pos - i) && s == Counting(op, b, pos - i)
    case Group(alts, repeats) => InsideGroup(x, alts, repeats, b, i, s, pos)
    case Opt(alts, repeats) => (s == At(b) && pos == i) || InsideGroup(x, alts, repeats, b + 1, i, s, pos)
    case Skip(_, _) => s == At(b) && pos == i
  }

  ghost predicate InsideGroup(x: string, alts: seq<Branch>, repeats: bool, b: nat, i: nat, s: State, pos: nat)
    decreases alts, 4
  {
    exists n: nat, j: nat :: (repeats || n == 0) && Iter(x, alts, n, i, j) && InsideOnce(x, alts, b, j, s, pos)
  }

  /** In one match of the group that began at j: at its opening bracket, at its closing one, or in a branch. */
  ghost predicate InsideOnce(x: string, alts: seq<Branch>, b: nat, j: nat, s: State, pos: nat)
    decreases alts, 3
  {
    || (s == At(b) && pos == j)
    || (s == At(b + SizeAlts(alts)) && InAlts(x, alts, j, pos))
    || exists a :: 0 <= a < |alts| && InsideSeq(x, alts[a].items, Head(alts, b, a) + 1, j, s, pos)
  }

  /** The exit included. */
  ghost predicate InsideSeq(x: string, rs: seq<Regex>, b: nat, i: nat, s: State, pos: nat)
    decreases rs, 1
  {
    if rs == [] then s == At(b) && pos == i
    else
      || Inside(x, rs[0], b, i, s, pos)
      || exists k :: In(x, rs[0], i, k) && InsideSeq(x, rs[1..], b + Size(rs[0]), k, s, pos)
  }

  lemma {:induction false} ItemOffsets(x: string, r: Regex, b: nat, i: nat, s: State, pos: nat)
    requires Inside(x, r, b, i, s, pos)
    ensures b <= s.offset < b + Size(r)
    decreases r, 0
  {
    match r
    case Group(alts, repeats) => GroupOffsets(x, alts, repeats, b, i, s, pos);
    case Opt(alts, repeats) =>
      if InsideGroup(x, alts, repeats, b + 1, i, s, pos) { GroupOffsets(x, alts, repeats, b + 1, i, s, pos); }
    case _ =>
  }

  lemma {:induction false} GroupOffsets(x: string, alts: seq<Branch>, repeats: bool, b: nat, i: nat, s: State, pos: nat)
    requires InsideGroup(x, alts, repeats, b, i, s, pos)
    ensures b <= s.offset <= b + SizeAlts(alts)
    decreases alts, 4
  {
    var n: nat, j: nat :| (repeats || n == 0) && Iter(x, alts, n, i, j) && InsideOnce(x, alts, b, j, s, pos);
    OnceOffsets(x, alts, b, j, s, pos);
  }

  lemma {:induction false} OnceOffsets(x: string, alts: seq<Branch>, b: nat, j: nat, s: State, pos: nat)
    requires InsideOnce(x, alts, b, j, s, pos)
    ensures b <= s.offset <= b + SizeAlts(alts)
    decreases alts, 3
  {
    if a :| 0 <= a < |alts| && InsideSeq(x, alts[a].items, Head(alts, b, a) + 1, j, s, pos) {
      SeqOffsets(x, alts[a].items, Head(alts, b, a) + 1, j, s, pos);
      HeadNext(alts, b, a);
      HeadsRise(alts, b, a);
      HeadsRise(alts, b, a + 1);
    }
  }

  lemma {:induction false} SeqOffsets(x: string, rs: seq<Regex>, b: nat, i: nat, s: State, pos: nat)
    requires InsideSeq(x, rs, b, i, s, pos)
    ensures b <= s.offset <= b + SizeSeq(rs)
    decreases rs, 1
  {
    if rs != [] {
      if Inside(x, rs[0], b, i, s, pos) {
        ItemOffsets(x, rs[0], b, i, s, pos);
      } else {
        var k :| In(x, rs[0], i, k) && InsideSeq(x, rs[1..], b + Size(rs[0]), k, s, pos);
        SeqOffsets(x, rs[1..], b + Size(rs[0]), k, s, pos);
      }
    }
  }

  /** Standing at the exit means having matched. */
  lemma {:induction false} SeqExit(x: string, rs: seq<Regex>, b: nat, i: nat, s: State, pos: nat)
    requires InsideSeq(x, rs, b, i, s, pos) && s.offset == b + SizeSeq(rs)
    ensures s == At(b + SizeSeq(rs)) && InSeq(x, rs, i, pos)
    decreases rs, 1
  {
    if rs != [] {
      if Inside(x, rs[0], b, i, s, pos) {
        ItemOffsets(x, rs[0], b, i, s, pos);
      } else {
        var k :| In(x, rs[0], i, k) && InsideSeq(x, rs[1..], b + Size(rs[0]), k, s, pos);
        SeqExit(x, rs[1..], b + Size(rs[0]), k, s, pos);
      }
    }
  }

  lemma ItemEntry(code: seq<Instr>, x: string, r: Regex, b: nat, i: nat)
    requires Placed(code, r, b) && i <= |x|
    ensures Inside(x, r, b, i, At(b), i)
  {
    match r
    case Group(alts, repeats) => GroupEntry(x, alts, repeats, b, i);
    case _ =>
  }

  lemma GroupEntry(x: string, alts: seq<Branch>, repeats: bool, b: nat, i: nat)
    ensures InsideGroup(x, alts, repeats, b, i, At(b), i)
  {
    assert Iter(x, alts, 0, i, i) && InsideOnce(x, alts, b, i, At(b), i);
  }

  lemma SeqEntry(code: seq<Instr>, x: string, rs: seq<Regex>, b: nat, i: nat)
    requires PlacedSeq(code, rs, b) && i <= |x|
    ensures InsideSeq(x, rs, b, i, At(b), i)
  {
    if rs != [] { ItemEntry(code, x, rs[0], b, i); }
  }

  lemma NotFirst(code: seq<Instr>, alts: seq<Branch>, h: nat, b: nat, repeats: bool, o: nat)
    requires WellFormed(code) && PlacedAlts(code, alts, h, b, repeats) && IsGroup(code, h) && o in Alternatives(code, h)
    requires o != h + 1
    ensures |alts| > 1 && o in Alternatives(code, h + 1 + SizeSeq(alts[0].items))
    ensures h + 1 + SizeSeq(alts[0].items) < |code| && IsGroup(code, h + 1 + SizeSeq(alts[0].items))
  {
    hide PlacedSeq, SizeSeq;
    assert LinksOk(code, h);
  }

  lemma {:induction false} StartsAre(code: seq<Instr>, alts: seq<Branch>, h: nat, b: nat, repeats: bool, o: nat)
    returns (a: nat)
    requires WellFormed(code) && PlacedAlts(code, alts, h, b, repeats) && IsGroup(code, h) && o in Alternatives(code, h)
    ensures a < |alts| && o == Head(alts, h, a) + 1
    decreases alts
  {
    hide WellFormed, IsGroup, PlacedAlts, PlacedSeq, SizeSeq, Head, Alternatives, BranchAt;
    FirstBranch(code, alts, h, b, repeats);
    HeadStart(alts, h);
    if o == h + 1 {
      a := 0;
    } else {
      NotFirst(code, alts, h, b, repeats, o);
      LaterPlaced(code, alts, h, b, repeats);
      a := StartsAre(code, alts[1..], h + 1 + SizeSeq(alts[0].items), b, repeats, o);
      HeadShift(alts, h, a);
      a := a + 1;
    }
  }

  // ----- one move

  lemma LeafStep(m: Match, op: Instr, b: nat, i: nat, s: State, pos: nat, t: State, pos': nat)
    requires ValidMatch(m) && b < |m.code| && m.code[b] == op && Inside(m.subject, Leaf(op), b, i, s, pos)
    requires Moves(m, Point(s, pos), Point(t, pos'))
    ensures Inside(m.subject, Leaf(op), b, i, t, pos') || (t == At(b + 1) && In(m.subject, Leaf(op), i, pos'))
  {
  }

  lemma {:induction false} ItemStep(m: Match, r: Regex, b: nat, i: nat, s: State, pos: nat, t: State, pos': nat)
    requires ValidMatch(m) && Placed(m.code, r, b) && b + Size(r) <= End(m) && Inside(m.subject, r, b, i, s, pos)
    requires Moves(m, Point(s, pos), Point(t, pos')) && pos <= |m.subject|
    ensures Inside(m.subject, r, b, i, t, pos') || (t == At(b + Size(r)) && In(m.subject, r, i, pos'))
    decreases r, 0
  {
    hide PlacedAlts, InsideGroup, InGroup, SizeAlts;
    match r
    case Leaf(op) => LeafStep(m, op, b, i, s, pos, t, pos');
    case Group(alts, repeats) => GroupStep(m, alts, repeats, b, i, s, pos, t, pos');
    case Opt(alts, repeats) =>
      if s == At(b) && pos == i {
        KetPlaced(m.code, alts, b + 1, b + 1, repeats);
        GroupEntry(m.subject, alts, repeats, b + 1, i);
      } else {
        GroupStep(m, alts, repeats, b + 1, i, s, pos, t, pos');
      }
    case Skip(alts, repeats) => KetPlaced(m.code, alts, b + 1, b + 1, repeats);
  }

  lemma {:induction false} SeqStep(m: Match, rs: seq<Regex>, b: nat, i: nat, s: State, pos: nat, t: State, pos': nat)
    requires ValidMatch(m) && PlacedSeq(m.code, rs, b) && b + SizeSeq(rs) <= End(m)
    requires InsideSeq(m.subject, rs, b, i, s, pos) && s.offset < b + SizeSeq(rs)
    requires Moves(m, Point(s, pos), Point(t, pos')) && pos <= |m.subject|
    ensures InsideSeq(m.subject, rs, b, i, t, pos')
    decreases rs, 1
  {
    if rs != [] {
      hide Moves, Inside, In;
      var e := b + Size(rs[0]);
      if Inside(m.subject, rs[0], b, i, s, pos) {
        ItemStep(m, rs[0], b, i, s, pos, t, pos');
        MovesInside(m, s, pos, t, pos');
        SeqEntry(m.code, m.subject, rs[1..], e, pos');
      } else {
        var k :| In(m.subject, rs[0], i, k) && InsideSeq(m.subject, rs[1..], e, k, s, pos);
        SeqStep(m, rs[1..], e, k, s, pos, t, pos');
      }
    }
  }

  lemma MovesInside(m: Match, s: State, pos: nat, t: State, pos': nat)
    requires ValidMatch(m) && Moves(m, Point(s, pos), Point(t, pos')) && pos <= |m.subject|
    ensures pos <= pos' <= |m.subject|
  {
  }

  /** A move within one match of a group, or out of its closing bracket. */
  lemma {:induction false} OnceStep(m: Match, alts: seq<Branch>, repeats: bool, b: nat, j: nat, s: State, pos: nat, t: State, pos': nat)
    requires ValidMatch(m) && b < |m.code| && m.code[b].Bra? && PlacedAlts(m.code, alts, b, b, repeats)
    requires b + SizeAlts(alts) <= End(m) && InsideOnce(m.subject, alts, b, j, s, pos)
    requires Moves(m, Point(s, pos), Point(t, pos')) && pos <= |m.subject|
    ensures InsideOnce(m.subject, alts, b, j, t, pos')
            || (s == At(b + SizeAlts(alts)) && pos' == pos && InAlts(m.subject, alts, j, pos)
                && t in Eps(m.code, End(m), s))
    decreases alts, 3
  {
    hide PlacedAlts, InsideSeq, Head, SizeAlts, SizeSeq;
    KetPlaced(m.code, alts, b, b, repeats);
    if s == At(b) && pos == j {
      BracketStep(m, alts, repeats, b, j, t, pos');
    } else if s == At(b + SizeAlts(alts)) && InAlts(m.subject, alts, j, pos) {
      KetStep(m, s, pos, t, pos');
    } else {
      var a :| 0 <= a < |alts| && InsideSeq(m.subject, alts[a].items, Head(alts, b, a) + 1, j, s, pos);
      BranchStep(m, alts, repeats, b, j, a, s, pos, t, pos');
    }
  }

  lemma KetStep(m: Match, s: State, pos: nat, t: State, pos': nat)
    requires ValidMatch(m) && s.offset < |m.code| && m.code[s.offset].Ket? && Moves(m, Point(s, pos), Point(t, pos'))
    ensures pos' == pos && t in Eps(m.code, End(m), s)
  {
  }

  lemma AltStep(m: Match, s: State, pos: nat, t: State, pos': nat)
    requires ValidMatch(m) && s.offset < |m.code| && m.code[s.offset].Alt? && Moves(m, Point(s, pos), Point(t, pos'))
    ensures pos' == pos && t == At(KetOf(m.code, s.offset))
  {
  }

  lemma {:induction false} BranchStep(m: Match, alts: seq<Branch>, repeats: bool, b: nat, j: nat, a: nat,
                                      s: State, pos: nat, t: State, pos': nat)
    requires ValidMatch(m) && b < |m.code| && PlacedAlts(m.code, alts, b, b, repeats) && b + SizeAlts(alts) <= End(m)
    requires a < |alts| && InsideSeq(m.subject, alts[a].items, Head(alts, b, a) + 1, j, s, pos)
    requires Moves(m, Point(s, pos), Point(t, pos')) && pos <= |m.subject|
    ensures InsideOnce(m.subject, alts, b, j, t, pos')
            || (s == At(b + SizeAlts(alts)) && pos' == pos && InAlts(m.subject, alts, j, pos)
                && t in Eps(m.code, End(m), s))
    decreases alts, 2
  {
    hide PlacedAlts, InsideSeq, InSeq, Head, SizeAlts, SizeSeq, KetOf, PlacedSeq, Alternatives, Moves, Eps;
    BranchPlaced(m.code, alts, b, b, repeats, a);
    HeadNext(alts, b, a);
    HeadsRise(alts, b, a + 1);
    SeqOffsets(m.subject, alts[a].items, Head(alts, b, a) + 1, j, s, pos);
    if s.offset < Head(alts, b, a + 1) {
      SeqStep(m, alts[a].items, Head(alts, b, a) + 1, j, s, pos, t, pos');
    } else {
      SeqExit(m.subject, alts[a].items, Head(alts, b, a) + 1, j, s, pos);
      if a + 1 < |alts| {
        AltPlaced(m.code, alts, b, b, repeats, a + 1);
        AltStep(m, s, pos, t, pos');
      } else {
        KetPlaced(m.code, alts, b, b, repeats);
        KetStep(m, s, pos, t, pos');
      }
    }
  }

  lemma BracketStep(m: Match, alts: seq<Branch>, repeats: bool, b: nat, j: nat, t: State, pos': nat)
    requires ValidMatch(m) && b < |m.code| && m.code[b].Bra? && PlacedAlts(m.code, alts, b, b, repeats) && j <= |m.subject|
    requires Moves(m, Point(At(b), j), Point(t, pos'))
    ensures InsideOnce(m.subject, alts, b, j, t, pos')
  {
    hide PlacedAlts, InsideSeq, Head, SizeAlts, SizeSeq, PlacedSeq, Alternatives;
    assert t in States(Alternatives(m.code, b)) && pos' == j;
    var a := StartsAre(m.code, alts, b, b, repeats, t.offset);
    BranchPlaced(m.code, alts, b, b, repeats, a);
    SeqEntry(m.code, m.subject, alts[a].items, Head(alts, b, a) + 1, j);
  }

  lemma IterMore(x: string, alts: seq<Branch>, n: nat, i: nat, j: nat, k: nat)
    requires Iter(x, alts, n, i, j) && InAlts(x, alts, j, k)
    ensures Iter(x, alts, n + 1, i, k)
  {
    hide InAlts;
  }

  lemma {:induction false} GroupStep(m: Match, alts: seq<Branch>, repeats: bool, b: nat, i: nat, s: State, pos: nat, t: State, pos': nat)
    requires ValidMatch(m) && b < |m.code| && m.code[b].Bra? && PlacedAlts(m.code, alts, b, b, repeats)
    requires b + SizeAlts(alts) < End(m) && InsideGroup(m.subject, alts, repeats, b, i, s, pos)
    requires Moves(m, Point(s, pos), Point(t, pos')) && pos <= |m.subject|
    ensures InsideGroup(m.subject, alts, repeats, b, i, t, pos')
            || (t == At(b + SizeAlts(alts) + 1) && InGroup(m.subject, alts, repeats, i, pos'))
    decreases alts, 4
  {
    var n: nat, j: nat :| (repeats || n == 0) && Iter(m.subject, alts, n, i, j) && InsideOnce(m.subject, alts, b, j, s, pos);
    hide PlacedAlts, InsideOnce, SizeAlts, InAlts, Moves, Iter;
    OnceStep(m, alts, repeats, b, j, s, pos, t, pos');
    KetPlaced(m.code, alts, b, b, repeats);
    if !InsideOnce(m.subject, alts, b, j, t, pos') {
      IterMore(m.subject, alts, n, i, j, pos);
      if t == At(b) { OnceEntry(m.subject, alts, b, pos); }
    }
  }

  lemma OnceEntry(x: string, alts: seq<Branch>, b: nat, i: nat)
    ensures InsideOnce(x, alts, b, i, At(b), i)
  {
  }

  // ----- the whole pattern

  /** The code at the start of a match is that of the alternatives. */
  ghost predicate Holds(m: Match, alts: seq<Branch>) {
    ValidMatch(m) && PlacedAlts(m.code, alts, m.start, m.start, false)
  }

  /** For one: the compiled form of a single character followed by a repeated group of another. */
  lemma HoldsFor(a: char -> bool, b: char -> bool, subject: string, from: nat)
    requires from <= |subject|
    ensures var code := [Bra(6), One(a), BraZero, Bra(5), One(b), Ket(3, true), Ket(0, false), Other];
            Holds(Match(code, 0, subject, from), [Branch([Leaf(One(a)), Opt([Branch([Leaf(One(b))])], true)])])
  {
    var code := [Bra(6), One(a), BraZero, Bra(5), One(b), Ket(3, true), Ket(0, false), Other];
    var inner := [Branch([Leaf(One(b))])];
    var items := [Leaf(One(a)), Opt(inner, true)];
    var outer := [Branch(items)];
    PlacedOne(code, One(b), 3, 3, true);
    assert Placed(code, Opt(inner, true), 2) && Size(Opt(inner, true)) == 4;
    assert items[1..] == [Opt(inner, true)] && items[1..][1..] == [] && outer[1..] == [];
    assert SizeSeq([]) == 0 && SizeSeq(items[1..]) == 4 && SizeSeq(items) == 5;
    assert PlacedSeq(code, [], 6) && PlacedSeq(code, items[1..], 2) && PlacedSeq(code, items, 1);
    assert PlacedAlts(code, outer, 0, 0, false);
  }

  /** A group of one item. */
  lemma PlacedOne(code: seq<Instr>, op: Instr, h: nat, b: nat, repeats: bool)
    requires IsLeaf(op) && h + 2 < |code| && (code[h].Bra? || code[h].Alt?) && code[h].link == h + 2
    requires code[h + 1] == op && code[h + 2] == Ket(b, repeats)
    ensures PlacedAlts(code, [Branch([Leaf(op)])], h, b, repeats) && SizeAlts([Branch([Leaf(op)])]) == 2
  {
    var items, alts := [Leaf(op)], [Branch([Leaf(op)])];
    assert items[1..] == [] && alts[1..] == [] && Size(Leaf(op)) == 1 && SizeSeq(items) == 1 && SizeAlts([]) == 0;
    assert PlacedSeq(code, items, h + 1);
  }

  /** A path begins at the start of an alternative. */
  lemma PathStart(m: Match, alts: seq<Branch>, p: Point)
    requires Holds(m, alts) && IsPath(m, [p])
    ensures InsideOnce(m.subject, alts, m.start, m.from, p.s, p.pos)
  {
    hide PlacedAlts, InsideSeq, Head, SizeAlts, PlacedSeq, Alternatives;
    KetPlaced(m.code, alts, m.start, m.start, false);
    var a := StartsAre(m.code, alts, m.start, m.start, false, p.s.offset);
    BranchPlaced(m.code, alts, m.start, m.start, false, a);
    SeqEntry(m.code, m.subject, alts[a].items, Head(alts, m.start, a) + 1, m.from);
  }

  lemma {:induction false} PathInLanguage(m: Match, alts: seq<Branch>, path: seq<Point>)
    requires Holds(m, alts) && IsPath(m, path)
    ensures var p := path[|path| - 1]; InsideOnce(m.subject, alts, m.start, m.from, p.s, p.pos)
    decreases |path|
  {
    hide PlacedAlts, InsideOnce, SizeAlts, InAlts;
    var k := |path| - 1;
    KetPlaced(m.code, alts, m.start, m.start, false);
    if k == 0 {
      PathStart(m, alts, path[0]);
    } else {
      PathPrefix(m, path);
      PathInLanguage(m, alts, path[..k]);
      PathInside(m, path[..k]);
      OnceStep(m, alts, false, m.start, m.from, path[k - 1].s, path[k - 1].pos, path[k].s, path[k].pos);
    }
  }

  lemma EndInLanguage(m: Match, alts: seq<Branch>, pos: nat)
    requires Holds(m, alts) && InsideOnce(m.subject, alts, m.start, m.from, At(End(m)), pos)
    ensures InAlts(m.subject, alts, m.from, pos)
  {
    var b, s := m.start, At(End(m));
    KetPlaced(m.code, alts, b, b, false);
    if !InAlts(m.subject, alts, m.from, pos) {
      var a :| 0 <= a < |alts| && InsideSeq(m.subject, alts[a].items, Head(alts, b, a) + 1, m.from, s, pos);
      HeadNext(alts, b, a);
      HeadsRise(alts, b, a + 1);
      SeqOffsets(m.subject, alts[a].items, Head(alts, b, a) + 1, m.from, s, pos);
      SeqExit(m.subject, alts[a].items, Head(alts, b, a) + 1, m.from, s, pos);
    }
  }

  lemma LanguageReached(m: Match, alts: seq<Branch>, pos: nat)
    requires Holds(m, alts) && InAlts(m.subject, alts, m.from, pos)
    ensures Reaches(m, At(End(m)), pos)
  {
    hide PlacedAlts, SizeAlts, InSeq, Head, Alternatives, Reaches;
    var a :| 0 <= a < |alts| && InSeq(m.subject, alts[a].items, m.from, pos);
    KetPlaced(m.code, alts, m.start, m.start, false);
    BranchPlaced(m.code, alts, m.start, m.start, false, a);
    ReachesFirst(m, At(Head(alts, m.start, a) + 1));
    BranchForward(m, alts, false, m.start, a, m.from, pos);
  }

  /** A path reaches the end of the pattern at pos exactly when the subject up to there is a word of the
      pattern's language. */
  lemma PathsAreLanguage(m: Match, alts: seq<Branch>, pos: nat)
    requires Holds(m, alts)
    ensures Reaches(m, At(End(m)), pos) <==> InAlts(m.subject, alts, m.from, pos)
  {
    hide PlacedAlts, InsideOnce, InAlts, End;
    if Reaches(m, At(End(m)), pos) {
      var path :| IsPath(m, path) && path[|path| - 1] == Point(At(End(m)), pos);
      PathInLanguage(m, alts, path);
      EndInLanguage(m, alts, pos);
    }
    if InAlts(m.subject, alts, m.from, pos) { LanguageReached(m, alts, pos); }
  }

  // ----- no path of such a pattern meets an unsupported item

  lemma {:induction false} ItemKinds(code: seq<Instr>, x: string, r: Regex, b: nat, i: nat, s: State, pos: nat)
    requires WellFormed(code) && Placed(code, r, b) && Inside(x, r, b, i, s, pos)
    ensures s.offset < |code| && !code[s.offset].Other?
    decreases r, 0
  {
    hide PlacedAlts, InsideGroup;
    match r
    case Group(alts, repeats) => GroupKinds(code, x, alts, repeats, b, i, s, pos);
    case Opt(alts, repeats) =>
      if InsideGroup(x, alts, repeats, b + 1, i, s, pos) { GroupKinds(code, x, alts, repeats, b + 1, i, s, pos); }
    case _ =>
  }

  lemma {:induction false} GroupKinds(code: seq<Instr>, x: string, alts: seq<Branch>, repeats: bool, b: nat, i: nat, s: State, pos: nat)
    requires WellFormed(code) && b < |code| && code[b].Bra? && PlacedAlts(code, alts, b, b, repeats)
    requires InsideGroup(x, alts, repeats, b, i, s, pos)
    ensures s.offset < |code| && !code[s.offset].Other?
    decreases alts, 4
  {
    hide PlacedAlts, InsideOnce, Iter;
    var n: nat, j: nat :| (repeats || n == 0) && Iter(x, alts, n, i, j) && InsideOnce(x, alts, b, j, s, pos);
    OnceKinds(code, x, alts, repeats, b, j, s, pos);
  }

  lemma {:induction false} OnceKinds(code: seq<Instr>, x: string, alts: seq<Branch>, repeats: bool, b: nat, j: nat, s: State, pos: nat)
    requires WellFormed(code) && b < |code| && code[b].Bra? && PlacedAlts(code, alts, b, b, repeats)
    requires InsideOnce(x, alts, b, j, s, pos)
    ensures s.offset < |code| && !code[s.offset].Other?
    decreases alts, 3
  {
    hide PlacedAlts, InsideSeq, Head, SizeAlts, SizeSeq, PlacedSeq, InAlts, KetOf, Alternatives;
    KetPlaced(code, alts, b, b, repeats);
    if a :| 0 <= a < |alts| && InsideSeq(x, alts[a].items, Head(alts, b, a) + 1, j, s, pos) {
      BranchPlaced(code, alts, b, b, repeats, a);
      HeadNext(alts, b, a);
      SeqOffsets(x, alts[a].items, Head(alts, b, a) + 1, j, s, pos);
      if s.offset < Head(alts, b, a + 1) {
        SeqKinds(code, x, alts[a].items, Head(alts, b, a) + 1, j, s, pos);
      } else if a + 1 < |alts| {
        AltPlaced(code, alts, b, b, repeats, a + 1);
      }
    }
  }

  lemma {:induction false} SeqKinds(code: seq<Instr>, x: string, rs: seq<Regex>, b: nat, i: nat, s: State, pos: nat)
    requires WellFormed(code) && PlacedSeq(code, rs, b) && InsideSeq(x, rs, b, i, s, pos) && s.offset < b + SizeSeq(rs)
    ensures s.offset < |code| && !code[s.offset].Other?
    decreases rs, 1
  {
    if rs != [] {
      hide Inside, In, Placed;
      if Inside(x, rs[0], b, i, s, pos) {
        ItemKinds(code, x, rs[0], b, i, s, pos);
      } else {
        var k :| In(x, rs[0], i, k) && InsideSeq(x, rs[1..], b + Size(rs[0]), k, s, pos);
        SeqKinds(code, x, rs[1..], b + Size(rs[0]), k, s, pos);
      }
    }
  }

  lemma NothingUnsupported(m: Match, alts: seq<Branch>, s: State, pos: nat)
    requires Holds(m, alts) && Reaches(m, s, pos)
    ensures s.offset < |m.code| && !m.code[s.offset].Other?
  {
    hide PlacedAlts, InsideOnce;
    var path :| IsPath(m, path) && path[|path| - 1] == Point(s, pos);
    PathInLanguage(m, alts, path);
    OnceKinds(m.code, m.subject, alts, false, m.start, m.from, s, pos);
  }

  // ----- what the matcher reports

  /** The positions below hi up to which the subject is a word of the pattern, in rising order. */
  ghost function Words(m: Match, alts: seq<Branch>, opts: Dfa.Options, hi: nat): seq<nat> {
    if hi == 0 then []
    else Words(m, alts, opts, hi - 1)
         + if InAlts(m.subject, alts, m.from, hi - 1) && Dfa.LengthOk(m, opts, hi - 1) then [hi - 1] else []
  }

  lemma {:induction false} EndsAreWords(m: Match, alts: seq<Branch>, opts: Dfa.Options, hi: nat)
    requires Holds(m, alts)
    ensures Dfa.Ends(m, opts, hi) == Words(m, alts, opts, hi)
  {
    if hi > 0 {
      EndsAreWords(m, alts, opts, hi - 1);
      PathsAreLanguage(m, alts, hi - 1);
    }
  }

  /** Matching a pattern of the fragment: with a workspace that is large enough, the offsets hold exactly the
      ends of the words of its language, longest first, or only the shortest one if that was asked for. */
  method MatchPattern(m: Match, ghost alts: seq<Branch>, opts: Dfa.Options, offsets: array<int>, offsetcount: nat, wscount: nat)
    returns (rc: int)
    requires Holds(m, alts) && wscount >= 20 && offsetcount <= offsets.Length
    modifies offsets
    ensures rc == Dfa.ERROR_DFA_WSSIZE ==> Dfa.Capacity(wscount) < Dfa.Enough(m)
    ensures rc != Dfa.ERROR_DFA_WSSIZE ==>
              var all := Words(m, alts, opts, |m.subject| + 1);
              Dfa.Stored(offsets[..], offsetcount - offsetcount % 2, rc, if opts.shortest && all != [] then [all[0]] else all, m.from)
  {
    hide Words, Dfa.Ends, Dfa.Stored, Dfa.Enough, Reaches, PlacedAlts;
    EndsAreWords(m, alts, opts, |m.subject| + 1);
    rc := Dfa.InternalDfaExec(m, opts, offsets, offsetcount, wscount);
    if rc == Dfa.ERROR_DFA_UITEM {
      ghost var s, pos :| Reaches(m, s, pos) && s.offset < |m.code| && m.code[s.offset].Other?;
      NothingUnsupported(m, alts, s, pos);
    }
  }
}
