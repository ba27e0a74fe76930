/** `redisvFormatCommand`, with the conversions it hands on to printf; and `nextArgument`, which walks a
    formatted command. */
module Format {
  import opened Basics
  import opened Decimal
  import opened Command

  /** How an argument is turned into text: up to its NUL, as it is, by printf, or not at all. */
  datatype Conversion = UpToNul | Binary | Printf(spec: string) | Dropped

  /** A format is a sequence of these; `Value` takes the next argument. */
  datatype Piece = Space | Literal(c: char) | Value(conversion: Conversion)

  /** An argument: its bytes, and what printf makes of it under a conversion. */
  datatype Arg = Arg(bytes: string, sprintf: string -> string)

  // ----- conversions for printf

  const FLAGS := "#0-+ "
  const DIGITS := "0123456789"
  const INTEGERS := "diouxX"
  const DOUBLES := "eEfFgGaA"

  /** Room for a conversion with its percent sign. */
  const CONVERSION_LIMIT := 14

  /** How many characters behind the percent sign a conversion has; `Cut` when the format ends within it. */
  datatype Extent = Valid(n: nat) | Invalid | Cut

  function Skip(s: string, i: nat, these: string): (j: nat)
    requires i <= |s|
    ensures i <= j <= |s|
    decreases |s| - i
  {
    if i < |s| && s[i] in these then Skip(s, i + 1, these) else i
  }

  /** Flags, width and precision. */
  function Prefix(s: string): (i: nat)
    ensures i <= |s|
  {
    var i := Skip(s, Skip(s, 0, FLAGS), DIGITS);
    if i < |s| && s[i] == '.' then Skip(s, i + 1, DIGITS) else i
  }

  /** Size and type, behind flags, width and precision. */
  function Ending(s: string, i: nat): (e: Extent)
    requires i <= |s|
    ensures e.Valid? ==> 0 < e.n <= |s|
  {
    if i == |s| then Cut
    else if s[i] in INTEGERS || s[i] in DOUBLES then Valid(i + 1)
    else if s[i] != 'h' && s[i] != 'l' then Invalid
    else
      var k := if i + 1 < |s| && s[i + 1] == s[i] then i + 2 else i + 1;
      if k < |s| && s[k] in INTEGERS then Valid(k + 1) else Invalid
  }

  method SkipWhile(s: string, i: nat, these: string) returns (j: nat)
    requires i <= |s|
    ensures j == Skip(s, i, these)
  {
    j := i;
    while j < |s| && s[j] in these
      invariant i <= j <= |s| && Skip(s, j, these) == Skip(s, i, these)
    {
      j := j + 1;
    }
  }

  /** The detection of a printf conversion. */
  method FindConversion(s: string) returns (e: Extent)
    ensures e == Ending(s, Prefix(s))
  {
    hide Skip;
    var p := SkipWhile(s, 0, FLAGS);
    p := SkipWhile(s, p, DIGITS);
    if p < |s| && s[p] == '.' {
      p := SkipWhile(s, p + 1, DIGITS);
    }
    if p == |s| { return Cut; }
    if s[p] in INTEGERS { return Valid(p + 1); }
    if s[p] in DOUBLES { return Valid(p + 1); }
    if s[p] == 'h' && p + 1 < |s| && s[p + 1] == 'h' {
      p := p + 2;
      if p < |s| && s[p] in INTEGERS { return Valid(p + 1); }
      return Invalid;
    }
    if s[p] == 'h' {
      p := p + 1;
      if p < |s| && s[p] in INTEGERS { return Valid(p + 1); }
      return Invalid;
    }
    if s[p] == 'l' && p + 1 < |s| && s[p + 1] == 'l' {
      p := p + 2;
      if p < |s| && s[p] in INTEGERS { return Valid(p + 1); }
      return Invalid;
    }
    if s[p] == 'l' {
      p := p + 1;
      if p < |s| && s[p] in INTEGERS { return Valid(p + 1); }
      return Invalid;
    }
    return Invalid;
  }

  // ----- the pieces of a format

  datatype Step = Step(piece: Piece, used: nat) | Wrong | Open

  /** The first piece and its length. A conversion too long for its buffer uses up its argument, but only its
      first two characters. */
  function First(format: string): (f: Step)
    requires format != ""
    ensures f.Step? ==> 1 <= f.used <= |format|
  {
    if format[0] != '%' || |format| == 1 then Step(if format[0] == ' ' then Space else Literal(format[0]), 1)
    else match format[1]
      case 's' => Step(Value(UpToNul), 2)
      case 'b' => Step(Value(Binary), 2)
      case '%' => Step(Literal('%'), 2)
      case _ =>
        match Ending(format[1..], Prefix(format[1..]))
        case Cut => Open
        case Invalid => Wrong
        case Valid(n) =>
          if n + 1 < CONVERSION_LIMIT then Step(Value(Printf(format[..n + 1])), n + 1) else Step(Value(Dropped), 2)
  }

  /** What becomes of a format: its pieces, an error at the first invalid conversion, or no end. */
  datatype Scan = Scanned(pieces: seq<Piece>) | BadFormat | Unfinished

  function Then(p: Piece, scan: Scan): Scan {
    match scan
    case Scanned(ps) => Scanned([p] + ps)
    case other => other
  }

  function Pieces(format: string): Scan
    decreases |format|
  {
    if format == "" then Scanned([])
    else match First(format)
      case Step(p, used) => Then(p, Pieces(format[used..]))
      case Wrong => BadFormat
      case Open => Unfinished
  }

  /** The length of the word at the front. */
  function Run(ps: seq<Piece>): (n: nat)
    ensures n <= |ps|
  {
    if ps == [] || ps[0].Space? then 0 else 1 + Run(ps[1..])
  }

  /** The words of a format: maximal runs without a literal space. Arguments play no part in it. */
  function Words(ps: seq<Piece>): seq<seq<Piece>> {
    if ps == [] then []
    else if ps[0].Space? then Words(ps[1..])
    else [ps[..Run(ps)]] + Words(ps[Run(ps)..])
  }

  function Count(ps: seq<Piece>): nat {
    if ps == [] then 0 else (if ps[0].Value? then 1 else 0) + Count(ps[1..])
  }

  function ValueText(conversion: Conversion, arg: Arg): string {
    match conversion
    case UpToNul => arg.bytes[..StrLen(arg.bytes)]
    case Binary => arg.bytes
    case Printf(spec) => arg.sprintf(spec)
    case Dropped => ""
  }

  function Expand(word: seq<Piece>, args: seq<Arg>): string
    requires Count(word) <= |args|
  {
    if word == [] then ""
    else match word[0]
      case Value(conversion) => ValueText(conversion, args[0]) + Expand(word[1..], args[1..])
      case Literal(c) => [c] + Expand(word[1..], args)
      case Space => Expand(word[1..], args)
  }

  /** One command argument for every word of the format. */
  function Fill(words: seq<seq<Piece>>, args: seq<Arg>): (argv: seq<string>)
    requires CountAll(words) <= |args|
    ensures |argv| == |words|
  {
    if words == [] then []
    else [Expand(words[0], args)] + Fill(words[1..], args[Count(words[0])..])
  }

  function CountAll(words: seq<seq<Piece>>): nat {
    if words == [] then 0 else Count(words[0]) + CountAll(words[1..])
  }

  lemma {:induction false} CountSplit(ps: seq<Piece>, n: nat)
    requires n <= |ps|
    ensures Count(ps) == Count(ps[..n]) + Count(ps[n..])
  {
    if n == 0 {
      assert ps[..0] == [] && ps[0..] == ps;
    } else {
      CountSplit(ps[1..], n - 1);
      assert ps[1..][..n - 1] == ps[..n][1..] && ps[1..][n - 1..] == ps[n..];
    }
  }

  lemma {:induction false} CountWords(ps: seq<Piece>)
    ensures CountAll(Words(ps)) == Count(ps)
    decreases |ps|
  {
    if ps != [] {
      if ps[0].Space? {
        CountWords(ps[1..]);
      } else {
        CountWords(ps[Run(ps)..]);
        CountSplit(ps, Run(ps));
        var rest := [ps[..Run(ps)]] + Words(ps[Run(ps)..]);
        assert rest[1..] == Words(ps[Run(ps)..]);
      }
    }
  }

  /** What the rest of the scan yields: the word under construction, if any, then the later words. */
  function Rest(curarg: string, touched: bool, ps: seq<Piece>, args: seq<Arg>): seq<string>
    requires Count(ps) == |args|
  {
    CountSplit(ps, Run(ps));
    CountWords(ps[Run(ps)..]);
    CountWords(ps);
    if touched
    then [curarg + Expand(ps[..Run(ps)], args)] + Fill(Words(ps[Run(ps)..]), args[Count(ps[..Run(ps)])..])
    else Fill(Words(ps), args)
  }

  lemma RestSpace(curarg: string, touched: bool, ps: seq<Piece>, args: seq<Arg>)
    requires Count(ps) == |args| && ps != [] && ps[0].Space?
    ensures Rest(curarg, touched, ps, args) ==
            (if touched then [curarg] else []) + Rest("", false, ps[1..], args)
  {
    CountWords(ps);
    CountWords(ps[1..]);
    assert Run(ps) == 0 && ps[..0] == [] && ps[0..] == ps && args[0..] == args && curarg + "" == curarg;
  }

  lemma RestFirst(ps: seq<Piece>, args: seq<Arg>)
    requires Count(ps) == |args| && ps != [] && !ps[0].Space?
    ensures Rest("", false, ps, args) == Rest("", true, ps, args)
  {
    CountSplit(ps, Run(ps));
    CountWords(ps[Run(ps)..]);
    var word := ps[..Run(ps)];
    assert "" + Expand(word, args) == Expand(word, args);
    assert ([word] + Words(ps[Run(ps)..]))[1..] == Words(ps[Run(ps)..]);
  }

  lemma RestPiece(curarg: string, ps: seq<Piece>, args: seq<Arg>)
    requires Count(ps) == |args| && ps != [] && !ps[0].Space?
    ensures match ps[0]
            case Value(conversion) =>
              Rest(curarg, true, ps, args) == Rest(curarg + ValueText(conversion, args[0]), true, ps[1..], args[1..])
            case Literal(c) => Rest(curarg, true, ps, args) == Rest(curarg + [c], true, ps[1..], args)
            case Space => true
  {
    hide Fill, Words;
    var n := Run(ps);
    CountSplit(ps, n);
    CountWords(ps[n..]);
    CountSplit(ps[1..], n - 1);
    assert ps[..n][1..] == ps[1..][..n - 1] && ps[n..] == ps[1..][n - 1..];
    var word := ps[..n];
    match ps[0] {
      case Value(conversion) =>
        assert args[Count(word)..] == args[1..][Count(word[1..])..];
        assert curarg + (ValueText(conversion, args[0]) + Expand(word[1..], args[1..])) ==
               (curarg + ValueText(conversion, args[0])) + Expand(word[1..], args[1..]);
      case Literal(c) =>
        assert curarg + ([c] + Expand(word[1..], args)) == (curarg + [c]) + Expand(word[1..], args);
      case Space =>
    }
  }

  lemma RestPieceStart(curarg: string, touched: bool, ps: seq<Piece>, args: seq<Arg>)
    requires Count(ps) == |args| && ps != [] && !ps[0].Space? && (!touched ==> curarg == "")
    ensures Rest(curarg, touched, ps, args) == Rest(curarg, true, ps, args)
  {
    if !touched { RestFirst(ps, args); }
  }

  /** One piece of the format is worked off. */
  lemma RestStep(curarg: string, touched: bool, p: Piece, ps: seq<Piece>, args: seq<Arg>)
    requires Count([p] + ps) == |args| && (!touched ==> curarg == "")
    ensures Count(ps) == |args| - if p.Value? then 1 else 0
    ensures p.Space? ==> Rest(curarg, touched, [p] + ps, args) == (if touched then [curarg] else []) + Rest("", false, ps, args)
    ensures p.Literal? ==> Rest(curarg, touched, [p] + ps, args) == Rest(curarg + [p.c], true, ps, args)
    ensures p.Value? ==>
              |args| > 0 && Rest(curarg, touched, [p] + ps, args) == Rest(curarg + ValueText(p.conversion, args[0]), true, ps, args[1..])
  {
    hide Rest;
    var all := [p] + ps;
    assert all[0] == p && all[1..] == ps;
    if p.Space? {
      RestSpace(curarg, touched, all, args);
    } else {
      RestPieceStart(curarg, touched, all, args);
      RestPiece(curarg, all, args);
    }
  }

  lemma Front(format: string, c: nat)
    requires c < |format|
    ensures var f, r := First(format[c..]), Pieces(format[c..]);
            && (f.Wrong? ==> r.BadFormat?) && (f.Open? ==> r.Unfinished?)
            && (f.Step? ==> c + f.used <= |format| && var rest := Pieces(format[c + f.used..]);
                            && (r.Scanned? <==> rest.Scanned?) && (r.Unfinished? <==> rest.Unfinished?)
                            && (r.Scanned? ==> r.pieces == [f.piece] + rest.pieces))
    ensures format[c] != '%' || c + 1 == |format| ==>
              First(format[c..]) == Step(if format[c] == ' ' then Space else Literal(format[c]), 1)
  {
    hide Prefix, Ending;
    var f := First(format[c..]);
    if f.Step? { assert format[c..][f.used..] == format[c + f.used..]; }
  }

  /** What stands behind a percent sign: the text it adds, where the conversion ends, less one as the loop goes
      on from there, and the arguments used. */
  method Convert(format: string, c: nat, args: seq<Arg>, a: nat) returns (ok: bool, text: string, c': nat, a': nat)
    requires c + 1 < |format| && format[c] == '%' && a <= |args| && !First(format[c..]).Open?
    ensures ok <==> First(format[c..]).Step?
    ensures ok ==> c' + 2 == c + First(format[c..]).used && !First(format[c..]).piece.Space?
    ensures ok && First(format[c..]).piece.Literal? ==> text == [First(format[c..]).piece.c] && a' == a
    ensures ok && First(format[c..]).piece.Value? ==> a' == if a < |args| then a + 1 else a
    ensures ok && First(format[c..]).piece.Value? && a < |args| ==> text == ValueText(First(format[c..]).piece.conversion, args[a])
  {
    hide Prefix, Ending;
    ok, text, c', a' := true, "", c, a;
    match format[c + 1] {
    case 's' =>
      if a < |args| { text, a' := args[a].bytes[..StrLen(args[a].bytes)], a + 1; }
    case 'b' =>
      if a < |args| { text, a' := args[a].bytes, a + 1; }
    case '%' =>
      text := "%";
    case _ =>
      assert format[c..][1..] == format[c + 1..];
      var e := FindConversion(format[c + 1..]);
      if e == Invalid { return false, "", c, a; }
      var l := e.n + 1;
      if l < CONVERSION_LIMIT {
        assert format[c..][..l] == format[c..c + l];
        if a < |args| { text := args[a].sprintf(format[c..c + l]); }
        c' := c + l - 2;
      }
      if a < |args| { a' := a + 1; }
    }
  }

  /** Half way: the arguments done, the one at work and what the rest of the format makes give the whole. */
  ghost predicate Doing(whole: seq<string>, format: string, rest: seq<Arg>, curargv: seq<string>, curarg: string, touched: bool) {
    && Pieces(format).Scanned? && Count(Pieces(format).pieces) == |rest| && (!touched ==> curarg == "")
    && whole == curargv + Rest(curarg, touched, Pieces(format).pieces, rest)
  }

  lemma DoingNext(whole: seq<string>, format: string, c: nat, rest: seq<Arg>, curargv: seq<string>, curarg: string, touched: bool)
    requires c < |format| && Doing(whole, format[c..], rest, curargv, curarg, touched)
    ensures var f := First(format[c..]);
            && f.Step? && c + f.used <= |format|
            && var after := format[c + f.used..];
            && (f.piece.Space? ==> Doing(whole, after, rest, if touched then curargv + [curarg] else curargv, "", false))
            && (f.piece.Literal? ==> Doing(whole, after, rest, curargv, curarg + [f.piece.c], true))
            && (f.piece.Value? ==> rest != [] && Doing(whole, after, rest[1..], curargv, curarg + ValueText(f.piece.conversion, rest[0]), true))
  {
    hide Rest, First, Pieces, Count, ValueText;
    Front(format, c);
    var f := First(format[c..]);
    RestStep(curarg, touched, f.piece, Pieces(format[c + f.used..]).pieces, rest);
    if f.piece.Space? && touched {
      Assoc(curargv, [curarg], Rest("", false, Pieces(format[c + f.used..]).pieces, rest));
    }
  }

  lemma DoingStarts(format: string, args: seq<Arg>)
    requires Pieces(format).Scanned? && Count(Pieces(format).pieces) == |args|
    ensures var ps := Pieces(format).pieces;
            CountAll(Words(ps)) == |args| && Doing(Fill(Words(ps), args), format, args, [], "", false)
  {
    hide Rest, Fill;
    var ps := Pieces(format).pieces;
    RestStart(ps, args);
    assert [] + Fill(Words(ps), args) == Fill(Words(ps), args);
  }

  /** The scanning loop: it collects one argument per word of the format, however many spaces the
      substituted texts hold. */
  method Collect(format: string, args: seq<Arg>) returns (argv: Option<seq<string>>)
    requires !Pieces(format).Unfinished?
    requires Pieces(format).Scanned? ==> Count(Pieces(format).pieces) == |args|
    ensures argv.None? <==> Pieces(format).BadFormat?
    ensures argv.Some? ==> CountAll(Words(Pieces(format).pieces)) == |args|
                           && argv.value == Fill(Words(Pieces(format).pieces), args)
  {
    hide Doing, First, Pieces, ValueText, Count, Words, Fill, CountAll;
    ghost var whole: seq<string>, good := [], Pieces(format).Scanned?;
    if good {
      DoingStarts(format, args);
      whole := Fill(Words(Pieces(format).pieces), args);
    }
    assert format[0..] == format && args[0..] == args;
    var c, a := 0, 0;
    var curarg, touched, curargv := "", false, [];
    while c < |format|
      invariant 0 <= c <= |format| && 0 <= a <= |args| && (!touched ==> curarg == "")
      invariant !Pieces(format[c..]).Unfinished? && (good <==> Pieces(format[c..]).Scanned?)
      invariant good ==> Doing(whole, format[c..], args[a..], curargv, curarg, touched)
      decreases |format| - c
    {
      Front(format, c);
      if good { DoingNext(whole, format, c, args[a..], curargv, curarg, touched); }
      if format[c] != '%' || c + 1 == |format| {
        if format[c] == ' ' {
          if touched {
            curargv := curargv + [curarg];
            curarg, touched := "", false;
          }
        } else {
          curarg := curarg + [format[c]];
          touched := true;
        }
      } else {
        assert a < |args| ==> args[a..][0] == args[a] && args[a..][1..] == args[a + 1..];
        var text, ok;
        ok, text, c, a := Convert(format, c, args, a);
        if !ok { return None; }
        curarg := curarg + text;
        touched := true;
        c := c + 1;
      }
      c := c + 1;
    }
    DoingEnds(whole, format, c, args[a..], curargv, curarg, touched);
    if touched {
      curargv := curargv + [curarg];
    }
    return Some(curargv);
  }

  lemma DoingEnds(whole: seq<string>, format: string, c: nat, rest: seq<Arg>, curargv: seq<string>, curarg: string, touched: bool)
    requires c == |format|
    ensures Pieces(format[c..]).Scanned?
    ensures Doing(whole, format[c..], rest, curargv, curarg, touched) ==> whole == if touched then curargv + [curarg] else curargv
  {
    assert format[c..] == "" && Pieces("") == Scanned([]);
    if rest == [] { RestEnd(curarg, touched, rest); }
  }

  lemma RestStart(ps: seq<Piece>, args: seq<Arg>)
    requires Count(ps) == |args|
    ensures CountAll(Words(ps)) == |args| && Rest("", false, ps, args) == Fill(Words(ps), args)
  {
    CountWords(ps);
  }

  lemma RestEnd(curarg: string, touched: bool, args: seq<Arg>)
    requires |args| == 0
    ensures Rest(curarg, touched, [], args) == if touched then [curarg] else []
  {
    assert curarg + "" == curarg;
  }

  lemma WholeArgs(argv: seq<string>, lens: seq<nat>)
    requires |lens| == |argv| && forall j :: 0 <= j < |argv| ==> lens[j] == |argv[j]|
    ensures ValidArgs(argv, Some(lens)) && Args(argv, Some(lens)) == argv
  {
    var args := Args(argv, Some(lens));
    forall j | 0 <= j < |argv| ensures args[j] == argv[j] {
      assert argv[j][..lens[j]] == argv[j];
    }
  }

  /** `redisvFormatCommand`. */
  method FormatCommand(format: string, args: seq<Arg>) returns (cmd: Option<string>, totlen: nat)
    requires !Pieces(format).Unfinished?
    requires Pieces(format).Scanned? ==> Count(Pieces(format).pieces) == |args|
    ensures cmd.None? <==> Pieces(format).BadFormat?
    ensures cmd.Some? ==> CountAll(Words(Pieces(format).pieces)) == |args|
                          && cmd.value == Encode(Fill(Words(Pieces(format).pieces), args)) && totlen == |cmd.value|
  {
    hide Encode, Fill, Words;
    var argv := Collect(format, args);
    if argv.None? { return None, 0; }
    var lens: seq<nat> := seq(|argv.value|, j requires 0 <= j < |argv.value| => |argv.value[j]|);
    WholeArgs(argv.value, lens);
    totlen := TotalLen(argv.value, Some(lens));
    var buffer := new char[totlen + 1];
    var pos := FillCommand(buffer, argv.value);
    assert pos == totlen;
    return Some(buffer[..pos]), totlen;
  }

  // ----- the format that only substitutes

  /** "%b %b … %b" */
  function Substitute(n: nat): string {
    if n == 0 then "" else if n == 1 then "%b" else "%b " + Substitute(n - 1)
  }

  lemma SubstitutePieces(later: string, rest: seq<Piece>)
    requires Pieces(later) == Scanned(rest)
    ensures Pieces("%b " + later) == Scanned([Value(Binary), Space] + rest)
  {
    hide Prefix, Ending;
    var s, tail := "%b " + later, " " + later;
    assert s[2..] == tail && tail[1..] == later;
    assert First(tail) == Step(Space, 1) && First(s) == Step(Value(Binary), 2);
    assert Pieces(tail) == Scanned([Space] + rest);
    assert [Value(Binary)] + ([Space] + rest) == [Value(Binary), Space] + rest;
  }

  lemma SubstituteWords(rest: seq<Piece>)
    ensures Count([Value(Binary), Space] + rest) == 1 + Count(rest)
    ensures Words([Value(Binary), Space] + rest) == [[Value(Binary)]] + Words(rest)
  {
    var ps, tail := [Value(Binary), Space] + rest, [Space] + rest;
    assert ps[1..] == tail && tail[1..] == rest;
    assert Run(tail) == 0 && Run(ps) == 1 && ps[..1] == [Value(Binary)];
  }

  lemma SubstituteNone()
    ensures Pieces("") == Scanned([]) && Count([]) == 0 && Words([]) == [] && CountAll([]) == 0 && Fill([], []) == []
  {
  }

  lemma SubstituteLast()
    ensures Pieces("%b") == Scanned([Value(Binary)]) && Count([Value(Binary)]) == 1
    ensures Words([Value(Binary)]) == [[Value(Binary)]]
  {
    var ps := [Value(Binary)];
    assert "%b"[2..] == "" && Pieces("") == Scanned([]) && [Value(Binary)] + [] == ps;
    assert ps[..1] == ps && ps[1..] == [] && Run([]) == 0 && Run(ps) == 1;
  }

  function Texts(args: seq<Arg>): seq<string> { seq(|args|, i requires 0 <= i < |args| => args[i].bytes) }

  /** With it every argument becomes one command argument, whatever it contains: all three formatters
      write the same command. */
  lemma {:induction false} SubstituteKeeps(args: seq<Arg>)
    ensures Pieces(Substitute(|args|)).Scanned?
    ensures var ps := Pieces(Substitute(|args|)).pieces;
            Count(ps) == |args| && CountAll(Words(ps)) == |args| && Fill(Words(ps), args) == Texts(args)
  {
    hide Pieces, Count, Words, Fill, CountAll;
    SubstituteNone();
    if args == [] {
    } else if |args| == 1 {
      SubstituteLast();
      SubstituteOne(args[0], [], []);
      assert [[Value(Binary)]] + [] == [[Value(Binary)]] && [args[0]] + [] == args && [args[0].bytes] + [] == Texts(args);
    } else {
      SubstituteKeeps(args[1..]);
      var rest := Pieces(Substitute(|args| - 1)).pieces;
      SubstitutePieces(Substitute(|args| - 1), rest);
      SubstituteWords(rest);
      SubstituteOne(args[0], Words(rest), args[1..]);
      assert [args[0]] + args[1..] == args && [args[0].bytes] + Texts(args[1..]) == Texts(args);
    }
  }

  lemma SubstituteOne(arg: Arg, words: seq<seq<Piece>>, args: seq<Arg>)
    requires CountAll(words) == |args|
    ensures CountAll([[Value(Binary)]] + words) == |args| + 1
    ensures Fill([[Value(Binary)]] + words, [arg] + args) == [arg.bytes] + Fill(words, args)
  {
    var word, all := [Value(Binary)], [[Value(Binary)]] + words;
    assert word[1..] == [] && Count(word) == 1;
    assert all[0] == word && all[1..] == words;
    assert ([arg] + args)[1..] == args && ([arg] + args)[0] == arg;
    assert Expand([], args) == "" && arg.bytes + "" == arg.bytes;
    assert Expand(word, [arg] + args) == arg.bytes;
  }

  // ----- nextArgument

  /** strchr, for a character other than NUL. */
  function Find(s: string, i: nat, c: char): (r: Option<nat>)
    ensures r.Some? ==> i <= r.value < |s| && s[r.value] == c
    decreases |s| - i
  {
    if i >= |s| || s[i] == '\0' then None else if s[i] == c then Some(i) else Find(s, i + 1, c)
  }

  /** strtol on the digits from i on. */
  function Digits(s: string, i: nat): (n: nat)
    ensures i <= |s| ==> i + n <= |s| && AllDigits(s[i..i + n])
    decreases |s| - i
  {
    if i >= |s| || !IsDigit(s[i]) then 0
    else
      assert s[i..i + 1 + Digits(s, i + 1)] == [s[i]] + s[i + 1..i + 1 + Digits(s, i + 1)];
      1 + Digits(s, i + 1)
  }

  datatype Next = End | Abort | Found(str: nat, len: nat, next: nat)

  /** A length after strtol and the cast to int; none where that is negative, which the source's pointer
      arithmetic does not survive. */
  function IntLength(v: nat): Option<nat> {
    var w := v % 0x1_0000_0000;
    if v > LLONG_MAX || w > INT_MAX then None else Some(w)
  }

  /** `nextArgument`: where the next argument's text is, how long it is, and where to go on. */
  function NextArgument(s: string, start: nat): (n: Next)
    ensures n.Found? ==> n.next > start
  {
    match (if start < |s| && s[start] == '$' then Some(start) else Find(s, start, '$'))
    case None => End
    case Some(p) =>
      match Find(s, p, '\r')
      case None => Abort
      case Some(q) =>
        match IntLength(Decimal.Value(s[p + 1..p + 1 + Digits(s, p + 1)]))
        case None => Abort
        case Some(len) => Found(q + 2, len, q + 2 + len + 2)
  }

  /** All arguments met from start on. */
  function Walk(s: string, start: nat): seq<string>
    decreases |s| - start
  {
    match NextArgument(s, start)
    case Found(str, len, next) =>
      if next <= |s| then [s[str..str + len]] + Walk(s, next) else []
    case _ => []
  }

  lemma {:induction false} FindSkips(s: string, i: nat, j: nat, c: char)
    requires i <= j < |s| && s[j] == c && c != '\0'
    requires forall k :: i <= k < j ==> s[k] != c && s[k] != '\0'
    ensures Find(s, i, c) == Some(j)
    decreases j - i
  {
    if i < j { FindSkips(s, i + 1, j, c); }
  }

  lemma {:induction false} DigitsStop(s: string, i: nat, n: nat)
    requires i + n < |s| && AllDigits(s[i..i + n]) && !IsDigit(s[i + n])
    ensures Digits(s, i) == n
    decreases n
  {
    if n > 0 {
      assert s[i] == s[i..i + n][0];
      assert s[i + 1..i + n] == s[i..i + n][1..];
      DigitsStop(s, i + 1, n - 1);
    }
  }

  lemma NextOnBulk(pre: string, arg: string, rest: string)
    ensures var str := |pre| + |Bulk(arg)| - 2 - |arg|;
            str >= 0 && NextArgument(pre + Bulk(arg) + rest, |pre|) ==
            match IntLength(|arg|) case None => Abort case Some(len) => Found(str, len, str + len + 2)
  {
    hide Unsigned, Find, Digits, IntLength;
    var s, p, digits := pre + Bulk(arg) + rest, |pre|, Unsigned(|arg|);
    var q := p + 1 + |digits|;
    assert s[p] == '$' && s[q] == '\r' && s[p + 1..q] == digits;
    assert forall k :: p + 1 <= k < q ==> s[k] == digits[k - p - 1];
    DigitsStop(s, p + 1, |digits|);
    FindSkips(s, p, q, '\r');
    ValueOfUnsigned(|arg|);
  }

  predicate IntLengths(args: seq<string>) { forall i :: 0 <= i < |args| ==> |args[i]| <= INT_MAX }

  lemma WalkFirst(pre: string, arg: string, rest: string)
    ensures var s := pre + Bulk(arg) + rest;
            if |arg| <= INT_MAX then Walk(s, |pre|) == [arg] + Walk(s, |pre + Bulk(arg)|)
            else Walk(s, |pre|) == [] || |Walk(s, |pre|)[0]| <= INT_MAX
  {
    hide NextArgument, Bulk;
    NextOnBulk(pre, arg, rest);
    BulkText(pre, arg, rest);
  }

  lemma {:induction false} WalkBulks(pre: string, args: seq<string>)
    ensures Walk(pre + Bulks(args), |pre|) == args <==> IntLengths(args)
    decreases |args|
  {
    var s := pre + Bulks(args);
    if args == [] {
      WalkEnds(s);
    } else {
      hide Walk, Bulk;
      var arg, rest := args[0], Bulks(args[1..]);
      Assoc(pre, Bulk(arg), rest);
      WalkFirst(pre, arg, rest);
      if |arg| <= INT_MAX {
        WalkBulks(pre + Bulk(arg), args[1..]);
        var later := Walk(s, |pre + Bulk(arg)|);
        assert ([arg] + later)[1..] == later && [arg] + args[1..] == args;
        assert forall i :: 1 <= i < |args| ==> args[i] == args[1..][i - 1];
      }
    }
  }

  lemma WalkEnds(s: string)
    ensures Walk(s, |s|) == []
  {
  }

  lemma BulkText(pre: string, arg: string, rest: string)
    ensures |Bulk(arg)| >= 2 + |arg|
    ensures var s, str := pre + Bulk(arg) + rest, |pre| + |Bulk(arg)| - 2 - |arg|;
            s[str..str + |arg|] == arg
  {
    hide Unsigned;
  }

  /** `nextArgument` walks exactly the arguments of a formatted command, then ends, if and only if the
      length of each fits an int. */
  lemma WalkCommand(args: seq<string>)
    requires args != []
    ensures Walk(Encode(args), 0) == args <==> IntLengths(args)
  {
    hide Unsigned, Bulks, Walk;
    var header, s := Header(|args|), Encode(args);
    assert s == header + Bulks(args);
    WalkBulks(header, args);
    HeaderPlain(|args|);
    BulksStart(args);
    assert s[|header|] == '$' && forall k :: 0 <= k < |header| ==> s[k] == header[k];
    WalkSkips(s, |header|);
  }

  lemma WalkSkips(s: string, h: nat)
    requires h < |s| && s[h] == '$' && forall k :: 0 <= k < h ==> s[k] != '$' && s[k] != '\0'
    ensures Walk(s, 0) == Walk(s, h)
  {
    hide NextArgument;
    NextSkips(s, h);
  }

  lemma NextSkips(s: string, h: nat)
    requires h < |s| && s[h] == '$' && forall k :: 0 <= k < h ==> s[k] != '$' && s[k] != '\0'
    ensures NextArgument(s, 0) == NextArgument(s, h)
  {
    hide Find, Digits, Decimal.Value;
    FindSkips(s, 0, h, '$');
  }

  function Header(n: nat): string { "*" + Unsigned(n) + "\r\n" }

  lemma HeaderPlain(n: nat)
    ensures forall k :: 0 <= k < |Header(n)| ==> Header(n)[k] != '$' && Header(n)[k] != '\0'
  {
    hide Unsigned;
    forall k | 1 <= k < |Header(n)| - 2 ensures IsDigit(Header(n)[k]) {
      assert Header(n)[k] == Unsigned(n)[k - 1];
    }
  }

  lemma BulksStart(args: seq<string>)
    requires args != []
    ensures |Bulks(args)| > 0 && Bulks(args)[0] == '$'
  {
    hide Unsigned;
  }
}
