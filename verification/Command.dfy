/** The command formatters of hiredis.c and the argument walk of async.c. */
module Command {
  import opened Basics
  import opened Decimal
  import opened Resp

  const UINT_RANGE: int := 0x1_0000_0000

  // ----- the wire format

  function Bulk(arg: string): string {
    "$" + Unsigned(|arg|) + "\r\n" + arg + "\r\n"
  }

  function Bulks(args: seq<string>): string {
    if args == [] then "" else Bulk(args[0]) + Bulks(args[1..])
  }

  /** A command: the number of arguments, then each as a bulk string. */
  function Encode(args: seq<string>): string {
    "*" + Unsigned(|args|) + "\r\n" + Bulks(args)
  }

  lemma {:induction false} BulksAppend(args: seq<string>, arg: string)
    ensures Bulks(args + [arg]) == Bulks(args) + Bulk(arg)
  {
    if args == [] {
      assert Bulks([arg]) == Bulk(arg) + Bulks([]);
    } else {
      assert (args + [arg])[1..] == args[1..] + [arg];
      BulksAppend(args[1..], arg);
    }
  }

  // ----- reading a command back

  function Strings(args: seq<string>): seq<Reply> {
    if args == [] then [] else [TextReply(String, args[0])] + Strings(args[1..])
  }

  predicate Fits(cfg: Config, args: seq<string>) {
    && |args| <= LLONG_MAX && (cfg.maxElements > 0 ==> |args| <= cfg.maxElements)
    && forall i :: 0 <= i < |args| ==> |args[i]| <= LLONG_MAX
  }

  /** A line of digits ends at the CR LF after it. */
  lemma {:induction false} NewlineAfterDigits(digits: string, rest: string)
    requires AllDigits(digits)
    ensures Newline(digits + "\r\n" + rest) == Some(|digits|)
  {
    var s := digits + "\r\n" + rest;
    if digits != "" {
      assert IsDigit(digits[0]);
      assert s[0] == digits[0] && s[1..] == digits[1..] + "\r\n" + rest;
      NewlineAfterDigits(digits[1..], rest);
    }
  }

  lemma NumberLine(n: nat, rest: string)
    requires n <= LLONG_MAX
    ensures var s := Unsigned(n) + "\r\n" + rest;
            && Newline(s) == Some(|Unsigned(n)|) && s[..|Unsigned(n)|] == Unsigned(n)
            && Read(Unsigned(n)) == Some(n)
  {
    NewlineAfterDigits(Unsigned(n), rest);
    ReadIffSigned(Unsigned(n), n);
  }

  lemma ReadBulk(cfg: Config, parent: Option<Kind>, arg: string, rest: string)
    requires |arg| <= LLONG_MAX
    ensures var s := Unsigned(|arg|) + "\r\n" + (arg + "\r\n" + rest);
            && ReadItem(cfg, String, parent, s) == Leaf(TextReply(String, arg), |s| - |rest|)
            && s[|s| - |rest|..] == rest
  {
    hide Unsigned, Read, Newline;
    var payload := arg + "\r\n" + rest;
    var s := Unsigned(|arg|) + "\r\n" + payload;
    NumberLine(|arg|, payload);
    var start := |Unsigned(|arg|)| + 2;
    assert s[start..] == payload;
    assert s[start..start + |arg|] == payload[..|arg|] == arg;
  }

  lemma ParseBulk(cfg: Config, parent: Option<Kind>, arg: string, rest: string)
    requires |arg| <= LLONG_MAX
    ensures Parse(cfg, parent, Bulk(arg) + rest) == Done(TextReply(String, arg), rest)
  {
    hide Unsigned, ReadItem;
    ReadBulk(cfg, parent, arg, rest);
    var s := Unsigned(|arg|) + "\r\n" + (arg + "\r\n" + rest);
    assert Bulk(arg) + rest == "$" + s;
    assert ("$" + s)[1..] == s;
  }

  lemma {:induction false} ParseBulks(cfg: Config, args: seq<string>, rest: string)
    requires forall i :: 0 <= i < |args| ==> |args[i]| <= LLONG_MAX
    ensures ParseMany(cfg, Array, |args|, Bulks(args) + rest) == Done(Strings(args), rest)
    decreases |args|
  {
    hide ReadItem, Bulk;
    if args == [] {
      assert "" + rest == rest;
    } else {
      var later := Bulks(args[1..]) + rest;
      assert Bulks(args) + rest == Bulk(args[0]) + later;
      ParseBulk(cfg, Some(Array), args[0], later);
      ParseBulks(cfg, args[1..], rest);
    }
  }

  /** Round trip: the reader's grammar gives back exactly the arguments, whatever bytes they hold, and
      stops right behind the command. */
  lemma EncodeParses(cfg: Config, args: seq<string>, rest: string)
    requires Fits(cfg, args)
    ensures Parse(cfg, None, Encode(args) + rest) == Done(AggregateReply(Array, Strings(args)), rest)
  {
    hide Unsigned, ReadItem, Bulks;
    var s := Unsigned(|args|) + "\r\n" + (Bulks(args) + rest);
    assert Encode(args) + rest == "*" + s;
    assert ("*" + s)[1..] == s;
    ReadCount(cfg, |args|, Bulks(args) + rest);
    ParseBulks(cfg, args, rest);
  }

  lemma ReadCount(cfg: Config, count: nat, body: string)
    requires count <= LLONG_MAX && (cfg.maxElements > 0 ==> count <= cfg.maxElements)
    ensures var s := Unsigned(count) + "\r\n" + body;
            && ReadItem(cfg, Array, None, s) == Open(count, |s| - |body|)
            && s[|s| - |body|..] == body
  {
    hide Unsigned, Read, Newline;
    NumberLine(count, body);
  }

  function Commands(cmds: seq<seq<string>>): string {
    if cmds == [] then "" else Encode(cmds[0]) + Commands(cmds[1..])
  }

  function Arrays(cmds: seq<seq<string>>): seq<Reply> {
    if cmds == [] then [] else [AggregateReply(Array, Strings(cmds[0]))] + Arrays(cmds[1..])
  }

  /** A whole pipeline of commands comes back as written. */
  lemma {:induction false} PipelineParses(cfg: Config, cmds: seq<seq<string>>)
    requires forall i :: 0 <= i < |cmds| ==> Fits(cfg, cmds[i])
    ensures Stream(cfg, Commands(cmds)) == Seen(Arrays(cmds), None)
  {
    hide Parse, Encode;
    if cmds == [] {
      StreamOfNothing(cfg);
    } else {
      EncodeParses(cfg, cmds[0], Commands(cmds[1..]));
      PipelineParses(cfg, cmds[1..]);
    }
  }

  lemma StreamOfNothing(cfg: Config)
    ensures Stream(cfg, "") == Seen([], None)
  {
  }

  // ----- redisFormatCommandArgv

  function StrLen(s: string): (n: nat)
    ensures n <= |s|
    ensures forall i :: 0 <= i < n ==> s[i] != '\0'
    ensures n < |s| ==> s[n] == '\0'
  {
    if s == "" || s[0] == '\0' then 0 else 1 + StrLen(s[1..])
  }

  /** The argument lengths: given, or found with strlen. */
  function ArgLen(argv: seq<string>, argvlen: Option<seq<nat>>, j: nat): nat
    requires j < |argv| && (argvlen.Some? ==> |argvlen.value| == |argv|)
  {
    if argvlen.Some? then argvlen.value[j] else StrLen(argv[j])
  }

  predicate ValidArgs(argv: seq<string>, argvlen: Option<seq<nat>>) {
    argvlen.Some? ==> |argvlen.value| == |argv| && forall j :: 0 <= j < |argv| ==> argvlen.value[j] <= |argv[j]|
  }

  function Arg(argv: seq<string>, argvlen: Option<seq<nat>>, j: nat): string
    requires ValidArgs(argv, argvlen) && j < |argv|
  {
    argv[j][..ArgLen(argv, argvlen, j)]
  }

  function Args(argv: seq<string>, argvlen: Option<seq<nat>>): (args: seq<string>)
    requires ValidArgs(argv, argvlen)
    ensures |args| == |argv|
  {
    seq(|argv|, j requires 0 <= j < |argv| => Arg(argv, argvlen, j))
  }

  /** `bulklen` is the length of the bulk it announces. */
  method BulkLen(len: nat) returns (n: nat)
    ensures forall arg: string :: |arg| == len ==> n == |Bulk(arg)|
  {
    var digits := CountDigits(len);
    return 1 + digits + 2 + len + 2;
  }

  /** The precomputed length of the whole command. */
  method TotalLen(argv: seq<string>, argvlen: Option<seq<nat>>) returns (totlen: nat)
    requires ValidArgs(argv, argvlen)
    ensures totlen == |Encode(Args(argv, argvlen))|
  {
    hide Bulk;
    ghost var args := Args(argv, argvlen);
    var digits := CountDigits(|argv|);
    totlen := 1 + digits + 2;
    var j := 0;
    while j < |argv|
      invariant j <= |argv| && totlen == |"*" + Unsigned(|argv|) + "\r\n" + Bulks(args[..j])|
    {
      var len := ArgLen(argv, argvlen, j);
      var n := BulkLen(len);
      BulksAppend(args[..j], args[j]);
      assert args[..j] + [args[j]] == args[..j + 1];
      assert n == |Bulk(args[j])|;
      totlen := totlen + n;
      j := j + 1;
    }
    assert args[..j] == args;
  }

  /** Copies text to position pos of the buffer, as sprintf and memcpy do. */
  method Put(cmd: array<char>, pos: nat, text: string) returns (pos': nat)
    requires pos + |text| <= cmd.Length
    modifies cmd
    ensures pos' == pos + |text| && cmd[..pos'] == old(cmd[..pos]) + text
  {
    forall i | 0 <= i < |text| { cmd[pos + i] := text[i]; }
    return pos + |text|;
  }

  method PutBulk(cmd: array<char>, pos: nat, arg: string) returns (pos': nat)
    requires pos + |Bulk(arg)| <= cmd.Length
    modifies cmd
    ensures pos' == pos + |Bulk(arg)| && cmd[..pos'] == old(cmd[..pos]) + Bulk(arg)
  {
    ghost var before := cmd[..pos];
    pos' := Put(cmd, pos, "$" + Unsigned(|arg|) + "\r\n");
    pos' := Put(cmd, pos', arg);
    cmd[pos'] := '\r';
    cmd[pos' + 1] := '\n';
    pos' := pos' + 2;
    assert cmd[..pos'] == before + ("$" + Unsigned(|arg|) + "\r\n") + arg + "\r\n";
    assert before + ("$" + Unsigned(|arg|) + "\r\n") + arg + "\r\n" == before + Bulk(arg);
  }

  lemma {:induction false} BulksLength(args: seq<string>, j: nat)
    requires j < |args|
    ensures |Bulks(args[..j])| + |Bulk(args[j])| <= |Bulks(args)|
    decreases |args| - j
  {
    hide Bulk;
    BulksAppend(args[..j], args[j]);
    assert args[..j] + [args[j]] == args[..j + 1];
    if j + 1 < |args| {
      BulksLength(args, j + 1);
    } else {
      assert args[..j + 1] == args;
    }
  }

  /** The filling loop; the position it ends at is the precomputed length. */
  method FillCommand(cmd: array<char>, args: seq<string>) returns (pos: nat)
    requires cmd.Length > |Encode(args)|
    modifies cmd
    ensures pos == |Encode(args)| && cmd[..pos] == Encode(args)
  {
    ghost var header := "*" + Unsigned(|args|) + "\r\n";
    assert Encode(args) == header + Bulks(args) && args[..0] == [] && header + Bulks([]) == header;
    hide Bulk, Bulks, Unsigned, Encode;
    pos := Put(cmd, 0, "*" + Unsigned(|args|) + "\r\n");
    var j := 0;
    while j < |args|
      invariant j <= |args| && pos == |header + Bulks(args[..j])| < cmd.Length
      invariant cmd[..pos] == header + Bulks(args[..j])
    {
      BulksLength(args, j);
      BulksAppend(args[..j], args[j]);
      assert args[..j] + [args[j]] == args[..j + 1];
      ghost var before := cmd[..pos];
      pos := PutBulk(cmd, pos, args[j]);
      Assoc(header, Bulks(args[..j]), Bulk(args[j]));
      j := j + 1;
    }
    assert args[..j] == args;
  }

  /** `redisFormatCommandArgv`. */
  method FormatCommandArgv(argv: seq<string>, argvlen: Option<seq<nat>>) returns (cmd: array<char>, totlen: nat)
    requires ValidArgs(argv, argvlen) && |Encode(Args(argv, argvlen))| < INT_MAX
    ensures fresh(cmd) && cmd.Length == totlen + 1
    ensures totlen == |Encode(Args(argv, argvlen))|
    ensures cmd[..totlen] == Encode(Args(argv, argvlen)) && cmd[totlen] == '\0'
  {
    hide Encode;
    totlen := TotalLen(argv, argvlen);
    cmd := new char[totlen + 1];
    var pos := FillCommand(cmd, Args(argv, argvlen));
    assert pos == totlen;
    cmd[pos] := '\0';
  }

  // ----- redisFormatSdsCommandArgv

  /** Its lengths go through an unsigned int. */
  function SdsBulk(arg: string): string {
    "$" + Unsigned(|arg| % UINT_RANGE) + "\r\n" + arg + "\r\n"
  }

  function SdsBulks(args: seq<string>): string {
    if args == [] then "" else SdsBulk(args[0]) + SdsBulks(args[1..])
  }

  function SdsEncode(args: seq<string>): string {
    "*" + Unsigned(|args|) + "\r\n" + SdsBulks(args)
  }

  lemma {:induction false} SdsBulksAppend(args: seq<string>, arg: string)
    ensures SdsBulks(args + [arg]) == SdsBulks(args) + SdsBulk(arg)
  {
    if args == [] {
      assert SdsBulks([arg]) == SdsBulk(arg) + SdsBulks([]);
    } else {
      assert (args + [arg])[1..] == args[1..] + [arg];
      SdsBulksAppend(args[1..], arg);
    }
  }

  predicate UintLengths(args: seq<string>) {
    forall i :: 0 <= i < |args| ==> |args[i]| < UINT_RANGE
  }

  /** Equal texts that start with digit lines have equal digits and equal rests. */
  lemma DigitLinesCancel(m: nat, n: nat, x: string, y: string)
    requires Unsigned(m) + "\r\n" + x == Unsigned(n) + "\r\n" + y
    ensures m == n && x == y
  {
    var s := Unsigned(m) + "\r\n" + x;
    NewlineAfterDigits(Unsigned(m), x);
    NewlineAfterDigits(Unsigned(n), y);
    var k := |Unsigned(m)|;
    assert s[..k] == Unsigned(m) && (Unsigned(n) + "\r\n" + y)[..k] == Unsigned(n);
    assert s[k + 2..] == x && (Unsigned(n) + "\r\n" + y)[k + 2..] == y;
    ValueOfUnsigned(m);
    ValueOfUnsigned(n);
  }

  lemma SdsBulkCancels(a: string, x: string, y: string)
    requires SdsBulk(a) + x == Bulk(a) + y
    ensures |a| < UINT_RANGE && x == y
  {
    hide Unsigned;
    var m := |a| % UINT_RANGE;
    var x', y' := a + "\r\n" + x, a + "\r\n" + y;
    assert SdsBulk(a) + x == "$" + (Unsigned(m) + "\r\n" + x');
    assert Bulk(a) + y == "$" + (Unsigned(|a|) + "\r\n" + y');
    assert (SdsBulk(a) + x)[1..] == (Bulk(a) + y)[1..];
    DigitLinesCancel(m, |a|, x', y');
    assert x == x'[|a| + 2..] && y == y'[|a| + 2..];
  }

  lemma {:induction false} SdsBulksAgree(args: seq<string>)
    ensures SdsBulks(args) == Bulks(args) <==> UintLengths(args)
  {
    hide Unsigned, SdsBulk, Bulk;
    if args != [] {
      var a, rest := args[0], args[1..];
      SdsBulksAgree(rest);
      if SdsBulks(args) == Bulks(args) { SdsBulkCancels(a, SdsBulks(rest), Bulks(rest)); }
      assert UintLengths(args) <==> |a| < UINT_RANGE && UintLengths(rest) by {
        assert forall i :: 1 <= i < |args| ==> args[i] == rest[i - 1];
        assert forall i :: 0 <= i < |rest| ==> rest[i] == args[i + 1];
      }
      if |a| < UINT_RANGE { SdsBulkSame(a); }
    }
  }

  lemma SdsBulkSame(a: string)
    requires |a| < UINT_RANGE
    ensures SdsBulk(a) == Bulk(a)
  {
    assert |a| % UINT_RANGE == |a|;
  }

  /** The sds formatter writes the same command as the others exactly when no argument reaches 4 GiB. */
  lemma SdsEncodeAgrees(args: seq<string>)
    ensures SdsEncode(args) == Encode(args) <==> UintLengths(args)
  {
    SdsBulksAgree(args);
    var header := "*" + Unsigned(|args|) + "\r\n";
    assert SdsEncode(args)[|header|..] == SdsBulks(args);
    assert Encode(args)[|header|..] == Bulks(args);
  }

  lemma SdsThreeParts(cmd: string, arg: string)
    ensures ((cmd + ("$" + Unsigned(|arg| % UINT_RANGE) + "\r\n")) + arg) + "\r\n" == cmd + SdsBulk(arg)
  {
    hide Unsigned;
    var length := "$" + Unsigned(|arg| % UINT_RANGE) + "\r\n";
    Assoc(cmd, length, arg);
    Assoc(cmd, length + arg, "\r\n");
  }

  /** `redisFormatSdsCommandArgv`, up to its final assertion that the length is the precomputed one. */
  method FormatSdsCommandArgv(argv: seq<string>, argvlen: Option<seq<nat>>) returns (cmd: string, totlen: nat)
    requires ValidArgs(argv, argvlen)
    ensures cmd == SdsEncode(Args(argv, argvlen)) && totlen == |Encode(Args(argv, argvlen))|
    ensures UintLengths(Args(argv, argvlen)) ==> cmd == Encode(Args(argv, argvlen)) && |cmd| == totlen
  {
    assert SdsBulks([]) == "";
    hide Bulk, Unsigned, SdsBulk, SdsBulks, Encode;
    ghost var args := Args(argv, argvlen);
    SdsEncodeAgrees(args);
    totlen := TotalLen(argv, argvlen);
    cmd := "*" + Unsigned(|argv|) + "\r\n";
    ghost var header := cmd;
    var j := 0;
    assert args[..0] == [] && header + "" == header;
    while j < |argv|
      invariant j <= |argv| && cmd == header + SdsBulks(args[..j])
    {
      var len := ArgLen(argv, argvlen, j);
      SdsBulksAppend(args[..j], args[j]);
      assert args[..j] + [args[j]] == args[..j + 1];
      var length := "$" + Unsigned(len % UINT_RANGE) + "\r\n";
      SdsThreeParts(cmd, args[j]);
      Assoc(header, SdsBulks(args[..j]), SdsBulk(args[j]));
      cmd := cmd + length;
      cmd := cmd + argv[j][..len];
      cmd := cmd + "\r\n";
      j := j + 1;
    }
    assert args[..j] == args;
  }
}
