/**
 The restartable command record of `bootable/recovery/recovery.c`.

 `get_args` takes the arguments from the command line, else from the record in
 the bootloader control block, else from the command file, and writes them back
 to the record; `finish_recovery` clears record and file.
 */
module RecoveryArgs {
  import opened Basics
  import opened CStrings

  const SIZE: nat := 1024
  const MAX_ARGS: nat := 100
  const MAX_ARG_LENGTH: nat := 4096
  const NL: char := '\n'
  const CR: char := '\r'
  const HEAD: string := "recovery"

  /** What a 1024-byte field keeps of a string. */
  function Cut(s: string): string {
    if |s| <= SIZE - 1 then s else s[..SIZE - 1]
  }

  // ----- Tokens

  /** The leading run without a newline. */
  function Word(s: string): (w: string)
    ensures |w| <= |s| && w == s[..|w|]
    ensures |w| < |s| ==> s[|w|] == NL
    ensures forall k :: 0 <= k < |w| ==> w[k] != NL
  {
    if s == [] || s[0] == NL then []
    else
      var rest := Word(s[1..]);
      assert |rest| < |s[1..]| ==> s[1 + |rest|] == s[1..][|rest|];
      [s[0]] + rest
  }

  /** All the tokens strtok returns for the delimiter newline. */
  function Tokens(s: string): seq<string>
    decreases |s|
  {
    if s == [] then []
    else if s[0] == NL then Tokens(s[1..])
    else [Word(s)] + Tokens(s[|Word(s)|..])
  }

  /** One call of strtok: the token, if any, and what is left. */
  function Strtok(s: string): (r: (Option<string>, string))
    ensures r.0.None? <==> Tokens(s) == []
    ensures r.0.Some? ==> Tokens(s) == [r.0.value] + Tokens(r.1)
  {
    if s == [] then (None, [])
    else if s[0] == NL then Strtok(s[1..])
    else (Some(Word(s)), s[|Word(s)|..])
  }

  /** An argument the record can hold. */
  ghost predicate Clean(arg: string) {
    arg != [] && forall k :: 0 <= k < |arg| ==> arg[k] != NL
  }

  ghost predicate AllClean(args: seq<string>) {
    forall k :: 0 <= k < |args| ==> Clean(args[k])
  }

  ghost predicate NoNul(args: seq<string>) {
    forall k :: 0 <= k < |args| ==> NUL !in args[k]
  }

  /** One argument per line. */
  function Body(args: seq<string>): string {
    if args == [] then [] else args[0] + [NL] + Body(args[1..])
  }

  function Encode(args: seq<string>): string {
    HEAD + [NL] + Body(args)
  }

  lemma {:induction false} WordIs(w: string, rest: string)
    requires forall k :: 0 <= k < |w| ==> w[k] != NL
    requires rest != [] ==> rest[0] == NL
    ensures Word(w + rest) == w
  {
    if w != [] {
      WordIs(w[1..], rest);
      assert (w + rest)[1..] == w[1..] + rest;
    } else {
      assert w + rest == rest;
    }
  }

  lemma TokenFirst(w: string, rest: string)
    requires Clean(w) && (rest != [] ==> rest[0] == NL)
    ensures Tokens(w + rest) == [w] + Tokens(rest)
  {
    WordIs(w, rest);
    assert (w + rest)[|w|..] == rest;
  }

  lemma TokenLine(w: string, rest: string)
    requires Clean(w)
    ensures Tokens(w + [NL] + rest) == [w] + Tokens(rest)
  {
    assert w + [NL] + rest == w + ([NL] + rest);
    TokenFirst(w, [NL] + rest);
    assert ([NL] + rest)[1..] == rest;
  }

  /** The parser undoes the writer ... */
  lemma {:induction false} TokensOfBody(args: seq<string>)
    requires AllClean(args)
    ensures Tokens(Body(args)) == args
  {
    if args != [] {
      assert Clean(args[0]);
      TokensOfBody(args[1..]);
      TokenLine(args[0], Body(args[1..]));
    }
  }

  lemma {:induction false} TokensTrailing(s: string)
    ensures Tokens(s + [NL]) == Tokens(s)
    decreases |s|
  {
    if s == [] {
      assert (s + [NL])[1..] == [];
    } else if s[0] == NL {
      TokensTrailing(s[1..]);
      assert (s + [NL])[1..] == s[1..] + [NL];
    } else {
      var w := Word(s);
      var rest := s[|w|..];
      TokensTrailing(rest);
      TokenFirst(w, rest + [NL]);
      assert s + [NL] == w + (rest + [NL]);
    }
  }

  lemma {:induction false} BodyEnds(args: seq<string>)
    requires args != []
    ensures Body(args) != [] && Body(args)[|Body(args)| - 1] == NL
  {
    if args[1..] != [] {
      BodyEnds(args[1..]);
    }
  }

  /** ... with or without the final newline. */
  lemma TokensOfShortBody(args: seq<string>)
    requires AllClean(args) && args != []
    ensures Body(args) != [] && Tokens(Body(args)[..|Body(args)| - 1]) == args
  {
    BodyEnds(args);
    TokensOfBody(args);
    var short := Body(args)[..|Body(args)| - 1];
    assert Body(args) == short + [NL];
    TokensTrailing(short);
  }

  /** Every token is clean, and the tokens written one per line need at most one byte more. */
  lemma {:induction false} TokensFit(s: string)
    ensures AllClean(Tokens(s)) && |Body(Tokens(s))| <= |s| + 1
    decreases |s|
  {
    if s == [] {
    } else if s[0] == NL {
      TokensFit(s[1..]);
    } else {
      var w := Word(s);
      var rest := s[|w|..];
      TokensFit(rest);
      assert Tokens(s)[1..] == Tokens(rest);
      if rest != [] {
        TokensFit(rest[1..]);
      }
    }
  }

  lemma {:induction false} BodyPrefix(args: seq<string>, n: nat)
    requires n <= |args|
    ensures |Body(args[..n])| <= |Body(args)|
  {
    if n > 0 {
      BodyPrefix(args[1..], n - 1);
      assert args[..n][1..] == args[1..][..n - 1];
    }
  }

  lemma {:induction false} BodyAppend(args: seq<string>, arg: string)
    ensures Body(args + [arg]) == Body(args) + (arg + [NL])
  {
    if args != [] {
      BodyAppend(args[1..], arg);
      assert (args + [arg])[1..] == args[1..] + [arg];
      assert args[0] + [NL] + (Body(args[1..]) + (arg + [NL])) == args[0] + [NL] + Body(args[1..]) + (arg + [NL]);
    } else {
      assert args + [arg] == [arg];
      assert Body([]) == [];
    }
  }

  // ----- The record

  function Some99(args: seq<string>): seq<string> {
    if |args| < MAX_ARGS then args else args[..MAX_ARGS - 1]
  }

  /** The arguments in a record's text: none unless it starts with the program's name. */
  function FromRecord(text: string): seq<string> {
    var tokens := Tokens(text);
    if tokens != [] && tokens[0] == HEAD then Some99(tokens[1..]) else []
  }

  function Stored(args: seq<string>): string {
    Cut(Encode(args))
  }

  /** At most 99 arguments that fit the field; the last newline may be the byte that is cut. */
  ghost predicate Fits(args: seq<string>) {
    |args| <= 99 && |Encode(args)| <= 1024
  }

  /** What the record looks like. */
  lemma RecordLooks(arg: string)
    ensures Encode([arg]) == "recovery\n" + arg + "\n"
  {
    assert [arg][1..] == [];
    assert Body([]) == [];
    assert Body([arg]) == arg + [NL] + [];
    assert HEAD + [NL] + (arg + [NL]) == "recovery\n" + arg + "\n";
  }

  lemma TokensStored(args: seq<string>)
    requires AllClean(args) && |Encode(args)| <= SIZE
    ensures Tokens(Stored(args)) == [HEAD] + args
  {
    var all := [HEAD] + args;
    assert all[1..] == args;
    assert Encode(args) == Body(all);
    TokensOfBody(all);
    TokensOfShortBody(all);
  }

  /** The record gives back the arguments exactly when they are clean and fit. */
  lemma RoundTrip(args: seq<string>)
    ensures FromRecord(Stored(args)) == args <==> AllClean(args) && Fits(args)
  {
    if AllClean(args) && Fits(args) {
      TokensStored(args);
    }
    if FromRecord(Stored(args)) == args {
      ReadsFit(Stored(args));
    }
  }

  /** Whatever is read from a record is clean and fits. */
  lemma ReadsFit(text: string)
    requires |text| < SIZE
    ensures AllClean(FromRecord(text)) && Fits(FromRecord(text))
  {
    var tokens := Tokens(text);
    TokensFit(text);
    if tokens != [] && tokens[0] == HEAD {
      var args := Some99(tokens[1..]);
      var n := |args| + 1;
      assert tokens[..n] == [HEAD] + args;
      assert ([HEAD] + args)[1..] == args;
      BodyPrefix(tokens, n);
      assert Encode(args) == Body([HEAD] + args);
    }
  }

  /** So from the first restart on nothing changes, even for arguments that were cut. */
  lemma Stable(args: seq<string>)
    ensures FromRecord(Stored(FromRecord(Stored(args)))) == FromRecord(Stored(args))
  {
    ReadsFit(Stored(args));
    RoundTrip(FromRecord(Stored(args)));
  }

  // ----- The command file

  /** fgets: through the next newline, or at most `n` bytes. */
  function Fgets(s: string, n: nat): (line: string)
    ensures |line| <= |s| && line == s[..|line|] && (s != [] && n > 0 ==> line != [])
  {
    if s == [] || n == 0 then []
    else if s[0] == NL then [NL]
    else [s[0]] + Fgets(s[1..], n - 1)
  }

  /** It stops after `n` bytes, after the first newline or at the end, whichever comes first. */
  lemma {:induction false} FgetsStops(s: string, n: nat)
    ensures var k := |Fgets(s, n)|;
            && k <= n && k <= |s| && (forall i :: 0 <= i < k - 1 ==> s[i] != NL)
            && (k < n && k < |s| ==> k > 0 && s[k - 1] == NL)
  {
    if s != [] && n > 0 && s[0] != NL {
      FgetsStops(s[1..], n - 1);
    }
  }

  predicate Break(c: char) {
    c == NL || c == CR
  }

  function Run(s: string): string {
    if s == [] || Break(s[0]) then [] else [s[0]] + Run(s[1..])
  }

  /** The first token of a line for the delimiters carriage return and newline; empty if there is none. */
  function FirstToken(s: string): string {
    if s != [] && Break(s[0]) then FirstToken(s[1..]) else Run(s)
  }

  function LineArg(line: string): string {
    FirstToken(Text(line))
  }

  ghost predicate Breaks(s: string) {
    forall k :: 0 <= k < |s| ==> s[k] == '\r' || s[k] == '\n'
  }

  /** Leading carriage returns and newlines are skipped, and the token ends before the next one or a NUL. */
  lemma {:induction false} LineArgIs(lead: string, arg: string, rest: string)
    requires Breaks(lead) && (arg == [] ==> rest == [] || rest[0] == NUL)
    requires (forall k :: 0 <= k < |arg| ==> arg[k] != '\r' && arg[k] != '\n' && arg[k] != NUL)
    requires rest == [] || rest[0] == '\r' || rest[0] == '\n' || rest[0] == NUL
    ensures LineArg(lead + arg + rest) == arg
  {
    var line := lead + arg + rest;
    if lead != [] {
      LineArgIs(lead[1..], arg, rest);
      assert line[1..] == lead[1..] + arg + rest;
      assert Text(line) == [line[0]] + Text(line[1..]);
    } else if arg != [] {
      assert line == arg + rest;
      RunTo(arg, rest);
      assert !Break(Text(line)[0]);
    } else {
      assert line == rest;
    }
  }

  lemma {:induction false} RunTo(arg: string, rest: string)
    requires (forall k :: 0 <= k < |arg| ==> !Break(arg[k]) && arg[k] != NUL)
    requires rest == [] || Break(rest[0]) || rest[0] == NUL
    ensures Run(Text(arg + rest)) == arg && (arg != [] ==> Text(arg + rest) != [] && Text(arg + rest)[0] == arg[0])
  {
    var line := arg + rest;
    if arg != [] {
      RunTo(arg[1..], rest);
      assert line[1..] == arg[1..] + rest;
      assert Text(line) == [line[0]] + Text(line[1..]);
      assert Text(line)[1..] == Text(line[1..]);
    } else {
      assert line == rest;
    }
  }

  /** The first `n` lines' tokens; `None` is the crash on a line without a token. */
  function FromFile(content: string, n: nat): Option<seq<string>>
    decreases n
  {
    if n == 0 || content == [] then Some([])
    else
      var line := Fgets(content, MAX_ARG_LENGTH - 1);
      var arg := LineArg(line);
      if arg == [] then None
      else
        var more := FromFile(content[|line|..], n - 1);
        if more.None? then None else Some([arg] + more.value)
  }

  function FileLines(content: string): seq<string>
    decreases |content|
  {
    if content == [] then []
    else var line := Fgets(content, MAX_ARG_LENGTH - 1); [line] + FileLines(content[|line|..])
  }

  /** A line is broken after 4095 bytes. */
  lemma LongLine(content: string)
    requires |content| >= 4095 && forall k :: 0 <= k < 4095 ==> content[k] != NL
    ensures FileLines(content) != [] && FileLines(content)[0] == content[..4095]
  {
    FgetsStops(content, MAX_ARG_LENGTH - 1);
  }

  predicate Blank(line: string) {
    LineArg(line) == []
  }

  /** Reading crashes exactly when one of the first `n` lines is blank. */
  lemma {:induction false} BlankLine(content: string, n: nat)
    ensures FromFile(content, n).None? <==>
            exists k :: 0 <= k < n && k < |FileLines(content)| && Blank(FileLines(content)[k])
    decreases n
  {
    if n > 0 && content != [] {
      var line := Fgets(content, MAX_ARG_LENGTH - 1);
      var lines, rest := FileLines(content), FileLines(content[|line|..]);
      BlankLine(content[|line|..], n - 1);
      if k :| 0 <= k < n && k < |lines| && Blank(lines[k]) && k > 0 {
        assert Blank(rest[k - 1]);
      }
      if k :| 0 <= k < n - 1 && k < |rest| && Blank(rest[k]) {
        assert Blank(lines[k + 1]);
      }
      assert lines[0] == line;
    }
  }

  ghost predicate Printable(arg: string) {
    forall k :: 0 <= k < |arg| ==> arg[k] != NUL && !Break(arg[k])
  }

  lemma {:induction false} RunPrintable(s: string)
    requires forall k :: 0 <= k < |s| ==> s[k] != NUL
    ensures Printable(Run(s))
  {
    if s != [] {
      RunPrintable(s[1..]);
    }
  }

  lemma {:induction false} FirstTokenPrintable(s: string)
    requires forall k :: 0 <= k < |s| ==> s[k] != NUL
    ensures Printable(FirstToken(s))
  {
    if s != [] && Break(s[0]) {
      FirstTokenPrintable(s[1..]);
    } else {
      RunPrintable(s);
    }
  }

  ghost predicate FileArg(arg: string) {
    arg != [] && Printable(arg)
  }

  lemma LineArgPrintable(line: string)
    ensures LineArg(line) != [] ==> FileArg(LineArg(line))
  {
    TextPrefix(line);
    FirstTokenPrintable(Text(line));
  }

  lemma {:induction false} FileArgs(content: string, n: nat)
    ensures var r := FromFile(content, n);
            r.Some? ==> |r.value| <= n && forall k :: 0 <= k < |r.value| ==> FileArg(r.value[k])
  {
    if n > 0 && content != [] {
      var line := Fgets(content, MAX_ARG_LENGTH - 1);
      LineArgPrintable(line);
      FileArgs(content[|line|..], n - 1);
    }
  }

  /** What the command file yields is always clean. */
  lemma FileClean(content: string, n: nat)
    ensures var r := FromFile(content, n);
            r.Some? ==> |r.value| <= n && AllClean(r.value) && NoNul(r.value)
  {
    FileArgs(content, n);
    var r := FromFile(content, n);
    if r.Some? {
      forall k | 0 <= k < |r.value| ensures Clean(r.value[k]) && NUL !in r.value[k] {
        assert FileArg(r.value[k]);
      }
    }
  }

  lemma {:induction false} FgetsLine(arg: string, rest: string, n: nat)
    requires |arg| < n && Printable(arg)
    ensures Fgets(arg + [NL] + rest, n) == arg + [NL]
  {
    var s := arg + [NL] + rest;
    if arg != [] {
      FgetsLine(arg[1..], rest, n - 1);
      assert s[1..] == arg[1..] + [NL] + rest;
      assert !Break(arg[0]);
    }
  }

  lemma {:induction false} RunLine(arg: string)
    requires Printable(arg)
    ensures Run(arg + [NL]) == arg
  {
    if arg != [] {
      RunLine(arg[1..]);
      assert (arg + [NL])[1..] == arg[1..] + [NL];
    }
  }

  lemma LineToken(arg: string)
    requires arg != [] && Printable(arg)
    ensures LineArg(arg + [NL]) == arg
  {
    TextIs(arg + [NL], |arg| + 1);
    assert (arg + [NL])[..|arg| + 1] == arg + [NL];
    RunLine(arg);
    assert !Break((arg + [NL])[0]);
  }

  ghost predicate ShortArg(arg: string) {
    FileArg(arg) && |arg| < 4095
  }

  /** A command file written one argument per line is read back as those arguments. */
  lemma {:induction false} FileReadsBack(args: seq<string>, n: nat)
    requires |args| <= n
    requires forall k :: 0 <= k < |args| ==> ShortArg(args[k])
    ensures FromFile(Body(args), n) == Some(args)
  {
    if args != [] {
      var rest := args[1..];
      assert [args[0]] + rest == args;
      assert ShortArg(args[0]);
      FileReadsBack(rest, n - 1);
      FileLine(args[0], Body(rest), n, rest);
    }
  }

  lemma FileLine(arg: string, rest: string, n: nat, args: seq<string>)
    requires ShortArg(arg) && n > 0 && FromFile(rest, n - 1) == Some(args)
    ensures FromFile(arg + [NL] + rest, n) == Some([arg] + args)
  {
    FgetsLine(arg, rest, MAX_ARG_LENGTH - 1);
    LineToken(arg);
    assert (arg + [NL] + rest)[|arg + [NL]|..] == rest;
  }

  // ----- get_args, as a choice among the three sources

  function Chosen(args: seq<string>, text: string, file: Option<string>): Option<seq<string>> {
    if args != [] then Some(args)
    else if FromRecord(text) != [] then Some(FromRecord(text))
    else if file.None? then Some([])
    else FromFile(file.value, MAX_ARGS - 1)
  }

  /** The command line comes before the record, and the record before the command file. */
  lemma Precedence(args: seq<string>, record: seq<string>, listed: seq<string>, text: string, file: Option<string>)
    ensures args != [] ==> Chosen(args, text, file) == Some(args)
    ensures record != [] && AllClean(record) && Fits(record) ==> Chosen([], Stored(record), file) == Some(record)
    ensures FromRecord(text) == [] && |listed| <= 99 && (forall k :: 0 <= k < |listed| ==> ShortArg(listed[k])) ==>
              Chosen([], text, Some(Body(listed))) == Some(listed)
    ensures FromRecord(text) == [] ==> Chosen([], text, None) == Some([])
  {
    RoundTrip(record);
    if |listed| <= 99 && forall k :: 0 <= k < |listed| ==> ShortArg(listed[k]) {
      FileReadsBack(listed, 99);
    }
  }

  /** A restart without command-line arguments: what the command file holds by then, whether the control block
      can be read, and whether it can be written. */
  datatype Boot = Boot(file: Option<string>, readable: bool, writable: bool)

  /** What the restart sees, and the record's text after it.  A failed read leaves a zeroed block. */
  function Restart(text: string, b: Boot): (Option<seq<string>>, string) {
    var r := Chosen([], if b.readable then text else [], b.file);
    (r, if r.Some? && b.writable then Stored(r.value) else text)
  }

  function After(text: string, boots: seq<Boot>): string {
    if boots == [] then text else Restart(After(text, boots[..|boots| - 1]), boots[|boots| - 1]).1
  }

  /** What a restart sees that cannot read the record. */
  function FileSays(b: Boot): Option<seq<string>> {
    Chosen([], [], b.file)
  }

  /** The restart could read the record, or finds the same arguments in the command file. */
  ghost predicate Sees(b: Boot, args: seq<string>) {
    b.readable || FileSays(b) == Some(args)
  }

  /** The restart could read the record, or writes nothing, or writes the same text. */
  ghost predicate KeepsRecord(b: Boot, args: seq<string>) {
    b.readable || !b.writable || FileSays(b).None? || Stored(FileSays(b).value) == Stored(args)
  }

  /** One restart over a record that holds `args`. */
  lemma OneRestart(args: seq<string>, b: Boot)
    requires args != [] && AllClean(args) && Fits(args)
    ensures Restart(Stored(args), b).0 == Some(args) <==> Sees(b, args)
    ensures Restart(Stored(args), b).1 == Stored(args) <==> KeepsRecord(b, args)
  {
    RoundTrip(args);
  }

  /** The record holds `args` after every one of the restarts. */
  ghost predicate Kept(args: seq<string>, boots: seq<Boot>) {
    boots == [] || (Kept(args, boots[..|boots| - 1]) && After(Stored(args), boots) == Stored(args))
  }

  /** Each of the restarts sees exactly `args`. */
  ghost predicate AllSee(args: seq<string>, boots: seq<Boot>) {
    boots == [] ||
    var front := boots[..|boots| - 1];
    AllSee(args, front) && Restart(After(Stored(args), front), boots[|boots| - 1]).0 == Some(args)
  }

  ghost predicate AllKeep(args: seq<string>, boots: seq<Boot>) {
    forall k :: 0 <= k < |boots| ==> KeepsRecord(boots[k], args)
  }

  ghost predicate AllCanSee(args: seq<string>, boots: seq<Boot>) {
    forall k :: 0 <= k < |boots| ==> Sees(boots[k], args)
  }

  lemma AllKeepSplit(args: seq<string>, front: seq<Boot>, last: Boot)
    ensures AllKeep(args, front + [last]) <==> AllKeep(args, front) && KeepsRecord(last, args)
  {
    var boots := front + [last];
    assert boots[|front|] == last && forall k :: 0 <= k < |front| ==> boots[k] == front[k];
  }

  lemma AllCanSeeSplit(args: seq<string>, front: seq<Boot>, last: Boot)
    ensures AllCanSee(args, front + [last]) <==> AllCanSee(args, front) && Sees(last, args)
  {
    var boots := front + [last];
    assert boots[|front|] == last && forall k :: 0 <= k < |front| ==> boots[k] == front[k];
  }

  lemma KeptAfter(args: seq<string>, boots: seq<Boot>)
    ensures Kept(args, boots) ==> After(Stored(args), boots) == Stored(args)
  {
  }

  lemma AfterOne(args: seq<string>, front: seq<Boot>, last: Boot)
    requires args != [] && AllClean(args) && Fits(args) && After(Stored(args), front) == Stored(args)
    ensures After(Stored(args), front + [last]) == Stored(args) <==> KeepsRecord(last, args)
  {
    assert (front + [last])[..|front|] == front;
    OneRestart(args, last);
  }

  lemma KeptOne(args: seq<string>, front: seq<Boot>, last: Boot)
    requires args != [] && AllClean(args) && Fits(args)
    ensures Kept(args, front + [last]) <==> Kept(args, front) && KeepsRecord(last, args)
  {
    assert (front + [last])[..|front|] == front;
    if Kept(args, front) {
      KeptAfter(args, front);
      AfterOne(args, front, last);
    }
  }

  /** Arguments the record gives back; folded, see `StorableIs`. */
  ghost predicate Storable(args: seq<string>) {
    forall i {:trigger Parts(i)} :: Parts(i) ==> args != [] && AllClean(args) && Fits(args)
  }

  lemma StorableIs(args: seq<string>)
    ensures Storable(args) <==> args != [] && AllClean(args) && Fits(args)
  {
    assert Parts(0);
  }

  lemma {:induction false} KeptIff(args: seq<string>, boots: seq<Boot>)
    requires Storable(args)
    ensures Kept(args, boots) <==> AllKeep(args, boots)
  {
    if boots != [] {
      var front, last := boots[..|boots| - 1], boots[|boots| - 1];
      KeptIff(args, front);
      KeptStep(args, front, last);
      assert boots == front + [last];
    }
  }

  lemma KeptStep(args: seq<string>, front: seq<Boot>, last: Boot)
    requires Storable(args) && (Kept(args, front) <==> AllKeep(args, front))
    ensures Kept(args, front + [last]) <==> AllKeep(args, front + [last])
  {
    StorableIs(args);
    KeptOne(args, front, last);
    AllKeepSplit(args, front, last);
  }

  /** The record is kept throughout exactly when every restart that writes something else back could read it. */
  lemma KeptExactly(args: seq<string>, boots: seq<Boot>)
    requires args != [] && AllClean(args) && Fits(args)
    ensures Kept(args, boots) <==> AllKeep(args, boots)
    ensures Kept(args, boots) ==> After(Stored(args), boots) == Stored(args)
  {
    StorableIs(args);
    KeptIff(args, boots);
    KeptAfter(args, boots);
  }

  /** A restart that sees the arguments writes them back or nothing. */
  lemma SeenIsKept(args: seq<string>, text: string, b: Boot)
    requires text == Stored(args)
    ensures Restart(text, b).0 == Some(args) ==> Restart(text, b).1 == text
  {
  }

  /** Every restart of a sequence sees exactly the stored arguments if and only if each of them could read the
      record or finds the same arguments in the command file. */
  lemma SeenExactly(args: seq<string>, boots: seq<Boot>)
    requires args != [] && AllClean(args) && Fits(args)
    ensures AllSee(args, boots) <==> AllCanSee(args, boots)
    ensures AllSee(args, boots) ==> After(Stored(args), boots) == Stored(args)
  {
    StorableIs(args);
    SeenIff(args, boots);
  }

  /** They do so exactly then, and the record is as before. */
  ghost predicate SeenBy(args: seq<string>, boots: seq<Boot>) {
    && (AllSee(args, boots) <==> AllCanSee(args, boots))
    && (AllSee(args, boots) ==> After(Stored(args), boots) == Stored(args))
  }

  lemma {:induction false} SeenIff(args: seq<string>, boots: seq<Boot>)
    requires Storable(args)
    ensures SeenBy(args, boots)
  {
    if boots != [] {
      SeenIff(args, boots[..|boots| - 1]);
      SeenStep(args, boots[..|boots| - 1], boots[|boots| - 1]);
      assert boots == boots[..|boots| - 1] + [boots[|boots| - 1]];
    }
  }

  lemma SeenStep(args: seq<string>, front: seq<Boot>, last: Boot)
    requires Storable(args) && SeenBy(args, front)
    ensures SeenBy(args, front + [last])
  {
    StorableIs(args);
    assert (front + [last])[..|front|] == front;
    AllCanSeeSplit(args, front, last);
    OneRestart(args, last);
    SeenIsKept(args, Stored(args), last);
  }

  ghost predicate Readable(boots: seq<Boot>) {
    forall k :: 0 <= k < |boots| ==> boots[k].readable
  }

  /** Over restarts that can read the control block, whatever becomes of the command file and of writes, the
      arguments are seen by all of them exactly when they are clean and fit. */
  lemma RestartsExactly(args: seq<string>)
    requires args != []
    ensures (forall boots :: Readable(boots) ==> AllSee(args, boots)) <==> AllClean(args) && Fits(args)
  {
    if AllClean(args) && Fits(args) {
      forall boots | Readable(boots) ensures AllSee(args, boots) {
        SeenExactly(args, boots);
      }
    } else {
      RoundTrip(args);
      var boots := [Boot(None, true, true)];
      assert boots[..0] == [] && After(Stored(args), []) == Stored(args);
      assert Readable(boots) && !AllSee(args, boots);
    }
  }

  ghost predicate NoFile(boots: seq<Boot>) {
    forall k :: 0 <= k < |boots| ==> boots[k].file.None?
  }

  lemma {:induction false} NothingFound(text: string, boots: seq<Boot>)
    requires FromRecord(text) == [] && NoFile(boots)
    ensures FromRecord(After(text, boots)) == []
  {
    if boots != [] {
      NothingFound(text, boots[..|boots| - 1]);
      TokensStored([]);
      assert FromRecord([]) == [];
    }
  }

  /** One restart that cannot read the control block but can write it destroys the record: without a command
      file no later restart sees any arguments. */
  lemma RecordLost(args: seq<string>, boots: seq<Boot>, next: Boot)
    requires NoFile(boots) && next.file.None?
    ensures var lost := Restart(Stored(args), Boot(None, false, true)).1;
            Restart(After(lost, boots), next).0 == Some([])
  {
    TokensStored([]);
    assert FromRecord([]) == [];
    NothingFound(Stored([]), boots);
  }

  /** With record and command file gone there is nothing to do. */
  lemma Finished(boots: seq<Boot>, next: Boot)
    requires NoFile(boots) && next.file.None?
    ensures Restart(After([], boots), next).0 == Some([])
  {
    assert FromRecord([]) == [];
    NothingFound([], boots);
  }

  // ----- The code

  /** strlcat into a 1024-byte field. */
  method Strlcat(buf: array<char>, src: string)
    requires buf.Length == SIZE && |Text(buf[..])| < SIZE && NUL !in src
    modifies buf
    ensures |Text(buf[..])| < SIZE && Text(buf[..]) == Cut(old(Text(buf[..])) + src)
  {
    ghost var before := buf[..];
    TextPrefix(before);
    var d := 0;
    while buf[d] != NUL
      invariant 0 <= d <= |Text(before)|
      decreases SIZE - d
    {
      d := d + 1;
    }
    TextIs(before, d);
    ghost var dlen := d;
    var n, i := SIZE - d, 0;
    while i < |src|
      invariant 0 <= i <= |src| && dlen <= d && n == SIZE - d && 1 <= n
      invariant d - dlen == if i < SIZE - 1 - dlen then i else SIZE - 1 - dlen
      invariant buf[..d] == before[..dlen] + src[..d - dlen]
    {
      if n != 1 {
        buf[d] := src[i];
        d, n := d + 1, n - 1;
      }
      i := i + 1;
    }
    ghost var text := buf[..d];
    assert NUL !in text;
    buf[d] := NUL;
    assert buf[..][..d] == text;
    TextIs(buf[..], d);
  }

  lemma {:induction false} TokensNoNul(s: string)
    requires NUL !in s
    ensures NoNul(Tokens(s))
    decreases |s|
  {
    if s != [] {
      TokensNoNul(s[1..]);
      if s[0] != NL {
        TokensNoNul(s[|Word(s)|..]);
      }
    }
  }

  lemma ChosenNoNul(args: seq<string>, text: string, file: Option<string>)
    requires NoNul(args) && NUL !in text
    ensures var r := Chosen(args, text, file); r.Some? ==> NoNul(r.value)
  {
    TokensNoNul(text);
    if file.Some? {
      FileClean(file.value, MAX_ARGS - 1);
    }
  }

  lemma RecordArgs(text: string, args: seq<string>, more: seq<string>)
    requires Tokens(text) == [HEAD] + (args + more)
    requires |args| == MAX_ARGS - 1 || (more == [] && |args| < MAX_ARGS)
    ensures FromRecord(text) == args
  {
    assert Tokens(text)[1..] == args + more;
    assert (args + more)[..|args|] == args;
  }

  /** The strtok loop over the record. */
  method ParseRecord(text: string) returns (args: seq<string>)
    ensures args == FromRecord(text)
  {
    args := [];
    var (first, rest) := Strtok(text);
    if first.Some? && first.value == HEAD {
      var argc := 1;
      while argc < MAX_ARGS
        invariant 1 <= argc <= MAX_ARGS && |args| == argc - 1
        invariant Tokens(text) == [HEAD] + (args + Tokens(rest))
      {
        var (arg, more) := Strtok(rest);
        if arg.None? {
          break;
        }
        Associate(args, [arg.value], Tokens(more));
        args, rest, argc := args + [arg.value], more, argc + 1;
      }
      RecordArgs(text, args, Tokens(rest));
    }
  }

  ghost function Prepend(args: seq<string>, more: Option<seq<string>>): Option<seq<string>> {
    if more.None? then None else Some(args + more.value)
  }

  lemma FileStep(args: seq<string>, content: string, n: nat)
    requires n > 0 && content != []
    ensures var line := Fgets(content, MAX_ARG_LENGTH - 1);
            var arg := LineArg(line);
            Prepend(args, FromFile(content, n)) ==
            if arg == [] then None else Prepend(args + [arg], FromFile(content[|line|..], n - 1))
  {
    var line := Fgets(content, MAX_ARG_LENGTH - 1);
    var arg, more := LineArg(line), FromFile(content[|line|..], n - 1);
    if arg != [] && more.Some? {
      assert args + ([arg] + more.value) == args + [arg] + more.value;
    }
  }

  lemma PrependNothing(args: seq<string>, r: Option<seq<string>>)
    ensures Prepend([], r) == r && Prepend(args, Some([])) == Some(args)
  {
    if r.Some? {
      assert [] + r.value == r.value;
    }
    assert args + [] == args;
  }

  /** The fgets loop over the command file. */
  method ParseFile(content: string, limit: nat) returns (r: Option<seq<string>>)
    requires limit > 0
    ensures r == FromFile(content, limit - 1)
  {
    var args, rest, argc := [], content, 1;
    PrependNothing([], FromFile(content, limit - 1));
    while argc < limit
      invariant 1 <= argc <= limit
      invariant FromFile(content, limit - 1) == Prepend(args, FromFile(rest, limit - argc))
    {
      if rest == [] {
        break;
      }
      FileStep(args, rest, limit - argc);
      var line := Fgets(rest, MAX_ARG_LENGTH - 1);
      var arg := LineArg(line);
      if arg == [] {
        return None;
      }
      args, rest, argc := args + [arg], rest[|line|..], argc + 1;
    }
    PrependNothing(args, None);
    r := Some(args);
  }

  lemma CutGrows(s: string, t: string)
    ensures Cut(Cut(s) + t) == Cut(s + t)
  {
  }

  /** The strlcpy and strlcat loop. */
  method WriteRecord(boot: array<char>, args: seq<string>)
    requires boot.Length == SIZE && NoNul(args)
    modifies boot
    ensures |Text(boot[..])| < SIZE && Text(boot[..]) == Stored(args)
  {
    boot[0] := NUL;
    Strlcat(boot, HEAD + [NL]);
    var i := 0;
    while i < |args|
      invariant 0 <= i <= |args|
      invariant |Text(boot[..])| < SIZE && Text(boot[..]) == Stored(args[..i])
    {
      Strlcat(boot, args[i]);
      Strlcat(boot, [NL]);
      StoredStep(args, i);
      i := i + 1;
    }
    assert args[..|args|] == args;
  }

  lemma StoredStep(args: seq<string>, i: nat)
    requires i < |args|
    ensures Cut(Cut(Stored(args[..i]) + args[i]) + [NL]) == Stored(args[..i + 1])
  {
    var text := Encode(args[..i]);
    CutGrows(text, args[i]);
    CutGrows(text + args[i], [NL]);
    BodyAppend(args[..i], args[i]);
    assert args[..i] + [args[i]] == args[..i + 1];
    assert text + args[i] + [NL] == Encode(args[..i + 1]);
  }

  /** What outlives a reboot: the bootloader control block and the command file. */
  class Recovery {
    var command: string
    var record: seq<char>
    var commandFile: Option<string>

    ghost predicate Valid()
      reads this
    {
      |record| == SIZE
    }

    /** The record as get_args reads it, terminated at its last byte. */
    ghost function RecordText(): string
      reads this
    {
      Cut(Text(record))
    }

    constructor (file: Option<string>)
      ensures Valid() && RecordText() == [] && commandFile == file
    {
      command, record, commandFile := [], seq(SIZE, _ => NUL), file;
    }

    /** Fetch the record and terminate it at its last byte. */
    method ReadText(boot: array<char>, readable: bool) returns (text: string)
      requires Valid() && boot.Length == SIZE && forall k :: 0 <= k < SIZE ==> boot[k] == NUL
      modifies boot
      ensures text == (if readable then RecordText() else []) && NUL !in text
    {
      if readable {
        forall k | 0 <= k < SIZE {
          boot[k] := record[k];
        }
        assert boot[..] == record;
      }
      TerminatedText(boot[..]);
      ghost var fetched := boot[..];
      boot[SIZE - 1] := NUL;
      assert boot[..] == fetched[SIZE - 1 := NUL];
      text := Text(boot[..]);
    }

    /** The record, then the command file. */
    method Search(text: string, openable: bool) returns (r: Option<seq<string>>)
      ensures r == Chosen([], text, if openable then commandFile else None)
    {
      var found := ParseRecord(text);
      r := Some(found);
      if found == [] && openable && commandFile.Some? {
        r := ParseFile(commandFile.value, MAX_ARGS);
      }
    }

    /** `readable`, `openable` and `writable` say whether the control block can be read, the command file opened
        and the control block written; `None` is the crash on a blank line of the command file. */
    method GetArgs(args: seq<string>, readable: bool, openable: bool, writable: bool)
      returns (r: Option<seq<string>>)
      requires Valid() && NoNul(args)
      modifies this
      ensures Valid() && commandFile == old(commandFile)
      ensures r == Chosen(args, if readable then old(RecordText()) else [], if openable then commandFile else None)
      ensures r.Some? && writable ==> RecordText() == Stored(r.value) && command == "boot-recovery"
      ensures r.None? || !writable ==> record == old(record) && command == old(command)
      ensures args == [] ==> (r, RecordText()) == Restart(old(RecordText()), Boot(if openable then commandFile else None, readable, writable))
    {
      var boot := new char[SIZE](_ => NUL);
      var text := ReadText(boot, readable);
      ChosenNoNul(args, text, if openable then commandFile else None);
      r := Some(args);
      if args == [] {
        r := Search(text, openable);
        if r.None? {
          return;
        }
      }
      WriteRecord(boot, r.value);
      if writable {
        command, record := "boot-recovery", boot[..];
      }
    }

    /** Clear the record and remove the command file. */
    method FinishRecovery(writable: bool, removable: bool)
      requires Valid()
      modifies this
      ensures Valid()
      ensures if writable then RecordText() == [] && command == [] else record == old(record) && command == old(command)
      ensures commandFile == if removable then None else old(commandFile)
    {
      if writable {
        command, record := [], seq(SIZE, _ => NUL);
      }
      if removable {
        commandFile := None;
      }
    }
  }

  /** Terminating the field at its last byte cuts the text to 1023 bytes. */
  lemma TerminatedText(s: seq<char>)
    requires |s| == SIZE
    ensures var t := s[SIZE - 1 := NUL]; Text(t) == Cut(Text(s)) && NUL !in Text(t)
  {
    var t := s[SIZE - 1 := NUL];
    TextPrefix(s);
    TextPrefix(t);
    var k := |Cut(Text(s))|;
    TextIs(t, k);
  }
}
