/**
 * `gocmtRun`: the exit status of the command. With a directory it reports
 * only whether the walk failed; otherwise it goes through the file
 * arguments in order, reporting and skipping those that cannot be stat'ed
 * or are directories, and stops with status 1 at the first file whose
 * processing fails.
 */
module Run {
  import Process

  /**
   * What `os.Stat` said about one argument. The loop tests only for a
   * directory, so `NotDirectory` covers every other kind of file (regular
   * files, but also pipes, devices and sockets).
   */
  datatype Stat = StatFailed | Directory | NotDirectory

  /** The fate of one positional argument, as the loop sees it. */
  datatype Arg = StatErr | IsDir | Ok | ProcessErr

  /** Directory mode, with whether the walk returned an error, or file-argument mode. */
  datatype Mode = WalkDir(walkFails: bool) | FileArgs

  /** One positional argument: its path, what stat said about it, and what the file system gives `processFile` for it. */
  datatype Argument = Argument(path: string, stat: Stat, env: Process.Env)

  /** An argument's fate from its stat result and, for a non-directory, what processing it returned. */
  function Classify(stat: Stat, report: Process.Report): (a: Arg)
    ensures a == Ok || a == ProcessErr <==> stat == NotDirectory
    ensures a == ProcessErr <==> stat == NotDirectory && report.err.Some?
  {
    match stat
    case StatFailed => StatErr
    case Directory => IsDir
    case NotDirectory => if report.err.Some? then ProcessErr else Ok
  }

  /** The fate of one argument when files are processed in place or not. */
  function Fate(arg: Argument, inPlace: bool): (a: Arg)
  {
    Classify(arg.stat, Process.ProcessFile(arg.path, inPlace, arg.env))
  }

  /** The fate of each argument, in order. */
  function Fates(args: seq<Argument>, inPlace: bool): (r: seq<Arg>)
    ensures |r| == |args|
  {
    seq(|args|, i requires 0 <= i < |args| => Fate(args[i], inPlace))
  }

  /** A test file given on the command line can never make the command fail. */
  lemma {:induction false} TestFileNeverFails(name: string, inPlace: bool, env: Process.Env)
    requires Process.IsTestFile(name)
    ensures Classify(NotDirectory, Process.ProcessFile(name, inPlace, env)) == Ok
  {
  }

  /** How many arguments the loop looks at: up to and including the first failing one. */
  function Examined(args: seq<Arg>): (n: nat)
    ensures n <= |args|
    ensures ProcessErr !in args ==> n == |args|
    ensures ProcessErr in args ==> 0 < n && args[n - 1] == ProcessErr && ProcessErr !in args[..n - 1]
  {
    if args == [] then 0
    else if args[0] == ProcessErr then 1
    else
      var n := Examined(args[1..]);
      assert args[..n + 1] == [args[0]] + args[1..][..n];
      1 + n
  }

  /** The first failing argument is the last one examined. */
  lemma {:induction false} ExaminedStopsAt(args: seq<Arg>, i: nat)
    requires i < |args| && args[i] == ProcessErr && ProcessErr !in args[..i]
    ensures Examined(args) == i + 1
  {
    assert args[i] in args;
  }

  /** The status the command exits with. */
  function ExitCode(mode: Mode, args: seq<Arg>): (code: int)
    ensures code == 0 || code == 1
    ensures mode.WalkDir? ==> (code == 1 <==> mode.walkFails)
    ensures mode.FileArgs? ==> (code == 1 <==> exists i :: 0 <= i < |args| && args[i] == ProcessErr)
  {
    match mode
    case WalkDir(fails) => if fails then 1 else 0
    case FileArgs => if ProcessErr in args then 1 else 0
  }

  predicate Ascending(s: seq<nat>)
  {
    forall a, b :: 0 <= a < b < |s| ==> s[a] < s[b]
  }

  /** The argument is not a directory, so the loop hands it to `processFile`. */
  predicate ReachesProcessFile(a: Arg)
  {
    a == Ok || a == ProcessErr
  }

  /** The loop prints an error for the argument. */
  predicate IsReported(a: Arg)
  {
    a != Ok
  }

  /** The two lists the loop builds: the arguments processed and the arguments reported. */
  datatype Listing = Processed | Reported

  /** Whether an argument with fate `a` goes into listing `l`. */
  predicate Lists(l: Listing, a: Arg)
  {
    match l
    case Processed => ReachesProcessFile(a)
    case Reported => IsReported(a)
  }

  /** The positions among the first `n` arguments that go into listing `l`, in order. */
  function Positions(args: seq<Arg>, n: nat, l: Listing): (p: seq<nat>)
    requires n <= |args|
  {
    if n == 0 then []
    else Positions(args, n - 1, l) + (if Lists(l, args[n - 1]) then [n - 1] else [])
  }

  /** `Positions` lists exactly the positions below `n` that go into listing `l`, each once, in increasing order. */
  lemma {:induction false} PositionsMeaning(args: seq<Arg>, n: nat, l: Listing)
    requires n <= |args|
    ensures forall i: nat :: i in Positions(args, n, l) <==> i < n && Lists(l, args[i])
    ensures forall k :: 0 <= k < |Positions(args, n, l)| ==> Positions(args, n, l)[k] < n
    ensures Ascending(Positions(args, n, l))
    decreases n
  {
    if n > 0 {
      PositionsMeaning(args, n - 1, l);
      var p := Positions(args, n - 1, l);
      var last := if Lists(l, args[n - 1]) then [n - 1] else [];
      assert Positions(args, n, l) == p + last;
      assert forall k :: 0 <= k < |last| ==> last[k] == n - 1;
    }
  }

  /**
   * The command's main loop. `usage` says whether the usage text was
   * printed, `processed` lists the arguments handed to `processFile` and
   * `reported` those for which an error was printed, both in order.
   */
  method GocmtRun(mode: Mode, inPlace: bool, args: array<Argument>)
    returns (code: int, usage: bool, processed: seq<nat>, reported: seq<nat>)
    ensures code == ExitCode(mode, Fates(args[..], inPlace))
    ensures usage <==> mode.FileArgs? && args.Length == 0
    ensures mode.WalkDir? ==> processed == [] && reported == []
    ensures mode.FileArgs? ==>
      var fates := Fates(args[..], inPlace);
      processed == Positions(fates, Examined(fates), Processed) &&
      reported == Positions(fates, Examined(fates), Reported)
  {
    processed, reported := [], [];
    usage := false;
    if mode.WalkDir? {
      code := if mode.walkFails then 1 else 0;
      return;
    }
    usage := args.Length == 0;
    ghost var fates := Fates(args[..], inPlace);
    var i: nat := 0;
    while i < args.Length
      invariant i <= args.Length
      invariant ProcessErr !in fates[..i]
      invariant processed == Positions(fates, i, Processed)
      invariant reported == Positions(fates, i, Reported)
    {
      var arg := args[i];
      assert fates[i] == Fate(arg, inPlace);
      match arg.stat {
        case StatFailed =>
          reported := reported + [i];
        case Directory =>
          reported := reported + [i];
        case NotDirectory =>
          processed := processed + [i];
          var report := Process.ProcessFile(arg.path, inPlace, arg.env);
          if report.err.Some? {
            reported := reported + [i];
            ExaminedStopsAt(fates, i);
            code := 1;
            return;
          }
      }
      assert fates[..i + 1] == fates[..i] + [fates[i]];
      i := i + 1;
    }
    assert fates[..i] == fates;
    code := 0;
  }
}
