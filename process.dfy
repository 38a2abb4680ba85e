/**
 * `processFile`: skip test files, read the file, have it rewritten, and
 * decide between reporting "no changes", writing the file back and printing
 * the new text. The rewrite itself (parsing, inserting comments, formatting)
 * and the system calls are outside this model; their results are inputs.
 */
module Process {
  import opened Bytes
  import opened Cleanup

  datatype Option<T> = None | Some(value: T)

  /** File names with this ending are test files and are never rewritten. */
  const TestSuffix: string := "_test.go"

  /**
   * The permission argument handed to `ioutil.WriteFile`: octal 0644, owner
   * read/write, others read. It applies only when the file has to be
   * created; an existing file is truncated and keeps its own permissions.
   */
  const DefaultMode: nat := 6 * 64 + 4 * 8 + 4

  /** The name ends in the test-file suffix (a plain suffix test, as `strings.HasSuffix`). */
  function IsTestFile(name: string): (b: bool)
    ensures b <==> (|name| >= |TestSuffix| &&
                    forall i :: 0 <= i < |TestSuffix| ==> name[|name| - |TestSuffix| + i] == TestSuffix[i])
  {
    |name| >= |TestSuffix| && name[|name| - |TestSuffix|..] == TestSuffix
  }

  /** Any name made by appending the suffix is a test file. */
  lemma {:induction false} TestFileOfStem(stem: string)
    ensures IsTestFile(stem + TestSuffix)
  {
    assert (stem + TestSuffix)[|stem|..] == TestSuffix;
  }

  /** Every test file is some stem followed by the suffix. */
  lemma {:induction false} TestFileHasStem(name: string)
    requires IsTestFile(name)
    ensures name == name[..|name| - |TestSuffix|] + TestSuffix
  {
  }

  /** What happens to a file whose rewrite succeeded. */
  datatype Action =
    | NoChange                           // "no changes" notice on standard error
    | Write(data: Bytes, perm: nat)      // the file is overwritten; `perm` is the argument to `ioutil.WriteFile`
    | Print(data: Bytes)                 // the text goes to standard output

  /**
   * The decision after formatting. The comparison is with the formatter's
   * raw output; the clean-up runs only when that differs from the original.
   */
  function Decide(orig: Bytes, formatted: Bytes, inPlace: bool): (a: Action)
    ensures a.NoChange? <==> orig == formatted
    ensures a.Write? <==> orig != formatted && inPlace
    ensures a.Print? <==> orig != formatted && !inPlace
    ensures a.Write? ==> a.perm == DefaultMode
    ensures !a.NoChange? ==> a.data == Clean(formatted) && IsClean(a.data)
  {
    if orig == formatted then NoChange
    else
      var cleaned := Clean(formatted);
      if inPlace then Write(cleaned, DefaultMode) else Print(cleaned)
  }

  /**
   * Because the comparison uses the uncleaned output, a file is written back
   * even when the cleaned text is exactly what it already held.
   */
  lemma {:induction false} DecideMayRewriteSameBytes()
    ensures Decide([65, NL], [65, TAB, NL], true) == Write([65, NL], DefaultMode)
  {
    var f: Bytes := [65, TAB, NL];
    assert f[1..] == [TAB, NL];
    assert RunLength(f[1..], TAB) == 1 by { RunLengthUnique(f[1..], TAB, 1); }
    assert f[1..][1..] == [NL];
    assert TrailingTabs.StripTrailingTabs([NL]) == [NL] by {
      TrailingTabs.StripNewline([NL]);
    }
    assert TrailingTabs.StripTrailingTabs([TAB, NL]) == [NL];
    assert TrailingTabs.StripTrailingTabs(f) == [65, NL];
    Newlines.CollapseKeepsCleanText([65, NL]);
  }

  /** Output that is already clean is emitted exactly as the formatter produced it. */
  lemma {:induction false} DecideEmitsCleanOutputAsIs(orig: Bytes, formatted: Bytes, inPlace: bool)
    requires orig != formatted && IsClean(formatted)
    ensures Decide(orig, formatted, inPlace) == if inPlace then Write(formatted, DefaultMode) else Print(formatted)
  {
    CleanKeepsCleanText(formatted);
  }

  /** The errors `processFile` returns to its caller. */
  datatype Failure = OpenFailed | ReadFailed | ParseFailed | WriteFailed

  /**
   * The results of the outside calls for one file: whether it opened, what
   * reading it gave, what parsing and formatting it gave (None for a parse
   * error), and whether writing it back succeeds.
   */
  datatype Env = Env(opens: bool, contents: Option<Bytes>, rendered: Option<Bytes>, writes: bool)

  /** What one call did: whether it touched the file system, which action it took, and the error it returned. */
  datatype Report = Report(touched: bool, action: Option<Action>, err: Option<Failure>)

  function ProcessFile(filename: string, inPlace: bool, env: Env): (r: Report)
    ensures IsTestFile(filename) ==> r == Report(false, None, None)
    ensures !IsTestFile(filename) ==> r.touched
    ensures r.action.Some? <==> !IsTestFile(filename) && env.opens && env.contents.Some? && env.rendered.Some?
    ensures r.action.Some? ==> r.action.value == Decide(env.contents.value, env.rendered.value, inPlace)
    ensures r.err.Some? <==>
      !IsTestFile(filename) &&
      (!env.opens || env.contents.None? || env.rendered.None? || (r.action.value.Write? && !env.writes))
    ensures r.err == Some(WriteFailed) ==> inPlace && r.action.Some? && r.action.value.Write?
  {
    if IsTestFile(filename) then Report(false, None, None)
    else if !env.opens then Report(true, None, Some(OpenFailed))
    else if env.contents.None? then Report(true, None, Some(ReadFailed))
    else if env.rendered.None? then Report(true, None, Some(ParseFailed))
    else
      var a := Decide(env.contents.value, env.rendered.value, inPlace);
      Report(true, Some(a), if a.Write? && !env.writes then Some(WriteFailed) else None)
  }

  /** Unchanged output is never written or printed, in either mode, and is no error. */
  lemma {:induction false} UnchangedIsNoChange(filename: string, inPlace: bool, env: Env)
    requires !IsTestFile(filename) && env.opens && env.contents.Some? && env.rendered == env.contents
    ensures ProcessFile(filename, inPlace, env) == Report(true, Some(NoChange), None)
  {
  }
}
