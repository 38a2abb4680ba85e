/**
 * The two format strings from which a synthesized doc comment starts. At
 * file scope the comment is forced onto a line of its own with a leading
 * line feed, since otherwise it can end up after the previous closing
 * brace; inside an indented block the printer already puts each member on
 * its own line, and the extra line feed would spoil the indentation.
 */
module Comments {

  /** Format for a comment at file scope. */
  const CommentBase: string := "\n// %s "
  /** Format for a comment inside an indented block. */
  const CommentIndentedBase: string := "// %s "

  /**
   * `fmt.Sprintf(format, arg)` for formats whose verbs are all `%s`: the
   * first verb takes the argument and any later one has no argument left;
   * when no verb takes it, the argument is reported after the text.
   */
  function Sprintf(format: string, arg: string): (r: string)
    ensures '%' !in format ==> r == format + "%!(EXTRA string=" + arg + ")"
  {
    if HasVerb(format) then FillFirstVerb(format, arg)
    else format + "%!(EXTRA string=" + arg + ")"
  }

  /** The format holds a `%s` verb, read left to right as the formatter does. */
  predicate HasVerb(format: string)
    ensures HasVerb(format) ==> '%' in format
  {
    |format| >= 2 && ((format[0] == '%' && format[1] == 's') || HasVerb(format[1..]))
  }

  /** The format with its first `%s` verb replaced by `arg`; the verbs after it find no argument left. */
  function FillFirstVerb(format: string, arg: string): (r: string)
  {
    if |format| < 2 then format
    else if format[0] == '%' && format[1] == 's' then arg + NoArgumentLeft(format[2..])
    else [format[0]] + FillFirstVerb(format[1..], arg)
  }

  /** The rest of a format once the argument has been used up: each `%s` reports the missing argument. */
  function NoArgumentLeft(format: string): (r: string)
    ensures '%' !in format ==> r == format
  {
    if |format| < 2 then format
    else if format[0] == '%' && format[1] == 's' then "%!s(MISSING)" + NoArgumentLeft(format[2..])
    else [format[0]] + NoArgumentLeft(format[1..])
  }

  /** Text before the verb is copied, the verb becomes the argument, text after it is copied. */
  lemma SprintfOneVerb(before: string, arg: string, after: string)
    requires '%' !in before && '%' !in after
    ensures Sprintf(before + "%s" + after, arg) == before + arg + after
  {
    FillOneVerb(before, arg, after);
  }

  /** The first verb takes the argument; what follows it is formatted with no argument left. */
  lemma {:induction false} FillOneVerb(before: string, arg: string, after: string)
    requires '%' !in before
    ensures HasVerb(before + "%s" + after)
    ensures FillFirstVerb(before + "%s" + after, arg) == before + arg + NoArgumentLeft(after)
    decreases |before|
  {
    var f := before + "%s" + after;
    if before == [] {
      assert f == "%s" + after;
      assert f[2..] == after;
    } else {
      var rest := before[1..];
      assert HasVerb(f) by {
        assert f[1..] == rest + "%s" + after;
        FillOneVerb(rest, arg, after);
      }
      calc {
        FillFirstVerb(f, arg);
        { assert f[0] == before[0] != '%' && |f| >= 2; }
        [before[0]] + FillFirstVerb(f[1..], arg);
        { assert f[1..] == rest + "%s" + after; FillOneVerb(rest, arg, after); }
        [before[0]] + (rest + arg + NoArgumentLeft(after));
        { assert before == [before[0]] + rest; }
        before + arg + NoArgumentLeft(after);
      }
    }
  }

  /** A second `%s` finds no argument left and reports it missing. */
  lemma SprintfMissingArgument(before: string, mid: string, after: string, arg: string)
    requires '%' !in before && '%' !in mid && '%' !in after
    ensures Sprintf(before + "%s" + mid + "%s" + after, arg) == before + arg + mid + "%!s(MISSING)" + after
  {
    var rest := mid + "%s" + after;
    assert before + "%s" + mid + "%s" + after == before + "%s" + rest;
    FillOneVerb(before, arg, rest);
    MissingAfter(mid, after);
  }

  lemma {:induction false} MissingAfter(mid: string, after: string)
    requires '%' !in mid && '%' !in after
    ensures NoArgumentLeft(mid + "%s" + after) == mid + "%!s(MISSING)" + after
    decreases |mid|
  {
    var f := mid + "%s" + after;
    if mid == [] {
      assert f == "%s" + after;
      assert f[2..] == after;
    } else {
      var rest := mid[1..];
      calc {
        NoArgumentLeft(f);
        { assert f[0] == mid[0] != '%' && |f| >= 2; }
        [mid[0]] + NoArgumentLeft(f[1..]);
        { assert f[1..] == rest + "%s" + after; MissingAfter(rest, after); }
        [mid[0]] + (rest + "%!s(MISSING)" + after);
        { assert mid == [mid[0]] + rest; }
        mid + "%!s(MISSING)" + after;
      }
    }
  }

  /** The opening of the comment for declaration `name`. */
  function CommentPrefix(name: string, indented: bool): (r: string)
    ensures !indented ==> r == "\n// " + name + " "
    ensures indented ==> r == "// " + name + " "
  {
    assert CommentBase == "\n// " + "%s" + " ";
    assert CommentIndentedBase == "// " + "%s" + " ";
    SprintfOneVerb("\n// ", name, " ");
    SprintfOneVerb("// ", name, " ");
    Sprintf(if indented then CommentIndentedBase else CommentBase, name)
  }

  /** The file-scope prefix is the indented one after a line feed. */
  lemma {:induction false} FileScopeAddsLineFeed(name: string)
    ensures CommentPrefix(name, false) == "\n" + CommentPrefix(name, true)
  {
  }
}
