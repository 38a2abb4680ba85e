/**
 * The first clean-up pass over the formatter's output: the multi-line
 * regular expression `\t+$` replaced by nothing. In multi-line mode `$`
 * matches just before a line feed and at the end of the text, so every run
 * of tabs that ends a line disappears. Nothing else is touched: a space, a
 * tab in the middle of a line and a tab before a carriage return stay.
 */
module TrailingTabs {
  import opened Bytes

  /** No tab stands directly before a line feed or at the end of the text. */
  predicate NoTrailingTab(s: Bytes)
  {
    forall i :: 0 <= i < |s| && s[i] == TAB ==> i + 1 < |s| && s[i + 1] != NL
  }

  /**
   * The regular-expression scan, left to right. A match can only start at
   * a tab; from there `\t+` takes the whole run and `$` then needs a line
   * feed or the end of the text. When that fails no later tab of the same
   * run can match either, so the run is kept as it is.
   */
  function StripTrailingTabs(s: Bytes): (r: Bytes)
    ensures |r| <= |s|
    decreases |s|
  {
    if s == [] then []
    else if s[0] == TAB then
      var k := RunLength(s, TAB);
      RunLengthAll(s, TAB);
      if k == |s| || s[k] == NL then StripTrailingTabs(s[k..])
      else s[..k] + StripTrailingTabs(s[k..])
    else [s[0]] + StripTrailingTabs(s[1..])
  }

  /** A text that does not start with a tab keeps its first byte. */
  lemma {:induction false} StripHead(s: Bytes)
    requires s != [] && s[0] != TAB
    ensures StripTrailingTabs(s) != [] && StripTrailingTabs(s)[0] == s[0]
  {
  }

  /** After the pass no line ends in a tab. */
  lemma {:induction false} StripLeavesNoTrailingTab(s: Bytes)
    ensures NoTrailingTab(StripTrailingTabs(s))
    decreases |s|
  {
    if s == [] {
    } else if s[0] == TAB {
      var k := RunLength(s, TAB);
      RunLengthAll(s, TAB);
      StripLeavesNoTrailingTab(s[k..]);
      if !(k == |s| || s[k] == NL) {
        var tail := StripTrailingTabs(s[k..]);
        StripHead(s[k..]);
        var r := s[..k] + tail;
        forall i | 0 <= i < |r| && r[i] == TAB
          ensures i + 1 < |r| && r[i + 1] != NL
        {
          if i + 1 < k {
          } else if i + 1 == k {
            assert r[i + 1] == tail[0] == s[k];
          } else {
            assert r[i] == tail[i - k];
          }
        }
      }
    } else {
      var tail := StripTrailingTabs(s[1..]);
      StripLeavesNoTrailingTab(s[1..]);
      var r := [s[0]] + tail;
      forall i | 0 <= i < |r| && r[i] == TAB
        ensures i + 1 < |r| && r[i + 1] != NL
      {
        assert i > 0 && r[i] == tail[i - 1];
      }
    }
  }

  /** Only tabs are deleted: every other byte survives, in its order. */
  lemma {:induction false} StripDeletesOnlyTabs(s: Bytes)
    ensures Without(StripTrailingTabs(s), TAB) == Without(s, TAB)
    decreases |s|
  {
    if s == [] {
    } else if s[0] == TAB {
      var k := RunLength(s, TAB);
      RunLengthAll(s, TAB);
      var x := if k == |s| || s[k] == NL then [] else s[..k];
      var rest := s[k..];
      calc {
        Without(StripTrailingTabs(s), TAB);
        { StripStepRun(s, k); }
        Without(x + StripTrailingTabs(rest), TAB);
        { WithoutAppend(x, StripTrailingTabs(rest), TAB); TabsVanish(x); }
        Without(StripTrailingTabs(rest), TAB);
        { StripDeletesOnlyTabs(rest); }
        Without(rest, TAB);
        { assert s == s[..k] + rest; WithoutAppend(s[..k], rest, TAB); TabsVanish(s[..k]); }
        Without(s, TAB);
      }
    } else {
      var rest := s[1..];
      calc {
        Without(StripTrailingTabs(s), TAB);
        { StripStepOther(s); }
        Without([s[0]] + StripTrailingTabs(rest), TAB);
        { WithoutAppend([s[0]], StripTrailingTabs(rest), TAB); }
        Without([s[0]], TAB) + Without(StripTrailingTabs(rest), TAB);
        { StripDeletesOnlyTabs(rest); }
        Without([s[0]], TAB) + Without(rest, TAB);
        { assert s == [s[0]] + rest; WithoutAppend([s[0]], rest, TAB); }
        Without(s, TAB);
      }
    }
  }

  lemma {:induction false} TabsVanish(t: Bytes)
    requires forall i :: 0 <= i < |t| ==> t[i] == TAB
    ensures Without(t, TAB) == []
  {
    if t != [] { TabsVanish(t[1..]); }
  }

  /** A text with no trailing tab passes through unchanged. */
  lemma {:induction false} StripKeepsCleanText(s: Bytes)
    requires NoTrailingTab(s)
    ensures StripTrailingTabs(s) == s
    decreases |s|
  {
    if s == [] {
    } else if s[0] == TAB {
      var k := RunLength(s, TAB);
      RunLengthAll(s, TAB);
      assert s[k - 1] == TAB;
      assert k < |s| && s[k] != NL;
      StripKeepsCleanText(s[k..]);
      assert s == s[..k] + s[k..];
    } else {
      StripKeepsCleanText(s[1..]);
    }
  }

  /** Running the pass a second time changes nothing. */
  lemma {:induction false} StripIdempotent(s: Bytes)
    ensures StripTrailingTabs(StripTrailingTabs(s)) == StripTrailingTabs(s)
  {
    StripLeavesNoTrailingTab(s);
    StripKeepsCleanText(StripTrailingTabs(s));
  }

  /**
   * A run of tabs followed by any byte but a line feed is kept, so a tab
   * before a carriage-return line ending (`\t\r\n`) survives.
   */
  lemma {:induction false} StripKeepsTabsBeforeOther(k: nat, c: Byte, s: Bytes)
    requires k > 0 && c != TAB && c != NL
    ensures StripTrailingTabs(Repeat(TAB, k) + [c] + s) == Repeat(TAB, k) + [c] + StripTrailingTabs(s)
  {
    var rest := [c] + s;
    assert Repeat(TAB, k) + [c] + s == Repeat(TAB, k) + rest;
    StripKeepsTabRun(k, rest);
    assert rest[1..] == s;
    StripStepOther(rest);
  }

  /** In particular a tab before a carriage-return line ending stays, whatever follows. */
  lemma StripKeepsTabBeforeCarriageReturn(s: Bytes)
    ensures StripTrailingTabs([TAB, CR, NL] + s) == [TAB, CR, NL] + StripTrailingTabs(s)
  {
    var rest := [NL] + s;
    calc {
      StripTrailingTabs([TAB, CR, NL] + s);
      { assert [TAB, CR, NL] + s == Repeat(TAB, 1) + [CR] + rest; }
      StripTrailingTabs(Repeat(TAB, 1) + [CR] + rest);
      { StripKeepsTabsBeforeOther(1, CR, rest); }
      Repeat(TAB, 1) + [CR] + StripTrailingTabs(rest);
      { assert rest[1..] == s; StripNewline(rest); }
      Repeat(TAB, 1) + [CR] + ([NL] + StripTrailingTabs(s));
      { assert Repeat(TAB, 1) == [TAB]; }
      [TAB, CR, NL] + StripTrailingTabs(s);
    }
  }

  lemma {:induction false} StripKeepsTabRun(k: nat, rest: Bytes)
    requires k > 0 && rest != [] && rest[0] != TAB && rest[0] != NL
    ensures StripTrailingTabs(Repeat(TAB, k) + rest) == Repeat(TAB, k) + StripTrailingTabs(rest)
  {
    RunLengthRepeat(TAB, k, rest);
    StripStepRun(Repeat(TAB, k) + rest, k);
  }

  // ---- The line-by-line reading of the same pass ----

  /** `line` without the run of tabs at its end. */
  function TrimTabsRight(line: Bytes): (r: Bytes)
    ensures |r| <= |line|
  {
    if line != [] && line[|line| - 1] == TAB then TrimTabsRight(line[..|line| - 1])
    else line
  }

  predicate HasNonTab(b: Bytes)
  {
    exists i :: 0 <= i < |b| && b[i] != TAB
  }

  /** Trimming the end of a text does not reach past a byte that is not a tab. */
  lemma {:induction false} TrimAppend(a: Bytes, b: Bytes)
    requires HasNonTab(b) || (a != [] && a[|a| - 1] != TAB)
    ensures TrimTabsRight(a + b) == a + TrimTabsRight(b)
    decreases |b|
  {
    if b == [] {
      assert a + b == a;
    } else if b[|b| - 1] == TAB {
      var b' := b[..|b| - 1];
      assert (a + b)[..|a + b| - 1] == a + b';
      if HasNonTab(b) {
        var i :| 0 <= i < |b| && b[i] != TAB;
        assert i < |b'| && b'[i] != TAB;
      }
      TrimAppend(a, b');
    }
  }

  lemma {:induction false} TrimAllTabs(t: Bytes)
    requires forall i :: 0 <= i < |t| ==> t[i] == TAB
    ensures TrimTabsRight(t) == []
    decreases |t|
  {
    if t != [] { TrimAllTabs(t[..|t| - 1]); }
  }

  /** The position of the first line feed of `s`, or `|s|` when it has none. */
  function LineEnd(s: Bytes): (i: nat)
    ensures i <= |s|
    ensures NL !in s[..i]
    ensures i < |s| ==> s[i] == NL
  {
    if s == [] || s[0] == NL then 0
    else
      var j := LineEnd(s[1..]);
      assert s[..1 + j] == [s[0]] + s[1..][..j];
      1 + j
  }

  /** The reference reading: each line loses the tabs at its end, line feeds stay. */
  function StripLines(s: Bytes): (r: Bytes)
    decreases |s|
  {
    var i := LineEnd(s);
    if i == |s| then TrimTabsRight(s)
    else TrimTabsRight(s[..i]) + [NL] + StripLines(s[i + 1..])
  }

  /** On one line followed by a line feed or the end, the scan trims that line's tail. */
  lemma {:induction false} StripOneLine(line: Bytes, rest: Bytes)
    requires NL !in line
    requires rest == [] || rest[0] == NL
    ensures StripTrailingTabs(line + rest) == TrimTabsRight(line) + StripTrailingTabs(rest)
    decreases |line|
  {
    if line == [] {
      assert line + rest == rest;
    } else if line[0] != TAB {
      StripOneLineOther(line, rest);
    } else if RunLength(line, TAB) == |line| {
      StripOneLineTabs(line, rest);
    } else {
      StripOneLineTabRun(line, rest);
    }
  }

  lemma {:induction false} StripOneLineOther(line: Bytes, rest: Bytes)
    requires NL !in line
    requires rest == [] || rest[0] == NL
    requires line != [] && line[0] != TAB
    ensures StripTrailingTabs(line + rest) == TrimTabsRight(line) + StripTrailingTabs(rest)
    decreases |line|, 0
  {
    var s := line + rest;
    assert s[0] == line[0];
    assert s[1..] == line[1..] + rest;
    assert StripTrailingTabs(s) == [line[0]] + StripTrailingTabs(line[1..] + rest);
    StripOneLine(line[1..], rest);
    assert line == [line[0]] + line[1..];
    TrimAppend([line[0]], line[1..]);
  }

  lemma {:induction false} StripOneLineTabs(line: Bytes, rest: Bytes)
    requires rest == [] || rest[0] == NL
    requires line != [] && line[0] == TAB && RunLength(line, TAB) == |line|
    ensures StripTrailingTabs(line + rest) == TrimTabsRight(line) + StripTrailingTabs(rest)
  {
    var s := line + rest;
    var j := |line|;
    RunLengthAll(line, TAB);
    assert forall i :: 0 <= i < j ==> s[i] == TAB;
    RunLengthUnique(s, TAB, j);
    assert s[j..] == rest;
    StripStepRun(s, j);
    TrimAllTabs(line);
  }

  /** One step of the scan at a byte other than a tab. */
  lemma {:induction false} StripStepOther(t: Bytes)
    requires t != [] && t[0] != TAB
    ensures StripTrailingTabs(t) == [t[0]] + StripTrailingTabs(t[1..])
  {
  }

  /** One step of the scan at a run of `k` tabs: dropped before a line end, kept otherwise. */
  lemma {:induction false} StripStepRun(t: Bytes, k: nat)
    requires 0 < k == RunLength(t, TAB)
    ensures StripTrailingTabs(t) == (if k == |t| || t[k] == NL then [] else t[..k]) + StripTrailingTabs(t[k..])
  {
  }

  lemma {:induction false} StripOneLineTabRun(line: Bytes, rest: Bytes)
    requires NL !in line
    requires rest == [] || rest[0] == NL
    requires line != [] && line[0] == TAB && RunLength(line, TAB) < |line|
    ensures StripTrailingTabs(line + rest) == TrimTabsRight(line) + StripTrailingTabs(rest)
    decreases |line|, 0
  {
    var j := RunLength(line, TAB);
    var head, tail := line[..j], line[j..];
    calc {
      StripTrailingTabs(line + rest);
      { StripKeepsInnerRun(line, rest); }
      head + StripTrailingTabs(tail + rest);
      { NoNewlineSuffix(line, j); StripOneLine(tail, rest); }
      head + (TrimTabsRight(tail) + StripTrailingTabs(rest));
      (head + TrimTabsRight(tail)) + StripTrailingTabs(rest);
      { TrimAfterRun(line); }
      TrimTabsRight(line) + StripTrailingTabs(rest);
    }
  }

  lemma {:induction false} StripKeepsInnerRun(line: Bytes, rest: Bytes)
    requires NL !in line
    requires 0 < RunLength(line, TAB) < |line|
    ensures var j := RunLength(line, TAB);
      StripTrailingTabs(line + rest) == line[..j] + StripTrailingTabs(line[j..] + rest)
  {
    var j := RunLength(line, TAB);
    var s := line + rest;
    RunLengthAppend(line, rest, TAB);
    assert s[j] == line[j] && line[j] in line;
    assert s[j..] == line[j..] + rest;
    assert s[..j] == line[..j];
    StripStepRun(s, j);
  }

  lemma {:induction false} NoNewlineSuffix(line: Bytes, j: nat)
    requires NL !in line && j <= |line|
    ensures NL !in line[j..]
  {
    forall i | 0 <= i < |line| - j ensures line[j..][i] != NL {
      assert line[j..][i] == line[j + i] && line[j + i] in line;
    }
  }

  lemma {:induction false} TrimAfterRun(line: Bytes)
    requires RunLength(line, TAB) < |line|
    ensures var j := RunLength(line, TAB);
      TrimTabsRight(line) == line[..j] + TrimTabsRight(line[j..])
  {
    var j := RunLength(line, TAB);
    assert line == line[..j] + line[j..];
    assert line[j..][0] != TAB;
    TrimAppend(line[..j], line[j..]);
  }

  /** The scan and the line-by-line reading agree on every text. */
  lemma {:induction false} StripMatchesLines(s: Bytes)
    ensures StripTrailingTabs(s) == StripLines(s)
    decreases |s|
  {
    var i := LineEnd(s);
    if i == |s| {
      assert s[..i] == s && s + [] == s;
      StripOneLine(s, []);
    } else {
      assert s == s[..i] + [NL] + s[i + 1..];
      StripLineBreak(s[..i], s[i + 1..]);
      StripMatchesLines(s[i + 1..]);
    }
  }

  lemma {:induction false} StripLineBreak(line: Bytes, tail: Bytes)
    requires NL !in line
    ensures StripTrailingTabs(line + [NL] + tail) == TrimTabsRight(line) + [NL] + StripTrailingTabs(tail)
  {
    var rest := [NL] + tail;
    assert line + [NL] + tail == line + rest;
    StripOneLine(line, rest);
    assert rest[1..] == tail;
    StripNewline(rest);
  }

  lemma {:induction false} StripNewline(t: Bytes)
    requires t != [] && t[0] == NL
    ensures StripTrailingTabs(t) == [NL] + StripTrailingTabs(t[1..])
  {
  }
}
