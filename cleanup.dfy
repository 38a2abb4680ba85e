/**
 * The two clean-up passes as `processFile` applies them to changed output:
 * trailing tabs are stripped first, then runs of line feeds are collapsed.
 */
module Cleanup {
  import opened Bytes
  import opened TrailingTabs
  import opened Newlines

  /** Text that neither clean-up pass would change. */
  predicate IsClean(s: Bytes)
  {
    NoTrailingTab(s) && NoTripleNewline(s)
  }

  /** Strip, then collapse; the result is clean in both respects at once. */
  function Clean(s: Bytes): (r: Bytes)
    ensures IsClean(r)
    ensures |r| <= |s|
  {
    var stripped := StripTrailingTabs(s);
    StripLeavesNoTrailingTab(s);
    CollapseLeavesNoTriple(stripped);
    CollapseKeepsNoTrailingTab(stripped);
    CollapseNewlines(stripped)
  }

  lemma {:induction false} NoTrailingTabSuffix(s: Bytes, k: nat)
    requires k <= |s| && NoTrailingTab(s)
    ensures NoTrailingTab(s[k..])
  {
    forall i | 0 <= i < |s[k..]| && s[k..][i] == TAB
      ensures i + 1 < |s[k..]| && s[k..][i + 1] != NL
    {
      assert s[k + i] == TAB;
    }
  }

  /** Collapsing line feeds cannot leave a tab at the end of a line. */
  lemma {:induction false} CollapseKeepsNoTrailingTab(s: Bytes)
    requires NoTrailingTab(s)
    ensures NoTrailingTab(CollapseNewlines(s))
    decreases |s|
  {
    if s == [] {
    } else if s[0] == NL {
      var k := RunLength(s, NL);
      RunLengthAll(s, NL);
      NoTrailingTabSuffix(s, k);
      CollapseKeepsNoTrailingTab(s[k..]);
      var x := if k >= 3 then [NL, NL] else s[..k];
      var tail := CollapseNewlines(s[k..]);
      var r := x + tail;
      assert r == CollapseNewlines(s);
      forall i | 0 <= i < |r| && r[i] == TAB
        ensures i + 1 < |r| && r[i + 1] != NL
      {
        assert i >= |x| && r[i] == tail[i - |x|];
      }
    } else {
      NoTrailingTabSuffix(s, 1);
      CollapseKeepsNoTrailingTab(s[1..]);
      var tail := CollapseNewlines(s[1..]);
      var r := [s[0]] + tail;
      if s[0] == TAB {
        CollapseHead(s[1..]);
      }
      forall i | 0 <= i < |r| && r[i] == TAB
        ensures i + 1 < |r| && r[i + 1] != NL
      {
        if i > 0 {
          assert r[i] == tail[i - 1];
        }
      }
    }
  }

  /** Clean text passes through both passes unchanged. */
  lemma {:induction false} CleanKeepsCleanText(s: Bytes)
    requires IsClean(s)
    ensures Clean(s) == s
  {
    StripKeepsCleanText(s);
    CollapseKeepsCleanText(s);
  }

  /** Cleaning twice is cleaning once. */
  lemma {:induction false} CleanIdempotent(s: Bytes)
    ensures Clean(Clean(s)) == Clean(s)
  {
    CleanKeepsCleanText(Clean(s));
  }

  /**
   * The order of the passes matters: stripping a tab can join two runs of
   * line feeds into one long enough to collapse, so collapsing first and
   * stripping second would leave a triple line feed behind.
   */
  lemma {:induction false} CleanOrderMatters()
    ensures Clean([NL, TAB, NL, NL]) == [NL, NL]
    ensures StripTrailingTabs(CollapseNewlines([NL, TAB, NL, NL])) == [NL, NL, NL]
  {
    var s := [NL, TAB, NL, NL];
    assert RunLength(s, NL) == 1 by { RunLengthUnique(s, NL, 1); }
    assert RunLength(s[1..], TAB) == 1 by { RunLengthUnique(s[1..], TAB, 1); }
    assert StripTrailingTabs(s[1..]) == StripTrailingTabs([NL, NL]) by {
      assert s[1..][1..] == [NL, NL];
    }
    assert StripTrailingTabs(s) == [NL, NL, NL] by {
      StripKeepsCleanText([NL, NL]);
      assert s[1..] == [TAB, NL, NL];
    }
    var t := [NL, NL, NL];
    assert RunLength(t, NL) == 3 by { RunLengthUnique(t, NL, 3); }
    assert t[3..] == [];
    assert CollapseNewlines(s) == s by {
      CollapseKeepsCleanText(s);
    }
  }
}
