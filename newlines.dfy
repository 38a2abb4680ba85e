/**
 * The second clean-up pass over the formatter's output: the regular
 * expression `\n{3,}` replaced by two line feeds. Every maximal run of three
 * or more line feeds (two or more blank lines) becomes exactly two (one blank
 * line); shorter runs and every other byte stay as they are.
 */
module Newlines {
  import opened Bytes

  /** Three line feeds in a row start at position `i`. */
  predicate TripleAt(s: Bytes, i: nat)
    requires i + 2 < |s|
  {
    s[i] == NL && s[i + 1] == NL && s[i + 2] == NL
  }

  /** Nowhere in `s` do three line feeds follow each other. */
  predicate NoTripleNewline(s: Bytes)
  {
    forall i: nat :: i + 2 < |s| ==> !TripleAt(s, i)
  }

  /**
   * The regular-expression scan, left to right. A match can only start at a
   * line feed, and `\n{3,}` takes the whole run; a run shorter than three
   * cannot match from any of its positions, so it is kept.
   */
  function CollapseNewlines(s: Bytes): (r: Bytes)
    ensures |r| <= |s|
    decreases |s|
  {
    if s == [] then []
    else if s[0] == NL then
      var k := RunLength(s, NL);
      RunLengthAll(s, NL);
      if k >= 3 then [NL, NL] + CollapseNewlines(s[k..])
      else s[..k] + CollapseNewlines(s[k..])
    else [s[0]] + CollapseNewlines(s[1..])
  }

  /** A text that does not start with a line feed keeps its first byte. */
  lemma {:induction false} CollapseHead(s: Bytes)
    requires s != [] && s[0] != NL
    ensures CollapseNewlines(s) != [] && CollapseNewlines(s)[0] == s[0]
  {
  }

  /** Joining `a` to a text that starts with anything but a line feed makes no new triple when `a` is short. */
  lemma {:induction false} NoTripleAfterShortPrefix(a: Bytes, b: Bytes)
    requires |a| <= 2 && NoTripleNewline(b)
    requires b != [] ==> b[0] != NL
    ensures NoTripleNewline(a + b)
  {
    var r := a + b;
    forall i: nat | i + 2 < |r| ensures !TripleAt(r, i) {
      if i >= |a| {
        assert r[i] == b[i - |a|] && r[i + 1] == b[i - |a| + 1] && r[i + 2] == b[i - |a| + 2];
        assert !TripleAt(b, i - |a|);
      } else {
        var j := |a| - i;
        assert 1 <= j <= 2 && r[i + j] == b[0];
      }
    }
  }

  /** After the pass no three line feeds follow each other. */
  lemma {:induction false} CollapseLeavesNoTriple(s: Bytes)
    ensures NoTripleNewline(CollapseNewlines(s))
    decreases |s|
  {
    if s == [] {
    } else if s[0] == NL {
      var k := RunLength(s, NL);
      RunLengthAll(s, NL);
      CollapseLeavesNoTriple(s[k..]);
      if k < |s| { CollapseHead(s[k..]); }
      if k >= 3 {
        NoTripleAfterShortPrefix([NL, NL], CollapseNewlines(s[k..]));
      } else {
        NoTripleAfterShortPrefix(s[..k], CollapseNewlines(s[k..]));
      }
    } else {
      CollapseLeavesNoTriple(s[1..]);
      var tail := CollapseNewlines(s[1..]);
      var r := [s[0]] + tail;
      forall i: nat | i + 2 < |r| ensures !TripleAt(r, i) {
        if i > 0 {
          assert r[i] == tail[i - 1] && r[i + 1] == tail[i] && r[i + 2] == tail[i + 1];
          assert !TripleAt(tail, i - 1);
        }
      }
    }
  }

  lemma {:induction false} NewlinesVanish(t: Bytes)
    requires forall i :: 0 <= i < |t| ==> t[i] == NL
    ensures Without(t, NL) == []
  {
    if t != [] { NewlinesVanish(t[1..]); }
  }

  /** Only line feeds are deleted: every other byte survives, in its order. */
  lemma {:induction false} CollapseDeletesOnlyNewlines(s: Bytes)
    ensures Without(CollapseNewlines(s), NL) == Without(s, NL)
    decreases |s|
  {
    if s == [] {
    } else if s[0] == NL {
      var k := RunLength(s, NL);
      RunLengthAll(s, NL);
      var x := if k >= 3 then [NL, NL] else s[..k];
      var rest := s[k..];
      calc {
        Without(CollapseNewlines(s), NL);
        { CollapseStepRun(s, k); }
        Without(x + CollapseNewlines(rest), NL);
        { WithoutAppend(x, CollapseNewlines(rest), NL); NewlinesVanish(x); }
        Without(CollapseNewlines(rest), NL);
        { CollapseDeletesOnlyNewlines(rest); }
        Without(rest, NL);
        { assert s == s[..k] + rest; WithoutAppend(s[..k], rest, NL); NewlinesVanish(s[..k]); }
        Without(s, NL);
      }
    } else {
      var rest := s[1..];
      calc {
        Without(CollapseNewlines(s), NL);
        { CollapseStepOther(s); }
        Without([s[0]] + CollapseNewlines(rest), NL);
        { WithoutAppend([s[0]], CollapseNewlines(rest), NL); }
        Without([s[0]], NL) + Without(CollapseNewlines(rest), NL);
        { CollapseDeletesOnlyNewlines(rest); }
        Without([s[0]], NL) + Without(rest, NL);
        { assert s == [s[0]] + rest; WithoutAppend([s[0]], rest, NL); }
        Without(s, NL);
      }
    }
  }

  /** A text with no triple line feed passes through unchanged. */
  lemma {:induction false} CollapseKeepsCleanText(s: Bytes)
    requires NoTripleNewline(s)
    ensures CollapseNewlines(s) == s
    decreases |s|
  {
    if s == [] {
    } else if s[0] == NL {
      var k := RunLength(s, NL);
      RunLengthAll(s, NL);
      if k >= 3 {
        assert TripleAt(s, 0);
      }
      assert NoTripleNewline(s[k..]) by {
        forall i: nat | i + 2 < |s[k..]| ensures !TripleAt(s[k..], i) {
          assert !TripleAt(s, k + i);
        }
      }
      CollapseKeepsCleanText(s[k..]);
      assert s == s[..k] + s[k..];
    } else {
      assert NoTripleNewline(s[1..]) by {
        forall i: nat | i + 2 < |s[1..]| ensures !TripleAt(s[1..], i) {
          assert !TripleAt(s, 1 + i);
        }
      }
      CollapseKeepsCleanText(s[1..]);
    }
  }

  /** Running the pass a second time changes nothing. */
  lemma {:induction false} CollapseIdempotent(s: Bytes)
    ensures CollapseNewlines(CollapseNewlines(s)) == CollapseNewlines(s)
  {
    CollapseLeavesNoTriple(s);
    CollapseKeepsCleanText(CollapseNewlines(s));
  }

  /** One step of the scan at a byte other than a line feed. */
  lemma {:induction false} CollapseStepOther(t: Bytes)
    requires t != [] && t[0] != NL
    ensures CollapseNewlines(t) == [t[0]] + CollapseNewlines(t[1..])
  {
  }

  /** One step of the scan at a run of `k` line feeds. */
  lemma {:induction false} CollapseStepRun(t: Bytes, k: nat)
    requires 0 < k == RunLength(t, NL)
    ensures CollapseNewlines(t) == (if k >= 3 then [NL, NL] else t[..k]) + CollapseNewlines(t[k..])
  {
  }

  /** The pass works on each side of a boundary that no run of line feeds crosses. */
  lemma {:induction false} CollapseAppend(p: Bytes, q: Bytes)
    requires p == [] || p[|p| - 1] != NL
    ensures CollapseNewlines(p + q) == CollapseNewlines(p) + CollapseNewlines(q)
    decreases |p|
  {
    if p == [] {
      assert p + q == q;
    } else if p[0] != NL {
      CollapseAppendOther(p, q);
    } else {
      CollapseAppendRun(p, q);
    }
  }

  lemma {:induction false} CollapseAppendOther(p: Bytes, q: Bytes)
    requires p != [] && p[0] != NL && p[|p| - 1] != NL
    ensures CollapseNewlines(p + q) == CollapseNewlines(p) + CollapseNewlines(q)
    decreases |p|, 0
  {
    var t := p + q;
    assert t[0] == p[0];
    assert t[1..] == p[1..] + q;
    CollapseStepOther(t);
    CollapseStepOther(p);
    CollapseAppend(p[1..], q);
  }

  lemma {:induction false} CollapseAppendRun(p: Bytes, q: Bytes)
    requires p != [] && p[0] == NL && p[|p| - 1] != NL
    ensures CollapseNewlines(p + q) == CollapseNewlines(p) + CollapseNewlines(q)
    decreases |p|, 0
  {
    var k := RunLength(p, NL);
    RunLengthAll(p, NL);
    assert k < |p|;
    var x := if k >= 3 then [NL, NL] else p[..k];
    var rest := p[k..];
    calc {
      CollapseNewlines(p + q);
      { CollapseRunThenRest(p, q); }
      x + CollapseNewlines(rest + q);
      { CollapseAppend(rest, q); }
      x + (CollapseNewlines(rest) + CollapseNewlines(q));
      (x + CollapseNewlines(rest)) + CollapseNewlines(q);
      { CollapseStepRun(p, k); }
      CollapseNewlines(p) + CollapseNewlines(q);
    }
  }

  /** A run of line feeds at the front of `p` that ends inside `p` is one scan step, whatever follows. */
  lemma {:induction false} CollapseRunThenRest(p: Bytes, q: Bytes)
    requires 0 < RunLength(p, NL) < |p|
    ensures var k := RunLength(p, NL);
      CollapseNewlines(p + q) == (if k >= 3 then [NL, NL] else p[..k]) + CollapseNewlines(p[k..] + q)
  {
    var k := RunLength(p, NL);
    var t := p + q;
    RunLengthAppend(p, q, NL);
    assert t[k..] == p[k..] + q;
    assert t[..k] == p[..k];
    CollapseStepRun(t, k);
  }

  /**
   * Each maximal run of line feeds is rewritten on its own: a run of three or
   * more becomes exactly two, a run of one or two stays, and the text around
   * it is handled independently.
   */
  lemma {:induction false} CollapseRun(p: Bytes, k: nat, q: Bytes)
    requires p == [] || p[|p| - 1] != NL
    requires q == [] || q[0] != NL
    ensures CollapseNewlines(p + Repeat(NL, k) + q)
         == CollapseNewlines(p) + Repeat(NL, if k >= 3 then 2 else k) + CollapseNewlines(q)
  {
    var u := Repeat(NL, k) + q;
    assert p + Repeat(NL, k) + q == p + u;
    CollapseAppend(p, u);
    CollapseRunAlone(k, q);
  }

  lemma {:induction false} CollapseRunAlone(k: nat, q: Bytes)
    requires q == [] || q[0] != NL
    ensures CollapseNewlines(Repeat(NL, k) + q) == Repeat(NL, if k >= 3 then 2 else k) + CollapseNewlines(q)
  {
    var run := Repeat(NL, k);
    if k == 0 {
      assert run + q == q;
    } else {
      RunLengthRepeat(NL, k, q);
      CollapseStepRun(run + q, k);
      if k >= 3 {
        assert Repeat(NL, 2) == [NL, NL];
      }
    }
  }
}
