/** The two regex passes `RenderedTemplate::new` applies to template output: every run of
    three or more newlines becomes two, then a trailing run of two or more becomes one. */
module Cleanup {
  import opened Text

  function Newlines(n: nat): (s: string)
    ensures |s| == n
    ensures forall i :: 0 <= i < n ==> s[i] == '\n'
  {
    if n == 0 then "" else "\n" + Newlines(n - 1)
  }

  /** Length of the run of newlines `s` starts with. */
  function LeadingNewlines(s: string): (n: nat)
    ensures n <= |s|
    ensures forall i :: 0 <= i < n ==> s[i] == '\n'
    ensures n < |s| ==> s[n] != '\n'
    decreases |s|
  {
    if |s| == 0 || s[0] != '\n' then 0 else 1 + LeadingNewlines(s[1..])
  }

  predicate TripleAt(s: string, i: nat)
    requires i + 2 < |s|
  {
    s[i] == '\n' && s[i + 1] == '\n' && s[i + 2] == '\n'
  }

  /** No three consecutive newlines anywhere. */
  predicate NoTripleNewline(s: string) {
    forall i: nat :: i + 2 < |s| ==> !TripleAt(s, i)
  }

  predicate EndsWithTwoNewlines(s: string) {
    |s| >= 2 && s[|s| - 1] == '\n' && s[|s| - 2] == '\n'
  }

  /** The characters other than newline, in order. */
  function Strip(s: string): string
    decreases |s|
  {
    if |s| == 0 then ""
    else (if s[0] == '\n' then "" else [s[0]]) + Strip(s[1..])
  }

  lemma {:induction false} StripConcat(a: string, b: string)
    ensures Strip(a + b) == Strip(a) + Strip(b)
    decreases |a|
  {
    if |a| > 0 {
      assert (a + b)[1..] == a[1..] + b;
      StripConcat(a[1..], b);
    } else {
      assert a + b == b;
    }
  }

  lemma {:induction false} StripNewlines(s: string)
    requires forall i :: 0 <= i < |s| ==> s[i] == '\n'
    ensures Strip(s) == ""
    decreases |s|
  {
    if |s| > 0 {
      StripNewlines(s[1..]);
    }
  }

  /** A character other than newline in front adds no triple. */
  lemma ConsNoTriple(c: char, t: string)
    requires c != '\n' && NoTripleNewline(t)
    ensures NoTripleNewline([c] + t)
  {
    var s := [c] + t;
    forall i: nat | i + 2 < |s| ensures !TripleAt(s, i) {
      if i > 0 {
        assert !TripleAt(t, i - 1);
      }
    }
  }

  /** At most two newlines in front of text that does not start with a newline add no
      triple. */
  lemma RunNoTriple(m: nat, t: string)
    requires m <= 2 && NoTripleNewline(t)
    requires |t| == 0 || t[0] != '\n'
    ensures NoTripleNewline(Newlines(m) + t)
  {
    var s := Newlines(m) + t;
    forall i: nat | i + 2 < |s| ensures !TripleAt(s, i) {
      if i >= m {
        assert !TripleAt(t, i - m);
      } else {
        assert s[m] == t[0];
      }
    }
  }

  /** `Regex::new("\n{3,}").replace_all(s, "\n\n")`: matches are leftmost and greedy, so
      each maximal run of three or more newlines is replaced by exactly two. */
  function CollapseRuns(s: string): (r: string)
    ensures NoTripleNewline(r)
    ensures Strip(r) == Strip(s)
    ensures |r| <= |s|
    ensures |s| > 0 && s[0] != '\n' ==> |r| > 0 && r[0] == s[0]
    decreases |s|
  {
    if |s| == 0 then ""
    else if s[0] != '\n' then
      var t := CollapseRuns(s[1..]);
      ConsNoTriple(s[0], t);
      StripConcat([s[0]], t);
      StripConcat([s[0]], s[1..]);
      assert s == [s[0]] + s[1..];
      [s[0]] + t
    else
      var n := LeadingNewlines(s);
      var m := if n >= 3 then 2 else n;
      var t := CollapseRuns(s[n..]);
      RunNoTriple(m, t);
      StripConcat(Newlines(m), t);
      StripNewlines(Newlines(m));
      StripConcat(s[..n], s[n..]);
      StripNewlines(s[..n]);
      assert s == s[..n] + s[n..];
      Newlines(m) + t
  }

  /** `Regex::new("\n{2,}$").replace_all(s, "\n")`: `$` is the end of the text, so only a
      trailing run of two or more newlines is replaced, by one. */
  function TrimTrailing(s: string): (r: string)
    ensures !EndsWithTwoNewlines(r)
    ensures Strip(r) == Strip(s)
    ensures |r| <= |s|
    ensures NoTripleNewline(s) ==> NoTripleNewline(r)
    ensures !EndsWithTwoNewlines(s) ==> r == s
  {
    var n := TrailingCount(s, '\n');
    if n >= 2 then
      TrimmedStrip(s, n);
      TrimmedNoTriple(s, n);
      s[..|s| - n] + "\n"
    else
      s
  }

  /** Replacing a trailing run of newlines by one newline drops only newlines. */
  lemma TrimmedStrip(s: string, n: nat)
    requires n == TrailingCount(s, '\n')
    ensures Strip(s[..|s| - n] + "\n") == Strip(s)
  {
    var keep, tail := s[..|s| - n], s[|s| - n..];
    assert s == keep + tail;
    assert forall i :: 0 <= i < |tail| ==> tail[i] == '\n';
    StripConcat(keep, tail);
    StripNewlines(tail);
    StripConcat(keep, Newlines(1));
    StripNewlines(Newlines(1));
    assert Newlines(1) == "\n";
  }

  /** ... and adds no triple: the newline kept follows a character other than newline. */
  lemma TrimmedNoTriple(s: string, n: nat)
    requires n == TrailingCount(s, '\n')
    ensures NoTripleNewline(s) ==> NoTripleNewline(s[..|s| - n] + "\n")
  {
    if NoTripleNewline(s) {
      var keep := s[..|s| - n];
      var r := keep + "\n";
      forall i: nat | i + 2 < |r| ensures !TripleAt(r, i) {
        if i + 2 < |keep| {
          assert !TripleAt(s, i);
        } else {
          assert r[|r| - 2] == s[|s| - n - 1];
        }
      }
    }
  }

  /** `RenderedTemplate::new`'s clean-up of the rendered text. */
  function Clean(s: string): (r: string)
    ensures NoTripleNewline(r)
    ensures !EndsWithTwoNewlines(r)
    ensures Strip(r) == Strip(s)
    ensures |r| <= |s|
  {
    TrimTrailing(CollapseRuns(s))
  }

  lemma NoTripleSuffix(s: string, k: nat)
    requires NoTripleNewline(s) && k <= |s|
    ensures NoTripleNewline(s[k..])
  {
    forall i: nat | i + 2 < |s[k..]| ensures !TripleAt(s[k..], i) {
      assert !TripleAt(s, i + k);
    }
  }

  /** Text without three newlines in a row is left alone by the first pass. */
  lemma {:induction false} CollapseRunsFixesClean(s: string)
    requires NoTripleNewline(s)
    ensures CollapseRuns(s) == s
    decreases |s|
  {
    if |s| > 0 {
      if s[0] != '\n' {
        NoTripleSuffix(s, 1);
        CollapseRunsFixesClean(s[1..]);
        assert s == [s[0]] + s[1..];
      } else {
        var n := LeadingNewlines(s);
        assert n <= 2 by {
          if n >= 3 {
            assert TripleAt(s, 0);
          }
        }
        NoTripleSuffix(s, n);
        CollapseRunsFixesClean(s[n..]);
        assert CollapseRuns(s) == Newlines(n) + s[n..];
        assert s[..n] == Newlines(n);
        assert s == s[..n] + s[n..];
      }
    }
  }

  /** Text that is already clean is returned unchanged: the clean-up removes nothing it
      does not have to. */
  lemma CleanFixesClean(s: string)
    requires NoTripleNewline(s) && !EndsWithTwoNewlines(s)
    ensures Clean(s) == s
  {
    CollapseRunsFixesClean(s);
  }

  /** Cleaning twice is cleaning once. */
  lemma CleanIdempotent(s: string)
    ensures Clean(Clean(s)) == Clean(s)
  {
    CleanFixesClean(Clean(s));
  }

  /** Between two lines of text, a run of three or more newlines shrinks to one blank line,
      and a trailing run of two or more to a single newline. */
  lemma CleanRuns(x: char, k: nat, y: char, j: nat)
    requires x != '\n' && y != '\n' && k >= 3 && j >= 2
    ensures Clean([x] + (Newlines(k) + ([y] + Newlines(j)))) == [x] + Newlines(2) + [y] + "\n"
  {
    CollapseTwoLines(x, k, y, j);
    ConcatAssoc([x], Newlines(2), [y] + Newlines(2));
    ConcatAssoc([x] + Newlines(2), [y], Newlines(2));
    TrimRun([x] + Newlines(2) + [y], 2);
  }

  /** A trailing run of `n >= 2` newlines after other text becomes one newline. */
  lemma TrimRun(a: string, n: nat)
    requires |a| > 0 && a[|a| - 1] != '\n' && n >= 2
    ensures TrimTrailing(a + Newlines(n)) == a + "\n"
  {
    var s := a + Newlines(n);
    TrailingNewlinesOf(a, n);
    assert s[..|s| - n] == a;
  }

  /** The text `a`, four newlines, `b`, three newlines cleans to `a`, a blank line, `b` and one
      newline. */
  lemma CleanExample()
    ensures Clean("a\n\n\n\nb\n\n\n") == "a\n\nb\n"
  {
    CleanRuns('a', 4, 'b', 3);
    assert "a\n\n\n\nb\n\n\n" == ['a'] + (Newlines(4) + (['b'] + Newlines(3)));
    assert ['a'] + Newlines(2) + ['b'] + "\n" == "a\n\nb\n";
  }

  lemma CollapseTwoLines(x: char, k: nat, y: char, j: nat)
    requires x != '\n' && y != '\n' && k >= 3 && j >= 2
    ensures CollapseRuns([x] + (Newlines(k) + ([y] + Newlines(j)))) == [x] + (Newlines(2) + ([y] + Newlines(2)))
  {
    var t := [y] + Newlines(j);
    var u := Newlines(k) + t;
    CollapseLine(y, j);
    CollapseBlank(k, t);
    CollapseCons([x] + u);
    assert ([x] + u)[1..] == u;
  }

  /** A run of `k >= 3` newlines before a line shrinks to two. */
  lemma CollapseBlank(k: nat, t: string)
    requires k >= 3 && |t| > 0 && t[0] != '\n'
    ensures CollapseRuns(Newlines(k) + t) == Newlines(2) + CollapseRuns(t)
  {
    var u := Newlines(k) + t;
    LeadingNewlinesOf(k, t);
    assert u[k..] == t;
    CollapseRun(u);
  }

  /** A line ending in `j >= 2` newlines keeps two. */
  lemma CollapseLine(y: char, j: nat)
    requires y != '\n' && j >= 2
    ensures CollapseRuns([y] + Newlines(j)) == [y] + Newlines(2)
  {
    var t := [y] + Newlines(j);
    assert Newlines(j) + "" == Newlines(j);
    LeadingNewlinesOf(j, "");
    CollapseRun(Newlines(j));
    assert Newlines(j)[j..] == "";
    assert t[1..] == Newlines(j);
    CollapseCons(t);
  }

  /** A text ending in `n` newlines after a character that is not one. */
  lemma {:induction false} TrailingNewlinesOf(a: string, n: nat)
    requires |a| > 0 && a[|a| - 1] != '\n'
    ensures TrailingCount(a + Newlines(n), '\n') == n
    decreases n
  {
    if n > 0 {
      var s := a + Newlines(n);
      assert s[..|s| - 1] == a + Newlines(n - 1);
      TrailingNewlinesOf(a, n - 1);
    } else {
      assert a + Newlines(n) == a;
    }
  }

  lemma {:induction false} LeadingNewlinesOf(k: nat, t: string)
    requires |t| == 0 || t[0] != '\n'
    ensures LeadingNewlines(Newlines(k) + t) == k
    decreases k
  {
    if k > 0 {
      assert (Newlines(k) + t)[1..] == Newlines(k - 1) + t;
      LeadingNewlinesOf(k - 1, t);
    } else {
      assert Newlines(k) + t == t;
    }
  }

  lemma CollapseCons(s: string)
    requires |s| > 0 && s[0] != '\n'
    ensures CollapseRuns(s) == [s[0]] + CollapseRuns(s[1..])
  {
  }

  lemma CollapseRun(s: string)
    requires |s| > 0 && s[0] == '\n'
    ensures var n := LeadingNewlines(s);
      CollapseRuns(s) == Newlines(if n >= 3 then 2 else n) + CollapseRuns(s[n..])
  {
  }
}
