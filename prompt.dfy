/**
 * The completion prompt: a transcript of a shell session that stages all
 * changes, shows the staged diff, shows only its lines that start with `+` or
 * `-` (the added and removed lines, and the `---`/`+++` file headers), and
 * stops inside an unterminated `git commit -m "` so that the completion
 * continues the commit message.
 */
module Prompt {
  import opened Text

  const AddCommand := "$ git add --all"
  const DiffCommand := "$ git diff --cached"
  const FilterCommand := "$ git diff --cached -U0 | grep '^[+-]'"
  const CommitCommand := "$ git commit -m \""

  /** Everything the prompt holds before the diff. */
  const Header := AddCommand + "\n\n" + DiffCommand + "\n"
  /** What separates the diff from its filtered view. */
  const Middle := "\n\n" + FilterCommand + "\n"
  /** What separates the filtered view from the prefix. */
  const Footer := "\n\n" + CommitCommand

  /** `line.startsWith('+') || line.startsWith('-')`. */
  predicate IsChangedLine(line: string) {
    |line| > 0 && (line[0] == '+' || line[0] == '-')
  }

  /** No line passes the filter. */
  predicate NoChangedLine(lines: seq<string>) {
    forall i :: 0 <= i < |lines| ==> !IsChangedLine(lines[i])
  }

  /** The lines that pass the filter, in their original order. */
  function ChangedLines(lines: seq<string>): (r: seq<string>)
    ensures |r| <= |lines|
    ensures forall i :: 0 <= i < |r| ==> IsChangedLine(r[i])
  {
    if lines == [] then []
    else (if IsChangedLine(lines[0]) then [lines[0]] else []) + ChangedLines(lines[1..])
  }

  /** The filtered view of the diff: split on newlines, keep the changed
      lines, join them back with newlines. */
  function FilterChangedLines(diff: string): string {
    Join(ChangedLines(Split(diff, '\n')), '\n')
  }

  /** The nine lines of the prompt template, in order. */
  function PromptLines(diff: string, prefix: string): seq<string> {
    [ AddCommand, "", DiffCommand, diff, "", FilterCommand,
      FilterChangedLines(diff), "", CommitCommand + prefix ]
  }

  /** The prompt: the template lines joined with newlines. */
  function BuildPrompt(diff: string, prefix: string): string {
    Join(PromptLines(diff, prefix), '\n')
  }

  /** Filtering a concatenation filters each part: the filter neither reorders
      nor mixes lines. */
  lemma {:induction false} ChangedLinesAppend(a: seq<string>, b: seq<string>)
    ensures ChangedLines(a + b) == ChangedLines(a) + ChangedLines(b)
  {
    if a != [] {
      ChangedLinesAppend(a[1..], b);
      assert (a + b)[1..] == a[1..] + b;
    } else {
      assert a + b == b;
    }
  }

  /** A line survives the filter exactly when it occurs in the input and is a
      changed line. */
  lemma {:induction false} ChangedLinesMembers(lines: seq<string>, x: string)
    ensures x in ChangedLines(lines) <==> x in lines && IsChangedLine(x)
  {
    if lines != [] {
      ChangedLinesMembers(lines[1..], x);
      assert lines == [lines[0]] + lines[1..];
    }
  }

  /** Each changed line keeps its multiplicity; every other line is dropped. */
  lemma {:induction false} ChangedLinesCount(lines: seq<string>, x: string)
    ensures multiset(ChangedLines(lines))[x] == if IsChangedLine(x) then multiset(lines)[x] else 0
  {
    if lines != [] {
      ChangedLinesCount(lines[1..], x);
      assert lines == [lines[0]] + lines[1..];
    }
  }

  /** The filter keeps a list whose every line is a changed line. */
  lemma {:induction false} ChangedLinesKeepsAll(lines: seq<string>)
    requires forall i :: 0 <= i < |lines| ==> IsChangedLine(lines[i])
    ensures ChangedLines(lines) == lines
  {
    if lines != [] {
      ChangedLinesKeepsAll(lines[1..]);
    }
  }

  /** A join of changed lines is empty only when there are no lines. */
  lemma JoinChangedLinesEmpty(lines: seq<string>)
    requires forall i :: 0 <= i < |lines| ==> IsChangedLine(lines[i])
    ensures Join(lines, '\n') == [] <==> lines == []
  {
  }

  /** The filtered section is empty exactly when no line of the diff is a
      changed line; otherwise its lines are exactly the diff's changed lines. */
  lemma FilteredSectionLines(diff: string)
    ensures FilterChangedLines(diff) == [] <==> NoChangedLine(Split(diff, '\n'))
    ensures FilterChangedLines(diff) != [] ==>
      Split(FilterChangedLines(diff), '\n') == ChangedLines(Split(diff, '\n'))
  {
    var lines := Split(diff, '\n');
    var kept := ChangedLines(lines);
    JoinChangedLinesEmpty(kept);
    if kept == [] {
      forall i | 0 <= i < |lines| ensures !IsChangedLine(lines[i]) {
        assert lines[i] in lines;
        ChangedLinesMembers(lines, lines[i]);
      }
      assert FilterChangedLines(diff) == Join(kept, '\n') == [];
    } else {
      ChangedLinesMembers(lines, kept[0]);
      var j :| 0 <= j < |lines| && lines[j] == kept[0];
      assert IsChangedLine(lines[j]);
      assert FilterChangedLines(diff) == Join(kept, '\n') != [];
      forall i | 0 <= i < |kept| ensures '\n' !in kept[i] {
        assert kept[i] in kept;
        ChangedLinesMembers(lines, kept[i]);
      }
      SplitJoin(kept, '\n');
    }
  }

  /** Filtering the filtered text changes nothing. */
  lemma FilterIdempotent(diff: string)
    ensures FilterChangedLines(FilterChangedLines(diff)) == FilterChangedLines(diff)
  {
    var f := FilterChangedLines(diff);
    FilteredSectionLines(diff);
    if f == [] {
      assert Split(f, '\n') == [[]];
      assert ChangedLines([[]]) == [];
    } else {
      ChangedLinesKeepsAll(ChangedLines(Split(diff, '\n')));
    }
  }

  /** The example diff splits into its three lines. */
  lemma SplitExample(added: string, removed: string, context: string)
    requires '\n' !in added && '\n' !in removed && '\n' !in context
    ensures Split(added + "\n" + removed + "\n" + context, '\n') == [added, removed, context]
  {
    var nl := '\n';
    assert added + "\n" + removed + "\n" + context == added + [nl] + (removed + [nl] + context);
    SplitAfterPiece(context, [], nl);
    SplitAfterPiece(removed, context, nl);
    SplitAfterPiece(added, removed + [nl] + context, nl);
  }

  /** Of an added, a removed and a context line, the filter keeps the first two. */
  lemma ChangedLinesExample(added: string, removed: string, context: string)
    requires IsChangedLine(added) && IsChangedLine(removed) && !IsChangedLine(context)
    ensures ChangedLines([added, removed, context]) == [added, removed]
  {
    assert [added, removed, context][1..] == [removed, context];
    assert [removed, context][1..] == [context];
    assert [context][1..] == [];
    assert ChangedLines([context]) == [] + ChangedLines([]) == [];
    assert ChangedLines([removed, context]) == [removed] + ChangedLines([context]) == [removed];
    assert ChangedLines([added, removed, context]) == [added] + ChangedLines([removed, context]);
  }

  /** A diff with an added, a removed and a context line keeps the first two. */
  lemma FilterExample()
    ensures FilterChangedLines("+foo\n-bar\n context") == "+foo\n-bar"
  {
    var added, removed, context := "+foo", "-bar", " context";
    assert "+foo\n-bar\n context" == added + "\n" + removed + "\n" + context;
    SplitExample(added, removed, context);
    ChangedLinesExample(added, removed, context);
    assert Join([added, removed], '\n') == "+foo\n-bar";
  }

  /** Joining a line in front of at least one more line puts one separator
      after it. */
  lemma JoinCons(line: string, rest: seq<string>, sep: char)
    requires |rest| >= 1
    ensures Join([line] + rest, sep) == line + ([sep] + Join(rest, sep))
  {
  }

  /** The nine template lines joined, written out as one right-nested
      concatenation. */
  lemma JoinNine(l0: string, l1: string, l2: string, l3: string, l4: string,
                 l5: string, l6: string, l7: string, l8: string)
    ensures var nl := "\n";
      Join([l0, l1, l2, l3, l4, l5, l6, l7, l8], '\n')
      == l0 + (nl + (l1 + (nl + (l2 + (nl + (l3 + (nl + (l4 + (nl
         + (l5 + (nl + (l6 + (nl + (l7 + (nl + l8)))))))))))))))
  {
    var nl := '\n';
    var t8 := [l8];
    var t7 := [l7] + t8;
    var t6 := [l6] + t7;
    var t5 := [l5] + t6;
    var t4 := [l4] + t5;
    var t3 := [l3] + t4;
    var t2 := [l2] + t3;
    var t1 := [l1] + t2;
    var t0 := [l0] + t1;
    JoinCons(l7, t8, nl);
    JoinCons(l6, t7, nl);
    JoinCons(l5, t6, nl);
    JoinCons(l4, t5, nl);
    JoinCons(l3, t4, nl);
    JoinCons(l2, t3, nl);
    JoinCons(l1, t2, nl);
    JoinCons(l0, t1, nl);
    assert t0 == [l0, l1, l2, l3, l4, l5, l6, l7, l8];
  }

  // The three layout lemmas below only guide the rewriting in `Layout`: each
  // regroups the joined template lines around one constant, stated over
  // parameters so that the solver does not unfold the constant strings.

  /** The template lines before the diff, with `add` and `show` for the two
      commands. */
  lemma HeaderLayout(add: string, show: string, x: string)
    ensures add + ("\n" + ("" + ("\n" + (show + ("\n" + x))))) == (add + "\n\n" + show + "\n") + x
  {
  }

  /** The template lines between the diff and its filtered view. */
  lemma MiddleLayout(filter: string, y: string)
    ensures "\n" + ("" + ("\n" + (filter + ("\n" + y)))) == ("\n\n" + filter + "\n") + y
  {
  }

  /** The template lines after the filtered view. */
  lemma FooterLayout(commit: string, prefix: string)
    ensures "\n" + ("" + ("\n" + (commit + prefix))) == ("\n\n" + commit) + prefix
  {
  }

  /** The file header lines `---` and `+++` start with `-` and `+`, so they
      pass the filter along with the added and removed lines; the hunk header
      does not. */
  lemma FilterKeepsFileHeaders()
    ensures ChangedLines(["--- a/f", "+++ b/f", "@@ -1 +1 @@", "-x", "+y"])
         == ["--- a/f", "+++ b/f", "-x", "+y"]
  {
  }

  /** The prompt written out as one concatenation. */
  lemma Layout(diff: string, prefix: string)
    ensures BuildPrompt(diff, prefix)
         == Header + (diff + (Middle + (FilterChangedLines(diff) + (Footer + prefix))))
  {
    var f := FilterChangedLines(diff);
    JoinNine(AddCommand, "", DiffCommand, diff, "", FilterCommand, f, "", CommitCommand + prefix);
    FooterLayout(CommitCommand, prefix);
    MiddleLayout(FilterCommand, f + (Footer + prefix));
    HeaderLayout(AddCommand, DiffCommand, diff + (Middle + (f + (Footer + prefix))));
  }

  /** `s.startsWith(t)`. */
  predicate StartsWith(s: string, t: string) {
    |s| >= |t| && s[..|t|] == t
  }

  /** `s.endsWith(t)`. */
  predicate EndsWith(s: string, t: string) {
    |s| >= |t| && s[|s| - |t|..] == t
  }

  lemma EndsWithAppend(a: string, b: string, t: string)
    requires EndsWith(b, t)
    ensures EndsWith(a + b, t)
  {
  }

  lemma StartsWithAppend(a: string, b: string, t: string)
    requires StartsWith(b, t)
    ensures StartsWith(a + b, a + t)
  {
  }

  /** The prompt opens with the fixed header followed by the whole diff,
      unaltered, and then a newline: nothing is truncated. */
  lemma PromptBeginsWithDiff(diff: string, prefix: string)
    ensures var p := BuildPrompt(diff, prefix);
      && StartsWith(p, Header + diff + "\n")
      && p[|Header|..|Header| + |diff|] == diff
  {
    Layout(diff, prefix);
    var f := FilterChangedLines(diff);
    var rest := Middle + (f + (Footer + prefix));
    assert StartsWith(rest, "\n");
    StartsWithAppend(diff, rest, "\n");
    StartsWithAppend(Header, diff + rest, diff + "\n");
    assert Header + (diff + "\n") == Header + diff + "\n";
  }

  /** The prompt closes with the open commit command and the prefix, and
      nothing after it: no closing quote, no trailing newline. */
  lemma PromptEndsWithOpenCommit(diff: string, prefix: string)
    ensures EndsWith(BuildPrompt(diff, prefix), CommitCommand + prefix)
  {
    Layout(diff, prefix);
    var f := FilterChangedLines(diff);
    var tail := CommitCommand + prefix;
    assert Footer + prefix == "\n\n" + tail;
    assert EndsWith(tail, tail);
    EndsWithAppend("\n\n", tail, tail);
    EndsWithAppend(f, Footer + prefix, tail);
    EndsWithAppend(Middle, f + (Footer + prefix), tail);
    EndsWithAppend(diff, Middle + (f + (Footer + prefix)), tail);
    EndsWithAppend(Header, diff + (Middle + (f + (Footer + prefix))), tail);
  }

  /** Between the filter command and the closing blank line sits exactly the
      filtered view of the diff. */
  lemma PromptHoldsFilteredSection(diff: string, prefix: string)
    ensures var p := BuildPrompt(diff, prefix);
      var start := |Header| + |diff| + |Middle|;
      var f := FilterChangedLines(diff);
      && |p| >= start + |f|
      && p[start..start + |f|] == f
  {
    Layout(diff, prefix);
  }
}
