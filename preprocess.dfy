/** The preprocessing that `CKSerialization.init` applies to the decoded
    file text before any parsing: collapse runs of spaces, unfold
    continuation lines (section 3.1 of RFC 5545, space continuations only),
    collapse blank lines, and double every CRLF so that each content line is
    bounded by a CRLF on both sides. */
module Preprocess {
  import opened Text

  const DoubleSpace: string := "  "
  const BlankLine: string := "\r\n\r\n"

  /** The first loop: halve every double space until none is left. */
  function CollapseSpaces(s: string): (r: string)
    decreases |s|
    ensures !Contains(r, DoubleSpace)
    ensures |r| <= |s|
    ensures !Contains(s, DoubleSpace) ==> r == s
  {
    if Contains(s, DoubleSpace) then
      ReplaceShrinks(s, DoubleSpace, " ");
      CollapseSpaces(ReplaceAll(s, DoubleSpace, " "))
    else s
  }

  /** The two unfolding replacements: every CRLF followed by a space is
      deleted, then every remaining LF followed by a space. */
  function Unfold(s: string): string {
    ReplaceAll(ReplaceAll(s, "\r\n ", ""), "\n ", "")
  }

  /** The blank-line loop: replace every CRLF CRLF by one CRLF until none
      is left. */
  function CollapseBlankLines(s: string): (r: string)
    decreases |s|
    ensures !Contains(r, BlankLine)
    ensures |r| <= |s|
    ensures !Contains(s, BlankLine) ==> r == s
  {
    if Contains(s, BlankLine) then
      ReplaceShrinks(s, BlankLine, CRLF);
      CollapseBlankLines(ReplaceAll(s, BlankLine, CRLF))
    else s
  }

  /** The last step: every CRLF becomes two. */
  function DoubleLines(s: string): string {
    ReplaceAll(s, CRLF, CRLF + CRLF)
  }

  /** The whole preprocessing, step by step as the initializer runs it. */
  function Preprocessed(s: string): string {
    DoubleLines(CollapseBlankLines(Unfold(CollapseSpaces(s))))
  }

  /** The preprocessing loops of the initializer, over the local text. */
  method Preprocess(text: string) returns (value: string)
    ensures value == Preprocessed(text)
  {
    value := text;
    while Contains(value, DoubleSpace)
      invariant CollapseSpaces(value) == CollapseSpaces(text)
      decreases |value|
    {
      ReplaceShrinks(value, DoubleSpace, " ");
      value := ReplaceAll(value, DoubleSpace, " ");
    }
    value := ReplaceAll(value, "\r\n ", "");
    value := ReplaceAll(value, "\n ", "");
    ghost var unfolded := value;
    while Contains(value, BlankLine)
      invariant CollapseBlankLines(value) == CollapseBlankLines(unfolded)
      decreases |value|
    {
      ReplaceShrinks(value, BlankLine, CRLF);
      value := ReplaceAll(value, BlankLine, CRLF);
    }
    value := ReplaceAll(value, CRLF, CRLF + CRLF);
  }

  // ---- what unfolding does to a single fold ----

  lemma OneLineHasNoBreak(x: string, w: string)
    requires OneLine(x) && w != [] && (w[0] == '\r' || w[0] == '\n')
    ensures !Contains(x, w)
  {
    forall i: nat | i <= |x| ensures !LiteralAt(x, i, w) {
      if i + |w| <= |x| {
        assert x[i..i + |w|][0] == x[i];
      }
    }
  }

  /** A line folded with CRLF and a space is spliced back together. */
  lemma {:induction false} UnfoldSplicesSpaceFold(x: string, y: string)
    requires OneLine(x) && OneLine(y)
    ensures Unfold(x + "\r\n " + y) == x + y
  {
    var w := "\r\n ";
    var s := x + w + y;
    forall i: nat | i < |x| ensures !LiteralAt(s, i, w) {
      assert s[i] == x[i];
      if i + |w| <= |s| {
        assert s[i..i + |w|][0] == s[i];
      }
    }
    ReplaceFirstOccurrence(x, w, "", y);
    OneLineHasNoBreak(y, w);
    ReplaceAbsent(y, w, "");
    assert ReplaceAll(s, w, "") == x + y;
    assert OneLine(x + y);
    OneLineHasNoBreak(x + y, "\n ");
    ReplaceAbsent(x + y, "\n ", "");
  }

  /** A line folded with CRLF and a TAB is left as it is: only space
      continuations are unfolded. */
  lemma {:induction false} UnfoldKeepsTabFold(x: string, y: string)
    requires OneLine(x) && OneLine(y)
    ensures Unfold(x + "\r\n\t" + y) == x + "\r\n\t" + y
  {
    var s := x + "\r\n\t" + y;
    forall i: nat | i <= |s| ensures !LiteralAt(s, i, "\r\n ") {
      if i + 3 <= |s| {
        assert s[i..i + 3][0] == s[i] && s[i..i + 3][2] == s[i + 2];
        if i < |x| {
          assert s[i] == x[i];
        } else if i == |x| {
          assert s[i + 2] == '\t';
        } else {
          assert s[i] == (if i < |x| + 3 then "\r\n\t"[i - |x|] else y[i - |x| - 3]);
        }
      }
    }
    ReplaceAbsent(s, "\r\n ", "");
    forall i: nat | i <= |s| ensures !LiteralAt(s, i, "\n ") {
      if i + 2 <= |s| {
        assert s[i..i + 2][0] == s[i] && s[i..i + 2][1] == s[i + 1];
        if i < |x| {
          assert s[i] == x[i];
        } else if i == |x| + 1 {
          assert s[i + 1] == '\t';
        } else if i != |x| {
          assert s[i] == (if i < |x| + 3 then "\r\n\t"[i - |x|] else y[i - |x| - 3]);
        }
      }
    }
    ReplaceAbsent(s, "\n ", "");
  }

  // ---- what doubling does to the lines ----

  /** A line of the collapsed text: it holds no CRLF. */
  predicate NoCRLF(l: string) {
    !Contains(l, CRLF)
  }

  /** Doubling the CRLFs of lines joined by CRLF joins the same lines with
      CRLF CRLF: every line is then preceded and followed by its own CRLF
      boundary, which the record pattern needs. */
  lemma {:induction false} DoubleLinesJoin(lines: seq<string>)
    requires forall k | 0 <= k < |lines| :: NoCRLF(lines[k])
    ensures DoubleLines(Join(lines, CRLF)) == Join(lines, CRLF + CRLF)
  {
    if |lines| == 1 {
      ReplaceAbsent(lines[0], CRLF, CRLF + CRLF);
    } else if |lines| > 1 {
      var l, rest := lines[0], Join(lines[1..], CRLF);
      NoEarlierCRLF(l, rest);
      ReplaceFirstOccurrence(l, CRLF, CRLF + CRLF, rest);
      DoubleLinesJoin(lines[1..]);
    }
  }
}
