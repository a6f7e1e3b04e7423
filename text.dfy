/** The offset-based string helpers of the `.hub` namespace, over UTF-16
    text: a Dafny `string` is a sequence of UTF-16 code units, which is what
    NSString offsets count. Also the ASCII case folding that the
    case-insensitive matchers and lookups use. */
module Text {
  import opened Results

  const CRLF: string := "\r\n"

  /** An NSRange: a location and a length in UTF-16 code units. */
  datatype Range = Range(location: nat, length: nat) {
    function End(): nat { location + length }
  }

  predicate InBounds(s: string, r: Range) {
    r.location + r.length <= |s|
  }

  /** `range`: the range of the whole string. */
  function WholeRange(s: string): (r: Range)
    ensures r.location == 0 && r.length == |s|
    ensures InBounds(s, r) && SubstringWith(s, r) == s
  {
    Range(0, |s|)
  }

  /** `substring(from:)`: the text from offset `i` to the end. */
  function SubstringFrom(s: string, i: nat): (r: string)
    requires i <= |s|
    ensures |r| == |s| - i
    ensures forall k | 0 <= k < |r| :: r[k] == s[i + k]
  {
    s[i..]
  }

  /** `substring(to:)`: the first `i` code units. */
  function SubstringTo(s: string, i: nat): (r: string)
    requires i <= |s|
    ensures |r| == i
    ensures forall k | 0 <= k < i :: r[k] == s[k]
  {
    s[..i]
  }

  /** `substring(with:)`: the code units at `[location, location + length)`. */
  function SubstringWith(s: string, r: Range): (t: string)
    requires InBounds(s, r)
    ensures |t| == r.length
    ensures forall k | 0 <= k < r.length :: t[k] == s[r.location + k]
  {
    s[r.location..r.location + r.length]
  }

  /** `remove(with:)`: the text before the range followed by the text after it. */
  function Remove(s: string, r: Range): (t: string)
    requires InBounds(s, r)
    ensures |t| == |s| - r.length
    ensures forall k | 0 <= k < r.location :: t[k] == s[k]
    ensures forall k | r.location <= k < |t| :: t[k] == s[k + r.length]
  {
    SubstringTo(s, r.location) + SubstringFrom(s, r.location + r.length)
  }

  /** Splitting at any offset and concatenating gives the text back. */
  lemma SplitAt(s: string, i: nat)
    requires i <= |s|
    ensures SubstringTo(s, i) + SubstringFrom(s, i) == s
  {
  }

  /** Swift's `String.hasPrefix`, on code units. */
  predicate HasPrefix(s: string, p: string) {
    |p| <= |s| && s[..|p|] == p
  }

  /** Swift's `String.hasSuffix`, on code units. */
  predicate HasSuffix(s: string, p: string) {
    |p| <= |s| && s[|s| - |p|..] == p
  }

  /** `hasPrefix(_ prefixs:)`: the first list element that is a prefix
      answers true; an exhausted list answers false. */
  function HasPrefixAny(s: string, prefixes: seq<string>): (b: bool)
    ensures b <==> exists p :: p in prefixes && HasPrefix(s, p)
  {
    if prefixes == [] then false
    else if HasPrefix(s, prefixes[0]) then true
    else HasPrefixAny(s, prefixes[1..])
  }

  /** `hasSuffix(_ suffixs:)`: the same search, and it too asks `hasPrefix`
      of each element, so it answers whether some element is a PREFIX. */
  function HasSuffixAny(s: string, suffixes: seq<string>): (b: bool)
    ensures b <==> exists p :: p in suffixes && HasPrefix(s, p)
  {
    if suffixes == [] then false
    else if HasPrefix(s, suffixes[0]) then true
    else HasSuffixAny(s, suffixes[1..])
  }

  /** `hasSuffix(_:)` agrees with `hasPrefix(_:)` on every input, and so
      misses a genuine suffix: "X-FOO" ends with "FOO" but is refused. */
  lemma {:induction false} HasSuffixAnyTestsPrefixes(s: string, ps: seq<string>)
    ensures HasSuffixAny(s, ps) == HasPrefixAny(s, ps)
    ensures HasSuffix("X-FOO", "FOO") && !HasSuffixAny("X-FOO", ["FOO"])
  {
    if ps != [] {
      HasSuffixAnyTestsPrefixes(s, ps[1..]);
    }
    assert "X-FOO"[2..] == "FOO";
    assert "X-FOO"[..3] != "FOO" by { assert "X-FOO"[0] != "FOO"[0]; }
  }

  // ---- ASCII case folding (`uppercased()` restricted to ASCII) ----

  predicate IsLower(c: char) { 'a' <= c <= 'z' }

  function UpperChar(c: char): char {
    if IsLower(c) then (c as int - 32) as char else c
  }

  function Upper(s: string): (r: string)
    ensures |r| == |s|
    ensures forall i | 0 <= i < |s| :: r[i] == UpperChar(s[i])
  {
    seq(|s|, i requires 0 <= i < |s| => UpperChar(s[i]))
  }

  /** Name comparison of the lookups: `a.uppercased() == b.uppercased()`. */
  predicate SameIgnoringCase(a: string, b: string) {
    Upper(a) == Upper(b)
  }

  lemma UpperIdempotent(s: string)
    ensures Upper(Upper(s)) == Upper(s)
  {
  }

  /** A word without ASCII letters folds to itself. */
  predicate NoLetters(w: string) {
    forall i | 0 <= i < |w| :: !('a' <= w[i] <= 'z') && !('A' <= w[i] <= 'Z')
  }

  /** Folding both sides to compare with a letter-free word is plain equality. */
  lemma SameIgnoringCaseNoLetters(a: string, w: string)
    requires NoLetters(w)
    ensures SameIgnoringCase(a, w) <==> a == w
  {
    if SameIgnoringCase(a, w) {
      assert |a| == |w|;
      forall i | 0 <= i < |a| ensures a[i] == w[i] {
        assert UpperChar(a[i]) == UpperChar(w[i]);
        assert UpperChar(w[i]) == w[i];
      }
    }
  }

  // ---- the Foundation string operations the core calls ----

  /** `w` occurs verbatim at offset `i` of `s`. The model takes
      Foundation's `contains`, `replacingOccurrences(of:with:)` and
      `components(separatedBy:)` to compare code units literally, which is
      what they do on ASCII text. */
  predicate LiteralAt(s: string, i: nat, w: string) {
    i + |w| <= |s| && s[i..i + |w|] == w
  }

  /** `contains(_:)`. */
  predicate Contains(s: string, w: string) {
    exists i: nat | i <= |s| :: LiteralAt(s, i, w)
  }

  /** `replacingOccurrences(of: w, with: rep)`: occurrences are found left to
      right, and the search resumes after each replaced occurrence. */
  function ReplaceAll(s: string, w: string, rep: string): string
    decreases |s|
  {
    if w == [] || |s| < |w| then s
    else if s[..|w|] == w then rep + ReplaceAll(s[|w|..], w, rep)
    else [s[0]] + ReplaceAll(s[1..], w, rep)
  }

  /** Text without an occurrence comes back unchanged. */
  lemma {:induction false} ReplaceAbsent(s: string, w: string, rep: string)
    requires !Contains(s, w)
    ensures ReplaceAll(s, w, rep) == s
    decreases |s|
  {
    if w != [] && |s| >= |w| {
      assert !LiteralAt(s, 0, w);
      assert !Contains(s[1..], w) by {
        forall i: nat | LiteralAt(s[1..], i, w) ensures false {
          assert s[1..][i..i + |w|] == s[i + 1..i + 1 + |w|];
          assert LiteralAt(s, i + 1, w);
        }
      }
      ReplaceAbsent(s[1..], w, rep);
    }
  }

  /** A replacement no longer than what it replaces never lengthens the
      text, and a strictly shorter one strictly shortens any text that has
      an occurrence: what makes the collapsing loops terminate. */
  lemma {:induction false} ReplaceShrinks(s: string, w: string, rep: string)
    requires |rep| <= |w|
    ensures |ReplaceAll(s, w, rep)| <= |s|
    ensures |rep| < |w| && Contains(s, w) ==> |ReplaceAll(s, w, rep)| < |s|
  {
    ReplaceNoLonger(s, w, rep);
    if |rep| < |w| && Contains(s, w) {
      ReplaceShorter(s, w, rep);
    }
  }

  lemma {:induction false} ReplaceNoLonger(s: string, w: string, rep: string)
    requires |rep| <= |w|
    ensures |ReplaceAll(s, w, rep)| <= |s|
    decreases |s|
  {
    if w != [] && |s| >= |w| {
      if s[..|w|] == w {
        ReplaceNoLonger(s[|w|..], w, rep);
      } else {
        ReplaceNoLonger(s[1..], w, rep);
      }
    }
  }

  lemma {:induction false} ReplaceShorter(s: string, w: string, rep: string)
    requires |rep| < |w| && Contains(s, w)
    ensures |ReplaceAll(s, w, rep)| < |s|
    decreases |s|
  {
    var i: nat :| i <= |s| && LiteralAt(s, i, w);
    if s[..|w|] == w {
      ReplaceNoLonger(s[|w|..], w, rep);
    } else {
      OccurrenceAfterHead(s, w, i);
      ReplaceShorter(s[1..], w, rep);
    }
  }

  /** An occurrence that is not at the start is an occurrence in the tail. */
  lemma OccurrenceAfterHead(s: string, w: string, i: nat)
    requires LiteralAt(s, i, w) && |w| <= |s| && s[..|w|] != w
    ensures Contains(s[1..], w)
  {
    assert s[..|w|] == s[0..|w|];
    assert i > 0;
    assert s[1..][i - 1..i - 1 + |w|] == s[i..i + |w|];
    assert LiteralAt(s[1..], i - 1, w);
  }

  /** When the first occurrence of `w` in `x + w + y` is the one after `x`,
      the replacement keeps `x`, puts `rep` in its place and carries on
      in `y`. */
  lemma {:induction false} ReplaceFirstOccurrence(x: string, w: string, rep: string, y: string)
    requires w != []
    requires forall i: nat | i < |x| :: !LiteralAt(x + w + y, i, w)
    ensures ReplaceAll(x + w + y, w, rep) == x + rep + ReplaceAll(y, w, rep)
    decreases |x|
  {
    var s := x + w + y;
    if x == [] {
      assert s == w + y && s[..|w|] == w && s[|w|..] == y;
    } else {
      assert s[..|w|] != w by {
        assert !LiteralAt(s, 0, w);
        assert s[..|w|] == s[0..|w|];
      }
      var t := x[1..] + w + y;
      assert s[1..] == t;
      NoOccurrenceAfterFirst(x, w, y);
      ReplaceFirstOccurrence(x[1..], w, rep, y);
      calc {
        ReplaceAll(s, w, rep);
        [s[0]] + ReplaceAll(t, w, rep);
        [x[0]] + (x[1..] + rep + ReplaceAll(y, w, rep));
        { assert [x[0]] + x[1..] == x; }
        x + rep + ReplaceAll(y, w, rep);
      }
    }
  }

  lemma NoOccurrenceAfterFirst(x: string, w: string, y: string)
    requires x != []
    requires forall i: nat | i < |x| :: !LiteralAt(x + w + y, i, w)
    ensures forall i: nat | i < |x[1..]| :: !LiteralAt(x[1..] + w + y, i, w)
  {
    var s := x + w + y;
    var t := x[1..] + w + y;
    assert s[1..] == t;
    forall i: nat | i < |x[1..]| ensures !LiteralAt(t, i, w) {
      assert !LiteralAt(s, i + 1, w);
      if i + |w| <= |t| {
        assert t[i..i + |w|] == s[i + 1..i + 1 + |w|];
      }
    }
  }

  /** `components(separatedBy: [c])`: the pieces between the separators,
      empty pieces kept, always at least one. */
  function Split(s: string, c: char): (parts: seq<string>)
    ensures |parts| >= 1
    ensures forall k | 0 <= k < |parts| :: c !in parts[k]
  {
    if s == [] then [[]]
    else
      var rest := Split(s[1..], c);
      if s[0] == c then [[]] + rest
      else [[s[0]] + rest[0]] + rest[1..]
  }

  /** `joined(separator:)`, the inverse of splitting. */
  function Join(parts: seq<string>, sep: string): string {
    if |parts| == 0 then []
    else if |parts| == 1 then parts[0]
    else parts[0] + sep + Join(parts[1..], sep)
  }

  /** Splitting loses nothing: joining the pieces with the separator gives
      the text back. */
  lemma {:induction false} JoinSplit(s: string, c: char)
    ensures Join(Split(s, c), [c]) == s
  {
    if s != [] {
      var rest := Split(s[1..], c);
      JoinSplit(s[1..], c);
      if s[0] != c {
        assert Split(s, c) == [[s[0]] + rest[0]] + rest[1..];
        if |rest| > 1 {
          assert Join(rest, [c]) == rest[0] + [c] + Join(rest[1..], [c]);
        }
      }
    }
  }

  /** Joining separator-free pieces and splitting gives the pieces back. */
  lemma {:induction false} SplitJoin(parts: seq<string>, c: char)
    requires |parts| >= 1
    requires forall k | 0 <= k < |parts| :: c !in parts[k]
    ensures Split(Join(parts, [c]), c) == parts
  {
    if |parts| == 1 {
      SplitFree(parts[0], c);
    } else {
      SplitJoin(parts[1..], c);
      SplitAround(parts[0], c, Join(parts[1..], [c]));
    }
  }

  /** Text without the separator is a single piece. */
  lemma {:induction false} SplitFree(s: string, c: char)
    requires c !in s
    ensures Split(s, c) == [s]
  {
    if s != [] {
      SplitFree(s[1..], c);
      assert s[0] != c;
      assert [s[0]] + s[1..] == s;
    }
  }

  /** A separator-free head is the first piece of `head + [c] + tail`. */
  lemma {:induction false} SplitAround(head: string, c: char, tail: string)
    requires c !in head
    ensures Split(head + [c] + tail, c) == [head] + Split(tail, c)
  {
    var s := head + [c] + tail;
    if head != [] {
      assert s[1..] == head[1..] + [c] + tail;
      SplitAround(head[1..], c, tail);
      assert [head[0]] + head[1..] == head;
    }
  }

  /** The pieces of a one-line text are one-line texts. */
  lemma {:induction false} SplitOneLine(s: string, c: char)
    requires OneLine(s)
    ensures forall k | 0 <= k < |Split(s, c)| :: OneLine(Split(s, c)[k])
  {
    if s != [] {
      SplitOneLine(s[1..], c);
      var rest := Split(s[1..], c);
      if s[0] != c {
        var first := [s[0]] + rest[0];
        assert OneLine(first) by {
          forall i | 0 <= i < |first| ensures first[i] != '\r' && first[i] != '\n' {
            if i > 0 {
              assert first[i] == rest[0][i - 1];
            }
          }
        }
      }
    }
  }

  /** Text on one physical line: no CR and no LF. */
  predicate OneLine(x: string) {
    forall i | 0 <= i < |x| :: x[i] != '\r' && x[i] != '\n'
  }

  /** An occurrence inside the right operand of a concatenation is an
      occurrence at the shifted offset. */
  lemma LiteralAtShift(x: string, y: string, i: nat, w: string)
    ensures LiteralAt(x + y, |x| + i, w) <==> LiteralAt(y, i, w)
  {
    if i + |w| <= |y| {
      assert (x + y)[|x| + i..|x| + i + |w|] == y[i..i + |w|];
    }
  }

  /** In `x + CRLF + y` with no CRLF in `x`, the first CRLF is the one
      after `x`: a CR ending `x` is followed by another CR. */
  lemma NoEarlierCRLF(x: string, y: string)
    requires !Contains(x, CRLF)
    ensures forall i: nat | i < |x| :: !LiteralAt(x + CRLF + y, i, CRLF)
  {
    var s := x + CRLF + y;
    forall i: nat | i < |x| ensures !LiteralAt(s, i, CRLF) {
      if i + 2 <= |s| {
        assert s[i..i + 2][0] == s[i] && s[i..i + 2][1] == s[i + 1];
        if i + 1 < |x| {
          assert x[i..i + 2] == s[i..i + 2];
          assert !LiteralAt(x, i, CRLF);
        } else {
          assert s[i + 1] == '\r';
        }
      }
    }
  }

  /** Text on one line holds no CRLF. */
  lemma OneLineHasNoCRLF(x: string)
    requires OneLine(x)
    ensures !Contains(x, CRLF)
  {
    forall i: nat | i <= |x| ensures !LiteralAt(x, i, CRLF) {
      if i + 2 <= |x| {
        assert x[i..i + 2][0] == x[i];
      }
    }
  }
}
