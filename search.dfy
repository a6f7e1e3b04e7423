/** The fixed regular expressions of the core, as explicit search functions.
    Every pattern is compiled with `.caseInsensitive`, so literals compare
    after ASCII folding. The record, extension and block patterns all have
    the shape `(H1|H2|...)([\s\S]*?)T`: a head literal, the shortest run of
    anything, and a tail literal; matches are leftmost, shortest and
    non-overlapping, and a match covers both the head and the tail. */
module Search {
  import opened Results
  import opened Text

  /** `w` occurs at offset `i` of `s`, ignoring ASCII case. */
  predicate OccursAt(s: string, i: nat, w: string) {
    i + |w| <= |s| && SameIgnoringCase(s[i..i + |w|], w)
  }

  /** The first offset at or after `from` where `w` occurs: what a lazy
      `[\s\S]*?` followed by the literal `w` settles on. */
  function NextOccurrence(s: string, from: nat, w: string): (r: Option<nat>)
    decreases |s| - from
    ensures r.Some? ==> from <= r.value && OccursAt(s, r.value, w)
    ensures r.Some? ==> forall q | from <= q < r.value :: !OccursAt(s, q, w)
    ensures r.None? ==> forall q | from <= q :: !OccursAt(s, q, w)
  {
    if from + |w| > |s| then None
    else if OccursAt(s, from, w) then Some(from)
    else NextOccurrence(s, from + 1, w)
  }

  /** `(H1|H2|...)([\s\S]*?)T` with heads `H1, H2, ...` and tail `T`. */
  datatype Pattern = Pattern(heads: seq<string>, tail: string)

  /** The head alternative `h` matches at `p` and a tail follows it. */
  predicate HeadFits(s: string, p: nat, h: string, tail: string) {
    OccursAt(s, p, h) && NextOccurrence(s, p + |h|, tail).Some?
  }

  /** The match that starts exactly at `p`, if any: the alternatives are
      tried in order, and the first head that is followed by a tail wins,
      with the nearest tail. */
  function MatchAtHeads(s: string, p: nat, heads: seq<string>, tail: string): (r: Option<Range>)
    ensures r.Some? ==> r.value.location == p && InBounds(s, r.value) && r.value.length >= |tail|
  {
    if heads == [] then None
    else if HeadFits(s, p, heads[0], tail) then
      Some(Range(p, NextOccurrence(s, p + |heads[0]|, tail).value + |tail| - p))
    else MatchAtHeads(s, p, heads[1..], tail)
  }

  /** No match starts at `p` exactly when no head alternative fits there. */
  lemma {:induction false} NoMatchIffNoHeadFits(s: string, p: nat, heads: seq<string>, tail: string)
    ensures MatchAtHeads(s, p, heads, tail).None? <==>
              forall k | 0 <= k < |heads| :: !HeadFits(s, p, heads[k], tail)
  {
    if heads != [] && !HeadFits(s, p, heads[0], tail) {
      NoMatchIffNoHeadFits(s, p, heads[1..], tail);
      assert forall k | 1 <= k < |heads| :: heads[k] == heads[1..][k - 1];
    }
  }

  /** The first fitting alternative decides the match, which ends right
      after the nearest tail that follows that alternative. */
  lemma {:induction false} FirstFittingHeadDecides(s: string, p: nat, heads: seq<string>, tail: string, k: nat)
    requires k < |heads| && HeadFits(s, p, heads[k], tail)
    requires forall j | 0 <= j < k :: !HeadFits(s, p, heads[j], tail)
    ensures MatchAtHeads(s, p, heads, tail)
            == Some(Range(p, NextOccurrence(s, p + |heads[k]|, tail).value + |tail| - p))
  {
    if k > 0 {
      assert heads[1..][k - 1] == heads[k];
      assert forall j | 0 <= j < k - 1 :: heads[1..][j] == heads[j + 1];
      FirstFittingHeadDecides(s, p, heads[1..], tail, k - 1);
    }
  }

  function MatchAt(s: string, p: nat, pat: Pattern): Option<Range> {
    MatchAtHeads(s, p, pat.heads, pat.tail)
  }

  /** `firstMatch` from offset `from` on: the leftmost start that matches. */
  function FirstMatch(s: string, pat: Pattern, from: nat): (r: Option<Range>)
    decreases |s| + 1 - from
    ensures r.Some? ==> from <= r.value.location && MatchAt(s, r.value.location, pat) == r
    ensures r.Some? ==> InBounds(s, r.value)
    ensures r.Some? ==> forall p | from <= p < r.value.location :: MatchAt(s, p, pat).None?
    ensures r.None? ==> forall p | from <= p :: MatchAt(s, p, pat).None?
  {
    if from > |s| then None
    else if MatchAt(s, from, pat).Some? then MatchAt(s, from, pat)
    else FirstMatch(s, pat, from + 1)
  }

  /** A match always consumes its tail, so scanning makes progress. */
  predicate ValidPattern(pat: Pattern) {
    |pat.tail| > 0
  }

  /** `matches(in:)` from offset `from` on: leftmost matches, the next search
      resuming where the previous match ended, so they do not overlap. */
  function AllMatchesFrom(s: string, pat: Pattern, from: nat): (rs: seq<Range>)
    requires ValidPattern(pat)
    decreases |s| + 1 - from
    ensures forall i | 0 <= i < |rs| :: InBounds(s, rs[i]) && from <= rs[i].location
    ensures forall i, j | 0 <= i < j < |rs| :: rs[i].End() <= rs[j].location
  {
    match FirstMatch(s, pat, from)
    case None => []
    case Some(r) =>
      var rest := AllMatchesFrom(s, pat, r.End());
      var rs := [r] + rest;
      rs
  }

  /** All matches of `pat` in `s`, in document order. */
  function Matches(s: string, pat: Pattern): (rs: seq<Range>)
    requires ValidPattern(pat)
  {
    AllMatchesFrom(s, pat, 0)
  }

  /** The scan starts with the first match, and is empty exactly when there
      is none. */
  lemma ScanStartsAtFirstMatch(s: string, pat: Pattern, from: nat)
    requires ValidPattern(pat)
    ensures AllMatchesFrom(s, pat, from) == [] <==> FirstMatch(s, pat, from).None?
    ensures AllMatchesFrom(s, pat, from) != [] ==> FirstMatch(s, pat, from) == Some(AllMatchesFrom(s, pat, from)[0])
  {
  }

  /** Every range the scan reports is a match starting at its location. */
  lemma {:induction false} ScanYieldsMatches(s: string, pat: Pattern, from: nat)
    requires ValidPattern(pat)
    ensures forall i | 0 <= i < |AllMatchesFrom(s, pat, from)| ::
              MatchAt(s, AllMatchesFrom(s, pat, from)[i].location, pat) == Some(AllMatchesFrom(s, pat, from)[i])
    decreases |s| + 1 - from
  {
    var rs := AllMatchesFrom(s, pat, from);
    if rs != [] {
      var r := FirstMatch(s, pat, from).value;
      var rest := AllMatchesFrom(s, pat, r.End());
      assert rs == [r] + rest;
      ScanYieldsMatches(s, pat, r.End());
      forall i | 0 <= i < |rs| ensures MatchAt(s, rs[i].location, pat) == Some(rs[i]) {
        if i > 0 {
          assert rs[i] == rest[i - 1];
        }
      }
    }
  }

  /** No match starts in a gap between two consecutive reported matches,
      nor before the first one: the scan is leftmost. */
  lemma {:induction false} ScanIsLeftmost(s: string, pat: Pattern, from: nat, i: nat, p: nat)
    requires ValidPattern(pat)
    requires i < |AllMatchesFrom(s, pat, from)|
    requires (if i == 0 then from else AllMatchesFrom(s, pat, from)[i - 1].End()) <= p
    requires p < AllMatchesFrom(s, pat, from)[i].location
    ensures MatchAt(s, p, pat).None?
    decreases i
  {
    var rs := AllMatchesFrom(s, pat, from);
    var r := FirstMatch(s, pat, from).value;
    var rest := AllMatchesFrom(s, pat, r.End());
    assert rs == [r] + rest;
    if i > 0 {
      assert rs[i] == rest[i - 1];
      if i > 1 {
        assert rs[i - 1] == rest[i - 2];
      }
      ScanIsLeftmost(s, pat, r.End(), i - 1, p);
    }
  }

  /** Nothing after the last reported match starts another match. */
  lemma {:induction false} ScanIsComplete(s: string, pat: Pattern, from: nat, p: nat)
    requires ValidPattern(pat)
    requires (if AllMatchesFrom(s, pat, from) == [] then from
              else AllMatchesFrom(s, pat, from)[|AllMatchesFrom(s, pat, from)| - 1].End()) <= p
    ensures MatchAt(s, p, pat).None?
    decreases |s| + 1 - from
  {
    var rs := AllMatchesFrom(s, pat, from);
    if rs != [] {
      var r := FirstMatch(s, pat, from).value;
      var rest := AllMatchesFrom(s, pat, r.End());
      assert rs == [r] + rest;
      if rest != [] {
        assert rs[|rs| - 1] == rest[|rest| - 1];
      }
      ScanIsComplete(s, pat, r.End(), p);
    }
  }

  /** For a word without letters, case folding is moot. */
  lemma OccursAtLiteral(s: string, i: nat, w: string)
    requires NoLetters(w)
    ensures OccursAt(s, i, w) <==> LiteralAt(s, i, w)
  {
    if i + |w| <= |s| {
      SameIgnoringCaseNoLetters(s[i..i + |w|], w);
    }
  }

  /** The nearest occurrence of a letter-free word, found by position. */
  lemma NextOccurrenceIs(s: string, from: nat, w: string, q: nat)
    requires NoLetters(w) && from <= q && LiteralAt(s, q, w)
    requires forall i: nat | from <= i < q :: !LiteralAt(s, i, w)
    ensures NextOccurrence(s, from, w) == Some(q)
  {
    OccursAtLiteral(s, q, w);
    var r := NextOccurrence(s, from, w);
    OccursAtLiteral(s, r.value, w);
  }

  /** After a prefix `x`, the nearest CRLF in `x + v + CRLF` is the final
      one when `v` holds none. */
  lemma CRLFAfter(x: string, v: string)
    requires !Contains(v, CRLF)
    ensures NextOccurrence(x + v + CRLF, |x|, CRLF) == Some(|x| + |v|)
  {
    NoCRLFBefore(x, v);
    FinalCRLF(x + v);
    NextOccurrenceIs(x + v + CRLF, |x|, CRLF, |x| + |v|);
  }

  lemma NoCRLFBefore(x: string, v: string)
    requires !Contains(v, CRLF)
    ensures forall i: nat | |x| <= i < |x| + |v| :: !LiteralAt(x + v + CRLF, i, CRLF)
  {
    forall i: nat | |x| <= i < |x| + |v| ensures !LiteralAt(x + v + CRLF, i, CRLF) {
      NoCRLFWithin(x, v, i);
    }
  }

  lemma FinalCRLF(y: string)
    ensures LiteralAt(y + CRLF, |y|, CRLF)
  {
    assert (y + CRLF)[|y|..|y| + 2] == CRLF;
  }

  /** No CRLF starts inside `v`, even one whose LF would be the final CR. */
  lemma NoCRLFWithin(x: string, v: string, i: nat)
    requires !Contains(v, CRLF) && |x| <= i < |x| + |v|
    ensures !LiteralAt(x + v + CRLF, i, CRLF)
  {
    var s := x + v + CRLF;
    var j := i - |x|;
    assert s[i] == v[j];
    if i + 1 < |x| + |v| {
      assert s[i..i + 2] == v[j..j + 2];
      assert !LiteralAt(v, j, CRLF);
    } else {
      assert s[i + 1] == CRLF[0] != CRLF[1];
      assert s[i..i + 2][1] == s[i + 1];
    }
  }

  /** The lookaround match is decided by its leftmost possible start. */
  lemma LookaroundIs(s: string, before: string, after: string, p: nat)
    requires LookaroundAt(s, before, after, p)
    requires forall p': nat | p' < p :: !LookaroundAt(s, before, after, p')
    ensures Lookaround(s, before, after, 0)
            == Some(Range(p, NextOccurrence(s, p, after).value - p))
  {
  }

  // ---- the lookaround patterns of the record parser ----

  /** `(?<=B)([\s\S]*?)(?=A)` can start at `p`: `B` ends at `p` and an `A`
      follows at or after `p`. */
  predicate LookaroundAt(s: string, before: string, after: string, p: nat) {
    p >= |before| && OccursAt(s, p - |before|, before) && NextOccurrence(s, p, after).Some?
  }

  /** `firstMatch` of `(?<=B)([\s\S]*?)(?=A)` from offset `from` on: the
      leftmost start, running up to the nearest `A`; the match holds
      neither `B` nor `A`. */
  function Lookaround(s: string, before: string, after: string, from: nat): (r: Option<Range>)
    decreases |s| + 1 - from
    ensures r.Some? ==> from <= r.value.location && LookaroundAt(s, before, after, r.value.location)
    ensures r.Some? ==> r.value.End() == NextOccurrence(s, r.value.location, after).value
    ensures r.Some? ==> InBounds(s, r.value)
    ensures r.Some? ==> forall p | from <= p < r.value.location :: !LookaroundAt(s, before, after, p)
    ensures r.None? ==> forall p | from <= p :: !LookaroundAt(s, before, after, p)
  {
    if from > |s| then None
    else if LookaroundAt(s, before, after, from) then
      Some(Range(from, NextOccurrence(s, from, after).value - from))
    else Lookaround(s, before, after, from + 1)
  }

  // ---- the fixed patterns ----

  /** `(\r\n)KEY([\s\S]*?)(\r\n)`: a record whose name begins with KEY. */
  function RecordPattern(key: string): (pat: Pattern)
    ensures ValidPattern(pat)
  {
    Pattern([CRLF + key], CRLF)
  }

  /** `(\r\n)(X-|IANA-)([\s\S]*?)(\r\n)`: an extension record. */
  const ExtensionPattern: Pattern := Pattern([CRLF + "X-", CRLF + "IANA-"], CRLF)

  /** `BEGIN:TAG([\s\S]*?)END:TAG`: a component block (the `\E` before `END`
      in some of the source patterns reads as the literal text `END:`). */
  function BlockPattern(tag: string): (pat: Pattern)
    ensures ValidPattern(pat)
  {
    Pattern(["BEGIN:" + tag], "END:" + tag)
  }

  /** The text of every match, in document order. */
  function MatchTexts(s: string, rs: seq<Range>): (ts: seq<string>)
    requires forall i | 0 <= i < |rs| :: InBounds(s, rs[i])
    ensures |ts| == |rs|
    ensures forall i | 0 <= i < |rs| :: ts[i] == SubstringWith(s, rs[i])
  {
    seq(|rs|, i requires 0 <= i < |rs| => SubstringWith(s, rs[i]))
  }

  /** The texts of all `BEGIN:TAG ... END:TAG` blocks, in document order. */
  function BlockTexts(s: string, tag: string): (ts: seq<string>)
    ensures |ts| == |Matches(s, BlockPattern(tag))|
  {
    MatchTexts(s, Matches(s, BlockPattern(tag)))
  }

  /** A key matches every record whose name merely BEGINS with it, in any
      case: the record pattern for SEQ captures a SEQUENCE record. */
  lemma KeyCapturesLongerName(s: string, p: nat, key: string, name: string)
    requires HasPrefix(name, key)
    requires OccursAt(s, p, CRLF + name)
    requires NextOccurrence(s, p + 2 + |name|, CRLF).Some?
    ensures MatchAt(s, p, RecordPattern(key)).Some?
  {
    var h := CRLF + key;
    assert (CRLF + name)[..|h|] == h;
    assert s[p..p + |h|] == s[p..p + 2 + |name|][..|h|];
    assert OccursAt(s, p, h) by {
      assert Upper(s[p..p + |h|]) == Upper(s[p..p + 2 + |name|])[..|h|];
      assert Upper(h) == Upper(CRLF + name)[..|h|];
    }
    var q := NextOccurrence(s, p + 2 + |name|, CRLF).value;
    assert OccursAt(s, q, CRLF) && p + |h| <= q;
    assert HeadFits(s, p, h, CRLF);
  }

  /** The prefix effect on the registry names that are prefixes of longer
      RFC 5545 names. */
  lemma RegistryPrefixNames()
    ensures HasPrefix("SEQUENCE", "SEQ")
    ensures HasPrefix("LAST-MODIFIED", "LAST-MOD")
    ensures HasPrefix("RELATED-TO", "RELATED")
  {
  }
}
