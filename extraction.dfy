/** How a component's attribute list is pulled out of its text. For every key
    of the component's table, in table order, a singleton key takes the
    first record its pattern matches and a repeatable key takes every match;
    the `X-`/`IANA-` records follow the registry keys. Each matched span is
    handed to the record parser, and the first failure aborts the whole
    extraction.

    Two variants exist. The harvest of `CKCalendar`, `CKEvent` and
    `CKTimezone` reads the text without changing it, so the matches of a key
    come in source order. The consumption of `CKTodo`, `CKFreeBusy` and
    `CKAttribute.attributes(from:withKeys:)` (used by `CKStandard`) visits the
    matches from the last to the first and deletes each span once it is
    parsed, so the matches of a key come in reverse source order and a span
    is never seen by a later key. */
module Extraction {
  import opened Results
  import opened Text
  import opened Search
  import opened Attributes
  import opened Registry

  // ---- parsing a list of spans ----

  /** Collect a list of parse results: the first error wins, otherwise
      the records in order. */
  function Sequence(rs: seq<Result<Attribute>>): (r: Result<seq<Attribute>>)
    ensures r.Ok? ==> |r.value| == |rs|
  {
    if rs == [] then Ok([])
    else
      match rs[0]
      case Err(e) => Err(e)
      case Ok(a) =>
        match Sequence(rs[1..])
        case Err(e) => Err(e)
        case Ok(rest) => Ok([a] + rest)
  }

  /** The result of parsing each span on its own. */
  function Each(parse: string -> Result<Attribute>, texts: seq<string>): (rs: seq<Result<Attribute>>)
    ensures |rs| == |texts|
    ensures forall i | 0 <= i < |texts| :: rs[i] == parse(texts[i])
  {
    seq(|texts|, i requires 0 <= i < |texts| => parse(texts[i]))
  }

  lemma EachAppend(parse: string -> Result<Attribute>, a: seq<string>, b: seq<string>)
    ensures Each(parse, a + b) == Each(parse, a) + Each(parse, b)
  {
  }

  /** Parse every span in order; the first span that fails decides the
      error. */
  function ParseAll(texts: seq<string>): Result<seq<Attribute>> {
    Sequence(Each(Parse, texts))
  }

  /** The results collect exactly when every one is a success, and then
      hold the records in order. */
  lemma {:induction false} SequenceOk(rs: seq<Result<Attribute>>)
    ensures Sequence(rs).Ok? <==> forall i | 0 <= i < |rs| :: rs[i].Ok?
    ensures Sequence(rs).Ok? ==> forall i | 0 <= i < |rs| :: rs[i] == Ok(Sequence(rs).value[i])
  {
    if rs != [] {
      SequenceOk(rs[1..]);
      assert forall j | 1 <= j < |rs| :: rs[j] == rs[1..][j - 1];
    }
  }

  /** A failure is the error of the first result that is not a success. */
  lemma {:induction false} SequenceErr(rs: seq<Result<Attribute>>)
    requires Sequence(rs).Err?
    ensures exists i | 0 <= i < |rs| :: rs[i] == Err(Sequence(rs).error) && forall j | 0 <= j < i :: rs[j].Ok?
  {
    if rs[0].Ok? {
      SequenceErr(rs[1..]);
      var i :| 0 <= i < |rs[1..]| && rs[1..][i] == Err(Sequence(rs[1..]).error)
                && forall j | 0 <= j < i :: rs[1..][j].Ok?;
      assert rs[i + 1] == rs[1..][i];
      assert forall j | 1 <= j < i + 1 :: rs[j] == rs[1..][j - 1];
    }
  }

  /** The span list parses exactly when every span does, and then holds the
      parsed records in the order of the spans. */
  lemma ParseAllOk(texts: seq<string>)
    ensures ParseAll(texts).Ok? <==> forall i | 0 <= i < |texts| :: Parse(texts[i]).Ok?
    ensures ParseAll(texts).Ok? ==> |ParseAll(texts).value| == |texts|
    ensures ParseAll(texts).Ok? ==> forall i | 0 <= i < |texts| :: Parse(texts[i]) == Ok(ParseAll(texts).value[i])
  {
    SequenceOk(Each(Parse, texts));
  }

  /** A failure is the error of the first span that does not parse. */
  lemma ParseAllErr(texts: seq<string>)
    requires ParseAll(texts).Err?
    ensures exists i | 0 <= i < |texts| ::
              Parse(texts[i]) == Err(ParseAll(texts).error) && forall j | 0 <= j < i :: Parse(texts[j]).Ok?
  {
    SequenceErr(Each(Parse, texts));
  }

  /** Sequencing two fallible results: the first error wins. */
  function Then(a: Result<seq<Attribute>>, b: Result<seq<Attribute>>): Result<seq<Attribute>> {
    match a
    case Err(e) => Err(e)
    case Ok(x) =>
      match b
      case Err(e) => Err(e)
      case Ok(y) => Ok(x + y)
  }

  lemma {:induction false} SequenceAppend(a: seq<Result<Attribute>>, b: seq<Result<Attribute>>)
    ensures Sequence(a + b) == Then(Sequence(a), Sequence(b))
  {
    if a == [] {
      assert a + b == b;
      match Sequence(b)
      case Err(e) =>
      case Ok(z) => assert [] + z == z;
    } else {
      assert (a + b)[0] == a[0];
      assert (a + b)[1..] == a[1..] + b;
      SequenceAppend(a[1..], b);
      match a[0]
      case Err(e) =>
      case Ok(x) =>
        match Sequence(a[1..])
        case Err(e) =>
        case Ok(y) =>
          match Sequence(b)
          case Err(e) =>
          case Ok(z) => assert [x] + (y + z) == ([x] + y) + z;
    }
  }

  /** Parsing two lists of spans one after the other is parsing their
      concatenation. */
  lemma ParseAllAppend(a: seq<string>, b: seq<string>)
    ensures ParseAll(a + b) == Then(ParseAll(a), ParseAll(b))
  {
    EachAppend(Parse, a, b);
    SequenceAppend(Each(Parse, a), Each(Parse, b));
  }

  /** Once a prefix fails, nothing after it matters. */
  lemma ParseAllStopsAtError(a: seq<string>, b: seq<string>)
    requires ParseAll(a).Err?
    ensures ParseAll(a + b) == ParseAll(a)
  {
    ParseAllAppend(a, b);
  }

  /** One more span after a list that parses. */
  lemma ParseAllSnoc(a: seq<string>, t: string, attrs: seq<Attribute>)
    requires ParseAll(a) == Ok(attrs)
    ensures Parse(t).Ok? ==> ParseAll(a + [t]) == Ok(attrs + [Parse(t).value])
    ensures Parse(t).Err? ==> ParseAll(a + [t]) == Err(Parse(t).error)
  {
    ParseAllAppend(a, [t]);
    var rs := [Parse(t)];
    assert Each(Parse, [t]) == rs;
    assert rs[1..] == [];
    assert Sequence(rs[1..]) == Ok([]);
    match Parse(t)
    case Err(e) =>
    case Ok(x) => assert [x] + [] == [x];
  }

  lemma ConcatAssociates(a: seq<string>, b: seq<string>, c: seq<string>)
    ensures (a + b) + c == a + (b + c)
  {
  }

  lemma ConcatRegroups(a: seq<string>, b: seq<string>, c: seq<string>, d: seq<string>)
    ensures (a + (b + c)) + d == (a + b) + (c + d)
  {
  }

  lemma TakeOneMore(done: seq<string>, texts: seq<string>, i: nat)
    requires i < |texts|
    ensures done + texts[..i + 1] == (done + texts[..i]) + [texts[i]]
    ensures done + texts == (done + texts[..i + 1]) + texts[i + 1..]
  {
    assert texts[..i + 1] == texts[..i] + [texts[i]];
    assert texts == texts[..i + 1] + texts[i + 1..];
  }

  // ---- ranges and deletion ----

  /** What `matches(in:)` reports: ranges inside the text, in increasing
      order, not overlapping. */
  predicate Ascending(s: string, rs: seq<Range>) {
    (forall i | 0 <= i < |rs| :: InBounds(s, rs[i]))
    && (forall i, j | 0 <= i < j < |rs| :: rs[i].End() <= rs[j].location)
  }

  /** Deleting a span leaves every range that ends before it inside the
      text and reading the same characters. */
  lemma RemoveKeepsEarlier(s: string, r: Range, q: Range)
    requires InBounds(s, r) && q.End() <= r.location
    ensures InBounds(Remove(s, r), q)
    ensures SubstringWith(Remove(s, r), q) == SubstringWith(s, q)
  {
    var t := Remove(s, r);
    assert forall k | 0 <= k < q.length :: SubstringWith(t, q)[k] == t[q.location + k] == s[q.location + k];
  }

  /** Deleting the last of ascending ranges keeps all the others valid and
      unchanged: this is why the deletion goes from the last match to the
      first. */
  lemma DescendingDeletionSafe(s: string, rs: seq<Range>)
    requires Ascending(s, rs) && rs != []
    ensures Ascending(Remove(s, rs[|rs| - 1]), rs[..|rs| - 1])
    ensures forall i | 0 <= i < |rs| - 1 ::
              SubstringWith(Remove(s, rs[|rs| - 1]), rs[i]) == SubstringWith(s, rs[i])
  {
    var last := rs[|rs| - 1];
    forall i | 0 <= i < |rs| - 1
      ensures InBounds(Remove(s, last), rs[i])
      ensures SubstringWith(Remove(s, last), rs[i]) == SubstringWith(s, rs[i])
    {
      RemoveKeepsEarlier(s, last, rs[i]);
    }
  }

  /** The total length of a list of spans. */
  function TotalLength(ts: seq<string>): nat {
    if ts == [] then 0 else |ts[0]| + TotalLength(ts[1..])
  }

  lemma {:induction false} TotalLengthAppend(a: seq<string>, b: seq<string>)
    ensures TotalLength(a + b) == TotalLength(a) + TotalLength(b)
  {
    if a == [] {
      assert a + b == b;
    } else {
      assert (a + b)[0] == a[0];
      assert (a + b)[1..] == a[1..] + b;
      TotalLengthAppend(a[1..], b);
    }
  }

  /** The spans taken out of a text, and what remains of it. */
  datatype Peeled = Peeled(texts: seq<string>, rest: string)

  /** The loop over matches sorted by descending location: take the text of
      the last range, delete it, go on with the others. The texts come out
      in reverse source order. */
  function Peel(s: string, rs: seq<Range>): (p: Peeled)
    requires Ascending(s, rs)
    decreases |rs|
    ensures |p.texts| == |rs|

  {
    if rs == [] then Peeled([], s)
    else
      var last := rs[|rs| - 1];
      DescendingDeletionSafe(s, rs);
      var p := Peel(Remove(s, last), rs[..|rs| - 1]);
      Peeled([SubstringWith(s, last)] + p.texts, p.rest)
  }

  /** Every character of the text ends up either in a taken span or in the
      rest, and none in both. */
  lemma {:induction false} PeelKeepsLength(s: string, rs: seq<Range>)
    requires Ascending(s, rs)
    decreases |rs|
    ensures TotalLength(Peel(s, rs).texts) + |Peel(s, rs).rest| == |s|
  {
    if rs != [] {
      var n := |rs| - 1;
      PeelUnfold(s, rs);
      PeelKeepsLength(Remove(s, rs[n]), rs[..n]);
      TotalLengthCons(SubstringWith(s, rs[n]), Peel(Remove(s, rs[n]), rs[..n]).texts);
    }
  }

  lemma TotalLengthCons(t: string, ts: seq<string>)
    ensures TotalLength([t] + ts) == |t| + TotalLength(ts)
  {
    assert ([t] + ts)[1..] == ts;
  }

  /** The text of the i-th range is the i-th taken span from the end. */
  lemma {:induction false} PeelAt(s: string, rs: seq<Range>, i: nat)
    requires Ascending(s, rs) && i < |rs|
    decreases |rs|
    ensures Peel(s, rs).texts[|rs| - 1 - i] == SubstringWith(s, rs[i])
  {
    PeelUnfold(s, rs);
    var n := |rs| - 1;
    var later := Peel(Remove(s, rs[n]), rs[..n]).texts;
    if i < n {
      PeelAt(Remove(s, rs[n]), rs[..n], i);
      EarlierSpanSurvives(s, rs, i);
      IndexAfterHead(Peel(s, rs).texts, SubstringWith(s, rs[n]), later, i, SubstringWith(s, rs[i]));
    } else {
      IndexAfterHead(Peel(s, rs).texts, SubstringWith(s, rs[n]), later, i, SubstringWith(s, rs[i]));
    }
  }

  /** A span before the last one reads the same once the last is deleted. */
  lemma EarlierSpanSurvives(s: string, rs: seq<Range>, i: nat)
    requires Ascending(s, rs) && i < |rs| - 1
    ensures SubstringWith(Remove(s, rs[|rs| - 1]), rs[..|rs| - 1][i]) == SubstringWith(s, rs[i])
  {
    var n := |rs| - 1;
    assert rs[..n][i] == rs[i];
    assert InBounds(s, rs[n]) && rs[i].End() <= rs[n].location;
    RemoveKeepsEarlier(s, rs[n], rs[i]);
  }

  /** Counting from the end, the `i`-th element after a head is the
      `i`-th element of the tail, and the head comes last. */
  lemma IndexAfterHead<T>(xs: seq<T>, head: T, later: seq<T>, i: nat, x: T)
    requires xs == [head] + later && i <= |later|
    requires i < |later| ==> later[|later| - 1 - i] == x
    requires i == |later| ==> head == x
    ensures xs[|later| - i] == x
  {
  }

  /** The spans come out in reverse source order. */
  lemma PeelReverses(s: string, rs: seq<Range>)
    requires Ascending(s, rs)
    ensures forall i | 0 <= i < |rs| :: Peel(s, rs).texts[|rs| - 1 - i] == SubstringWith(s, rs[i])
  {
    forall i | 0 <= i < |rs| ensures Peel(s, rs).texts[|rs| - 1 - i] == SubstringWith(s, rs[i]) {
      PeelAt(s, rs, i);
    }
  }

  /** One step of the descending loop. */
  lemma PeelUnfold(s: string, rs: seq<Range>)
    requires Ascending(s, rs) && rs != []
    ensures Ascending(Remove(s, rs[|rs| - 1]), rs[..|rs| - 1])
    ensures Peel(s, rs).texts == [SubstringWith(s, rs[|rs| - 1])] + Peel(Remove(s, rs[|rs| - 1]), rs[..|rs| - 1]).texts
    ensures Peel(s, rs).rest == Peel(Remove(s, rs[|rs| - 1]), rs[..|rs| - 1]).rest
  {
    DescendingDeletionSafe(s, rs);
  }

  // ---- which ranges a key selects ----

  /** The ranges one key selects in `s`: every match for a repeatable key,
      the first match for a singleton. With `inverted` (the guard of
      `CKTimezone`, which skips a repeatable key when it HAS matches and
      iterates over nothing otherwise) a repeatable key selects nothing. */
  function KeyRanges(s: string, k: KeySpec, inverted: bool): (rs: seq<Range>)
    ensures Ascending(s, rs)
    ensures k.repeatable && !inverted ==> rs == Matches(s, RecordPattern(k.raw))
    ensures k.repeatable && inverted ==> rs == []
    ensures !k.repeatable ==> |rs| <= 1
    ensures !k.repeatable && rs != [] ==> Some(rs[0]) == FirstMatch(s, RecordPattern(k.raw), 0)
  {
    if k.repeatable then
      if inverted then [] else Matches(s, RecordPattern(k.raw))
    else
      match FirstMatch(s, RecordPattern(k.raw), 0)
      case None => []
      case Some(r) => [r]
  }

  /** A singleton key takes exactly the first of the matches the scan would
      report, and nothing when there is none. */
  lemma SingletonTakesFirst(s: string, k: KeySpec, inverted: bool)
    requires !k.repeatable
    ensures KeyRanges(s, k, inverted) ==
              (if Matches(s, RecordPattern(k.raw)) == [] then [] else Matches(s, RecordPattern(k.raw))[..1])
  {
    ScanStartsAtFirstMatch(s, RecordPattern(k.raw), 0);
  }

  // ---- the non-destructive harvest ----

  /** The spans the registry keys harvest, key after key in table order. */
  function HarvestKeys(s: string, keys: seq<KeySpec>, inverted: bool): (ts: seq<string>)
  {
    if keys == [] then []
    else MatchTexts(s, KeyRanges(s, keys[0], inverted)) + HarvestKeys(s, keys[1..], inverted)
  }

  /** The spans of the `X-`/`IANA-` records, in source order. */
  function ExtensionTexts(s: string): (ts: seq<string>) {
    MatchTexts(s, Matches(s, ExtensionPattern))
  }

  /** Everything the harvest parses: the registry keys, then the extension
      records. */
  function HarvestTexts(s: string, keys: seq<KeySpec>, inverted: bool): seq<string> {
    HarvestKeys(s, keys, inverted) + ExtensionTexts(s)
  }

  function Harvest(s: string, keys: seq<KeySpec>, inverted: bool): Result<seq<Attribute>> {
    ParseAll(HarvestTexts(s, keys, inverted))
  }

  /** The inverted guard of a table without repeatable keys is never
      reached: such a table harvests the same spans either way. */
  lemma {:induction false} InvertedGuardUnreachable(s: string, keys: seq<KeySpec>)
    requires AllSingleton(keys)
    ensures HarvestKeys(s, keys, true) == HarvestKeys(s, keys, false)
  {
    if keys != [] {
      assert AllSingleton(keys[1..]) by {
        assert forall j | 0 <= j < |keys| - 1 :: keys[1..][j] == keys[j + 1];
      }
      InvertedGuardUnreachable(s, keys[1..]);
    }
  }

  /** One span more: the list grows by its record, or fails with its error
      whatever follows. */
  lemma ParseStep(done: seq<string>, texts: seq<string>, i: nat, attrs: seq<Attribute>)
    requires i < |texts| && ParseAll(done + texts[..i]) == Ok(attrs)
    ensures Parse(texts[i]).Ok? ==> ParseAll(done + texts[..i + 1]) == Ok(attrs + [Parse(texts[i]).value])
    ensures Parse(texts[i]).Err? ==> ParseAll(done + texts) == Err(Parse(texts[i]).error)
  {
    TakeOneMore(done, texts, i);
    ParseAllSnoc(done + texts[..i], texts[i], attrs);
    if Parse(texts[i]).Err? {
      ParseAllStopsAtError(done + texts[..i + 1], texts[i + 1..]);
    }
  }

  /** Parse the text of each range, in the given order, after the spans
      `done` that produced `attrs0`. */
  method AppendMatches(s: string, rs: seq<Range>, attrs0: seq<Attribute>, ghost done: seq<string>)
      returns (r: Result<seq<Attribute>>)
    requires forall i | 0 <= i < |rs| :: InBounds(s, rs[i])
    requires ParseAll(done) == Ok(attrs0)
    ensures r == ParseAll(done + MatchTexts(s, rs))
  {
    ghost var texts := MatchTexts(s, rs);
    var attrs := attrs0;
    assert done + texts[..0] == done;
    for i := 0 to |rs|
      invariant ParseAll(done + texts[..i]) == Ok(attrs)
    {
      var content := SubstringWith(s, rs[i]);
      var a := ParseRecord(content);
      ParseStep(done, texts, i, attrs);
      if a.Err? {
        return Err(a.error);
      }
      attrs := attrs + [a.value];
    }
    assert texts[..|rs|] == texts;
    return Ok(attrs);
  }

  /** The harvest of the keys from index `i` on starts with key `i`. */
  lemma HarvestKeysFrom(s: string, keys: seq<KeySpec>, inverted: bool, i: nat)
    requires i < |keys|
    ensures HarvestKeys(s, keys[i..], inverted)
            == MatchTexts(s, KeyRanges(s, keys[i], inverted)) + HarvestKeys(s, keys[i + 1..], inverted)
  {
    assert keys[i..][0] == keys[i] && keys[i..][1..] == keys[i + 1..];
  }


  /** A failure in the middle of a list of spans is the failure of the
      whole list. */
  lemma ParseAllAborts(taken: seq<string>, step: seq<string>, later: seq<string>, extra: seq<string>)
    requires ParseAll(taken + step).Err?
    ensures ParseAll(taken + (step + later) + extra) == ParseAll(taken + step)
  {
    assert taken + (step + later) + extra == (taken + step) + (later + extra);
    ParseAllStopsAtError(taken + step, later + extra);
  }

  /** `attributes(from:)` of `CKCalendar`, `CKEvent` and `CKTimezone`: the
      text is only read. */
  method HarvestRecords(s: string, keys: seq<KeySpec>, inverted: bool) returns (r: Result<seq<Attribute>>)
    ensures r == Harvest(s, keys, inverted)
  {
    var attrs: seq<Attribute> := [];
    ghost var taken: seq<string> := [];
    for i := 0 to |keys|
      invariant ParseAll(taken) == Ok(attrs)
      invariant taken + HarvestKeys(s, keys[i..], inverted) == HarvestKeys(s, keys, inverted)
    {
      var key := keys[i];
      var rs: seq<Range> := [];
      if key.repeatable {
        var results := Matches(s, RecordPattern(key.raw));
        var proceed := if inverted then results == [] else results != [];
        if proceed {
          rs := results;
        }
      } else {
        var first := FirstMatch(s, RecordPattern(key.raw), 0);
        if first.Some? {
          rs := [first.value];
        }
      }
      assert rs == KeyRanges(s, key, inverted);
      HarvestKeysFrom(s, keys, inverted, i);
      ghost var ts := MatchTexts(s, rs);
      ghost var later := HarvestKeys(s, keys[i + 1..], inverted);
      ConcatAssociates(taken, ts, later);
      var next := AppendMatches(s, rs, attrs, taken);
      if next.Err? {
        ParseAllAborts(taken, ts, later, ExtensionTexts(s));
        return next;
      }
      attrs := next.value;
      taken := taken + ts;
    }
    assert keys[|keys|..] == [];
    assert taken == HarvestKeys(s, keys, inverted);
    r := AppendMatches(s, Matches(s, ExtensionPattern), attrs, taken);
  }

  // ---- the destructive consumption ----

  /** The registry keys in table order, each consuming its spans from what
      the previous keys left. */
  function ConsumeKeys(s: string, keys: seq<KeySpec>): (p: Peeled)
    decreases |keys|

  {
    if keys == [] then Peeled([], s)
    else
      var first := Peel(s, KeyRanges(s, keys[0], false));
      var others := ConsumeKeys(first.rest, keys[1..]);
      Peeled(first.texts + others.texts, others.rest)
  }

  /** The registry keys, then the extension records of what is left. */
  function Consumed(s: string, keys: seq<KeySpec>): Peeled {
    var byKeys := ConsumeKeys(s, keys);
    var extensions := Peel(byKeys.rest, Matches(byKeys.rest, ExtensionPattern));
    Peeled(byKeys.texts + extensions.texts, extensions.rest)
  }

  /** Consumption never reads a character twice: the spans it parses and
      the text it leaves add up to the text it was given, so no record is
      captured by two keys, nor by a key and the extension pass. */
  lemma ConsumedKeepsLength(s: string, keys: seq<KeySpec>)
    ensures TotalLength(Consumed(s, keys).texts) + |Consumed(s, keys).rest| == |s|
  {
    var byKeys := ConsumeKeys(s, keys);
    ConsumeKeysKeepsLength(s, keys);
    PeelKeepsLength(byKeys.rest, Matches(byKeys.rest, ExtensionPattern));
    TotalLengthAppend(byKeys.texts, Peel(byKeys.rest, Matches(byKeys.rest, ExtensionPattern)).texts);
  }

  lemma {:induction false} ConsumeKeysKeepsLength(s: string, keys: seq<KeySpec>)
    decreases |keys|
    ensures TotalLength(ConsumeKeys(s, keys).texts) + |ConsumeKeys(s, keys).rest| == |s|
  {
    if keys != [] {
      var first := Peel(s, KeyRanges(s, keys[0], false));
      PeelKeepsLength(s, KeyRanges(s, keys[0], false));
      ConsumeKeysKeepsLength(first.rest, keys[1..]);
      TotalLengthAppend(first.texts, ConsumeKeys(first.rest, keys[1..]).texts);
    }
  }

  function Consume(s: string, keys: seq<KeySpec>): Result<seq<Attribute>> {
    ParseAll(Consumed(s, keys).texts)
  }

  /** One range of the descending loop. */
  lemma PeelRecordStep(contents: string, rs: seq<Range>, j: nat, taken: seq<string>, attrs: seq<Attribute>)
    requires 0 < j <= |rs| && Ascending(contents, rs[..j])
    requires ParseAll(taken) == Ok(attrs)
    ensures InBounds(contents, rs[j - 1])
    ensures var content := SubstringWith(contents, rs[j - 1]);
            var later := Peel(Remove(contents, rs[j - 1]), rs[..j - 1]);
            && Ascending(Remove(contents, rs[j - 1]), rs[..j - 1])
            && taken + Peel(contents, rs[..j]).texts == (taken + [content]) + later.texts
            && Peel(contents, rs[..j]).rest == later.rest
            && (Parse(content).Ok? ==> ParseAll(taken + [content]) == Ok(attrs + [Parse(content).value]))
            && (Parse(content).Err? ==> ParseAll(taken + Peel(contents, rs[..j]).texts) == Err(Parse(content).error))
  {
    var prior := rs[..j];
    assert prior[|prior| - 1] == rs[j - 1] && prior[..|prior| - 1] == rs[..j - 1];
    PeelUnfold(contents, prior);
    var content := SubstringWith(contents, rs[j - 1]);
    var later := Peel(Remove(contents, rs[j - 1]), rs[..j - 1]);
    ConcatAssociates(taken, [content], later.texts);
    ParseAllSnoc(taken, content, attrs);
    if Parse(content).Err? {
      ParseAllStopsAtError(taken + [content], later.texts);
    }
  }

  /** The descending loop over the matches of one pattern: substring, parse,
      append, delete. */
  method PeelRecords(contents0: string, rs: seq<Range>, attrs0: seq<Attribute>, ghost done: seq<string>)
      returns (r: Result<seq<Attribute>>, contents: string)
    requires Ascending(contents0, rs)
    requires ParseAll(done) == Ok(attrs0)
    ensures r == ParseAll(done + Peel(contents0, rs).texts)
    ensures r.Ok? ==> contents == Peel(contents0, rs).rest
  {
    contents := contents0;
    var attrs := attrs0;
    ghost var taken := done;
    var j := |rs|;
    assert rs[..j] == rs;
    while j > 0
      invariant 0 <= j <= |rs|
      invariant Ascending(contents, rs[..j])
      invariant ParseAll(taken) == Ok(attrs)
      invariant taken + Peel(contents, rs[..j]).texts == done + Peel(contents0, rs).texts
      invariant Peel(contents, rs[..j]).rest == Peel(contents0, rs).rest
    {
      PeelRecordStep(contents, rs, j, taken, attrs);
      var result := rs[j - 1];
      var content := SubstringWith(contents, result);
      var a := ParseRecord(content);
      if a.Err? {
        return Err(a.error), contents;
      }
      attrs := attrs + [a.value];
      taken := taken + [content];
      contents := Remove(contents, result);
      j := j - 1;
    }
    assert rs[..0] == [] && Peel(contents, []).texts == [];
    assert taken + [] == taken;
    r := Ok(attrs);
  }

  /** One key of the consumption loop. */
  lemma ConsumeStep(contents0: string, keys: seq<KeySpec>, i: nat, contents: string, taken: seq<string>)
    requires i < |keys|
    requires taken + ConsumeKeys(contents, keys[i..]).texts == ConsumeKeys(contents0, keys).texts
    requires ConsumeKeys(contents, keys[i..]).rest == ConsumeKeys(contents0, keys).rest
    ensures var step := Peel(contents, KeyRanges(contents, keys[i], false));
            var later := ConsumeKeys(step.rest, keys[i + 1..]);
            && (taken + step.texts) + later.texts == ConsumeKeys(contents0, keys).texts
            && later.rest == ConsumeKeys(contents0, keys).rest
            && (ParseAll(taken + step.texts).Err? ==> Consume(contents0, keys) == ParseAll(taken + step.texts))
  {
    var step := Peel(contents, KeyRanges(contents, keys[i], false));
    var later := ConsumeKeys(step.rest, keys[i + 1..]);
    assert keys[i..][0] == keys[i] && keys[i..][1..] == keys[i + 1..];
    assert ConsumeKeys(contents, keys[i..]).texts == step.texts + later.texts;
    ConcatAssociates(taken, step.texts, later.texts);
    var all := ConsumeKeys(contents0, keys);
    var e := Peel(all.rest, Matches(all.rest, ExtensionPattern));
    ConcatRegroups(taken, step.texts, later.texts, e.texts);
    if ParseAll(taken + step.texts).Err? {
      ParseAllStopsAtError(taken + step.texts, later.texts + e.texts);
    }
  }

  /** After the last key, the extension records of what is left. */
  lemma ConsumeFinish(contents0: string, keys: seq<KeySpec>, contents: string, taken: seq<string>)
    requires taken + ConsumeKeys(contents, keys[|keys|..]).texts == ConsumeKeys(contents0, keys).texts
    requires ConsumeKeys(contents, keys[|keys|..]).rest == ConsumeKeys(contents0, keys).rest
    ensures var e := Peel(contents, Matches(contents, ExtensionPattern));
            Consumed(contents0, keys) == Peeled(taken + e.texts, e.rest)
  {
    assert keys[|keys|..] == [];
    assert taken + [] == taken;
  }

  /** `attributes(from: inout)` of `CKTodo` and `CKFreeBusy`, and
      `CKAttribute.attributes(from:withKeys:)`: every matched span is
      deleted from `contents` after it is parsed. */
  method ConsumeRecords(contents0: string, keys: seq<KeySpec>) returns (r: Result<seq<Attribute>>, contents: string)
    ensures r == Consume(contents0, keys)
    ensures r.Ok? ==> contents == Consumed(contents0, keys).rest
  {
    contents := contents0;
    var attrs: seq<Attribute> := [];
    ghost var taken: seq<string> := [];
    for i := 0 to |keys|
      invariant ParseAll(taken) == Ok(attrs)
      invariant taken + ConsumeKeys(contents, keys[i..]).texts == ConsumeKeys(contents0, keys).texts
      invariant ConsumeKeys(contents, keys[i..]).rest == ConsumeKeys(contents0, keys).rest
    {
      var key := keys[i];
      var rs: seq<Range> := [];
      if key.repeatable {
        rs := Matches(contents, RecordPattern(key.raw));
      } else {
        var first := FirstMatch(contents, RecordPattern(key.raw), 0);
        if first.Some? {
          rs := [first.value];
        }
      }
      assert rs == KeyRanges(contents, key, false);
      ConsumeStep(contents0, keys, i, contents, taken);
      var next, left := PeelRecords(contents, rs, attrs, taken);
      if next.Err? {
        return next, left;
      }
      attrs := next.value;
      taken := taken + Peel(contents, rs).texts;
      contents := left;
    }
    ConsumeFinish(contents0, keys, contents, taken);
    var extensions := Matches(contents, ExtensionPattern);
    r, contents := PeelRecords(contents, extensions, attrs, taken);
  }

  // ---- what the two variants take ----

  /** For a single key, consumption takes the spans the harvest takes, in
      reverse order. */
  lemma ConsumeReversesHarvest(s: string, k: KeySpec)
    ensures |ConsumeKeys(s, [k]).texts| == |HarvestKeys(s, [k], false)|
    ensures forall i | 0 <= i < |HarvestKeys(s, [k], false)| ::
              ConsumeKeys(s, [k]).texts[i] == HarvestKeys(s, [k], false)[|HarvestKeys(s, [k], false)| - 1 - i]
  {
    var rs := KeyRanges(s, k, false);
    OneKey(s, k);
    PeelReverses(s, rs);
  }

  lemma OneKey(s: string, k: KeySpec)
    ensures ConsumeKeys(s, [k]).texts == Peel(s, KeyRanges(s, k, false)).texts
    ensures HarvestKeys(s, [k], false) == MatchTexts(s, KeyRanges(s, k, false))
  {
    var rs := KeyRanges(s, k, false);
    var p := Peel(s, rs);
    assert [k][0] == k && [k][1..] == [];
    assert ConsumeKeys(s, [k]).texts == p.texts + [];
    assert HarvestKeys(s, [k], false) == MatchTexts(s, rs) + [];
  }
}
