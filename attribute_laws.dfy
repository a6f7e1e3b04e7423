/** What `init(from:)` makes of the text that `text` produces, and of a few
    records that show how the parser splits. */
module AttributeLaws {
  import opened Results
  import opened Text
  import opened Search
  import opened Attributes

  /** The name of a record is found right after its leading CRLF, up to
      the first occurrence of `stop`. */
  lemma NameAfterLeadingCRLF(name: string, stop: char, tail: string)
    requires stop !in name && NoLetters([stop])
    ensures Lookaround(CRLF + name + [stop] + tail, CRLF, [stop], 0) == Some(Range(2, |name|))
  {
    var s := CRLF + name + [stop] + tail;
    var q := 2 + |name|;
    assert LiteralAt(s, q, [stop]) by { assert s[q..q + 1] == [stop]; }
    forall i: nat | 2 <= i < q ensures !LiteralAt(s, i, [stop]) {
      assert s[i] == name[i - 2] && s[i..i + 1][0] == s[i];
    }
    NextOccurrenceIs(s, 2, [stop], q);
    assert OccursAt(s, 0, CRLF) by { assert s[0..2] == CRLF; }
    LookaroundIs(s, CRLF, [stop], 2);
  }

  /** A record without parameters parses back to its name and value and no
      parameters: `init(from:)` undoes `text` on the bare path. */
  lemma {:induction false} BareRoundTrip(name: string, value: string)
    requires ':' !in name && ';' !in name
    requires ';' !in value && !Contains(value, CRLF)
    ensures Parse(CRLF + Serialized(Attribute(name, value, map[]))) == Ok(Attribute(name, value, map[]))
  {
    var s := CRLF + Serialized(Attribute(name, value, map[]));
    BareText(name, value);
    NameAfterLeadingCRLF(name, ':', value + CRLF);
    BarePieces(name, value + CRLF);
    StripFinalCRLF(value);
    ParseBareOf(s, name, value);
  }

  lemma BareText(name: string, value: string)
    requires ';' !in name && ';' !in value
    ensures CRLF + Serialized(Attribute(name, value, map[])) == CRLF + name + [':'] + (value + CRLF)
    ensures ';' !in CRLF + Serialized(Attribute(name, value, map[]))
  {
    assert CRLF + Serialized(Attribute(name, value, map[])) == CRLF + name + [':'] + (value + CRLF);
  }

  lemma BarePieces(name: string, tail: string)
    ensures InBounds(CRLF + name + [':'] + tail, Range(2, |name|))
    ensures SubstringWith(CRLF + name + [':'] + tail, Range(2, |name|)) == name
    ensures SubstringFrom(CRLF + name + [':'] + tail, 3 + |name|) == tail
  {
  }

  lemma StripFinalCRLF(value: string)
    requires !Contains(value, CRLF)
    ensures ReplaceAll(value + CRLF, CRLF, "") == value
  {
    NoEarlierCRLF(value, []);
    ReplaceFirstOccurrence(value, CRLF, "", []);
    assert value + CRLF + [] == value + CRLF;
  }

  lemma ParseBareOf(s: string, name: string, value: string)
    requires ';' !in s
    requires Lookaround(s, CRLF, ":", 0) == Some(Range(2, |name|))
    requires InBounds(s, Range(2, |name|)) && 3 + |name| <= |s|
    requires SubstringWith(s, Range(2, |name|)) == name
    requires ReplaceAll(SubstringFrom(s, 3 + |name|), CRLF, "") == value
    ensures Parse(s) == Ok(Attribute(name, value, map[]))
  {
  }

  lemma OneLineDoesNotEndWithCRLF(x: string)
    requires OneLine(x)
    ensures !HasSuffix(x, CRLF)
  {
    if |x| >= 2 {
      assert x[|x| - 2..][1] == x[|x| - 1];
    }
  }

  lemma {:induction false} JoinExtendLast(parts: seq<string>, t: string, sep: string)
    requires |parts| >= 1
    ensures Join(parts, sep) + t == Join(parts[..|parts| - 1] + [parts[|parts| - 1] + t], sep)
  {
    var n := |parts| - 1;
    var ext := parts[..n] + [parts[n] + t];
    if n == 0 {
      assert ext == [parts[0] + t];
    } else {
      var tail := parts[1..];
      JoinExtendLast(tail, t, sep);
      assert ext[0] == parts[0];
      assert ext[1..] == tail[..|tail| - 1] + [tail[|tail| - 1] + t];
      calc {
        Join(parts, sep) + t;
        (parts[0] + sep + Join(tail, sep)) + t;
        parts[0] + sep + (Join(tail, sep) + t);
        parts[0] + sep + Join(ext[1..], sep);
        Join(ext, sep);
      }
    }
  }

  lemma {:induction false} CollectSkipsLast(attrs: map<string, string>, init: seq<string>, x: string)
    requires HasSuffix(x, CRLF)
    ensures CollectParameters(attrs, init + [x]) == CollectParameters(attrs, init)
    decreases |init|
  {
    if init == [] {
      assert [x][1..] == [];
    } else {
      assert (init + [x])[1..] == init[1..] + [x];
      if !HasSuffix(init[0], CRLF) {
        var kv := Split(init[0], '=');
        if |kv| >= 2 {
          CollectSkipsLast(attrs[kv[0] := kv[1]], init[1..], x);
        }
      } else {
        CollectSkipsLast(attrs, init[1..], x);
      }
    }
  }

  lemma {:induction false} FirstEndingWithCRLFIsLast(init: seq<string>, x: string)
    requires forall k | 0 <= k < |init| :: !HasSuffix(init[k], CRLF)
    requires HasSuffix(x, CRLF)
    ensures FirstEndingWithCRLF(init + [x]) == Some(x)
  {
    if init != [] {
      assert (init + [x])[1..] == init[1..] + [x];
      FirstEndingWithCRLFIsLast(init[1..], x);
    }
  }

  lemma ColonStartsValue(head: string, value: string)
    requires ':' !in head && !Contains(value, CRLF)
    ensures forall p': nat | p' <= |head| :: !LookaroundAt(head + ":" + value + CRLF, ":", CRLF, p')
    ensures LookaroundAt(head + ":" + value + CRLF, ":", CRLF, |head| + 1)
  {
    var c := head + ":" + value + CRLF;
    forall p': nat | p' <= |head| ensures !LookaroundAt(c, ":", CRLF, p') {
      if p' >= 1 {
        assert c[p' - 1] == head[p' - 1];
        OccursAtLiteral(c, p' - 1, ":");
        assert c[p' - 1..p'][0] == c[p' - 1];
      }
    }
    assert LiteralAt(c, |head|, ":") by { assert c[|head|..|head| + 1] == ":"; }
    OccursAtLiteral(c, |head|, ":");
    CRLFAfter(head + ":", value);
  }

  /** In the value piece `L:VALUE` CRLF, with no `:` in `L`, the value is
      everything between the first `:` and the CRLF. */
  lemma ValueAfterFirstColon(head: string, value: string)
    requires ':' !in head && !Contains(value, CRLF)
    ensures Lookaround(head + ":" + value + CRLF, ":", CRLF, 0) == Some(Range(|head| + 1, |value|))
  {
    ColonStartsValue(head, value);
    CRLFAfter(head + ":", value);
    LookaroundIs(head + ":" + value + CRLF, ":", CRLF, |head| + 1);
  }

  /** A record `NAME;REST` with no `;` in `NAME` takes the parameter path
      with the name `NAME` and the pieces of `REST`. */
  lemma ParameterPathOf(name: string, rest: string)
    requires ';' !in name
    ensures Parse(CRLF + name + [';'] + rest)
            == match CollectParameters(map[], Split(rest, ';'))
               case Err(e) => Err(e)
               case Ok(attrs) => ValueFrom(name, attrs, Split(rest, ';'))
  {
    var s := CRLF + name + [';'] + rest;
    NameAfterLeadingCRLF(name, ';', rest);
    assert ';' in s by { assert s[2 + |name|] == ';'; }
    assert SubstringWith(s, Range(2, |name|)) == name;
    assert SubstringFrom(s, 3 + |name|) == rest;
  }

  /** A text without `:` holds no name that a `:` ends. */
  lemma NoColonNoName(s: string)
    requires ':' !in s
    ensures Lookaround(s, CRLF, ":", 0).None?
  {
    forall q: nat ensures !OccursAt(s, q, ":") {
      OccursAtLiteral(s, q, ":");
      if q + 1 <= |s| {
        assert s[q..q + 1][0] == s[q];
      }
    }
  }

  /** On the bare path a record without `:` throws: it has no name. */
  lemma BareWithoutColonFails(s: string)
    requires ';' !in s && ':' !in s
    ensures Parse(s) == Err(MissingName)
  {
    NoColonNoName(s);
  }

  /** A piece splits at `=` into at least two parts exactly when it holds
      an `=`. */
  lemma SplitsAtEquals(p: string)
    ensures |Split(p, '=')| >= 2 <==> '=' in p
  {
    if '=' in p {
      JoinSplit(p, '=');
      if |Split(p, '=')| == 1 {
        assert false;
      }
    } else {
      SplitFree(p, '=');
    }
  }

  /** The parameter loop fails exactly when some piece that does not end
      with CRLF holds no `=`. */
  lemma {:induction false} CollectFailsIffNoEquals(attrs: map<string, string>, pieces: seq<string>)
    ensures CollectParameters(attrs, pieces).Err? <==>
      exists k | 0 <= k < |pieces| :: !HasSuffix(pieces[k], CRLF) && '=' !in pieces[k]
    decreases |pieces|
  {
    if pieces != [] {
      var tail := pieces[1..];
      assert forall k | 0 <= k < |tail| :: tail[k] == pieces[k + 1];
      if HasSuffix(pieces[0], CRLF) {
        CollectFailsIffNoEquals(attrs, tail);
      } else {
        SplitsAtEquals(pieces[0]);
        var kv := Split(pieces[0], '=');
        if |kv| >= 2 {
          CollectFailsIffNoEquals(attrs[kv[0] := kv[1]], tail);
        }
      }
      if exists k | 0 <= k < |pieces| :: !HasSuffix(pieces[k], CRLF) && '=' !in pieces[k] {
        var k :| 0 <= k < |pieces| && !HasSuffix(pieces[k], CRLF) && '=' !in pieces[k];
        if k > 0 {
          assert tail[k - 1] == pieces[k];
        }
      }
    }
  }

  /** A parameter record whose text after the name has no line end has no
      piece ending with CRLF to take the value from, so it throws; when
      every piece holds `=` the error is the missing value. */
  lemma NoLineEndThrows(name: string, rest: string)
    requires ';' !in name && OneLine(rest)
    ensures Parse(CRLF + name + [';'] + rest).Err?
    ensures (forall k | 0 <= k < |Split(rest, ';')| :: '=' in Split(rest, ';')[k]) ==>
            Parse(CRLF + name + [';'] + rest) == Err(MissingValue)
  {
    var pieces := Split(rest, ';');
    ParameterPathOf(name, rest);
    SplitOneLine(rest, ';');
    forall k | 0 <= k < |pieces| ensures !HasSuffix(pieces[k], CRLF) {
      OneLineDoesNotEndWithCRLF(pieces[k]);
    }
    CollectFailsIffNoEquals(map[], pieces);
  }

  /** A parameter piece `K=V=W` is split at every `=`, and only the first
      two parts are kept: the key `K` is stored with the value `V`. */
  lemma ExtraEqualsDropped(attrs: map<string, string>, k: string, v: string, w: string)
    requires PlainWord(k) && PlainWord(v) && OneLine(w)
    ensures CollectParameters(attrs, [k + "=" + v + "=" + w]) == Ok(attrs[k := v])
  {
    var p := k + "=" + v + "=" + w;
    assert p == k + ['='] + (v + "=" + w);
    SplitAround(k, '=', v + "=" + w);
    assert v + "=" + w == v + ['='] + w;
    SplitAround(v, '=', w);
    assert OneLine(p) by {
      forall i | 0 <= i < |p| ensures p[i] != '\r' && p[i] != '\n' {
        if i < |k| { assert p[i] == k[i]; }
        else if |k| < i < |k| + 1 + |v| { assert p[i] == v[i - |k| - 1]; }
        else if i > |k| + 1 + |v| { assert p[i] == w[i - |k| - |v| - 2]; }
      }
    }
    OneLineDoesNotEndWithCRLF(p);
  }

  /** A record without a `:` after its last `;` has no value: the value
      step finds no `:` to start from and fails. */
  lemma NoColonNoValue(c: string)
    requires ':' !in c
    ensures Lookaround(c, ":", CRLF, 0).None?
  {
    forall q: nat ensures !OccursAt(c, q, ":") {
      OccursAtLiteral(c, q, ":");
      if q + 1 <= |c| {
        assert c[q..q + 1][0] == c[q];
      }
    }
  }

  /** The `;` test looks at the whole record, value included: a record
      `NAME:V1;V2` whose value merely holds a `;` takes the parameter path,
      whose name runs to that `;`, and fails for want of a `:` after it
      (`GEO:1;2` throws). */
  lemma SemicolonInValueFails(name: string, v1: string, v2: string)
    requires ';' !in name && ';' !in v1 && ';' !in v2 && ':' !in v2
    ensures Parse(CRLF + name + ":" + v1 + ";" + v2 + CRLF) == Err(MissingValue)
  {
    var head := name + ":" + v1;
    var tail := v2 + CRLF;
    assert CRLF + name + ":" + v1 + ";" + v2 + CRLF == CRLF + head + [';'] + tail;
    assert ';' !in head;
    ParameterPathOf(head, tail);
    SplitFree(tail, ';');
    FinalCRLF(v2);
    assert HasSuffix(tail, CRLF) by { assert tail[|tail| - 2..] == CRLF; }
    assert CollectParameters(map[], [tail]) == Ok(map[]);
    assert FirstEndingWithCRLF([tail]) == Some(tail);
    assert ':' !in tail;
    NoColonNoValue(tail);
  }

  /** The parameter path on a one-line record `NAME;P1;...;Pn:VALUE` CRLF
      whose last piece has no `:`: the name is `NAME`, the value is
      `VALUE`, the pieces before the last are collected as parameters and
      the last piece is the parameter in front of the value. */
  lemma {:induction false} ParseParameterRecord(name: string, pieces: seq<string>, value: string)
    requires |pieces| >= 1 && ';' !in name
    requires forall k | 0 <= k < |pieces| :: ';' !in pieces[k] && OneLine(pieces[k])
    requires ':' !in pieces[|pieces| - 1]
    requires ';' !in value && !Contains(value, CRLF)
    ensures Parse(CRLF + name + ";" + Join(pieces, ";") + ":" + value + CRLF)
            == match CollectParameters(map[], pieces[..|pieces| - 1])
               case Err(e) => Err(e)
               case Ok(m) => Ok(Attribute(name, value, WithLastParameter(m, pieces[|pieces| - 1])))
  {
    var n := |pieces|;
    var head := pieces[n - 1];
    var last := head + ":" + value + CRLF;
    var init := pieces[..n - 1];
    var ps := init + [last];
    JoinExtendLast(pieces, ":" + value + CRLF, ";");
    var rest := Join(ps, ";");
    var s := CRLF + name + ";" + Join(pieces, ";") + ":" + value + CRLF;
    assert last == head + (":" + value + CRLF);
    assert rest == Join(pieces, ";") + (":" + value + CRLF);
    assert s == CRLF + name + [';'] + rest;
    ParameterPathOf(name, rest);
    assert forall k | 0 <= k < |ps| :: ';' !in ps[k] by {
      forall k | 0 <= k < |ps| ensures ';' !in ps[k] {
        if k < n - 1 { assert ps[k] == pieces[k]; }
      }
    }
    SplitJoin(ps, ';');
    assert HasSuffix(last, CRLF) by { assert last[|last| - 2..] == CRLF; }
    CollectSkipsLast(map[], init, last);
    var c := CollectParameters(map[], init);
    if c.Ok? {
      ValueFromLast(name, c, init, head, value);
    }
  }

  /** The value step finds the value in the last piece when no piece before
      it ends with CRLF. */
  lemma ValueFromLast(name: string, c: Result<map<string, string>>, init: seq<string>, head: string, value: string)
    requires c.Ok? && forall k | 0 <= k < |init| :: OneLine(init[k])
    requires ':' !in head && !Contains(value, CRLF)
    ensures ValueFrom(name, c.value, init + [head + ":" + value + CRLF])
            == Ok(Attribute(name, value, WithLastParameter(c.value, head)))
  {
    var last := head + ":" + value + CRLF;
    assert HasSuffix(last, CRLF) by { assert last[|last| - 2..] == CRLF; }
    forall k | 0 <= k < |init| ensures !HasSuffix(init[k], CRLF) {
      OneLineDoesNotEndWithCRLF(init[k]);
    }
    FirstEndingWithCRLFIsLast(init, last);
    ValueAfterFirstColon(head, value);
    assert SubstringWith(last, Range(|head| + 1, |value|)) == value;
    assert SubstringTo(last, |head|) == head;
  }

  /** The same, when the collected parameters with the last one added are
      a known dictionary. */
  lemma ParseParameterRecordOk(name: string, pieces: seq<string>, value: string, m: map<string, string>)
    requires |pieces| >= 1 && ';' !in name
    requires forall k | 0 <= k < |pieces| :: ';' !in pieces[k] && OneLine(pieces[k])
    requires ':' !in pieces[|pieces| - 1]
    requires ';' !in value && !Contains(value, CRLF)
    requires CollectParameters(map[], pieces[..|pieces| - 1]).Ok?
    requires WithLastParameter(CollectParameters(map[], pieces[..|pieces| - 1]).value, pieces[|pieces| - 1]) == m
    ensures Parse(CRLF + name + ";" + Join(pieces, ";") + ":" + value + CRLF) == Ok(Attribute(name, value, m))
  {
    ParseParameterRecord(name, pieces, value);
  }

  // ---- the round trip with parameters ----

  /** Text that `;`, `=` and the line structure cannot split. */
  predicate PlainWord(w: string) {
    OneLine(w) && ';' !in w && '=' !in w
  }

  /** A parameter key: a plain word without `:`. */
  predicate ParameterKey(k: string) {
    PlainWord(k) && ':' !in k
  }

  /** The `K=V` pieces between the `;` separators, in key order. */
  function Pieces(attrs: map<string, string>, ks: seq<string>): (ps: seq<string>)
    requires forall k | k in ks :: k in attrs
    ensures |ps| == |ks|
    ensures forall i | 0 <= i < |ks| :: ps[i] == ks[i] + "=" + attrs[ks[i]]
  {
    seq(|ks|, i requires 0 <= i < |ks| => ks[i] + "=" + attrs[ks[i]])
  }

  lemma {:induction false} ParamsTextAppend(attrs: map<string, string>, ks1: seq<string>, ks2: seq<string>)
    requires forall k | k in ks1 + ks2 :: k in attrs
    ensures ParamsText(attrs, ks1) + ParamsText(attrs, ks2) == ParamsText(attrs, ks1 + ks2)
    decreases |ks2|
  {
    if ks2 == [] {
      assert ks1 + ks2 == ks1;
    } else {
      var ks := ks1 + ks2;
      assert ks[..|ks| - 1] == ks1 + ks2[..|ks2| - 1];
      ParamsTextAppend(attrs, ks1, ks2[..|ks2| - 1]);
    }
  }

  lemma {:induction false} JoinSnoc(parts: seq<string>, x: string, sep: string)
    requires |parts| >= 1
    ensures Join(parts + [x], sep) == Join(parts, sep) + sep + x
  {
    if |parts| > 1 {
      assert (parts + [x])[1..] == parts[1..] + [x];
      JoinSnoc(parts[1..], x, sep);
    }
  }

  lemma {:induction false} ParamsTextJoin(attrs: map<string, string>, ks: seq<string>)
    requires |ks| >= 1 && forall k | k in ks :: k in attrs
    ensures ParamsText(attrs, ks) == ";" + Join(Pieces(attrs, ks), ";")
  {
    var n := |ks|;
    if n > 1 {
      ParamsTextJoin(attrs, ks[..n - 1]);
      assert Pieces(attrs, ks) == Pieces(attrs, ks[..n - 1]) + [ks[n - 1] + "=" + attrs[ks[n - 1]]];
      JoinSnoc(Pieces(attrs, ks[..n - 1]), ks[n - 1] + "=" + attrs[ks[n - 1]], ";");
    } else {
      assert ks[..0] == [];
    }
  }

  lemma SplitKeyValue(k: string, v: string)
    requires '=' !in k && '=' !in v
    ensures Split(k + "=" + v, '=') == [k, v]
  {
    SplitAround(k, '=', v);
    SplitFree(v, '=');
  }

  lemma PieceIsPlain(k: string, v: string)
    requires PlainWord(k) && PlainWord(v)
    ensures OneLine(k + "=" + v) && ';' !in k + "=" + v
  {
    var p := k + "=" + v;
    forall i | 0 <= i < |p| ensures p[i] != '\r' && p[i] != '\n' {
      if i < |k| { assert p[i] == k[i]; }
      else if i > |k| { assert p[i] == v[i - |k| - 1]; }
    }
  }

  /** `m` is `m0` with the keys of `ks` set to their values in `attrs`. */
  ghost predicate Overwrites(m: map<string, string>, m0: map<string, string>, attrs: map<string, string>, ks: seq<string>)
    requires forall k | k in ks :: k in attrs
  {
    (forall k :: k in m <==> k in m0 || k in ks)
    && (forall k | k in m :: m[k] == if k in ks then attrs[k] else m0[k])
  }

  /** The parameter loop stores every `K=V` piece of plain words. */
  lemma {:induction false} CollectPieces(m0: map<string, string>, attrs: map<string, string>, ks: seq<string>)
    requires forall k | k in ks :: k in attrs && PlainWord(k) && PlainWord(attrs[k])
    ensures CollectParameters(m0, Pieces(attrs, ks)).Ok?
    ensures Overwrites(CollectParameters(m0, Pieces(attrs, ks)).value, m0, attrs, ks)
    decreases |ks|
  {
    if ks != [] {
      var ps := Pieces(attrs, ks);
      var k0 := ks[0];
      assert k0 in ks;
      PieceIsPlain(k0, attrs[k0]);
      OneLineDoesNotEndWithCRLF(ps[0]);
      SplitKeyValue(k0, attrs[k0]);
      assert ps[1..] == Pieces(attrs, ks[1..]);
      var m1 := m0[k0 := attrs[k0]];
      CollectPieces(m1, attrs, ks[1..]);
      var m := CollectParameters(m1, Pieces(attrs, ks[1..])).value;
      assert CollectParameters(m0, ps) == CollectParameters(m1, Pieces(attrs, ks[1..]));
      forall k ensures k in ks <==> k == k0 || k in ks[1..] {
        assert ks == [k0] + ks[1..];
      }
    }
  }

  /** The order in which `text` writes the parameters. */
  ghost function ParameterOrder(attrs: map<string, string>): (ks: seq<string>)
    ensures forall k :: k in ks <==> k in attrs
    ensures PlainKeys(attrs) != {} ==> |ks| >= 1 && ks[|ks| - 1] in PlainKeys(attrs)
  {
    var colon := SortedDescending(ColonKeys(attrs));
    var plain := SortedDescending(PlainKeys(attrs));
    assert forall k | k in attrs :: k in ColonKeys(attrs) || k in PlainKeys(attrs);
    assert plain != [] ==> plain[|plain| - 1] in plain;
    colon + plain
  }

  lemma ParamsAsPieces(m: map<string, string>, colon: seq<string>, plain: seq<string>)
    requires |colon + plain| >= 1 && forall k | k in colon + plain :: k in m
    ensures ParamsText(m, colon) + ParamsText(m, plain) == ";" + Join(Pieces(m, colon + plain), ";")
  {
    ParamsTextAppend(m, colon, plain);
    ParamsTextJoin(m, colon + plain);
  }

  lemma RecordShape(name: string, p1: string, p2: string, j: string, v: string)
    requires p1 + p2 == ";" + j
    ensures CRLF + (name + p1 + p2 + ":" + v + CRLF) == CRLF + name + ";" + j + ":" + v + CRLF
  {
    var x := name + p1 + p2;
    assert x == name + (p1 + p2);
    assert x == name + ";" + j;
    assert CRLF + (x + ":" + v + CRLF) == CRLF + x + ":" + v + CRLF;
    assert CRLF + x == CRLF + name + ";" + j;
  }

  lemma SerializedAsPieces(a: Attribute)
    requires |a.attrs| != 0
    ensures CRLF + Serialized(a)
            == CRLF + a.name + ";" + Join(Pieces(a.attrs, ParameterOrder(a.attrs)), ";") + ":" + a.value + CRLF
  {
    var m := a.attrs;
    var colon := SortedDescending(ColonKeys(m));
    var plain := SortedDescending(PlainKeys(m));
    SerializedWithParameters(a, colon, plain);
    var ks := ParameterOrder(m);
    assert ks == colon + plain;
    ParamsAsPieces(m, colon, plain);
    RecordShape(a.name, ParamsText(m, colon), ParamsText(m, plain), Join(Pieces(m, ks), ";"), a.value);
  }

  /** Storing the last key over the keys collected before it restores the
      whole dictionary. */
  lemma LastKeyCompletes(before: map<string, string>, m: map<string, string>, ks: seq<string>)
    requires |ks| >= 1 && forall k :: k in ks <==> k in m
    requires Overwrites(before, map[], m, ks[..|ks| - 1])
    ensures before[ks[|ks| - 1] := m[ks[|ks| - 1]]] == m
  {
    var kl := ks[|ks| - 1];
    assert ks == ks[..|ks| - 1] + [kl];
  }

  lemma ParsedParameters(m: map<string, string>, ks: seq<string>)
    requires |ks| >= 1 && forall k :: k in ks <==> k in m
    requires forall k | k in m :: ParameterKey(k) && PlainWord(m[k])
    ensures CollectParameters(map[], Pieces(m, ks)[..|ks| - 1]).Ok?
    ensures WithLastParameter(CollectParameters(map[], Pieces(m, ks)[..|ks| - 1]).value, Pieces(m, ks)[|ks| - 1]) == m
  {
    var init := ks[..|ks| - 1];
    var kl := ks[|ks| - 1];
    assert kl in ks;
    PiecesPrefix(m, ks);
    CollectPieces(map[], m, init);
    var before := CollectParameters(map[], Pieces(m, init)).value;
    LastPieceSets(before, kl, m[kl]);
    LastKeyCompletes(before, m, ks);
  }

  lemma PiecesPrefix(m: map<string, string>, ks: seq<string>)
    requires |ks| >= 1 && forall k | k in ks :: k in m
    ensures Pieces(m, ks)[..|ks| - 1] == Pieces(m, ks[..|ks| - 1])
  {
  }

  lemma LastPieceSets(before: map<string, string>, k: string, v: string)
    requires ParameterKey(k) && PlainWord(v)
    ensures WithLastParameter(before, k + "=" + v) == before[k := v]
  {
    SplitKeyValue(k, v);
    assert (k + "=" + v)[|k|] == '=';
  }

  /** The `K=V` pieces of plain keys and values are one-line texts without
      `;`, and the last one has no `:` when its value has none. */
  lemma PiecesArePlain(m: map<string, string>, ks: seq<string>)
    requires |ks| >= 1 && forall k | k in ks :: k in m && ParameterKey(k) && PlainWord(m[k])
    requires ':' !in m[ks[|ks| - 1]]
    ensures forall i | 0 <= i < |ks| :: ';' !in Pieces(m, ks)[i] && OneLine(Pieces(m, ks)[i])
    ensures ':' !in Pieces(m, ks)[|ks| - 1]
  {
    var n := |ks|;
    var ps := Pieces(m, ks);
    forall i | 0 <= i < n ensures ';' !in ps[i] && OneLine(ps[i]) {
      assert ks[i] in ks;
      PieceIsPlain(ks[i], m[ks[i]]);
    }
    var kl := ks[n - 1];
    assert kl in ks;
    var p := ps[n - 1];
    forall i | 0 <= i < |p| ensures p[i] != ':' {
      if i < |kl| { assert p[i] == kl[i]; }
      else if i > |kl| { assert p[i] == m[kl][i - |kl| - 1]; }
    }
  }

  /** The parameter record built from the pieces of `m` in the order `ks`
      parses back to `m`. */
  lemma PiecesRoundTrip(name: string, value: string, m: map<string, string>, ks: seq<string>)
    requires |ks| >= 1 && forall k :: k in ks <==> k in m
    requires forall k | k in m :: ParameterKey(k) && PlainWord(m[k])
    requires ':' !in m[ks[|ks| - 1]]
    requires ';' !in name && ';' !in value && !Contains(value, CRLF)
    ensures Parse(CRLF + name + ";" + Join(Pieces(m, ks), ";") + ":" + value + CRLF) == Ok(Attribute(name, value, m))
  {
    PiecesArePlain(m, ks);
    ParsedParameters(m, ks);
    ParseParameterRecordOk(name, Pieces(m, ks), value, m);
  }

  /** `init(from:)` undoes `text` on the parameter path, provided the keys
      and parameter values are plain words, the value has no `;` and no
      CRLF, and at least one parameter value has no `:`. That last
      condition is what the serializer's order is for: the parameters whose
      value holds a `:` are written first, so the last parameter, which
      the parser reads together with the value, has none. */
  lemma ParameterRoundTrip(a: Attribute)
    requires |a.attrs| != 0 && PlainKeys(a.attrs) != {}
    requires ';' !in a.name && ';' !in a.value && !Contains(a.value, CRLF)
    requires forall k | k in a.attrs :: ParameterKey(k) && PlainWord(a.attrs[k])
    ensures Parse(CRLF + Serialized(a)) == Ok(a)
  {
    var ks := ParameterOrder(a.attrs);
    SerializedAsPieces(a);
    PiecesRoundTrip(a.name, a.value, a.attrs, ks);
  }
}
