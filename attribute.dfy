/** `CKAttribute`: one content line, `NAME[;K=V]*:VALUE` (sections 3.1 and
    3.2 of RFC 5545), its parser and its serializer. */
module Attributes {
  import opened Results
  import opened Text
  import opened Search

  /** A property: its name, its value and its parameters. The memberwise
      initializer `init(name:value:attrs:)` is the datatype constructor. */
  datatype Attribute = Attribute(name: string, value: string, attrs: map<string, string>)

  // ---- parsing: `init(from:)` ----

  /** The parse of one record text: the parameter path is taken exactly when
      the text holds a `;` anywhere, the value included. */
  function Parse(s: string): Result<Attribute> {
    if ';' in s then ParseWithParameters(s) else ParseBare(s)
  }

  /** Without `;`: the name runs from after the first CRLF to the next
      `:`, and the value is everything after that `:` with its CRLFs
      removed. */
  function ParseBare(s: string): (r: Result<Attribute>)
    ensures r.Ok? ==> r.value.attrs == map[]
  {
    match Lookaround(s, CRLF, ":", 0)
    case None => Err(MissingName)
    case Some(n) =>
      Ok(Attribute(SubstringWith(s, n), ReplaceAll(SubstringFrom(s, n.End() + 1), CRLF, ""), map[]))
  }

  /** With `;`: the name runs to the first `;`; the `;`-separated pieces
      that do not end with CRLF are parameters; the first piece that ends
      with CRLF holds the value after its first `:`, and what precedes that
      `:` is one more parameter when it holds `=`. */
  function ParseWithParameters(s: string): Result<Attribute> {
    match Lookaround(s, CRLF, ";", 0)
    case None => Err(MissingName)
    case Some(n) =>
      var pieces := Split(SubstringFrom(s, n.End() + 1), ';');
      match CollectParameters(map[], pieces)
      case Err(e) => Err(e)
      case Ok(attrs) => ValueFrom(SubstringWith(s, n), attrs, pieces)
  }

  /** The loop over the pieces that do not end with CRLF: each must split
      at `=` into at least two parts, and the first part is stored with the
      second; a later parameter overwrites an earlier one with the same
      key. */
  function CollectParameters(attrs: map<string, string>, pieces: seq<string>): Result<map<string, string>>
    decreases |pieces|
  {
    if pieces == [] then Ok(attrs)
    else if HasSuffix(pieces[0], CRLF) then CollectParameters(attrs, pieces[1..])
    else
      var kv := Split(pieces[0], '=');
      if |kv| < 2 then Err(MalformedParameter)
      else CollectParameters(attrs[kv[0] := kv[1]], pieces[1..])
  }

  /** `components.first(where: { $0.hasSuffix("\r\n") })`. */
  function FirstEndingWithCRLF(pieces: seq<string>): (r: Option<string>)
    ensures r.Some? ==> r.value in pieces && HasSuffix(r.value, CRLF)
    ensures r.None? ==> forall k | 0 <= k < |pieces| :: !HasSuffix(pieces[k], CRLF)
  {
    if pieces == [] then None
    else if HasSuffix(pieces[0], CRLF) then Some(pieces[0])
    else FirstEndingWithCRLF(pieces[1..])
  }

  /** The value step of the parameter path, and the parameter in front of
      the value's `:`. */
  function ValueFrom(name: string, attrs: map<string, string>, pieces: seq<string>): Result<Attribute> {
    match FirstEndingWithCRLF(pieces)
    case None => Err(MissingValue)
    case Some(c) =>
      match Lookaround(c, ":", CRLF, 0)
      case None => Err(MissingValue)
      case Some(v) =>
        Ok(Attribute(name, SubstringWith(c, v), WithLastParameter(attrs, SubstringTo(c, v.location - 1))))
  }

  /** The text before the value's `:` is stored as a parameter when it
      holds `=`. */
  function WithLastParameter(attrs: map<string, string>, head: string): map<string, string> {
    if '=' in head then
      var kv := Split(head, '=');
      if |kv| >= 2 then attrs[kv[0] := kv[1]] else attrs
    else attrs
  }

  /** `init(from:)` as the initializer runs it: the parameter path loops
      over the pieces, filling the parameter dictionary. */
  method ParseRecord(s: string) returns (r: Result<Attribute>)
    ensures r == Parse(s)
  {
    if ';' !in s {
      return ParseBare(s);
    }
    var n := Lookaround(s, CRLF, ";", 0);
    if n.None? {
      return Err(MissingName);
    }
    var name := SubstringWith(s, n.value);
    var pieces := Split(SubstringFrom(s, n.value.End() + 1), ';');
    var attrs: map<string, string> := map[];
    var i := 0;
    while i < |pieces|
      invariant 0 <= i <= |pieces|
      invariant CollectParameters(map[], pieces) == CollectParameters(attrs, pieces[i..])
    {
      assert pieces[i..][1..] == pieces[i + 1..];
      if !HasSuffix(pieces[i], CRLF) {
        var kv := Split(pieces[i], '=');
        if |kv| < 2 {
          return Err(MalformedParameter);
        }
        attrs := attrs[kv[0] := kv[1]];
      }
      i := i + 1;
    }
    assert pieces[i..] == [];
    r := ValueFrom(name, attrs, pieces);
  }

  // ---- serializing: `text` ----

  /** String order `<` on code units: lexicographic, a proper prefix first. */
  predicate Less(a: string, b: string) {
    if a == [] then b != []
    else if b == [] then false
    else if a[0] != b[0] then a[0] < b[0]
    else Less(a[1..], b[1..])
  }

  lemma {:induction false} LessIrreflexive(a: string)
    ensures !Less(a, a)
  {
    if a != [] {
      LessIrreflexive(a[1..]);
    }
  }

  lemma {:induction false} LessAsymmetric(a: string, b: string)
    requires Less(a, b)
    ensures !Less(b, a)
  {
    if a != [] && b != [] && a[0] == b[0] {
      LessAsymmetric(a[1..], b[1..]);
    }
  }

  lemma {:induction false} LessTransitive(a: string, b: string, c: string)
    requires Less(a, b) && Less(b, c)
    ensures Less(a, c)
  {
    if a != [] && a[0] == b[0] && b[0] == c[0] {
      LessTransitive(a[1..], b[1..], c[1..]);
    }
  }

  lemma {:induction false} LessTotal(a: string, b: string)
    requires a != b
    ensures Less(a, b) || Less(b, a)
  {
    if a != [] && b != [] && a[0] == b[0] {
      assert a == [a[0]] + a[1..] && b == [b[0]] + b[1..];
      LessTotal(a[1..], b[1..]);
    }
  }

  /** The greatest key of a non-empty key set. */
  predicate IsGreatest(m: string, ks: set<string>) {
    m in ks && forall k | k in ks && k != m :: Less(k, m)
  }

  lemma {:induction false} GreatestExists(ks: set<string>)
    requires ks != {}
    ensures exists m :: IsGreatest(m, ks)
    decreases |ks|
  {
    var x :| x in ks;
    var rest := ks - {x};
    if rest == {} {
      assert ks == {x};
      assert IsGreatest(x, ks);
    } else {
      GreatestExists(rest);
      var m :| IsGreatest(m, rest);
      if Less(x, m) {
        assert IsGreatest(m, ks);
      } else {
        LessTotal(x, m);
        forall k | k in ks && k != x ensures Less(k, x) {
          if k != m {
            LessTransitive(k, m, x);
          }
        }
        assert IsGreatest(x, ks);
      }
    }
  }

  lemma GreatestUnique(m: string, n: string, ks: set<string>)
    requires IsGreatest(m, ks) && IsGreatest(n, ks)
    ensures m == n
  {
    if m != n {
      LessAsymmetric(m, n);
    }
  }

  ghost function Greatest(ks: set<string>): (m: string)
    requires ks != {}
    ensures IsGreatest(m, ks)
  {
    GreatestExists(ks);
    var m :| IsGreatest(m, ks);
    m
  }

  /** `keys.sorted(by: >)`: the keys in strictly descending order. */
  ghost function SortedDescending(ks: set<string>): (r: seq<string>)
    decreases |ks|
    ensures |r| == |ks|
    ensures forall k :: k in r <==> k in ks
  {
    if ks == {} then []
    else
      var m := Greatest(ks);
      [m] + SortedDescending(ks - {m})
  }

  /** The sorted keys are strictly descending. */
  lemma {:induction false} SortedIsDescending(ks: set<string>)
    ensures forall i, j | 0 <= i < j < |SortedDescending(ks)| ::
              Less(SortedDescending(ks)[j], SortedDescending(ks)[i])
    decreases |ks|
  {
    if ks != {} {
      var m := Greatest(ks);
      var rest := SortedDescending(ks - {m});
      SortedIsDescending(ks - {m});
      assert SortedDescending(ks) == [m] + rest;
      forall i, j | 0 <= i < j < |[m] + rest| ensures Less(([m] + rest)[j], ([m] + rest)[i]) {
        if i == 0 {
          assert rest[j - 1] in ks - {m};
        } else {
          assert ([m] + rest)[j] == rest[j - 1] && ([m] + rest)[i] == rest[i - 1];
        }
      }
    }
  }

  /** The parameters whose value holds a `:`, and the others. */
  function ColonKeys(attrs: map<string, string>): set<string> {
    set k | k in attrs && ':' in attrs[k]
  }

  function PlainKeys(attrs: map<string, string>): set<string> {
    set k | k in attrs && ':' !in attrs[k]
  }

  /** `;K=V` for each key, in the given order. */
  function ParamsText(attrs: map<string, string>, ks: seq<string>): string
    requires forall k | k in ks :: k in attrs
  {
    if ks == [] then []
    else ParamsText(attrs, ks[..|ks| - 1]) + ";" + ks[|ks| - 1] + "=" + attrs[ks[|ks| - 1]]
  }

  /** The text of an attribute: the name, then the colon-valued parameters
      in descending key order, then the other parameters in descending key
      order, then `:`, the value and CRLF. */
  ghost function Serialized(a: Attribute): string {
    a.name
    + (if |a.attrs| == 0 then ":" + a.value
       else ParamsText(a.attrs, SortedDescending(ColonKeys(a.attrs)))
            + ParamsText(a.attrs, SortedDescending(PlainKeys(a.attrs)))
            + ":" + a.value)
    + CRLF
  }

  /** Sorting a key set in descending order, by repeatedly taking the
      greatest remaining key. */
  method SortKeysDescending(ks: set<string>) returns (r: seq<string>)
    ensures r == SortedDescending(ks)
  {
    r := [];
    var rest := ks;
    while rest != {}
      invariant SortedDescending(ks) == r + SortedDescending(rest)
      decreases |rest|
    {
      GreatestExists(rest);
      var m :| m in rest && forall k | k in rest && k != m :: Less(k, m);
      GreatestUnique(m, Greatest(rest), rest);
      r := r + [m];
      rest := rest - {m};
    }
  }

  /** One of the two `for key in ...` loops of `text`: `;K=V` per key. */
  method AppendParameters(t0: string, attrs: map<string, string>, ks: seq<string>) returns (t: string)
    requires forall k | k in ks :: k in attrs
    ensures t == t0 + ParamsText(attrs, ks)
  {
    t := t0;
    for i := 0 to |ks|
      invariant t == t0 + ParamsText(attrs, ks[..i])
    {
      assert ks[..i + 1][..i] == ks[..i];
      t := t + ";" + ks[i] + "=" + attrs[ks[i]];
    }
    assert ks[..|ks|] == ks;
  }

  /** `text`: the name, the parameters and the value, ended by CRLF. */
  method TextOf(a: Attribute) returns (t: string)
    ensures t == Serialized(a)
  {
    t := a.name;
    if |a.attrs| != 0 {
      var colon := SortKeysDescending(ColonKeys(a.attrs));
      t := AppendParameters(t, a.attrs, colon);
      var plain := SortKeysDescending(PlainKeys(a.attrs));
      t := AppendParameters(t, a.attrs, plain);
      t := t + ":" + a.value;
      SerializedWithParameters(a, colon, plain);
    } else {
      t := t + ":" + a.value;
      assert Serialized(a) == a.name + ":" + a.value + CRLF;
    }
    t := t + CRLF;
  }

  lemma SerializedWithParameters(a: Attribute, colon: seq<string>, plain: seq<string>)
    requires |a.attrs| != 0
    requires colon == SortedDescending(ColonKeys(a.attrs)) && plain == SortedDescending(PlainKeys(a.attrs))
    ensures Serialized(a) == a.name + ParamsText(a.attrs, colon) + ParamsText(a.attrs, plain) + ":" + a.value + CRLF
  {
    var p, q := ParamsText(a.attrs, colon), ParamsText(a.attrs, plain);
    assert Serialized(a) == a.name + (p + q + ":" + a.value) + CRLF;
    Regroup(a.name, p, q, ":", a.value, CRLF);
  }

  lemma Regroup(n: string, p: string, q: string, c: string, v: string, e: string)
    ensures n + (p + q + c + v) + e == n + p + q + c + v + e
  {
  }
}
