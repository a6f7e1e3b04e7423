/** The component classes: each holds its `attributes` array as an
    `AttributeList` over its own key table, and its children as the arrays
    its initializer filled. Their initializers and `text` getters are
    proved against the value-level definitions of module Components. */
module ComponentClasses {
  import opened Results
  import opened Text
  import opened Search
  import opened Attributes
  import opened Registry
  import opened Extraction
  import opened Accessors
  import opened Components

  // ---- the text loops shared by every kind ----

  /** One turn of a text loop: appending the next element's text. */
  lemma TextStep<T>(f: T -> string, xs: seq<T>, i: nat, t0: string, t: string, piece: string)
    requires i < |xs| && t == t0 + ConcatMap(f, xs[..i]) && piece == f(xs[i])
    ensures t + piece == t0 + ConcatMap(f, xs[..i + 1])
  {
    ConcatMapSnoc(f, xs, i);
  }

  /** `for attr in attributes { contents += attr.text }`. */
  method AppendAttributeTexts(t0: string, items: seq<Attribute>) returns (t: string)
    ensures t == t0 + ConcatMap(Serialized, items)
  {
    t := t0;
    for i := 0 to |items|
      invariant t == t0 + ConcatMap(Serialized, items[..i])
    {
      var line := TextOf(items[i]);
      TextStep(Serialized, items, i, t0, t, line);
      t := t + line;
    }
    assert items[..|items|] == items;
  }

  /** The same loop over alarms, journals or daylights. */
  method AppendOpaqueTexts(t0: string, items: seq<Opaque>) returns (t: string)
    ensures t == t0 + ConcatMap(OpaqueText, items)
  {
    t := t0;
    for i := 0 to |items|
      invariant t == t0 + ConcatMap(OpaqueText, items[..i])
    {
      TextStep(OpaqueText, items, i, t0, t, items[i].text);
      t := t + items[i].text;
    }
    assert items[..|items|] == items;
  }

  /** Sequence facts the loops need, proved away from their contexts. */
  lemma TakeSnoc<T>(xs: seq<T>, i: nat)
    requires i < |xs|
    ensures xs[..i + 1] == xs[..i] + [xs[i]]
    ensures xs[..i] + [xs[i]] + xs[i + 1..] == xs
  {
  }

  lemma TakeAll<T>(xs: seq<T>)
    ensures xs[..|xs|] == xs
  {
  }

  /** The state of a descending deletion loop over the spans `rs` found in
      `contents0`: `rs[..j]` still lie, ascending, in `contents`, and the
      texts taken so far followed by those still to peel are all of them. */
  ghost predicate Peeling(contents0: string, rs: seq<Range>, contents: string, j: nat, taken: seq<string>)
  {
    && Ascending(contents0, rs)
    && j <= |rs|
    && Ascending(contents, rs[..j])
    && taken + Peel(contents, rs[..j]).texts == Peel(contents0, rs).texts
    && Peel(contents, rs[..j]).rest == Peel(contents0, rs).rest
  }

  lemma PeelStart(contents0: string, rs: seq<Range>)
    requires Ascending(contents0, rs)
    ensures Peeling(contents0, rs, contents0, |rs|, [])
  {
    assert rs[..|rs|] == rs;
  }

  /** One step: the span `rs[j - 1]` is taken and deleted. */
  lemma PeelStep(contents0: string, rs: seq<Range>, contents: string, j: nat, taken: seq<string>)
    requires 0 < j && Peeling(contents0, rs, contents, j, taken)
    ensures InBounds(contents, rs[j - 1])
    ensures var piece := SubstringWith(contents, rs[j - 1]);
            var next := Remove(contents, rs[j - 1]);
            && Peeling(contents0, rs, next, j - 1, taken + [piece])
            && Peel(contents0, rs).texts == (taken + [piece]) + Peel(next, rs[..j - 1]).texts
  {
    var prior := rs[..j];
    assert prior[|prior| - 1] == rs[j - 1] && prior[..|prior| - 1] == rs[..j - 1];
    PeelUnfold(contents, prior);
    ConcatAssociates(taken, [SubstringWith(contents, rs[j - 1])], Peel(Remove(contents, rs[j - 1]), rs[..j - 1]).texts);
  }

  /** With no span left, the texts taken and the text left are the peel's. */
  lemma PeelDone(contents0: string, rs: seq<Range>, contents: string, taken: seq<string>)
    requires Peeling(contents0, rs, contents, 0, taken)
    ensures taken == Peel(contents0, rs).texts && contents == Peel(contents0, rs).rest
  {
    assert rs[..0] == [];
    assert taken + [] == taken;
  }

  /** A succeeding span extends a succeeding `map`. */
  lemma MapStep<T>(f: string -> Result<T>, texts: seq<string>, i: nat, vs: seq<T>, v: T)
    requires i < |texts| && MapAll(f, texts[..i]) == Ok(vs) && f(texts[i]) == Ok(v)
    ensures MapAll(f, texts[..i + 1]) == Ok(vs + [v])
  {
    TakeSnoc(texts, i);
    MapAllSnoc(f, texts[..i], texts[i]);
  }

  /** A failing span ends a throwing `map`, whatever follows it. */
  lemma MapStopsAt<T>(f: string -> Result<T>, taken: seq<string>, content: string, later: seq<string>, vs: seq<T>)
    requires MapAll(f, taken) == Ok(vs) && f(content).Err?
    ensures MapAll(f, (taken + [content]) + later) == Err(f(content).error)
  {
    MapAllSnoc(f, taken, content);
    MapAllStops(f, taken + [content], later);
  }

  // ---- CKStandard ----

  class Standard {
    const attributes: AttributeList

    constructor (items: seq<Attribute>)
      ensures fresh(attributes) && attributes.table == StandardKeys && attributes.items == items
    {
      attributes := new AttributeList(StandardKeys, items);
    }

    /** `init(from:)`. */
    static method FromText(contents: string) returns (r: Result<Standard>)
      ensures r.Err? <==> ParseStandard(contents).Err?
      ensures r.Err? ==> r.error == ParseStandard(contents).error
      ensures r.Ok? ==> fresh(r.value.attributes) && r.value.attributes.table == StandardKeys
      ensures r.Ok? ==> Ok(r.value.attributes.items) == ParseStandard(contents)
    {
      var attrs, _ := ConsumeRecords(contents, StandardKeys);
      if attrs.Err? {
        return Err(attrs.error);
      }
      var standard := new Standard(attrs.value);
      r := Ok(standard);
    }

    /** `standards(from: inout)`: the STANDARD blocks from the last to the
        first, each parsed and then deleted from the text. */
    static method Standards(contents0: string) returns (r: Result<seq<Standard>>, contents: string)
      ensures var rs := Matches(contents0, BlockPattern("STANDARD"));
              var peeled := Peel(contents0, rs);
              && (r.Err? <==> MapAll(ParseStandard, peeled.texts).Err?)
              && (r.Err? ==> r.error == MapAll(ParseStandard, peeled.texts).error)
              && (r.Ok? ==> StandardValues(r.value) == MapAll(ParseStandard, peeled.texts).value)
              && (r.Ok? ==> contents == peeled.rest)
    {
      r, contents := PeelBlocks(contents0, Matches(contents0, BlockPattern("STANDARD")));
    }

    /** The loop of `standards(from:)` over the ascending block ranges `rs`. */
    static method PeelBlocks(contents0: string, rs: seq<Range>) returns (r: Result<seq<Standard>>, contents: string)
      requires Ascending(contents0, rs)
      ensures r.Err? <==> MapAll(ParseStandard, Peel(contents0, rs).texts).Err?
      ensures r.Err? ==> r.error == MapAll(ParseStandard, Peel(contents0, rs).texts).error
      ensures r.Ok? ==> StandardValues(r.value) == MapAll(ParseStandard, Peel(contents0, rs).texts).value
      ensures r.Ok? ==> contents == Peel(contents0, rs).rest
    {
      contents := contents0;
      var out: seq<Standard> := [];
      ghost var taken: seq<string> := [];
      ghost var vs: seq<seq<Attribute>> := [];
      var j: nat := |rs|;
      PeelStart(contents0, rs);
      while j > 0
        invariant Peeling(contents0, rs, contents, j, taken)
        invariant MapAll(ParseStandard, taken) == Ok(vs)
        invariant StandardsHold(out, vs)
      {
        var item, next, taken' := TakeLast(contents0, rs, contents, j, taken, vs);
        assert StandardsHold(out, vs);
        if item.Err? {
          return Err(item.error), contents;
        }
        taken := taken';
        StandardsHoldSnoc(out, vs, item.value);
        out := out + [item.value];
        vs := vs + [item.value.attributes.items];
        contents := next;
        j := j - 1;
      }
      PeelDone(contents0, rs, contents, taken);
      StandardsHoldValues(out, vs);
      r := Ok(out);
    }

    /** One turn of `standards(from:)`: the last remaining block is parsed
        and deleted from the text. */
    static method TakeLast(ghost contents0: string, rs: seq<Range>, contents: string, j: nat,
                           ghost taken: seq<string>, ghost vs: seq<seq<Attribute>>)
      returns (item: Result<Standard>, next: string, ghost taken': seq<string>)
      requires 0 < j && Peeling(contents0, rs, contents, j, taken)
      requires MapAll(ParseStandard, taken) == Ok(vs)
      ensures InBounds(contents, rs[j - 1]) && next == Remove(contents, rs[j - 1])
      ensures taken' == taken + [SubstringWith(contents, rs[j - 1])]
      ensures Peeling(contents0, rs, next, j - 1, taken')
      ensures item.Err? ==> MapAll(ParseStandard, Peel(contents0, rs).texts) == Err(item.error)
      ensures item.Ok? ==> fresh(item.value.attributes)
      ensures item.Ok? ==> MapAll(ParseStandard, taken') == Ok(vs + [item.value.attributes.items])
    {
      PeelStep(contents0, rs, contents, j, taken);
      var content := SubstringWith(contents, rs[j - 1]);
      item := FromText(content);
      next := Remove(contents, rs[j - 1]);
      taken' := taken + [content];
      if item.Err? {
        MapStopsAt(ParseStandard, taken, content, Peel(next, rs[..j - 1]).texts, vs);
      } else {
        MapAllSnoc(ParseStandard, taken, content);
      }
    }

    /** `text`. */
    method Text() returns (t: string)
      ensures t == StandardText(attributes.items)
    {
      var contents := AppendAttributeTexts("", attributes.items);
      t := "BEGIN:STANDARD\r\n" + contents + "END:STANDARD\r\n";
    }

    /** `set(_:for key:)`, returning the standard itself. */
    method SetKey(given: seq<Attribute>, k: KeySpec) returns (r: Standard)
      requires k in attributes.table
      modifies attributes
      ensures r == this
      ensures attributes.items == SetSpec(old(attributes.items), given, k.raw, k.repeatable)
    {
      attributes.SetKey(given, k);
      r := this;
    }

    /** `set(_:for name:)`, returning the standard itself. */
    method SetName(given: seq<Attribute>, name: string) returns (r: Standard)
      modifies attributes
      ensures r == this
      ensures attributes.items == SetSpec(old(attributes.items), given, name, RepeatableName(attributes.table, name))
    {
      attributes.SetName(given, name);
      r := this;
    }

    /** `add(_:for key:)`, returning the standard itself. */
    method AddKey(given: seq<Attribute>, k: KeySpec) returns (r: Standard)
      requires k in attributes.table
      modifies attributes
      ensures r == this
      ensures attributes.items == AddSpec(old(attributes.items), given, k.raw, k.repeatable)
    {
      attributes.AddKey(given, k);
      r := this;
    }

    /** `add(_:for name:)`, returning the standard itself. */
    method AddName(given: seq<Attribute>, name: string) returns (r: Standard)
      modifies attributes
      ensures r == this
      ensures attributes.items == AddSpec(old(attributes.items), given, name, RepeatableName(attributes.table, name))
    {
      attributes.AddName(given, name);
      r := this;
    }

    /** `removeAll(for:)`, by key raw value or by name, returning the
        standard itself. */
    method RemoveAll(name: string) returns (r: Standard)
      modifies attributes
      ensures r == this
      ensures attributes.items == Without(old(attributes.items), name)
    {
      attributes.RemoveAll(name);
      r := this;
    }
  }

  /** The attribute lists of some standards, in order. */
  ghost function StandardValues(sts: seq<Standard>): (vs: seq<seq<Attribute>>)
    reads set st | st in sts :: st.attributes
    ensures |vs| == |sts|
  {
    if sts == [] then [] else StandardValues(sts[..|sts| - 1]) + [sts[|sts| - 1].attributes.items]
  }

  lemma {:induction false} StandardValuesAt(sts: seq<Standard>, i: nat)
    requires i < |sts|
    ensures StandardValues(sts)[i] == sts[i].attributes.items
    decreases |sts|
  {
    if i < |sts| - 1 {
      StandardValuesAt(sts[..|sts| - 1], i);
    }
  }

  /** The standards `sts` hold the attribute lists `vs`, position by position. */
  ghost predicate StandardsHold(sts: seq<Standard>, vs: seq<seq<Attribute>>)
    reads set st | st in sts :: st.attributes
  {
    |sts| == |vs| && forall k :: 0 <= k < |sts| ==> sts[k].attributes.items == vs[k]
  }

  lemma StandardsHoldSnoc(sts: seq<Standard>, vs: seq<seq<Attribute>>, st: Standard)
    requires StandardsHold(sts, vs)
    ensures StandardsHold(sts + [st], vs + [st.attributes.items])
  {
  }

  lemma {:induction false} StandardsHoldValues(sts: seq<Standard>, vs: seq<seq<Attribute>>)
    requires StandardsHold(sts, vs)
    ensures StandardValues(sts) == vs
    decreases |sts|
  {
    if sts != [] {
      StandardsHoldValues(sts[..|sts| - 1], vs[..|vs| - 1]);
    }
  }

  /** `try results.map { try CKStandard.init(from:) }`. */
  method StandardsFromTexts(texts: seq<string>) returns (r: Result<seq<Standard>>)
    ensures r.Err? <==> MapAll(ParseStandard, texts).Err?
    ensures r.Err? ==> r.error == MapAll(ParseStandard, texts).error
    ensures r.Ok? ==> StandardValues(r.value) == MapAll(ParseStandard, texts).value
  {
    var out: seq<Standard> := [];
    ghost var vs: seq<seq<Attribute>> := [];
    for i := 0 to |texts|
      invariant MapAll(ParseStandard, texts[..i]) == Ok(vs)
      invariant StandardsHold(out, vs)
    {
      var item := Standard.FromText(texts[i]);
      assert StandardsHold(out, vs);
      if item.Err? {
        TakeSnoc(texts, i);
        MapStopsAt(ParseStandard, texts[..i], texts[i], texts[i + 1..], vs);
        return Err(item.error);
      }
      MapStep(ParseStandard, texts, i, vs, item.value.attributes.items);
      StandardsHoldSnoc(out, vs, item.value);
      out := out + [item.value];
      vs := vs + [item.value.attributes.items];
    }
    TakeAll(texts);
    StandardsHoldValues(out, vs);
    r := Ok(out);
  }

  /** The texts of the standards, one after the other. */
  method AppendStandardTexts(t0: string, sts: seq<Standard>) returns (t: string)
    ensures t == t0 + ConcatMap(StandardText, StandardValues(sts))
  {
    t := t0;
    for i := 0 to |sts|
      invariant t == t0 + ConcatMap(StandardText, StandardValues(sts)[..i])
    {
      var text := sts[i].Text();
      StandardValuesAt(sts, i);
      TextStep(StandardText, StandardValues(sts), i, t0, t, text);
      t := t + text;
    }
    TakeAll(StandardValues(sts));
  }

  // ---- CKToDo ----

  class Todo {
    const attributes: AttributeList

    constructor (items: seq<Attribute>)
      ensures fresh(attributes) && attributes.table == TodoKeys && attributes.items == items
    {
      attributes := new AttributeList(TodoKeys, items);
    }

    /** `init(from:)`: the destructive extraction over the VTODO keys. */
    static method FromText(contents: string) returns (r: Result<Todo>)
      ensures r.Err? <==> ParseTodo(contents).Err?
      ensures r.Err? ==> r.error == ParseTodo(contents).error
      ensures r.Ok? ==> fresh(r.value.attributes) && r.value.attributes.table == TodoKeys
      ensures r.Ok? ==> Ok(r.value.attributes.items) == ParseTodo(contents)
    {
      var attrs, _ := ConsumeRecords(contents, TodoKeys);
      if attrs.Err? {
        return Err(attrs.error);
      }
      var todo := new Todo(attrs.value);
      r := Ok(todo);
    }

    /** `text`. */
    method Text() returns (t: string)
      ensures t == TodoText(attributes.items)
    {
      var contents := AppendAttributeTexts("", attributes.items);
      t := "BEGIN:VTODO\r\n" + contents + "END:VTODO\r\n";
    }
  }

  ghost function TodoValues(tds: seq<Todo>): (vs: seq<seq<Attribute>>)
    reads set td | td in tds :: td.attributes
    ensures |vs| == |tds|
  {
    if tds == [] then [] else TodoValues(tds[..|tds| - 1]) + [tds[|tds| - 1].attributes.items]
  }

  ghost predicate TodosHold(tds: seq<Todo>, vs: seq<seq<Attribute>>)
    reads set td | td in tds :: td.attributes
  {
    |tds| == |vs| && forall k :: 0 <= k < |tds| ==> tds[k].attributes.items == vs[k]
  }

  lemma TodosHoldSnoc(tds: seq<Todo>, vs: seq<seq<Attribute>>, td: Todo)
    requires TodosHold(tds, vs)
    ensures TodosHold(tds + [td], vs + [td.attributes.items])
  {
  }

  lemma {:induction false} TodosHoldValues(tds: seq<Todo>, vs: seq<seq<Attribute>>)
    requires TodosHold(tds, vs)
    ensures TodoValues(tds) == vs
    decreases |tds|
  {
    if tds != [] {
      TodosHoldValues(tds[..|tds| - 1], vs[..|vs| - 1]);
    }
  }

  /** `try results.map { try CKToDo.init(from:) }`. */
  method TodosFromTexts(texts: seq<string>) returns (r: Result<seq<Todo>>)
    ensures r.Err? <==> MapAll(ParseTodo, texts).Err?
    ensures r.Err? ==> r.error == MapAll(ParseTodo, texts).error
    ensures r.Ok? ==> TodoValues(r.value) == MapAll(ParseTodo, texts).value
  {
    var out: seq<Todo> := [];
    ghost var vs: seq<seq<Attribute>> := [];
    for i := 0 to |texts|
      invariant MapAll(ParseTodo, texts[..i]) == Ok(vs)
      invariant TodosHold(out, vs)
    {
      var item := Todo.FromText(texts[i]);
      assert TodosHold(out, vs);
      if item.Err? {
        TakeSnoc(texts, i);
        MapStopsAt(ParseTodo, texts[..i], texts[i], texts[i + 1..], vs);
        return Err(item.error);
      }
      MapStep(ParseTodo, texts, i, vs, item.value.attributes.items);
      TodosHoldSnoc(out, vs, item.value);
      out := out + [item.value];
      vs := vs + [item.value.attributes.items];
    }
    TakeAll(texts);
    TodosHoldValues(out, vs);
    r := Ok(out);
  }

  /** The texts of the to-dos, one after the other. */
  method AppendTodoTexts(t0: string, tds: seq<Todo>) returns (t: string)
    ensures t == t0 + ConcatMap(TodoText, TodoValues(tds))
  {
    ghost var vs := TodoValues(tds);
    t := t0;
    for i := 0 to |tds|
      invariant t == t0 + ConcatMap(TodoText, vs[..i])
    {
      var text := tds[i].Text();
      TodoValuesAt(tds, i);
      TextStep(TodoText, vs, i, t0, t, text);
      t := t + text;
    }
    TakeAll(vs);
  }

  lemma {:induction false} TodoValuesAt(tds: seq<Todo>, i: nat)
    requires i < |tds|
    ensures TodoValues(tds)[i] == tds[i].attributes.items
    decreases |tds|
  {
    if i < |tds| - 1 {
      TodoValuesAt(tds[..|tds| - 1], i);
    }
  }

  // ---- CKFreeBusy ----

  class FreeBusy {
    const attributes: AttributeList

    constructor (items: seq<Attribute>)
      ensures fresh(attributes) && attributes.table == FreeBusyKeys && attributes.items == items
    {
      attributes := new AttributeList(FreeBusyKeys, items);
    }

    /** `init(from:)`: the destructive extraction over the VFREEBUSY keys. */
    static method FromText(contents: string) returns (r: Result<FreeBusy>)
      ensures r.Err? <==> ParseFreeBusy(contents).Err?
      ensures r.Err? ==> r.error == ParseFreeBusy(contents).error
      ensures r.Ok? ==> fresh(r.value.attributes) && r.value.attributes.table == FreeBusyKeys
      ensures r.Ok? ==> Ok(r.value.attributes.items) == ParseFreeBusy(contents)
    {
      var attrs, _ := ConsumeRecords(contents, FreeBusyKeys);
      if attrs.Err? {
        return Err(attrs.error);
      }
      var entry := new FreeBusy(attrs.value);
      r := Ok(entry);
    }

    /** `freebusys(from:)`: the VFREEBUSY blocks from the last to the first,
        each parsed and then deleted from the text. */
    static method FreeBusys(contents0: string) returns (r: Result<seq<FreeBusy>>, contents: string)
      ensures var rs := Matches(contents0, BlockPattern("VFREEBUSY"));
              var peeled := Peel(contents0, rs);
              && (r.Err? <==> MapAll(ParseFreeBusy, peeled.texts).Err?)
              && (r.Err? ==> r.error == MapAll(ParseFreeBusy, peeled.texts).error)
              && (r.Ok? ==> FreeBusyValues(r.value) == MapAll(ParseFreeBusy, peeled.texts).value)
              && (r.Ok? ==> contents == peeled.rest)
    {
      r, contents := PeelBlocks(contents0, Matches(contents0, BlockPattern("VFREEBUSY")));
    }

    /** The loop of `freebusys(from:)` over the ascending block ranges `rs`. */
    static method PeelBlocks(contents0: string, rs: seq<Range>) returns (r: Result<seq<FreeBusy>>, contents: string)
      requires Ascending(contents0, rs)
      ensures r.Err? <==> MapAll(ParseFreeBusy, Peel(contents0, rs).texts).Err?
      ensures r.Err? ==> r.error == MapAll(ParseFreeBusy, Peel(contents0, rs).texts).error
      ensures r.Ok? ==> FreeBusyValues(r.value) == MapAll(ParseFreeBusy, Peel(contents0, rs).texts).value
      ensures r.Ok? ==> contents == Peel(contents0, rs).rest
    {
      contents := contents0;
      var out: seq<FreeBusy> := [];
      ghost var taken: seq<string> := [];
      ghost var vs: seq<seq<Attribute>> := [];
      var j: nat := |rs|;
      PeelStart(contents0, rs);
      while j > 0
        invariant Peeling(contents0, rs, contents, j, taken)
        invariant MapAll(ParseFreeBusy, taken) == Ok(vs)
        invariant FreeBusysHold(out, vs)
      {
        var item, next, taken' := TakeLast(contents0, rs, contents, j, taken, vs);
        assert FreeBusysHold(out, vs);
        if item.Err? {
          return Err(item.error), contents;
        }
        FreeBusysHoldSnoc(out, vs, item.value);
        taken := taken';
        out := out + [item.value];
        vs := vs + [item.value.attributes.items];
        contents := next;
        j := j - 1;
      }
      PeelDone(contents0, rs, contents, taken);
      FreeBusysHoldValues(out, vs);
      r := Ok(out);
    }

    /** One turn of `freebusys(from:)`: the last remaining block is parsed
        and deleted from the text. */
    static method TakeLast(ghost contents0: string, rs: seq<Range>, contents: string, j: nat,
                           ghost taken: seq<string>, ghost vs: seq<seq<Attribute>>)
      returns (item: Result<FreeBusy>, next: string, ghost taken': seq<string>)
      requires 0 < j && Peeling(contents0, rs, contents, j, taken)
      requires MapAll(ParseFreeBusy, taken) == Ok(vs)
      ensures InBounds(contents, rs[j - 1]) && next == Remove(contents, rs[j - 1])
      ensures taken' == taken + [SubstringWith(contents, rs[j - 1])]
      ensures Peeling(contents0, rs, next, j - 1, taken')
      ensures item.Err? ==> MapAll(ParseFreeBusy, Peel(contents0, rs).texts) == Err(item.error)
      ensures item.Ok? ==> fresh(item.value.attributes)
      ensures item.Ok? ==> MapAll(ParseFreeBusy, taken') == Ok(vs + [item.value.attributes.items])
    {
      PeelStep(contents0, rs, contents, j, taken);
      var content := SubstringWith(contents, rs[j - 1]);
      item := FromText(content);
      next := Remove(contents, rs[j - 1]);
      taken' := taken + [content];
      if item.Err? {
        MapStopsAt(ParseFreeBusy, taken, content, Peel(next, rs[..j - 1]).texts, vs);
      } else {
        MapAllSnoc(ParseFreeBusy, taken, content);
      }
    }

    /** `text`. */
    method Text() returns (t: string)
      ensures t == FreeBusyText(attributes.items)
    {
      var contents := AppendAttributeTexts("", attributes.items);
      t := "BEGIN:VFREEBUSY\r\n" + contents + "END:VFREEBUSY\r\n";
    }
  }

  ghost function FreeBusyValues(fbs: seq<FreeBusy>): (vs: seq<seq<Attribute>>)
    reads set fb | fb in fbs :: fb.attributes
    ensures |vs| == |fbs|
  {
    if fbs == [] then [] else FreeBusyValues(fbs[..|fbs| - 1]) + [fbs[|fbs| - 1].attributes.items]
  }

  ghost predicate FreeBusysHold(fbs: seq<FreeBusy>, vs: seq<seq<Attribute>>)
    reads set fb | fb in fbs :: fb.attributes
  {
    |fbs| == |vs| && forall k :: 0 <= k < |fbs| ==> fbs[k].attributes.items == vs[k]
  }

  lemma FreeBusysHoldSnoc(fbs: seq<FreeBusy>, vs: seq<seq<Attribute>>, fb: FreeBusy)
    requires FreeBusysHold(fbs, vs)
    ensures FreeBusysHold(fbs + [fb], vs + [fb.attributes.items])
  {
  }

  lemma {:induction false} FreeBusysHoldValues(fbs: seq<FreeBusy>, vs: seq<seq<Attribute>>)
    requires FreeBusysHold(fbs, vs)
    ensures FreeBusyValues(fbs) == vs
    decreases |fbs|
  {
    if fbs != [] {
      FreeBusysHoldValues(fbs[..|fbs| - 1], vs[..|vs| - 1]);
    }
  }

  lemma {:induction false} FreeBusyValuesAt(fbs: seq<FreeBusy>, i: nat)
    requires i < |fbs|
    ensures FreeBusyValues(fbs)[i] == fbs[i].attributes.items
    decreases |fbs|
  {
    if i < |fbs| - 1 {
      FreeBusyValuesAt(fbs[..|fbs| - 1], i);
    }
  }

  /** `try results.map { try CKFreeBusy.init(from:) }`, as the calendar reads
      its entries without deleting anything. */
  method FreeBusysFromTexts(texts: seq<string>) returns (r: Result<seq<FreeBusy>>)
    ensures r.Err? <==> MapAll(ParseFreeBusy, texts).Err?
    ensures r.Err? ==> r.error == MapAll(ParseFreeBusy, texts).error
    ensures r.Ok? ==> FreeBusyValues(r.value) == MapAll(ParseFreeBusy, texts).value
  {
    var out: seq<FreeBusy> := [];
    ghost var vs: seq<seq<Attribute>> := [];
    for i := 0 to |texts|
      invariant MapAll(ParseFreeBusy, texts[..i]) == Ok(vs)
      invariant FreeBusysHold(out, vs)
    {
      var item := FreeBusy.FromText(texts[i]);
      assert FreeBusysHold(out, vs);
      if item.Err? {
        TakeSnoc(texts, i);
        MapStopsAt(ParseFreeBusy, texts[..i], texts[i], texts[i + 1..], vs);
        return Err(item.error);
      }
      MapStep(ParseFreeBusy, texts, i, vs, item.value.attributes.items);
      FreeBusysHoldSnoc(out, vs, item.value);
      out := out + [item.value];
      vs := vs + [item.value.attributes.items];
    }
    TakeAll(texts);
    FreeBusysHoldValues(out, vs);
    r := Ok(out);
  }

  method AppendFreeBusyTexts(t0: string, fbs: seq<FreeBusy>) returns (t: string)
    ensures t == t0 + ConcatMap(FreeBusyText, FreeBusyValues(fbs))
  {
    ghost var vs := FreeBusyValues(fbs);
    t := t0;
    for i := 0 to |fbs|
      invariant t == t0 + ConcatMap(FreeBusyText, vs[..i])
    {
      var text := fbs[i].Text();
      FreeBusyValuesAt(fbs, i);
      TextStep(FreeBusyText, vs, i, t0, t, text);
      t := t + text;
    }
    TakeAll(vs);
  }

  // ---- CKEvent ----

  class Event {
    const attributes: AttributeList
    const alarms: seq<Opaque>

    constructor (items: seq<Attribute>, alarms: seq<Opaque>)
      ensures fresh(attributes) && attributes.table == EventKeys && attributes.items == items
      ensures this.alarms == alarms
    {
      attributes := new AttributeList(EventKeys, items);
      this.alarms := alarms;
    }

    ghost function Value(): EventValue
      reads attributes
    {
      EventValue(attributes.items, alarms)
    }

    /** `init(from:)`: the attributes, read without deleting anything, then
        the alarms of the same text. */
    static method FromText(contents: string) returns (r: Result<Event>)
      ensures r.Err? <==> ParseEvent(contents).Err?
      ensures r.Err? ==> r.error == ParseEvent(contents).error
      ensures r.Ok? ==> fresh(r.value.attributes) && r.value.attributes.table == EventKeys
      ensures r.Ok? ==> Ok(r.value.Value()) == ParseEvent(contents)
    {
      var attrs := HarvestRecords(contents, EventKeys, false);
      if attrs.Err? {
        return Err(attrs.error);
      }
      var alarms := Opaques(BlockTexts(contents, "VALARM"));
      var event := new Event(attrs.value, alarms);
      r := Ok(event);
    }

    /** `text`. */
    method Text() returns (t: string)
      ensures t == EventText(Value())
    {
      var contents := AppendAttributeTexts("", attributes.items);
      contents := AppendOpaqueTexts(contents, alarms);
      EventTextOf(contents, Value());
      t := "BEGIN:VEVENT\r\n" + contents + "END:VEVENT\r\n";
    }
  }

  lemma EventTextOf(contents: string, v: EventValue)
    requires contents == ("" + AttributesText(v.attributes)) + ConcatMap(OpaqueText, v.alarms)
    ensures "BEGIN:VEVENT\r\n" + contents + "END:VEVENT\r\n" == EventText(v)
  {
    assert "" + AttributesText(v.attributes) == AttributesText(v.attributes);
  }

  ghost function EventValues(evs: seq<Event>): (vs: seq<EventValue>)
    reads set ev | ev in evs :: ev.attributes
    ensures |vs| == |evs|
  {
    if evs == [] then [] else EventValues(evs[..|evs| - 1]) + [EventValue(evs[|evs| - 1].attributes.items, evs[|evs| - 1].alarms)]
  }

  ghost predicate EventsHold(evs: seq<Event>, vs: seq<EventValue>)
    reads set ev | ev in evs :: ev.attributes
  {
    |evs| == |vs| && forall k :: 0 <= k < |evs| ==> EventValue(evs[k].attributes.items, evs[k].alarms) == vs[k]
  }

  lemma EventsHoldSnoc(evs: seq<Event>, vs: seq<EventValue>, ev: Event)
    requires EventsHold(evs, vs)
    ensures EventsHold(evs + [ev], vs + [EventValue(ev.attributes.items, ev.alarms)])
  {
  }

  lemma {:induction false} EventsHoldValues(evs: seq<Event>, vs: seq<EventValue>)
    requires EventsHold(evs, vs)
    ensures EventValues(evs) == vs
    decreases |evs|
  {
    if evs != [] {
      EventsHoldValues(evs[..|evs| - 1], vs[..|vs| - 1]);
    }
  }

  lemma {:induction false} EventValuesAt(evs: seq<Event>, i: nat)
    requires i < |evs|
    ensures EventValues(evs)[i] == EventValue(evs[i].attributes.items, evs[i].alarms)
    decreases |evs|
  {
    if i < |evs| - 1 {
      EventValuesAt(evs[..|evs| - 1], i);
    }
  }

  /** `try results.map { try CKEvent.init(from:) }`. */
  method EventsFromTexts(texts: seq<string>) returns (r: Result<seq<Event>>)
    ensures r.Err? <==> MapAll(ParseEvent, texts).Err?
    ensures r.Err? ==> r.error == MapAll(ParseEvent, texts).error
    ensures r.Ok? ==> EventValues(r.value) == MapAll(ParseEvent, texts).value
  {
    var out: seq<Event> := [];
    ghost var vs: seq<EventValue> := [];
    for i := 0 to |texts|
      invariant MapAll(ParseEvent, texts[..i]) == Ok(vs)
      invariant EventsHold(out, vs)
    {
      var item := Event.FromText(texts[i]);
      assert EventsHold(out, vs);
      if item.Err? {
        TakeSnoc(texts, i);
        MapStopsAt(ParseEvent, texts[..i], texts[i], texts[i + 1..], vs);
        return Err(item.error);
      }
      MapStep(ParseEvent, texts, i, vs, item.value.Value());
      EventsHoldSnoc(out, vs, item.value);
      out := out + [item.value];
      vs := vs + [item.value.Value()];
    }
    TakeAll(texts);
    EventsHoldValues(out, vs);
    r := Ok(out);
  }

  method AppendEventTexts(t0: string, evs: seq<Event>) returns (t: string)
    ensures t == t0 + ConcatMap(EventText, EventValues(evs))
  {
    ghost var vs := EventValues(evs);
    t := t0;
    for i := 0 to |evs|
      invariant t == t0 + ConcatMap(EventText, vs[..i])
    {
      var text := evs[i].Text();
      EventValuesAt(evs, i);
      TextStep(EventText, vs, i, t0, t, text);
      t := t + text;
    }
    TakeAll(vs);
  }
}
