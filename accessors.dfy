/** The accessors every component kind repeats verbatim: case-insensitive
    lookups over the ordered `attributes` array, and `set`, `add` and
    `removeAll`, whose effect depends on whether the key is repeatable.
    They are modelled once, over a key table, and each component class
    holds one `AttributeList`. */
module Accessors {
  import opened Results
  import opened Text
  import opened Attributes
  import opened Registry

  /** The test every accessor applies: `$0.name.uppercased() == name.uppercased()`, where `name` is
      the key's raw value or the name passed in. */
  predicate Labelled(a: Attribute, name: string) {
    SameIgnoringCase(a.name, name)
  }

  // ---- filters ----

  /** `attributes.filter { matches }`: the matching attributes in stored order. */
  function Matching(items: seq<Attribute>, name: string): (r: seq<Attribute>)
    ensures |r| <= |items|
    ensures forall i | 0 <= i < |r| :: Labelled(r[i], name)
  {
    if items == [] then []
    else (if Labelled(items[0], name) then [items[0]] else []) + Matching(items[1..], name)
  }

  /** `attributes.removeAll(where: matches)`: the others in stored order. */
  function Without(items: seq<Attribute>, name: string): (r: seq<Attribute>)
    ensures |r| <= |items|
    ensures forall i | 0 <= i < |r| :: !Labelled(r[i], name)
  {
    if items == [] then []
    else (if Labelled(items[0], name) then [] else [items[0]]) + Without(items[1..], name)
  }

  lemma {:induction false} MatchingAppend(a: seq<Attribute>, b: seq<Attribute>, name: string)
    ensures Matching(a + b, name) == Matching(a, name) + Matching(b, name)
  {
    if a == [] {
      assert a + b == b;
    } else {
      assert (a + b)[1..] == a[1..] + b;
      MatchingAppend(a[1..], b, name);
    }
  }

  lemma {:induction false} WithoutAppend(a: seq<Attribute>, b: seq<Attribute>, name: string)
    ensures Without(a + b, name) == Without(a, name) + Without(b, name)
  {
    if a == [] {
      assert a + b == b;
    } else {
      assert (a + b)[1..] == a[1..] + b;
      WithoutAppend(a[1..], b, name);
    }
  }

  /** Every attribute is either a match or kept by `removeAll`. */
  lemma {:induction false} MatchingPartitions(items: seq<Attribute>, name: string)
    ensures |Matching(items, name)| + |Without(items, name)| == |items|
  {
    if items != [] {
      MatchingPartitions(items[1..], name);
    }
  }

  lemma {:induction false} NothingMatches(items: seq<Attribute>, name: string)
    requires forall i | 0 <= i < |items| :: !Labelled(items[i], name)
    ensures Matching(items, name) == [] && Without(items, name) == items
  {
    if items != [] {
      NothingMatches(items[1..], name);
    }
  }

  lemma {:induction false} AllMatch(items: seq<Attribute>, name: string)
    requires forall i | 0 <= i < |items| :: Labelled(items[i], name)
    ensures Matching(items, name) == items && Without(items, name) == []
  {
    if items != [] {
      AllMatch(items[1..], name);
    }
  }

  // ---- index searches ----

  /** `firstIndex(where: matches)`. */
  function FirstIndex(items: seq<Attribute>, name: string): (r: Option<nat>)
    ensures r.Some? ==> r.value < |items| && Labelled(items[r.value], name)
    ensures r.Some? ==> forall j | 0 <= j < r.value :: !Labelled(items[j], name)
    ensures r.None? ==> forall j | 0 <= j < |items| :: !Labelled(items[j], name)
  {
    if items == [] then None
    else if Labelled(items[0], name) then Some(0)
    else match FirstIndex(items[1..], name)
      case None => None
      case Some(i) => Some(i + 1)
  }

  /** `lastIndex(where: matches)`. */
  function LastIndex(items: seq<Attribute>, name: string): (r: Option<nat>)
    ensures r.Some? ==> r.value < |items| && Labelled(items[r.value], name)
    ensures r.Some? ==> forall j | r.value < j < |items| :: !Labelled(items[j], name)
    ensures r.None? ==> forall j | 0 <= j < |items| :: !Labelled(items[j], name)
  {
    if items == [] then None
    else if Labelled(items[|items| - 1], name) then Some(|items| - 1)
    else LastIndex(items[..|items| - 1], name)
  }

  // ---- lookups ----

  /** `attribute(for:)`: the first element of `attributes(for:)`. */
  function First(items: seq<Attribute>, name: string): (r: Option<Attribute>)
    ensures r.Some? ==> Labelled(r.value, name)
    ensures r.None? <==> Matching(items, name) == []
  {
    var found := Matching(items, name);
    if found == [] then None else Some(found[0])
  }

  /** The first of the filtered list is the attribute at the first matching index. */
  lemma {:induction false} FirstIsAtFirstIndex(items: seq<Attribute>, name: string)
    ensures FirstIndex(items, name).None? ==> First(items, name).None?
    ensures FirstIndex(items, name).Some? ==>
      First(items, name) == Some(items[FirstIndex(items, name).value])
  {
    if items != [] && !Labelled(items[0], name) {
      FirstIsAtFirstIndex(items[1..], name);
    }
  }

  // ---- naming the given attributes ----

  /** The `forEach` that gives every unnamed attribute the upper-cased name. */
  function Named(given: seq<Attribute>, name: string): (r: seq<Attribute>)
    ensures |r| == |given|
  {
    seq(|given|, i requires 0 <= i < |given| =>
      if given[i].name == "" then given[i].(name := Upper(name)) else given[i])
  }

  /** The given attributes carry no name, or one that matches. */
  predicate Fits(given: seq<Attribute>, name: string) {
    forall i | 0 <= i < |given| :: given[i].name == "" || Labelled(given[i], name)
  }

  /** Naming keeps values, parameters and every non-empty name, and makes
      fitting attributes all match. */
  lemma NamedKeepsContent(given: seq<Attribute>, name: string)
    ensures forall i | 0 <= i < |given| ::
      Named(given, name)[i].value == given[i].value && Named(given, name)[i].attrs == given[i].attrs
    ensures forall i | 0 <= i < |given| :: given[i].name != "" ==> Named(given, name)[i] == given[i]
    ensures Fits(given, name) ==> forall i | 0 <= i < |given| :: Labelled(Named(given, name)[i], name)
  {
    UpperIdempotent(name);
  }

  // ---- the mutators as functions of the old list ----

  /** `set`: at the first match, a repeatable key has all its matches
      removed and the named list inserted there, and a singleton key has
      that match overwritten by the first given attribute; without a match
      the list, or its first element, is appended. An empty list given for
      a singleton changes nothing. */
  function SetSpec(items: seq<Attribute>, given: seq<Attribute>, name: string, repeatable: bool): seq<Attribute>
  {
    var named := Named(given, name);
    match FirstIndex(items, name)
    case Some(i) =>
      if repeatable then
        InsertIndexInBounds(items, name, i);
        var kept := Without(items, name);
        kept[..i] + named + kept[i..]
      else if named == [] then items
      else items[i := named[0]]
    case None =>
      if repeatable then items + named
      else if named == [] then items
      else items + [named[0]]
  }

  /** `add`: after the last match, a repeatable key has the named list
      inserted right behind it, and a singleton key has that match
      overwritten by the first given attribute; without a match it
      appends, as `set` does. */
  function AddSpec(items: seq<Attribute>, given: seq<Attribute>, name: string, repeatable: bool): seq<Attribute>
  {
    var named := Named(given, name);
    match LastIndex(items, name)
    case Some(i) =>
      if repeatable then items[..i + 1] + named + items[i + 1..]
      else if named == [] then items
      else items[i := named[0]]
    case None =>
      if repeatable then items + named
      else if named == [] then items
      else items + [named[0]]
  }

  // ---- what the mutators promise ----

  /** The first-match index is still a valid insertion point after
      `removeAll`, because nothing before it matched: the kept list
      starts with the same attributes. */
  lemma InsertIndexInBounds(items: seq<Attribute>, name: string, i: nat)
    requires FirstIndex(items, name) == Some(i)
    ensures i <= |Without(items, name)|
    ensures Without(items, name)[..i] == items[..i]
    ensures Without(items, name)[i..] == Without(items[i..], name)
  {
    assert items == items[..i] + items[i..];
    WithoutAppend(items[..i], items[i..], name);
    NothingMatches(items[..i], name);
  }

  /** Inserting matches into a list without matches: the matches are
      exactly the inserted ones, and the rest is the list itself. */
  lemma InsertMatches(kept: seq<Attribute>, named: seq<Attribute>, i: nat, name: string)
    requires i <= |kept|
    requires forall j | 0 <= j < |kept| :: !Labelled(kept[j], name)
    requires forall j | 0 <= j < |named| :: Labelled(named[j], name)
    ensures Matching(kept[..i] + named + kept[i..], name) == named
    ensures Without(kept[..i] + named + kept[i..], name) == kept
  {
    SlicesMatchNothing(kept, i, name);
    AllMatch(named, name);
    MatchingBetween(kept[..i], named, kept[i..], name);
    WithoutBetween(kept[..i], named, kept[i..], name);
    SplitJoins(kept, i);
  }

  lemma SplitJoins<T>(xs: seq<T>, i: nat)
    requires i <= |xs|
    ensures xs[..i] + xs[i..] == xs
  {
  }

  lemma SlicesMatchNothing(kept: seq<Attribute>, i: nat, name: string)
    requires i <= |kept|
    requires forall j | 0 <= j < |kept| :: !Labelled(kept[j], name)
    ensures Matching(kept[..i], name) == [] && Without(kept[..i], name) == kept[..i]
    ensures Matching(kept[i..], name) == [] && Without(kept[i..], name) == kept[i..]
  {
    var front, back := kept[..i], kept[i..];
    assert forall j | 0 <= j < |front| :: front[j] == kept[j];
    assert forall j | 0 <= j < |back| :: back[j] == kept[i + j];
    NothingMatches(front, name);
    NothingMatches(back, name);
  }

  lemma MatchingBetween(front: seq<Attribute>, named: seq<Attribute>, back: seq<Attribute>, name: string)
    requires Matching(front, name) == [] && Matching(back, name) == [] && Matching(named, name) == named
    ensures Matching(front + named + back, name) == named
  {
    MatchingAppend(front + named, back, name);
    MatchingAppend(front, named, name);
  }

  lemma WithoutBetween(front: seq<Attribute>, named: seq<Attribute>, back: seq<Attribute>, name: string)
    requires Without(front, name) == front && Without(back, name) == back && Without(named, name) == []
    ensures Without(front + named + back, name) == front + back
  {
    WithoutAppend(front + named, back, name);
    WithoutAppend(front, named, name);
  }

  /** `set` on a repeatable key with fitting attributes: afterwards the
      key's matches are exactly the given list, and every other attribute
      keeps its relative order. */
  lemma SetRepeatableReplaces(items: seq<Attribute>, given: seq<Attribute>, name: string)
    requires Fits(given, name)
    ensures Matching(SetSpec(items, given, name, true), name) == Named(given, name)
    ensures Without(SetSpec(items, given, name, true), name) == Without(items, name)
  {
    var named := Named(given, name);
    NamedKeepsContent(given, name);
    match FirstIndex(items, name)
    case Some(i) =>
      InsertIndexInBounds(items, name, i);
      InsertMatches(Without(items, name), named, i, name);
    case None =>
      NothingMatches(items, name);
      assert items[..|items|] + named + items[|items|..] == items + named;
      InsertMatches(items, named, |items|, name);
  }

  /** The replacement sits contiguously at the old first-match index, and
      everything before that index is untouched. */
  lemma SetRepeatableInPlace(items: seq<Attribute>, given: seq<Attribute>, name: string, i: nat)
    requires FirstIndex(items, name) == Some(i)
    ensures i + |given| <= |SetSpec(items, given, name, true)|
    ensures SetSpec(items, given, name, true)[..i] == items[..i]
    ensures SetSpec(items, given, name, true)[i..i + |given|] == Named(given, name)
  {
    InsertIndexInBounds(items, name, i);
    var kept := Without(items, name);
    var r := kept[..i] + Named(given, name) + kept[i..];
    assert r[..i] == kept[..i];
    assert r[i..i + |given|] == Named(given, name);
  }

  /** `set` with an empty list on a repeatable key removes every match. */
  lemma SetEmptyRepeatableClears(items: seq<Attribute>, name: string)
    ensures Matching(SetSpec(items, [], name, true), name) == []
    ensures Without(SetSpec(items, [], name, true), name) == Without(items, name)
  {
    SetRepeatableReplaces(items, [], name);
  }

  /** `set` on a present singleton key overwrites exactly the first match:
      the length is unchanged and no other position changes. */
  lemma SetSingletonOverwritesFirst(items: seq<Attribute>, given: seq<Attribute>, name: string, i: nat)
    requires FirstIndex(items, name) == Some(i) && given != []
    ensures |SetSpec(items, given, name, false)| == |items|
    ensures SetSpec(items, given, name, false)[i] == Named(given, name)[0]
    ensures forall j | 0 <= j < |items| && j != i :: SetSpec(items, given, name, false)[j] == items[j]
  {
  }

  /** A singleton key with no match gets the first given attribute
      appended, and nothing else changes. */
  lemma SetSingletonAppends(items: seq<Attribute>, given: seq<Attribute>, name: string)
    requires FirstIndex(items, name).None? && given != []
    ensures SetSpec(items, given, name, false)[..|items|] == items
    ensures |SetSpec(items, given, name, false)| == |items| + 1
    ensures SetSpec(items, given, name, false)[|items|] == Named(given, name)[0]
  {
  }

  /** For a singleton key, `set` and `add` with an empty list change nothing. */
  lemma SingletonEmptyIsNoOp(items: seq<Attribute>, name: string)
    ensures SetSpec(items, [], name, false) == items
    ensures AddSpec(items, [], name, false) == items
  {
  }

  /** `add` on a repeatable key with fitting attributes raises the key's
      match count by the list length and keeps the other attributes in
      order; the new attributes follow the last old match. */
  lemma AddRepeatableGrows(items: seq<Attribute>, given: seq<Attribute>, name: string)
    requires Fits(given, name)
    ensures |Matching(AddSpec(items, given, name, true), name)| == |Matching(items, name)| + |given|
    ensures Without(AddSpec(items, given, name, true), name) == Without(items, name)
  {
    var named := Named(given, name);
    NamedKeepsContent(given, name);
    AllMatch(named, name);
    match LastIndex(items, name)
    case Some(i) =>
      var front, back := items[..i + 1], items[i + 1..];
      assert items == front + back;
      MatchingAppend(front, back, name);
      MatchingAppend(front + named, back, name);
      MatchingAppend(front, named, name);
      WithoutAppend(front, back, name);
      WithoutAppend(front + named, back, name);
      WithoutAppend(front, named, name);
      assert Without(front, name) + [] == Without(front, name);
    case None =>
      MatchingAppend(items, named, name);
      WithoutAppend(items, named, name);
      assert Without(items, name) + [] == Without(items, name);
  }

  /** `add` on a singleton key that already has a match overwrites the
      last match: the length is unchanged, no other position changes, and
      the match count never rises. */
  lemma AddSingletonOverwritesLast(items: seq<Attribute>, given: seq<Attribute>, name: string, i: nat)
    requires LastIndex(items, name) == Some(i) && given != []
    ensures |AddSpec(items, given, name, false)| == |items|
    ensures AddSpec(items, given, name, false)[i] == Named(given, name)[0]
    ensures forall j | 0 <= j < |items| && j != i :: AddSpec(items, given, name, false)[j] == items[j]
    ensures |Matching(AddSpec(items, given, name, false), name)| <= |Matching(items, name)|
  {
    var x := Named(given, name)[0];
    assert AddSpec(items, given, name, false) == items[i := x];
    UpdateAround(items, i, x);
    MatchCountSwap(items[..i], items[i], x, items[i + 1..], name);
  }

  lemma UpdateAround<T>(xs: seq<T>, i: nat, x: T)
    requires i < |xs|
    ensures xs == xs[..i] + [xs[i]] + xs[i + 1..]
    ensures xs[i := x] == xs[..i] + [x] + xs[i + 1..]
  {
  }

  /** Swapping one match for any attribute never raises the match count. */
  lemma MatchCountSwap(front: seq<Attribute>, a: Attribute, b: Attribute, back: seq<Attribute>, name: string)
    requires Labelled(a, name)
    ensures |Matching(front + [b] + back, name)| <= |Matching(front + [a] + back, name)|
  {
    MatchingAppend(front + [a], back, name);
    MatchingAppend(front, [a], name);
    MatchingAppend(front + [b], back, name);
    MatchingAppend(front, [b], name);
    assert Matching([a], name) == [a];
  }

  /** `removeAll` leaves no match, keeps every other attribute, and leaves
      the matches of a name that differs ignoring case as they were. */
  lemma {:induction false} RemoveAllExact(items: seq<Attribute>, name: string, other: string)
    requires !SameIgnoringCase(name, other)
    ensures Matching(Without(items, name), name) == []
    ensures Matching(Without(items, name), other) == Matching(items, other)
  {
    NothingMatches(Without(items, name), name);
    if items != [] {
      RemoveAllExact(items[1..], name, other);
      if Labelled(items[0], name) {
        assert !Labelled(items[0], other);
        assert Without(items, name) == Without(items[1..], name);
        assert Matching(items, other) == Matching(items[1..], other);
      } else {
        assert Without(items, name) == [items[0]] + Without(items[1..], name);
        assert Without(items, name)[1..] == Without(items[1..], name);
      }
    }
  }

  // ---- the mutable list ----

  /** The `attributes` array of one component, with the key table of its
      kind. */
  class AttributeList {
    var items: seq<Attribute>
    const table: seq<KeySpec>

    constructor (table: seq<KeySpec>, items: seq<Attribute>)
      ensures this.table == table && this.items == items
    {
      this.table := table;
      this.items := items;
    }

    /** `attributes(for:)`, by key raw value or by name. */
    function AttributesFor(name: string): (r: seq<Attribute>)
      reads this
      ensures r == Matching(items, name)
    {
      Matching(items, name)
    }

    /** `attribute(for:)`, by key raw value or by name. */
    function AttributeFor(name: string): (r: Option<Attribute>)
      reads this
      ensures r == First(items, name)
    {
      var found := AttributesFor(name);
      if found == [] then None else Some(found[0])
    }

    /** The shared body of `set(_:for:)`, with the cardinality decided by
      the caller. */
    method Set(given: seq<Attribute>, name: string, repeatable: bool)
      modifies this
      ensures items == SetSpec(old(items), given, name, repeatable)
    {
      var named := Named(given, name);
      var index := FirstIndex(items, name);
      if index.Some? {
        if repeatable {
          InsertIndexInBounds(items, name, index.value);
          items := Without(items, name);
          items := items[..index.value] + named + items[index.value..];
        } else {
          if named == [] {
            return;
          }
          items := items[index.value := named[0]];
        }
      } else {
        if repeatable {
          items := items + named;
        } else {
          if named == [] {
            return;
          }
          items := items + [named[0]];
        }
      }
    }

    /** The shared body of `add(_:for:)`. */
    method Add(given: seq<Attribute>, name: string, repeatable: bool)
      modifies this
      ensures items == AddSpec(old(items), given, name, repeatable)
    {
      var named := Named(given, name);
      var index := LastIndex(items, name);
      if index.Some? {
        if repeatable {
          items := items[..index.value + 1] + named + items[index.value + 1..];
        } else {
          if named == [] {
            return;
          }
          items := items[index.value := named[0]];
        }
      } else {
        if repeatable {
          items := items + named;
        } else {
          if named == [] {
            return;
          }
          items := items + [named[0]];
        }
      }
    }

    /** `set(_:for key:)`: the key's own flag decides. */
    method SetKey(given: seq<Attribute>, k: KeySpec)
      requires k in table
      modifies this
      ensures items == SetSpec(old(items), given, k.raw, k.repeatable)
    {
      Set(given, k.raw, k.repeatable);
    }

    /** `set(_:for name:)`: the name-based cardinality rule decides. */
    method SetName(given: seq<Attribute>, name: string)
      modifies this
      ensures items == SetSpec(old(items), given, name, RepeatableName(table, name))
    {
      Set(given, name, RepeatableName(table, name));
    }

    /** `add(_:for key:)`. */
    method AddKey(given: seq<Attribute>, k: KeySpec)
      requires k in table
      modifies this
      ensures items == AddSpec(old(items), given, k.raw, k.repeatable)
    {
      Add(given, k.raw, k.repeatable);
    }

    /** `add(_:for name:)`. */
    method AddName(given: seq<Attribute>, name: string)
      modifies this
      ensures items == AddSpec(old(items), given, name, RepeatableName(table, name))
    {
      Add(given, name, RepeatableName(table, name));
    }

    /** `removeAll(for:)`, by key raw value or by name. */
    method RemoveAll(name: string)
      modifies this
      ensures items == Without(old(items), name)
    {
      items := Without(items, name);
    }
  }
}
