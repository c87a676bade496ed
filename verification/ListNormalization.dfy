/** Objects in a list property, rewritten from the raw JSON list they were read from: attachments,
    profile fields and poll options (internal/ap/normalize.go). */
module ListNormalization {
  import opened Content
  import opened Wrappers

  /** What an entry of the list has to be for a normalization to take it. */
  datatype Interface = Attachmentable | PropertyValue | PollOptionable

  /** The name and value properties of an object: the strings in them. */
  datatype Texts = Texts(name: seq<string>, value: seq<string>)

  class Object {
    const interfaces: set<Interface>
    var name: seq<string>
    var value: seq<string>

    constructor (interfaces: set<Interface>, texts: Texts)
      ensures this.interfaces == interfaces && Current() == texts
    {
      this.interfaces, name, value := interfaces, texts.name, texts.value;
    }

    function Current(): Texts
      reads this
    {
      Texts(name, value)
    }

    /** NormalizeIncomingName. */
    method SetName(plain: Sanitizer, raw: map<string, JSON>)
      modifies this`name
      ensures name == if "name" in raw && raw["name"].JString? then [plain(raw["name"].s)] else old(name)
      ensures value == old(value)
    {
      if "name" in raw && raw["name"].JString? {
        name := [plain(raw["name"].s)];
      }
    }

    /** NormalizeIncomingValue. */
    method SetValue(html: Sanitizer, raw: map<string, JSON>)
      modifies this`value
      ensures value == if "value" in raw && raw["value"].JString? then [html(raw["value"].s)] else old(value)
      ensures name == old(name)
    {
      if "value" in raw && raw["value"].JString? {
        value := [html(raw["value"].s)];
      }
    }
  }

  /** The cleaned string under a key, or what was there before if there is no string. */
  function StringUnder(raw: map<string, JSON>, key: string, clean: Sanitizer, before: seq<string>): seq<string> {
    if key in raw && raw[key].JString? then [clean(raw[key].s)] else before
  }

  /** A single raw value stands for a list of one. */
  function AsList(raw: JSON): seq<JSON> {
    if raw.JArray? then raw.elems else [raw]
  }

  /** One object's texts rewritten from one raw entry; only fields have a value. */
  function Rewritten(plain: Sanitizer, html: Sanitizer, want: Interface, raw: JSON, t: Texts): Texts {
    if !raw.JObject? then t
    else Texts(StringUnder(raw.m, "name", plain, t.name),
               if want.PropertyValue? then StringUnder(raw.m, "value", html, t.value) else t.value)
  }

  /** An object's texts after the first entries of the list; an object may occur more than once. */
  ghost function Applied(plain: Sanitizer, html: Sanitizer, want: Interface,
                         entries: seq<Object?>, raws: seq<JSON>, o: Object, t: Texts): Texts
    requires |entries| <= |raws|
  {
    if entries == [] then t
    else
      var n := |entries| - 1;
      var before := Applied(plain, html, want, entries[..n], raws, o, t);
      if entries[n] == o && want in o.interfaces then Rewritten(plain, html, want, raws[n], before) else before
  }

  /** The property and the raw list can be walked side by side. */
  ghost predicate Matches(property: Option<seq<Object?>>, raw: Option<JSON>) {
    raw.Some? && property.Some? && |property.value| == |AsList(raw.value)| != 0
  }

  /** One entry of the walk. */
  method NormalizeEntry(plain: Sanitizer, html: Sanitizer, want: Interface, entry: Object?, raw: JSON)
    modifies entry
    ensures entry != null ==>
              entry.Current() == if want in entry.interfaces then Rewritten(plain, html, want, raw, old(entry.Current()))
                                 else old(entry.Current())
  {
    if entry != null && want in entry.interfaces && raw.JObject? {
      entry.SetName(plain, raw.m);
      if want.PropertyValue? {
        entry.SetValue(html, raw.m);
      }
    }
  }

  /** The walk over property and raw list side by side. */
  method NormalizeEntries(plain: Sanitizer, html: Sanitizer, want: Interface, entries: seq<Object?>, raws: seq<JSON>)
    requires |entries| == |raws|
    modifies set o: Object | o in entries
    ensures forall o: Object | o in entries ::
              o.Current() == Applied(plain, html, want, entries, raws, o, old(o.Current()))
  {
    hide Rewritten;
    var i := 0;
    while i < |entries|
      invariant 0 <= i <= |entries|
      invariant forall o: Object | o in entries ::
                  o.Current() == Applied(plain, html, want, entries[..i], raws, o, old(o.Current()))
    {
      assert entries[..i + 1][..i] == entries[..i];
      NormalizeEntry(plain, html, want, entries[i], raws[i]);
      i := i + 1;
    }
    assert entries[..i] == entries;
  }

  /** NormalizeIncomingAttachments, NormalizeIncomingFields and NormalizeIncomingPollOptions: the same
      walk for three interfaces. An entry without an object (an IRI) is null. */
  method Normalize(plain: Sanitizer, html: Sanitizer, want: Interface, property: Option<seq<Object?>>, raw: Option<JSON>)
    modifies set o: Object | property.Some? && o in property.value
    ensures forall o: Object | property.Some? && o in property.value ::
              o.Current() == if Matches(property, raw)
                             then Applied(plain, html, want, property.value, AsList(raw.value), o, old(o.Current()))
                             else old(o.Current())
    ensures forall i, o: Object ::
              && property.Some? && raw.Some? && 0 <= i < |property.value| && property.value[i] == o
              && (forall j :: 0 <= j < |property.value| && j != i ==> property.value[j] != o)
              && (if raw.value.JArray? then |raw.value.elems| == |property.value| else |property.value| == 1) ==>
                var own := if raw.value.JArray? then raw.value.elems[i] else raw.value;
                && (o.name == if want in o.interfaces && own.JObject? && "name" in own.m && own.m["name"].JString?
                              then [plain(own.m["name"].s)] else old(o.name))
                && (o.value == if want in o.interfaces && want.PropertyValue?
                                  && own.JObject? && "value" in own.m && own.m["value"].JString?
                               then [html(own.m["value"].s)] else old(o.value))
    ensures property.Some? && (raw.None? || !(if raw.value.JArray? then |raw.value.elems| == |property.value|
                                              else |property.value| == 1)) ==>
              forall o: Object | o in property.value :: o.name == old(o.name) && o.value == old(o.value)
  {
    hide Applied, Rewritten;
    if raw.None? {
      return;
    }
    var raws := AsList(raw.value);
    if property.None? {
      return;
    }
    var entries := property.value;
    if |entries| == 0 || |entries| != |raws| {
      return;
    }
    NormalizeEntries(plain, html, want, entries, raws);
    forall n, o: Object | 0 <= n < |entries| && entries[n] == o && (forall j :: 0 <= j < |entries| && j != n ==> entries[j] != o)
      ensures && (o.name == if want in o.interfaces && raws[n].JObject? && "name" in raws[n].m && raws[n].m["name"].JString?
                            then [plain(raws[n].m["name"].s)] else old(o.name))
              && (o.value == if want in o.interfaces && want.PropertyValue?
                                && raws[n].JObject? && "value" in raws[n].m && raws[n].m["value"].JString?
                             then [html(raws[n].m["value"].s)] else old(o.value))
    {
      TakesOwnEntry(plain, html, want, entries, raws, n, o, old(o.Current()));
    }
  }

  /** An object that occurs once takes its texts from the raw entry at its own position, and from
      no other; an object that is not wanted keeps them. */
  lemma {:induction false} TakesOwnEntry(plain: Sanitizer, html: Sanitizer, want: Interface,
                                         entries: seq<Object?>, raws: seq<JSON>, i: nat, o: Object, t: Texts)
    requires |entries| <= |raws| && i < |entries| && entries[i] == o
    requires forall j :: 0 <= j < |entries| && j != i ==> entries[j] != o
    ensures Applied(plain, html, want, entries, raws, o, t) ==
            if want in o.interfaces then Rewritten(plain, html, want, raws[i], t) else t
    ensures var own, u := raws[i], Applied(plain, html, want, entries, raws, o, t);
            && (u.name == if want in o.interfaces && own.JObject? && "name" in own.m && own.m["name"].JString?
                          then [plain(own.m["name"].s)] else t.name)
            && (u.value == if want in o.interfaces && want.PropertyValue?
                              && own.JObject? && "value" in own.m && own.m["value"].JString?
                           then [html(own.m["value"].s)] else t.value)
  {
    var n := |entries| - 1;
    if i == n {
      AbsentKeeps(plain, html, want, entries[..n], raws, o, t);
    } else {
      TakesOwnEntry(plain, html, want, entries[..n], raws, i, o, t);
    }
  }

  lemma {:induction false} AbsentKeeps(plain: Sanitizer, html: Sanitizer, want: Interface,
                                       entries: seq<Object?>, raws: seq<JSON>, o: Object, t: Texts)
    requires |entries| <= |raws|
    requires forall j :: 0 <= j < |entries| ==> entries[j] != o
    ensures Applied(plain, html, want, entries, raws, o, t) == t
  {
    if entries != [] {
      AbsentKeeps(plain, html, want, entries[..|entries| - 1], raws, o, t);
    }
  }

  /** Normalizing again from the same raw list changes nothing, even where objects recur. */
  lemma {:induction false} AppliedTwice(plain: Sanitizer, html: Sanitizer, want: Interface,
                                        entries: seq<Object?>, raws: seq<JSON>, o: Object, t: Texts, u: Texts)
    requires |entries| <= |raws| && u == Applied(plain, html, want, entries, raws, o, t)
    ensures Applied(plain, html, want, entries, raws, o, u) == u
  {
    AppliedKeeps(plain, html, want, entries, raws, o, t);
    AppliedKeeps(plain, html, want, entries, raws, o, u);
    LastWins(plain, html, want, entries, raws, o, t, u);
  }

  /** Whether some entry of the list sets the object's name; likewise its value. */
  ghost predicate SetsName(want: Interface, entries: seq<Object?>, raws: seq<JSON>, o: Object)
    requires |entries| <= |raws|
  {
    exists j :: 0 <= j < |entries| && entries[j] == o && want in o.interfaces
                && raws[j].JObject? && "name" in raws[j].m && raws[j].m["name"].JString?
  }

  ghost predicate SetsValue(want: Interface, entries: seq<Object?>, raws: seq<JSON>, o: Object)
    requires |entries| <= |raws|
  {
    want.PropertyValue? &&
    exists j :: 0 <= j < |entries| && entries[j] == o && want in o.interfaces
                && raws[j].JObject? && "value" in raws[j].m && raws[j].m["value"].JString?
  }

  lemma {:induction false} AppliedKeeps(plain: Sanitizer, html: Sanitizer, want: Interface,
                                        entries: seq<Object?>, raws: seq<JSON>, o: Object, t: Texts)
    requires |entries| <= |raws|
    ensures !SetsName(want, entries, raws, o) ==> Applied(plain, html, want, entries, raws, o, t).name == t.name
    ensures !SetsValue(want, entries, raws, o) ==> Applied(plain, html, want, entries, raws, o, t).value == t.value
  {
    if entries != [] {
      AppliedKeeps(plain, html, want, entries[..|entries| - 1], raws, o, t);
    }
  }

  /** Where an entry sets a text, what it was before does not matter. */
  lemma {:induction false} LastWins(plain: Sanitizer, html: Sanitizer, want: Interface,
                                    entries: seq<Object?>, raws: seq<JSON>, o: Object, t: Texts, u: Texts)
    requires |entries| <= |raws|
    ensures SetsName(want, entries, raws, o) ==>
              Applied(plain, html, want, entries, raws, o, t).name == Applied(plain, html, want, entries, raws, o, u).name
    ensures SetsValue(want, entries, raws, o) ==>
              Applied(plain, html, want, entries, raws, o, t).value == Applied(plain, html, want, entries, raws, o, u).value
  {
    if entries != [] {
      var rest := entries[..|entries| - 1];
      LastWins(plain, html, want, rest, raws, o, t, u);
      assert forall j :: 0 <= j < |rest| ==> rest[j] == entries[j];
    }
  }
}
