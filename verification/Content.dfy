/** The content property of an object on its way out and back in
    (internal/ap/normalize.go, ExtractContent in internal/ap/extract.go). */
module Content {
  import opened Wrappers

  /** One entry of a content property. */
  datatype Entry = Text(s: string) | LangMap(m: map<string, string>) | IRI(uri: string) | Unknown

  type Property = seq<Entry>

  /** A JSON value, as far as normalization looks into it. */
  datatype JSON = JString(s: string) | JObject(m: map<string, JSON>) | JArray(elems: seq<JSON>) | JOther

  /** The two keys of the raw JSON map that carry content; None stands for absent and for null. */
  datatype Raw = Raw(content: Option<JSON>, contentMap: Option<JSON>)

  /** gtsmodel.Content. */
  datatype Extracted = Extracted(content: string, contentMap: map<string, string>)

  /** SanitizeToHTML followed by MinifyHTML. */
  type Sanitizer = string -> string

  class Item {
    var content: Option<Property>

    constructor (content: Option<Property>)
      ensures this.content == content
    {
      this.content := content;
    }
  }

  class RawJSON {
    var content: Option<JSON>
    var contentMap: Option<JSON>

    constructor (raw: Raw)
      ensures Value() == raw
    {
      content, contentMap := raw.content, raw.contentMap;
    }

    function Value(): Raw
      reads this
    {
      Raw(content, contentMap)
    }
  }

  // What each step is for, by position: the first entry of a kind.

  /** The first non-empty text among the string entries. */
  function FirstText(p: Property): string {
    if p == [] then ""
    else if p[0].Text? && p[0].s != "" then p[0].s
    else FirstText(p[1..])
  }

  /** The first non-empty text among the string and IRI entries. */
  function FirstTextOrIRI(p: Property): string {
    if p == [] then ""
    else if p[0].Text? && p[0].s != "" then p[0].s
    else if p[0].IRI? && p[0].uri != "" then p[0].uri
    else FirstTextOrIRI(p[1..])
  }

  function FirstMap(p: Property): Option<map<string, string>> {
    if p == [] then None
    else if p[0].LangMap? then Some(p[0].m)
    else FirstMap(p[1..])
  }

  /** The first language map with any language in it, or the empty map. */
  function FirstFilledMap(p: Property): map<string, string> {
    if p == [] then map[]
    else if p[0].LangMap? && p[0].m != map[] then p[0].m
    else FirstFilledMap(p[1..])
  }

  function ExtractSpec(item: Option<Property>): Extracted {
    if item.None? then Extracted("", map[])
    else Extracted(FirstTextOrIRI(item.value), FirstFilledMap(item.value))
  }

  function AsJSON(m: map<string, string>): JSON {
    JObject(map lang | lang in m :: JString(m[lang]))
  }

  function OutgoingSpec(item: Option<Property>, raw: Raw): Raw {
    if item.None? || item.value == [] then raw
    else
      var text, m := FirstText(item.value), FirstMap(item.value);
      Raw(if text != "" then Some(JString(text)) else None,
          if m.Some? then Some(AsJSON(m.value)) else None)
  }

  /** normalizeContent: anything but a non-empty string counts as no content. */
  function NormalizeContent(clean: Sanitizer, raw: Option<JSON>): string {
    if raw.Some? && raw.value.JString? && raw.value.s != "" then clean(raw.value.s) else ""
  }

  function NormalizeMap(clean: Sanitizer, raw: Option<JSON>): map<string, string> {
    if raw.Some? && raw.value.JObject? then
      map lang | lang in raw.value.m && NormalizeContent(clean, Some(raw.value.m[lang])) != ""
        :: NormalizeContent(clean, Some(raw.value.m[lang]))
    else map[]
  }

  function IncomingSpec(clean: Sanitizer, item: Option<Property>, raw: Raw): Option<Property> {
    if raw.content.None? && raw.contentMap.None? then item
    else
      Some(Pack(NormalizeContent(clean, raw.content), NormalizeMap(clean, raw.contentMap)))
  }

  /** The property with what there is of a text and a language map. */
  function Pack(text: string, m: map<string, string>): Property {
    if text == "" then (if m == map[] then [] else [LangMap(m)])
    else if m == map[] then [Text(text)]
    else [Text(text), LangMap(m)]
  }

  // The same by position, in the entries' fields.

  lemma {:induction false} FirstTextOrIRIAt(p: Property)
    ensures var t := FirstTextOrIRI(p);
            if t == "" then forall e :: e in p ==> (e.Text? ==> e.s == "") && (e.IRI? ==> e.uri == "")
            else exists i :: 0 <= i < |p| && (p[i] == Text(t) || p[i] == IRI(t))
                             && forall j :: 0 <= j < i ==> (p[j].Text? ==> p[j].s == "") && (p[j].IRI? ==> p[j].uri == "")
  {
    if p != [] {
      FirstTextOrIRIAt(p[1..]);
      var t := FirstTextOrIRI(p);
      if t == "" {
        assert forall e :: e in p <==> e == p[0] || e in p[1..];
      } else if p[0] != Text(t) && p[0] != IRI(t) {
        var i :| 0 <= i < |p[1..]| && (p[1..][i] == Text(t) || p[1..][i] == IRI(t))
                 && forall j :: 0 <= j < i ==> (p[1..][j].Text? ==> p[1..][j].s == "") && (p[1..][j].IRI? ==> p[1..][j].uri == "");
        assert p[i + 1] == p[1..][i];
        assert forall j :: 0 < j < i + 1 ==> p[j] == p[1..][j - 1];
      } else {
        assert p[0] == Text(t) || p[0] == IRI(t);
      }
    }
  }

  lemma {:induction false} FirstTextAt(p: Property)
    ensures var t := FirstText(p);
            if t == "" then forall e :: e in p && e.Text? ==> e.s == ""
            else exists i :: 0 <= i < |p| && p[i] == Text(t) && forall j :: 0 <= j < i && p[j].Text? ==> p[j].s == ""
  {
    if p != [] {
      FirstTextAt(p[1..]);
      var t := FirstText(p);
      if t == "" {
        assert forall e :: e in p <==> e == p[0] || e in p[1..];
      } else if p[0] != Text(t) {
        var i :| 0 <= i < |p[1..]| && p[1..][i] == Text(t) && forall j :: 0 <= j < i && p[1..][j].Text? ==> p[1..][j].s == "";
        assert p[i + 1] == p[1..][i];
        assert forall j :: 0 < j < i + 1 ==> p[j] == p[1..][j - 1];
      }
    }
  }

  lemma {:induction false} FirstFilledMapAt(p: Property)
    ensures var m := FirstFilledMap(p);
            if m == map[] then forall e :: e in p && e.LangMap? ==> e.m == map[]
            else exists i :: 0 <= i < |p| && p[i] == LangMap(m) && forall j :: 0 <= j < i && p[j].LangMap? ==> p[j].m == map[]
  {
    if p != [] {
      FirstFilledMapAt(p[1..]);
      var m := FirstFilledMap(p);
      if m == map[] {
        assert forall e :: e in p <==> e == p[0] || e in p[1..];
      } else if p[0] != LangMap(m) {
        var i :| 0 <= i < |p[1..]| && p[1..][i] == LangMap(m) && forall j :: 0 <= j < i && p[1..][j].LangMap? ==> p[1..][j].m == map[];
        assert p[i + 1] == p[1..][i];
        assert forall j :: 0 < j < i + 1 ==> p[j] == p[1..][j - 1];
      }
    }
  }

  lemma {:induction false} FirstMapAt(p: Property)
    ensures var m := FirstMap(p);
            if m.None? then forall e :: e in p ==> !e.LangMap?
            else exists i :: 0 <= i < |p| && p[i] == LangMap(m.value) && forall j :: 0 <= j < i ==> !p[j].LangMap?
  {
    if p != [] {
      FirstMapAt(p[1..]);
      var m := FirstMap(p);
      if m.None? {
        assert forall e :: e in p <==> e == p[0] || e in p[1..];
      } else if p[0] != LangMap(m.value) {
        var i :| 0 <= i < |p[1..]| && p[1..][i] == LangMap(m.value) && forall j :: 0 <= j < i ==> !p[1..][j].LangMap?;
        assert p[i + 1] == p[1..][i];
        assert forall j :: 0 < j < i + 1 ==> p[j] == p[1..][j - 1];
      }
    }
  }

  /** ExtractContent. */
  method ExtractContent(i: Item) returns (content: Extracted)
    ensures content == ExtractSpec(i.content)
    ensures i.content.None? ==> content.content == "" && content.contentMap == map[]
    ensures i.content.Some? && content.content == "" ==>
              forall e :: e in i.content.value ==> (e.Text? ==> e.s == "") && (e.IRI? ==> e.uri == "")
    ensures i.content.Some? && content.content != "" ==>
              var p := i.content.value;
              exists n :: 0 <= n < |p| && (p[n] == Text(content.content) || p[n] == IRI(content.content))
                          && forall j :: 0 <= j < n ==> (p[j].Text? ==> p[j].s == "") && (p[j].IRI? ==> p[j].uri == "")
    ensures i.content.Some? && content.contentMap == map[] ==>
              forall e :: e in i.content.value && e.LangMap? ==> e.m == map[]
    ensures i.content.Some? && content.contentMap != map[] ==>
              var p := i.content.value;
              exists n :: 0 <= n < |p| && p[n] == LangMap(content.contentMap)
                          && forall j :: 0 <= j < n && p[j].LangMap? ==> p[j].m == map[]
  {
    if i.content.Some? {
      FirstTextOrIRIAt(i.content.value);
      FirstFilledMapAt(i.content.value);
    }
    content := Extracted("", map[]);
    if i.content.None? {
      return;
    }
    var p := i.content.value;
    var n := 0;
    while n < |p|
      invariant 0 <= n <= |p|
      invariant FirstTextOrIRI(p) == if content.content != "" then content.content else FirstTextOrIRI(p[n..])
      invariant FirstFilledMap(p) == if content.contentMap != map[] then content.contentMap else FirstFilledMap(p[n..])
    {
      if p[n].LangMap? && content.contentMap == map[] {
        content := content.(contentMap := p[n].m);
      } else if p[n].Text? && content.content == "" {
        content := content.(content := p[n].s);
      } else if p[n].IRI? && content.content == "" {
        content := content.(content := p[n].uri);
      }
      assert p[n..][1..] == p[n + 1..];
      n := n + 1;
    }
  }

  /** NormalizeOutgoingContentProp. */
  method NormalizeOutgoingContentProp(item: Item, rawJSON: RawJSON)
    modifies rawJSON
    ensures rawJSON.Value() == OutgoingSpec(item.content, old(rawJSON.Value()))
    ensures item.content.None? || item.content.value == [] ==> rawJSON.Value() == old(rawJSON.Value())
    ensures item.content.Some? && item.content.value != [] ==>
              var p := item.content.value;
              if rawJSON.content.None? then forall e :: e in p && e.Text? ==> e.s == ""
              else rawJSON.content.value.JString? && rawJSON.content.value.s != ""
                   && exists n :: 0 <= n < |p| && p[n] == Text(rawJSON.content.value.s)
                                  && forall j :: 0 <= j < n && p[j].Text? ==> p[j].s == ""
    ensures item.content.Some? && item.content.value != [] ==>
              var p := item.content.value;
              if rawJSON.contentMap.None? then forall e :: e in p ==> !e.LangMap?
              else rawJSON.contentMap.value.JObject?
                   && exists n :: 0 <= n < |p| && p[n].LangMap? && p[n].m.Keys == rawJSON.contentMap.value.m.Keys
                                  && (forall lang :: lang in p[n].m ==> rawJSON.contentMap.value.m[lang] == JString(p[n].m[lang]))
                                  && forall j :: 0 <= j < n ==> !p[j].LangMap?
  {
    if item.content.Some? {
      FirstTextAt(item.content.value);
      FirstMapAt(item.content.value);
    }
    if item.content.None? || item.content.value == [] {
      return;
    }
    var p := item.content.value;
    var content, contentMap := "", None;
    var n := 0;
    while n < |p|
      invariant 0 <= n <= |p|
      invariant FirstText(p) == if content != "" then content else FirstText(p[n..])
      invariant FirstMap(p) == if contentMap.Some? then contentMap else FirstMap(p[n..])
    {
      if p[n].LangMap? && contentMap == None {
        contentMap := Some(p[n].m);
      } else if content == "" && p[n].Text? {
        content := p[n].s;
      }
      assert p[n..][1..] == p[n + 1..];
      n := n + 1;
    }
    rawJSON.content := if content != "" then Some(JString(content)) else None;
    rawJSON.contentMap := if contentMap.Some? then Some(AsJSON(contentMap.value)) else None;
  }

  /** The property holds nothing but the raw values, cleaned: the text, if there is one, and then the
      languages in which something is left. Without raw values it is as it was. */
  ghost predicate IsRebuilt(clean: Sanitizer, before: Option<Property>, raw: Raw, after: Option<Property>) {
    if raw.content.None? && raw.contentMap.None? then after == before
    else
      && after.Some?
      && (forall e :: e in after.value ==> e.Text? || e.LangMap?)
      && |after.value| <= 2 && (|after.value| == 2 ==> after.value[0].Text? && after.value[1].LangMap?)
      && (forall t :: Text(t) in after.value <==>
           raw.content.Some? && raw.content.value.JString? && raw.content.value.s != ""
           && t == clean(raw.content.value.s) != "")
      && (forall m :: LangMap(m) in after.value ==>
           m != map[] && raw.contentMap.Some? && raw.contentMap.value.JObject?
           && forall lang :: lang in m ==>
                lang in raw.contentMap.value.m && raw.contentMap.value.m[lang].JString?
                && raw.contentMap.value.m[lang].s != "" && m[lang] == clean(raw.contentMap.value.m[lang].s) != "")
      && (raw.contentMap.Some? && raw.contentMap.value.JObject? ==>
           forall lang :: lang in raw.contentMap.value.m && raw.contentMap.value.m[lang].JString?
                          && raw.contentMap.value.m[lang].s != "" && clean(raw.contentMap.value.m[lang].s) != "" ==>
             exists m :: LangMap(m) in after.value && lang in m)
  }

  lemma PackHolds(text: string, m: map<string, string>)
    ensures Pack(text, m) ==
            (if text != "" then [Text(text)] else []) + (if m != map[] then [LangMap(m)] else [])
    ensures forall t :: Text(t) in Pack(text, m) <==> t == text != ""
    ensures forall n :: LangMap(n) in Pack(text, m) <==> n == m != map[]
    ensures forall e :: e in Pack(text, m) ==> e.Text? || e.LangMap?
    ensures |Pack(text, m)| <= 2 && (|Pack(text, m)| == 2 ==> Pack(text, m)[0].Text? && Pack(text, m)[1].LangMap?)
  {
  }

  lemma MapHolds(clean: Sanitizer, raw: Option<JSON>)
    ensures forall lang :: lang in NormalizeMap(clean, raw) <==>
              raw.Some? && raw.value.JObject? && lang in raw.value.m && raw.value.m[lang].JString?
              && raw.value.m[lang].s != "" && clean(raw.value.m[lang].s) != ""
    ensures forall lang :: lang in NormalizeMap(clean, raw) ==> NormalizeMap(clean, raw)[lang] == clean(raw.value.m[lang].s)
  {
  }

  lemma RebuiltFromRaw(clean: Sanitizer, before: Option<Property>, raw: Raw)
    ensures IsRebuilt(clean, before, raw, IncomingSpec(clean, before, raw))
  {
    if raw.content.Some? || raw.contentMap.Some? {
      var text, m := NormalizeContent(clean, raw.content), NormalizeMap(clean, raw.contentMap);
      PackHolds(text, m);
      MapHolds(clean, raw.contentMap);
      hide Pack, NormalizeMap;
      if lang :| lang in m {
        assert LangMap(m) in Pack(text, m);
      }
    }
  }

  /** Where there are raw values, what the item had before makes no difference. */
  lemma IncomingForgets(clean: Sanitizer, a: Option<Property>, b: Option<Property>, raw: Raw)
    requires raw.content.Some? || raw.contentMap.Some?
    ensures IncomingSpec(clean, a, raw) == IncomingSpec(clean, b, raw)
  {
  }

  /** The part of NormalizeIncomingContent for the languages, which are walked in any order. */
  method NormalizeLanguages(clean: Sanitizer, contentMap: map<string, JSON>) returns (rdfLangs: map<string, string>)
    ensures rdfLangs == NormalizeMap(clean, Some(JObject(contentMap)))
  {
    rdfLangs := map[];
    var langs := contentMap.Keys;
    while langs != {}
      invariant langs <= contentMap.Keys
      invariant rdfLangs == map lang | lang in contentMap.Keys - langs && NormalizeContent(clean, Some(contentMap[lang])) != ""
                              :: NormalizeContent(clean, Some(contentMap[lang]))
      decreases langs
    {
      var lang :| lang in langs;
      var text := NormalizeContent(clean, Some(contentMap[lang]));
      if text != "" {
        rdfLangs := rdfLangs[lang := text];
      }
      langs := langs - {lang};
    }
  }

  lemma OnlyObjectsHaveLanguages(clean: Sanitizer, raw: Option<JSON>)
    ensures (raw.Some? && raw.value.JObject?) || NormalizeMap(clean, raw) == map[]
  {
  }

  /** NormalizeIncomingContent. */
  method NormalizeIncomingContent(clean: Sanitizer, item: Item, rawJSON: RawJSON)
    modifies item
    ensures item.content == IncomingSpec(clean, old(item.content), rawJSON.Value())
    ensures IsRebuilt(clean, old(item.content), rawJSON.Value(), item.content)
  {
    hide IsRebuilt, Pack, NormalizeMap;
    RebuiltFromRaw(clean, item.content, rawJSON.Value());
    var rawContent, rawContentMap := rawJSON.content, rawJSON.contentMap;
    if rawContent.None? && rawContentMap.None? {
      return;
    }
    PackHolds(NormalizeContent(clean, rawContent), NormalizeMap(clean, rawContentMap));
    OnlyObjectsHaveLanguages(clean, rawContentMap);
    var contentProp: Property := [];
    var content := NormalizeContent(clean, rawContent);
    if content != "" {
      contentProp := contentProp + [Text(content)];
    }
    if rawContentMap.Some? && rawContentMap.value.JObject? {
      var contentMap := rawContentMap.value.m;
      var rdfLangs := NormalizeLanguages(clean, contentMap);
      if |rdfLangs| != 0 {
        contentProp := contentProp + [LangMap(rdfLangs)];
      }
    }
    assert contentProp == Pack(content, NormalizeMap(clean, rawContentMap));
    item.content := Some(contentProp);
  }

  /** Content sent by one instance and received by another: the receiver's item starts out
      without content unless the JSON has some, and is overwritten if it has. */
  function Trip(clean: Sanitizer, item: Option<Property>): Option<Property> {
    IncomingSpec(clean, None, OutgoingSpec(item, Raw(None, None)))
  }

  /** What a receiver should see: each text sanitized, and dropped if nothing is left of it. */
  function Cleaned(clean: Sanitizer, c: Extracted): Extracted {
    Extracted(if c.content != "" then clean(c.content) else "",
              map lang | lang in c.contentMap && c.contentMap[lang] != "" && clean(c.contentMap[lang]) != ""
                :: clean(c.contentMap[lang]))
  }

  function NonEmpty(m: map<string, string>): map<string, string> {
    map lang | lang in m && m[lang] != "" :: m[lang]
  }

  /** The property says the same to a receiver that ignores IRIs and takes the first language map. */
  predicate Sendable(p: Property) {
    && FirstText(p) == FirstTextOrIRI(p)
    && (FirstMap(p).Some? ==> NonEmpty(FirstMap(p).value) == NonEmpty(FirstFilledMap(p)))
  }

  lemma TripExtracts(clean: Sanitizer, p: Property)
    ensures var m := if FirstMap(p).Some? then FirstMap(p).value else map[];
            ExtractSpec(Trip(clean, Some(p))) == Cleaned(clean, Extracted(FirstText(p), m))
  {
    var m := if FirstMap(p).Some? then FirstMap(p).value else map[];
    var text, kept := if FirstText(p) != "" then clean(FirstText(p)) else "", Cleaned(clean, Extracted("", m)).contentMap;
    if p != [] {
      var raw := OutgoingSpec(Some(p), Raw(None, None));
      assert NormalizeContent(clean, raw.content) == text;
      assert NormalizeMap(clean, raw.contentMap) == kept;
      PackExtracts(text, kept);
    }
  }

  lemma PackExtracts(text: string, m: map<string, string>)
    ensures ExtractSpec(Some(Pack(text, m))) == Extracted(text, m)
    ensures FirstText(Pack(text, m)) == text
    ensures FirstMap(Pack(text, m)) == if m == map[] then None else Some(m)
  {
    assert [Text(text)][1..] == [] && [Text(text), LangMap(m)][1..] == [LangMap(m)] && [LangMap(m)][1..] == [];
    assert FirstTextOrIRI([LangMap(m)]) == "" && FirstText([LangMap(m)]) == "";
    assert m != map[] ==> FirstFilledMap([LangMap(m)]) == m;
    assert FirstFilledMap([Text(text)]) == map[];
  }

  lemma NoMapNoFilled(p: Property)
    requires FirstMap(p).None?
    ensures FirstFilledMap(p) == map[]
  {
  }

  /** Sending then receiving keeps the sanitized meaning, whatever the sanitizer, exactly for
      sendable properties. */
  lemma TripKeepsMeaningIff(p: Property)
    ensures (forall clean: Sanitizer :: ExtractSpec(Trip(clean, Some(p))) == Cleaned(clean, ExtractSpec(Some(p))))
            <==> Sendable(p)
  {
    var m := if FirstMap(p).Some? then FirstMap(p).value else map[];
    var sent, meant := Extracted(FirstText(p), m), ExtractSpec(Some(p));
    if FirstMap(p).None? {
      NoMapNoFilled(p);
    }
    forall clean: Sanitizer
      ensures ExtractSpec(Trip(clean, Some(p))) == Cleaned(clean, sent)
    {
      TripExtracts(clean, p);
    }
    var id: Sanitizer := s => s;
    assert Cleaned(id, sent).contentMap == NonEmpty(m);
    assert Cleaned(id, meant).contentMap == NonEmpty(meant.contentMap);
    if Sendable(p) {
      forall clean: Sanitizer
        ensures Cleaned(clean, sent) == Cleaned(clean, meant)
      {
        CleanedByTexts(clean, sent, meant);
      }
    }
  }

  lemma CleanedByTexts(clean: Sanitizer, a: Extracted, b: Extracted)
    requires a.content == b.content && NonEmpty(a.contentMap) == NonEmpty(b.contentMap)
    ensures Cleaned(clean, a) == Cleaned(clean, b)
  {
    forall lang
      ensures lang in a.contentMap && a.contentMap[lang] != "" <==> lang in b.contentMap && b.contentMap[lang] != ""
      ensures lang in a.contentMap && a.contentMap[lang] != "" ==> a.contentMap[lang] == b.contentMap[lang]
    {
      assert lang in NonEmpty(a.contentMap) <==> lang in NonEmpty(b.contentMap);
    }
  }

  /** In particular without IRI entries and empty language maps. */
  lemma {:induction false} PlainIsSendable(p: Property)
    requires forall e :: e in p ==> !e.IRI? && (e.LangMap? ==> e.m != map[])
    ensures Sendable(p)
  {
    if p != [] {
      PlainIsSendable(p[1..]);
    }
  }

  /** A second trip changes nothing for a sanitizer that leaves clean text alone: not the content
      extracted, and not the property, unless nothing is left in it, when it is not sent at all. */
  lemma SecondTripIsIdentity(clean: Sanitizer, p: Property)
    requires forall s :: clean(clean(s)) == clean(s)
    ensures ExtractSpec(Trip(clean, Trip(clean, Some(p)))) == ExtractSpec(Trip(clean, Some(p)))
    ensures Trip(clean, Trip(clean, Some(p))) == if Trip(clean, Some(p)) == Some([]) then None else Trip(clean, Some(p))
  {
    hide Pack;
    TripExtracts(clean, p);
    var q := Trip(clean, Some(p));
    if q.Some? {
      var raw := OutgoingSpec(Some(p), Raw(None, None));
      var text, m := NormalizeContent(clean, raw.content), NormalizeMap(clean, raw.contentMap);
      PackExtracts(text, m);
      TripExtracts(clean, q.value);
      RepackedIsSame(clean, text, m);
    }
  }

  /** Clean content goes out and comes back as it was. */
  lemma RepackedIsSame(clean: Sanitizer, text: string, m: map<string, string>)
    requires text != "" ==> clean(text) == text
    requires forall lang :: lang in m ==> m[lang] != "" && clean(m[lang]) == m[lang]
    ensures Trip(clean, Some(Pack(text, m))) == if Pack(text, m) == [] then None else Some(Pack(text, m))
  {
    PackExtracts(text, m);
    var raw := OutgoingSpec(Some(Pack(text, m)), Raw(None, None));
    if Pack(text, m) != [] {
      assert NormalizeContent(clean, raw.content) == text;
      assert NormalizeMap(clean, raw.contentMap) == m;
    }
  }
}
