/** Notion page properties of the Screenwriter Library's entries: the helpers
    that build them for an update (`selectProp`, `multiSelectProp`, `set`,
    the per-type title property of `PATCH /api/entry/:id`) and the readers
    that turn a page's properties back into a material (`getSel`,
    `getTags`, `parseIdeaPage` and its siblings). */
module EntryProps {
  import opened Base
  import opened Text
  import SectionCodec

  /** A property value as the server writes or reads it: a title is a list
      of plain-text runs, a select one option name, a multi-select a list
      of option names. */
  datatype Prop =
    | Title(runs: seq<string>)
    | Select(name: string)
    | MultiSelect(names: seq<string>)

  /** The property columns of the four databases. */
  datatype Column = TitleCol | NameCol | WhatCol | TypeCol | TagsCol

  /** A column's property name in Notion. */
  function ColumnName(c: Column): string {
    match c
    case TitleCol => "Title"
    case NameCol => "Name"
    case WhatCol => "What"
    case TypeCol => "Type"
    case TagsCol => "Tags"
  }

  type Props = map<Column, Prop>

  // ===========================================================================
  // Building properties
  // ===========================================================================

  /** `selectProp`: a select option for a truthy value, nothing otherwise. */
  function SelectProp(val: Option<string>): (r: Option<Prop>)
    ensures r.None? <==> val.None? || val.value == ""
    ensures r.Some? ==> r.value == Select(val.value)
  {
    if val.Some? && val.value != "" then Some(Select(val.value)) else None
  }

  /** Every name trimmed, in order, duplicates kept. */
  function TrimAll(names: seq<string>): (r: seq<string>)
    ensures |r| == |names|
    ensures forall i | 0 <= i < |names| :: r[i] == Trim(names[i])
  {
    seq(|names|, i requires 0 <= i < |names| => Trim(names[i]))
  }

  /** `multiSelectProp`: nothing for a missing or empty list, otherwise one
      option per name, trimmed. */
  function MultiSelectProp(names: Option<seq<string>>): (r: Option<Prop>)
    ensures r.None? <==> names.None? || names.value == []
    ensures r.Some? ==> r.value.MultiSelect? && |r.value.names| == |names.value|
    ensures r.Some? ==> forall i | 0 <= i < |names.value| :: r.value.names[i] == Trim(names.value[i])
  {
    if names.Some? && |names.value| > 0 then Some(MultiSelect(TrimAll(names.value))) else None
  }

  /** `set`: writes the key only when there is a value. */
  function SetProp(props: Props, key: Column, val: Option<Prop>): (r: Props)
    ensures val.None? ==> r == props
    ensures val.Some? ==> key in r && r[key] == val.value
    ensures forall k | k != key :: (k in r <==> k in props) && (k in props ==> r[k] == props[k])
  {
    if val.Some? then props[key := val.value] else props
  }

  /** The title property written for a primary value: its trimmed text as a
      single run, and nothing when that is empty. */
  function TitleProp(val: Option<string>): (r: Option<Prop>)
    ensures r.Some? <==> HasText(val)
    ensures r.Some? ==> r.value.Title? && |r.value.runs| == 1 && r.value.runs[0] == Trim(val.value)
    ensures r.Some? ==> r.value.runs[0] != "" && Trimmed(r.value.runs[0])
  {
    if val.Some? && Trim(val.value) != "" then Some(Title([Trim(val.value)])) else None
  }

  /** The body of `PATCH /api/entry/:id`. Absent and null members are both
      `None`; `kind` is the raw `type` member. */
  datatype PatchRequest = PatchRequest(
    kind: string,
    title: Option<string>,
    name: Option<string>,
    what: Option<string>,
    ideaType: Option<string>,
    tags: Option<seq<string>>,
    sections: Option<seq<SectionCodec.Field>>)

  /** The title property a `type` writes: Title, Name, What, Title, and none
      for any other type. */
  function TitleKey(kind: string): Option<Column> {
    if kind == "idea" || kind == "random" then Some(TitleCol)
    else if kind == "character" then Some(NameCol)
    else if kind == "story" then Some(WhatCol)
    else None
  }

  /** The request member that holds a type's primary value. */
  function Primary(req: PatchRequest): Option<string> {
    if req.kind == "idea" || req.kind == "random" then req.title
    else if req.kind == "character" then req.name
    else if req.kind == "story" then req.what
    else None
  }

  predicate HasText(v: Option<string>) {
    v.Some? && Trim(v.value) != ""
  }

  /** The properties the PATCH handler builds. */
  function PatchProperties(req: PatchRequest): (r: Props)
    // the title property is written iff the type has one and its trimmed
    // value is non-empty, and then it holds that trimmed value
    ensures forall k | k in r && k != TypeCol && k != TagsCol ::
      TitleKey(req.kind) == Some(k) && HasText(Primary(req))
    ensures TitleKey(req.kind).Some? && HasText(Primary(req)) ==>
      TitleKey(req.kind).value in r && r[TitleKey(req.kind).value] == Title([Trim(Primary(req).value)])
    // an idea's Type is written iff the idea type is truthy
    ensures TypeCol in r <==> req.kind == "idea" && req.ideaType.Some? && req.ideaType.value != ""
    ensures TypeCol in r ==> r[TypeCol] == Select(req.ideaType.value)
    // Tags are written iff the list is present and non-empty, trimmed
    ensures TagsCol in r <==> req.tags.Some? && req.tags.value != []
    ensures TagsCol in r ==> r[TagsCol] == MultiSelect(TrimAll(req.tags.value))
  {
    var titled := if TitleKey(req.kind).Some? then SetProp(map[], TitleKey(req.kind).value, TitleProp(Primary(req))) else map[];
    var typed := if req.kind == "idea" then SetProp(titled, TypeCol, SelectProp(req.ideaType)) else titled;
    SetProp(typed, TagsCol, MultiSelectProp(req.tags))
  }

  /** An update with no primary value, no idea type and no tags builds no
      property at all, so the page's properties are not touched. */
  lemma EmptyPatch(req: PatchRequest)
    requires !HasText(Primary(req))
    requires req.kind != "idea" || req.ideaType.None? || req.ideaType.value == ""
    requires req.tags.None? || req.tags.value == []
    ensures PatchProperties(req) == map[]
  {
    var r := PatchProperties(req);
    forall k | k in r ensures false {
    }
  }

  // ===========================================================================
  // Reading properties
  // ===========================================================================

  /** The four databases and the material type each one holds. */
  datatype EntryType = Idea | Character | Story | Random

  /** The `type` string of a material. */
  function TypeName(t: EntryType): string {
    match t
    case Idea => "idea"
    case Character => "character"
    case Story => "story"
    case Random => "random"
  }

  /** The title property a page parser reads. */
  function TitleKeyOf(t: EntryType): Column {
    match t
    case Idea => TitleCol
    case Character => NameCol
    case Story => WhatCol
    case Random => TitleCol
  }

  /** The title a page parser shows when the title is missing or empty. */
  function DefaultTitle(t: EntryType): string {
    match t
    case Character => "Unnamed"
    case _ => "Untitled"
  }

  function Lookup(props: Props, key: Column): Option<Prop> {
    if key in props then Some(props[key]) else None
  }

  /** `getSel`: the option name, or null when there is none or it is empty. */
  function GetSel(p: Option<Prop>): (r: Option<string>)
    ensures r.Some? <==> p.Some? && p.value.Select? && p.value.name != ""
    ensures r.Some? ==> p.value == Select(r.value) && r.value != ""
  {
    if p.Some? && p.value.Select? && p.value.name != "" then Some(p.value.name) else None
  }

  /** `getTags`: the option names, or the empty list. */
  function GetTags(p: Option<Prop>): (r: seq<string>)
    ensures p.Some? && p.value.MultiSelect? ==> r == p.value.names
    ensures !(p.Some? && p.value.MultiSelect?) ==> r == []
  {
    if p.Some? && p.value.MultiSelect? then p.value.names else []
  }

  /** `title?.[0]?.plain_text || default`: only the first run is read. */
  function FirstRun(p: Option<Prop>, default: string): (r: string)
    ensures p.Some? && p.value.Title? && p.value.runs != [] && p.value.runs[0] != "" ==> r == p.value.runs[0]
    ensures !(p.Some? && p.value.Title? && p.value.runs != [] && p.value.runs[0] != "") ==> r == default
    ensures default != "" ==> r != ""
  {
    if p.Some? && p.value.Title? && p.value.runs != [] && p.value.runs[0] != "" then p.value.runs[0]
    else default
  }

  /** A material as the page parsers return it; `ideaType` is only set for
      ideas. Page id, URL and creation time are passed through unread and
      are not part of this model. */
  datatype Material = Material(kind: EntryType, title: string, ideaType: Option<string>, tags: seq<string>)

  /** `parseIdeaPage`, `parseCharacterPage`, `parseStoryPage` and
      `parseRandomPage`. */
  function ParsePage(t: EntryType, props: Props): (m: Material)
    ensures m.kind == t
    ensures m.title != ""
    // the first run of the type's title property, when it has a non-empty one
    ensures var p := Lookup(props, TitleKeyOf(t));
      p.Some? && p.value.Title? && p.value.runs != [] && p.value.runs[0] != "" ==> m.title == p.value.runs[0]
    // otherwise "Unnamed" for a character and "Untitled" for the others
    ensures var p := Lookup(props, TitleKeyOf(t));
      !(p.Some? && p.value.Title? && p.value.runs != [] && p.value.runs[0] != "") ==>
        m.title == (if t == Character then "Unnamed" else "Untitled")
    // an idea's Type option when it has a non-empty one; no type otherwise
    ensures t == Idea && TypeCol in props && props[TypeCol].Select? && props[TypeCol].name != "" ==>
      m.ideaType == Some(props[TypeCol].name)
    ensures t != Idea || TypeCol !in props || !props[TypeCol].Select? || props[TypeCol].name == "" ==>
      m.ideaType.None?
    // the Tags options, or none
    ensures m.tags == (if TagsCol in props && props[TagsCol].MultiSelect? then props[TagsCol].names else [])
  {
    Material(t,
      FirstRun(Lookup(props, TitleKeyOf(t)), DefaultTitle(t)),
      if t == Idea then GetSel(Lookup(props, TypeCol)) else None,
      GetTags(Lookup(props, TagsCol)))
  }

  /** Reading a select back returns the value `selectProp` was given when it
      was truthy. */
  lemma SelectRoundTrip(val: Option<string>)
    ensures SelectProp(val).Some? ==> GetSel(SelectProp(val)) == val
    ensures SelectProp(val).None? <==> GetSel(SelectProp(val)).None?
  {
  }

  /** After an update with `type` set to a material type, applied as Notion
      applies it (each written key replaces the old one, the others stay),
      the page parser reads: the trimmed primary value as the title when it
      was non-empty, the trimmed tags when the list was non-empty, the idea
      type when it was truthy, and otherwise what the page had before. */
  lemma PatchThenParse(t: EntryType, before: Props, req: PatchRequest)
    requires req.kind == TypeName(t)
    ensures var m, m0 := ParsePage(t, before + PatchProperties(req)), ParsePage(t, before);
      && m.title == (if HasText(Primary(req)) then Trim(Primary(req).value) else m0.title)
      && m.tags == (if req.tags.Some? && req.tags.value != [] then TrimAll(req.tags.value) else m0.tags)
      && m.ideaType == (if t == Idea && req.ideaType.Some? && req.ideaType.value != "" then req.ideaType else m0.ideaType)
  {
    PatchTitle(t, before, req);
    PatchTags(t, before, req);
    PatchIdeaType(t, before, req);
  }

  lemma PatchTitle(t: EntryType, before: Props, req: PatchRequest)
    requires req.kind == TypeName(t)
    ensures ParsePage(t, before + PatchProperties(req)).title
      == (if HasText(Primary(req)) then Trim(Primary(req).value) else ParsePage(t, before).title)
  {
    var built := PatchProperties(req);
    var after := before + built;
    assert TitleKey(req.kind) == Some(TitleKeyOf(t));
    var key := TitleKeyOf(t);
    if HasText(Primary(req)) {
      var v := Trim(Primary(req).value);
      assert Lookup(after, key) == Some(Title([v]));
    } else {
      assert key !in built;
      assert Lookup(after, key) == Lookup(before, key);
    }
  }

  lemma PatchTags(t: EntryType, before: Props, req: PatchRequest)
    requires req.kind == TypeName(t)
    ensures ParsePage(t, before + PatchProperties(req)).tags
      == (if req.tags.Some? && req.tags.value != [] then TrimAll(req.tags.value) else ParsePage(t, before).tags)
  {
    var after := before + PatchProperties(req);
    if !(req.tags.Some? && req.tags.value != []) {
      assert Lookup(after, TagsCol) == Lookup(before, TagsCol);
    }
  }

  lemma PatchIdeaType(t: EntryType, before: Props, req: PatchRequest)
    requires req.kind == TypeName(t)
    ensures ParsePage(t, before + PatchProperties(req)).ideaType
      == (if t == Idea && req.ideaType.Some? && req.ideaType.value != "" then req.ideaType else ParsePage(t, before).ideaType)
  {
    var after := before + PatchProperties(req);
    if t == Idea && !(req.ideaType.Some? && req.ideaType.value != "") {
      assert Lookup(after, TypeCol) == Lookup(before, TypeCol);
    }
  }
}
