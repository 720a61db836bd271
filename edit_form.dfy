/** The Screenwriter Library's edit form on a material card: `saveEdit`
    turns the form's inputs into the body of `PATCH /api/entry/:id`, and
    `enterEditMode` fills the form from the material and its cached
    sections. Also `trunc`, used for card previews. */
module EditForm {
  import opened Base
  import opened Text
  import opened SectionCodec
  import opened EntryProps
  import opened Html

  /** The values of an edit form's inputs, as typed. `ideaType` is the
      value of the type select: "", "Script Idea" or "Scene Idea". */
  datatype Form =
    | IdeaForm(title: string, ideaType: string, details: string)
    | CharacterForm(name: string, description: string, whenEncountered: string, whyInteresting: string)
    | StoryForm(what: string, when: string, whyInteresting: string)
    | RandomForm(title: string, details: string)

  function KindOf(f: Form): EntryType {
    match f
    case IdeaForm(_, _, _) => Idea
    case CharacterForm(_, _, _, _) => Character
    case StoryForm(_, _, _) => Story
    case RandomForm(_, _) => Random
  }

  /** The required input: title, name or what. */
  function PrimaryInput(f: Form): string {
    match f
    case IdeaForm(title, _, _) => title
    case CharacterForm(name, _, _, _) => name
    case StoryForm(what, _, _) => what
    case RandomForm(title, _) => title
  }

  /** A free-text input and the section heading it is saved under. */
  datatype Slot = Slot(heading: string, raw: string)

  /** The free-text inputs of a form, in the order their sections are
      saved. */
  function Slots(f: Form): seq<Slot> {
    match f
    case IdeaForm(_, _, details) => [Slot("Details", details)]
    case CharacterForm(_, description, whenEncountered, whyInteresting) =>
      [Slot("Description", description),
       Slot("When I encountered them", whenEncountered),
       Slot("Why they are interesting", whyInteresting)]
    case StoryForm(_, when, whyInteresting) =>
      [Slot("When", when), Slot("Why interesting", whyInteresting)]
    case RandomForm(_, details) => [Slot("Details", details)]
  }

  /** The section a slot is saved as: none when its trimmed input is empty,
      otherwise one holding that trimmed input. */
  function SlotSection(s: Slot): (r: seq<Field>)
    ensures |r| <= 1
    ensures r != [] ==> r[0].heading == s.heading && r[0].content == Some(Trim(s.raw))
    ensures r == [] <==> IsBlank(s.raw)
  {
    var t := Trim(s.raw);
    if t != "" then [Field(s.heading, Some(t))] else []
  }

  /** The field a slot is saved as when its input is not blank. */
  function SavedAs(s: Slot): Field {
    Field(s.heading, Some(Trim(s.raw)))
  }

  function SavedAll(slots: seq<Slot>): (r: seq<Field>)
    ensures |r| == |slots| && forall i | 0 <= i < |slots| :: r[i] == SavedAs(slots[i])
  {
    seq(|slots|, i requires 0 <= i < |slots| => SavedAs(slots[i]))
  }

  /** The sections of a list of slots: one per slot whose input is not
      blank, holding that input trimmed, in slot order. */
  function SlotSections(slots: seq<Slot>): (r: seq<Field>)
    ensures |r| <= |slots|
    ensures IsSubseq(r, SavedAll(slots))
    ensures forall i | 0 <= i < |slots| && !IsBlank(slots[i].raw) :: SavedAs(slots[i]) in r
    ensures forall x | x in r :: SavedField(x)
  {
    if slots == [] then []
    else
      var rest := SlotSections(slots[1..]);
      assert SavedAll(slots)[1..] == SavedAll(slots[1..]);
      assert forall i | 1 <= i < |slots| :: slots[i] == slots[1..][i - 1];
      if IsBlank(slots[0].raw) then
        rest
      else
        assert ([SavedAs(slots[0])] + rest)[1..] == rest;
        [SavedAs(slots[0])] + rest
  }

  /** A field as `saveEdit` builds it: a non-empty input without
      surrounding whitespace. */
  predicate SavedField(f: Field) {
    f.content.Some? && f.content.value != "" && Trimmed(f.content.value)
  }

  /** `a || b` for a string member that may be absent. */
  function Or(a: Option<string>, b: string): string {
    if a.Some? && a.value != "" then a.value else b
  }

  /** The request body `saveEdit` builds: the card's type, the trimmed
      primary input under the member of that type, the idea type when one
      is selected, the picker's tags and the sections. */
  function Request(f: Form, tags: seq<string>): (r: PatchRequest)
    ensures r.kind == TypeName(KindOf(f))
    ensures Primary(r) == Some(Trim(PrimaryInput(f)))
    ensures r.ideaType.Some? <==> f.IdeaForm? && f.ideaType != ""
    ensures r.ideaType.Some? ==> r.ideaType.value == f.ideaType
    ensures r.tags == Some(tags)
    ensures r.sections == Some(SlotSections(Slots(f)))
  {
    var p := Some(Trim(PrimaryInput(f)));
    var secs := Some(SlotSections(Slots(f)));
    KindNames();
    match f
    case IdeaForm(_, it, _) => PatchRequest("idea", p, None, None, if it != "" then Some(it) else None, Some(tags), secs)
    case CharacterForm(_, _, _, _) => PatchRequest("character", None, p, None, None, Some(tags), secs)
    case StoryForm(_, _, _) => PatchRequest("story", None, None, p, None, Some(tags), secs)
    case RandomForm(_, _) => PatchRequest("random", p, None, None, None, Some(tags), secs)
  }

  /** The four `type` names are different strings. */
  lemma KindNames()
    ensures "character" != "idea" && "character" != "random"
    ensures "story" != "idea" && "story" != "random" && "story" != "character"
  {
    assert |"character"| != |"idea"| && |"character"| != |"random"|;
    assert |"story"| != |"idea"| && "story"[0] != "random"[0] && |"story"| != |"character"|;
  }

  /** What `saveEdit` does with a form: the error it reports, or the
      request body it sends. */
  function EditPayload(f: Form, tags: seq<string>): (r: Result<PatchRequest, string>)
    ensures r.Err? <==> IsBlank(PrimaryInput(f))
    ensures r.Err? ==> r.error == "Title is required"
  {
    if Trim(PrimaryInput(f)) == "" then Err("Title is required") else Ok(Request(f, tags))
  }

  /** A request `saveEdit` sends names the card's type, carries the trimmed
      primary input where the server's PATCH handler reads it (so the title
      property is written), the tags and one section per non-empty
      free-text input; only an idea carries an idea type. */
  lemma PayloadRequest(f: Form, tags: seq<string>)
    requires EditPayload(f, tags).Ok?
    ensures var req := EditPayload(f, tags).value;
      && req.kind == TypeName(KindOf(f))
      && Primary(req) == Some(Trim(PrimaryInput(f)))
      && HasText(Primary(req))
      && req.tags == Some(tags)
      && req.sections == Some(SlotSections(Slots(f)))
      && (!f.IdeaForm? ==> req.ideaType.None?)
  {
    TrimIdempotent(PrimaryInput(f));
  }

  /** `saveEdit` (app.js): reads the inputs of the card's type into the
      request body, and stops with an error before any request when the
      primary value is empty. */
  method SaveEdit(form: Form, tags: seq<string>) returns (r: Result<PatchRequest, string>)
    ensures r == EditPayload(form, tags)
  {
    var payload: PatchRequest;
    match form {
      case IdeaForm(t, it, d) => payload := ReadIdea(t, it, d, tags);
      case CharacterForm(n, d, w, y) => payload := ReadCharacter(n, d, w, y, tags);
      case StoryForm(w, wh, y) => payload := ReadStory(w, wh, y, tags);
      case RandomForm(t, d) => payload := ReadRandom(t, d, tags);
    }
    var primaryVal := Trim(Or(payload.title, Or(payload.name, Or(payload.what, ""))));
    PrimaryOfRequest(form, tags);
    if primaryVal == "" {
      return Err("Title is required");
    }
    r := Ok(payload);
  }

  /** `(payload.title || payload.name || payload.what || '').trim()` is the
      trimmed primary input. */
  lemma PrimaryOfRequest(f: Form, tags: seq<string>)
    ensures var req := Request(f, tags);
      Trim(Or(req.title, Or(req.name, Or(req.what, "")))) == Trim(PrimaryInput(f))
  {
    TrimIdempotent(PrimaryInput(f));
  }

  /** The idea branch of `saveEdit`. */
  method ReadIdea(t: string, it: string, d: string, tags: seq<string>) returns (payload: PatchRequest)
    ensures payload == Request(IdeaForm(t, it, d), tags)
  {
    var sections: seq<Field> := [];
    var title := Some(Trim(t));
    var ideaType := if it != "" then Some(it) else None;
    var details := Trim(d);
    if details != "" { sections := sections + [Field("Details", Some(details))]; }
    SlotSectionsOne(Slot("Details", d));
    assert sections == SlotSections(Slots(IdeaForm(t, it, d)));
    payload := PatchRequest("idea", title, None, None, ideaType, Some(tags), Some(sections));
  }

  /** The character branch of `saveEdit`. */
  method ReadCharacter(n: string, d: string, w: string, y: string, tags: seq<string>) returns (payload: PatchRequest)
    ensures payload == Request(CharacterForm(n, d, w, y), tags)
  {
    var sections: seq<Field> := [];
    var name := Some(Trim(n));
    var desc, when, why := Trim(d), Trim(w), Trim(y);
    var a, b, c := Slot("Description", d), Slot("When I encountered them", w), Slot("Why they are interesting", y);
    if desc != "" { sections := sections + [Field("Description", Some(desc))]; }
    assert sections == SlotSection(a);
    if when != "" { sections := sections + [Field("When I encountered them", Some(when))]; }
    assert sections == SlotSection(a) + SlotSection(b);
    if why != "" { sections := sections + [Field("Why they are interesting", Some(why))]; }
    assert sections == SlotSection(a) + SlotSection(b) + SlotSection(c);
    SlotSectionsThree(a, b, c);
    assert sections == SlotSections(Slots(CharacterForm(n, d, w, y)));
    payload := PatchRequest("character", None, name, None, None, Some(tags), Some(sections));
  }

  /** The story branch of `saveEdit`. */
  method ReadStory(w: string, wh: string, y: string, tags: seq<string>) returns (payload: PatchRequest)
    ensures payload == Request(StoryForm(w, wh, y), tags)
  {
    var sections: seq<Field> := [];
    var what := Some(Trim(w));
    var when, why := Trim(wh), Trim(y);
    var a, b := Slot("When", wh), Slot("Why interesting", y);
    if when != "" { sections := sections + [Field("When", Some(when))]; }
    assert sections == SlotSection(a);
    if why != "" { sections := sections + [Field("Why interesting", Some(why))]; }
    assert sections == SlotSection(a) + SlotSection(b);
    SlotSectionsTwo(a, b);
    assert sections == SlotSections(Slots(StoryForm(w, wh, y)));
    payload := PatchRequest("story", None, None, what, None, Some(tags), Some(sections));
  }

  /** The branch of `saveEdit` for any other type, i.e. random. */
  method ReadRandom(t: string, d: string, tags: seq<string>) returns (payload: PatchRequest)
    ensures payload == Request(RandomForm(t, d), tags)
  {
    var sections: seq<Field> := [];
    var title := Some(Trim(t));
    var details := Trim(d);
    if details != "" { sections := sections + [Field("Details", Some(details))]; }
    SlotSectionsOne(Slot("Details", d));
    assert sections == SlotSections(Slots(RandomForm(t, d)));
    payload := PatchRequest("random", title, None, None, None, Some(tags), Some(sections));
  }

  lemma SlotSectionsOne(a: Slot)
    ensures SlotSections([a]) == SlotSection(a)
  {
    assert [a][1..] == [];
  }

  lemma SlotSectionsTwo(a: Slot, b: Slot)
    ensures SlotSections([a, b]) == SlotSection(a) + SlotSection(b)
  {
    assert [a, b][1..] == [b];
    SlotSectionsOne(b);
  }

  lemma SlotSectionsThree(a: Slot, b: Slot, c: Slot)
    ensures SlotSections([a, b, c]) == SlotSection(a) + SlotSection(b) + SlotSection(c)
  {
    assert [a, b, c][1..] == [b, c];
    SlotSectionsTwo(b, c);
    ConcatAssoc(SlotSection(a), SlotSection(b), SlotSection(c));
  }

  lemma ConcatAssoc(x: seq<Field>, y: seq<Field>, z: seq<Field>)
    ensures x + (y + z) == x + y + z
  {
  }

  // ===========================================================================
  // Filling the form
  // ===========================================================================

  /** One step of the `secMap` loop: a section with a truthy heading sets
      that key, so a later duplicate wins. */
  function Put(m: map<string, string>, s: Section): map<string, string> {
    if s.heading.Some? && s.heading.value != "" then m[s.heading.value := s.content] else m
  }

  /** The `secMap` loop run over the remaining sections. */
  function HeadingMapFrom(secs: seq<Section>, m: map<string, string>): map<string, string>
    decreases |secs|
  {
    if secs == [] then m else HeadingMapFrom(secs[1..], Put(m, secs[0]))
  }

  function HeadingMap(secs: seq<Section>): map<string, string> {
    HeadingMapFrom(secs, map[])
  }

  /** The heading map of `enterEditMode` (app.js). */
  method BuildHeadingMap(secs: seq<Section>) returns (secMap: map<string, string>)
    ensures secMap == HeadingMap(secs)
  {
    secMap := map[];
    for i := 0 to |secs|
      invariant HeadingMapFrom(secs[i..], secMap) == HeadingMap(secs)
    {
      assert secs[i..][1..] == secs[i + 1..];
      var s := secs[i];
      if s.heading.Some? && s.heading.value != "" {
        secMap := secMap[s.heading.value := s.content];
      }
    }
  }

  /** `secMap[label] || ''`. */
  function Get(m: map<string, string>, key: string): string {
    if key in m then m[key] else ""
  }

  /** The option the type select shows for a material's idea type. */
  function SelectedIdeaType(ideaType: Option<string>): string {
    if ideaType == Some("Script Idea") then "Script Idea"
    else if ideaType == Some("Scene Idea") then "Scene Idea"
    else ""
  }

  /** The form `enterEditMode` shows for a material with the given title,
      idea type and sections: the title is written into the primary
      input's `value` attribute and each section into its text area. */
  function FormFromEntry(kind: EntryType, title: string, ideaType: Option<string>, secs: seq<Section>): (r: Form)
    ensures KindOf(r) == kind
    ensures PrimaryInput(r) == InputValue(title)
    ensures r.IdeaForm? ==> r.ideaType == SelectedIdeaType(ideaType)
    ensures forall i | 0 <= i < |Slots(r)| :: Slots(r)[i].raw == Get(HeadingMap(secs), Slots(r)[i].heading)
  {
    var m := HeadingMap(secs);
    var v := InputValue(title);
    match kind
    case Idea => IdeaForm(v, SelectedIdeaType(ideaType), TextareaValue(Get(m, "Details")))
    case Character =>
      CharacterForm(v, TextareaValue(Get(m, "Description")), TextareaValue(Get(m, "When I encountered them")),
        TextareaValue(Get(m, "Why they are interesting")))
    case Story => StoryForm(v, TextareaValue(Get(m, "When")), TextareaValue(Get(m, "Why interesting")))
    case Random => RandomForm(v, TextareaValue(Get(m, "Details")))
  }

  /** The cached sections after a save: the saved fields as sections. */
  function CacheSections(fields: seq<Field>): (r: seq<Section>)
    ensures |r| == |fields|
  {
    seq(|fields|, i requires 0 <= i < |fields| => Section(Some(fields[i].heading), fields[i].content.GetOr("")))
  }

  /** Every input trimmed, as a successful save and reload shows it. */
  function Normalized(f: Form): Form {
    match f
    case IdeaForm(t, it, d) => IdeaForm(Trim(t), it, Trim(d))
    case CharacterForm(n, d, w, y) => CharacterForm(Trim(n), Trim(d), Trim(w), Trim(y))
    case StoryForm(w, wh, y) => StoryForm(Trim(w), Trim(wh), Trim(y))
    case RandomForm(t, d) => RandomForm(Trim(t), Trim(d))
  }

  /** The value of the type select: the idea's type, and "" for the other
      forms, which have none. */
  function TypeSelect(f: Form): string {
    if f.IdeaForm? then f.ideaType else ""
  }

  /** A form of the same kind as `f` whose primary input shows `primary`,
      whose type select shows `ideaType` and whose text areas show `f`'s
      inputs trimmed. */
  function Refilled(f: Form, primary: string, ideaType: string): (r: Form)
    ensures KindOf(r) == KindOf(f) && PrimaryInput(r) == primary
    ensures r.IdeaForm? ==> r.ideaType == ideaType
    ensures |Slots(r)| == |Slots(f)|
    ensures forall i | 0 <= i < |Slots(f)| :: Slots(r)[i] == Slot(Slots(f)[i].heading, Trim(Slots(f)[i].raw))
    ensures r == Normalized(f) <==> primary == Trim(PrimaryInput(f)) && (f.IdeaForm? ==> ideaType == f.ideaType)
  {
    match f
    case IdeaForm(_, _, d) => IdeaForm(primary, ideaType, Trim(d))
    case CharacterForm(_, d, w, y) => CharacterForm(primary, Trim(d), Trim(w), Trim(y))
    case StoryForm(_, wh, y) => StoryForm(primary, Trim(wh), Trim(y))
    case RandomForm(_, d) => RandomForm(primary, Trim(d))
  }

  predicate DistinctHeadings(slots: seq<Slot>) {
    forall i, j | 0 <= i < j < |slots| :: slots[i].heading != slots[j].heading
  }

  /** The heading loop leaves alone every key that no section names. */
  lemma {:induction false} HeadingMapFrame(secs: seq<Section>, m: map<string, string>, k: string)
    requires forall i | 0 <= i < |secs| :: secs[i].heading != Some(k)
    ensures Get(HeadingMapFrom(secs, m), k) == Get(m, k)
    decreases |secs|
  {
    if secs != [] {
      HeadingMapFrame(secs[1..], Put(m, secs[0]), k);
    }
  }

  /** What the heading loop does with the section a slot is saved as. */
  function Fill(s: Slot, m: map<string, string>): map<string, string> {
    if Trim(s.raw) != "" then m[s.heading := Trim(s.raw)] else m
  }

  /** The heading loop over the sections of some slots takes the first
      slot's section, then the others'. */
  lemma ReadBackStep(slots: seq<Slot>, m: map<string, string>)
    requires slots != [] && slots[0].heading != ""
    ensures HeadingMapFrom(CacheSections(SlotSections(slots)), m)
      == HeadingMapFrom(CacheSections(SlotSections(slots[1..])), Fill(slots[0], m))
  {
    var s0, rest := slots[0], slots[1..];
    var t := Trim(s0.raw);
    var csRest := CacheSections(SlotSections(rest));
    if t != "" {
      var f := Field(s0.heading, Some(t));
      assert SlotSections(slots) == [f] + SlotSections(rest);
      CacheCons(f, SlotSections(rest));
      MapFromCons(Section(Some(s0.heading), t), csRest, m);
    } else {
      assert SlotSections(slots) == SlotSections(rest);
    }
  }

  lemma CacheCons(f: Field, rest: seq<Field>)
    ensures CacheSections([f] + rest) == [Section(Some(f.heading), f.content.GetOr(""))] + CacheSections(rest)
  {
    var a, b := CacheSections([f] + rest), [Section(Some(f.heading), f.content.GetOr(""))] + CacheSections(rest);
    forall i | 0 <= i < |a| ensures a[i] == b[i] {
      if i > 0 {
        assert ([f] + rest)[i] == rest[i - 1];
      }
    }
  }

  lemma MapFromCons(sec: Section, rest: seq<Section>, m: map<string, string>)
    ensures HeadingMapFrom([sec] + rest, m) == HeadingMapFrom(rest, Put(m, sec))
  {
    assert ([sec] + rest)[1..] == rest;
  }

  /** Dropping the first slot keeps the headings distinct. */
  lemma DistinctRest(slots: seq<Slot>)
    requires slots != [] && DistinctHeadings(slots)
    ensures DistinctHeadings(slots[1..])
    ensures forall i | 0 <= i < |slots[1..]| :: slots[1..][i].heading != slots[0].heading
  {
    var rest := slots[1..];
    forall i, j | 0 <= i < j < |rest| ensures rest[i].heading != rest[j].heading {
      assert rest[i] == slots[i + 1] && rest[j] == slots[j + 1];
    }
    forall i | 0 <= i < |rest| ensures rest[i].heading != slots[0].heading {
      assert rest[i] == slots[i + 1];
    }
  }

  /** Reading back the saved sections of slots with distinct non-empty
      headings: each slot's heading maps to its trimmed input when that is
      non-empty, and keeps its old value otherwise. */
  lemma {:induction false} SlotsReadBack(slots: seq<Slot>, m: map<string, string>)
    requires DistinctHeadings(slots)
    requires forall i | 0 <= i < |slots| :: slots[i].heading != ""
    ensures forall i | 0 <= i < |slots| ::
      Get(HeadingMapFrom(CacheSections(SlotSections(slots)), m), slots[i].heading)
        == (if Trim(slots[i].raw) != "" then Trim(slots[i].raw) else Get(m, slots[i].heading))
    decreases |slots|
  {
    if slots != [] {
      var s0, rest := slots[0], slots[1..];
      var m' := Fill(s0, m);
      var csRest := CacheSections(SlotSections(rest));
      DistinctRest(slots);
      SlotsReadBack(rest, m');
      ReadBackStep(slots, m);
      HeadingsOfSlotSections(rest, s0.heading);
      HeadingMapFrame(csRest, m', s0.heading);
      forall i | 1 <= i < |slots|
        ensures Get(HeadingMapFrom(csRest, m'), slots[i].heading)
          == (if Trim(slots[i].raw) != "" then Trim(slots[i].raw) else Get(m, slots[i].heading))
      {
        assert slots[i] == rest[i - 1];
      }
    }
  }

  /** The sections of some slots carry only those slots' headings. */
  lemma {:induction false} HeadingsOfSlotSections(slots: seq<Slot>, k: string)
    requires forall i | 0 <= i < |slots| :: slots[i].heading != k
    ensures forall i | 0 <= i < |CacheSections(SlotSections(slots))| :: CacheSections(SlotSections(slots))[i].heading != Some(k)
    decreases |slots|
  {
    if slots != [] {
      HeadingsOfSlotSections(slots[1..], k);
      var t := Trim(slots[0].raw);
      var cs, csRest := CacheSections(SlotSections(slots)), CacheSections(SlotSections(slots[1..]));
      if t != "" {
        assert SlotSections(slots) == [Field(slots[0].heading, Some(t))] + SlotSections(slots[1..]);
        forall i | 1 <= i < |cs| ensures cs[i].heading != Some(k) {
          assert cs[i] == csRest[i - 1];
        }
      } else {
        assert SlotSections(slots) == SlotSections(slots[1..]);
      }
    }
  }

  /** What a form's inputs show after loading a material saved from it:
      every slot reads back its trimmed input. */
  lemma RefillSlots(f: Form)
    ensures forall i | 0 <= i < |Slots(f)| ::
      Get(HeadingMap(CacheSections(SlotSections(Slots(f)))), Slots(f)[i].heading) == Trim(Slots(f)[i].raw)
  {
    var slots := Slots(f);
    assert DistinctHeadings(slots);
    SlotsReadBack(slots, map[]);
  }

  /** Saved sections read back from the server (encoded, then decoded) are
      the sections the client caches. */
  lemma ServerMatchesCache(fields: seq<Field>)
    requires forall f | f in fields :: SavedField(f)
    ensures Decoded(Encoded(fields)) == CacheSections(fields)
  {
    RoundTrip(fields);
    KeptAll(fields);
  }

  lemma {:induction false} KeptAll(fields: seq<Field>)
    requires forall f | f in fields :: SavedField(f)
    ensures Kept(fields) == CacheSections(fields)
  {
    if fields != [] {
      var f := fields[0];
      assert SavedField(f);
      KeptAll(fields[1..]);
      TrimOfTrimmed(f.content.value);
      assert IsFilled(f) by {
        assert !IsWhite(f.content.value[0]);
      }
      assert Kept(fields) == [Stored(f)] + Kept(fields[1..]);
      assert fields == [f] + fields[1..];
      CacheCons(f, fields[1..]);
    }
  }

  /** Entering edit mode with the sections a form was saved as shows each
      text area the trimmed input it was saved from, the primary input the
      title as its `value` attribute reads back, and the selected type. */
  lemma RefillForm(f: Form, title: string, ideaType: Option<string>)
    ensures FormFromEntry(KindOf(f), title, ideaType, CacheSections(SlotSections(Slots(f))))
      == Refilled(f, InputValue(title), SelectedIdeaType(ideaType))
  {
    match f {
      case IdeaForm(_, _, _) =>
        SlotReads(f, 0);
      case CharacterForm(n, d, w, y) =>
        RefillCharacter(n, d, w, y, title, ideaType);
      case StoryForm(w, wh, y) =>
        RefillStory(w, wh, y, title, ideaType);
      case RandomForm(_, _) =>
        SlotReads(f, 0);
    }
  }

  lemma RefillCharacter(n: string, d: string, w: string, y: string, title: string, ideaType: Option<string>)
    ensures var f := CharacterForm(n, d, w, y);
      FormFromEntry(Character, title, ideaType, CacheSections(SlotSections(Slots(f))))
        == CharacterForm(InputValue(title), Trim(d), Trim(w), Trim(y))
  {
    var f := CharacterForm(n, d, w, y);
    SlotReads(f, 0);
    SlotReads(f, 1);
    SlotReads(f, 2);
  }

  lemma RefillStory(w: string, wh: string, y: string, title: string, ideaType: Option<string>)
    ensures var f := StoryForm(w, wh, y);
      FormFromEntry(Story, title, ideaType, CacheSections(SlotSections(Slots(f))))
        == StoryForm(InputValue(title), Trim(wh), Trim(y))
  {
    var f := StoryForm(w, wh, y);
    SlotReads(f, 0);
    SlotReads(f, 1);
  }

  /** One slot of a form reads back its trimmed input. */
  lemma SlotReads(f: Form, i: nat)
    requires i < |Slots(f)|
    ensures Get(HeadingMap(CacheSections(SlotSections(Slots(f)))), Slots(f)[i].heading) == Trim(Slots(f)[i].raw)
  {
    RefillSlots(f);
  }

  /** Save then edit: after a successful save, entering edit mode again
      from the client's cache shows every input trimmed and the same type,
      except that the title reads back as its `value` attribute gives it;
      so a title without `"` or line breaks shows exactly as saved. From
      the server's copy of the page (the properties `before` the update,
      patched, and the saved sections encoded and decoded) the same form
      shows, except that an idea whose type was cleared shows the type the
      page had before, since the update does not write an empty type. */
  lemma SaveThenEdit(f: Form, tags: seq<string>, before: Props)
    requires EditPayload(f, tags).Ok?
    requires f.IdeaForm? ==> f.ideaType in {"", "Script Idea", "Scene Idea"}
    ensures var p := EditPayload(f, tags).value;
      var primary := InputValue(Trim(PrimaryInput(f)));
      FormFromEntry(KindOf(f), Trim(PrimaryInput(f)), p.ideaType, CacheSections(p.sections.value))
        == Refilled(f, primary, TypeSelect(f))
    ensures var p := EditPayload(f, tags).value;
      InputSafe(Trim(PrimaryInput(f))) ==>
        FormFromEntry(KindOf(f), Trim(PrimaryInput(f)), p.ideaType, CacheSections(p.sections.value)) == Normalized(f)
    ensures var p := EditPayload(f, tags).value;
      var page := ParsePage(KindOf(f), before + PatchProperties(p));
      var primary := InputValue(Trim(PrimaryInput(f)));
      var shownType := if TypeSelect(f) != "" then TypeSelect(f) else SelectedIdeaType(ParsePage(KindOf(f), before).ideaType);
      FormFromEntry(KindOf(f), page.title, page.ideaType, Decoded(Encoded(p.sections.value)))
        == Refilled(f, primary, shownType)
  {
    SaveThenEditCache(f, tags);
    SaveThenEditServer(f, tags, before);
  }

  lemma SaveThenEditCache(f: Form, tags: seq<string>)
    requires EditPayload(f, tags).Ok?
    requires f.IdeaForm? ==> f.ideaType in {"", "Script Idea", "Scene Idea"}
    ensures var p := EditPayload(f, tags).value;
      FormFromEntry(KindOf(f), Trim(PrimaryInput(f)), p.ideaType, CacheSections(p.sections.value))
        == Refilled(f, InputValue(Trim(PrimaryInput(f))), TypeSelect(f))
    ensures var p := EditPayload(f, tags).value;
      InputSafe(Trim(PrimaryInput(f))) ==>
        FormFromEntry(KindOf(f), Trim(PrimaryInput(f)), p.ideaType, CacheSections(p.sections.value)) == Normalized(f)
  {
    var p := EditPayload(f, tags).value;
    var t := Trim(PrimaryInput(f));
    RefillForm(f, t, p.ideaType);
    SameRefill(f, InputValue(t), SelectedIdeaType(p.ideaType), TypeSelect(f));
    if InputSafe(t) {
      InputValueSafe(t);
    }
  }

  /** The type select does not matter to a form that has none. */
  lemma SameRefill(f: Form, primary: string, a: string, b: string)
    requires f.IdeaForm? ==> a == b
    ensures Refilled(f, primary, a) == Refilled(f, primary, b)
  {
  }

  lemma SaveThenEditServer(f: Form, tags: seq<string>, before: Props)
    requires EditPayload(f, tags).Ok?
    requires f.IdeaForm? ==> f.ideaType in {"", "Script Idea", "Scene Idea"}
    ensures var p := EditPayload(f, tags).value;
      var page := ParsePage(KindOf(f), before + PatchProperties(p));
      var primary := InputValue(Trim(PrimaryInput(f)));
      var shownType := if TypeSelect(f) != "" then TypeSelect(f) else SelectedIdeaType(ParsePage(KindOf(f), before).ideaType);
      FormFromEntry(KindOf(f), page.title, page.ideaType, Decoded(Encoded(p.sections.value)))
        == Refilled(f, primary, shownType)
  {
    var p := EditPayload(f, tags).value;
    var t := Trim(PrimaryInput(f));
    var page := ParsePage(KindOf(f), before + PatchProperties(p));
    ServerMatchesCache(p.sections.value);
    PatchThenParse(KindOf(f), before, p);
    TrimIdempotent(PrimaryInput(f));
    assert page.title == t;
    RefillForm(f, page.title, page.ideaType);
    var shownType := if TypeSelect(f) != "" then TypeSelect(f) else SelectedIdeaType(ParsePage(KindOf(f), before).ideaType);
    SameRefill(f, InputValue(t), SelectedIdeaType(page.ideaType), shownType);
  }

  // ===========================================================================
  // Card previews
  // ===========================================================================

  /** `trunc`: '' for a missing string, the string itself when it has at
      most `n` characters, and otherwise its first `n` characters and an
      ellipsis. */
  function Trunc(s: Option<string>, n: nat): (r: string)
    ensures |r| <= n + 1
    ensures s.None? ==> r == ""
    ensures s.Some? && |s.value| <= n ==> r == s.value
    ensures s.Some? && |s.value| > n ==> |r| == n + 1 && r[..n] == s.value[..n] && r[n] == '…'
  {
    if s.Some? && |s.value| > n then s.value[..n] + "…" else s.GetOr("")
  }
}
