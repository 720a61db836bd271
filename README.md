# Screenwriter Library and movie recommender, modelled in Dafny

This project models the deterministic core of two small Node applications
and proves properties of it.

**Screenwriter Library.** Writers file ideas, characters, stories and
random notes into four Notion databases.

- `section_codec.dfy` (`SectionCodec`): the section codec.
  - `buildBlocks` stores labelled free-text fields in a page body as
    (heading_3, paragraph) block pairs.
  - The decode loop of `GET /api/entry/:id` folds a flat block list back
    into (heading, content) sections. It has a line rule for every block
    type, uses `flush`, and drops empty sections.
  - The headline theorem is the round trip: decoding what the encoder
    wrote gives back the non-blank fields, in order, each with its
    heading unchanged and its content trimmed.
- `entry_props.dfy` (`EntryProps`): the property helpers `selectProp`,
  `multiSelectProp` and `set`; the property assembly of
  `PATCH /api/entry/:id`; and the page readers `getSel`, `getTags` and
  `parse*Page`.
- `entry_store.dfy` (`EntryStore`): a page as a class with two fields,
  its properties and its block list. `Patch` and `Read` are the two entry
  endpoints, including the 100-block listing size.
- `tag_picker.dfy` (`TagPicker`): the tag picker of `createTagPicker`,
  a class with its selection, known tags, input text and dropdown.
- `edit_form.dfy` (`EditForm`): the card edit form.
  - `saveEdit` builds the request body and rejects an empty primary value.
  - `enterEditMode` fills the form from a heading map.
  - `trunc`.
  - The save-then-edit law: a saved form comes back with every input
    trimmed.
- `setup_env.dfy` (`SetupEnv`): `setEnv` of the setup script and the four
  updates that write the database ids into `.env`. A `.env` is read as
  dotenv reads it, line by line with the last `KEY=` line winning. A
  line-based corrected update sits beside `setEnv` (see Findings).
- `html.dfy` (`Html`): the screenwriter client's `esc`, which writes text
  as the markup of a text node, and how the browser reads that markup
  back from a `data-tag` or `value` attribute and from a text area.
  `esc` does not escape `"`, so an attribute value ends at the text's
  first `"`.

**Movie recommender.**

- `movie_client.dfy` (`MovieClient`): `esc`, `parseRt`, `getSorted` as a
  stable descending sort, `buildOscarHtml`, and the displayed year.
- `movie_server.dfy` (`MovieServer`): `parseOMDB`, the seed year, the
  JSON-array salvage, and `POST /api/recommend` with the
  per-recommendation merge. The OMDB lookup and `JSON.parse` are
  parameters.

**Shared modules.**

- `text.dfy` (`Text`): the JavaScript string built-ins the code relies
  on. These are `trim` (with ECMAScript whitespace), `includes`/`indexOf`,
  `join`, `split`, `parseInt` (sign, `0x` prefix, longest digit run),
  `replace` with one character and `/\d{4}/`.
- `base.dfy` (`Base`): `Option` and `Result`.

A JavaScript value that is `undefined` and one that is `null` are both
`None`.

## Model

| member | source | states |
|---|---|---|
| SectionCodec.Filled | screenwriter-library/server.js:27-28 | the kept fields are a subsequence of the input, in order and no longer than it; each kept field has content that is not blank after trim, and every input field with such content is kept |
| SectionCodec.Encoded | screenwriter-library/server.js:25-39 | the block list has even length, at most two blocks per field, a heading_3 at every even position and a paragraph at every odd one |
| SectionCodec.EncodedAppend | screenwriter-library/server.js:27-37 | one more field adds exactly that field's blocks at the end of the block list |
| SectionCodec.BuildBlocks | screenwriter-library/server.js:25-39 | the loop returns the encoding of the fields: per field, a (heading, paragraph) pair when its content is not blank, and nothing otherwise |
| SectionCodec.EncodedShape | screenwriter-library/server.js:25-39 | the output has 2 × (kept fields) blocks; block 2k is a heading_3 holding the k-th kept heading verbatim, and block 2k+1 is a paragraph holding that field's trimmed content as one run, in field order |
| SectionCodec.EncodedStart | screenwriter-library/server.js:29-32 | the encoded list is empty or starts with a heading |
| SectionCodec.ToSections | screenwriter-library/server.js:248-251 | one section per emitted group |
| SectionCodec.LineOf | screenwriter-library/server.js:229-239 | paragraphs, numbered items and quotes give their text; a bulleted item gives "• " followed by its text and is never blank; every other block type gives a blank line |
| SectionCodec.Flush | screenwriter-library/server.js:214-216 | the open group is appended iff there is one and it has a line; the finished groups stay a prefix |
| SectionCodec.Step | screenwriter-library/server.js:218-245 | finished groups stay a prefix and only a heading adds one; a heading flushes and opens an empty group under its text; a blank line changes nothing; any other line extends the open group, or a new heading-less one |
| SectionCodec.Decoded | screenwriter-library/server.js:209-251 | one section per emitted group; no section has blank content, and only the first may have a null heading |
| SectionCodec.GroupsOk | screenwriter-library/server.js:214-251 | no emitted group joins to blank content, and only the first lacks a heading |
| SectionCodec.Decode | screenwriter-library/server.js:209-251 | the imperative loop, with `current` and `flush`, returns exactly the sections of the block-list fold |
| SectionCodec.FoldAppend | screenwriter-library/server.js:218-245 | the loop over a concatenation is the loop over the second part from the state the first part left |
| SectionCodec.FoldPrefix | screenwriter-library/server.js:214-216 | finished sections are never revisited: they stay a prefix of the output |
| SectionCodec.FoldText | screenwriter-library/server.js:229-244 | a run of blocks without headings only appends its non-blank lines to the open section and closes nothing |
| SectionCodec.RunFromHeading | screenwriter-library/server.js:220-226 | from a heading onwards, the open section is flushed first and then the rest decodes on its own |
| SectionCodec.ToSectionsAppend | screenwriter-library/server.js:248-251 | section conversion distributes over concatenation |
| SectionCodec.HeadingSection | screenwriter-library/server.js:214-226 | a heading closes the open section and starts one carrying its concatenated runs; that section's content is its body's non-blank lines joined by "\n", and it is dropped when there are no such lines |
| SectionCodec.HeadingGroups | screenwriter-library/server.js:214-226 | the same rule stated on the loop's groups |
| SectionCodec.HeadingFold | screenwriter-library/server.js:220-226 | folding a heading and the text after it flushes the open group and leaves a new group holding that text |
| SectionCodec.LeadingText | screenwriter-library/server.js:241-244 | text before the first heading forms exactly one section with a null heading, holding those lines in order; it is dropped when all of it is blank |
| SectionCodec.LeadingGroups | screenwriter-library/server.js:241-244 | the same rule stated on the loop's groups |
| SectionCodec.IgnoredBlock | screenwriter-library/server.js:229-244 | a non-heading block whose line is blank changes nothing; in particular an unknown block type neither closes nor extends a section |
| SectionCodec.DecodedEmpty | screenwriter-library/server.js:211-246 | the empty block list decodes to no sections |
| SectionCodec.FoldKeepsStateOk | screenwriter-library/server.js:214-245 | the loop keeps its invariant: finished groups have a non-blank line, only the first may lack a heading, and a heading-less group is open only while nothing is finished |
| SectionCodec.JoinNonBlank | screenwriter-library/server.js:250 | lines joined with a non-blank first line are not blank |
| SectionCodec.StepLines | screenwriter-library/server.js:230-244 | one loop step adds exactly the block's non-blank line, if any, to the lines held |
| SectionCodec.FoldLines | screenwriter-library/server.js:218-245 | the lines held after the loop are the lines held before, followed by the blocks' non-blank lines |
| SectionCodec.GroupsKeepLines | screenwriter-library/server.js:209-251 | no text line is lost, added or reordered: the decoded groups' lines are the non-blank lines of the blocks, in order |
| SectionCodec.Kept | screenwriter-library/server.js:27-35 | the expected read-back has one section per kept field |
| SectionCodec.FilledPair | screenwriter-library/server.js:29-36 | one kept field's block pair decodes to its own section (heading verbatim, content trimmed) ahead of whatever follows |
| SectionCodec.SingleParagraph | screenwriter-library/server.js:231-232 | a paragraph with one non-blank run yields that run as its only line |
| SectionCodec.RoundTrip | screenwriter-library/server.js:25-39 | decoding the encoder's output gives exactly the non-blank fields, in order, each with its heading unchanged and its content trimmed |
| SectionCodec.ExampleMultiLine | screenwriter-library/server.js:233-234 | a paragraph "a" and a bulleted "b" under heading "H" become one section "a\n• b" |
| SectionCodec.ExampleEmptyHeading | screenwriter-library/server.js:220-226 | a heading directly followed by another heading yields no section |
| EntryProps.TrimAll | screenwriter-library/server.js:20 | each tag name is trimmed; the order is kept and duplicates are kept |
| EntryProps.SelectProp | screenwriter-library/server.js:19 | a select option holding the value iff the value is truthy (present and non-empty), and nothing otherwise |
| EntryProps.MultiSelectProp | screenwriter-library/server.js:20 | nothing iff the list is missing or empty; otherwise one option per name, in order, each trimmed |
| EntryProps.TitleProp | screenwriter-library/server.js:170-171 | a title property iff the trimmed value is non-empty, holding that trimmed value as its one run |
| EntryProps.SetProp | screenwriter-library/server.js:21 | `set` writes the key only for a defined value and leaves every other key as it was |
| EntryProps.PatchProperties | screenwriter-library/server.js:168-183 | the type's title property (Title, Name, What, Title) is written iff its trimmed value is non-empty, and then holds that value; Type is written iff the request is an idea with a truthy idea type; Tags is written iff the list is present and non-empty, trimmed; nothing else is written |
| EntryProps.EmptyPatch | screenwriter-library/server.js:184-185 | with no primary value, no idea type and no tags, no property is built, so the page is not updated |
| EntryProps.ParsePage | screenwriter-library/server.js:45-76 | the material has the page's type; its title is the first run of the type's title property when that run is non-empty, and otherwise "Unnamed" for a character and "Untitled" for the others; an idea carries the Type option's name when it is non-empty and every other page carries none; the tags are the Tags option names, or none |
| EntryProps.GetSel | screenwriter-library/server.js:42 | the option name when there is a select option with a non-empty name, and null otherwise |
| EntryProps.GetTags | screenwriter-library/server.js:43 | the option names of a multi-select, and [] for anything else |
| EntryProps.FirstRun | screenwriter-library/server.js:48 | the first run of a title property when it is non-empty, otherwise the default; never empty when the default is not |
| EntryProps.SelectRoundTrip | screenwriter-library/server.js:19 | `getSel` reads back the value `selectProp` wrote, and reads null exactly when nothing was written |
| EntryProps.PatchThenParse | screenwriter-library/server.js:168-185 | after an update the parser reads the trimmed new title when one was given, the trimmed tags when the list was non-empty, and the idea type when it was truthy; otherwise it reads the old value |
| EntryProps.PatchTitle | screenwriter-library/server.js:169-181 | the title part of PatchThenParse |
| EntryProps.PatchTags | screenwriter-library/server.js:183 | the tags part of PatchThenParse |
| EntryProps.PatchIdeaType | screenwriter-library/server.js:172 | the idea-type part of PatchThenParse |
| EntryStore.BuildProperties | screenwriter-library/server.js:168-183 | the branch-by-branch assembly builds exactly the map `PatchProperties` specifies |
| EntryStore.EntryPage.Patch | screenwriter-library/server.js:163-192 | the properties become the old ones overwritten by the built ones; the body loses its first 100 blocks and gets the encoded sections appended |
| EntryStore.EntryPage.Read | screenwriter-library/server.js:202-253 | reading returns the decoding of the first 100 blocks |
| EntryStore.PatchThenRead | screenwriter-library/server.js:188-192 | on a page and an update that each fit in one listing, reading after a replacement returns exactly the non-blank fields, trimmed and in order |
| EntryStore.LongPageKeepsStale | screenwriter-library/server.js:188-192 | on a page longer than 100 blocks the blocks past the first 100 survive the replacement and come before the new ones |
| TagPicker.Added | screenwriter-library/public/app.js:86-93 | a blank tag, or one whose trimmed form is already selected, leaves the selection as it is; otherwise the trimmed tag is appended, so the old selection stays a prefix, grows by at most one, and holds exactly the old entries plus the trimmed tag |
| TagPicker.Removed | screenwriter-library/public/app.js:95-98 | every entry equal to the tag is dropped; the others keep their order and their number of copies; a tag that is not selected changes nothing |
| TagPicker.RemovedAt | screenwriter-library/public/app.js:95-98 | in a selection where the entry at k occurs once, removing it drops exactly position k |
| TagPicker.AddedClean | screenwriter-library/public/app.js:86-93 | adding keeps the selection free of duplicates and of blank or untrimmed entries |
| TagPicker.RemovedClean | screenwriter-library/public/app.js:95-98 | removing keeps the selection free of duplicates and of blank or untrimmed entries |
| TagPicker.RemoveUndoesAdd | screenwriter-library/public/app.js:86-98 | removing a tag that was just added restores the selection |
| TagPicker.RemoveLast | screenwriter-library/public/app.js:126-128 | removing the last entry, when it occurs nowhere else, drops exactly that entry |
| TagPicker.Options | screenwriter-library/public/app.js:60-64 | the options are exactly the known tags, in their order, that are not selected and whose lower-cased form contains the filter (all of them when the filter is blank) |
| TagPicker.CreateNotListed | screenwriter-library/public/app.js:70-77 | the create offer is never also listed as an option |
| TagPicker.PickCreate | screenwriter-library/public/app.js:70-77 | picking the create offer appends exactly the trimmed query |
| TagPicker.PickOption | screenwriter-library/public/app.js:105-108 | picking a listed, trimmed option appends exactly it |
| TagPicker.BackspaceDropsLast | screenwriter-library/public/app.js:126-128 | Backspace on a duplicate-free selection removes exactly its last tag |
| TagPicker.Picker.constructor | screenwriter-library/public/app.js:30-31 | a new picker has no selection, no known tags and a closed dropdown |
| TagPicker.Picker.OpenDrop | screenwriter-library/public/app.js:60-82 | the dropdown shows the options and the create offer (which is offered iff the trimmed query is non-empty, matches no known tag ignoring case, and is not selected); with neither, it is hidden and keeps its old content |
| TagPicker.Picker.AddTag | screenwriter-library/public/app.js:86-93 | the selection becomes Added(old, tag) and stays clean; an accepted tag clears the input and closes the dropdown, and a rejected one changes nothing |
| TagPicker.Picker.RemoveTag | screenwriter-library/public/app.js:95-98 | the selection becomes Removed(old, tag) and stays clean; nothing else changes |
| TagPicker.Picker.KeyDown | screenwriter-library/public/app.js:120-129 | Enter adds the trimmed input: an accepted tag clears the input and closes the dropdown, a rejected one leaves both, and a blank input only closes the dropdown; Backspace on an empty input with a non-empty selection removes the last tag; every key other than Enter leaves the input and the dropdown; known tags, options and offer never change, and the selection stays clean |
| TagPicker.Picker.Type | screenwriter-library/public/app.js:102 | the input becomes the text; with neither options nor a create offer for it the dropdown closes and keeps its old options and offer, otherwise it opens showing exactly those options and the offer (the trimmed text when it is new); selection and known tags are unchanged |
| TagPicker.Picker.Focus | screenwriter-library/public/app.js:101 | with neither options nor a create offer for the current input the dropdown closes and keeps its old options and offer, otherwise it opens showing exactly those options and the offer; input, selection and known tags are unchanged |
| TagPicker.Picker.Blur | screenwriter-library/public/app.js:117 | blur closes the dropdown and changes nothing else |
| TagPicker.Picker.Pick | screenwriter-library/public/app.js:105-108 | pressing a shown button adds its tag as the button's `data-tag` reads it back, cut at its first `"`; an accepted tag clears the input and closes the dropdown, a rejected one changes neither; known tags, options and offer are unchanged and the selection stays clean |
| TagPicker.Picker.RemoveChip | screenwriter-library/public/app.js:111-114 | the chip's remove button removes the tag its `data-tag` reads back, cut at its first `"`; nothing else changes and the selection stays clean |
| TagPicker.ChipRemoval | screenwriter-library/public/app.js:111-114 | in a duplicate-free selection a chip whose tag has no `"` removes exactly itself, and a chip whose tag has a `"` stays |
| TagPicker.PickQuoted | screenwriter-library/public/app.js:105-108 | a known tag `x"y` is added as `x` |
| TagPicker.Picker.GetTags | screenwriter-library/public/app.js:137 | returns the selection |
| TagPicker.Picker.SetTags | screenwriter-library/public/app.js:138 | the selection becomes the given list, unchecked; nothing else changes |
| TagPicker.Picker.Reset | screenwriter-library/public/app.js:139 | the selection is emptied and the dropdown closed |
| TagPicker.Picker.SetAvailable | screenwriter-library/public/app.js:140 | the known tags are replaced; nothing else changes |
| Html.EscChar | screenwriter-library/public/app.js:15 | a character other than `&`, `<`, `>` and the no-break space is written as itself; its markup holds a `"` iff the character is one |
| Html.Escape | screenwriter-library/public/app.js:15 | the markup is at least as long as the text, has no `<` or `>`, and holds a `"` iff the text does |
| Html.UnescapeEscape | screenwriter-library/public/app.js:15 | decoding the markup as the HTML parser does gives the text back |
| Html.BeforeQuote | screenwriter-library/public/app.js:66-67 | the text up to its first `"`: a prefix with no `"`, followed in the text by a `"` when it is shorter, and the whole text when it has none |
| Html.BeforeQuoteEscape | screenwriter-library/public/app.js:66-67 | the markup of a text followed by `"` ends the attribute where the text has its first `"` |
| Html.EscapedAttr | screenwriter-library/public/app.js:66-67 | `attr="${esc(s)}"` reads back as `s` up to its first `"` |
| Html.DataTag | screenwriter-library/public/app.js:107 | `btn.dataset.tag` is the tag cut at its first `"` |
| Html.StripNewlines | screenwriter-library/public/app.js:428 | exactly the line feeds and carriage returns are dropped |
| Html.InputValue | screenwriter-library/public/app.js:428 | an input shows the title cut at its first `"`, without line breaks |
| Html.TextareaValue | screenwriter-library/public/app.js:436 | a text area shows its text exactly |
| Html.InputValueSafe | screenwriter-library/public/app.js:428 | a title without `"` and line breaks shows exactly as written |
| Html.InputValueQuoted | screenwriter-library/public/app.js:428 | the title `Say "hi"` shows as `Say ` |
| EditForm.SlotSection | screenwriter-library/public/app.js:519-520 | a free-text input yields a section iff it is not blank, and that section holds the trimmed input under the input's label |
| EditForm.SlotSections | screenwriter-library/public/app.js:516-539 | one section per non-blank input, in input order: the sections are a subsequence of the inputs' saved fields, contain the saved field of every non-blank input, and each holds a non-empty trimmed value, so no blank input has one |
| EditForm.Request | screenwriter-library/public/app.js:512-541 | the request names the card's type, holds the trimmed primary input, the picker's tags and the slot sections, and carries the idea type iff the form is an idea whose type select is not empty |
| EditForm.EditPayload | screenwriter-library/public/app.js:541-547 | the save fails with "Title is required" exactly when the primary input (title, name or what) is blank |
| EditForm.PayloadRequest | screenwriter-library/public/app.js:512-541 | a sent request names the card's type, holds the trimmed primary value where the server reads it, and holds the picker's tags and one section per non-blank input; only an idea carries an idea type |
| EditForm.SaveEdit | screenwriter-library/public/app.js:500-547 | the branch-by-branch reading of the form returns exactly `EditPayload` of the form and tags |
| EditForm.PrimaryOfRequest | screenwriter-library/public/app.js:542 | `(title \|\| name \|\| what \|\| '').trim()` is the trimmed primary input |
| EditForm.ReadIdea | screenwriter-library/public/app.js:516-520 | the idea branch builds exactly `Request` of that form |
| EditForm.ReadCharacter | screenwriter-library/public/app.js:521-528 | the character branch builds exactly `Request` of that form, with sections in label order |
| EditForm.ReadStory | screenwriter-library/public/app.js:529-534 | the story branch builds exactly `Request` of that form, with sections in label order |
| EditForm.ReadRandom | screenwriter-library/public/app.js:535-539 | the remaining branch builds exactly `Request` of that form |
| EditForm.BuildHeadingMap | screenwriter-library/public/app.js:420 | the loop builds the heading map: each section with a truthy heading sets that key, so a later duplicate wins |
| EditForm.HeadingMapFrame | screenwriter-library/public/app.js:420 | a key that no section names is left as it was |
| EditForm.ReadBackStep | screenwriter-library/public/app.js:420 | the heading loop over saved sections takes the first input's section, then the rest |
| EditForm.SlotsReadBack | screenwriter-library/public/app.js:420 | with distinct labels, each label maps to its trimmed input when that is non-blank, and otherwise keeps its old value |
| EditForm.HeadingsOfSlotSections | screenwriter-library/public/app.js:516-539 | saved sections carry only their inputs' labels |
| EditForm.RefillSlots | screenwriter-library/public/app.js:420-460 | every input reads back its trimmed value from the heading map of its saved sections |
| EditForm.CacheSections | screenwriter-library/public/app.js:562 | the client caches one section per saved field, under that field's label |
| EditForm.FormFromEntry | screenwriter-library/public/app.js:425-460 | the form has the card's kind; the primary input shows the title as its `value` attribute reads it back; an idea's select shows the stored type only when it is one of the two options; each text area shows the heading map's value for its label |
| EditForm.ServerMatchesCache | screenwriter-library/public/app.js:562 | the sections the server returns for the saved body equal the sections the client caches |
| EditForm.KeptAll | screenwriter-library/public/app.js:562 | for saved sections, the codec's read-back equals the cached sections |
| EditForm.RefillForm | screenwriter-library/public/app.js:425-460 | entering edit mode with the saved sections shows every text area its trimmed input, the selected idea type, and in the primary input the title as its `value` attribute reads it back (cut at its first `"`, line breaks dropped) |
| EditForm.RefillCharacter | screenwriter-library/public/app.js:437-446 | the character case of RefillForm: the name shows as its `value` attribute reads it back, and the three text areas show their trimmed inputs |
| EditForm.RefillStory | screenwriter-library/public/app.js:447-454 | the story case of RefillForm: the what input shows as its `value` attribute reads it back, and the two text areas show their trimmed inputs |
| EditForm.SlotReads | screenwriter-library/public/app.js:420-460 | one input reads back its trimmed value |
| EditForm.SaveThenEdit | screenwriter-library/public/app.js:516-562 | after a successful save, editing again from the client cache shows every input trimmed and the same idea type, with the title as its `value` attribute reads it back, so exactly the saved form when the title has no `"` and no line break; from the server's copy the same form shows, except that a cleared idea type shows the type the page had before |
| EditForm.Trunc | screenwriter-library/public/app.js:16 | '' for a missing string; the string itself when it has at most n characters; otherwise its first n characters followed by '…' |
| MovieClient.EscOneChar | movie-recommender/public/app.js:419-421 | the five replacements turn one character into its entity, or leave it as it is |
| MovieClient.Esc | movie-recommender/public/app.js:417-422 | '' for null; otherwise at least as long as the input, free of `<`, `>`, `"` and `'`, and equal to the input when it has none of the five characters |
| MovieClient.EscAppend | movie-recommender/public/app.js:419-421 | escaping distributes over concatenation |
| MovieClient.EscAmp | movie-recommender/public/app.js:420 | `&` becomes `&amp;` and the later replacements leave it alone |
| MovieClient.EscLt | movie-recommender/public/app.js:420 | `<` becomes `&lt;` |
| MovieClient.EscGt | movie-recommender/public/app.js:421 | `>` becomes `&gt;` |
| MovieClient.EscQuot | movie-recommender/public/app.js:421 | `"` becomes `&quot;` |
| MovieClient.EscApos | movie-recommender/public/app.js:421 | `'` becomes `&#039;` |
| MovieClient.EscIsPerChar | movie-recommender/public/app.js:417-422 | escaping writes each character as its entity; because `&` is replaced first, no entity is escaped twice |
| MovieClient.UnescapeEsc | movie-recommender/public/app.js:417-422 | reading escaped text back as HTML gives the original text |
| MovieClient.ParseRt | movie-recommender/public/app.js:126-129 | 0 for a missing or empty value, and 0 when no integer can be read after the first '%' is removed |
| MovieClient.ParseRtPercent | movie-recommender/public/app.js:126-129 | a score written as `n%` reads back as n |
| MovieClient.Insert | movie-recommender/public/app.js:117 | insertion adds exactly one element |
| MovieClient.InsertDescending | movie-recommender/public/app.js:117 | inserting into a descending list keeps it descending |
| MovieClient.SortDesc | movie-recommender/public/app.js:117 | the sort returns a permutation of its input with non-increasing keys |
| MovieClient.WithKeyInsert | movie-recommender/public/app.js:117 | insertion puts an element before every element with an equal key |
| MovieClient.SortDescStable | movie-recommender/public/app.js:117 | the sort is stable: elements that share a key keep their original order |
| MovieClient.SortDescSorted | movie-recommender/public/app.js:117 | an already descending list is left as it is |
| MovieClient.GetSorted | movie-recommender/public/app.js:114-124 | a permutation of the recommendations: descending by `parseInt(year) \|\| 0` for 'year', by `parseRt` for 'rt', and the server's order otherwise |
| MovieClient.GetSortedStable | movie-recommender/public/app.js:114-124 | movies that tie on the sort key keep the server's order |
| MovieClient.NominationAt | movie-recommender/public/app.js:189 | a match of `/Nominated for (\d+) Oscar/i` captures a non-empty run of digits |
| MovieClient.NominationFrom | movie-recommender/public/app.js:189 | the leftmost match at or after a position, or none |
| MovieClient.Nomination | movie-recommender/public/app.js:189 | the capture of the leftmost match, and none iff the pattern matches nowhere |
| MovieClient.OscarBadge | movie-recommender/public/app.js:176-193 | with wins: the first two, "+N more" with N = count − 2 iff there are more than two, and all of them for the tooltip; without wins: a nomination badge iff the awards text matches, carrying the captured count, and no badge iff it does not; pluralised iff the count is more than 1 |
| MovieClient.BadgeHtml | movie-recommender/public/app.js:176-194 | no badge gives ''; any badge gives one `<span class="oscar-badge…">…</span>` element |
| MovieClient.BuildOscarHtml | movie-recommender/public/app.js:176-194 | the HTML is empty exactly when there are no wins and the awards text has no nomination count |
| MovieClient.NominationAtStart | movie-recommender/public/app.js:189 | awards text opening with "Nominated for d Oscar" matches with count d |
| MovieClient.NominationBadge | movie-recommender/public/app.js:189-191 | such text shows the one-digit count, pluralised iff it is more than 1 |
| MovieClient.DisplayYear | movie-recommender/public/app.js:212 | nothing for a missing year; the year text itself when it has no run of four digits; otherwise a four-character year (which run it is, is stated by DisplayYearMatchesSeedYear) |
| MovieClient.SeedHeading | movie-recommender/public/app.js:156-157 | the seed's title, or "Unknown" when it is missing or empty; when the year is truthy it is followed by " (", the year's first four-digit run or else the year itself, and ")" |
| MovieClient.DisplayYearMatchesSeedYear | movie-recommender/public/app.js:156 | the client shows the same year as the server read for the seed from the same record |
| MovieServer.FindRating | movie-recommender/server.js:37 | the index of the first rating from the source, or none iff no rating has that source |
| MovieServer.RottenTomatoes | movie-recommender/server.js:37 | the value of the first "Rotten Tomatoes" rating, and null iff there is none |
| MovieServer.ParseOmdb | movie-recommender/server.js:35-52 | the empty object for a missing record; otherwise title and year are copied, poster, plot, director, runtime, imdbRating, actors and awards turn 'N/A' into null and pass anything else through, genre 'N/A' gives [], rtRating is the first Rotten Tomatoes value, and imdbId is null iff imdbID is empty |
| MovieServer.GenreRoundTrip | movie-recommender/server.js:43 | the genre pieces join back with ", " into the original string, and no piece contains ", " |
| MovieServer.SeedYear | movie-recommender/server.js:63 | the leftmost run of four digits in the seed's Year, and '' iff there is no record or no such run |
| MovieServer.FirstIndex | movie-recommender/server.js:89 | the first index of the character, or none iff it does not occur |
| MovieServer.LastIndex | movie-recommender/server.js:89 | the last index of the character, or none iff it does not occur |
| MovieServer.Salvage | movie-recommender/server.js:89 | the span from the first '[' to the last ']', present iff some '[' comes before some ']' |
| MovieServer.SalvageWrapped | movie-recommender/server.js:89-90 | an array wrapped in prose with no '[' before it and no ']' after it is salvaged exactly |
| MovieServer.MergeOne | movie-recommender/server.js:97-104 | the merged record keeps the model's reason, its streaming list and Oscar wins ([] when missing), and is the whole `parseOMDB` record, title and year included, when a record was found; otherwise the recommendation's own title and year |
| MovieServer.Merge | movie-recommender/server.js:95-106 | one merged record per recommendation, in the same order, each built from its own lookup |
| MovieServer.Status | movie-recommender/server.js:56-57 | a missing title is the only 400 error; every other failure is a 500 |
| MovieServer.ReadRecommendations | movie-recommender/server.js:84-92 | a direct parse is used when it succeeds; otherwise the salvaged span is parsed; with no span the error is "Could not parse AI response as JSON" |
| MovieServer.Recommend | movie-recommender/server.js:54-113 | fails with 400 iff the title is missing or blank; otherwise the seed is the parsed record or `{ title }`, the recommendations are the merge of what the reply parses to, and a parse failure is reported |
| Text.TrimStartShape | screenwriter-library/server.js:28 | the left trim removes a blank prefix and nothing else |
| Text.TrimEndShape | screenwriter-library/server.js:28 | the right trim removes a blank suffix and nothing else |
| Text.Trim | screenwriter-library/server.js:28 | `trim()` gives a trimmed string that is empty iff the input is blank |
| Text.TrimInfix | screenwriter-library/server.js:35 | `trim()` returns the infix between a blank prefix and a blank suffix |
| Text.TrimEmptyIffBlank | screenwriter-library/server.js:28 | `content.trim()` is falsy exactly for a blank string |
| Text.TrimIdempotent | screenwriter-library/public/app.js:87 | trimming twice equals trimming once |
| Text.TrimOfTrimmed | screenwriter-library/public/app.js:87 | a trimmed string is its own trim |
| Text.TrimNotBlank | screenwriter-library/server.js:35 | the trim of a non-blank string is not blank |
| Text.FindFrom | screenwriter-library/setup.js:70 | the first occurrence at or after a position, or none |
| Text.Find | screenwriter-library/setup.js:70 | `indexOf`: the first occurrence, and none iff there is no occurrence |
| Text.FindIs | screenwriter-library/setup.js:70 | an occurrence with none before it is the one found |
| Text.Lower | screenwriter-library/public/app.js:61 | lower-casing keeps the length |
| Text.DigitPrefix | movie-recommender/public/app.js:128 | the longest prefix of digits of the radix |
| Text.DecimalString | movie-recommender/public/app.js:181 | the numeral is non-empty, all digits, with no leading zero |
| Text.DecimalValue | movie-recommender/public/app.js:181 | the numeral reads back as its number |
| Text.ParseDigits | movie-recommender/public/app.js:191 | `parseInt` of a string of decimal digits is its value |
| Text.ParseDecimal | movie-recommender/public/app.js:128 | `parseInt` reads back what `String(n)` writes |
| Text.ParseInt | movie-recommender/public/app.js:128 | NaN exactly when no digit follows the leading whitespace, the sign and a `0x` prefix; otherwise the value of the longest digit run, in base 16 after `0x` and base 10 otherwise, negated after `-` |
| Text.Split | movie-recommender/server.js:43 | `split` gives at least one piece |
| Text.SplitPiecesFree | movie-recommender/server.js:43 | no piece of a split contains the separator |
| Text.SplitJoin | movie-recommender/server.js:43 | joining the pieces of a split with the separator gives back the string |
| Text.SplitOfJoin | movie-recommender/server.js:43 | splitting a join at a one-character separator that no part contains gives back the parts |
| Text.OccursInPiece | movie-recommender/server.js:43 | what occurs in a piece of a split occurs in the whole string |
| Text.ReplaceAllAppend | movie-recommender/public/app.js:420 | a global one-character replacement distributes over concatenation |
| Text.ReplaceAll | movie-recommender/public/app.js:420 | a string without the character is unchanged, and a non-empty replacement never makes it shorter |
| Text.ReplaceAllChars | movie-recommender/public/app.js:420 | the result holds exactly the string's characters other than the replaced one, and the replacement's characters when the character occurs |
| Text.RemoveFirst | movie-recommender/public/app.js:128 | `replace('%', '')` leaves a string without the character as it is, and otherwise removes exactly one character |
| Text.RemoveFirstAt | movie-recommender/public/app.js:128 | the character removed is its first occurrence: the text before it and the text after it are kept |
| Text.FourDigitsFrom | movie-recommender/server.js:63 | the first run of four digits at or after a position, or none |
| Text.FirstYear | movie-recommender/server.js:63 | `match(/\d{4}/)?.[0]`: the leftmost four-digit run, and none iff there is none |
| SetupEnv.LineEnd | screenwriter-library/setup.js:70 | the greedy `.*` stops at the first line terminator, or at the end |
| SetupEnv.LineEndIs | screenwriter-library/setup.js:70 | the run ends exactly where the next line terminator is |
| SetupEnv.Substitute | screenwriter-library/setup.js:70 | a replacement string without `$` is inserted literally |
| SetupEnv.ReplaceKeyLineAt | screenwriter-library/setup.js:70 | `replace` rewrites the first `key=` and the rest of its line, and keeps the text before and after |
| SetupEnv.SetEnv | screenwriter-library/setup.js:67-72 | a key the text does not mention is appended after "\n" as KEY=val; a key the text mentions but never follows with `=` leaves the text unchanged; either way the text mentions the key afterwards |
| SetupEnv.SubstituteLiteral | screenwriter-library/setup.js:70 | a `$`-free start of the replacement string is inserted literally |
| SetupEnv.KeyLineStarts | screenwriter-library/setup.js:70 | the line written in place of the first `key=` still starts with the key |
| SetupEnv.KeyEqualsHasKey | screenwriter-library/setup.js:69-70 | a `key=` occurrence means `includes(key)` holds |
| SetupEnv.SetEnvReplaces | screenwriter-library/setup.js:69-70 | with a `$`-free value, only the first `key=` up to its line end becomes KEY=val; all other text is unchanged |
| SetupEnv.SetEnvFixed | screenwriter-library/setup.js:67-72 | a text whose first `key=` line already reads KEY=val is left as it is |
| SetupEnv.NoKeyBeforeBreak | screenwriter-library/setup.js:71 | when the key is not mentioned, no `key=` starts before the appended line |
| SetupEnv.IdempotentAbsent | screenwriter-library/setup.js:67-72 | the idempotence case where the key is absent |
| SetupEnv.IdempotentPresent | screenwriter-library/setup.js:67-72 | the idempotence case where `key=` is present |
| SetupEnv.SetEnvIdempotent | screenwriter-library/setup.js:67-72 | `setEnv` is idempotent for a one-line, `$`-free value |
| SetupEnv.LastAssign | screenwriter-library/setup.js:5-7 | the index of the last line that assigns the key (starts with `key=`), and none iff no line does |
| SetupEnv.LineValue | screenwriter-library/setup.js:5-7 | the text after `key=` on the last assigning line, as dotenv leaves it after assigning each line in turn; none iff no line assigns the key |
| SetupEnv.LastAssignIs | screenwriter-library/setup.js:5-7 | an assigning line with no assigning line after it is the last assignment |
| SetupEnv.TwoLinesRead | screenwriter-library/setup.js:5-7 | two `KEY=` lines read as the second value |
| SetupEnv.SetLine | screenwriter-library/setup.js:67-72 | the corrected line update: when some line assigns the key, every such line becomes KEY=val and the other lines stay; otherwise KEY=val is added as a new last line |
| SetupEnv.SetLineReads | screenwriter-library/setup.js:67-72 | after the corrected line update the key reads the new value, with the last assignment winning as dotenv reads it |
| SetupEnv.SetLineKeeps | screenwriter-library/setup.js:67-72 | the corrected line update leaves every other key's value as it was |
| SetupEnv.SetEnvLineLines | screenwriter-library/setup.js:67-72 | splitting the updated text gives the updated lines |
| SetupEnv.SetEnvLineReads | screenwriter-library/setup.js:67-72 | after the corrected update the key reads the new value, whatever the text held, with the last assignment winning |
| SetupEnv.SetEnvLineKeeps | screenwriter-library/setup.js:67-72 | the corrected update leaves every other key's value as it was |
| SetupEnv.SetEnvAgreesWhenAbsent | screenwriter-library/setup.js:69-71 | when the key is not mentioned, `setEnv` and the corrected update give the same text, namely the appended line |
| SetupEnv.NoEqualsNoAssignment | screenwriter-library/setup.js:70 | a text without '=' assigns no key |
| SetupEnv.CommentedKeyNotWritten | screenwriter-library/setup.js:69-70 | a `.env` that mentions the key only in a comment comes back unchanged, so the key has no value; the corrected update gives it the value |
| SetupEnv.SetEnvInsideLongerKey | screenwriter-library/setup.js:70 | for a key that ends a longer key, `setEnv` rewrites the longer key's line |
| SetupEnv.FirstKeyInsideLongerKey | screenwriter-library/setup.js:70 | the unanchored `key=` first matches inside the longer key |
| SetupEnv.OneLineValue | screenwriter-library/setup.js:70 | the value a key has in a one-line text |
| SetupEnv.LongerKeyOverwritten | screenwriter-library/setup.js:69-70 | `setEnv` overwrites the longer key's value and leaves the key itself without a value; the corrected update writes the key and keeps the other value |
| SetupEnv.FirstLineRewritten | screenwriter-library/setup.js:70 | when the first line assigns the key, `setEnv` rewrites exactly that line and keeps the rest of the text |
| SetupEnv.DuplicateKeyStale | screenwriter-library/setup.js:70 | with two `KEY=` lines the key reads the second value; `setEnv` rewrites only the first, so the key still reads the stale second value, while the corrected update makes it read the new one |
| SetupEnv.KeysLiteral | screenwriter-library/setup.js:74-77 | the four database keys are plain identifiers |
| SetupEnv.WriteIdsLineReads | screenwriter-library/setup.js:74-77 | after the four corrected updates each database key reads its new id, whatever `.env` held, with the last assignment winning |
| SetupEnv.WriteIdsLineKeeps | screenwriter-library/setup.js:74-77 | the four corrected updates leave every other key's value as it was |
| SetupEnv.KeysApart | screenwriter-library/setup.js:74-77 | no database key occurs inside a key written before it |
| SetupEnv.AppendKeeps | screenwriter-library/setup.js:71 | appending one key's line does not make the text mention another key |
| SetupEnv.WriteIdsFresh | screenwriter-library/setup.js:74-77 | on a `.env` that mentions none of the keys, the four calls as written give the same text as the four corrected updates |
| SetupEnv.WriteIds | screenwriter-library/setup.js:74-77 | on a `.env` that mentions none of the keys, with ids that mention no key written after them, the four lines are appended in order; the last key is always mentioned afterwards |
| SetupEnv.AppendsFour | screenwriter-library/setup.js:74-77 | on such a `.env` each of the four calls appends its own line |

## Left out

- Notion, OMDB and the language model are not called. A page is two fields, properties and blocks. The OMDB lookup and `JSON.parse` are function parameters, and the model's reply is a given string. Express routing, `fetch`, the file system and the prompt text are not modelled; of `dotenv` only the reading of `KEY=value` lines is modelled.
- `Promise.all` concurrency is not modelled: the parallel block deletes and the parallel OMDB lookups are sequential here. The delete-then-append replacement has no rollback, and a failure part-way is not modelled. Notion errors and the 500 responses of the entry endpoints are not modelled.
- The create endpoints (`POST /api/idea` and the others), `GET /api/tags`, `/api/materials` and `/api/search` are left out. They are Notion calls plus date and `localeCompare` sorting. Their `buildBlocks` use is covered by the codec.
- The page id, URL and creation time are passed through unread, so the materials omit them.
- Rich text is plain-text runs only. Annotations and links are not modelled.
- Dates, `toLocaleDateString`, `localeCompare` and the `parseFloat` IMDb sort are left out.
- MovieClient.GetSorted: the 'imdb' order is not modelled, because it sorts by floating-point values. Any mode other than 'year' and 'rt' keeps the server's order.
- MovieClient.ParseRt: the contract states only the cases that give 0. The value read from a score written as `n%` is stated by `ParseRtPercent`.
- Text.Lower: lower-casing covers ASCII letters only; Unicode case mapping is not modelled.
- EditForm.Trunc: lengths are counted in Unicode characters, not UTF-16 code units as in JavaScript.
- Text.ParseInt: integers are unbounded. JavaScript's loss of precision above 2^53 is not modelled.
- The DOM is not modelled beyond reading back what `esc` writes into an attribute or a text area (`Html`): rendering, chips, dropdown HTML, toasts, textarea sizing, tabs, the search debounce and the emoji quiz are left out.
- Html.TextareaValue: the HTML parser's dropping of a text area's leading line feed and its normalisation of carriage returns to line feeds are not modelled, so a saved text that starts with a line break or holds a carriage return is not shown exactly as stated.
- TagPicker.Picker.Blur: the 160 ms delay before the dropdown closes is not modelled.
- EditForm.SaveEdit: a card type outside the four is not modelled. Cards are only created with the four types.
- EditForm.SaveEdit: after the request, the cached title, tags and idea type and the card's summary are not updated in the model (only the cached sections are modelled); the error path of a failed request is not modelled either.
- MovieServer.Recommend: reply elements that are not objects, and OMDB members that are not strings, are not modelled. A JSON value is a `Recommendation`, and a record field is a string.
- SetupEnv.SetEnv: keys are restricted to letters, digits and `_`, where the `RegExp` built from the key matches the key literally. The four keys are of that form.
- SetupEnv.SetEnvIdempotent: proved only for values with no line terminator and no `$`. A `$` in the value triggers replacement patterns (modelled in `Substitute`), and then idempotence fails.
- SetupEnv.WriteIdsFresh: the chain as written is proved to agree with the corrected chain only on a `.env` that mentions none of the keys. A `.env` in which every key already stands at a line start as `KEY=…`, such as the one the script's own second run reads, is not covered for the chain as written; its single-key steps are covered by `FirstLineRewritten` and `SetEnvReplaces`. The corrected chain is proved for every text (`WriteIdsLineReads`, `WriteIdsLineKeeps`).
- SetupEnv.SetEnvLineReads: the line-based update splits on "\n" only, so a replaced line of a CRLF file loses its trailing `\r`.
- SetupEnv.LineValue: of dotenv's line syntax only `KEY=value` at the start of a line is read, the last such line winning. An `export ` prefix, spaces around `=`, quoted values, inline `#` comments and the trimming of values are not modelled, nor that a variable already set in the process environment takes precedence over `.env`. The same reading underlies `SetLineReads`, `SetEnvLineReads`, `WriteIdsLineReads` and the other read-back lemmas.
- MovieClient.NominationBadge: stated for one-digit counts; longer counts are covered by `OscarBadge` and `Nomination`.
- MovieServer.Status: the error message taken from `err.message` for a failed OMDB or model call is not modelled.

## Findings

| source | as written | input that shows it | evidently intended | confidence | as-written member | corrected member |
|---|---|---|---|---|---|---|
| screenwriter-library/setup.js:69-70 | the test is `content.includes(key)`, but the rewrite needs `key=`. A key that is mentioned without `=` takes the replace branch, which matches nothing. | `.env` text `"# NOTION_IDEAS_DB_ID\n"` (the key only in a comment) | append `KEY=val` when no line assigns the key | not executed | SetupEnv.CommentedKeyNotWritten | SetupEnv.SetEnvLineReads |
| screenwriter-library/setup.js:70 | the pattern `key=.*` is not anchored to the start of a line. It matches inside a longer key that ends with this key. | `.env` text `"OLD_NOTION_IDEAS_DB_ID=a"` with key `NOTION_IDEAS_DB_ID` | replace only the line that starts with `key=`, and leave other keys alone | not executed | SetupEnv.LongerKeyOverwritten | SetupEnv.SetEnvLineKeeps |
| screenwriter-library/setup.js:70 | `replace` with a non-global pattern rewrites only the first `key=` line. When `.env` assigns the key twice, dotenv reads the later, unchanged line. | `.env` text `"NOTION_IDEAS_DB_ID=a\nNOTION_IDEAS_DB_ID=b"` and the new id `c`: the result is `"NOTION_IDEAS_DB_ID=c\nNOTION_IDEAS_DB_ID=b"`, which reads `b` | rewrite every line that assigns the key | not executed | SetupEnv.DuplicateKeyStale | SetupEnv.SetEnvLineReads |
