/** The tag picker of the Screenwriter Library (`createTagPicker`): a list of
    selected tags edited through a text input with a dropdown of matching
    known tags and an offer to create a new one. Rendering is not modelled;
    the dropdown is represented by whether it is open and by the options it
    last rendered. */
module TagPicker {
  import opened Base
  import opened Text
  import opened Html

  // ===========================================================================
  // The selection
  // ===========================================================================

  /** What the picker keeps true of `selected` when it is only edited
      through `addTag` and `removeTag`: no duplicates, and every entry
      trimmed and non-empty. */
  predicate Clean(sel: seq<string>) {
    && (forall i | 0 <= i < |sel| :: sel[i] != "" && Trimmed(sel[i]))
    && (forall i, j | 0 <= i < j < |sel| :: sel[i] != sel[j])
  }

  /** `addTag` on the selection: the trimmed tag is appended unless it is
      empty or already selected. */
  function Added(sel: seq<string>, tag: string): (r: seq<string>)
    ensures Trim(tag) != "" ==> Trim(tag) in r
    ensures Trim(tag) == "" || Trim(tag) in sel ==> r == sel
    ensures forall x :: x in r <==> x in sel || (x == Trim(tag) && x != "")
    ensures |sel| <= |r| <= |sel| + 1 && r[..|sel|] == sel
  {
    var t := Trim(tag);
    if t == "" || t in sel then sel else sel + [t]
  }

  /** `removeTag` on the selection: every entry equal to the tag is
      dropped, the others keep their order. */
  function Removed(sel: seq<string>, tag: string): (r: seq<string>)
    ensures forall x :: x in r <==> x in sel && x != tag
    ensures IsSubseq(r, sel)
    ensures tag !in sel ==> r == sel
    ensures multiset(r) == multiset(sel)[tag := 0]
  {
    WithoutProps(sel, tag);
    Without(sel, tag)
  }

  /** `sel.filter(t => t !== tag)`. */
  function Without(sel: seq<string>, tag: string): seq<string> {
    if sel == [] then []
    else if sel[0] == tag then Without(sel[1..], tag)
    else [sel[0]] + Without(sel[1..], tag)
  }

  lemma {:induction false} WithoutProps(sel: seq<string>, tag: string)
    ensures forall x :: x in Without(sel, tag) <==> x in sel && x != tag
    ensures IsSubseq(Without(sel, tag), sel)
    ensures tag !in sel ==> Without(sel, tag) == sel
    ensures multiset(Without(sel, tag)) == multiset(sel)[tag := 0]
  {
    if sel != [] {
      WithoutProps(sel[1..], tag);
      assert sel == [sel[0]] + sel[1..];
    }
  }

  /** `Without` works piece by piece. */
  lemma {:induction false} WithoutAppend(a: seq<string>, b: seq<string>, tag: string)
    ensures Without(a + b, tag) == Without(a, tag) + Without(b, tag)
  {
    if a == [] {
      assert a + b == b;
    } else {
      assert (a + b)[0] == a[0] && (a + b)[1..] == a[1..] + b;
      WithoutAppend(a[1..], b, tag);
    }
  }

  lemma {:induction false} WithoutAbsent(sel: seq<string>, tag: string)
    requires tag !in sel
    ensures Without(sel, tag) == sel
  {
    if sel != [] {
      WithoutAbsent(sel[1..], tag);
    }
  }

  /** In a duplicate-free selection, removing the tag at `k` drops exactly
      that entry. */
  lemma RemovedAt(sel: seq<string>, k: nat)
    requires k < |sel|
    requires forall i | 0 <= i < |sel| && i != k :: sel[i] != sel[k]
    ensures Removed(sel, sel[k]) == sel[..k] + sel[k + 1..]
  {
    var t, a, b := sel[k], sel[..k], sel[k + 1..];
    assert sel == a + [t] + b;
    assert t !in a by {
      forall i | 0 <= i < |a| ensures a[i] != t {
        assert a[i] == sel[i];
      }
    }
    assert t !in b by {
      forall i | 0 <= i < |b| ensures b[i] != t {
        assert b[i] == sel[k + 1 + i];
      }
    }
    WithoutAbsent(a, t);
    WithoutAbsent(b, t);
    WithoutAppend(a + [t], b, t);
    WithoutAppend(a, [t], t);
    assert Without([t], t) == [];
  }

  lemma AddedClean(sel: seq<string>, tag: string)
    requires Clean(sel)
    ensures Clean(Added(sel, tag))
  {
    var t := Trim(tag);
    assert t != "" ==> Trimmed(t);
  }

  lemma {:induction false} RemovedClean(sel: seq<string>, tag: string)
    requires Clean(sel)
    ensures Clean(Removed(sel, tag))
  {
    if sel != [] {
      var rest := sel[1..];
      assert Clean(rest) by {
        forall i, j | 0 <= i < j < |rest| ensures rest[i] != rest[j] {
          assert rest[i] == sel[i + 1] && rest[j] == sel[j + 1];
        }
      }
      RemovedClean(rest, tag);
      var r := Removed(rest, tag);
      if sel[0] != tag {
        assert Removed(sel, tag) == [sel[0]] + r;
        assert sel[0] !in rest by {
          forall i | 0 <= i < |rest| ensures rest[i] != sel[0] {
            assert rest[i] == sel[i + 1];
          }
        }
        ConsClean(sel[0], r);
      }
    }
  }

  /** A non-empty trimmed tag that a clean selection lacks can be put in
      front of it. */
  lemma ConsClean(t: string, r: seq<string>)
    requires Clean(r) && t != "" && Trimmed(t) && t !in r
    ensures Clean([t] + r)
  {
    var c := [t] + r;
    forall i, j | 0 <= i < j < |c| ensures c[i] != c[j] {
      assert c[j] == r[j - 1];
      if i > 0 {
        assert c[i] == r[i - 1];
      }
    }
    forall i | 0 <= i < |c| ensures c[i] != "" && Trimmed(c[i]) {
      if i > 0 {
        assert c[i] == r[i - 1];
      }
    }
  }

  /** Removing a tag that was just added restores the selection. */
  lemma RemoveUndoesAdd(sel: seq<string>, tag: string)
    requires Clean(sel)
    requires Trim(tag) != "" && Trim(tag) !in sel
    ensures Removed(Added(sel, tag), Trim(tag)) == sel
  {
    RemoveLast(sel + [Trim(tag)], Trim(tag));
    assert (sel + [Trim(tag)])[..|sel|] == sel;
  }

  /** Removing the last entry of a duplicate-free selection drops exactly
      that entry. */
  lemma RemoveLast(sel: seq<string>, last: string)
    requires sel != [] && sel[|sel| - 1] == last
    requires forall i | 0 <= i < |sel| - 1 :: sel[i] != last
    ensures Removed(sel, last) == sel[..|sel| - 1]
  {
    RemovedAt(sel, |sel| - 1);
    assert sel[|sel|..] == [];
  }

  // ===========================================================================
  // The dropdown
  // ===========================================================================

  /** The filter text: the query lower-cased and trimmed. */
  function Query(query: string): string {
    Trim(Lower(query))
  }

  /** A known tag matches a blank filter, or one its lower-cased form
      contains. */
  predicate Matches(tag: string, q: string) {
    q == "" || Contains(Lower(tag), q)
  }

  /** The dropdown's options: the known tags, in their order, that are not
      selected and match the filter. */
  function Options(available: seq<string>, selected: seq<string>, q: string): (r: seq<string>)
    ensures forall t :: t in r <==> t in available && t !in selected && Matches(t, q)
    ensures IsSubseq(r, available)
  {
    if available == [] then []
    else
      var t := available[0];
      var rest := Options(available[1..], selected, q);
      if t !in selected && Matches(t, q) then
        assert ([t] + rest)[1..] == rest;
        [t] + rest
      else
        rest
  }

  /** The "Create" offer: the trimmed query is non-empty, equals no known tag
      ignoring case, and is not selected. */
  predicate IsNew(available: seq<string>, selected: seq<string>, query: string) {
    var t := Trim(query);
    && t != ""
    && (forall a | a in available :: Lower(a) != Lower(t))
    && t !in selected
  }

  /** The offered new tag is never also listed as an option. */
  lemma CreateNotListed(available: seq<string>, selected: seq<string>, query: string)
    requires IsNew(available, selected, query)
    ensures Trim(query) !in Options(available, selected, Query(query))
  {
  }

  /** Picking the offered new tag appends exactly it. */
  lemma PickCreate(available: seq<string>, selected: seq<string>, query: string)
    requires IsNew(available, selected, query)
    ensures Added(selected, Trim(query)) == selected + [Trim(query)]
  {
    TrimIdempotent(query);
  }

  /** Picking a listed option that is already trimmed appends exactly it. */
  lemma PickOption(available: seq<string>, selected: seq<string>, q: string, t: string)
    requires t in Options(available, selected, q)
    requires t != "" && Trimmed(t)
    ensures Added(selected, t) == selected + [t]
  {
    TrimOfTrimmed(t);
  }

  datatype Key = Enter | Backspace | OtherKey

  class Picker {
    var selected: seq<string>
    var available: seq<string>
    /** The text input's value. */
    var input: string
    /** Whether the dropdown is shown. */
    var open: bool
    /** The options and the create offer the dropdown last rendered. */
    var options: seq<string>
    var offer: Option<string>

    constructor ()
      ensures selected == [] && available == [] && input == "" && !open
      ensures options == [] && offer == None
    {
      selected := [];
      available := [];
      input := "";
      open := false;
      options := [];
      offer := None;
    }

    /** The tags of the dropdown's buttons, in order: the options, then
        the create offer. */
    function Shown(): seq<string>
      reads this
    {
      options + (if offer.Some? then [offer.value] else [])
    }

    /** `openDrop`: renders the options and the create offer; when there
        are neither, the dropdown is hidden and keeps its old content. */
    method OpenDrop(query: string)
      modifies this
      ensures var opts := Options(old(available), old(selected), Query(query));
        var isNew := IsNew(old(available), old(selected), query);
        if opts == [] && !isNew then
          !open && options == old(options) && offer == old(offer)
        else
          open && options == opts && offer == (if isNew then Some(Trim(query)) else None)
      ensures selected == old(selected) && available == old(available) && input == old(input)
    {
      var opts := Options(available, selected, Query(query));
      var isNew := IsNew(available, selected, query);
      if opts == [] && !isNew {
        open := false;
        return;
      }
      options := opts;
      offer := if isNew then Some(Trim(query)) else None;
      open := true;
    }

    /** `addTag`: a tag that is accepted clears the input and closes the
        dropdown; a rejected one changes nothing. */
    method AddTag(tag: string)
      modifies this
      ensures selected == Added(old(selected), tag)
      ensures Clean(old(selected)) ==> Clean(selected)
      ensures if selected == old(selected) then input == old(input) && open == old(open)
              else input == "" && !open
      ensures available == old(available) && options == old(options) && offer == old(offer)
    {
      if Clean(selected) {
        AddedClean(selected, tag);
      }
      var t := Trim(tag);
      if t == "" || t in selected {
        return;
      }
      selected := selected + [t];
      input := "";
      open := false;
    }

    /** `removeTag`. */
    method RemoveTag(tag: string)
      modifies this
      ensures selected == Removed(old(selected), tag)
      ensures Clean(old(selected)) ==> Clean(selected)
      ensures available == old(available) && input == old(input) && open == old(open)
      ensures options == old(options) && offer == old(offer)
    {
      if Clean(selected) {
        RemovedClean(selected, tag);
      }
      selected := Removed(selected, tag);
    }

    /** The keydown handler: Enter adds the trimmed input when it is
        non-empty and otherwise closes the dropdown; Backspace on an empty
        input removes the last selected tag. */
    method KeyDown(key: Key)
      modifies this
      ensures key == Enter ==>
        && selected == Added(old(selected), old(input))
        && if Trim(old(input)) == "" then !open && input == old(input)
           else if selected == old(selected) then open == old(open) && input == old(input)
           else !open && input == ""
      ensures key != Enter ==> input == old(input) && open == old(open)
      ensures key == Backspace ==>
        selected == (if old(input) == "" && old(selected) != []
                     then Removed(old(selected), old(selected)[|old(selected)| - 1])
                     else old(selected))
      ensures key == OtherKey ==> selected == old(selected)
      ensures Clean(old(selected)) ==> Clean(selected)
      ensures available == old(available) && options == old(options) && offer == old(offer)
    {
      if key == Enter {
        var v := Trim(input);
        TrimIdempotent(input);
        if v != "" {
          AddTag(v);
        } else {
          open := false;
        }
      }
      if key == Backspace && input == "" && |selected| > 0 {
        RemoveTag(selected[|selected| - 1]);
      }
    }

    /** Typing: the input takes the new text and the dropdown is refreshed. */
    method Type(text: string)
      modifies this
      ensures input == text && selected == old(selected) && available == old(available)
      ensures var opts := Options(available, selected, Query(text));
        var isNew := IsNew(available, selected, text);
        if opts == [] && !isNew then
          !open && options == old(options) && offer == old(offer)
        else
          open && options == opts && offer == (if isNew then Some(Trim(text)) else None)
    {
      input := text;
      OpenDrop(text);
    }

    /** Focus opens the dropdown for the current input. */
    method Focus()
      modifies this
      ensures input == old(input) && selected == old(selected) && available == old(available)
      ensures var opts := Options(available, selected, Query(input));
        var isNew := IsNew(available, selected, input);
        if opts == [] && !isNew then
          !open && options == old(options) && offer == old(offer)
        else
          open && options == opts && offer == (if isNew then Some(Trim(input)) else None)
    {
      OpenDrop(input);
    }

    /** Blur closes the dropdown (after a delay, which is not modelled). */
    method Blur()
      modifies this
      ensures !open
      ensures selected == old(selected) && available == old(available) && input == old(input)
      ensures options == old(options) && offer == old(offer)
    {
      open := false;
    }

    /** Pressing one of the dropdown's buttons adds the tag its `data-tag`
        attribute reads back as: the shown tag up to its first `"`. */
    method Pick(k: nat)
      requires open && k < |Shown()|
      modifies this
      ensures selected == Added(old(selected), BeforeQuote(old(Shown())[k]))
      ensures Clean(old(selected)) ==> Clean(selected)
      ensures if selected == old(selected) then input == old(input) && open == old(open)
              else input == "" && !open
      ensures available == old(available) && options == old(options) && offer == old(offer)
    {
      AddTag(DataTag(Shown()[k]));
    }

    /** Pressing the remove button of the chip at `k` removes the tag its
        `data-tag` attribute reads back as. */
    method RemoveChip(k: nat)
      requires k < |selected|
      modifies this
      ensures selected == Removed(old(selected), BeforeQuote(old(selected)[k]))
      ensures Clean(old(selected)) ==> Clean(selected)
      ensures available == old(available) && input == old(input) && open == old(open)
      ensures options == old(options) && offer == old(offer)
    {
      RemoveTag(DataTag(selected[k]));
    }

    /** `getTags`: a copy of the selection. */
    method GetTags() returns (tags: seq<string>)
      ensures tags == selected
    {
      tags := selected;
    }

    /** `setTags`: the selection becomes a copy of `tags`, unchecked. */
    method SetTags(tags: seq<string>)
      modifies this
      ensures selected == tags
      ensures available == old(available) && input == old(input) && open == old(open)
      ensures options == old(options) && offer == old(offer)
    {
      selected := tags;
    }

    /** `reset`: the selection is emptied and the dropdown closed. */
    method Reset()
      modifies this
      ensures selected == [] && !open
      ensures available == old(available) && input == old(input)
      ensures options == old(options) && offer == old(offer)
    {
      selected := [];
      open := false;
    }

    /** `setAvailable`. */
    method SetAvailable(tags: seq<string>)
      modifies this
      ensures available == tags
      ensures selected == old(selected) && input == old(input) && open == old(open)
      ensures options == old(options) && offer == old(offer)
    {
      available := tags;
    }
  }

  /** The remove button of a chip in a duplicate-free selection drops
      exactly that chip when its tag has no `"`; a tag with a `"` reads back
      cut at the quote, so its own chip stays. */
  lemma ChipRemoval(sel: seq<string>, k: nat)
    requires Clean(sel) && k < |sel|
    ensures '"' !in sel[k] ==> Removed(sel, BeforeQuote(sel[k])) == sel[..k] + sel[k + 1..]
    ensures '"' in sel[k] ==> sel[k] in Removed(sel, BeforeQuote(sel[k]))
  {
    if '"' !in sel[k] {
      RemovedAt(sel, k);
    }
  }

  /** A known tag with a `"` is added cut at the quote when picked:
      `x"y` adds `x`. */
  lemma PickQuoted(sel: seq<string>)
    requires "x" !in sel
    ensures Added(sel, BeforeQuote("x\"y")) == sel + ["x"]
  {
    assert "x\"y" == "x" + "\"y";
    BeforeQuoteAppend("x", "\"y");
    assert BeforeQuote("\"y") == "";
    TrimOfTrimmed("x");
  }

  /** Backspace on a duplicate-free selection removes exactly the last tag. */
  lemma BackspaceDropsLast(sel: seq<string>)
    requires Clean(sel) && sel != []
    ensures Removed(sel, sel[|sel| - 1]) == sel[..|sel| - 1]
  {
    RemoveLast(sel, sel[|sel| - 1]);
  }
}
