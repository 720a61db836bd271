/** The section codec of the Screenwriter Library. Labelled free-text fields
    are stored in a Notion page body as (heading_3, paragraph) block pairs
    (`buildBlocks`), and a page body is read back as a list of
    (heading, content) sections by a single pass that folds the flat block
    list (`GET /api/entry/:id`). */
module SectionCodec {
  import opened Base
  import opened Text

  type HeadingLevel = l: nat | 1 <= l <= 3 witness 1

  /** A Notion block as the codec sees it. Text-bearing blocks carry their
      rich text as the list of plain-text runs Notion reports; every other
      block type is `Other`. */
  datatype Block =
    | Heading(level: HeadingLevel, runs: seq<string>)
    | Paragraph(runs: seq<string>)
    | Bulleted(runs: seq<string>)
    | Numbered(runs: seq<string>)
    | Quote(runs: seq<string>)
    | Other(kind: string)

  /** A labelled field handed to the encoder; `content` is `None` when the
      caller left it undefined or null. */
  datatype Field = Field(heading: string, content: Option<string>)

  /** A decoded section; `heading` is `None` only for text that precedes
      every heading. */
  datatype Section = Section(heading: Option<string>, content: string)

  // ===========================================================================
  // Encode: fields -> blocks
  // ===========================================================================

  /** The encoder keeps a field iff `content?.trim()` is truthy. */
  predicate IsFilled(f: Field) {
    f.content.Some? && !IsBlank(f.content.value)
  }

  /** The heading_3 block a kept field is written as: its heading, verbatim. */
  function HeadingBlock(f: Field): Block {
    Heading(3, [f.heading])
  }

  /** The paragraph block a kept field is written as: its content, trimmed,
      as a single run. */
  function ParagraphBlock(f: Field): Block {
    Paragraph([Trim(f.content.GetOr(""))])
  }

  /** The blocks one field contributes. */
  function PairOf(f: Field): seq<Block> {
    if IsFilled(f) then [HeadingBlock(f), ParagraphBlock(f)] else []
  }

  /** The block list `buildBlocks(fields)` returns: heading_3 blocks at
      even positions, each followed by a paragraph, two per field at
      most. */
  function Encoded(fields: seq<Field>): (r: seq<Block>)
    ensures |r| <= 2 * |fields| && |r| % 2 == 0
    ensures forall k | 0 <= k < |r| :: if k % 2 == 0 then r[k].Heading? && r[k].level == 3 else r[k].Paragraph?
  {
    if fields == [] then []
    else
      var p, rest := PairOf(fields[0]), Encoded(fields[1..]);
      assert forall k | |p| <= k < |p| + |rest| :: (p + rest)[k] == rest[k - |p|];
      p + rest
  }

  /** The fields the encoder keeps, in order. */
  function Filled(fields: seq<Field>): (r: seq<Field>)
    ensures |r| <= |fields|
    ensures IsSubseq(r, fields)
    ensures forall k | 0 <= k < |r| :: IsFilled(r[k])
    ensures forall k | 0 <= k < |fields| && IsFilled(fields[k]) :: fields[k] in r
  {
    if fields == [] then []
    else
      var rest := Filled(fields[1..]);
      assert forall k | 1 <= k < |fields| :: fields[k] == fields[1..][k - 1];
      if IsFilled(fields[0]) then
        assert ([fields[0]] + rest)[1..] == rest;
        [fields[0]] + rest
      else
        rest
  }

  lemma {:induction false} EncodedAppend(fields: seq<Field>, f: Field)
    ensures Encoded(fields + [f]) == Encoded(fields) + PairOf(f)
  {
    if fields == [] {
      assert Encoded([f]) == PairOf(f) + Encoded([]);
    } else {
      assert (fields + [f])[1..] == fields[1..] + [f];
      EncodedAppend(fields[1..], f);
    }
  }

  /** `buildBlocks` (server.js): walks the fields in order and pushes a
      heading_3 block and a paragraph block for each field whose content is
      not blank. */
  method BuildBlocks(fields: seq<Field>) returns (blocks: seq<Block>)
    ensures blocks == Encoded(fields)
  {
    blocks := [];
    for i := 0 to |fields|
      invariant blocks == Encoded(fields[..i])
    {
      var f := fields[i];
      assert fields[..i + 1] == fields[..i] + [f];
      EncodedAppend(fields[..i], f);
      if f.content.Some? && Trim(f.content.value) != "" {
        blocks := blocks + [Heading(3, [f.heading])];
        blocks := blocks + [Paragraph([Trim(f.content.value)])];
      }
    }
    assert fields[..|fields|] == fields;
  }

  /** `blocks` holds, for each field of `kept` in order, one heading_3 block
      with the field's heading and one paragraph block with its trimmed
      content as a single run. */
  predicate PairedWith(blocks: seq<Block>, kept: seq<Field>) {
    && |blocks| == 2 * |kept|
    && forall k | 0 <= k < |kept| ::
      blocks[2 * k] == HeadingBlock(kept[k]) && blocks[2 * k + 1] == ParagraphBlock(kept[k])
  }

  lemma PairedCons(f: Field, blocks: seq<Block>, kept: seq<Field>)
    requires PairedWith(blocks, kept)
    ensures PairedWith([HeadingBlock(f), ParagraphBlock(f)] + blocks, [f] + kept)
  {
    var e, fl := [HeadingBlock(f), ParagraphBlock(f)] + blocks, [f] + kept;
    forall k | 0 <= k < |fl|
      ensures e[2 * k] == HeadingBlock(fl[k]) && e[2 * k + 1] == ParagraphBlock(fl[k])
    {
      if k > 0 {
        var j := k - 1;
        assert fl[k] == kept[j];
        assert e[2 * j + 2] == blocks[2 * j] && e[2 * j + 3] == blocks[2 * j + 1];
      }
    }
  }

  /** The encoder's output is exactly one heading_3 block carrying the
      heading unchanged, then one paragraph block carrying the trimmed
      content as a single run, for each kept field, in field order. */
  lemma {:induction false} EncodedShape(fields: seq<Field>)
    ensures PairedWith(Encoded(fields), Filled(fields))
  {
    if fields != [] {
      EncodedShape(fields[1..]);
      if IsFilled(fields[0]) {
        assert Filled(fields) == [fields[0]] + Filled(fields[1..]);
        assert PairOf(fields[0]) == [HeadingBlock(fields[0]), ParagraphBlock(fields[0])];
        PairedCons(fields[0], Encoded(fields[1..]), Filled(fields[1..]));
      } else {
        assert Filled(fields) == Filled(fields[1..]);
        assert Encoded(fields) == Encoded(fields[1..]);
      }
    }
  }

  // ===========================================================================
  // Decode: blocks -> sections
  // ===========================================================================

  /** `getRichText(rt)` joined with the block type's line rule: paragraphs,
      numbered items and quotes give their text verbatim, bulleted items
      prefix it with "• ", every other block type gives the empty line. */
  function LineOf(b: Block): (r: string)
    requires !b.Heading?
    ensures b.Paragraph? || b.Numbered? || b.Quote? ==> r == Concat(b.runs)
    ensures b.Bulleted? ==> |r| == |Concat(b.runs)| + 2 && r[..2] == "• " && r[2..] == Concat(b.runs) && !IsBlank(r)
    ensures b.Other? ==> IsBlank(r)
  {
    match b
    case Paragraph(runs) => Concat(runs)
    case Bulleted(runs) =>
      var r := "• " + Concat(runs);
      assert r[0] == '•' && !IsWhite(r[0]);
      r
    case Numbered(runs) => Concat(runs)
    case Quote(runs) => Concat(runs)
    case Other(_) => ""
  }

  /** The `current` accumulator of the decode loop. */
  datatype Group = Group(heading: Option<string>, lines: seq<string>)

  /** The loop's state: the finished `sections` and the open `current`. */
  datatype DecodeState = DecodeState(done: seq<Group>, open: Option<Group>)

  /** `flush()`: the open group is emitted only if it has a line. */
  function Flush(done: seq<Group>, open: Option<Group>): (r: seq<Group>)
    ensures |done| <= |r| <= |done| + 1 && r[..|done|] == done
    ensures |r| == |done| + 1 <==> open.Some? && open.value.lines != []
    ensures |r| == |done| + 1 ==> r[|done|] == open.value
  {
    if open.Some? && open.value.lines != [] then done + [open.value] else done
  }

  /** One iteration of the decode loop. */
  function Step(st: DecodeState, b: Block): (r: DecodeState)
    // finished groups are never changed, and only a heading adds one
    ensures |st.done| <= |r.done| && r.done[..|st.done|] == st.done
    ensures !b.Heading? ==> r.done == st.done
    // a heading closes the open group and opens an empty one under its text
    ensures b.Heading? ==> r.done == Flush(st.done, st.open) && r.open == Some(Group(Some(Concat(b.runs)), []))
    // a blank line changes nothing; any other line extends the open group,
    // or a new heading-less one
    ensures !b.Heading? && IsBlank(LineOf(b)) ==> r == st
    ensures !b.Heading? && !IsBlank(LineOf(b)) ==> r.open == Extend(st.open, [LineOf(b)])
  {
    if b.Heading? then
      DecodeState(Flush(st.done, st.open), Some(Group(Some(Concat(b.runs)), [])))
    else
      var line := LineOf(b);
      if IsBlank(line) then st
      else
        var g := st.open.GetOr(Group(None, []));
        DecodeState(st.done, Some(g.(lines := g.lines + [line])))
  }

  /** The loop run over the remaining blocks from a given state. */
  function Fold(bs: seq<Block>, st: DecodeState): DecodeState
    decreases |bs|
  {
    if bs == [] then st else Fold(bs[1..], Step(st, bs[0]))
  }

  function Finish(st: DecodeState): seq<Group> {
    Flush(st.done, st.open)
  }

  /** The groups the decode loop emits for a block list. */
  function Groups(bs: seq<Block>): seq<Group> {
    Finish(Fold(bs, DecodeState([], None)))
  }

  function ToSection(g: Group): Section {
    Section(g.heading, Join(g.lines, "\n"))
  }

  function ToSections(gs: seq<Group>): (r: seq<Section>)
    ensures |r| == |gs|
  {
    seq(|gs|, i requires 0 <= i < |gs| => ToSection(gs[i]))
  }

  /** The sections `GET /api/entry/:id` returns for a block list: one per
      emitted group, none of them blank, and only the first without a
      heading. */
  function Decoded(bs: seq<Block>): (r: seq<Section>)
    ensures |r| == |Groups(bs)|
    ensures forall k | 0 <= k < |r| :: !IsBlank(r[k].content)
    ensures forall k | 1 <= k < |r| :: r[k].heading.Some?
  {
    GroupsOk(bs);
    ToSections(Groups(bs))
  }

  /** The decode loop of `GET /api/entry/:id` (server.js): a heading flushes
      the open section and opens a new one; a text line that is not blank
      is appended to the open section, opening a heading-less one if none
      is open; the last section is flushed at the end. */
  method Decode(blocks: seq<Block>) returns (sections: seq<Section>)
    ensures sections == Decoded(blocks)
  {
    var done: seq<Group> := [];
    var current: Option<Group> := None;
    for i := 0 to |blocks|
      invariant Fold(blocks[i..], DecodeState(done, current)) == Fold(blocks, DecodeState([], None))
    {
      var block := blocks[i];
      assert blocks[i..][1..] == blocks[i + 1..];
      if block.Heading? {
        done := Flush(done, current);
        current := Some(Group(Some(Concat(block.runs)), []));
      } else {
        var line := LineOf(block);
        if Trim(line) != "" {
          if current.None? {
            current := Some(Group(None, []));
          }
          current := Some(current.value.(lines := current.value.lines + [line]));
        }
      }
    }
    done := Flush(done, current);
    sections := ToSections(done);
  }

  // ---------------------------------------------------------------------------
  // Facts about the fold
  // ---------------------------------------------------------------------------

  lemma {:induction false} FoldAppend(a: seq<Block>, b: seq<Block>, st: DecodeState)
    ensures Fold(a + b, st) == Fold(b, Fold(a, st))
    decreases |a|
  {
    if a == [] {
      assert a + b == b;
    } else {
      assert (a + b)[0] == a[0] && (a + b)[1..] == a[1..] + b;
      FoldAppend(a[1..], b, Step(st, a[0]));
    }
  }

  /** The finished groups are never looked at again: they only form a prefix. */
  lemma {:induction false} FoldPrefix(bs: seq<Block>, done: seq<Group>, open: Option<Group>)
    ensures var st := Fold(bs, DecodeState([], open));
      Fold(bs, DecodeState(done, open)) == DecodeState(done + st.done, st.open)
    decreases |bs|
  {
    if bs != [] {
      var s0 := Step(DecodeState([], open), bs[0]);
      StepPrefix(done, open, bs[0]);
      FoldPrefix(bs[1..], s0.done, s0.open);
      FoldPrefix(bs[1..], done + s0.done, s0.open);
      var st := Fold(bs[1..], DecodeState([], s0.open));
      assert done + s0.done + st.done == done + (s0.done + st.done);
    }
  }

  lemma StepPrefix(done: seq<Group>, open: Option<Group>, b: Block)
    ensures var s0 := Step(DecodeState([], open), b);
      Step(DecodeState(done, open), b) == DecodeState(done + s0.done, s0.open)
  {
    if b.Heading? && open.Some? && open.value.lines != [] {
      assert [] + [open.value] == [open.value];
    } else {
      assert done + [] == done;
    }
  }

  predicate NoHeadings(bs: seq<Block>) {
    forall i | 0 <= i < |bs| :: !bs[i].Heading?
  }

  /** The non-blank lines of the text-bearing blocks, in order. */
  function TextLines(bs: seq<Block>): seq<string> {
    if bs == [] then []
    else
      (if !bs[0].Heading? && !IsBlank(LineOf(bs[0])) then [LineOf(bs[0])] else [])
      + TextLines(bs[1..])
  }

  /** The open group after appending lines to it. */
  function Extend(open: Option<Group>, lines: seq<string>): Option<Group> {
    if lines == [] then open
    else
      var g := open.GetOr(Group(None, []));
      Some(g.(lines := g.lines + lines))
  }

  /** A run of blocks without headings only appends its non-blank lines to
      the open group. */
  lemma {:induction false} FoldText(bs: seq<Block>, st: DecodeState)
    requires NoHeadings(bs)
    ensures Fold(bs, st) == DecodeState(st.done, Extend(st.open, TextLines(bs)))
    decreases |bs|
  {
    if bs != [] {
      var s1 := Step(st, bs[0]);
      StepExtends(st, bs[0]);
      FoldText(bs[1..], s1);
      ExtendTwice(st.open, BlockLine(bs[0]), TextLines(bs[1..]));
      assert TextLines(bs) == BlockLine(bs[0]) + TextLines(bs[1..]);
    }
  }

  /** A block that is not a heading extends the open group by its line. */
  lemma StepExtends(st: DecodeState, b: Block)
    requires !b.Heading?
    ensures Step(st, b) == DecodeState(st.done, Extend(st.open, BlockLine(b)))
  {
  }

  lemma ExtendTwice(open: Option<Group>, x: seq<string>, y: seq<string>)
    ensures Extend(Extend(open, x), y) == Extend(open, x + y)
  {
    if x == [] {
      assert x + y == y;
    } else if y != [] {
      var g := open.GetOr(Group(None, []));
      assert g.lines + x + y == g.lines + (x + y);
    } else {
      assert x + y == x;
    }
  }

  /** Decoding a block list that is empty or starts with a heading. */
  lemma RunFromHeading(post: seq<Block>, done: seq<Group>, open: Option<Group>)
    requires post == [] || post[0].Heading?
    ensures Finish(Fold(post, DecodeState(done, open))) == Flush(done, open) + Groups(post)
  {
    if post != [] {
      var h := Some(Group(Some(Concat(post[0].runs)), []));
      var f := Flush(done, open);
      FoldPrefix(post[1..], f, h);
      var st := Fold(post[1..], DecodeState([], h));
      assert Fold(post, DecodeState([], None)) == st;
      if st.open.Some? && st.open.value.lines != [] {
        assert f + st.done + [st.open.value] == f + (st.done + [st.open.value]);
      }
    }
  }

  lemma ToSectionsAppend(a: seq<Group>, b: seq<Group>)
    ensures ToSections(a + b) == ToSections(a) + ToSections(b)
  {
  }

  // ---------------------------------------------------------------------------
  // The decoding rules, stated on block lists
  // ---------------------------------------------------------------------------

  /** A heading closes whatever is open and starts a section carrying its
      plain text; that section holds the non-blank lines up to the next
      heading, joined by "\n", and is dropped when there are none. */
  lemma HeadingSection(pre: seq<Block>, level: HeadingLevel, runs: seq<string>, body: seq<Block>, post: seq<Block>)
    requires NoHeadings(body)
    requires post == [] || post[0].Heading?
    ensures Decoded(pre + [Heading(level, runs)] + body + post)
         == Decoded(pre)
          + (if TextLines(body) == [] then [] else [Section(Some(Concat(runs)), Join(TextLines(body), "\n"))])
          + Decoded(post)
  {
    var tl := TextLines(body);
    var mid := if tl == [] then [] else [Group(Some(Concat(runs)), tl)];
    HeadingGroups(pre, level, runs, body, post);
    ToSectionsAppend(Groups(pre), mid);
    ToSectionsAppend(Groups(pre) + mid, Groups(post));
  }

  /** The group-level form of HeadingSection. */
  lemma HeadingGroups(pre: seq<Block>, level: HeadingLevel, runs: seq<string>, body: seq<Block>, post: seq<Block>)
    requires NoHeadings(body)
    requires post == [] || post[0].Heading?
    ensures Groups(pre + [Heading(level, runs)] + body + post)
         == Groups(pre)
          + (if TextLines(body) == [] then [] else [Group(Some(Concat(runs)), TextLines(body))])
          + Groups(post)
  {
    var init := DecodeState([], None);
    var st := Fold(pre, init);
    var rest := [Heading(level, runs)] + body + post;
    assert pre + [Heading(level, runs)] + body + post == pre + rest;
    FoldAppend(pre, rest, init);
    HeadingFold(st, level, runs, body, post);
    var open := Extend(Some(Group(Some(Concat(runs)), [])), TextLines(body));
    RunFromHeading(post, Flush(st.done, st.open), open);
    OpenedFlush(Flush(st.done, st.open), runs, TextLines(body));
  }

  /** Folding a heading and the text after it closes the open group and
      leaves a new group holding that text. */
  lemma HeadingFold(st: DecodeState, level: HeadingLevel, runs: seq<string>, body: seq<Block>, post: seq<Block>)
    requires NoHeadings(body)
    ensures Fold([Heading(level, runs)] + body + post, st)
         == Fold(post, DecodeState(Flush(st.done, st.open), Extend(Some(Group(Some(Concat(runs)), [])), TextLines(body))))
  {
    var rest := [Heading(level, runs)] + body + post;
    var s1 := DecodeState(Flush(st.done, st.open), Some(Group(Some(Concat(runs)), [])));
    assert rest[0] == Heading(level, runs) && rest[1..] == body + post;
    assert Fold(rest, st) == Fold(body + post, s1);
    FoldAppend(body, post, s1);
    FoldText(body, s1);
  }

  lemma OpenedFlush(done: seq<Group>, runs: seq<string>, tl: seq<string>)
    ensures Flush(done, Extend(Some(Group(Some(Concat(runs)), [])), tl))
         == done + (if tl == [] then [] else [Group(Some(Concat(runs)), tl)])
  {
    if tl != [] {
      assert [] + tl == tl;
    }
  }

  /** The text before the first heading forms exactly one section without a
      heading, holding its non-blank lines joined by "\n"; there is none if
      all of it is blank. */
  lemma LeadingText(lead: seq<Block>, post: seq<Block>)
    requires NoHeadings(lead)
    requires post == [] || post[0].Heading?
    ensures Decoded(lead + post)
         == (if TextLines(lead) == [] then [] else [Section(None, Join(TextLines(lead), "\n"))])
          + Decoded(post)
  {
    var tl := TextLines(lead);
    var first := if tl == [] then [] else [Group(None, tl)];
    LeadingGroups(lead, post);
    ToSectionsAppend(first, Groups(post));
  }

  /** The group-level form of LeadingText. */
  lemma LeadingGroups(lead: seq<Block>, post: seq<Block>)
    requires NoHeadings(lead)
    requires post == [] || post[0].Heading?
    ensures Groups(lead + post)
         == (if TextLines(lead) == [] then [] else [Group(None, TextLines(lead))]) + Groups(post)
  {
    var init := DecodeState([], None);
    FoldAppend(lead, post, init);
    FoldText(lead, init);
    RunFromHeading(post, [], Extend(None, TextLines(lead)));
    LeadFlush(TextLines(lead));
  }

  lemma LeadFlush(tl: seq<string>)
    ensures Flush([], Extend(None, tl)) == (if tl == [] then [] else [Group(None, tl)])
  {
    if tl != [] {
      assert [] + tl == tl;
    }
  }

  /** A block that is not a heading and yields a blank line (any other block
      type, an empty paragraph) changes nothing: in particular it does not
      close the open section. */
  lemma IgnoredBlock(pre: seq<Block>, b: Block, post: seq<Block>)
    requires !b.Heading? && IsBlank(LineOf(b))
    ensures Decoded(pre + [b] + post) == Decoded(pre + post)
  {
    var init := DecodeState([], None);
    assert pre + [b] + post == pre + ([b] + post);
    FoldAppend(pre, [b] + post, init);
    FoldAppend(pre, post, init);
    assert ([b] + post)[1..] == post;
  }

  /** The empty block list decodes to no sections. */
  lemma DecodedEmpty()
    ensures Decoded([]) == []
  {
  }

  // ---------------------------------------------------------------------------
  // Invariants of the decoded sections
  // ---------------------------------------------------------------------------

  predicate AllNonBlank(lines: seq<string>) {
    forall i | 0 <= i < |lines| :: !IsBlank(lines[i])
  }

  predicate GroupOk(g: Group) {
    g.lines != [] && AllNonBlank(g.lines)
  }

  /** Every finished group has a non-blank line; only the first can lack a
      heading; a heading-less group can only be open while nothing is done. */
  predicate StateOk(st: DecodeState) {
    && (forall k | 0 <= k < |st.done| :: GroupOk(st.done[k]))
    && (forall k | 1 <= k < |st.done| :: st.done[k].heading.Some?)
    && (st.open.Some? ==> AllNonBlank(st.open.value.lines))
    && (st.open.None? || st.open.value.heading.None? ==> st.done == [])
  }

  lemma {:induction false} FoldKeepsStateOk(bs: seq<Block>, st: DecodeState)
    requires StateOk(st)
    ensures StateOk(Fold(bs, st))
    decreases |bs|
  {
    if bs != [] {
      var s1 := Step(st, bs[0]);
      assert StateOk(s1);
      FoldKeepsStateOk(bs[1..], s1);
    }
  }

  lemma JoinNonBlank(lines: seq<string>, sep: string)
    requires lines != [] && !IsBlank(lines[0])
    ensures !IsBlank(Join(lines, sep))
  {
    var j := Join(lines, sep);
    var w :| 0 <= w < |lines[0]| && !IsWhite(lines[0][w]);
    assert j[w] == lines[0][w];
  }

  /** No emitted group joins to blank content: its lines are non-blank
      and the first is not blank, so neither is their join. Only the first
      group can lack a heading. */
  lemma GroupsOk(bs: seq<Block>)
    ensures forall k | 0 <= k < |Groups(bs)| :: !IsBlank(ToSection(Groups(bs)[k]).content)
    ensures forall k | 1 <= k < |Groups(bs)| :: Groups(bs)[k].heading.Some?
  {
    FoldKeepsStateOk(bs, DecodeState([], None));
    var gs := Groups(bs);
    forall k | 0 <= k < |gs| ensures !IsBlank(ToSection(gs[k]).content) {
      JoinNonBlank(gs[k].lines, "\n");
    }
  }

  /** All lines of a list of groups, in order. */
  function AllLines(gs: seq<Group>): seq<string> {
    if gs == [] then [] else AllLines(gs[..|gs| - 1]) + gs[|gs| - 1].lines
  }

  function OpenLines(open: Option<Group>): seq<string> {
    if open.Some? then open.value.lines else []
  }

  /** The lines held by a decode state, finished groups first. */
  function StateLines(st: DecodeState): seq<string> {
    AllLines(st.done) + OpenLines(st.open)
  }

  /** The line a non-heading block contributes, if any. */
  function BlockLine(b: Block): seq<string> {
    if !b.Heading? && !IsBlank(LineOf(b)) then [LineOf(b)] else []
  }

  lemma StepLines(st: DecodeState, b: Block)
    ensures StateLines(Step(st, b)) == StateLines(st) + BlockLine(b)
  {
    if b.Heading? && st.open.Some? && st.open.value.lines != [] {
      assert (st.done + [st.open.value])[..|st.done|] == st.done;
    }
  }

  lemma {:induction false} FoldLines(bs: seq<Block>, st: DecodeState)
    ensures StateLines(Fold(bs, st)) == StateLines(st) + TextLines(bs)
    decreases |bs|
  {
    if bs != [] {
      var s1 := Step(st, bs[0]);
      FoldLines(bs[1..], s1);
      StepLines(st, bs[0]);
      assert TextLines(bs) == BlockLine(bs[0]) + TextLines(bs[1..]);
      assert StateLines(st) + BlockLine(bs[0]) + TextLines(bs[1..]) == StateLines(st) + TextLines(bs);
    }
  }

  /** No text line is lost or reordered: the lines of the decoded groups,
      read in order, are exactly the non-blank text lines of the blocks. */
  lemma GroupsKeepLines(bs: seq<Block>)
    ensures AllLines(Groups(bs)) == TextLines(bs)
  {
    var st := Fold(bs, DecodeState([], None));
    FoldLines(bs, DecodeState([], None));
    assert StateLines(st) == TextLines(bs);
    if st.open.Some? && st.open.value.lines != [] {
      var d := st.done + [st.open.value];
      assert d[..|d| - 1] == st.done;
      assert AllLines(d) == AllLines(st.done) + st.open.value.lines;
    } else {
      assert AllLines(st.done) == TextLines(bs);
    }
  }

  // ===========================================================================
  // Round trip
  // ===========================================================================

  /** The section a kept field is read back as. */
  function Stored(f: Field): Section
    requires IsFilled(f)
  {
    Section(Some(f.heading), Trim(f.content.value))
  }

  /** The kept fields as sections, in order. */
  function Kept(fields: seq<Field>): (r: seq<Section>)
    ensures |r| == |Filled(fields)|
  {
    if fields == [] then []
    else (if IsFilled(fields[0]) then [Stored(fields[0])] else []) + Kept(fields[1..])
  }

  /** The encoded block list is empty or starts with a heading. */
  lemma EncodedStart(fields: seq<Field>)
    ensures Encoded(fields) == [] || Encoded(fields)[0].Heading?
  {
    EncodedShape(fields);
  }

  /** One kept field decodes to its own section, in front of whatever
      follows it. */
  lemma FilledPair(f: Field, post: seq<Block>)
    requires IsFilled(f)
    requires post == [] || post[0].Heading?
    ensures Decoded(PairOf(f) + post) == [Stored(f)] + Decoded(post)
  {
    var t := Trim(f.content.value);
    var p := Paragraph([t]);
    assert ParagraphBlock(f) == p;
    var bs := [] + [Heading(3, [f.heading])] + [p] + post;
    assert bs == PairOf(f) + post;
    TrimNotBlank(f.content.value);
    SingleParagraph(t);
    ConcatSingle(f.heading);
    assert Join([t], "\n") == t;
    HeadingSection([], 3, [f.heading], [p], post);
    var sec := Section(Some(f.heading), t);
    assert Decoded(bs) == Decoded([]) + [sec] + Decoded(post);
    DecodedEmpty();
    assert [] + [sec] + Decoded(post) == [sec] + Decoded(post);
  }

  /** A paragraph with one non-blank run yields that run as its only line. */
  lemma SingleParagraph(t: string)
    requires !IsBlank(t)
    ensures TextLines([Paragraph([t])]) == [t]
  {
    ConcatSingle(t);
    assert LineOf(Paragraph([t])) == t;
    assert TextLines([Paragraph([t])]) == [t] + TextLines([]);
  }

  /** Decoding what the encoder wrote gives back exactly the non-blank
      fields, in order, each with its heading unchanged and its content
      trimmed. */
  lemma {:induction false} RoundTrip(fields: seq<Field>)
    ensures Decoded(Encoded(fields)) == Kept(fields)
  {
    if fields != [] {
      var f, rest := fields[0], fields[1..];
      RoundTrip(rest);
      if IsFilled(f) {
        EncodedStart(rest);
        FilledPair(f, Encoded(rest));
        assert Kept(fields) == [Stored(f)] + Kept(rest);
      } else {
        assert Encoded(fields) == Encoded(rest);
        assert Kept(fields) == Kept(rest);
      }
    }
  }

  // ===========================================================================
  // Worked examples
  // ===========================================================================

  /** A paragraph and a bulleted item under one heading become one section
      whose content is the two lines joined by "\n". */
  lemma ExampleMultiLine()
    ensures Decoded([Heading(1, ["H"]), Paragraph(["a"]), Bulleted(["b"])]) == [Section(Some("H"), "a\n• b")]
  {
    var body := [Paragraph(["a"]), Bulleted(["b"])];
    ConcatSingle("a");
    ConcatSingle("b");
    ConcatSingle("H");
    assert LineOf(body[0]) == "a" && LineOf(body[1]) == "• b";
    assert !IsBlank("a") by { assert !IsWhite("a"[0]); }
    assert !IsBlank("• b") by { assert !IsWhite("• b"[0]); }
    assert TextLines(body[1..]) == ["• b"] + TextLines([]);
    assert TextLines(body) == ["a", "• b"];
    assert Join(["a", "• b"], "\n") == "a\n• b";
    HeadingSection([], 1, ["H"], body, []);
    assert [] + [Heading(1, ["H"])] + body + [] == [Heading(1, ["H"]), Paragraph(["a"]), Bulleted(["b"])];
    DecodedEmpty();
    assert [] + [Section(Some("H"), "a\n• b")] + [] == [Section(Some("H"), "a\n• b")];
  }

  /** Two consecutive headings: the first has no text and is dropped. */
  lemma ExampleEmptyHeading()
    ensures Decoded([Heading(2, ["A"]), Heading(3, ["B"]), Paragraph(["x"])]) == [Section(Some("B"), "x")]
  {
    var post := [Heading(3, ["B"]), Paragraph(["x"])];
    DecodedEmpty();
    assert TextLines([]) == [];
    HeadingSection([], 2, ["A"], [], post);
    assert [] + [Heading(2, ["A"])] + [] + post == [Heading(2, ["A"]), Heading(3, ["B"]), Paragraph(["x"])];
    assert [] + [] + Decoded(post) == Decoded(post);
    ConcatSingle("B");
    assert !IsBlank("x") by { assert !IsWhite("x"[0]); }
    SingleParagraph("x");
    HeadingSection([], 3, ["B"], [Paragraph(["x"])], []);
    assert [] + [Heading(3, ["B"])] + [Paragraph(["x"])] + [] == post;
    assert [] + [Section(Some("B"), "x")] + [] == [Section(Some("B"), "x")];
  }
}
