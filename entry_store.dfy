/** A Notion page of the Screenwriter Library as the entry endpoints see it:
    its properties and its flat list of top-level blocks.
    `PATCH /api/entry/:id` updates the properties and replaces the body;
    `GET /api/entry/:id` reads the body back as sections. The Notion client
    calls become direct updates of the two fields. */
module EntryStore {
  import opened Base
  import opened Text
  import opened SectionCodec
  import opened EntryProps

  /** The `page_size` of both block listings: only this many blocks are
      read, and only this many are deleted before new ones are appended. */
  const PageSize: nat := 100

  function Min(a: nat, b: nat): nat {
    if a <= b then a else b
  }

  /** The blocks a listing returns: the first `PageSize`. */
  function Listed(body: seq<Block>): seq<Block> {
    body[..Min(|body|, PageSize)]
  }

  /** The body after the PATCH replacement: the listed blocks are deleted
      and the encoded sections are appended after whatever is left. */
  function Replaced(body: seq<Block>, fields: seq<Field>): seq<Block> {
    body[|Listed(body)|..] + Encoded(fields)
  }

  /** The property assembly of `PATCH /api/entry/:id` (server.js): the
      type's title property, an idea's Type, then Tags, each written only
      when its helper yields a value. */
  method BuildProperties(req: PatchRequest) returns (props: Props)
    ensures props == PatchProperties(req)
  {
    props := map[];
    if req.kind == "idea" {
      props := SetProp(props, TitleCol, TitleProp(req.title));
      props := SetProp(props, TypeCol, SelectProp(req.ideaType));
    } else if req.kind == "character" {
      props := SetProp(props, NameCol, TitleProp(req.name));
    } else if req.kind == "story" {
      props := SetProp(props, WhatCol, TitleProp(req.what));
    } else if req.kind == "random" {
      props := SetProp(props, TitleCol, TitleProp(req.title));
    }
    props := SetProp(props, TagsCol, MultiSelectProp(req.tags));
  }

  class EntryPage {
    var properties: Props
    var body: seq<Block>

    constructor (properties: Props, body: seq<Block>)
      ensures this.properties == properties && this.body == body
    {
      this.properties := properties;
      this.body := body;
    }

    /** `PATCH /api/entry/:id` (server.js). The properties are built one by
        one; Notion is only asked to update them when at least one was
        built, and an update replaces the written keys and keeps the
        others. Then the listed blocks are deleted and the encoded sections,
        when there are any, appended. */
    method Patch(req: PatchRequest)
      modifies this
      ensures properties == old(properties) + PatchProperties(req)
      ensures body == Replaced(old(body), req.sections.GetOr([]))
    {
      var props := BuildProperties(req);
      if |props| > 0 {
        properties := properties + props;
      } else {
        assert props == map[];
        assert properties + props == properties;
      }

      var results := body[..Min(|body|, PageSize)];
      body := body[|results|..];
      var newBlocks := BuildBlocks(req.sections.GetOr([]));
      if |newBlocks| > 0 {
        body := body + newBlocks;
      } else {
        assert body + newBlocks == body;
      }
    }

    /** `GET /api/entry/:id` (server.js): the listed blocks, decoded. */
    method Read() returns (sections: seq<Section>)
      ensures sections == Decoded(Listed(body))
    {
      var results := body[..Min(|body|, PageSize)];
      sections := Decode(results);
    }
  }

  /** On a page that fits in one listing, reading after a body replacement
      with fields that fit in one listing returns exactly the non-blank
      fields, in order, heading unchanged and content trimmed. */
  lemma PatchThenRead(body: seq<Block>, fields: seq<Field>)
    requires |body| <= PageSize && |Encoded(fields)| <= PageSize
    ensures Decoded(Listed(Replaced(body, fields))) == Kept(fields)
  {
    var e := Encoded(fields);
    assert body[|Listed(body)|..] == [];
    assert Replaced(body, fields) == e;
    assert Listed(e) == e;
    RoundTrip(fields);
  }

  /** On a page longer than one listing, the replacement keeps the blocks
      past the first `PageSize` and puts the new blocks after them, so a
      later read starts with the stale blocks. */
  lemma LongPageKeepsStale(body: seq<Block>, fields: seq<Field>)
    requires |body| > PageSize
    ensures |Replaced(body, fields)| == |body| - PageSize + |Encoded(fields)|
    ensures Replaced(body, fields)[..|body| - PageSize] == body[PageSize..]
  {
  }
}
