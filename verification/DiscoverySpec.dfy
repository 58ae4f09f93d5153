/** Publishing the discovery entities one per call: a resumable walk over categories, compressed chunks and
    lines, and the nested loop it amounts to. What a line turns into is an arbitrary function of the line and of
    the buffers that earlier lines leave behind. */
module DiscoverySpec {
  import opened Common

  type Line = seq<Byte>

  /** The character buffers of the manager that outlive a line. */
  type Scratch = seq<string>

  datatype Message = Message(topic: string, payload: string)

  /** What processing a line yields: perhaps an entity, and the buffers it leaves. */
  datatype Rendering = Rendering(message: Option<Message>, scratch: Scratch)

  /** `chunks` are the decompressed chunks; None is a chunk that does not decompress. */
  datatype Category = Category(name: string, chunks: seq<Option<seq<Byte>>>)

  /** `typeCategory` is the generated table from appliance type to category, None for a type without one. `begin`
      is what the first call does to the buffers. */
  datatype Plan = Plan(
    categories: seq<Category>,
    typeCategory: seq<Option<string>>,
    applianceType: Byte,
    begin: Scratch -> Scratch,
    render: (Line, Scratch) -> Rendering)

  const LINE_MAX: nat := 18431

  predicate Applies(p: Plan, name: string) {
    || name == "custom" || name == "common" || name == "energy"
    || (p.applianceType < |p.typeCategory| && p.typeCategory[p.applianceType] == Some(name))
  }

  predicate IsSeparator(b: Byte) {
    b == 10 || b == 13
  }

  /** A nonempty line: overlong ones are cut to the line buffer first. */
  function Rendered(p: Plan, line: Line, s: Scratch): Rendering {
    p.render(Cut(line, LINE_MAX), s)
  }

  // ---------------------------------------------------------------- the nested loop

  /** Messages in order, and the buffers afterwards. */
  datatype Output = Output(messages: seq<Message>, scratch: Scratch)

  function Prepend(m: Option<Message>, o: Output): Output {
    if m.Some? then Output([m.value] + o.messages, o.scratch) else o
  }

  function Then(o: Output, q: Output): (r: Output)
    ensures o.messages == [] ==> r == q
  {
    Output(o.messages + q.messages, q.scratch)
  }

  /** The lines of a chunk: splitting at every separator. */
  function Lines(bytes: seq<Byte>): (r: seq<Line>)
    ensures r != []
  {
    if bytes == [] then [[]]
    else
      var rest := Lines(bytes[1..]);
      if IsSeparator(bytes[0]) then [[]] + rest else [[bytes[0]] + rest[0]] + rest[1..]
  }

  function OfLines(p: Plan, lines: seq<Line>, s: Scratch): Output {
    if lines == [] then Output([], s)
    else if lines[0] == [] then OfLines(p, lines[1..], s)
    else
      var r := Rendered(p, lines[0], s);
      Prepend(r.message, OfLines(p, lines[1..], r.scratch))
  }

  function OfChunk(p: Plan, chunk: Option<seq<Byte>>, s: Scratch): Output {
    if chunk.Some? then OfLines(p, Lines(chunk.value), s) else Output([], s)
  }

  function OfChunks(p: Plan, chunks: seq<Option<seq<Byte>>>, s: Scratch): Output {
    if chunks == [] then Output([], s)
    else
      var o := OfChunk(p, chunks[0], s);
      Then(o, OfChunks(p, chunks[1..], o.scratch))
  }

  /** Everything the nested loop over categories, chunks and lines publishes, in order. */
  function Everything(p: Plan, categories: seq<Category>, s: Scratch): Output {
    if categories == [] then Output([], s)
    else
      var o := if Applies(p, categories[0].name) then OfChunks(p, categories[0].chunks, s) else Output([], s);
      Then(o, Everything(p, categories[1..], o.scratch))
  }

  // ---------------------------------------------------------------- the walk

  datatype Stage = Idle | Building | Discovering | Complete | Failed

  /** An entity the walk is done with: accepted by the client, or skipped because there was no client yet. */
  datatype Handled = Handled(message: Message, sent: bool)

  /** What becomes of the publish of a call, if it comes to one. */
  datatype Outcome = Sent | Dropped | NoClient

  /** `size` is the length of the chunk in the buffer, 0 when none is loaded. */
  datatype Walk = Walk(
    stage: Stage,
    category: nat,
    chunk: nat,
    offset: nat,
    size: nat,
    scratch: Scratch,
    handled: seq<Handled>)

  /** End of the line starting at `from`. */
  function LineEnd(bytes: seq<Byte>, from: nat): (e: nat)
    requires from <= |bytes|
    ensures from <= e <= |bytes|
    ensures forall k | from <= k < e :: !IsSeparator(bytes[k])
    ensures e < |bytes| ==> IsSeparator(bytes[e])
    decreases |bytes| - from
  {
    if from == |bytes| || IsSeparator(bytes[from]) then from else LineEnd(bytes, from + 1)
  }

  /** The next line from `from` on that renders: where it starts, its message, and the offset after it. `scratch` is
      what the lines processed on the way leave. */
  datatype Hit = Hit(at: nat, message: Message, next: nat, scratch: Scratch) | NoHit(scratch: Scratch)

  function NextHit(p: Plan, bytes: seq<Byte>, from: nat, s: Scratch): (h: Hit)
    ensures h.Hit? ==> from <= h.at < |bytes| && h.at < h.next
    decreases |bytes| - from
  {
    if from >= |bytes| then NoHit(s)
    else
      var e := LineEnd(bytes, from);
      if e == from then NextHit(p, bytes, from + 1, s)
      else
        var r := Rendered(p, bytes[from..e], s);
        if r.message.Some? then Hit(from, r.message.value, e + 1, r.scratch) else NextHit(p, bytes, e + 1, r.scratch)
  }

  /** One call: at most one publish. A dropped one leaves the offset at its line, which the next call processes
      again, with the buffers as they are then. */
  function Call(p: Plan, w: Walk, outcome: Outcome): Walk {
    if w.stage == Building then
      w.(stage := Discovering, category := 0, chunk := 0, offset := 0, size := 0, scratch := p.begin(w.scratch))
    else if w.stage != Discovering then w
    else if w.category >= |p.categories| then w.(stage := Complete)
    else if !Applies(p, p.categories[w.category].name) then NextCategory(w)
    else if w.chunk >= |p.categories[w.category].chunks| then NextCategory(w)
    else
      var chunk := p.categories[w.category].chunks[w.chunk];
      if chunk.None? then w.(stage := Failed)
      else AfterHit(w, |chunk.value|, NextHit(p, chunk.value, if w.size == 0 then 0 else w.offset, w.scratch), outcome)
  }

  function AfterHit(w: Walk, size: nat, hit: Hit, outcome: Outcome): Walk {
    var v := w.(scratch := hit.scratch);
    if hit.NoHit? then v.(chunk := w.chunk + 1, offset := 0, size := 0)
    else if outcome == Dropped then v.(offset := hit.at, size := size)
    else v.(offset := hit.next, size := size, handled := w.handled + [Handled(hit.message, outcome == Sent)])
  }

  function NextCategory(w: Walk): Walk {
    w.(category := w.category + 1, chunk := 0, offset := 0, size := 0)
  }

  /** The walk begins as start() leaves it. */
  function Begun(s: Scratch): Walk {
    Walk(Building, 0, 0, 0, 0, s, [])
  }

  /** A loaded chunk is the current one. */
  ghost predicate Loaded(p: Plan, w: Walk) {
    w.stage == Discovering && w.size > 0 ==>
      && w.category < |p.categories| && Applies(p, p.categories[w.category].name)
      && w.chunk < |p.categories[w.category].chunks|
      && p.categories[w.category].chunks[w.chunk].Some?
      && w.size == |p.categories[w.category].chunks[w.chunk].value|
  }

  lemma CallKeepsLoaded(p: Plan, w: Walk, outcome: Outcome)
    requires Loaded(p, w)
    ensures Loaded(p, Call(p, w, outcome))
  {
  }

  /** Every chunk of the categories that apply decompresses. */
  ghost predicate Decompresses(p: Plan) {
    forall c, k | 0 <= c < |p.categories| && Applies(p, p.categories[c].name) && 0 <= k < |p.categories[c].chunks| ::
      p.categories[c].chunks[k].Some?
  }

  /** Processing a line that yields an entity a second time at once yields the same entity and changes no buffer. */
  ghost predicate Repeats(p: Plan) {
    forall line: Line, s: Scratch | p.render(line, s).message.Some? ::
      p.render(line, p.render(line, s).scratch) == p.render(line, s)
  }

  // ---------------------------------------------------------------- what is left to publish

  /** Messages of a chunk from an offset on, as the walk meets them. */
  function Messages(p: Plan, bytes: seq<Byte>, from: nat, s: Scratch): Output
    decreases |bytes| - from
  {
    var hit := NextHit(p, bytes, from, s);
    if hit.NoHit? then Output([], hit.scratch) else Prepend(Some(hit.message), Messages(p, bytes, hit.next, hit.scratch))
  }

  function InChunk(p: Plan, chunk: Option<seq<Byte>>, s: Scratch): Output {
    if chunk.Some? then Messages(p, chunk.value, 0, s) else Output([], s)
  }

  function InChunks(p: Plan, chunks: seq<Option<seq<Byte>>>, k: nat, s: Scratch): Output
    decreases |chunks| - k
  {
    if k >= |chunks| then Output([], s)
    else
      var o := InChunk(p, chunks[k], s);
      Then(o, InChunks(p, chunks, k + 1, o.scratch))
  }

  function InCategories(p: Plan, c: nat, s: Scratch): Output
    decreases |p.categories| - c
  {
    if c >= |p.categories| then Output([], s)
    else
      var o := if Applies(p, p.categories[c].name) then InChunks(p, p.categories[c].chunks, 0, s) else Output([], s);
      Then(o, InCategories(p, c + 1, o.scratch))
  }

  /** The rest of the category after the output `o`, and the categories after it. */
  function Onwards(p: Plan, c: nat, k: nat, o: Output): (r: seq<Message>)
    requires c < |p.categories|
    ensures var q := InChunks(p, p.categories[c].chunks, k, o.scratch);
            o.messages == [] ==> r == q.messages + InCategories(p, c + 1, q.scratch).messages
  {
    var q := InChunks(p, p.categories[c].chunks, k, o.scratch);
    o.messages + (q.messages + InCategories(p, c + 1, q.scratch).messages)
  }

  function Left(p: Plan, w: Walk): seq<Message> {
    if w.stage == Building then InCategories(p, 0, p.begin(w.scratch)).messages
    else if w.stage != Discovering || w.category >= |p.categories| then []
    else
      var cat := p.categories[w.category];
      if !Applies(p, cat.name) then InCategories(p, w.category + 1, w.scratch).messages
      else if w.size == 0 || w.chunk >= |cat.chunks| || cat.chunks[w.chunk].None? then
        Onwards(p, w.category, w.chunk, Output([], w.scratch))
      else
        Onwards(p, w.category, w.chunk + 1, Messages(p, cat.chunks[w.chunk].value, w.offset, w.scratch))
  }

  function MessagesOf(handled: seq<Handled>): (r: seq<Message>)
    ensures |r| == |handled|
  {
    if handled == [] then [] else MessagesOf(handled[..|handled| - 1]) + [handled[|handled| - 1].message]
  }

  lemma MessagesOfAppend(handled: seq<Handled>, h: Handled)
    ensures MessagesOf(handled + [h]) == MessagesOf(handled) + [h.message]
  {
    assert (handled + [h])[..|handled|] == handled;
  }

  lemma RenderedAgain(p: Plan, line: Line, s: Scratch)
    requires Repeats(p) && Rendered(p, line, s).message.Some?
    ensures Rendered(p, line, Rendered(p, line, s).scratch) == Rendered(p, line, s)
  {
  }

  lemma {:induction false} HitAgain(p: Plan, bytes: seq<Byte>, from: nat, s: Scratch)
    requires Repeats(p)
    ensures var h := NextHit(p, bytes, from, s); h.Hit? ==> NextHit(p, bytes, h.at, h.scratch) == h
    decreases |bytes| - from
  {
    hide Repeats, Rendered, LineEnd;
    if from < |bytes| {
      var e := LineEnd(bytes, from);
      if e == from {
        HitAgain(p, bytes, from + 1, s);
      } else {
        var r := Rendered(p, bytes[from..e], s);
        if r.message.Some? {
          RenderedAgain(p, bytes[from..e], s);
        } else {
          HitAgain(p, bytes, e + 1, r.scratch);
        }
      }
    }
  }

  lemma MessagesUnfold(p: Plan, bytes: seq<Byte>, from: nat, s: Scratch)
    requires Repeats(p)
    ensures var h := NextHit(p, bytes, from, s);
            && (h.NoHit? ==> Messages(p, bytes, from, s) == Output([], h.scratch))
            && (h.Hit? ==>
                  && Messages(p, bytes, from, s) == Prepend(Some(h.message), Messages(p, bytes, h.next, h.scratch))
                  && Messages(p, bytes, h.at, h.scratch) == Messages(p, bytes, from, s))
  {
    HitAgain(p, bytes, from, s);
  }

  /** Handled so far plus left to publish never changes, whatever becomes of the publish. Only a chunk that does not
      decompress ends this, and then the call handles nothing. */
  lemma CallConserves(p: Plan, w: Walk, outcome: Outcome)
    requires Loaded(p, w) && Repeats(p) && w.stage != Failed
    ensures var v := Call(p, w, outcome);
            && (v.stage != Failed ==> MessagesOf(v.handled) + Left(p, v) == MessagesOf(w.handled) + Left(p, w))
            && (v.stage == Failed ==> v.handled == w.handled && !Decompresses(p))
  {
    hide Applies, NextHit, Repeats, Messages, InChunk;
    if w.stage == Discovering && w.category < |p.categories| {
      var cat := p.categories[w.category];
      if Applies(p, cat.name) && w.chunk < |cat.chunks| {
        if cat.chunks[w.chunk].Some? { ChunkConserves(p, w, outcome, cat.chunks[w.chunk].value); }
      } else {
        NextCategoryConserves(p, w);
      }
    }
  }

  lemma InCategoriesUnfold(p: Plan, c: nat, s: Scratch)
    ensures InCategories(p, c, s).messages ==
            if c >= |p.categories| then []
            else if Applies(p, p.categories[c].name) then Onwards(p, c, 0, Output([], s))
            else InCategories(p, c + 1, s).messages
  {
    hide InChunks;
  }

  lemma NoChunksLeft(p: Plan, c: nat, k: nat, s: Scratch)
    requires c < |p.categories| && k >= |p.categories[c].chunks|
    ensures Onwards(p, c, k, Output([], s)) == InCategories(p, c + 1, s).messages
  {
    hide InCategories;
  }

  lemma NextCategoryConserves(p: Plan, w: Walk)
    requires w.stage == Discovering && w.category < |p.categories| && Loaded(p, w)
    requires !Applies(p, p.categories[w.category].name) || w.chunk >= |p.categories[w.category].chunks|
    ensures Left(p, NextCategory(w)) == Left(p, w)
  {
    hide InCategories, Onwards, InChunks, Messages, Applies;
    InCategoriesUnfold(p, w.category + 1, w.scratch);
    if w.chunk >= |p.categories[w.category].chunks| {
      NoChunksLeft(p, w.category, w.chunk, w.scratch);
    }
  }

  /** The walk stands at chunk `bytes`, loaded or not. */
  ghost predicate AtChunk(p: Plan, w: Walk, bytes: seq<Byte>) {
    && w.stage == Discovering && w.category < |p.categories| && Loaded(p, w)
    && Applies(p, p.categories[w.category].name) && w.chunk < |p.categories[w.category].chunks|
    && p.categories[w.category].chunks[w.chunk] == Some(bytes)
  }

  function Here(w: Walk): nat {
    if w.size == 0 then 0 else w.offset
  }

  /** Inside a chunk, what is left is the rest of it and what comes after. */
  lemma LeftInChunk(p: Plan, w: Walk, bytes: seq<Byte>)
    requires AtChunk(p, w, bytes)
    ensures Left(p, w) == Onwards(p, w.category, w.chunk + 1, Messages(p, bytes, Here(w), w.scratch))
  {
    hide InCategories, Messages, Applies;
    if w.size == 0 {
      var o := Messages(p, bytes, 0, w.scratch);
      var q := InChunks(p, p.categories[w.category].chunks, w.chunk + 1, o.scratch);
      assert InChunks(p, p.categories[w.category].chunks, w.chunk, w.scratch) == Then(o, q);
      hide InChunks;
      Regroup(o.messages, q.messages, InCategories(p, w.category + 1, q.scratch).messages);
    }
  }

  lemma Regroup(a: seq<Message>, b: seq<Message>, c: seq<Message>)
    ensures [] + (a + b + c) == a + (b + c)
  {
  }

  lemma CallInChunk(p: Plan, w: Walk, outcome: Outcome, bytes: seq<Byte>)
    requires AtChunk(p, w, bytes)
    ensures var hit := NextHit(p, bytes, Here(w), w.scratch);
            && Call(p, w, outcome) == AfterHit(w, |bytes|, hit, outcome)
            && (hit.Hit? ==> AtChunk(p, Call(p, w, outcome), bytes) && |bytes| > 0)
  {
    CallKeepsLoaded(p, w, outcome);
    hide Applies;
  }

  lemma NoHitConserves(p: Plan, w: Walk, bytes: seq<Byte>)
    requires AtChunk(p, w, bytes) && Repeats(p)
    requires NextHit(p, bytes, Here(w), w.scratch).NoHit?
    ensures Left(p, w.(scratch := NextHit(p, bytes, Here(w), w.scratch).scratch, chunk := w.chunk + 1, offset := 0, size := 0))
         == Left(p, w)
  {
    LeftInChunk(p, w, bytes);
    MessagesUnfold(p, bytes, Here(w), w.scratch);
    hide Messages, NextHit, InChunks, InCategories, Applies, Repeats;
  }

  lemma DroppedConserves(p: Plan, w: Walk, v: Walk, bytes: seq<Byte>, hit: Hit)
    requires AtChunk(p, w, bytes) && AtChunk(p, v, bytes) && Repeats(p)
    requires hit.Hit? && hit == NextHit(p, bytes, Here(w), w.scratch)
    requires v.category == w.category && v.chunk == w.chunk && v.scratch == hit.scratch && Here(v) == hit.at
    ensures Left(p, v) == Left(p, w)
  {
    hide Messages, NextHit, Onwards, Left, AtChunk, Repeats, Here;
    LeftInChunk(p, w, bytes);
    LeftInChunk(p, v, bytes);
    MessagesUnfold(p, bytes, Here(w), w.scratch);
  }

  lemma HandledConserves(p: Plan, w: Walk, v: Walk, bytes: seq<Byte>, hit: Hit)
    requires AtChunk(p, w, bytes) && AtChunk(p, v, bytes) && Repeats(p)
    requires hit.Hit? && hit == NextHit(p, bytes, Here(w), w.scratch)
    requires v.category == w.category && v.chunk == w.chunk && v.scratch == hit.scratch && Here(v) == hit.next
    ensures [hit.message] + Left(p, v) == Left(p, w)
  {
    hide Messages, NextHit, Onwards, Left, AtChunk, Repeats, Here;
    LeftInChunk(p, w, bytes);
    LeftInChunk(p, v, bytes);
    MessagesUnfold(p, bytes, Here(w), w.scratch);
    assert w.category < |p.categories| by { AtChunkBounds(p, w, bytes); }
    OnwardsPrepend(p, w.category, w.chunk + 1, hit.message, Messages(p, bytes, hit.next, hit.scratch));
  }

  lemma AtChunkBounds(p: Plan, w: Walk, bytes: seq<Byte>)
    requires AtChunk(p, w, bytes)
    ensures w.category < |p.categories|
  {
  }

  lemma OnwardsPrepend(p: Plan, c: nat, k: nat, m: Message, o: Output)
    requires c < |p.categories|
    ensures Onwards(p, c, k, Prepend(Some(m), o)) == [m] + Onwards(p, c, k, o)
  {
    hide InChunks, InCategories;
  }

  lemma ChunkConserves(p: Plan, w: Walk, outcome: Outcome, bytes: seq<Byte>)
    requires AtChunk(p, w, bytes) && Repeats(p)
    ensures var v := Call(p, w, outcome);
            v.stage == Discovering && MessagesOf(v.handled) + Left(p, v) == MessagesOf(w.handled) + Left(p, w)
  {
    hide Left, Repeats, MessagesOf;
    CallInChunk(p, w, outcome, bytes);
    var v, hit := Call(p, w, outcome), NextHit(p, bytes, Here(w), w.scratch);
    hide Call, AtChunk, NextHit;
    if hit.NoHit? {
      NoHitConserves(p, w, bytes);
    } else {
      if outcome == Dropped {
        DroppedConserves(p, w, v, bytes, hit);
      } else {
        HandledConserves(p, w, v, bytes, hit);
        MessagesOfAppend(w.handled, Handled(hit.message, outcome == Sent));
      }
    }
  }
}
