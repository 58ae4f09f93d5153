/** The walk publishes exactly what the nested loop would, in a known number of calls. */
module DiscoveryTheorems {
  import opened Common
  import opened DiscoverySpec

  // ---------------------------------------------------------------- the walk meets the lines of the split

  lemma LinesOfNothing(bytes: seq<Byte>, from: nat)
    requires from == |bytes|
    ensures Lines(bytes[from..]) == [[]]
  {
  }

  lemma LinesStep(bytes: seq<Byte>, from: nat)
    requires from < |bytes|
    ensures var rest := Lines(bytes[from + 1..]);
            Lines(bytes[from..]) == if IsSeparator(bytes[from]) then [[]] + rest else PrependToFirst(bytes[from], rest)
  {
    assert bytes[from..][0] == bytes[from] && bytes[from..][1..] == bytes[from + 1..];
  }

  function PrependToFirst(b: Byte, lines: seq<Line>): seq<Line>
    requires lines != []
  {
    [[b] + lines[0]] + lines[1..]
  }

  lemma Prepended(b: Byte, first: Line, rest: seq<Line>)
    ensures PrependToFirst(b, [first] + rest) == [[b] + first] + rest
  {
    assert ([first] + rest)[1..] == rest;
  }

  lemma LineEndSteps(bytes: seq<Byte>, from: nat)
    requires from < |bytes|
    ensures IsSeparator(bytes[from]) ==> LineEnd(bytes, from) == from
    ensures !IsSeparator(bytes[from]) ==>
              var e := LineEnd(bytes, from);
              e == LineEnd(bytes, from + 1) && bytes[from..e] == [bytes[from]] + bytes[from + 1..e]
  {
  }

  /** The lines after a line that ends at `e`. */
  function LinesAfter(bytes: seq<Byte>, e: nat): seq<Line>
    requires e <= |bytes|
  {
    if e < |bytes| then Lines(bytes[e + 1..]) else []
  }

  /** The lines of what is left of a chunk: the line up to its end, and the lines after it. */
  lemma {:induction false} LinesFrom(bytes: seq<Byte>, from: nat)
    requires from <= |bytes|
    ensures var e := LineEnd(bytes, from);
            Lines(bytes[from..]) == [bytes[from..e]] + LinesAfter(bytes, e)
    decreases |bytes| - from
  {
    if from == |bytes| {
      LinesOfNothing(bytes, from);
      assert bytes[from..from] == [];
    } else if IsSeparator(bytes[from]) {
      LinesStep(bytes, from);
      LineEndSteps(bytes, from);
      hide Lines, LineEnd;
      assert bytes[from..from] == [];
    } else {
      LinesFrom(bytes, from + 1);
      LinesStep(bytes, from);
      LineEndSteps(bytes, from);
      hide *;
      var e := LineEnd(bytes, from);
      Prepended(bytes[from], bytes[from + 1..e], LinesAfter(bytes, e));
    }
  }

  lemma OfLinesCons(p: Plan, line: Line, rest: seq<Line>, s: Scratch)
    ensures line == [] ==> OfLines(p, [line] + rest, s) == OfLines(p, rest, s)
    ensures line != [] ==>
              var r := Rendered(p, line, s);
              OfLines(p, [line] + rest, s) == Prepend(r.message, OfLines(p, rest, r.scratch))
  {
    assert ([line] + rest)[1..] == rest;
  }

  lemma MessagesByLine(p: Plan, bytes: seq<Byte>, from: nat, s: Scratch)
    requires from < |bytes|
    ensures var e := LineEnd(bytes, from);
            && (e == from ==> Messages(p, bytes, from, s) == Messages(p, bytes, from + 1, s))
            && (e != from ==>
                  var r := Rendered(p, bytes[from..e], s);
                  Messages(p, bytes, from, s) == Prepend(r.message, Messages(p, bytes, e + 1, r.scratch)))
  {
  }

  lemma NoMessagesPastEnd(p: Plan, bytes: seq<Byte>, from: nat, s: Scratch)
    requires from >= |bytes|
    ensures Messages(p, bytes, from, s) == Output([], s)
  {
  }

  /** The walk meets the rendered nonempty lines of the chunk, in order, and hands the buffers on as they do. */
  lemma {:induction false} MessagesAreOfLines(p: Plan, bytes: seq<Byte>, from: nat, s: Scratch)
    requires from <= |bytes|
    ensures Messages(p, bytes, from, s) == OfLines(p, Lines(bytes[from..]), s)
    decreases |bytes| - from
  {
    hide Messages, Lines, OfLines, NextHit;
    if from == |bytes| {
      LinesOfNothing(bytes, from);
      NoMessagesPastEnd(p, bytes, from, s);
      OnlyEmptyLine(p, s);
    } else {
      var e := LineEnd(bytes, from);
      LinesFrom(bytes, from);
      MessagesByLine(p, bytes, from, s);
      var rest := LinesAfter(bytes, e);
      OfLinesCons(p, bytes[from..e], rest, s);
      var t := if e == from then s else Rendered(p, bytes[from..e], s).scratch;
      hide LineEnd, Rendered;
      if e < |bytes| {
        MessagesAreOfLines(p, bytes, e + 1, t);
      } else {
        NoMessagesPastEnd(p, bytes, e + 1, t);
        NoLines(p, t);
      }
    }
  }

  lemma OnlyEmptyLine(p: Plan, s: Scratch)
    ensures OfLines(p, [[]], s) == Output([], s)
  {
  }

  lemma NoLines(p: Plan, s: Scratch)
    ensures OfLines(p, [], s) == Output([], s)
  {
  }

  lemma {:induction false} InChunksAreOfChunks(p: Plan, chunks: seq<Option<seq<Byte>>>, k: nat, s: Scratch)
    requires k <= |chunks|
    ensures InChunks(p, chunks, k, s) == OfChunks(p, chunks[k..], s)
    decreases |chunks| - k
  {
    hide Messages, OfLines, Lines;
    if k < |chunks| {
      if chunks[k].Some? {
        MessagesAreOfLines(p, chunks[k].value, 0, s);
        assert chunks[k].value[0..] == chunks[k].value;
      }
      InChunksAreOfChunks(p, chunks, k + 1, InChunk(p, chunks[k], s).scratch);
      assert chunks[k..][1..] == chunks[k + 1..];
    }
  }

  lemma {:induction false} InCategoriesAreEverything(p: Plan, c: nat, s: Scratch)
    requires c <= |p.categories|
    ensures InCategories(p, c, s) == Everything(p, p.categories[c..], s)
    decreases |p.categories| - c
  {
    hide InChunks, OfChunks, Applies;
    if c < |p.categories| {
      var cat := p.categories[c];
      InChunksAreOfChunks(p, cat.chunks, 0, s);
      assert cat.chunks[0..] == cat.chunks;
      InCategoriesAreEverything(p, c + 1, if Applies(p, cat.name) then OfChunks(p, cat.chunks, s).scratch else s);
      assert p.categories[c..][1..] == p.categories[c + 1..];
    }
  }

  // ---------------------------------------------------------------- what the nested loop reads

  /** The separators of a chunk: line feeds and carriage returns. */
  function Separators(bytes: seq<Byte>): seq<Byte> {
    if bytes == [] then []
    else (if bytes[0] == 10 || bytes[0] == 13 then [bytes[0]] else []) + Separators(bytes[1..])
  }

  function Rejoined(lines: seq<Line>, separators: seq<Byte>): seq<Byte>
    requires |lines| == |separators| + 1
    decreases |separators|
  {
    if separators == [] then lines[0] else lines[0] + [separators[0]] + Rejoined(lines[1..], separators[1..])
  }

  /** The lines of a chunk hold no line feed and no carriage return, and with the separators between them they are the
      chunk. */
  lemma {:induction false} LinesSplit(bytes: seq<Byte>)
    ensures forall line | line in Lines(bytes) :: 10 !in line && 13 !in line
    ensures |Lines(bytes)| == |Separators(bytes)| + 1 && Rejoined(Lines(bytes), Separators(bytes)) == bytes
  {
    if bytes != [] {
      var b, rest, separators := bytes[0], Lines(bytes[1..]), Separators(bytes[1..]);
      LinesSplit(bytes[1..]);
      hide Lines, Separators;
      LinesHead(bytes);
      if b == 10 || b == 13 {
        RejoinedNew(b, rest, separators);
      } else {
        RejoinedLonger(b, rest, separators);
      }
      assert bytes == [b] + bytes[1..];
    }
  }

  lemma LinesHead(bytes: seq<Byte>)
    requires bytes != []
    ensures var b, rest, separators := bytes[0], Lines(bytes[1..]), Separators(bytes[1..]);
            if b == 10 || b == 13 then Lines(bytes) == [[]] + rest && Separators(bytes) == [b] + separators
            else Lines(bytes) == PrependToFirst(b, rest) && Separators(bytes) == separators
  {
  }

  lemma RejoinedNew(b: Byte, rest: seq<Line>, separators: seq<Byte>)
    requires |rest| == |separators| + 1
    ensures Rejoined([[]] + rest, [b] + separators) == [b] + Rejoined(rest, separators)
  {
    assert ([[]] + rest)[1..] == rest && ([b] + separators)[1..] == separators;
    assert [] + [b] == [b];
  }

  lemma RejoinedLonger(b: Byte, rest: seq<Line>, separators: seq<Byte>)
    requires |rest| == |separators| + 1
    ensures Rejoined(PrependToFirst(b, rest), separators) == [b] + Rejoined(rest, separators)
  {
    if separators != [] {
      var head, tail := [separators[0]], Rejoined(rest[1..], separators[1..]);
      assert PrependToFirst(b, rest)[1..] == rest[1..];
      RejoinedUnfold(rest, separators);
      RejoinedUnfold(PrependToFirst(b, rest), separators);
      hide Rejoined;
      Regroup([b], rest[0], head, tail);
    }
  }

  lemma RejoinedUnfold(lines: seq<Line>, separators: seq<Byte>)
    requires |lines| == |separators| + 1 && separators != []
    ensures Rejoined(lines, separators) == lines[0] + [separators[0]] + Rejoined(lines[1..], separators[1..])
  {
  }

  lemma Regroup(a: seq<Byte>, b: seq<Byte>, c: seq<Byte>, d: seq<Byte>)
    ensures a + b + c + d == a + (b + c + d)
  {
  }

  /** The names of the categories every appliance has, and of the appliance's own one if its type has any. */
  function Needed(p: Plan): set<string> {
    {"common", "energy", "custom"}
    + (if p.applianceType < |p.typeCategory| && p.typeCategory[p.applianceType].Some?
       then {p.typeCategory[p.applianceType].value} else {})
  }

  function Among(categories: seq<Category>, names: set<string>): seq<Category> {
    if categories == [] then []
    else (if categories[0].name in names then [categories[0]] else []) + Among(categories[1..], names)
  }

  /** Every chunk of every category given. */
  function AllOf(p: Plan, categories: seq<Category>, s: Scratch): Output {
    if categories == [] then Output([], s)
    else
      var o := OfChunks(p, categories[0].chunks, s);
      Then(o, AllOf(p, categories[1..], o.scratch))
  }

  lemma NeededApply(p: Plan, name: string)
    ensures Applies(p, name) <==> name in Needed(p)
  {
  }

  /** The nested loop publishes the needed categories, in order, and no other. */
  lemma {:induction false} OnlyNeeded(p: Plan, categories: seq<Category>, s: Scratch)
    ensures Everything(p, categories, s) == AllOf(p, Among(categories, Needed(p)), s)
  {
    if categories != [] {
      hide OfChunks, Applies, Needed;
      NeededApply(p, categories[0].name);
      var rest := Among(categories[1..], Needed(p));
      var t := if Applies(p, categories[0].name) then OfChunks(p, categories[0].chunks, s).scratch else s;
      OnlyNeeded(p, categories[1..], t);
      assert ([categories[0]] + rest)[1..] == rest && [] + rest == rest;
    }
  }

  /** A line longer than the line buffer is processed as if it ended there. */
  lemma OverlongIsCut(p: Plan, line: Line, s: Scratch)
    requires |line| >= 18432
    ensures Rendered(p, line, s) == p.render(line[..18431], s)
  {
  }

  // ---------------------------------------------------------------- runs

  function Calls(p: Plan, w: Walk, outcomes: seq<Outcome>): Walk
    decreases |outcomes|
  {
    if outcomes == [] then w else Calls(p, Call(p, w, outcomes[0]), outcomes[1..])
  }

  /** Processing a line again at once makes no difference, and no chunk has failed to decompress yet. */
  ghost predicate Fine(p: Plan, w: Walk) {
    Loaded(p, w) && Repeats(p) && w.stage != Failed
  }

  lemma CallStaysFine(p: Plan, w: Walk, outcome: Outcome)
    requires Fine(p, w)
    ensures var v := Call(p, w, outcome);
            && (v.stage != Failed ==>
                  Fine(p, v) && MessagesOf(v.handled) + Left(p, v) == MessagesOf(w.handled) + Left(p, w))
            && (v.stage == Failed ==> v.handled == w.handled && !Decompresses(p))
  {
    hide Left, Call, Repeats, MessagesOf, Decompresses;
    CallKeepsLoaded(p, w, outcome);
    CallConserves(p, w, outcome);
  }

  /** Over any number of calls nothing is lost, repeated or reordered; a walk that fails leaves a beginning. */
  lemma {:induction false} CallsConserve(p: Plan, w: Walk, outcomes: seq<Outcome>)
    requires Fine(p, w)
    ensures var v := Calls(p, w, outcomes);
            && (v.stage != Failed ==>
                  Fine(p, v) && MessagesOf(v.handled) + Left(p, v) == MessagesOf(w.handled) + Left(p, w))
            && MessagesOf(v.handled) <= MessagesOf(w.handled) + Left(p, w)
            && (Decompresses(p) ==> v.stage != Failed)
    decreases |outcomes|
  {
    if outcomes != [] {
      hide Left, Call, Fine, MessagesOf, Decompresses;
      CallStaysFine(p, w, outcomes[0]);
      var v := Call(p, w, outcomes[0]);
      if v.stage == Failed {
        FailedEnds(p, v, outcomes[1..]);
      } else {
        CallsConserve(p, v, outcomes[1..]);
      }
    }
  }

  lemma {:induction false} FailedEnds(p: Plan, w: Walk, outcomes: seq<Outcome>)
    requires w.stage == Failed
    ensures Calls(p, w, outcomes) == w
    decreases |outcomes|
  {
    if outcomes != [] { FailedEnds(p, w, outcomes[1..]); }
  }

  // ---------------------------------------------------------------- the number of calls

  /** Calls that end the chunks and categories from `c` on, and the last one, which ends the walk. */
  function Overhead(p: Plan, c: nat): nat
    decreases |p.categories| - c
  {
    if c >= |p.categories| then 1
    else (if Applies(p, p.categories[c].name) then |p.categories[c].chunks| else 0) + 1 + Overhead(p, c + 1)
  }

  function OverheadLeft(p: Plan, w: Walk): nat {
    if w.stage == Building then 1 + Overhead(p, 0)
    else if w.stage != Discovering then 0
    else if w.category >= |p.categories| then 1
    else
      var cat := p.categories[w.category];
      (if Applies(p, cat.name) && w.chunk < |cat.chunks| then |cat.chunks| - w.chunk else 0) + 1
      + Overhead(p, w.category + 1)
  }

  /** Calls still needed, not counting those whose publish is dropped: one a message, one a chunk, one a category,
      one to begin and one to end. */
  function Work(p: Plan, w: Walk): nat {
    |Left(p, w)| + OverheadLeft(p, w)
  }

  /** The call finds a message to publish and the client drops it. */
  ghost predicate Drops(p: Plan, w: Walk, outcome: Outcome) {
    && outcome == Dropped && w.stage == Discovering && w.category < |p.categories|
    && Applies(p, p.categories[w.category].name) && w.chunk < |p.categories[w.category].chunks|
    && p.categories[w.category].chunks[w.chunk].Some?
    && NextHit(p, p.categories[w.category].chunks[w.chunk].value, Here(w), w.scratch).Hit?
  }

  /** A call handles one message, or does one piece of overhead, or is spent on a dropped publish. */
  lemma CallDoesOneThing(p: Plan, w: Walk, outcome: Outcome)
    requires Fine(p, w) && w.stage != Complete && w.stage != Idle && Call(p, w, outcome).stage != Failed
    ensures var v := Call(p, w, outcome);
            |v.handled| + OverheadLeft(p, w)
            == |w.handled| + OverheadLeft(p, v) + if Drops(p, w, outcome) then 0 else 1
  {
    hide NextHit, Applies, Repeats;
    if w.stage == Discovering && w.category < |p.categories| {
      assert Overhead(p, w.category + 1) == OverheadLeft(p, NextCategory(w));
    }
  }

  /** A dropped publish costs a call and changes nothing that matters; every other call does its share. */
  lemma CallWorks(p: Plan, w: Walk, outcome: Outcome)
    requires Fine(p, w) && w.stage != Idle
    ensures Work(p, w) == 0 <==> w.stage == Complete
    ensures w.stage != Complete && Call(p, w, outcome).stage != Failed ==>
              Work(p, Call(p, w, outcome)) == Work(p, w) - if Drops(p, w, outcome) then 0 else 1
  {
    CompleteHasNoWork(p, w);
    if w.stage != Complete && Call(p, w, outcome).stage != Failed {
      hide Left, Call, Fine, OverheadLeft, Drops;
      CallStaysFine(p, w, outcome);
      CallDoesOneThing(p, w, outcome);
      var v := Call(p, w, outcome);
      assert |MessagesOf(v.handled) + Left(p, v)| == |MessagesOf(w.handled) + Left(p, w)|;
    }
  }

  lemma CompleteHasNoWork(p: Plan, w: Walk)
    requires Fine(p, w) && w.stage != Idle
    ensures OverheadLeft(p, w) == 0 <==> w.stage == Complete
    ensures w.stage == Complete ==> Left(p, w) == []
  {
  }

  ghost function DropCount(p: Plan, w: Walk, outcomes: seq<Outcome>): nat
    decreases |outcomes|
  {
    if outcomes == [] then 0
    else (if Drops(p, w, outcomes[0]) then 1 else 0) + DropCount(p, Call(p, w, outcomes[0]), outcomes[1..])
  }

  lemma CallNeverIdles(p: Plan, w: Walk, outcome: Outcome)
    requires w.stage != Idle
    ensures Call(p, w, outcome).stage != Idle
  {
    hide NextHit, Applies;
  }

  lemma {:induction false} CallsWork(p: Plan, w: Walk, outcomes: seq<Outcome>)
    requires Fine(p, w) && Decompresses(p) && w.stage != Idle
    ensures Calls(p, w, outcomes).stage == Complete <==> |outcomes| - DropCount(p, w, outcomes) >= Work(p, w)
    decreases |outcomes|
  {
    hide Fine, Work, Call, Drops, Decompresses;
    CallWorks(p, w, Sent);
    if outcomes != [] {
      CallWorks(p, w, outcomes[0]);
      CallStaysFine(p, w, outcomes[0]);
      CallNeverIdles(p, w, outcomes[0]);
      CallsWork(p, Call(p, w, outcomes[0]), outcomes[1..]);
      if w.stage == Complete { CompleteStays(p, w, outcomes); }
    }
  }

  lemma {:induction false} CompleteStays(p: Plan, w: Walk, outcomes: seq<Outcome>)
    requires w.stage == Complete
    ensures Calls(p, w, outcomes) == w && DropCount(p, w, outcomes) == 0
    decreases |outcomes|
  {
    if outcomes != [] { CompleteStays(p, w, outcomes[1..]); }
  }

  ghost predicate AllSent(handled: seq<Handled>) {
    forall i | 0 <= i < |handled| :: handled[i].sent
  }

  /** With a client present throughout, whatever is handled was accepted by it. */
  lemma {:induction false} NothingSkipped(p: Plan, w: Walk, outcomes: seq<Outcome>)
    requires NoClient !in outcomes && AllSent(w.handled)
    ensures AllSent(Calls(p, w, outcomes).handled)
    decreases |outcomes|
  {
    if outcomes != [] {
      hide NextHit, Applies;
      assert outcomes[0] in outcomes;
      NothingSkipped(p, Call(p, w, outcomes[0]), outcomes[1..]);
    }
  }

  /** What the walk has passed has decompressed. */
  ghost predicate Passed(p: Plan, w: Walk) {
    (w.stage == Discovering || w.stage == Complete) ==>
      && (forall c, k | 0 <= c < |p.categories| && Applies(p, p.categories[c].name) && 0 <= k < |p.categories[c].chunks|
                        && (c < w.category || (c == w.category && k < w.chunk)) :: p.categories[c].chunks[k].Some?)
      && (w.stage == Complete ==> w.category >= |p.categories|)
  }

  lemma CallPasses(p: Plan, w: Walk, outcome: Outcome)
    requires Passed(p, w)
    ensures Passed(p, Call(p, w, outcome))
  {
    hide Applies, NextHit;
  }

  lemma {:induction false} CallsPass(p: Plan, w: Walk, outcomes: seq<Outcome>)
    requires Passed(p, w)
    ensures Passed(p, Calls(p, w, outcomes))
    decreases |outcomes|
  {
    hide Passed, Call;
    if outcomes != [] {
      CallPasses(p, w, outcomes[0]);
      CallsPass(p, Call(p, w, outcomes[0]), outcomes[1..]);
    }
  }

  lemma CompleteDecompresses(p: Plan, w: Walk)
    requires Passed(p, w) && w.stage == Complete
    ensures Decompresses(p)
  {
    hide Applies;
  }

  lemma BegunPasses(p: Plan, s: Scratch)
    ensures Passed(p, Begun(s))
  {
  }

  /** The one-message-per-call walk refines the nested loop. Whatever publishes are dropped and retried, whenever
      there is no client, and even if a chunk turns out not to decompress, what has been handled is at every moment a
      beginning of what the nested loop over the needed categories publishes; it is all of it when the walk is complete, and with a client
      present throughout all of it was accepted. If the chunks decompress, the walk completes exactly when as many
      calls as the work requires were not spent on dropped publishes. */
  lemma WalkRefinesNestedLoop(p: Plan, s: Scratch, outcomes: seq<Outcome>)
    requires Repeats(p)
    ensures var w := Calls(p, Begun(s), outcomes);
            var all := AllOf(p, Among(p.categories, Needed(p)), p.begin(s)).messages;
            && MessagesOf(w.handled) <= all
            && (w.stage == Complete ==> MessagesOf(w.handled) == all && Decompresses(p))
            && (NoClient !in outcomes ==> AllSent(w.handled))
            && (Decompresses(p) ==>
                  && w.stage != Failed
                  && (w.stage == Complete <==> |outcomes| - DropCount(p, Begun(s), outcomes) >= Work(p, Begun(s))))
  {
    hide *;
    var w := Calls(p, Begun(s), outcomes);
    WalkBegins(p, s);
    OnlyNeeded(p, p.categories, p.begin(s));
    CallsConserve(p, Begun(s), outcomes);
    if Decompresses(p) { CallsWork(p, Begun(s), outcomes); }
    if NoClient !in outcomes { NothingSkipped(p, Begun(s), outcomes); }
    BegunPasses(p, s);
    CallsPass(p, Begun(s), outcomes);
    if w.stage == Complete {
      CompleteHasNoWork(p, w);
      CompleteDecompresses(p, w);
    }
  }

  lemma WalkBegins(p: Plan, s: Scratch)
    ensures Begun(s).stage != Idle && AllSent(Begun(s).handled) && (Repeats(p) ==> Fine(p, Begun(s)))
    ensures MessagesOf(Begun(s).handled) + Left(p, Begun(s)) == Everything(p, p.categories, p.begin(s)).messages
  {
    InCategoriesAreEverything(p, 0, p.begin(s));
    assert p.categories[0..] == p.categories;
    hide InCategories, Everything, Repeats;
  }

  /** The number of calls a walk takes when nothing is dropped: one a message of the nested loop, one for each chunk of
      an applicable category, one a category, and two. */
  lemma WorkCountsMessages(p: Plan, s: Scratch)
    ensures Work(p, Begun(s))
         == |Everything(p, p.categories, p.begin(s)).messages| + ChunkCount(p, 0) + |p.categories| + 2
  {
    InCategoriesAreEverything(p, 0, p.begin(s));
    assert p.categories[0..] == p.categories;
    OverheadCounts(p, 0);
    hide InCategories, Everything, Overhead, ChunkCount;
  }

  lemma {:induction false} OverheadCounts(p: Plan, c: nat)
    requires c <= |p.categories|
    ensures Overhead(p, c) == ChunkCount(p, c) + (|p.categories| - c) + 1
    decreases |p.categories| - c
  {
    if c < |p.categories| { OverheadCounts(p, c + 1); }
  }

  function ChunkCount(p: Plan, c: nat): nat
    decreases |p.categories| - c
  {
    if c >= |p.categories| then 0
    else (if Applies(p, p.categories[c].name) then |p.categories[c].chunks| else 0) + ChunkCount(p, c + 1)
  }
}
