/** The discovery publisher as the firmware runs it: run() advances the saved position through nested loops and
    returns after one publish. */
module DiscoveryManagers {
  import opened Common
  import opened DiscoverySpec

  const LINE_BUFFER_SIZE: nat := 18432

  class DiscoveryManager {
    const plan: Plan
    var stage: Stage
    var category: nat
    var chunk: nat
    var offset: nat
    var size: nat
    var decomp: seq<Byte>
    var scratch: Scratch
    var hasClient: bool

    /** The entities done with so far, in order. */
    ghost var handled: seq<Handled>

    ghost function Position(): Walk
      reads this
    {
      Walk(stage, category, chunk, offset, size, scratch, handled)
    }

    /** While a chunk is loaded the buffer holds it. */
    ghost predicate Valid()
      reads this
    {
      && Loaded(plan, Position())
      && (stage == Discovering && size > 0 ==> Some(decomp) == plan.categories[category].chunks[chunk])
      && (stage == Idle ==> category == 0 && chunk == 0 && offset == 0 && size == 0 && handled == [])
    }

    /** The manager is idle until it is started, and calls of run() then do nothing. */
    constructor (plan: Plan, scratch: Scratch, hasClient: bool)
      ensures Valid() && stage == Idle && this.plan == plan && this.scratch == scratch && this.hasClient == hasClient
    {
      this.plan, this.scratch, this.hasClient := plan, scratch, hasClient;
      stage, category, chunk, offset, size, decomp, handled := Idle, 0, 0, 0, 0, [], [];
    }

    /** Starts the walk at its beginning, or fails if the buffers cannot be allocated; only an idle manager starts. */
    method Start()
      requires Valid()
      modifies this`stage
      ensures Valid()
      ensures old(stage) == Idle ==> stage == Failed || Position() == Begun(scratch)
      ensures old(stage) != Idle ==> stage == old(stage)
    {
      if stage != Idle {
        return;
      }
      var enoughHeap: bool := *;
      stage := if enoughHeap then Building else Failed;
    }

    /** Without a client the entity is skipped; with one it is accepted or dropped. */
    method Publish(m: Message) returns (outcome: Outcome)
      modifies this`handled
      ensures outcome == NoClient <==> !hasClient
      ensures handled == if outcome == Dropped then old(handled) else old(handled) + [Handled(m, outcome == Sent)]
    {
      if !hasClient {
        outcome := NoClient;
      } else {
        var accepted: bool := *;
        outcome := if accepted then Sent else Dropped;
      }
      if outcome != Dropped {
        handled := handled + [Handled(m, outcome == Sent)];
      }
    }

    method FindLineEnd(start: nat) returns (e: nat)
      requires start <= |decomp|
      ensures e == LineEnd(decomp, start)
    {
      e := start;
      while e < |decomp| && !IsSeparator(decomp[e])
        invariant start <= e <= |decomp| && LineEnd(decomp, start) == LineEnd(decomp, e)
      {
        e := e + 1;
      }
    }

    /** The innermost loop: skips lines that render to nothing and publishes the first that does not. */
    method ScanChunk() returns (outcome: Outcome, done: bool)
      requires size == |decomp| && stage == Discovering
      modifies this`offset, this`scratch, this`handled
      ensures outcome == NoClient ==> !hasClient
      ensures var hit := NextHit(plan, decomp, old(offset), old(scratch));
              && done == hit.NoHit? && scratch == hit.scratch
              && (hit.NoHit? ==> handled == old(handled))
              && (hit.Hit? ==>
                    && offset == (if outcome == Dropped then hit.at else hit.next)
                    && handled == if outcome == Dropped then old(handled)
                                  else old(handled) + [Handled(hit.message, outcome == Sent)])
    {
      hide LineEnd, NextHit, Cut;
      outcome := Sent;
      while offset < size
        invariant handled == old(handled)
        invariant NextHit(plan, decomp, old(offset), old(scratch)) == NextHit(plan, decomp, offset, scratch)
        decreases size - offset
      {
        NextHitUnfold(plan, decomp, offset, scratch);
        var lineEnd := FindLineEnd(offset);
        if lineEnd == offset {
          offset := offset + 1;
          continue;
        }
        var lineLen := lineEnd - offset;
        if lineLen >= LINE_BUFFER_SIZE - 1 {
          lineLen := LINE_BUFFER_SIZE - 1;
        }
        var line := decomp[offset..offset + lineLen];
        CutLine(decomp, offset, lineEnd);
        var rendering := plan.render(line, scratch);
        scratch := rendering.scratch;
        if rendering.message.Some? {
          outcome := Publish(rendering.message.value);
          if outcome == Dropped {
            return outcome, false;
          }
          offset := lineEnd + 1;
          return outcome, false;
        }
        offset := lineEnd + 1;
      }
      NextHitUnfold(plan, decomp, offset, scratch);
      return Sent, true;
    }

    /** One call of run() is one step of the walk; nothing is skipped while there is a client. */
    method Run() returns (outcome: Outcome)
      requires Valid()
      modifies this`stage, this`category, this`chunk, this`offset, this`size, this`decomp, this`scratch, this`handled
      ensures Valid() && Position() == Call(plan, old(Position()), outcome)
      ensures outcome == NoClient ==> !hasClient
    {
      outcome := Sent;
      if stage != Building && stage != Discovering {
        return;
      }
      if stage == Building {
        stage, category, chunk, offset, size := Discovering, 0, 0, 0, 0;
        scratch := plan.begin(scratch);
        return;
      }
      if category >= |plan.categories| {
        stage := Complete;
        return;
      }
      if !Applies(plan, plan.categories[category].name) {
        category, chunk, offset, size := category + 1, 0, 0, 0;
        return;
      }
      if size == 0 {
        if chunk >= |plan.categories[category].chunks| {
          category, chunk, offset, size := category + 1, 0, 0, 0;
          return;
        }
        var bytes := plan.categories[category].chunks[chunk];
        if bytes.None? {
          stage := Failed;
          return;
        }
        decomp, size, offset := bytes.value, |bytes.value|, 0;
      }
      hide NextHit, Applies;
      var done;
      outcome, done := ScanChunk();
      if done {
        chunk, offset, size := chunk + 1, 0, 0;
      }
    }
  }

  lemma NextHitUnfold(p: Plan, bytes: seq<Byte>, from: nat, s: Scratch)
    ensures NextHit(p, bytes, from, s) ==
            if from >= |bytes| then NoHit(s)
            else
              var e := LineEnd(bytes, from);
              if e == from then NextHit(p, bytes, from + 1, s)
              else
                var r := p.render(Cut(bytes[from..e], LINE_MAX), s);
                if r.message.Some? then Hit(from, r.message.value, e + 1, r.scratch)
                else NextHit(p, bytes, e + 1, r.scratch)
  {
  }

  lemma CutLine(bytes: seq<Byte>, from: nat, e: nat)
    requires from <= e <= |bytes|
    ensures Cut(bytes[from..e], LINE_MAX) == bytes[from..from + Min(e - from, LINE_MAX)]
  {
  }
}
