/** The indexer's side of the embedding space: the batch loop, the swap, and the reconcile decision. */
module EmbeddingIndexer {

  import opened Wrappers
  import opened Ordering
  import opened EmbeddingSpace
  import opened EmbeddingRuns

  /** What the provider does with a batch. */
  datatype Answer = Delivered | ProviderError | WrongCount | WrongDim

  datatype Failure = DimMismatch | Embed

  datatype Outcome =
    | Recorded
    | Unchanged
    | Repaired(blocks: nat)
    | Reembedded(from: Option<string>, blocks: nat)
    | KeptWhileDegraded(recorded: string)

  /** The provider delivers every request before the i-th and fails that one, for this reason. */
  ghost predicate FailsAt(answers: nat -> Answer, i: nat, error: Failure) {
    && (forall j: nat :: j < i ==> answers(j) == Delivered)
    && answers(i) != Delivered && (error == DimMismatch <==> answers(i) == WrongDim)
  }

  function Ids(batch: seq<Block>): seq<string> {
    seq(|batch|, i requires 0 <= i < |batch| => batch[i].id)
  }

  /** `staging` still holds all of `kept`, and everything in `paid` on top of it, each paid for once. */
  ghost predicate Extends(kept: map<string, Staged>, staging: map<string, Staged>, paid: seq<string>) {
    && (forall id :: id in kept ==> id in staging && staging[id] == kept[id])
    && (forall id :: id in paid ==> id in staging && id !in kept)
    && Distinct(paid)
  }

  lemma ExtendsBatch(kept: map<string, Staged>, staging: map<string, Staged>, staging': map<string, Staged>,
                     paid: seq<string>, batch: seq<Block>)
    requires Extends(kept, staging, paid) && Keyed(batch)
    requires forall b :: b in batch ==> b.id !in staging && b.id in staging'
    requires forall id :: id in staging ==> id in staging' && staging'[id] == staging[id]
    ensures Extends(kept, staging', paid + Ids(batch))
  {
    var ids := Ids(batch);
    forall i | 0 <= i < |ids| ensures ids[i] !in staging && ids[i] in staging' {
      assert batch[i] in batch;
    }
  }

  function StagedIn(staging: map<string, Staged>): Block -> bool { (b: Block) => b.id in staging }

  lemma {:induction false} RunThen(w: World, s: State, events: seq<Event>, e: Event)
    ensures Run(w, s, events + [e]) == Step(w, Run(w, s, events), e)
    decreases |events|
  {
    if events == [] {
      assert [] + [e] == [e] && [e][1..] == [];
    } else {
      assert (events + [e])[1..] == events[1..] + [e];
      RunThen(w, Step(w, s, events[0]), events[1..], e);
    }
  }

  lemma FinishRuns(w: World, s: State, events: seq<Event>, t: Tables, active: string, live: string, onlyZero: bool, clearChat: bool)
    requires Run(w, s, events) == State(t, active, Pass(live, onlyZero, clearChat)) && NextBatch(t, onlyZero) == []
    ensures Run(w, s, events + [Finish]) == State(Swap(t, live, clearChat), live, Idle)
  {
    RunThen(w, s, events, Finish);
  }

  lemma SwapKeepsTexts(blocks: seq<Block>, staging: map<string, Staged>)
    ensures SameTexts(SwapBlocks(blocks, staging), blocks)
  {}

  /** `after` is `before` with exactly `n` blocks' vectors replaced by staged ones. */
  ghost predicate CountedSwap(before: seq<Block>, after: seq<Block>, n: nat) {
    exists staging :: after == SwapBlocks(before, staging) && n == |Filter(before, StagedIn(staging))|
  }

  /** Nothing staged, nothing swapped; everything staged, everything counted. */
  lemma {:induction false} SwapCounts(blocks: seq<Block>, staging: map<string, Staged>)
    ensures |Filter(blocks, StagedIn(staging))| <= |blocks|
    ensures |Filter(blocks, StagedIn(staging))| == 0 ==> SwapBlocks(blocks, staging) == blocks
    ensures (forall b :: b in blocks ==> b.id in staging) ==> |Filter(blocks, StagedIn(staging))| == |blocks|
  {
    if blocks != [] {
      SwapCounts(blocks[1..], staging);
      assert SwapBlocks(blocks, staging)[1..] == SwapBlocks(blocks[1..], staging);
      assert blocks == [blocks[0]] + blocks[1..];
      assert SwapBlocks(blocks, staging) == [Swapped(blocks[0], staging)] + SwapBlocks(blocks[1..], staging);
    }
  }

  function Cleaned(w: World, before: Tables, live: string): Tables { before.(staging := CleanStaging(w, before, live)) }

  /** What holds at every batch of a pass that began over `before`. */
  ghost predicate UnderWay(w: World, before: Tables, t: Tables, active: string, pass: Phase, paid: seq<string>, events: seq<Event>)
    requires pass.Pass?
  {
    && Inv(w, State(t, active, Idle)) && StagedFor(w, t, pass.live)
    && Extends(CleanStaging(w, before, pass.live), t.staging, paid) && CleanStaging(w, t, pass.live) == t.staging
    && Run(w, State(Cleaned(w, before, pass.live), active, pass), events) == State(t, active, pass)
  }

  lemma BeginsUnderWay(w: World, t: Tables, active: string, pass: Phase)
    requires pass.Pass? && Inv(w, State(t, active, Idle))
    ensures UnderWay(w, t, Cleaned(w, t, pass.live), active, pass, [], [])
  {
    CleanKeepsGood(w, t, pass.live);
  }

  lemma DeliveredInv(w: World, t: Tables, active: string, pass: Phase, t': Tables)
    requires pass.Pass? && Inv(w, State(t, active, Idle)) && StagedFor(w, t, pass.live)
    requires t' == t.(staging := StageAll(w, t.staging, pass.live, NextBatch(t, pass.onlyZero)))
    ensures Inv(w, State(t', active, Idle)) && StagedFor(w, t', pass.live)
  {
    BatchKeeps(w, t, pass.live, pass.onlyZero);
  }

  lemma DeliveredExtends(w: World, kept: map<string, Staged>, t: Tables, pass: Phase, paid: seq<string>)
    requires pass.Pass? && Lawful(w) && Keyed(t.blocks) && Honest(w, t.staging) && StagedFor(w, t, pass.live)
    requires Extends(kept, t.staging, paid)
    ensures
      var batch := NextBatch(t, pass.onlyZero);
      Extends(kept, StageAll(w, t.staging, pass.live, batch), paid + Ids(batch))
  {
    var batch := NextBatch(t, pass.onlyZero);
    BatchKeeps(w, t, pass.live, pass.onlyZero);
    BatchMembers(t, pass.onlyZero);
    ExtendsBatch(kept, t.staging, StageAll(w, t.staging, pass.live, batch), paid, batch);
  }

  lemma DeliveredKeeps(w: World, before: Tables, t: Tables, active: string, pass: Phase, paid: seq<string>, events: seq<Event>, t': Tables)
    requires pass.Pass? && UnderWay(w, before, t, active, pass, paid, events)
    requires t' == t.(staging := StageAll(w, t.staging, pass.live, NextBatch(t, pass.onlyZero)))
    ensures UnderWay(w, before, t', active, pass, paid + Ids(NextBatch(t, pass.onlyZero)), events + [Batch(true)])
  {
    RunThen(w, State(Cleaned(w, before, pass.live), active, pass), events, Batch(true));
    DeliveredInv(w, t, active, pass, t');
    DeliveredExtends(w, CleanStaging(w, before, pass.live), t, pass, paid);
    ResumeKeepsAll(w, t, pass.live, pass.onlyZero);
  }

  /** `n` delivered batches. */
  function Batches(n: nat): seq<Event> { if n == 0 then [] else Batches(n - 1) + [Batch(true)] }

  /** The blocks they pay for. */
  function PaidFor(w: World, s: State, n: nat): seq<string>
    requires s.phase.Pass?
  {
    if n == 0 then [] else PaidFor(w, s, n - 1) + Ids(NextBatch(Run(w, s, Batches(n - 1)).tables, s.phase.onlyZero))
  }

  lemma {:induction false} AfterBatches(w: World, before: Tables, active: string, pass: Phase, n: nat)
    requires pass.Pass? && Inv(w, State(before, active, Idle))
    ensures
      var s := State(Cleaned(w, before, pass.live), active, pass);
      var t := Run(w, s, Batches(n)).tables;
      UnderWay(w, before, t, active, pass, PaidFor(w, s, n), Batches(n))
  {
    if n == 0 {
      BeginsUnderWay(w, before, active, pass);
    } else {
      AfterBatches(w, before, active, pass, n - 1);
      var s := State(Cleaned(w, before, pass.live), active, pass);
      var t := Run(w, s, Batches(n - 1)).tables;
      RunThen(w, s, Batches(n - 1), Batch(true));
      DeliveredKeeps(w, before, t, active, pass, PaidFor(w, s, n - 1), Batches(n - 1),
                     t.(staging := StageAll(w, t.staging, pass.live, NextBatch(t, pass.onlyZero))));
    }
  }

  /**
   How a pass over `pass.live` ends: what is staged is the cleaned table and everything paid for, nothing
   still good is lost or paid for again, on success no block is left, on failure the provider failed the next
   request for that reason; and it is a run of the machine's batch steps.
   */
  ghost predicate PassEnds(w: World, answers: nat -> Answer, before: Tables, active: string, pass: Phase,
                           after: Tables, r: Result<(), Failure>, paid: seq<string>, events: seq<Event>)
    requires pass.Pass?
  {
    && StagedFor(w, after, pass.live)
    && Extends(CleanStaging(w, before, pass.live), after.staging, paid) && CleanStaging(w, after, pass.live) == after.staging
    && (r.Ok? ==> NextBatch(after, pass.onlyZero) == [])
    && (r.Err? ==> exists i :: FailsAt(answers, i, r.error))
    && Run(w, State(Cleaned(w, before, pass.live), active, pass), events) == State(after, active, if r.Ok? then pass else Idle)
  }

  lemma DoneEnds(w: World, before: Tables, t: Tables, active: string, pass: Phase, n: nat, answers: nat -> Answer)
    requires pass.Pass? && Inv(w, State(before, active, Idle)) && NextBatch(t, pass.onlyZero) == []
    requires Run(w, State(Cleaned(w, before, pass.live), active, pass), Batches(n)) == State(t, active, pass)
    ensures Inv(w, State(t, active, Idle))
    ensures PassEnds(w, answers, before, active, pass, t, Ok(()),
                     PaidFor(w, State(Cleaned(w, before, pass.live), active, pass), n), Batches(n))
  {
    AfterBatches(w, before, active, pass, n);
  }

  /** The failed request ends the run of the pass. */
  lemma FailedEnds(w: World, before: Tables, t: Tables, active: string, pass: Phase, n: nat, answers: nat -> Answer, error: Failure)
    requires pass.Pass? && Inv(w, State(before, active, Idle)) && NextBatch(t, pass.onlyZero) != []
    requires Run(w, State(Cleaned(w, before, pass.live), active, pass), Batches(n)) == State(t, active, pass)
    requires answers(n) != Delivered && forall j: nat :: j < n ==> answers(j) == Delivered
    requires error == if answers(n) == WrongDim then DimMismatch else Embed
    ensures Inv(w, State(t, active, Idle))
    ensures PassEnds(w, answers, before, active, pass, t, Err(error),
                     PaidFor(w, State(Cleaned(w, before, pass.live), active, pass), n), Batches(n) + [Batch(false)])
  {
    AfterBatches(w, before, active, pass, n);
    RunThen(w, State(Cleaned(w, before, pass.live), active, pass), Batches(n), Batch(false));
    assert FailsAt(answers, n, error);
  }

  class Indexer {
    const world: World
    var blocks: seq<Block>
    var record: Option<string>
    var staging: map<string, Staged>
    var chat: map<(string, string), Message>
    /** The model new writes and queries are embedded with. */
    var active: string

    ghost function Contents(): Tables
      reads this
    {
      Tables(blocks, record, staging, chat)
    }

    /** The active model is the placeholder or the recorded one, and the stored vectors agree. */
    ghost predicate Valid()
      reads this
    {
      Inv(world, State(Contents(), active, Idle))
    }

    constructor (world: World)
      requires Lawful(world)
      ensures Valid() && this.world == world && active == DEGRADED
      ensures Contents() == Tables([], None, map[], map[])
    {
      this.world := world;
      blocks, record, staging, chat, active := [], None, map[], map[], DEGRADED;
    }

    /**
     Stage vectors for `live` batch by batch. `answers(i)` is what the provider does with the i-th
     request; `paid` lists the blocks whose vectors were delivered. Whether it ends in success or in
     a failure, only the staging table has changed; nothing still good for this target is lost or
     paid for again, and no block is paid for twice.
     */
    method StageAllBlocks(live: string, onlyZero: bool, ghost clearChat: bool, answers: nat -> Answer)
      returns (r: Result<(), Failure>, ghost paid: seq<string>, ghost events: seq<Event>)
      requires Valid()
      modifies this`staging
      ensures Valid()
      ensures PassEnds(world, answers, old(Contents()), active, Pass(live, onlyZero, clearChat), Contents(), r, paid, events)
    {
      ghost var pass, before := Pass(live, onlyZero, clearChat), Contents();
      staging := CleanStaging(world, Tables(blocks, record, staging, chat), live);
      var t := Tables(blocks, record, staging, chat);
      ghost var start := State(t, active, pass);
      var request: nat := 0;
      while true
        invariant t == Contents() && Run(world, start, Batches(request)) == State(t, active, pass)
        invariant forall j: nat :: j < request ==> answers(j) == Delivered
        decreases |Unstaged(t, onlyZero)|
      {
        var batch := NextBatch(t, onlyZero);
        if batch == [] {
          DoneEnds(world, before, t, active, pass, request, answers);
          return Ok(()), PaidFor(world, start, request), Batches(request);
        }
        var answer := answers(request);
        if answer != Delivered {
          var error := if answer == WrongDim then DimMismatch else Embed;
          FailedEnds(world, before, t, active, pass, request, answers, error);
          return Err(error), PaidFor(world, start, request), Batches(request) + [Batch(false)];
        }
        RunThen(world, start, Batches(request), Batch(true));
        BatchProgress(world, t, live, onlyZero);
        t := t.(staging := StageAll(world, staging, live, batch));
        staging := t.staging;
        request := request + 1;
      }
    }

    /** Swap the staged vectors in, record the space and reset chat, in one transaction; then activate. */
    method SwapIn(live: string, onlyZero: bool, clearChat: bool) returns (swapped: nat)
      requires Valid() && live != DEGRADED && StagedFor(world, Contents(), live)
      requires NextBatch(Contents(), onlyZero) == []
      requires onlyZero ==> record == Some(live)
      requires !onlyZero ==> clearChat
      modifies this
      ensures Valid() && active == live
      ensures Contents() == Swap(old(Contents()), live, clearChat)
      ensures !onlyZero ==> forall b :: b in blocks ==> b.vec == Some(world.embed(live, EmbedText(b)))
      ensures forall b :: b in blocks && NoVector(b) ==> b.vec == Some(world.embed(live, EmbedText(b)))
      ensures swapped == |Filter(old(blocks), StagedIn(old(staging)))|
      ensures swapped == 0 ==> blocks == old(blocks)
      ensures !onlyZero ==> swapped == |blocks|
      ensures SameTexts(blocks, old(blocks)) && SameMessages(chat, old(chat))
      ensures clearChat ==> forall k :: k in chat ==> chat[k].vec == None
      ensures !clearChat ==> chat == old(chat)
    {
      SwapKeepsTexts(blocks, staging);
      ClearChatKeeps(chat);
      SwapFits(world, Contents(), live, onlyZero, clearChat);
      swapped := |Filter(blocks, StagedIn(staging))|;
      SwapCounts(blocks, staging);
      BatchMembers(Contents(), onlyZero);
      blocks := SwapBlocks(blocks, staging);
      record, staging := Some(live), map[];
      if clearChat {
        chat := ClearChat(chat);
      }
      active := live;
    }

    /** A whole pass: all staged and swapped, or, on a failure, nothing changed but the staging table. */
    method Reembed(live: string, onlyZero: bool, clearChat: bool, answers: nat -> Answer)
      returns (r: Result<nat, Failure>, ghost paid: seq<string>, ghost events: seq<Event>)
      requires Valid() && live != DEGRADED
      requires onlyZero ==> record == Some(live)
      requires !onlyZero ==> clearChat
      modifies this
      ensures Valid()
      ensures r.Err? ==> blocks == old(blocks) && record == old(record) && chat == old(chat) && active == old(active)
      ensures r.Err? ==> Extends(CleanStaging(world, old(Contents()), live), staging, paid)
      ensures r.Err? ==> CleanStaging(world, Contents(), live) == staging
      ensures forall id :: id in paid ==> id !in CleanStaging(world, old(Contents()), live)
      ensures r.Ok? ==> record == Some(live) && active == live && staging == map[]
      ensures SameTexts(blocks, old(blocks)) && SameMessages(chat, old(chat))
      ensures r.Ok? && !onlyZero ==> forall b :: b in blocks ==> b.vec == Some(world.embed(live, EmbedText(b)))
      ensures r.Ok? ==> forall b :: b in blocks && NoVector(b) ==> b.vec == Some(world.embed(live, EmbedText(b)))
      ensures r.Ok? && !clearChat ==> chat == old(chat)
      ensures r.Ok? && clearChat ==> forall k :: k in chat ==> chat[k].vec == None
      ensures r.Err? ==> exists i :: FailsAt(answers, i, r.error)
      ensures r.Ok? && !onlyZero ==> r.value == |blocks|
      ensures r.Ok? ==> CountedSwap(old(blocks), blocks, r.value)
      ensures r.Ok? && r.value == 0 ==> blocks == old(blocks)
      ensures
        var cleaned := old(Contents()).(staging := CleanStaging(world, old(Contents()), live));
        Run(world, State(cleaned, old(active), Pass(live, onlyZero, clearChat)), events) == State(Contents(), active, Idle)
    {
      var staged;
      staged, paid, events := StageAllBlocks(live, onlyZero, clearChat, answers);
      if staged.Err? {
        return Err(staged.error), paid, events;
      }
      ghost var cleaned := old(Contents()).(staging := CleanStaging(world, old(Contents()), live));
      FinishRuns(world, State(cleaned, active, Pass(live, onlyZero, clearChat)), events, Contents(), active,
                 live, onlyZero, clearChat);
      events := events + [Finish];
      SwapKeepsTexts(blocks, staging);
      var n := SwapIn(live, onlyZero, clearChat);
      assert CountedSwap(old(blocks), blocks, n);
      return Ok(n), paid, events;
    }

    /** Bring the index into the target's space, then activate it. On error nothing is activated. */
    method Reconcile(live: string, dimFits: bool, answers: nat -> Answer)
      returns (r: Result<Outcome, Failure>, ghost events: seq<Event>)
      requires Valid()
      modifies this
      ensures Valid()
      ensures !dimFits ==> r == Err(DimMismatch) && Contents() == old(Contents()) && active == old(active)
      ensures r.Err? ==> blocks == old(blocks) && record == old(record) && chat == old(chat) && active == old(active)
      ensures SameTexts(blocks, old(blocks)) && SameMessages(chat, old(chat))
      ensures dimFits && r.Err? ==> exists i :: FailsAt(answers, i, r.error)
      // Which of the outcomes it is.
      ensures r.Ok? && live == DEGRADED ==>
                r.value == match old(record) case None => Recorded case Some(m) => if m == DEGRADED then Unchanged else KeptWhileDegraded(m)
      ensures r.Ok? && live != DEGRADED ==>
                && (r.value.Unchanged? || r.value.Repaired? <==> old(record) == Some(live))
                && (r.value.Recorded? <==> old(record).None? && forall b :: b in old(blocks) ==> b.vec.None?)
                && (r.value.Reembedded? ==> r.value.from == old(record))
                && !r.value.KeptWhileDegraded?
      ensures r.Ok? ==> active == live
      // A degraded target never rewrites vectors; a real one always ends recorded.
      ensures r.Ok? && live == DEGRADED ==> blocks == old(blocks) && chat == old(chat) && record.Some?
      ensures r.Ok? && live == DEGRADED && old(record.Some?) ==> record == old(record)
      ensures r.Ok? && live != DEGRADED ==> record == Some(live)
      ensures r.Ok? && r.value.Reembedded? ==>
                && old(record) != Some(live)
                && (forall b :: b in blocks ==> b.vec == Some(world.embed(live, EmbedText(b))))
                && (forall k :: k in chat ==> chat[k].vec.None?)
      ensures r.Ok? && r.value.Unchanged? ==> old(record) == Some(live)
      ensures r.Ok? && r.value.Recorded? ==> old(record).None? && blocks == old(blocks)
      // The counts it reports, and the run of the step machine it is.
      ensures r.Ok? && r.value.Unchanged? ==> blocks == old(blocks)
      ensures r.Ok? && r.value.Repaired? ==> r.value.blocks > 0 && CountedSwap(old(blocks), blocks, r.value.blocks)
      ensures r.Ok? && r.value.Reembedded? ==> r.value.blocks == |blocks|
      ensures Run(world, State(old(Contents()), old(active), Idle), events) == State(Contents(), active, Idle)
    {
      events := [Start(live, dimFits)];
      ghost var begun := Step(world, State(Contents(), active, Idle), Start(live, dimFits));
      assert events[1..] == [] && Run(world, begun, []) == begun;
      if !dimFits {
        return Err(DimMismatch), events;
      }
      if live == DEGRADED {
        active := live;
        match record
        case Some(model) =>
          return Ok(if model == DEGRADED then Unchanged else KeptWhileDegraded(model)), events;
        case None =>
          record := Some(live);
          return Ok(Recorded), events;
      }
      if record == Some(live) {
        var done;
        ghost var paid, rest;
        done, paid, rest := Reembed(live, true, false, answers);
        events := events + rest;
        assert events[1..] == rest;
        match done
        case Err(e) => return Err(e), events;
        case Ok(n) => return Ok(if n == 0 then Unchanged else Repaired(n)), events;
      }
      if record.None? && !HasVectors(blocks) {
        record, active := Some(live), live;
        return Ok(Recorded), events;
      }
      var from := record;
      var done;
      ghost var paid, rest;
      done, paid, rest := Reembed(live, false, true, answers);
      events := events + rest;
      assert events[1..] == rest;
      match done
      case Err(e) => return Err(e), events;
      case Ok(n) => return Ok(Reembedded(from, n)), events;
    }

    /** A chat append: the connection is held across the embedding and the insert. */
    method AppendChat(group: string, id: string, content: string, embed: bool) returns (inserted: bool)
      requires Valid()
      modifies this`chat
      ensures Valid()
      ensures inserted <==> (group, id) !in old(chat)
      ensures !inserted ==> chat == old(chat)
      ensures State(Contents(), active, Idle) == Step(world, old(State(Contents(), active, Idle)), Chat(group, id, content, embed))
      ensures inserted ==> chat == old(chat)[(group, id) := Message(content, if embed then Some(world.embed(active, content)) else None)]
    {
      if (group, id) in chat {
        return false;
      }
      chat := chat[(group, id) := Message(content, if embed then Some(world.embed(active, content)) else None)];
      return true;
    }
  }
}
