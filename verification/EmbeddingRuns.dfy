/**
 The embedding space over every run: reconciles to any targets broken off at any batch, chat appends
 between any two steps of a reconcile, page writes, restarts.

 A page write and a reconcile exclude each other (the write lock); a chat append excludes only a
 single step (the connection lock). A restart serves nothing until its reconcile is done, and serves
 the placeholder model when that fails, so it is the placeholder followed by a reconcile.
 */
module EmbeddingRuns {

  import opened Wrappers
  import opened Ordering
  import opened EmbeddingSpace

  datatype Phase = Idle | Pass(live: string, onlyZero: bool, clearChat: bool)

  datatype State = State(tables: Tables, active: string, phase: Phase)

  datatype Event =
    | Start(live: string, dimFits: bool)
    | Batch(delivered: bool)
    | Finish
    | Chat(group: string, id: string, content: string, embed: bool)
    | DropChat(keys: set<(string, string)>)
    | WritePages(drop: set<string>, put: seq<Block>)
    | Restart

  function Begin(w: World, s: State, live: string): State {
    var t := s.tables;
    if live == DEGRADED then
      s.(active := live, tables := if t.record.None? then t.(record := Some(live)) else t)
    else if t.record == Some(live) then
      s.(tables := t.(staging := CleanStaging(w, t, live)), phase := Pass(live, true, false))
    else if t.record.None? && !HasVectors(t.blocks) then
      s.(tables := t.(record := Some(live)), active := live)
    else
      s.(tables := t.(staging := CleanStaging(w, t, live)), phase := Pass(live, false, true))
  }

  function Embedded(w: World, model: string, put: seq<Block>): seq<Block> {
    seq(|put|, i requires 0 <= i < |put| => put[i].(vec := Some(w.embed(model, EmbedText(put[i])))))
  }

  function Kept(drop: set<string>, put: seq<Block>): Block -> bool {
    (b: Block) => b.id !in drop && forall p :: p in put ==> p.id != b.id
  }

  function Step(w: World, s: State, e: Event): State {
    match e
    case Start(live, dimFits) =>
      if s.phase != Idle || !dimFits then s else Begin(w, s, live)
    case Batch(delivered) =>
      if s.phase == Idle || NextBatch(s.tables, s.phase.onlyZero) == [] then s
      else if !delivered then s.(phase := Idle)
      else
        var batch := NextBatch(s.tables, s.phase.onlyZero);
        s.(tables := s.tables.(staging := StageAll(w, s.tables.staging, s.phase.live, batch)))
    case Finish =>
      if s.phase == Idle || NextBatch(s.tables, s.phase.onlyZero) != [] then s
      else State(Swap(s.tables, s.phase.live, s.phase.clearChat), s.phase.live, Idle)
    case Chat(group, id, content, embed) =>
      if (group, id) in s.tables.chat then s
      else
        var m := Message(content, if embed then Some(w.embed(s.active, content)) else None);
        s.(tables := s.tables.(chat := s.tables.chat[(group, id) := m]))
    case DropChat(keys) =>
      s.(tables := s.tables.(chat := s.tables.chat - keys))
    case WritePages(drop, put) =>
      if s.phase != Idle || exists i, j :: 0 <= i < j < |put| && put[i].id == put[j].id then s
      else s.(tables := s.tables.(blocks := Filter(s.tables.blocks, Kept(drop, put)) + Embedded(w, s.active, put)))
    case Restart =>
      s.(active := DEGRADED, phase := Idle)
  }

  function Run(w: World, s: State, events: seq<Event>): State
    decreases |events|
  {
    if events == [] then s else Run(w, Step(w, s, events[0]), events[1..])
  }

  // ---- The invariant ----

  ghost predicate Inv(w: World, s: State) {
    && Lawful(w) && Keyed(s.tables.blocks) && Honest(w, s.tables.staging)
    && BlocksFit(w, s.tables) && ChatFits(w, s.tables)
    && (s.active == DEGRADED || s.tables.record == Some(s.active))
    && (s.phase.Pass? ==>
          && s.phase.live != DEGRADED
          && StagedFor(w, s.tables, s.phase.live)
          && (s.phase.onlyZero ==> s.tables.record == Some(s.phase.live))
          && (!s.phase.onlyZero ==> s.phase.clearChat))
  }

  lemma StartKeeps(w: World, s: State, live: string)
    requires Inv(w, s) && s.phase == Idle
    ensures Inv(w, Begin(w, s, live))
  {
    CleanKeepsGood(w, s.tables, live);
  }

  lemma WriteKeeps(w: World, s: State, drop: set<string>, put: seq<Block>)
    requires Inv(w, s) && s.phase == Idle && Keyed(put)
    ensures Inv(w, Step(w, s, WritePages(drop, put)))
  {
    var s' := Step(w, s, WritePages(drop, put));
    var old' := Filter(s.tables.blocks, Kept(drop, put));
    var new' := Embedded(w, s.active, put);
    FilterMembers(s.tables.blocks, Kept(drop, put));
    FilterDistinct(s.tables.blocks, Kept(drop, put));
    var blocks := old' + new';
    forall i, j | 0 <= i < j < |blocks| ensures blocks[i].id != blocks[j].id {
      if i < |old'| {
        assert blocks[i] == old'[i] && old'[i] in old';
        if j < |old'| {
          assert blocks[j] == old'[j] && old'[j] in old';
        } else {
          assert blocks[j].id == put[j - |old'|].id && put[j - |old'|] in put;
        }
      }
    }
    forall b | b in new' ensures b.vec == Some(w.embed(s.active, EmbedText(b))) {
      var i :| 0 <= i < |new'| && new'[i] == b;
      assert EmbedText(b) == EmbedText(put[i]);
    }
  }

  lemma StepKeeps(w: World, s: State, e: Event)
    requires Inv(w, s)
    ensures Inv(w, Step(w, s, e))
  {
    match e
    case Start(live, dimFits) =>
      if s.phase == Idle {
        StartKeeps(w, s, live);
      }
    case Batch(delivered) =>
      if s.phase != Idle {
        BatchKeeps(w, s.tables, s.phase.live, s.phase.onlyZero);
      }
    case Finish =>
      if s.phase != Idle && NextBatch(s.tables, s.phase.onlyZero) == [] {
        SwapFits(w, s.tables, s.phase.live, s.phase.onlyZero, s.phase.clearChat);
      }
    case Chat(_, _, _, _) =>
    case DropChat(_) =>
    case WritePages(drop, put) =>
      if s.phase == Idle && Keyed(put) {
        WriteKeeps(w, s, drop, put);
      }
    case Restart =>
  }

  lemma {:induction false} RunKeeps(w: World, s: State, events: seq<Event>)
    requires Inv(w, s)
    ensures Inv(w, Run(w, s, events))
    decreases |events|
  {
    if events != [] {
      StepKeeps(w, s, events[0]);
      RunKeeps(w, Step(w, s, events[0]), events[1..]);
    }
  }

  // ---- The theorems ----

  /**
   In every state of every run, under a real recorded model each block vector is absent, zero or
   that model's embedding of the block's current text, and no chat vector straddles a switch: each
   is absent, zero or that model's embedding of its message. `t` is any index a process may start
   over: its vectors agree with its record.
   */
  lemma OneSpace(w: World, t: Tables, events: seq<Event>)
    requires Lawful(w) && Keyed(t.blocks) && Honest(w, t.staging) && BlocksFit(w, t) && ChatFits(w, t)
    ensures BlocksFit(w, Run(w, State(t, DEGRADED, Idle), events).tables)
    ensures ChatFits(w, Run(w, State(t, DEGRADED, Idle), events).tables)
    ensures
      var t' := Run(w, State(t, DEGRADED, Idle), events).tables;
      t'.record.Some? && t'.record.value != "zero" ==>
        && (forall b, x :: b in t'.blocks && b.vec.Some? && x in b.vec.value && x != 0.0 ==>
              exists text :: TextIs(b, text) && b.vec.value == w.embed(t'.record.value, text))
        && (forall k, x :: k in t'.chat && t'.chat[k].vec.Some? && x in t'.chat[k].vec.value && x != 0.0 ==>
              t'.chat[k].vec.value == w.embed(t'.record.value, t'.chat[k].content))
  {
    RunKeeps(w, State(t, DEGRADED, Idle), events);
    var t' := Run(w, State(t, DEGRADED, Idle), events).tables;
    forall b ensures TextIs(b, EmbedText(b)) {
      TextMeans(b, EmbedText(b));
    }
  }

  /** No run loses or rewords a stored message, short of dropping it. */
  lemma {:induction false} MessageKept(w: World, s: State, events: seq<Event>, k: (string, string))
    requires k in s.tables.chat && forall e :: e in events && e.DropChat? ==> k !in e.keys
    ensures
      var chat := Run(w, s, events).tables.chat;
      k in chat && chat[k].content == s.tables.chat[k].content
    decreases |events|
  {
    if events != [] {
      assert events[0] in events && forall e :: e in events[1..] ==> e in events;
      MessageKept(w, Step(w, s, events[0]), events[1..], k);
    }
  }

  /** And every message it holds was there before or appended under that key with that content. */
  lemma {:induction false} MessageCame(w: World, s: State, events: seq<Event>, k: (string, string))
    requires k in Run(w, s, events).tables.chat
    ensures
      var content := Run(w, s, events).tables.chat[k].content;
      || (k in s.tables.chat && s.tables.chat[k].content == content)
      || exists e :: e in events && e.Chat? && e.group == k.0 && e.id == k.1 && e.content == content
    decreases |events|
  {
    if events != [] {
      assert events[0] in events && forall e :: e in events[1..] ==> e in events;
      MessageCame(w, Step(w, s, events[0]), events[1..], k);
    }
  }

  /** Only page writes change which blocks there are and what they say. */
  lemma {:induction false} TextsKept(w: World, s: State, events: seq<Event>)
    requires forall e :: e in events ==> !e.WritePages?
    ensures SameTexts(Run(w, s, events).tables.blocks, s.tables.blocks)
    decreases |events|
  {
    if events != [] {
      assert events[0] in events && forall e :: e in events[1..] ==> e in events;
      TextsKept(w, Step(w, s, events[0]), events[1..]);
    }
  }

  /** A page write leaves the blocks it neither drops nor replaces, and its own in the active model. */
  lemma WriteLands(w: World, s: State, drop: set<string>, put: seq<Block>, b: Block)
    requires s.phase == Idle && Keyed(put)
    ensures b in Step(w, s, WritePages(drop, put)).tables.blocks <==>
            || (b in s.tables.blocks && b.id !in drop && forall p :: p in put ==> p.id != b.id)
            || exists p :: p in put && b == p.(vec := Some(w.embed(s.active, EmbedText(p))))
  {
    FilterMembers(s.tables.blocks, Kept(drop, put));
    var new' := Embedded(w, s.active, put);
    if b in new' {
      var i :| 0 <= i < |new'| && new'[i] == b;
      assert put[i] in put;
    }
    if p :| p in put && b == p.(vec := Some(w.embed(s.active, EmbedText(p)))) {
      var i :| 0 <= i < |put| && put[i] == p;
      assert new'[i] == b;
    }
  }

  /** After a restart the placeholder serves until a reconcile is started. */
  lemma {:induction false} RestartServes(w: World, s: State, events: seq<Event>)
    requires forall e :: e in events ==> !e.Start?
    ensures
      var s' := Run(w, Step(w, s, Restart), events);
      s'.active == DEGRADED && s'.phase == Idle && s'.tables.record == s.tables.record && s'.tables.staging == s.tables.staging
    decreases |events|
  {
    if events != [] {
      var s1 := Step(w, Step(w, s, Restart), events[0]);
      assert events[0] in events && forall e :: e in events[1..] ==> e in events;
      RestartServes(w, s1, events[1..]);
      assert Step(w, s1, Restart) == s1;
    }
  }

  /** The model serving queries and writes is at all times the placeholder or the recorded one. */
  lemma ActiveIsRecorded(w: World, t: Tables, events: seq<Event>)
    requires Lawful(w) && Keyed(t.blocks) && Honest(w, t.staging) && BlocksFit(w, t) && ChatFits(w, t)
    ensures
      var s := Run(w, State(t, DEGRADED, Idle), events);
      s.active == DEGRADED || s.tables.record == Some(s.active)
  {
    RunKeeps(w, State(t, DEGRADED, Idle), events);
  }

  /** Dropping every block and then reconciling records the target over the chat vectors as they are. */
  lemma FirstRecord(w: World, t: Tables, live: string) returns (events: seq<Event>)
    requires t.record.None? && live != DEGRADED
    ensures Run(w, State(t, DEGRADED, Idle), events).tables == t.(blocks := [], record := Some(live))
  {
    var ids := set b | b in t.blocks :: b.id;
    var e1, e2 := WritePages(ids, []), Start(live, true);
    events := [e1, e2];
    FilterNone(t.blocks, Kept(ids, []));
    var s1 := Step(w, State(t, DEGRADED, Idle), e1);
    assert s1.tables.blocks == [];
    assert events[1..] == [e2] && [e2][1..] == [];
    assert Run(w, s1, [e2]) == Step(w, s1, e2);
  }

  /**
   Over an index with no record, chat vectors agree with whatever any run comes to record iff each is
   absent, zero or the embedding of its message under every real model.
   */
  lemma UnrecordedChat(w: World, t: Tables)
    requires Lawful(w) && Keyed(t.blocks) && Honest(w, t.staging) && t.record.None?
    ensures (forall events :: RecordedChatFits(w, Run(w, State(t, DEGRADED, Idle), events).tables)) <==> ChatFitsAny(w, t)
  {
    if ChatFitsAny(w, t) {
      forall events ensures RecordedChatFits(w, Run(w, State(t, DEGRADED, Idle), events).tables) {
        OneSpace(w, t, events);
      }
    } else {
      var k, live :| k in t.chat && live != DEGRADED && !OfModel(w, t.chat[k].vec, live, t.chat[k].content);
      var events := FirstRecord(w, t, live);
      assert !RecordedChatFits(w, Run(w, State(t, DEGRADED, Idle), events).tables);
    }
  }

  /** An embedder that never answers `v`. */
  function Avoiding(v: Vector): World {
    World((m: string, t: string) => if m == DEGRADED then [] else v + [1.0], (t: string) => t)
  }

  /** Whatever the embedder, that is: they are absent or zero. */
  lemma UnrecordedVectors(t: Tables)
    requires Keyed(t.blocks) && t.staging == map[] && t.record.None?
    ensures (forall w, events :: Lawful(w) ==> RecordedChatFits(w, Run(w, State(t, DEGRADED, Idle), events).tables)) <==>
            forall k :: k in t.chat ==> t.chat[k].vec.None? || IsZero(t.chat[k].vec.value)
  {
    if k :| k in t.chat && t.chat[k].vec.Some? && !IsZero(t.chat[k].vec.value) {
      var w := Avoiding(t.chat[k].vec.value);
      assert Lawful(w);
      assert !OfModel(w, t.chat[k].vec, "m", t.chat[k].content);
      UnrecordedChat(w, t);
    } else {
      forall w, events | Lawful(w) ensures RecordedChatFits(w, Run(w, State(t, DEGRADED, Idle), events).tables) {
        UnrecordedChat(w, t);
      }
    }
  }
}
