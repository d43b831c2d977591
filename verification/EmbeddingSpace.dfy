/**
 The embedding space of an index (escurel-index/src/embedding_space.rs) as tables and the steps that
 change them: which staged vectors are kept, what a batch asks for, what the swap does.

 Embedding providers and MD5 are parameters: a provider is a function of the model and the text, the
 `zero` model embeds everything as zeros, and MD5 is taken to be collision-free.
 */
module EmbeddingSpace {

  import opened Wrappers
  import opened Ordering
  import opened Text

  const REEMBED_BATCH: nat := 64

  /** The placeholder model of a degraded start. */
  const DEGRADED := "zero"

  type Vector = seq<real>

  datatype World = World(embed: (string, string) -> Vector, md5: string -> string)

  predicate IsZero(v: Vector) { forall x :: x in v ==> x == 0.0 }

  ghost predicate Lawful(w: World) {
    && (forall t: string :: IsZero(w.embed(DEGRADED, t)))
    && (forall a: string, b: string :: w.md5(a) == w.md5(b) ==> a == b)
  }

  // ---- Tables ----

  datatype Block = Block(id: string, context: Option<string>, body: string, vec: Option<Vector>)

  datatype Staged = Staged(model: string, digest: string, vec: Vector)

  datatype Message = Message(content: string, vec: Option<Vector>)

  /** `chat` is keyed by chat group and message id. */
  datatype Tables = Tables(
    blocks: seq<Block>,
    record: Option<string>,
    staging: map<string, Staged>,
    chat: map<(string, string), Message>)

  /** The text a block's vector is computed from. */
  function EmbedText(b: Block): string {
    match b.context case None => b.body case Some(c) => c + "\n" + b.body
  }

  /** Block ids are a primary key. */
  ghost predicate Keyed(blocks: seq<Block>) {
    forall i, j :: 0 <= i < j < |blocks| ==> blocks[i].id != blocks[j].id
  }

  predicate NoVector(b: Block) { b.vec.None? || IsZero(b.vec.value) }

  predicate HasVectors(blocks: seq<Block>) { exists b :: b in blocks && b.vec.Some? }

  // ---- Steps of a re-embed ----

  predicate Current(w: World, blocks: seq<Block>, id: string, digest: string) {
    exists b :: b in blocks && b.id == id && w.md5(EmbedText(b)) == digest
  }

  /** Staged rows of another model, or of a text that has changed, are dropped. */
  function CleanStaging(w: World, t: Tables, live: string): map<string, Staged> {
    map id | id in t.staging && t.staging[id].model == live && Current(w, t.blocks, id, t.staging[id].digest)
      :: t.staging[id]
  }

  function Wanted(onlyZero: bool, staging: map<string, Staged>): Block -> bool {
    (b: Block) => (onlyZero ==> NoVector(b)) && b.id !in staging
  }

  function ById(): Leq<Block> { (a: Block, b: Block) => !LexLess(b.id, a.id) }

  /** The blocks still to embed. */
  function Unstaged(t: Tables, onlyZero: bool): seq<Block> {
    SortBy(Filter(t.blocks, Wanted(onlyZero, t.staging)), ById())
  }

  function NextBatch(t: Tables, onlyZero: bool): seq<Block> {
    var todo := Unstaged(t, onlyZero);
    if |todo| <= REEMBED_BATCH then todo else todo[..REEMBED_BATCH]
  }

  function StageAll(w: World, staging: map<string, Staged>, live: string, batch: seq<Block>): map<string, Staged> {
    if batch == [] then staging
    else
      var text := EmbedText(batch[0]);
      StageAll(w, staging, live, batch[1..])[batch[0].id := Staged(live, w.md5(text), w.embed(live, text))]
  }

  function Swapped(b: Block, staging: map<string, Staged>): Block {
    if b.id in staging then b.(vec := Some(staging[b.id].vec)) else b
  }

  function SwapBlocks(blocks: seq<Block>, staging: map<string, Staged>): seq<Block> {
    seq(|blocks|, i requires 0 <= i < |blocks| => Swapped(blocks[i], staging))
  }

  function ClearChat(chat: map<(string, string), Message>): map<(string, string), Message> {
    map k | k in chat :: chat[k].(vec := None)
  }

  /** Vectors, record and chat reset, in one transaction. */
  function Swap(t: Tables, live: string, clearChat: bool): Tables {
    Tables(
      SwapBlocks(t.blocks, t.staging),
      Some(live),
      map[],
      if clearChat then ClearChat(t.chat) else t.chat)
  }

  /** The same blocks with the same texts, whatever their vectors. */
  ghost predicate SameTexts(blocks: seq<Block>, before: seq<Block>) {
    |blocks| == |before| && forall i :: 0 <= i < |blocks| ==> blocks[i].(vec := None) == before[i].(vec := None)
  }

  /** The same messages with the same contents, whatever their vectors. */
  ghost predicate SameMessages(chat: map<(string, string), Message>, before: map<(string, string), Message>) {
    chat.Keys == before.Keys && forall k :: k in chat ==> chat[k].content == before[k].content
  }

  // ---- What the tables promise ----

  predicate OfModel(w: World, vec: Option<Vector>, model: string, text: string) {
    vec.None? || IsZero(vec.value) || vec.value == w.embed(model, text)
  }

  /** Under a real record every block vector is absent, zero, or that model's. */
  ghost predicate BlocksFit(w: World, t: Tables) {
    t.record.Some? && t.record.value != DEGRADED ==>
      forall b :: b in t.blocks ==> OfModel(w, b.vec, t.record.value, EmbedText(b))
  }

  /** The same of chat vectors. */
  ghost predicate RecordedChatFits(w: World, t: Tables) {
    t.record.Some? && t.record.value != DEGRADED ==>
      forall k :: k in t.chat ==> OfModel(w, t.chat[k].vec, t.record.value, t.chat[k].content)
  }

  /** Whatever real model comes to be recorded, the chat vectors are absent, zero or its own. */
  ghost predicate ChatFitsAny(w: World, t: Tables) {
    forall k, live :: k in t.chat && live != DEGRADED ==> OfModel(w, t.chat[k].vec, live, t.chat[k].content)
  }

  /** Chat vectors agree with the record, and with no record at all they could agree with any. */
  ghost predicate ChatFits(w: World, t: Tables) {
    RecordedChatFits(w, t) && (t.record.None? ==> ChatFitsAny(w, t))
  }

  /** A staged vector is its model's embedding of whatever text has its digest. */
  ghost predicate Honest(w: World, staging: map<string, Staged>) {
    forall id :: id in staging ==> HonestRow(w, staging[id])
  }

  ghost predicate HonestRow(w: World, s: Staged) {
    forall text: string :: w.md5(text) == s.digest ==> s.vec == w.embed(s.model, text)
  }

  /** What a pass over `live` has staged: rows of `live` for the blocks as they are. */
  ghost predicate StagedFor(w: World, t: Tables, live: string) {
    forall id :: id in t.staging ==>
      && t.staging[id].model == live
      && forall b :: b in t.blocks && b.id == id ==> t.staging[id].vec == w.embed(live, EmbedText(b))
  }

  // ---- Lemmas about the steps ----

  /** A chat reset takes every vector and nothing else. */
  lemma ClearChatKeeps(chat: map<(string, string), Message>)
    ensures SameMessages(ClearChat(chat), chat) && forall k :: k in ClearChat(chat) ==> ClearChat(chat)[k].vec == None
  {}

  /** A row staged for a text survives iff its model is the target and its block still has that text. */
  lemma CleanIff(w: World, t: Tables, live: string, id: string, text: string)
    requires Lawful(w) && id in t.staging && t.staging[id].digest == w.md5(text)
    ensures id in CleanStaging(w, t, live) <==>
            && t.staging[id].model == live
            && exists b :: b in t.blocks && b.id == id && TextIs(b, text)
    ensures id in CleanStaging(w, t, live) ==> CleanStaging(w, t, live)[id] == t.staging[id]
  {
    forall b ensures TextIs(b, text) <==> EmbedText(b) == text {
      TextMeans(b, text);
    }
  }

  /** What is embedded is the body, after the context and a line break when there is one. */
  ghost predicate TextIs(b: Block, text: string) {
    (b.context.None? && text == b.body) || exists c :: b.context == Some(c) && text == c + ['\n'] + b.body
  }

  lemma TextMeans(b: Block, text: string)
    ensures TextIs(b, text) <==> EmbedText(b) == text
  {
    if b.context.Some? {
      assert b.context.value + "\n" + b.body == b.context.value + ['\n'] + b.body;
    }
  }

  lemma ByIdTotal()
    ensures TotalPreorder(ById())
  {
    var le := ById();
    forall a, b ensures le(a, b) || le(b, a) {
      LexTotal(a.id, b.id);
    }
    forall a, b, c | le(a, b) && le(b, c) ensures le(a, c) {
      LexTotal(b.id, c.id);
      LexTotal(a.id, b.id);
      if LexLess(c.id, a.id) && b.id != c.id && a.id != b.id {
        LexTrans(b.id, c.id, a.id);
      }
    }
  }

  ghost predicate ToEmbed(t: Tables, onlyZero: bool, b: Block) {
    b in t.blocks && b.id !in t.staging && (onlyZero ==> b.vec.None? || forall x :: x in b.vec.value ==> x == 0.0)
  }

  /** A batch is the 64 blocks still to embed with the least ids, in their order, or all when there are fewer. */
  lemma BatchIsLeast(t: Tables, onlyZero: bool)
    requires Keyed(t.blocks)
    ensures
      var batch := NextBatch(t, onlyZero);
      && |batch| <= 64 && (forall b :: b in batch ==> ToEmbed(t, onlyZero, b))
      && (forall i, j :: 0 <= i < j < |batch| ==> LexLess(batch[i].id, batch[j].id))
      && (forall b :: ToEmbed(t, onlyZero, b) && b !in batch ==> |batch| == 64 && forall a :: a in batch ==> LexLess(a.id, b.id))
  {
    var want := Wanted(onlyZero, t.staging);
    var rows := Filter(t.blocks, want);
    var todo := Unstaged(t, onlyZero);
    var batch := NextBatch(t, onlyZero);
    BatchMembers(t, onlyZero);
    FilterMembers(t.blocks, want);
    SortMembers(rows, ById());
    assert Distinct(t.blocks);
    FilterDistinct(t.blocks, want);
    SortDistinct(rows, ById());
    ByIdTotal();
    SortSorted(rows, ById());
    forall i, j | 0 <= i < j < |todo| ensures LexLess(todo[i].id, todo[j].id) {
      assert todo[i] in t.blocks && todo[j] in t.blocks && todo[i] != todo[j];
      LexTotal(todo[i].id, todo[j].id);
    }
    forall b | ToEmbed(t, onlyZero, b) && b !in batch ensures |batch| == 64 && forall a :: a in batch ==> LexLess(a.id, b.id) {
      assert want(b) && b in todo;
      var j :| 0 <= j < |todo| && todo[j] == b;
      assert 64 <= j;
    }
  }

  lemma CleanKeepsGood(w: World, t: Tables, live: string)
    requires Lawful(w) && Keyed(t.blocks) && Honest(w, t.staging)
    ensures
      var t' := t.(staging := CleanStaging(w, t, live));
      Honest(w, t'.staging) && StagedFor(w, t', live)
  {
    var t' := t.(staging := CleanStaging(w, t, live));
    forall id, b | id in t'.staging && b in t.blocks && b.id == id
      ensures t'.staging[id].vec == w.embed(live, EmbedText(b))
    {
      var c :| c in t.blocks && c.id == id && w.md5(EmbedText(c)) == t.staging[id].digest;
      assert b == c;
      assert HonestRow(w, t.staging[id]);
    }
  }

  lemma {:induction false} StageAllRows(w: World, staging: map<string, Staged>, live: string, batch: seq<Block>)
    requires Keyed(batch)
    ensures
      var staging' := StageAll(w, staging, live, batch);
      && (forall id :: id in staging' <==> id in staging || exists b :: b in batch && b.id == id)
      && (forall b :: b in batch ==>
            && b.id in staging'
            && staging'[b.id] == Staged(live, w.md5(EmbedText(b)), w.embed(live, EmbedText(b))))
      && (forall id :: id in staging && (forall b :: b in batch ==> b.id != id) ==> staging'[id] == staging[id])
  {
    if batch != [] {
      StageAllRows(w, staging, live, batch[1..]);
      assert batch == [batch[0]] + batch[1..];
    }
  }

  lemma BatchMembers(t: Tables, onlyZero: bool)
    requires Keyed(t.blocks)
    ensures forall b :: b in NextBatch(t, onlyZero) ==> b in t.blocks && Wanted(onlyZero, t.staging)(b)
    ensures Keyed(NextBatch(t, onlyZero))
    ensures NextBatch(t, onlyZero) == [] ==> forall b :: b in t.blocks ==> !Wanted(onlyZero, t.staging)(b)
  {
    var want := Wanted(onlyZero, t.staging);
    var rows := Filter(t.blocks, want);
    FilterMembers(t.blocks, want);
    SortMembers(rows, ById());
    SortPerm(rows, ById());
    assert Distinct(t.blocks);
    FilterDistinct(t.blocks, want);
    SortDistinct(rows, ById());
    var batch := NextBatch(t, onlyZero);
    assert forall b :: b in batch ==> b in Unstaged(t, onlyZero);
    forall i, j | 0 <= i < j < |batch| ensures batch[i].id != batch[j].id {
      assert batch[i] != batch[j] && batch[i] in t.blocks && batch[j] in t.blocks;
    }
    if batch == [] {
      assert rows == [];
    }
  }

  /** A delivered batch keeps what a pass relies on, and leaves strictly fewer blocks to embed. */
  lemma BatchKeeps(w: World, t: Tables, live: string, onlyZero: bool)
    requires Lawful(w) && Keyed(t.blocks) && Honest(w, t.staging) && StagedFor(w, t, live)
    ensures
      var batch := NextBatch(t, onlyZero);
      var t' := t.(staging := StageAll(w, t.staging, live, batch));
      && Honest(w, t'.staging) && StagedFor(w, t', live)
      && (forall b :: b in batch ==> b.id !in t.staging && b.id in t'.staging)
      && (forall id :: id in t.staging ==> id in t'.staging && t'.staging[id] == t.staging[id])
  {
    var batch := NextBatch(t, onlyZero);
    var t' := t.(staging := StageAll(w, t.staging, live, batch));
    BatchMembers(t, onlyZero);
    StageAllRows(w, t.staging, live, batch);
    forall id | id in t'.staging ensures HonestRow(w, t'.staging[id]) {
      if b :| b in batch && b.id == id {
        assert t'.staging[id] == Staged(live, w.md5(EmbedText(b)), w.embed(live, EmbedText(b)));
      } else {
        assert HonestRow(w, t.staging[id]);
      }
    }
  }

  lemma {:induction false} FewerLeft(blocks: seq<Block>, p: Block -> bool, q: Block -> bool, gone: Block)
    requires forall b :: b in blocks && q(b) ==> p(b)
    requires gone in blocks && p(gone) && !q(gone)
    ensures |Filter(blocks, q)| < |Filter(blocks, p)|
  {
    if blocks[0] == gone {
      NoMoreLeft(blocks[1..], p, q);
    } else {
      FewerLeft(blocks[1..], p, q, gone);
    }
  }

  lemma {:induction false} NoMoreLeft(blocks: seq<Block>, p: Block -> bool, q: Block -> bool)
    requires forall b :: b in blocks && q(b) ==> p(b)
    ensures |Filter(blocks, q)| <= |Filter(blocks, p)|
  {
    if blocks != [] {
      NoMoreLeft(blocks[1..], p, q);
    }
  }

  /** Progress: the number of blocks still to embed strictly falls with every delivered batch. */
  lemma BatchProgress(w: World, t: Tables, live: string, onlyZero: bool)
    requires Keyed(t.blocks) && NextBatch(t, onlyZero) != []
    ensures
      var t' := t.(staging := StageAll(w, t.staging, live, NextBatch(t, onlyZero)));
      |Unstaged(t', onlyZero)| < |Unstaged(t, onlyZero)|
  {
    var batch := NextBatch(t, onlyZero);
    var t' := t.(staging := StageAll(w, t.staging, live, batch));
    BatchMembers(t, onlyZero);
    StageAllRows(w, t.staging, live, batch);
    assert batch[0] in batch;
    FewerLeft(t.blocks, Wanted(onlyZero, t.staging), Wanted(onlyZero, t'.staging), batch[0]);
    SortPerm(Filter(t.blocks, Wanted(onlyZero, t.staging)), ById());
    SortPerm(Filter(t.blocks, Wanted(onlyZero, t'.staging)), ById());
  }

  /** What a failed pass leaves staged survives the cleaning of a retry over the same texts. */
  lemma ResumeKeepsAll(w: World, t: Tables, live: string, onlyZero: bool)
    requires Keyed(t.blocks) && CleanStaging(w, t, live) == t.staging
    ensures
      var t' := t.(staging := StageAll(w, t.staging, live, NextBatch(t, onlyZero)));
      CleanStaging(w, t', live) == t'.staging
  {
    var batch := NextBatch(t, onlyZero);
    var t' := t.(staging := StageAll(w, t.staging, live, batch));
    BatchMembers(t, onlyZero);
    StageAllRows(w, t.staging, live, batch);
    forall id | id in t'.staging
      ensures t'.staging[id].model == live && Current(w, t.blocks, id, t'.staging[id].digest)
    {
      if b :| b in batch && b.id == id {
        assert b in t.blocks;
      } else {
        assert id in CleanStaging(w, t, live);
      }
    }
  }

  /**
   The swap puts every block in the target's space: all of them after a full pass, and after a
   repair pass because the others already were.
   */
  lemma SwapFits(w: World, t: Tables, live: string, onlyZero: bool, clearChat: bool)
    requires Lawful(w) && Keyed(t.blocks) && StagedFor(w, t, live) && live != DEGRADED
    requires NextBatch(t, onlyZero) == []
    requires onlyZero ==> t.record == Some(live) && BlocksFit(w, t) && ChatFits(w, t)
    requires !onlyZero ==> clearChat
    ensures
      var t' := Swap(t, live, clearChat);
      && BlocksFit(w, t') && ChatFits(w, t') && Keyed(t'.blocks)
      && (!onlyZero ==> forall b :: b in t'.blocks ==> b.vec == Some(w.embed(live, EmbedText(b))))
      && (forall b :: b in t'.blocks && NoVector(b) ==> b.vec == Some(w.embed(live, EmbedText(b))))
  {
    BatchMembers(t, onlyZero);
    var t' := Swap(t, live, clearChat);
    forall b' | b' in t'.blocks
      ensures OfModel(w, b'.vec, live, EmbedText(b'))
      ensures !onlyZero ==> b'.vec == Some(w.embed(live, EmbedText(b')))
      ensures NoVector(b') ==> b'.vec == Some(w.embed(live, EmbedText(b')))
    {
      var i :| 0 <= i < |t.blocks| && b' == Swapped(t.blocks[i], t.staging);
      assert !Wanted(onlyZero, t.staging)(t.blocks[i]);
    }
  }
}
