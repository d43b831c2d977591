/**
 Freezing over whole histories: single writes, archives, moves, all-or-nothing batches and purges of
 archived pages, each admitted only when the code admits it (escurel-index/src/freeze.rs, validate.rs, indexer.rs).
 */
module FreezeRuns {

  import opened Wrappers
  import opened Text
  import opened Freeze

  datatype Edit =
    | Write(page: string, content: string)
    | Archive(page: string)
    | Move(from: string, to: string)
    | Batch(pages: Store)
    | Purge(page: string)

  ghost predicate Frozen(c: Corpus, store: Store, page: string) {
    StoredFrozenReason(c, store, map[], page).Some?
  }

  /**
   What the validator asks of new content: it parses, and an instance has an id and a skill and breaks no
   freeze. Content of another kind is not asked about the freeze at all.
   */
  predicate WriteAllowed(c: Corpus, store: Store, siblings: Store, page: string, content: string) {
    match c.parse(content)
    case None => false
    case Some(p) =>
      p.kind == Instance ==>
        && TextOf(p, "id") !in {None, Some("")} && DeclaredSkill(p) !in {None, Some("")}
        && FrozenWriteIssue(c, store, siblings, Some(page), DeclaredSkill(p), p.fields).None?
  }

  function TextOf(p: Page, key: string): Option<string> {
    if key in p.fields && p.fields[key].Str? then Some(p.fields[key].s) else None
  }

  function DeclaredSkill(p: Page): Option<string> { TextOf(p, "skill") }

  datatype Refusal = InstanceFrozen(why: Reason) | InstanceImmutable | InstanceProtected

  function SkillsOf(c: Corpus, store: Store, page: string): set<string> {
    var path := match PathSkill(page) case None => {} case Some(s) => {s};
    var own := if page !in store then {}
               else match c.parse(store[page])
                    case None => {}
                    case Some(p) => match DeclaredSkill(p) case None => {} case Some(s) => {s};
    path + own
  }

  /** Why a page may not be removed: frozen, then immutable, then protected. */
  function RemovalIssue(c: Corpus, store: Store, page: string, verb: string): Option<Refusal> {
    match StoredFrozenReason(c, store, map[], page)
    case Some(why) => Some(InstanceFrozen(why))
    case None =>
      if page !in store || PathSkill(page).None? then None
      else
        var skills := SkillsOf(c, store, page);
        if exists s :: s in skills && s in c.contracts && c.contracts[s].immutable then Some(InstanceImmutable)
        else if exists s :: s in skills && s in c.contracts && verb in c.contracts[s].protects then Some(InstanceProtected)
        else None
  }

  predicate Allowed(c: Corpus, store: Store, e: Edit) {
    match e
    case Write(page, content) => WriteAllowed(c, store, map[], page, content)
    case Archive(page) => page in store && RemovalIssue(c, store, page, "delete").None?
    case Move(from, to) =>
      && from in store && from != to
      && RemovalIssue(c, store, from, "move").None?
      && (to in store ==> c.isArchived(store[to]))
    case Batch(pages) =>
      forall p :: p in pages ==> WriteAllowed(c, store, pages - {p}, p, pages[p])
    case Purge(page) => page in store && c.isArchived(store[page])
  }

  /** A refused edit leaves the store alone; a batch lands whole or not at all. */
  function Perform(c: Corpus, store: Store, e: Edit): Store {
    if !Allowed(c, store, e) then store
    else match e
         case Write(page, content) => store[page := content]
         case Archive(page) => store[page := c.archive(store[page])]
         case Move(from, to) => store[to := store[from]] - {from}
         case Batch(pages) => store + pages
         case Purge(page) => store - {page}
  }

  function Run(c: Corpus, store: Store, edits: seq<Edit>): Store
    decreases |edits|
  {
    if edits == [] then store else Run(c, Perform(c, store, edits[0]), edits[1..])
  }

  predicate IsSkillPage(c: Corpus, content: string) {
    c.parse(content).Some? && c.parse(content).value.kind == Skill
  }

  /** The edit puts no skill page on a frozen page, moves nothing else onto one, and purges none. */
  ghost predicate Spares(c: Corpus, store: Store, e: Edit) {
    match e
    case Write(page, content) => Frozen(c, store, page) ==> !IsSkillPage(c, content)
    case Archive(page) => true
    case Move(from, to) => Frozen(c, store, to) ==> from in store && to in store && store[to] == store[from]
    case Batch(pages) => forall p :: p in pages && Frozen(c, store, p) ==> !IsSkillPage(c, pages[p])
    case Purge(page) => !Frozen(c, store, page)
  }

  ghost predicate AllSpare(c: Corpus, store: Store, edits: seq<Edit>)
    decreases |edits|
  {
    edits == [] || (
      && (Allowed(c, store, edits[0]) ==> Spares(c, store, edits[0]))
      && AllSpare(c, Perform(c, store, edits[0]), edits[1..]))
  }

  // ---- The two readings of a page ----

  /** The page of a hop says which skill it is, or the link's skill is a single path segment. */
  predicate Legible(c: Corpus, store: Store, l: Link) {
    var page := InstancePageId(l.skill, l.id);
    (page in store && c.parse(store[page]).Some? && DeclaredSkill(c.parse(store[page]).value).Some?) || '/' !in l.skill
  }

  lemma PathSkillIff(skill: string, id: string)
    ensures PathSkill(InstancePageId(skill, id)) == Some(skill) <==> '/' !in skill
  {
    var page := InstancePageId(skill, id);
    assert page[|PREFIX|..] == skill + ['/'] + (id + ".md");
    if '/' !in skill {
      SplitOnceAt(skill, '/', id + ".md");
    } else {
      SplitOnceMissing(page[|PREFIX|..], '/');
    }
  }

  /** A page read through a child's link and read as itself is governed by the same skill iff the link is legible. */
  lemma SamePageIff(c: Corpus, store: Store, l: Link)
    requires Parent(c, store, map[], l).Some?
    ensures StoredNode(c, store, InstancePageId(l.skill, l.id)) == Parent(c, store, map[], l) <==> Legible(c, store, l)
  {
    PathSkillIff(l.skill, l.id);
  }

  // ---- Anchored pages ----

  /** A freezing chain from the stored page, each hop of which reads the same from below and on its own. */
  ghost predicate Anchors(c: Corpus, store: Store, page: string, n: Node, hops: seq<Hop>) {
    && StoredNode(c, store, page) == Some(n)
    && |hops| <= MAX_PARENT_DEPTH && Freezes(c, store, map[], n, hops)
    && forall k :: 0 <= k < |hops| ==> Legible(c, store, hops[k].link)
  }

  ghost predicate Anchored(c: Corpus, store: Store, page: string) {
    exists n, hops :: Anchors(c, store, page, n, hops)
  }

  lemma Governed(c: Corpus, store: Store, pending: Store, n: Node, hops: seq<Hop>)
    requires Freezes(c, store, pending, n, hops)
    ensures n.skill in c.contracts
  {}

  lemma AnchoredIsFrozen(c: Corpus, store: Store, page: string)
    requires Anchored(c, store, page)
    ensures Frozen(c, store, page) && page in store
  {
    var n: Node, hops: seq<Hop> :| Anchors(c, store, page, n, hops);
    ChainIsFound(c, store, map[], n, true, 0, hops);
  }

  /** Where skill names are single path segments, every frozen page is anchored. */
  lemma FrozenIsAnchored(c: Corpus, store: Store, page: string)
    requires Frozen(c, store, page) && forall s :: s in c.contracts ==> '/' !in s
    ensures Anchored(c, store, page)
  {
    var n := StoredNode(c, store, page).value;
    var hops := ReasonHasChain(c, store, map[], n, true, 0);
    forall k | 0 <= k < |hops| ensures Legible(c, store, hops[k].link) {
      Suffix(c, store, map[], n, hops, k);
      Governed(c, store, map[], hops[k].node, hops[k + 1..]);
    }
    assert Anchors(c, store, page, n, hops);
  }

  /** Every page on the chain. */
  function Pages(hops: seq<Hop>): set<string> {
    if hops == [] then {} else {HopPage(hops[0])} + Pages(hops[1..])
  }

  /** The rest of an anchoring chain anchors the page it starts at. */
  lemma HopAnchored(c: Corpus, store: Store, page: string, n: Node, hops: seq<Hop>, k: nat)
    requires Anchors(c, store, page, n, hops) && k < |hops|
    ensures Anchors(c, store, HopPage(hops[k]), hops[k].node, hops[k + 1..])
  {
    Suffix(c, store, map[], n, hops, k);
    SamePageIff(c, store, hops[k].link);
  }

  /** Every page of an anchoring chain is itself anchored, so frozen. */
  lemma ChainPagesFrozen(c: Corpus, store: Store, page: string, n: Node, hops: seq<Hop>)
    requires Anchors(c, store, page, n, hops)
    ensures forall p :: p in Pages(hops) ==> Anchored(c, store, p) && Frozen(c, store, p)
  {
    forall p | p in Pages(hops) ensures Anchored(c, store, p) && Frozen(c, store, p) {
      var k := PageOnChain(hops, p);
      HopAnchored(c, store, page, n, hops, k);
      AnchoredIsFrozen(c, store, p);
    }
  }

  /** A chain survives any change that leaves its pages alone. */
  lemma {:induction false} ChainSurvives(c: Corpus, store: Store, pending: Store, store': Store, pending': Store, n: Node, hops: seq<Hop>)
    requires Freezes(c, store, pending, n, hops)
    requires forall p :: p in Pages(hops) ==> View(store', pending', p) == View(store, pending, p)
    ensures Freezes(c, store', pending', n, hops)
    decreases |hops|
  {
    if hops != [] {
      FreezesStep(c, store, pending, n, hops);
      ChainSurvives(c, store, pending, store', pending', hops[0].node, hops[1..]);
      FreezesStep(c, store', pending', n, hops);
    }
  }

  // ---- Batches ----

  /**
   Unless a skill page lands on a frozen page, the touched page nearest the frozen end fails its own
   check, whatever the batch says of the others.
   */
  lemma {:induction false} BatchRefusedAlong(c: Corpus, store: Store, batch: Store, page: string, n: Node, hops: seq<Hop>)
    requires page in batch && Anchors(c, store, page, n, hops) && Spares(c, store, Batch(batch))
    ensures exists p :: p in batch && !WriteAllowed(c, store, batch - {p}, p, batch[p])
    decreases |hops|
  {
    if k :| 0 <= k < |hops| && HopPage(hops[k]) in batch {
      HopAnchored(c, store, page, n, hops, k);
      BatchRefusedAlong(c, store, batch, HopPage(hops[k]), hops[k].node, hops[k + 1..]);
    } else {
      forall p | p in Pages(hops) ensures p !in batch {
        var k := PageOnChain(hops, p);
      }
      assert Anchored(c, store, page);
      AnchoredIsFrozen(c, store, page);
      ChainSurvives(c, store, map[], store, batch - {page}, n, hops);
      ChainIsFound(c, store, batch - {page}, n, true, 0, hops);
      assert !WriteAllowed(c, store, batch - {page}, page, batch[page]);
    }
  }

  lemma {:induction false} PageOnChain(hops: seq<Hop>, p: string) returns (k: nat)
    requires p in Pages(hops)
    ensures k < |hops| && HopPage(hops[k]) == p
  {
    if p == HopPage(hops[0]) {
      k := 0;
    } else {
      k := PageOnChain(hops[1..], p);
      k := k + 1;
    }
  }

  lemma {:induction false} Suffix(c: Corpus, store: Store, pending: Store, n: Node, hops: seq<Hop>, k: nat)
    requires k < |hops| && Freezes(c, store, pending, n, hops)
    ensures Parent(c, store, pending, hops[k].link) == Some(hops[k].node)
    ensures Freezes(c, store, pending, hops[k].node, hops[k + 1..])
    decreases |hops|
  {
    FreezesStep(c, store, pending, n, hops);
    if k > 0 {
      Suffix(c, store, pending, hops[0].node, hops[1..], k - 1);
      assert hops[1..][k - 1] == hops[k] && hops[1..][k..] == hops[k + 1..];
    }
  }

  /** A batch that writes an anchored page is refused, although each member sees the others' new content. */
  lemma BatchTouchingFrozenRefused(c: Corpus, store: Store, batch: Store, page: string)
    requires Anchored(c, store, page) && page in batch && Spares(c, store, Batch(batch))
    ensures !Allowed(c, store, Batch(batch))
  {
    var n: Node, hops: seq<Hop> :| Anchors(c, store, page, n, hops);
    BatchRefusedAlong(c, store, batch, page, n, hops);
  }

  // ---- One edit ----

  predicate Kept(store: Store, store': Store, page: string) {
    page in store && page in store' && store'[page] == store[page]
  }

  /** An edit changes no anchored page, unless it puts a skill page on a frozen one or moves over one. */
  lemma FrozenUntouched(c: Corpus, store: Store, e: Edit, page: string)
    requires Anchored(c, store, page) && (Allowed(c, store, e) ==> Spares(c, store, e))
    ensures Kept(store, Perform(c, store, e), page)
  {
    AnchoredIsFrozen(c, store, page);
    if Allowed(c, store, e) && e.Batch? && page in e.pages {
      BatchTouchingFrozenRefused(c, store, e.pages, page);
    }
  }

  lemma FrozenStays(c: Corpus, store: Store, e: Edit, page: string)
    requires Anchored(c, store, page) && (Allowed(c, store, e) ==> Spares(c, store, e))
    ensures Anchored(c, Perform(c, store, e), page)
  {
    var store' := Perform(c, store, e);
    var n: Node, hops: seq<Hop> :| Anchors(c, store, page, n, hops);
    ChainPagesFrozen(c, store, page, n, hops);
    forall p | p in Pages(hops) ensures Kept(store, store', p) {
      FrozenUntouched(c, store, e, p);
    }
    FrozenUntouched(c, store, e, page);
    ChainSurvives(c, store, map[], store', map[], n, hops);
    forall k | 0 <= k < |hops| ensures Legible(c, store', hops[k].link) {
      HopOnChain(hops, k);
      HopAnchored(c, store, page, n, hops, k);
      assert Kept(store, store', HopPage(hops[k]));
    }
    assert Anchors(c, store', page, n, hops);
  }

  lemma {:induction false} HopOnChain(hops: seq<Hop>, k: nat)
    requires k < |hops|
    ensures HopPage(hops[k]) in Pages(hops)
  {
    if k > 0 {
      HopOnChain(hops[1..], k - 1);
    }
  }

  /** The frozen pages a batch rewrites are anchored. */
  ghost predicate StrikesAnchored(c: Corpus, store: Store, e: Edit) {
    e.Batch? ==> forall p :: p in e.pages && Frozen(c, store, p) && p in store && e.pages[p] != store[p] ==> Anchored(c, store, p)
  }

  /**
   Exactly when an admitted edit leaves every frozen page alone: it puts no skill page on one, moves
   onto one only what is already there, purges none, and (a batch) rewrites none through an illegible chain.
   */
  lemma KeepsFrozenIff(c: Corpus, store: Store, e: Edit)
    requires Allowed(c, store, e)
    ensures (forall p :: Frozen(c, store, p) ==> Kept(store, Perform(c, store, e), p)) <==>
            Spares(c, store, e) && StrikesAnchored(c, store, e)
  {
    var store' := Perform(c, store, e);
    if Spares(c, store, e) && StrikesAnchored(c, store, e) {
      forall p | Frozen(c, store, p) ensures Kept(store, store', p) {
        assert StoredNode(c, store, p).Some?;
        if e.Batch? && p in e.pages && e.pages[p] != store[p] {
          BatchTouchingFrozenRefused(c, store, e.pages, p);
        }
      }
    } else {
      var p := Struck(c, store, e);
      assert Frozen(c, store, p) && !Kept(store, store', p);
    }
  }

  /** The frozen page a sparing edit would have left alone. */
  lemma Struck(c: Corpus, store: Store, e: Edit) returns (p: string)
    requires Allowed(c, store, e) && !(Spares(c, store, e) && StrikesAnchored(c, store, e))
    ensures Frozen(c, store, p) && !Kept(store, Perform(c, store, e), p)
  {
    match e
    case Write(page, content) => p := page;
    case Move(from, to) => p := to;
    case Purge(page) => p := page;
    case Batch(pages) =>
      if q :| q in pages && Frozen(c, store, q) && IsSkillPage(c, pages[q]) {
        p := q;
      } else {
        p :| p in pages && Frozen(c, store, p) && p in store && pages[p] != store[p];
      }
  }

  // ---- The theorem ----

  /**
   A freeze is stable: over every history of writes, archives, moves, batches and purges in which no
   admitted edit strikes a frozen page, an anchored page stays frozen and keeps its content.
   */
  lemma {:induction false} FreezeIsStable(c: Corpus, store: Store, edits: seq<Edit>, page: string)
    requires Anchored(c, store, page) && AllSpare(c, store, edits)
    ensures Anchored(c, Run(c, store, edits), page) && Frozen(c, Run(c, store, edits), page)
    ensures Kept(store, Run(c, store, edits), page)
    decreases |edits|
  {
    AnchoredIsFrozen(c, store, page);
    if edits != [] {
      FrozenStays(c, store, edits[0], page);
      FrozenUntouched(c, store, edits[0], page);
      FreezeIsStable(c, Perform(c, store, edits[0]), edits[1..], page);
    }
  }

  /** Skill-page content sent to a frozen instance is admitted, and the page is frozen no longer. */
  lemma SkillContentThaws(c: Corpus, store: Store, page: string, content: string)
    requires Frozen(c, store, page) && IsSkillPage(c, content)
    ensures Allowed(c, store, Write(page, content))
    ensures !Frozen(c, Perform(c, store, Write(page, content)), page)
  {}

  /** A page archived before it froze is purged, frozen or not. */
  lemma FrozenHuskPurged(c: Corpus, store: Store, page: string)
    requires Frozen(c, store, page) && page in store && c.isArchived(store[page])
    ensures Allowed(c, store, Purge(page)) && page !in Perform(c, store, Purge(page))
    ensures !Allowed(c, store, Archive(page))
  {}

  /** An admitted move keeps every frozen page iff it does not replace one with other content. */
  lemma MoveKeepsFrozenIff(c: Corpus, store: Store, from: string, to: string)
    requires Allowed(c, store, Move(from, to))
    ensures
      (forall p :: Frozen(c, store, p) ==> Kept(store, Perform(c, store, Move(from, to)), p)) <==>
      (Frozen(c, store, to) ==> to in store && store[to] == store[from])
  {
    var store' := Perform(c, store, Move(from, to));
    forall p | Frozen(c, store, p) ensures p in store && (p != to ==> Kept(store, store', p)) {
      assert StoredNode(c, store, p).Some?;
    }
  }

  /** The content declares a link to a page that a chain of at most three links freezes, seen past `pending`. */
  ghost predicate HangsUnderFrozen(c: Corpus, store: Store, pending: Store, content: string, link: Link, hops: seq<Hop>) {
    && c.parse(content).Some? && DeclaredSkill(c.parse(content).value).Some?
    && var p := c.parse(content).value;
       && link in ParentLinks(c, Node(DeclaredSkill(p).value, p.fields))
       && Parent(c, store, pending, link).Some?
       && |hops| < MAX_PARENT_DEPTH
       && Freezes(c, store, pending, Parent(c, store, pending, link).value, hops)
  }

  /** Such content is refused exactly when it is an instance, whatever else is written with it. */
  lemma ChildRefused(c: Corpus, store: Store, siblings: Store, page: string, content: string, link: Link, hops: seq<Hop>)
    requires HangsUnderFrozen(c, store, siblings, content, link, hops)
    ensures !WriteAllowed(c, store, siblings, page, content) <==> c.parse(content).value.kind == Instance
  {
    var p := c.parse(content).value;
    var n := Node(DeclaredSkill(p).value, p.fields);
    var up := [Hop(link, Parent(c, store, siblings, link).value)] + hops;
    assert up[1..] == hops;
    FreezesStep(c, store, siblings, n, up);
    ChainIsFound(c, store, siblings, n, false, 0, up);
  }

  /** A write that would hang under a page frozen by a chain of at most three links is refused exactly when it is an instance. */
  lemma NewChildRefused(c: Corpus, store: Store, page: string, content: string, link: Link, hops: seq<Hop>)
    requires HangsUnderFrozen(c, store, map[], content, link, hops)
    ensures !Allowed(c, store, Write(page, content)) <==> c.parse(content).value.kind == Instance
  {
    ChildRefused(c, store, map[], page, content, link, hops);
  }

  /** A batch cannot create a frozen parent and an instance under it: the pending parent counts. */
  lemma BatchFamilyRefused(c: Corpus, store: Store, batch: Store, child: string, link: Link, hops: seq<Hop>)
    requires child in batch && HangsUnderFrozen(c, store, batch - {child}, batch[child], link, hops)
    requires c.parse(batch[child]).value.kind == Instance
    ensures !Allowed(c, store, Batch(batch))
  {
    ChildRefused(c, store, batch - {child}, child, batch[child], link, hops);
    assert !WriteAllowed(c, store, batch - {child}, child, batch[child]);
  }

  // ---- The decisions in terms of the pages ----

  /** `s` is the folder under `markdown/instances/` the page is in. */
  ghost predicate InFolder(page: string, s: string) {
    '/' !in s && exists rest :: page == "markdown/instances/" + s + "/" + rest
  }

  lemma PathInFolder(page: string, s: string)
    requires PathSkill(page) == Some(s)
    ensures InFolder(page, s)
  {
    var tail := page[|PREFIX|..];
    SplitOnceMissing(tail, '/');
    var rest := SplitOnce(tail, '/').value.1;
    assert page == PREFIX + tail && tail == s + "/" + rest;
    assert page == "markdown/instances/" + s + "/" + rest;
  }

  lemma FolderSkill(page: string, s: string, rest: string)
    requires '/' !in s && page == "markdown/instances/" + s + "/" + rest
    ensures PathSkill(page) == Some(s)
  {
    assert page[|PREFIX|..] == s + ['/'] + rest;
    SplitOnceAt(s, '/', rest);
  }

  lemma PathSkillMeans(page: string, s: string)
    ensures PathSkill(page) == Some(s) <==> InFolder(page, s)
  {
    if PathSkill(page) == Some(s) {
      PathInFolder(page, s);
    }
    if InFolder(page, s) {
      var rest :| page == "markdown/instances/" + s + "/" + rest;
      FolderSkill(page, s, rest);
    }
  }

  /** The stored page is this instance, under the skill it declares or else its folder's. */
  ghost predicate IsStored(c: Corpus, store: Store, page: string, n: Node) {
    && page in store && c.parse(store[page]) == Some(Page(Instance, n.fields))
    && if "skill" in n.fields && n.fields["skill"].Str? then n.fields["skill"] == Str(n.skill) else InFolder(page, n.skill)
  }

  /** It reaches, over at most four links and past the siblings, a page that freezes itself. */
  ghost predicate ReachesFrozen(c: Corpus, store: Store, siblings: Store, n: Node, own: bool) {
    exists hops :: |hops| <= 4 && (hops == [] ==> own) && Reaches(c, store, siblings, n, hops)
  }

  lemma StoredFrozenIff(c: Corpus, store: Store, siblings: Store, page: string)
    ensures StoredFrozenReason(c, store, siblings, page).Some? <==>
            exists n :: IsStored(c, store, page, n) && ReachesFrozen(c, store, siblings, n, true)
  {
    forall n ensures IsStored(c, store, page, n) <==> StoredNode(c, store, page) == Some(n) {
      PathSkillMeans(page, n.skill);
    }
    if StoredNode(c, store, page).Some? {
      var n := StoredNode(c, store, page).value;
      FrozenIffReachable(c, store, siblings, n, true, 0);
      assert IsStored(c, store, page, n);
    }
  }

  /** A page is frozen exactly when it is a stored instance that reaches one that freezes itself. */
  lemma FrozenMeans(c: Corpus, store: Store, page: string)
    ensures Frozen(c, store, page) <==>
            exists n :: IsStored(c, store, page, n) && ReachesFrozen(c, store, map[], n, true)
  {
    StoredFrozenIff(c, store, map[], page);
  }

  ghost predicate HasText(fields: map<string, Value>, key: string, t: string) {
    t != "" && key in fields && fields[key] == Str(t)
  }

  /**
   New content is admitted exactly when it parses and is no instance, or is one with an id and a skill,
   over a page that is not frozen and under no frozen parent, the siblings' pages standing in for stored ones.
   */
  lemma WriteAllowedIff(c: Corpus, store: Store, siblings: Store, page: string, content: string)
    ensures WriteAllowed(c, store, siblings, page, content) <==>
            && c.parse(content).Some?
            && (c.parse(content).value.kind == Instance ==>
                  var fields := c.parse(content).value.fields;
                  && (exists t :: HasText(fields, "id", t))
                  && (exists s :: HasText(fields, "skill", s) && !ReachesFrozen(c, store, siblings, Node(s, fields), false))
                  && !exists n :: IsStored(c, store, page, n) && ReachesFrozen(c, store, siblings, n, true))
  {
    StoredFrozenIff(c, store, siblings, page);
    if c.parse(content).Some? {
      var p := c.parse(content).value;
      if TextOf(p, "id") !in {None, Some("")} {
        assert HasText(p.fields, "id", TextOf(p, "id").value);
      }
      if DeclaredSkill(p) !in {None, Some("")} {
        var s := DeclaredSkill(p).value;
        assert HasText(p.fields, "skill", s);
        FrozenIffReachable(c, store, siblings, Node(s, p.fields), false, 0);
      }
    }
  }

  /** The folder's skill, or the one the stored page declares, with a contract. */
  ghost predicate GovernedBy(c: Corpus, store: Store, page: string, k: Contract) {
    exists s :: s in c.contracts && c.contracts[s] == k && (
      || InFolder(page, s)
      || (page in store && c.parse(store[page]).Some? && "skill" in c.parse(store[page]).value.fields
          && c.parse(store[page]).value.fields["skill"] == Str(s)))
  }

  ghost predicate StoredInFolder(store: Store, page: string) { page in store && exists s :: InFolder(page, s) }

  lemma GovernedIff(c: Corpus, store: Store, page: string, s: string)
    ensures s in SkillsOf(c, store, page) && s in c.contracts ==> GovernedBy(c, store, page, c.contracts[s])
  {
    PathSkillMeans(page, s);
  }

  /** A removal is refused as frozen, else as immutable, else as protected from the verb, else not at all. */
  lemma RemovalMeans(c: Corpus, store: Store, page: string, verb: string)
    ensures
      var issue := RemovalIssue(c, store, page, verb);
      var immutable := StoredInFolder(store, page) && exists k :: GovernedBy(c, store, page, k) && k.immutable;
      var protects := StoredInFolder(store, page) && exists k :: GovernedBy(c, store, page, k) && verb in k.protects;
      && (Frozen(c, store, page) <==> issue.Some? && issue.value.InstanceFrozen?)
      && (issue == Some(InstanceImmutable) <==> !Frozen(c, store, page) && immutable)
      && (issue == Some(InstanceProtected) <==> !Frozen(c, store, page) && !immutable && protects)
  {
    if PathSkill(page).Some? {
      PathSkillMeans(page, PathSkill(page).value);
    }
    forall s ensures InFolder(page, s) <==> PathSkill(page) == Some(s) {
      PathSkillMeans(page, s);
    }
    forall s ensures s in SkillsOf(c, store, page) && s in c.contracts ==> GovernedBy(c, store, page, c.contracts[s]) {
      GovernedIff(c, store, page, s);
    }
    forall k | GovernedBy(c, store, page, k) ensures exists s :: s in SkillsOf(c, store, page) && s in c.contracts && c.contracts[s] == k {
    }
  }

  /** What an admitted edit leaves behind: the named pages as asked, every other page as it was. */
  lemma EditLands(c: Corpus, store: Store, e: Edit, page: string)
    requires Allowed(c, store, e)
    ensures
      var store' := Perform(c, store, e);
      match e
      case Write(p, content) => View(store', map[], page) == if page == p then Some(content) else View(store, map[], page)
      case Archive(p) => View(store', map[], page) == if page == p && p in store then Some(c.archive(store[p])) else View(store, map[], page)
      case Move(from, to) =>
        View(store', map[], page) == if page == to then View(store, map[], from) else if page == from then None else View(store, map[], page)
      case Batch(pages) => View(store', map[], page) == View(store, pages, page)
      case Purge(p) => View(store', map[], page) == if page == p then None else View(store, map[], page)
  {}

  /** Archives ask of `delete`, moves of `move`, onto nothing or an archived page; a purge takes archived pages only. */
  lemma RemovalsAllowedIff(c: Corpus, store: Store, from: string, to: string)
    ensures Allowed(c, store, Archive(from)) <==> from in store && RemovalIssue(c, store, from, "delete").None?
    ensures Allowed(c, store, Move(from, to)) <==>
            && from in store && from != to && RemovalIssue(c, store, from, "move").None?
            && (to !in store || c.isArchived(store[to]))
    ensures Allowed(c, store, Purge(from)) <==> from in store && c.isArchived(store[from])
  {}

  // ---- Inputs on which a freeze gives way ----

  /** A skill named `a/b`, an unlabelled instance of it, and an archived note frozen through a link to it. */
  function SlashedCorpus(): Corpus {
    Corpus(
      (t: string) =>
        if t == "note" then Some(Page(Instance, map["id" := Str("n"), "skill" := Str("note"), "up" := Str("link")]))
        else if t == "done" then Some(Page(Instance, map["state" := Str("done")]))
        else if t == "open" then Some(Page(Instance, map["id" := Str("x"), "skill" := Str("a"), "state" := Str("open")]))
        else if t == "type" then Some(Page(Skill, map["id" := Str("a")]))
        else None,
      (t: string) => if t == "link" then [("a/b", "x")] else [],
      (t: string) => t,
      (t: string) => t == "note",
      map["a/b" := Contract(Some(("state", ["done"])), [], false, []),
          "note" := Contract(None, [Field("up", true, true)], false, [])])
  }

  function SlashedLink(): Link { Link("up", "a/b", "x") }

  function NoteNode(): Node { Node("note", map["id" := Str("n"), "skill" := Str("note"), "up" := Str("link")]) }

  lemma SlashedParents(c: Corpus)
    requires c == SlashedCorpus()
    ensures ParentLinks(c, NoteNode()) == [SlashedLink()]
  {
    var fields := c.contracts["note"].fields;
    assert fields == [Field("up", true, true)] && fields[1..] == [];
    var targets := [("a/b", "x")];
    assert targets[1..] == [];
    assert Links(c, Str("link")) == targets;
    assert Tagged("up", targets) == [SlashedLink()] + Tagged("up", targets[1..]);
    assert LinksOfFields(c, fields, NoteNode()) == Tagged("up", targets) + LinksOfFields(c, fields[1..], NoteNode());
  }

  lemma SlashedPaths(note: string, rest: string)
    requires note == InstancePageId("note", "n") && rest == InstancePageId("a/b", "x")
    ensures PathSkill(note) == Some("note") && PathSkill(rest) == Some("a") && note != rest
  {
    PathSkillIff("note", "n");
    assert rest == PREFIX + ("a" + "/" + "b/x.md") && rest[|PREFIX|..] == "a" + "/" + "b/x.md";
    SplitOnceAt("a", '/', "b/x.md");
  }

  function RestNode(content: string): Node {
    if content == "done" then Node("a/b", map["state" := Str("done")])
    else Node("a", map["id" := Str("x"), "skill" := Str("a"), "state" := Str("open")])
  }

  /** The note is frozen exactly while the page under `a/b` says `done`. */
  lemma SlashedFrozen(c: Corpus, store: Store, note: string, rest: string)
    requires c == SlashedCorpus() && note == InstancePageId("note", "n") && rest == InstancePageId("a/b", "x")
    requires note in store && store[note] == "note"
    requires rest in store && (store[rest] == "done" || store[rest] == "open")
    ensures Frozen(c, store, note) <==> store[rest] == "done"
  {
    SlashedPaths(note, rest);
    SlashedParents(c);
    var l := SlashedLink();
    var m := RestNode(store[rest]);
    assert Parent(c, store, map[], l) == Some(m);
    assert StoredNode(c, store, note) == Some(NoteNode());
    assert [l][1..] == [];
    assert OwnReason(c, NoteNode()).None?;
    assert OwnReason(c, m).Some? <==> store[rest] == "done";
    assert ParentLinks(c, m) == [];
    assert FrozenReason(c, store, map[], m, true, 1).Some? <==> store[rest] == "done";
    assert FirstFrozen(c, store, map[], [l], 0).Some? <==> store[rest] == "done";
  }

  lemma SlashedWriteAllowed(c: Corpus, store: Store, rest: string)
    requires c == SlashedCorpus() && PathSkill(rest) == Some("a")
    requires rest in store && store[rest] == "done"
    ensures Allowed(c, store, Write(rest, "open"))
  {
    assert StoredNode(c, store, rest) == Some(Node("a", map["state" := Str("done")]));
  }

  /** Through an illegible link a freeze can be lifted by an ordinary write of the page it rests on. */
  lemma SlashedSkillUnfreezes(c: Corpus, store: Store, note: string, rest: string)
    requires c == SlashedCorpus() && note == InstancePageId("note", "n") && rest == InstancePageId("a/b", "x")
    requires store == map[note := "note", rest := "done"]
    ensures Frozen(c, store, note) && !Legible(c, store, SlashedLink())
    ensures Allowed(c, store, Write(rest, "open")) && Spares(c, store, Write(rest, "open"))
    ensures !Frozen(c, Perform(c, store, Write(rest, "open")), note)
  {
    SlashedPaths(note, rest);
    SlashedFrozen(c, store, note, rest);
    SlashedWriteAllowed(c, store, rest);
    SlashedFrozen(c, store[rest := "open"], note, rest);
  }

  /** The same note, written over with a skill page, or purged. */
  lemma NoteThawed(c: Corpus, store: Store, note: string, rest: string)
    requires c == SlashedCorpus() && note == InstancePageId("note", "n") && rest == InstancePageId("a/b", "x")
    requires store == map[note := "note", rest := "done"]
    ensures Frozen(c, store, note) && Allowed(c, store, Write(note, "type"))
    ensures !Frozen(c, Perform(c, store, Write(note, "type")), note)
    ensures Allowed(c, store, Purge(note)) && note !in Perform(c, store, Purge(note))
  {
    SlashedPaths(note, rest);
    SlashedFrozen(c, store, note, rest);
    SkillContentThaws(c, store, note, "type");
  }
}
