/**
 The freeze rule (escurel-index/src/freeze.rs): an instance is frozen by its own state, or through
 `frozen_by_parent` links to a frozen page, at most four links up. Pages a changeset writes alongside
 stand in for the stored ones.
 */
module Freeze {

  import opened Wrappers
  import opened Text

  const MAX_PARENT_DEPTH: nat := 4

  // ---- Pages and contracts ----

  datatype Value = Null | Bool(b: bool) | Number(spelling: string) | Str(s: string) | List(items: seq<Value>) | Mapping

  datatype Kind = Instance | Skill

  datatype Page = Page(kind: Kind, fields: map<string, Value>)

  datatype Field = Field(name: string, isLink: bool, frozenByParent: bool)

  datatype Contract = Contract(
    freezeWhen: Option<(string, seq<string>)>,
    fields: seq<Field>,
    immutable: bool,
    protects: seq<string>)

  /**
   What the rule takes as given: the markdown parser, the wikilinks of a text as `(skill, id)`, the
   archived stamp, and the contracts the (fixed) skill pages declare.
   */
  datatype Corpus = Corpus(
    parse: string -> Option<Page>,
    wikilinks: string -> seq<(string, string)>,
    archive: string -> string,
    isArchived: string -> bool,
    contracts: map<string, Contract>)

  /** Page markdown by page id. */
  type Store = map<string, string>

  const PREFIX := "markdown/instances/"

  function InstancePageId(skill: string, id: string): string {
    PREFIX + skill + "/" + id + ".md"
  }

  function PathSkill(page: string): Option<string> {
    if PREFIX <= page then
      match SplitOnce(page[|PREFIX|..], '/')
      case None => None
      case Some((skill, _)) => Some(skill)
    else None
  }

  /** A scalar as text; `None` for null, lists and maps. */
  function ScalarText(v: Value): Option<string> {
    match v
    case Str(s) => Some(s)
    case Bool(b) => Some(if b then "true" else "false")
    case Number(n) => Some(n)
    case _ => None
  }

  function Links(c: Corpus, v: Value): seq<(string, string)> {
    match v
    case Str(s) => c.wikilinks(s)
    case List(items) => ListLinks(c, items)
    case _ => []
  }

  function ListLinks(c: Corpus, items: seq<Value>): seq<(string, string)> {
    if items == [] then []
    else (if items[0].Str? then c.wikilinks(items[0].s) else []) + ListLinks(c, items[1..])
  }

  // ---- The recursion ----

  /** A page as its contract sees it. */
  datatype Node = Node(skill: string, fields: map<string, Value>)

  datatype Link = Link(field: string, skill: string, id: string)

  datatype Reason =
    | OwnState(field: string, current: string)
    | ThroughParent(field: string, page: string, why: Reason)

  function OwnReason(c: Corpus, n: Node): Option<Reason> {
    if n.skill !in c.contracts then None
    else match c.contracts[n.skill].freezeWhen
         case None => None
         case Some((field, values)) =>
           if field !in n.fields then None
           else match ScalarText(n.fields[field])
                case None => None
                case Some(v) => if v in values then Some(OwnState(field, v)) else None
  }

  function LinksOfFields(c: Corpus, fields: seq<Field>, n: Node): seq<Link> {
    if fields == [] then []
    else
      var f := fields[0];
      (if f.frozenByParent && f.isLink && f.name in n.fields
       then Tagged(f.name, Links(c, n.fields[f.name])) else [])
      + LinksOfFields(c, fields[1..], n)
  }

  function Tagged(field: string, targets: seq<(string, string)>): seq<Link> {
    if targets == [] then []
    else [Link(field, targets[0].0, targets[0].1)] + Tagged(field, targets[1..])
  }

  /** The `frozen_by_parent` links of a page, in field order. */
  function ParentLinks(c: Corpus, n: Node): seq<Link> {
    if n.skill !in c.contracts then [] else LinksOfFields(c, c.contracts[n.skill].fields, n)
  }

  /** Pending first, then stored. */
  function View(store: Store, pending: Store, page: string): Option<string> {
    if page in pending then Some(pending[page]) else if page in store then Some(store[page]) else None
  }

  /** The instance a page id names, governed by its own `skill:` or else by `otherwise`. */
  function NodeOf(c: Corpus, content: Option<string>, otherwise: Option<string>): Option<Node> {
    if content.None? then None
    else match c.parse(content.value)
         case None => None
         case Some(p) =>
           if p.kind != Instance then None
           else if "skill" in p.fields && p.fields["skill"].Str? then Some(Node(p.fields["skill"].s, p.fields))
           else match otherwise case None => None case Some(s) => Some(Node(s, p.fields))
  }

  function Parent(c: Corpus, store: Store, pending: Store, l: Link): Option<Node> {
    NodeOf(c, View(store, pending, InstancePageId(l.skill, l.id)), Some(l.skill))
  }

  /** Why the page is frozen. Without `own`, only its parents decide. */
  function FrozenReason(c: Corpus, store: Store, pending: Store, n: Node, own: bool, depth: nat): Option<Reason>
    decreases if depth < MAX_PARENT_DEPTH then MAX_PARENT_DEPTH - depth else 0, 1, 0
  {
    if own && OwnReason(c, n).Some? then OwnReason(c, n)
    else if depth >= MAX_PARENT_DEPTH then None
    else FirstFrozen(c, store, pending, ParentLinks(c, n), depth)
  }

  function FirstFrozen(c: Corpus, store: Store, pending: Store, links: seq<Link>, depth: nat): Option<Reason>
    requires depth < MAX_PARENT_DEPTH
    decreases MAX_PARENT_DEPTH - depth, 0, |links|
  {
    if links == [] then None
    else
      var why := match Parent(c, store, pending, links[0])
                 case None => None
                 case Some(m) => FrozenReason(c, store, pending, m, true, depth + 1);
      match why
      case Some(w) => Some(ThroughParent(links[0].field, InstancePageId(links[0].skill, links[0].id), w))
      case None => FirstFrozen(c, store, pending, links[1..], depth)
  }

  function StoredNode(c: Corpus, store: Store, page: string): Option<Node> {
    NodeOf(c, View(store, map[], page), PathSkill(page))
  }

  function StoredFrozenReason(c: Corpus, store: Store, pending: Store, page: string): Option<Reason> {
    match StoredNode(c, store, page)
    case None => None
    case Some(n) => FrozenReason(c, store, pending, n, true, 0)
  }

  /** The refusal of a write: the stored page is frozen, or the new content hangs under a frozen parent. */
  function FrozenWriteIssue(c: Corpus, store: Store, pending: Store, page: Option<string>,
                            skill: Option<string>, fields: map<string, Value>): Option<Reason>
  {
    var stored := if page.Some? then StoredFrozenReason(c, store, pending, page.value) else None;
    if stored.Some? then stored
    else if skill.Some? then FrozenReason(c, store, pending, Node(skill.value, fields), false, 0)
    else None
  }

  // ---- Reachability ----

  /** One step up: a link of the page below, and the page it resolves to. */
  datatype Hop = Hop(link: Link, node: Node)

  function HopPage(h: Hop): string { InstancePageId(h.link.skill, h.link.id) }

  ghost predicate IsChain(c: Corpus, store: Store, pending: Store, n: Node, hops: seq<Hop>)
    decreases |hops|
  {
    hops == [] || (
      && hops[0].link in ParentLinks(c, n)
      && Parent(c, store, pending, hops[0].link) == Some(hops[0].node)
      && IsChain(c, store, pending, hops[0].node, hops[1..]))
  }

  function End(n: Node, hops: seq<Hop>): Node {
    if hops == [] then n else hops[|hops| - 1].node
  }

  /** `hops` leads from the page to one that satisfies its own `freeze_when`. */
  ghost predicate Freezes(c: Corpus, store: Store, pending: Store, n: Node, hops: seq<Hop>) {
    IsChain(c, store, pending, n, hops) && OwnReason(c, End(n, hops)).Some?
  }

  lemma FreezesStep(c: Corpus, store: Store, pending: Store, n: Node, hops: seq<Hop>)
    requires hops != []
    ensures Freezes(c, store, pending, n, hops) <==>
            && hops[0].link in ParentLinks(c, n)
            && Parent(c, store, pending, hops[0].link) == Some(hops[0].node)
            && Freezes(c, store, pending, hops[0].node, hops[1..])
  {
    assert End(n, hops) == End(hops[0].node, hops[1..]);
  }

  /** A reason names a chain. */
  lemma {:induction false} ReasonHasChain(c: Corpus, store: Store, pending: Store, n: Node, own: bool, depth: nat)
    returns (hops: seq<Hop>)
    requires depth <= MAX_PARENT_DEPTH
    requires FrozenReason(c, store, pending, n, own, depth).Some?
    ensures |hops| <= MAX_PARENT_DEPTH - depth && (hops == [] ==> own)
    ensures Freezes(c, store, pending, n, hops)
    decreases MAX_PARENT_DEPTH - depth, 1, 0
  {
    if own && OwnReason(c, n).Some? {
      hops := [];
    } else {
      var links := ParentLinks(c, n);
      var h := LinkHasChain(c, store, pending, links, depth);
      var rest := ReasonHasChain(c, store, pending, h.node, true, depth + 1);
      hops := [h] + rest;
      assert hops[1..] == rest;
      FreezesStep(c, store, pending, n, hops);
    }
  }

  lemma {:induction false} LinkHasChain(c: Corpus, store: Store, pending: Store, links: seq<Link>, depth: nat)
    returns (h: Hop)
    requires depth < MAX_PARENT_DEPTH && FirstFrozen(c, store, pending, links, depth).Some?
    ensures h.link in links && Parent(c, store, pending, h.link) == Some(h.node)
    ensures FrozenReason(c, store, pending, h.node, true, depth + 1).Some?
    decreases |links|
  {
    var m := Parent(c, store, pending, links[0]);
    if m.Some? && FrozenReason(c, store, pending, m.value, true, depth + 1).Some? {
      h := Hop(links[0], m.value);
    } else {
      h := LinkHasChain(c, store, pending, links[1..], depth);
    }
  }

  /** A short enough chain is found. */
  lemma {:induction false} ChainIsFound(c: Corpus, store: Store, pending: Store, n: Node, own: bool, depth: nat, hops: seq<Hop>)
    requires depth <= MAX_PARENT_DEPTH && |hops| <= MAX_PARENT_DEPTH - depth && (hops == [] ==> own)
    requires Freezes(c, store, pending, n, hops)
    ensures FrozenReason(c, store, pending, n, own, depth).Some?
    decreases |hops|, 1, 0
  {
    if hops != [] {
      FreezesStep(c, store, pending, n, hops);
      ChainIsFound(c, store, pending, hops[0].node, true, depth + 1, hops[1..]);
      LinkIsFound(c, store, pending, ParentLinks(c, n), depth, hops[0]);
    }
  }

  lemma {:induction false} LinkIsFound(c: Corpus, store: Store, pending: Store, links: seq<Link>, depth: nat, h: Hop)
    requires depth < MAX_PARENT_DEPTH && h.link in links
    requires Parent(c, store, pending, h.link) == Some(h.node)
    requires FrozenReason(c, store, pending, h.node, true, depth + 1).Some?
    ensures FirstFrozen(c, store, pending, links, depth).Some?
    decreases |links|
  {
    if links[0] != h.link {
      LinkIsFound(c, store, pending, links[1..], depth, h);
    }
  }

  // ---- The same in terms of the pages ----

  /** `t` is the value, or a string in the list it is. */
  ghost predicate TextIn(v: Value, t: string) { v == Str(t) || (v.List? && Str(t) in v.items) }

  /** The contract declares a `frozen_by_parent` link field of that name, and its text links there. */
  ghost predicate LinksUp(c: Corpus, n: Node, l: Link) {
    && n.skill in c.contracts && Field(l.field, true, true) in c.contracts[n.skill].fields
    && l.field in n.fields
    && exists t :: TextIn(n.fields[l.field], t) && (l.skill, l.id) in c.wikilinks(t)
  }

  /** A string, a boolean or a number that is written `t`. */
  ghost predicate Spells(v: Value, t: string) {
    v == Str(t) || v == Number(t) || (v == Bool(true) && t == "true") || (v == Bool(false) && t == "false")
  }

  /** The field its contract names holds one of the freezing values. */
  ghost predicate FreezesItself(c: Corpus, n: Node) {
    && n.skill in c.contracts && c.contracts[n.skill].freezeWhen.Some?
    && var (field, values) := c.contracts[n.skill].freezeWhen.value;
       field in n.fields && exists t :: t in values && Spells(n.fields[field], t)
  }

  /** An instance page, under the skill it declares or else the one it is asked for as. */
  ghost predicate IsInstance(c: Corpus, content: string, otherwise: string, n: Node) {
    && c.parse(content) == Some(Page(Instance, n.fields))
    && if "skill" in n.fields && n.fields["skill"].Str? then n.fields["skill"] == Str(n.skill) else n.skill == otherwise
  }

  /** The page the link names, as the changeset writes it or else as stored, is this instance. */
  ghost predicate Resolves(c: Corpus, store: Store, pending: Store, l: Link, n: Node) {
    var page := "markdown/instances/" + l.skill + "/" + l.id + ".md";
    || (page in pending && IsInstance(c, pending[page], l.skill, n))
    || (page !in pending && page in store && IsInstance(c, store[page], l.skill, n))
  }

  /** From `n`, link by link, to a page that freezes itself. */
  ghost predicate Reaches(c: Corpus, store: Store, pending: Store, n: Node, hops: seq<Hop>)
    decreases |hops|
  {
    if hops == [] then FreezesItself(c, n)
    else
      && LinksUp(c, n, hops[0].link)
      && Resolves(c, store, pending, hops[0].link, hops[0].node)
      && Reaches(c, store, pending, hops[0].node, hops[1..])
  }

  lemma {:induction false} TaggedMembers(field: string, targets: seq<(string, string)>, l: Link)
    ensures l in Tagged(field, targets) <==> l.field == field && (l.skill, l.id) in targets
  {
    if targets != [] {
      TaggedMembers(field, targets[1..], l);
      assert targets == [targets[0]] + targets[1..];
    }
  }

  lemma {:induction false} ListLinksMembers(c: Corpus, items: seq<Value>, p: (string, string))
    ensures p in ListLinks(c, items) <==> exists t :: Str(t) in items && p in c.wikilinks(t)
  {
    if items != [] {
      ListLinksMembers(c, items[1..], p);
      assert items == [items[0]] + items[1..];
      if items[0].Str? && p in c.wikilinks(items[0].s) {
        assert Str(items[0].s) in items;
      }
      if t :| Str(t) in items && p in c.wikilinks(t) {
        assert Str(t) == items[0] || Str(t) in items[1..];
      }
    }
  }

  lemma LinksMembers(c: Corpus, v: Value, p: (string, string))
    ensures p in Links(c, v) <==> exists t :: TextIn(v, t) && p in c.wikilinks(t)
  {
    if v.Str? {
      assert TextIn(v, v.s);
    } else if v.List? {
      ListLinksMembers(c, v.items, p);
      if t :| Str(t) in v.items && p in c.wikilinks(t) {
        assert TextIn(v, t);
      }
    }
  }

  lemma {:induction false} FieldLinksMembers(c: Corpus, fields: seq<Field>, n: Node, l: Link)
    ensures l in LinksOfFields(c, fields, n) <==>
            && Field(l.field, true, true) in fields && l.field in n.fields
            && exists t :: TextIn(n.fields[l.field], t) && (l.skill, l.id) in c.wikilinks(t)
  {
    if fields != [] {
      FieldLinksMembers(c, fields[1..], n, l);
      var f := fields[0];
      assert fields == [f] + fields[1..];
      if f.frozenByParent && f.isLink && f.name in n.fields {
        TaggedMembers(f.name, Links(c, n.fields[f.name]), l);
        LinksMembers(c, n.fields[f.name], (l.skill, l.id));
        assert f == Field(f.name, true, true);
      }
    }
  }

  lemma ParentLinksIff(c: Corpus, n: Node, l: Link)
    ensures l in ParentLinks(c, n) <==> LinksUp(c, n, l)
  {
    if n.skill in c.contracts {
      FieldLinksMembers(c, c.contracts[n.skill].fields, n, l);
    }
  }

  lemma OwnReasonIff(c: Corpus, n: Node)
    ensures OwnReason(c, n).Some? <==> FreezesItself(c, n)
  {
    if n.skill in c.contracts && c.contracts[n.skill].freezeWhen.Some? {
      var (field, values) := c.contracts[n.skill].freezeWhen.value;
      if field in n.fields && ScalarText(n.fields[field]).Some? {
        assert Spells(n.fields[field], ScalarText(n.fields[field]).value);
      }
    }
  }

  lemma ParentIff(c: Corpus, store: Store, pending: Store, l: Link, n: Node)
    ensures Parent(c, store, pending, l) == Some(n) <==> Resolves(c, store, pending, l, n)
  {
    var page := "markdown/instances/" + l.skill + "/" + l.id + ".md";
    assert page == InstancePageId(l.skill, l.id);
  }

  lemma {:induction false} FreezesIff(c: Corpus, store: Store, pending: Store, n: Node, hops: seq<Hop>)
    ensures Freezes(c, store, pending, n, hops) <==> Reaches(c, store, pending, n, hops)
    decreases |hops|
  {
    if hops == [] {
      OwnReasonIff(c, n);
    } else {
      FreezesStep(c, store, pending, n, hops);
      ParentLinksIff(c, n, hops[0].link);
      ParentIff(c, store, pending, hops[0].link, hops[0].node);
      FreezesIff(c, store, pending, hops[0].node, hops[1..]);
    }
  }

  /**
   The recursion finds a reason iff a chain of at most `MAX_PARENT_DEPTH` links leads to a page that is
   frozen by its own state; the empty chain only when the page's own state counts.
   */
  lemma FrozenIffReachable(c: Corpus, store: Store, pending: Store, n: Node, own: bool, depth: nat)
    requires depth <= 4
    ensures FrozenReason(c, store, pending, n, own, depth).Some? <==>
            exists hops :: |hops| <= 4 - depth && (hops == [] ==> own) && Reaches(c, store, pending, n, hops)
  {
    if FrozenReason(c, store, pending, n, own, depth).Some? {
      var hops := ReasonHasChain(c, store, pending, n, own, depth);
      FreezesIff(c, store, pending, n, hops);
    }
    if hops :| |hops| <= 4 - depth && (hops == [] ==> own) && Reaches(c, store, pending, n, hops) {
      FreezesIff(c, store, pending, n, hops);
      ChainIsFound(c, store, pending, n, own, depth, hops);
    }
  }
}
