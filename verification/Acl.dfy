/** The instance read and write decisions (escurel-index/src/acl.rs). */
module Acl {

  import opened Wrappers
  import Text

  type Groups = set<string>

  datatype Policy = Policy(
    read: Option<seq<string>>, create: Option<seq<string>>, update: Option<seq<string>>,
    readReferenced: Option<seq<string>>, readEvents: Option<seq<string>>)

  datatype SkillAcl = SkillAcl(acl: Option<Policy>, ownerField: Option<string>, instanceAclDisabled: bool)

  /** A frontmatter value as far as the decision looks at it. */
  datatype Value = Str(text: string) | Block(policy: Policy) | Other

  type Frontmatter = map<string, Value>

  datatype Event = Event(labelSkill: string, links: set<(string, string)>, capturedBy: Option<string>)

  datatype Caller = Caller(subject: string, isAdmin: bool, tokenGroups: seq<string>, agentSkill: Option<string>)

  /**
   What the store answers: skill rows, tenant defaults, membership rows, whether a text is a wikilink to an
   instance and whose credential that instance holds, and the events that mention an instance.
   */
  datatype World = World(
    skills: map<string, SkillAcl>, defaults: Policy, members: string -> seq<string>,
    isLink: string -> bool, linkedOwner: string -> Option<string>,
    mentions: (string, string) -> seq<Event>)

  datatype Verb = Read | Create | Update

  function Reserved(): Groups { {"public", "owner", "admin"} }

  // ---- The decision ----

  function PolicyVerb(p: Policy, verb: Verb): Option<seq<string>> {
    match verb case Read => p.read case Create => p.create case Update => p.update
  }

  /** The first block of the chain that declares the verb, else the defaults, else nobody. */
  function ResolvePolicy(chain: seq<Option<Policy>>, verb: Verb, defaults: Policy): seq<string> {
    if chain == [] then
      match PolicyVerb(defaults, verb) case Some(groups) => groups case None => []
    else if chain[0].Some? && PolicyVerb(chain[0].value, verb).Some? then PolicyVerb(chain[0].value, verb).value
    else ResolvePolicy(chain[1..], verb, defaults)
  }

  /** The names that only structure may grant, left out. */
  function Unreserved(names: seq<string>): Groups { set g | g in names && g !in Reserved() }

  function CallerGroups(w: World, c: Caller): Groups {
    {"public"} + Unreserved(c.tokenGroups) + Unreserved(w.members(c.subject))
  }

  predicate Intersects(policy: seq<string>, effective: Groups) { exists g :: g in policy && g in effective }

  function SkillOf(w: World, skill: string): SkillAcl {
    if skill in w.skills then w.skills[skill] else SkillAcl(None, None, false)
  }

  function OwnerOf(w: World, raw: string): Option<string> {
    if w.isLink(raw) then w.linkedOwner(raw) else Some(raw)
  }

  function OwnerSubject(w: World, ownerField: Option<string>, fm: Frontmatter): Option<string> {
    if ownerField.None? || ownerField.value !in fm || !fm[ownerField.value].Str? then None
    else OwnerOf(w, fm[ownerField.value].text)
  }

  function InstanceAcl(fm: Frontmatter): Option<Policy> {
    if "acl" in fm && fm["acl"].Block? then Some(fm["acl"].policy) else None
  }

  function OwnBlock(a: SkillAcl, fm: Frontmatter): Option<Policy> {
    if a.instanceAclDisabled then None else InstanceAcl(fm)
  }

  function WithOwner(groups: Groups, owns: bool): Groups { if owns then groups + {"owner"} else groups }

  predicate ReadByPolicy(w: World, c: Caller, a: SkillAcl, fm: Frontmatter) {
    Intersects(ResolvePolicy([OwnBlock(a, fm), a.acl], Read, w.defaults),
               WithOwner(CallerGroups(w, c), OwnerSubject(w, a.ownerField, fm) == Some(c.subject)))
  }

  predicate ReadsEventByGrant(w: World, c: Caller, e: Event) {
    var acl := SkillOf(w, e.labelSkill).acl;
    acl.Some? && acl.value.readEvents.Some? && Intersects(acl.value.readEvents.value, CallerGroups(w, c))
  }

  /** A capturer is judged by subject and stored membership alone. */
  function AsCapturer(subject: string): Caller { Caller(subject, false, [], None) }

  predicate Vouches(w: World, c: Caller, a: SkillAcl, skill: string, id: string, fm: Frontmatter, e: Event) {
    && (skill, id) in e.links
    && ReadsEventByGrant(w, c, e)
    && e.capturedBy.Some?
    && ReadByPolicy(w, AsCapturer(e.capturedBy.value), a, fm)
  }

  function IdOf(fm: Frontmatter): Option<string> {
    if "id" in fm && fm["id"].Str? && fm["id"].text != "" then Some(fm["id"].text) else None
  }

  predicate ReadByReference(w: World, c: Caller, skill: string, a: SkillAcl, fm: Frontmatter) {
    && a.acl.Some? && a.acl.value.readReferenced.Some?
    && Intersects(a.acl.value.readReferenced.value, CallerGroups(w, c))
    && IdOf(fm).Some?
    && exists e :: e in w.mentions(skill, IdOf(fm).value) && Vouches(w, c, a, skill, IdOf(fm).value, fm, e)
  }

  predicate MayRead(w: World, c: Caller, skill: string, fm: Frontmatter) {
    var a := SkillOf(w, skill);
    c.isAdmin || ReadByPolicy(w, c, a, fm) || ReadByReference(w, c, skill, a, fm)
  }

  predicate InScope(c: Caller, skill: string) {
    c.agentSkill.Some? ==> skill in Text.Split(c.agentSkill.value, ',')
  }

  /** No stored page, or an owner-scoped one whose owner cannot be resolved any more. */
  predicate Unowned(w: World, a: SkillAcl, existing: Option<Frontmatter>) {
    existing.Some? ==> a.ownerField.Some? && OwnerSubject(w, a.ownerField, existing.value).None?
  }

  /** The stored page's owner; whoever owns the incoming text only where nobody owns the page. */
  predicate OwnsWrite(w: World, c: Caller, a: SkillAcl, existing: Option<Frontmatter>, incoming: Frontmatter) {
    || (existing.Some? && OwnerSubject(w, a.ownerField, existing.value) == Some(c.subject))
    || (Unowned(w, a, existing) && OwnerSubject(w, a.ownerField, incoming) == Some(c.subject))
  }

  function WritePolicy(w: World, a: SkillAcl, existing: Option<Frontmatter>): seq<string> {
    match existing
    case Some(fm) => ResolvePolicy([OwnBlock(a, fm), a.acl], Update, w.defaults)
    case None => ResolvePolicy([None, a.acl], Create, w.defaults)
  }

  predicate MayWrite(w: World, c: Caller, skill: string, existing: Option<Frontmatter>, incoming: Frontmatter) {
    var a := SkillOf(w, skill);
    || c.isAdmin
    || (&& InScope(c, skill)
        && Intersects(WritePolicy(w, a, existing), WithOwner(CallerGroups(w, c), OwnsWrite(w, c, a, existing, incoming))))
  }

  // ---- Monotone ----

  /** The same caller with further token groups. */
  predicate Extends(c: Caller, more: Caller) {
    && more.subject == c.subject && more.isAdmin == c.isAdmin && more.agentSkill == c.agentSkill
    && forall g :: g in c.tokenGroups ==> g in more.tokenGroups
  }

  /** Further token groups never turn an allow into a deny. */
  lemma GroupsOnlyGrant(w: World, c: Caller, more: Caller, skill: string, existing: Option<Frontmatter>, fm: Frontmatter)
    requires Extends(c, more)
    ensures MayRead(w, c, skill, fm) ==> MayRead(w, more, skill, fm)
    ensures MayWrite(w, c, skill, existing, fm) ==> MayWrite(w, more, skill, existing, fm)
  {}

  // ---- Reserved names ----

  /** Token and membership sources that agree once the reserved names are left out. */
  ghost predicate SameSources(w: World, c: Caller, members: string -> seq<string>, tokens: seq<string>) {
    && Unreserved(c.tokenGroups) == Unreserved(tokens)
    && forall s :: Unreserved(w.members(s)) == Unreserved(members(s))
  }

  /** Reserved names in a token or a membership row, anybody's, change no decision. */
  lemma ReservedNamesInert(w: World, c: Caller, members: string -> seq<string>, tokens: seq<string>,
                           skill: string, existing: Option<Frontmatter>, fm: Frontmatter)
    requires SameSources(w, c, members, tokens)
    ensures
      var w', c' := w.(members := members), c.(tokenGroups := tokens);
      && MayRead(w, c, skill, fm) == MayRead(w', c', skill, fm)
      && MayWrite(w, c, skill, existing, fm) == MayWrite(w', c', skill, existing, fm)
  {
    SameReference(w, c, members, tokens, skill, SkillOf(w, skill), fm);
    assert CallerGroups(w, c) == CallerGroups(w.(members := members), c.(tokenGroups := tokens));
  }

  lemma SameReference(w: World, c: Caller, members: string -> seq<string>, tokens: seq<string>,
                      skill: string, a: SkillAcl, fm: Frontmatter)
    requires SameSources(w, c, members, tokens)
    ensures ReadByReference(w, c, skill, a, fm) ==
            ReadByReference(w.(members := members), c.(tokenGroups := tokens), skill, a, fm)
  {
    var w', c' := w.(members := members), c.(tokenGroups := tokens);
    assert CallerGroups(w, c) == CallerGroups(w', c');
    forall id, e ensures Vouches(w, c, a, skill, id, fm, e) == Vouches(w', c', a, skill, id, fm, e) {
      if e.capturedBy.Some? {
        var capturer := AsCapturer(e.capturedBy.value);
        assert CallerGroups(w, capturer) == CallerGroups(w', capturer);
      }
    }
  }

  /** So a caller nobody gave a proper group is, to every decision, an anonymous one. */
  lemma ForgedNamesAreAnonymous(w: World, c: Caller, skill: string, existing: Option<Frontmatter>, fm: Frontmatter)
    requires forall g :: g in c.tokenGroups ==> g in Reserved()
    ensures MayRead(w, c, skill, fm) == MayRead(w, c.(tokenGroups := []), skill, fm)
    ensures MayWrite(w, c, skill, existing, fm) == MayWrite(w, c.(tokenGroups := []), skill, existing, fm)
  {
    ReservedNamesInert(w, c, w.members, [], skill, existing, fm);
    assert w.(members := w.members) == w;
  }

  // ---- Agent scope ----

  /** A scope restricts writes to its skills and does nothing else. */
  lemma ScopeOnlyRestricts(w: World, c: Caller, scope: string, skill: string, existing: Option<Frontmatter>, fm: Frontmatter)
    ensures
      var narrowed, free := c.(agentSkill := Some(scope)), c.(agentSkill := None);
      && (MayWrite(w, narrowed, skill, existing, fm) <==>
           MayWrite(w, free, skill, existing, fm) && (c.isAdmin || skill in Text.Split(scope, ',')))
      && (MayRead(w, narrowed, skill, fm) <==> MayRead(w, free, skill, fm))
  {}

  // ---- No write authorises itself ----

  /** Some text names this subject as owner. */
  ghost predicate Nameable(w: World, subject: string) { exists raw :: OwnerOf(w, raw) == Some(subject) }

  /** The caller's write hangs on owning the incoming page, and ownership is read from its `acl` key. */
  ghost predicate SelfAuthorising(w: World, c: Caller, skill: string, existing: Option<Frontmatter>) {
    var a := SkillOf(w, skill);
    && a.ownerField == Some("acl")
    && !c.isAdmin && InScope(c, skill)
    && Unowned(w, a, existing)
    && "owner" in WritePolicy(w, a, existing)
    && !Intersects(WritePolicy(w, a, existing), CallerGroups(w, c))
    && Nameable(w, c.subject)
  }

  /** The incoming page with another `acl` value, or with none. */
  function WithBlock(fm: Frontmatter, block: Option<Value>): Frontmatter {
    match block case Some(v) => fm["acl" := v] case None => fm - {"acl"}
  }

  lemma BlockUnused(w: World, c: Caller, skill: string, existing: Option<Frontmatter>, fm: Frontmatter, b: Option<Value>)
    requires SkillOf(w, skill).ownerField != Some("acl")
    ensures MayWrite(w, c, skill, existing, WithBlock(fm, b)) == MayWrite(w, c, skill, existing, fm)
  {}

  lemma OwnerDoesNotDecide(w: World, c: Caller, skill: string, existing: Option<Frontmatter>, fm: Frontmatter, fm': Frontmatter)
    requires
      var a := SkillOf(w, skill);
      || c.isAdmin || !InScope(c, skill) || !Unowned(w, a, existing)
      || "owner" !in WritePolicy(w, a, existing)
      || Intersects(WritePolicy(w, a, existing), CallerGroups(w, c))
      || !Nameable(w, c.subject)
    ensures MayWrite(w, c, skill, existing, fm) == MayWrite(w, c, skill, existing, fm')
  {}

  /** Otherwise a page decides for itself: naming the caller in its `acl` key allows, leaving the key out denies. */
  lemma BlockDecides(w: World, c: Caller, skill: string, existing: Option<Frontmatter>, fm: Frontmatter) returns (v: Value)
    requires SelfAuthorising(w, c, skill, existing)
    ensures MayWrite(w, c, skill, existing, WithBlock(fm, Some(v)))
    ensures !MayWrite(w, c, skill, existing, WithBlock(fm, None))
  {
    var a := SkillOf(w, skill);
    var raw :| OwnerOf(w, raw) == Some(c.subject);
    v := Str(raw);
    assert OwnerSubject(w, a.ownerField, WithBlock(fm, Some(v))) == Some(c.subject);
    var effective := WithOwner(CallerGroups(w, c), OwnsWrite(w, c, a, existing, WithBlock(fm, Some(v))));
    assert "owner" in effective;
    assert OwnerSubject(w, a.ownerField, WithBlock(fm, None)).None?;
    assert WithOwner(CallerGroups(w, c), OwnsWrite(w, c, a, existing, WithBlock(fm, None))) == CallerGroups(w, c);
  }

  /** The incoming page's own `acl` value has no say in its write, for any caller, exactly outside `SelfAuthorising`. */
  lemma OwnBlockIff(w: World, c: Caller, skill: string, existing: Option<Frontmatter>)
    ensures (forall fm, b :: MayWrite(w, c, skill, existing, WithBlock(fm, b)) == MayWrite(w, c, skill, existing, fm))
            <==> !SelfAuthorising(w, c, skill, existing)
  {
    if SelfAuthorising(w, c, skill, existing) {
      var v := BlockDecides(w, c, skill, existing, map[]);
      assert WithBlock(map[], None) == map[];
      assert MayWrite(w, c, skill, existing, WithBlock(map[], Some(v))) != MayWrite(w, c, skill, existing, map[]);
    } else {
      forall fm, b ensures MayWrite(w, c, skill, existing, WithBlock(fm, b)) == MayWrite(w, c, skill, existing, fm) {
        if SkillOf(w, skill).ownerField != Some("acl") {
          BlockUnused(w, c, skill, existing, fm, b);
        } else {
          OwnerDoesNotDecide(w, c, skill, existing, WithBlock(fm, b), fm);
        }
      }
    }
  }

  // ---- Who gets in ----

  /** The block that speaks for a verb: the first that declares it, or nobody before the defaults. */
  lemma {:induction false} MostSpecificWins(chain: seq<Option<Policy>>, verb: Verb, defaults: Policy, i: nat)
    requires i <= |chain|
    requires forall j :: 0 <= j < i ==> chain[j].None? || PolicyVerb(chain[j].value, verb).None?
    ensures i < |chain| && chain[i].Some? && PolicyVerb(chain[i].value, verb).Some? ==>
              ResolvePolicy(chain, verb, defaults) == PolicyVerb(chain[i].value, verb).value
    ensures i == |chain| ==>
              ResolvePolicy(chain, verb, defaults)
              == (if PolicyVerb(defaults, verb).Some? then PolicyVerb(defaults, verb).value else [])
  {
    if i > 0 {
      assert forall j :: 0 <= j < i - 1 ==> chain[1..][j] == chain[j + 1];
      MostSpecificWins(chain[1..], verb, defaults, i - 1);
    }
  }

  /** No source gives the structural groups. */
  lemma StructuralNotHeld(w: World, c: Caller)
    ensures "owner" !in CallerGroups(w, c) && "admin" !in CallerGroups(w, c)
  {}

  /** `acl_defaults` as shipped: anyone reads, administrators write. */
  predicate Shipped(p: Policy) {
    p.read == Some(["public"]) && p.create == Some(["admin"]) && p.update == Some(["admin"])
  }

  predicate Silent(fm: Frontmatter) { InstanceAcl(fm).None? }

  /** Where no block says anything, the shipped defaults let everyone read and only administrators write. */
  lemma ShippedDefaults(w: World, c: Caller, skill: string, existing: Option<Frontmatter>, fm: Frontmatter)
    requires Shipped(w.defaults) && SkillOf(w, skill).acl.None? && Silent(fm) && (existing.Some? ==> Silent(existing.value))
    ensures MayRead(w, c, skill, fm)
    ensures MayWrite(w, c, skill, existing, fm) <==> c.isAdmin
  {
    var a := SkillOf(w, skill);
    MostSpecificWins([OwnBlock(a, fm), a.acl], Read, w.defaults, 2);
    assert "public" in CallerGroups(w, c) && ["public"][0] == "public";
    assert Intersects(["public"], CallerGroups(w, c));
    MostSpecificWins([None, a.acl], Create, w.defaults, 2);
    if existing.Some? {
      MostSpecificWins([OwnBlock(a, existing.value), a.acl], Update, w.defaults, 2);
    }
    StructuralNotHeld(w, c);
  }

  /** The caller is in the group by a source of its own. */
  predicate Holds(w: World, c: Caller, g: string) {
    g == "public" || (g !in {"public", "owner", "admin"} && (g in c.tokenGroups || g in w.members(c.subject)))
  }

  /** Overwriting somebody else's page takes a group the update policy lists; owning the new text is no help. */
  lemma NoHijack(w: World, c: Caller, skill: string, existing: Frontmatter, incoming: Frontmatter)
    requires !c.isAdmin && MayWrite(w, c, skill, Some(existing), incoming)
    requires
      var owner := OwnerSubject(w, SkillOf(w, skill).ownerField, existing);
      owner.Some? && owner.value != c.subject
    ensures
      var a := SkillOf(w, skill);
      exists g :: g in ResolvePolicy([OwnBlock(a, existing), a.acl], Update, w.defaults) && g != "owner" && Holds(w, c, g)
  {}

  /** Creating a page in another's name takes a group the create policy lists. */
  lemma NoCreateForAnother(w: World, c: Caller, skill: string, incoming: Frontmatter)
    requires !c.isAdmin && MayWrite(w, c, skill, None, incoming)
    requires OwnerSubject(w, SkillOf(w, skill).ownerField, incoming) != Some(c.subject)
    ensures exists g :: g in ResolvePolicy([None, SkillOf(w, skill).acl], Create, w.defaults) && g != "owner" && Holds(w, c, g)
  {}

  /** An owner policy lets exactly the owner in: of the stored page, or of the incoming one where nobody owns it. */
  lemma OwnerOnly(w: World, c: Caller, skill: string, existing: Option<Frontmatter>, incoming: Frontmatter)
    requires WritePolicy(w, SkillOf(w, skill), existing) == ["owner"] && !c.isAdmin && c.agentSkill.None?
    ensures MayWrite(w, c, skill, existing, incoming) <==>
              var a := SkillOf(w, skill);
              match existing
              case None => OwnerSubject(w, a.ownerField, incoming) == Some(c.subject)
              case Some(stored) =>
                var owner := OwnerSubject(w, a.ownerField, stored);
                if owner.Some? then owner.value == c.subject
                else OwnerSubject(w, a.ownerField, incoming) == Some(c.subject)
  {
    StructuralNotHeld(w, c);
    var a := SkillOf(w, skill);
    var groups := CallerGroups(w, c);
    assert ["owner"][0] == "owner";
    assert Intersects(["owner"], WithOwner(groups, true)) && !Intersects(["owner"], WithOwner(groups, false));
  }

  // ---- The documented write rule ----

  predicate Owns(w: World, c: Caller, skill: string, fm: Frontmatter) {
    OwnerSubject(w, SkillOf(w, skill).ownerField, fm) == Some(c.subject)
  }

  /** Every admitted overwrite is by the owner of both the stored page and the incoming text. */
  ghost predicate OwnersOverwrite(w: World, c: Caller, skill: string, stored: Frontmatter) {
    forall incoming :: MayWrite(w, c, skill, Some(stored), incoming) ==>
      Owns(w, c, skill, stored) && Owns(w, c, skill, incoming)
  }

  /** Every admitted creation is by the owner of the incoming text. */
  ghost predicate OwnersCreate(w: World, c: Caller, skill: string) {
    forall incoming :: MayWrite(w, c, skill, None, incoming) ==> Owns(w, c, skill, incoming)
  }

  predicate ListedGroup(w: World, c: Caller, skill: string, existing: Option<Frontmatter>) {
    Intersects(WritePolicy(w, SkillOf(w, skill), existing), CallerGroups(w, c))
  }

  /** In scope, and holding a listed group, or `owner` listed and the page owned or open to reclaim. */
  ghost predicate CanOverwrite(w: World, c: Caller, skill: string, stored: Frontmatter) {
    var a := SkillOf(w, skill);
    InScope(c, skill) && (
      || ListedGroup(w, c, skill, Some(stored))
      || (&& "owner" in WritePolicy(w, a, Some(stored))
          && (Owns(w, c, skill, stored) || (Unowned(w, a, Some(stored)) && Nameable(w, c.subject)))))
  }

  /** Some text is admitted exactly when the caller can overwrite; it may be empty unless the page is being reclaimed. */
  lemma OverwriteAdmitted(w: World, c: Caller, skill: string, stored: Frontmatter) returns (text: Frontmatter)
    requires !c.isAdmin
    ensures CanOverwrite(w, c, skill, stored) ==> MayWrite(w, c, skill, Some(stored), text)
    ensures CanOverwrite(w, c, skill, stored) && Owns(w, c, skill, stored) ==> !Owns(w, c, skill, text)
    ensures !CanOverwrite(w, c, skill, stored) ==> forall incoming :: !MayWrite(w, c, skill, Some(stored), incoming)
  {
    var a := SkillOf(w, skill);
    var policy, groups := WritePolicy(w, a, Some(stored)), CallerGroups(w, c);
    StructuralNotHeld(w, c);
    text := map[];
    assert "owner" in policy ==> Intersects(policy, WithOwner(groups, true));
    if CanOverwrite(w, c, skill, stored) && !ListedGroup(w, c, skill, Some(stored)) && !Owns(w, c, skill, stored) {
      var raw :| OwnerOf(w, raw) == Some(c.subject);
      text := map[a.ownerField.value := Str(raw)];
      assert OwnerSubject(w, a.ownerField, text) == Some(c.subject);
    }
    if !CanOverwrite(w, c, skill, stored) {
      forall incoming: Frontmatter ensures !MayWrite(w, c, skill, Some(stored), incoming) {
        if OwnsWrite(w, c, a, Some(stored), incoming) && !Owns(w, c, skill, stored) {
          assert OwnerOf(w, incoming[a.ownerField.value].text) == Some(c.subject);
        }
      }
    }
  }

  /**
   The documented rule, ownership of both the stored page and the incoming text, holds of a caller's
   overwrites exactly when the caller cannot overwrite the page at all.
   */
  lemma OverwriteRuleIff(w: World, c: Caller, skill: string, stored: Frontmatter)
    requires !c.isAdmin
    ensures OwnersOverwrite(w, c, skill, stored) <==> !CanOverwrite(w, c, skill, stored)
  {
    var text := OverwriteAdmitted(w, c, skill, stored);
  }

  /** On creation it holds exactly when no group the caller holds is listed, or the skill is out of scope. */
  lemma CreateRuleIff(w: World, c: Caller, skill: string)
    requires !c.isAdmin
    ensures OwnersCreate(w, c, skill) <==> !(InScope(c, skill) && ListedGroup(w, c, skill, None))
  {
    StructuralNotHeld(w, c);
    if InScope(c, skill) && ListedGroup(w, c, skill, None) {
      var none: Frontmatter := map[];
      assert !Owns(w, c, skill, none) && MayWrite(w, c, skill, None, none);
    }
  }

  /** Instances of a skill without an owner field are for administrators alone exactly when no held group is listed. */
  lemma OwnerlessRuleIff(w: World, c: Caller, skill: string, existing: Option<Frontmatter>)
    requires !c.isAdmin && SkillOf(w, skill).ownerField.None?
    ensures (forall incoming :: !MayWrite(w, c, skill, existing, incoming)) <==>
            !(InScope(c, skill) && ListedGroup(w, c, skill, existing))
  {
    if InScope(c, skill) && ListedGroup(w, c, skill, existing) {
      assert MayWrite(w, c, skill, existing, map[]);
    }
  }

  /** A skill whose instances their owners update, and no other skill. */
  function OwnersWorld(): World {
    World(map["note" := SkillAcl(Some(Policy(None, None, Some(["owner"]), None, None)), Some("by"), false)],
          Policy(Some(["public"]), Some(["admin"]), Some(["admin"]), None, None),
          (s: string) => [], (s: string) => false, (s: string) => None, (s: string, i: string) => [])
  }

  /** The owner hands the page over, and with it the right to write it. */
  lemma Transfer(ann: Caller, bob: Caller)
    requires ann == Caller("ann", false, [], None) && bob == Caller("bob", false, [], None)
    ensures
      var (w, mine, theirs) := (OwnersWorld(), map["by" := Str("ann")], map["by" := Str("bob")]);
      && Owns(w, ann, "note", mine) && !Owns(w, ann, "note", theirs)
      && MayWrite(w, ann, "note", Some(mine), theirs)
      && !MayWrite(w, ann, "note", Some(theirs), mine) && MayWrite(w, bob, "note", Some(theirs), mine)
  {
    var (w, mine, theirs) := (OwnersWorld(), map["by" := Str("ann")], map["by" := Str("bob")]);
    var a := SkillOf(w, "note");
    MostSpecificWins([OwnBlock(a, mine), a.acl], Update, w.defaults, 1);
    MostSpecificWins([OwnBlock(a, theirs), a.acl], Update, w.defaults, 1);
    OwnerOnly(w, ann, "note", Some(mine), theirs);
    OwnerOnly(w, ann, "note", Some(theirs), mine);
    OwnerOnly(w, bob, "note", Some(theirs), mine);
  }

  /** A reference grant never shows a page its capturer could not read, nor to a caller without both grants. */
  lemma ReferenceIsVouched(w: World, c: Caller, skill: string, fm: Frontmatter) returns (e: Event)
    requires MayRead(w, c, skill, fm) && !c.isAdmin && !ReadByPolicy(w, c, SkillOf(w, skill), fm)
    ensures IdOf(fm).Some? && e in w.mentions(skill, IdOf(fm).value) && e.capturedBy.Some?
    ensures MayRead(w, AsCapturer(e.capturedBy.value), skill, fm) && ReadsEventByGrant(w, c, e)
  {
    var id := IdOf(fm).value;
    e :| e in w.mentions(skill, id) && Vouches(w, c, SkillOf(w, skill), skill, id, fm, e);
  }

  // ---- The decisions in terms of the pages ----

  /** The policy says this of the verb. */
  predicate Says(p: Policy, verb: Verb, groups: seq<string>) {
    || (verb == Read && p.read == Some(groups))
    || (verb == Create && p.create == Some(groups))
    || (verb == Update && p.update == Some(groups))
  }

  /** The page's own block says it, and its skill, if it is declared at all, has not switched such blocks off. */
  predicate PageSays(w: World, skill: string, fm: Frontmatter, verb: Verb, groups: seq<string>) {
    && (skill in w.skills ==> !w.skills[skill].instanceAclDisabled)
    && "acl" in fm && fm["acl"].Block? && Says(fm["acl"].policy, verb, groups)
  }

  predicate SkillSays(w: World, skill: string, verb: Verb, groups: seq<string>) {
    skill in w.skills && w.skills[skill].acl.Some? && Says(w.skills[skill].acl.value, verb, groups)
  }

  /** The page's block speaks for the verb, else the skill's, else the defaults, else nobody. */
  ghost predicate Speaks(w: World, skill: string, page: Option<Frontmatter>, verb: Verb, groups: seq<string>) {
    || (page.Some? && PageSays(w, skill, page.value, verb, groups))
    || (&& (page.Some? ==> forall other :: !PageSays(w, skill, page.value, verb, other))
        && (|| SkillSays(w, skill, verb, groups)
            || ((forall other :: !SkillSays(w, skill, verb, other)) && Says(w.defaults, verb, groups))))
  }

  /** The page names the subject in its skill's owner field, directly or by a link to an instance of theirs. */
  ghost predicate OwnedBy(w: World, skill: string, fm: Frontmatter, subject: string) {
    exists field, raw ::
      && skill in w.skills && w.skills[skill].ownerField == Some(field) && field in fm && fm[field] == Str(raw)
      && if w.isLink(raw) then w.linkedOwner(raw) == Some(subject) else raw == subject
  }

  /** What the blocks say, as a chain. */
  function PageBlock(a: SkillAcl, page: Option<Frontmatter>): Option<Policy> {
    if page.Some? then OwnBlock(a, page.value) else None
  }

  lemma PageSaysIff(w: World, skill: string, page: Option<Frontmatter>, verb: Verb, groups: seq<string>)
    ensures page.Some? && PageSays(w, skill, page.value, verb, groups) <==>
            PageBlock(SkillOf(w, skill), page).Some? && PolicyVerb(PageBlock(SkillOf(w, skill), page).value, verb) == Some(groups)
  {}

  lemma SkillSaysIff(w: World, skill: string, verb: Verb, groups: seq<string>)
    ensures SkillSays(w, skill, verb, groups) <==>
            SkillOf(w, skill).acl.Some? && PolicyVerb(SkillOf(w, skill).acl.value, verb) == Some(groups)
  {}

  /** Whatever speaks is what the chain resolves to, and where nothing speaks it resolves to nobody. */
  lemma ResolvedSpeaks(w: World, skill: string, page: Option<Frontmatter>, verb: Verb, groups: seq<string>)
    ensures
      var a := SkillOf(w, skill);
      var resolved := ResolvePolicy([PageBlock(a, page), a.acl], verb, w.defaults);
      && (Speaks(w, skill, page, verb, groups) ==> groups == resolved)
      && (resolved != [] ==> Speaks(w, skill, page, verb, resolved))
  {
    var a := SkillOf(w, skill);
    var chain := [PageBlock(a, page), a.acl];
    assert chain[1..] == [a.acl] && chain[1..][1..] == [];
    forall other ensures page.Some? && PageSays(w, skill, page.value, verb, other) <==>
                         chain[0].Some? && PolicyVerb(chain[0].value, verb) == Some(other)
    {
      PageSaysIff(w, skill, page, verb, other);
    }
    forall other ensures SkillSays(w, skill, verb, other) <==> a.acl.Some? && PolicyVerb(a.acl.value, verb) == Some(other) {
      SkillSaysIff(w, skill, verb, other);
    }
    if chain[0].Some? && PolicyVerb(chain[0].value, verb).Some? {
      assert PageSays(w, skill, page.value, verb, PolicyVerb(chain[0].value, verb).value);
    } else {
      if a.acl.Some? && PolicyVerb(a.acl.value, verb).Some? {
        assert SkillSays(w, skill, verb, PolicyVerb(a.acl.value, verb).value);
      } else {
        MostSpecificWins(chain, verb, w.defaults, 2);
      }
    }
  }

  lemma OwnedIff(w: World, skill: string, fm: Frontmatter, subject: string)
    ensures OwnerSubject(w, SkillOf(w, skill).ownerField, fm) == Some(subject) <==> OwnedBy(w, skill, fm, subject)
  {}

  lemma HeldIff(w: World, c: Caller, owns: bool, g: string)
    ensures g in WithOwner(CallerGroups(w, c), owns) <==> Holds(w, c, g) || (owns && g == "owner")
  {}

  /** Some group that speaks for the verb is the caller's, or is `owner` and the caller owns. */
  ghost predicate Granted(w: World, c: Caller, skill: string, page: Option<Frontmatter>, verb: Verb, owns: bool) {
    exists groups, g :: Speaks(w, skill, page, verb, groups) && g in groups && (Holds(w, c, g) || (owns && g == "owner"))
  }

  lemma GrantedIff(w: World, c: Caller, skill: string, page: Option<Frontmatter>, verb: Verb, owns: bool)
    ensures
      var a := SkillOf(w, skill);
      Intersects(ResolvePolicy([PageBlock(a, page), a.acl], verb, w.defaults), WithOwner(CallerGroups(w, c), owns))
      <==> Granted(w, c, skill, page, verb, owns)
  {
    var a := SkillOf(w, skill);
    forall groups ensures Speaks(w, skill, page, verb, groups) ==> groups == ResolvePolicy([PageBlock(a, page), a.acl], verb, w.defaults) {
      ResolvedSpeaks(w, skill, page, verb, groups);
    }
    ResolvedSpeaks(w, skill, page, verb, []);
    forall g ensures g in WithOwner(CallerGroups(w, c), owns) <==> Holds(w, c, g) || (owns && g == "owner") {
      HeldIff(w, c, owns, g);
    }
  }

  /** The event is of a skill whose `read_events` lists one of the caller's groups. */
  ghost predicate EventGranted(w: World, c: Caller, e: Event) {
    exists groups, g ::
      && e.labelSkill in w.skills && w.skills[e.labelSkill].acl.Some?
      && w.skills[e.labelSkill].acl.value.readEvents == Some(groups) && g in groups && Holds(w, c, g)
  }

  /** The skill's `read_referenced` lists one of the caller's groups. */
  ghost predicate ReferenceGranted(w: World, c: Caller, skill: string) {
    exists groups, g ::
      && skill in w.skills && w.skills[skill].acl.Some?
      && w.skills[skill].acl.value.readReferenced == Some(groups) && g in groups && Holds(w, c, g)
  }

  /** Whoever captured the event, with stored memberships alone, is granted the page. */
  ghost predicate CapturerGranted(w: World, skill: string, fm: Frontmatter, e: Event) {
    exists subject ::
      && e.capturedBy == Some(subject)
      && Granted(w, Caller(subject, false, [], None), skill, Some(fm), Read, OwnedBy(w, skill, fm, subject))
  }

  /** An event that links the page, that the caller may read, and whose capturer may read the page. */
  ghost predicate Referenced(w: World, c: Caller, skill: string, fm: Frontmatter) {
    exists id, e ::
      && id != "" && "id" in fm && fm["id"] == Str(id)
      && e in w.mentions(skill, id) && (skill, id) in e.links && EventGranted(w, c, e) && CapturerGranted(w, skill, fm, e)
  }

  lemma ReadGrantIff(w: World, c: Caller, skill: string, fm: Frontmatter)
    ensures ReadByPolicy(w, c, SkillOf(w, skill), fm) <==>
            Granted(w, c, skill, Some(fm), Read, OwnedBy(w, skill, fm, c.subject))
  {
    OwnedIff(w, skill, fm, c.subject);
    GrantedIff(w, c, skill, Some(fm), Read, OwnedBy(w, skill, fm, c.subject));
  }

  lemma ReferenceIff(w: World, c: Caller, skill: string, fm: Frontmatter)
    ensures ReadByReference(w, c, skill, SkillOf(w, skill), fm) <==>
            ReferenceGranted(w, c, skill) && Referenced(w, c, skill, fm)
  {
    var a := SkillOf(w, skill);
    forall g ensures g in CallerGroups(w, c) <==> Holds(w, c, g) {
      HeldIff(w, c, false, g);
    }
    forall e, id ensures Vouches(w, c, a, skill, id, fm, e) <==>
                         (skill, id) in e.links && EventGranted(w, c, e) && CapturerGranted(w, skill, fm, e)
    {
      if e.capturedBy.Some? {
        ReadGrantIff(w, AsCapturer(e.capturedBy.value), skill, fm);
      }
    }
  }

  /** Who may read: an administrator, whoever the page's policy lets in, and whoever an event vouches for. */
  lemma ReadIff(w: World, c: Caller, skill: string, fm: Frontmatter)
    ensures MayRead(w, c, skill, fm) <==>
            || c.isAdmin
            || Granted(w, c, skill, Some(fm), Read, OwnedBy(w, skill, fm, c.subject))
            || (ReferenceGranted(w, c, skill) && Referenced(w, c, skill, fm))
  {
    ReadGrantIff(w, c, skill, fm);
    ReferenceIff(w, c, skill, fm);
  }

  /** The stored page's owner, or the incoming one's where the skill has an owner field and nobody owns the page. */
  ghost predicate WriterOwns(w: World, c: Caller, skill: string, existing: Option<Frontmatter>, incoming: Frontmatter) {
    match existing
    case None => OwnedBy(w, skill, incoming, c.subject)
    case Some(stored) =>
      || OwnedBy(w, skill, stored, c.subject)
      || ((forall other :: !OwnedBy(w, skill, stored, other)) && OwnedBy(w, skill, incoming, c.subject))
  }

  lemma WriterOwnsIff(w: World, c: Caller, skill: string, existing: Option<Frontmatter>, incoming: Frontmatter)
    ensures OwnsWrite(w, c, SkillOf(w, skill), existing, incoming) <==> WriterOwns(w, c, skill, existing, incoming)
  {
    OwnedIff(w, skill, incoming, c.subject);
    if existing.Some? {
      forall other ensures OwnerSubject(w, SkillOf(w, skill).ownerField, existing.value) == Some(other) <==>
                           OwnedBy(w, skill, existing.value, other)
      {
        OwnedIff(w, skill, existing.value, other);
      }
    }
  }

  /**
   Who may write: an administrator, or a caller in scope whom the policy lets in: over a stored page the
   page's for updates, on creation the skill's for creations, the incoming page's own block never.
   */
  lemma WriteIff(w: World, c: Caller, skill: string, existing: Option<Frontmatter>, incoming: Frontmatter)
    ensures MayWrite(w, c, skill, existing, incoming) <==>
            || c.isAdmin
            || (&& (c.agentSkill.Some? ==> skill in Text.Split(c.agentSkill.value, ','))
                && Granted(w, c, skill, existing, if existing.Some? then Update else Create,
                           WriterOwns(w, c, skill, existing, incoming)))
  {
    WriterOwnsIff(w, c, skill, existing, incoming);
    GrantedIff(w, c, skill, existing, if existing.Some? then Update else Create,
               WriterOwns(w, c, skill, existing, incoming));
  }

  // ---- The code ----

  /** The block that speaks for reads of the page lists the group. */
  predicate Lists(w: World, skill: string, fm: Frontmatter, g: string) {
    var a := SkillOf(w, skill);
    g in ResolvePolicy([OwnBlock(a, fm), a.acl], Read, w.defaults)
  }

  /** The caller reads the event by grant, and who captured it may read the page. */
  predicate ShownBy(w: World, c: Caller, skill: string, fm: Frontmatter, e: Event) {
    ReadsEventByGrant(w, c, e) && e.capturedBy.Some? && MayRead(w, AsCapturer(e.capturedBy.value), skill, fm)
  }

  method CollectGroups(w: World, c: Caller) returns (groups: Groups)
    ensures groups == CallerGroups(w, c)
  {
    groups := {"public"};
    for i := 0 to |c.tokenGroups|
      invariant groups == {"public"} + Unreserved(c.tokenGroups[..i])
    {
      TakeOneMore(c.tokenGroups, i);
      if c.tokenGroups[i] !in Reserved() {
        groups := groups + {c.tokenGroups[i]};
      }
    }
    assert c.tokenGroups[..|c.tokenGroups|] == c.tokenGroups;
    var rows := w.members(c.subject);
    for i := 0 to |rows|
      invariant groups == {"public"} + Unreserved(c.tokenGroups) + Unreserved(rows[..i])
    {
      TakeOneMore(rows, i);
      if rows[i] !in Reserved() {
        groups := groups + {rows[i]};
      }
    }
    assert rows[..|rows|] == rows;
  }

  lemma TakeOneMore(names: seq<string>, i: nat)
    requires i < |names|
    ensures Unreserved(names[..i + 1]) == Unreserved(names[..i]) + if names[i] in Reserved() then {} else {names[i]}
  {
    assert names[..i + 1] == names[..i] + [names[i]];
  }

  method DecideByPolicy(w: World, c: Caller, a: SkillAcl, fm: Frontmatter) returns (allowed: bool)
    ensures allowed == ReadByPolicy(w, c, a, fm)
    ensures allowed <==>
              exists g :: g in ResolvePolicy([OwnBlock(a, fm), a.acl], Read, w.defaults) &&
                (Holds(w, c, g) || (g == "owner" && OwnerSubject(w, a.ownerField, fm) == Some(c.subject)))
  {
    var policy := ResolvePolicy([OwnBlock(a, fm), a.acl], Read, w.defaults);
    var effective := CollectGroups(w, c);
    if OwnerSubject(w, a.ownerField, fm) == Some(c.subject) {
      effective := effective + {"owner"};
    }
    allowed := Intersects(policy, effective);
  }

  method DecideByReference(w: World, c: Caller, skill: string, a: SkillAcl, fm: Frontmatter) returns (allowed: bool)
    ensures allowed == ReadByReference(w, c, skill, a, fm)
  {
    if a.acl.None? || a.acl.value.readReferenced.None? || IdOf(fm).None? {
      return false;
    }
    var groups := CollectGroups(w, c);
    if !Intersects(a.acl.value.readReferenced.value, groups) {
      return false;
    }
    var id := IdOf(fm).value;
    var events := w.mentions(skill, id);
    for i := 0 to |events|
      invariant forall e :: e in events[..i] ==> !Vouches(w, c, a, skill, id, fm, e)
    {
      var event := events[i];
      if (skill, id) in event.links && ReadsEventByGrant(w, c, event) && event.capturedBy.Some? {
        var sees := DecideByPolicy(w, AsCapturer(event.capturedBy.value), a, fm);
        if sees {
          assert event in events && Vouches(w, c, a, skill, id, fm, event);
          return true;
        }
      }
      assert events[..i + 1] == events[..i] + [event];
    }
    assert events[..|events|] == events;
    allowed := false;
  }

  method MayReadInstance(w: World, c: Caller, skill: string, fm: Frontmatter) returns (allowed: bool)
    ensures allowed == MayRead(w, c, skill, fm)
    // An allow names its ground, a deny leaves none.
    ensures !allowed ==> !c.isAdmin && forall g :: Holds(w, c, g) ==> !Lists(w, skill, fm, g)
    ensures !allowed && OwnerSubject(w, SkillOf(w, skill).ownerField, fm) == Some(c.subject) ==> !Lists(w, skill, fm, "owner")
    ensures allowed && !c.isAdmin ==>
              || (exists g :: Holds(w, c, g) && Lists(w, skill, fm, g))
              || (Lists(w, skill, fm, "owner") && OwnerSubject(w, SkillOf(w, skill).ownerField, fm) == Some(c.subject))
              || (IdOf(fm).Some? && exists e :: e in w.mentions(skill, IdOf(fm).value) && ShownBy(w, c, skill, fm, e))
  {
    if c.isAdmin {
      return true;
    }
    var a := SkillOf(w, skill);
    allowed := DecideByPolicy(w, c, a, fm);
    if !allowed {
      allowed := DecideByReference(w, c, skill, a, fm);
    }
  }

  method MayWriteInstance(w: World, c: Caller, skill: string, existing: Option<Frontmatter>, incoming: Frontmatter)
    returns (allowed: bool)
    ensures allowed == MayWrite(w, c, skill, existing, incoming)
  {
    if c.isAdmin {
      return true;
    }
    if c.agentSkill.Some? && skill !in Text.Split(c.agentSkill.value, ',') {
      return false;
    }
    var a := SkillOf(w, skill);
    var effective := CollectGroups(w, c);
    var verb := Create;
    match existing {
    case Some(fm) =>
      var owner := OwnerSubject(w, a.ownerField, fm);
      if owner == Some(c.subject) {
        effective := effective + {"owner"};
      } else if a.ownerField.Some? && owner.None? && OwnerSubject(w, a.ownerField, incoming) == Some(c.subject) {
        effective := effective + {"owner"};
      }
      verb := Update;
    case None =>
      if OwnerSubject(w, a.ownerField, incoming) == Some(c.subject) {
        effective := effective + {"owner"};
      }
    }
    var instance := if existing.Some? then OwnBlock(a, existing.value) else None;
    allowed := Intersects(ResolvePolicy([instance, a.acl], verb, w.defaults), effective);
  }
}
