// The closed schema dialect: what the guard walks, what it accepts, and when
// it comes to an end (server/internal/assets/schema_guard.go:26-229).
module SchemaGuard {
  import opened Wrappers
  import opened JsonValue
  import opened JsonPointer
  import opened Exploration

  const KEYWORDS: set<string> := {
    "type", "properties", "required", "additionalProperties", "items", "$ref", "enum", "const", "minLength",
    "maxLength", "pattern", "minimum", "maximum", "exclusiveMinimum", "exclusiveMaximum", "minItems", "maxItems",
    "uniqueItems",
    "title", "description", "default", "examples", "$comment", "$defs", "$id", "$schema", "deprecated", "readOnly",
    "writeOnly"}

  const TYPES: set<string> := {"object", "array", "string", "integer", "number", "boolean", "null"}

  const MAX_REF_DEPTH: nat := 32

  // One of the four places that nested schemas are in: the schemas found, and
  // whether they are walked with a fresh chain; or a value of the wrong shape.
  datatype Section = Broken | Walks(nodes: seq<Json>, resets: bool)

  // The guard of one document; the tables are the dialect's.
  datatype Guard = Guard(root: Json, keywords: set<string>, types: set<string>)

  function GuardOf(root: Json): Guard { Guard(root, KEYWORDS, TYPES) }

  predicate AllowedKeys(g: Guard, members: seq<Member>) { forall m | m in members :: m.key in g.keywords }

  predicate IsTypeName(g: Guard, j: Json) { j.Text? && j.s in g.types }

  predicate TypeOk(g: Guard, t: Option<Json>) {
    match t
    case None => true
    case Some(Text(s)) => s in g.types
    case Some(Array(items)) => forall i | 0 <= i < |items| :: IsTypeName(g, items[i])
    case _ => false
  }

  predicate RequiredOk(r: Option<Json>) {
    match r
    case None => true
    case Some(Array(items)) => forall i | 0 <= i < |items| :: items[i].Text?
    case _ => false
  }

  function Values(members: seq<Member>): (r: seq<Json>)
    ensures |r| == |members| && forall i | 0 <= i < |r| :: r[i] == members[i].value
  {
    seq(|members|, i requires 0 <= i < |members| => members[i].value)
  }

  function SchemaMap(v: Option<Json>, resets: bool): Section {
    match v
    case None => Walks([], resets)
    case Some(Object(members)) => Walks(Values(members), resets)
    case _ => Broken
  }

  function SchemaAt(v: Option<Json>, orBoolean: bool): Section {
    match v
    case None => Walks([], false)
    case Some(j) => if orBoolean && j.Boolean? then Walks([], false) else Walks([j], false)
  }

  // In the order they are walked.
  function Sections(members: seq<Member>): (r: seq<Section>)
    ensures |r| == 4
  {
    [SchemaMap(Get(members, "properties"), false), SchemaAt(Get(members, "additionalProperties"), true),
     SchemaAt(Get(members, "items"), false), SchemaMap(Get(members, "$defs"), true)]
  }

  // The keyword of a section.
  function KeywordAt(i: nat): string
    requires i < 4
  {
    ["properties", "additionalProperties", "items", "$defs"][i]
  }

  // The target of a reference that is well formed and resolves.
  function Target(g: Guard, members: seq<Member>): Option<Json> {
    match Get(members, "$ref")
    case Some(Text(ref)) => if |members| == 1 && IsLocal(ref) then Resolve(g.root, ref) else None
    case _ => None
  }

  // The guard has no bound of its own on how long it walks; `fuel` bounds how
  // many schemas deep it goes here, and Exhausted says that it went deeper.
  function Walk(g: Guard, node: Json, chain: set<string>, fuel: nat): Verdict
    decreases fuel, 5, 0
  {
    if fuel == 0 then Exhausted
    else if !node.Object? || !AllowedKeys(g, node.members) then Rejected
    else
      match Get(node.members, "$ref")
      case Some(ref) =>
        if |node.members| != 1 || !ref.Text? || !IsLocal(ref.s) then Rejected
        else WalkRef(g, ref.s, chain, fuel)
      case None =>
        if !TypeOk(g, Get(node.members, "type")) || !RequiredOk(Get(node.members, "required")) then Rejected
        else WalkSections(g, Sections(node.members), chain, fuel)
  }

  function WalkRef(g: Guard, ref: string, chain: set<string>, fuel: nat): Verdict
    requires fuel > 0
    decreases fuel, 4, 0
  {
    if ref in chain || |chain| >= MAX_REF_DEPTH then Rejected
    else
      match Resolve(g.root, ref)
      case None => Rejected
      case Some(target) => Walk(g, target, chain + {ref}, fuel - 1)
  }

  function WalkSections(g: Guard, sections: seq<Section>, chain: set<string>, fuel: nat): Verdict
    requires fuel > 0
    decreases fuel, 3, |sections|
  {
    if sections == [] then Accepted
    else if sections[0].Broken? then Rejected
    else
      var first := WalkAll(g, sections[0].nodes, if sections[0].resets then {} else chain, fuel);
      if first != Accepted then first else WalkSections(g, sections[1..], chain, fuel)
  }

  function WalkAll(g: Guard, nodes: seq<Json>, chain: set<string>, fuel: nat): Verdict
    requires fuel > 0
    decreases fuel, 2, |nodes|
  {
    if nodes == [] then Accepted
    else
      var first := Walk(g, nodes[0], chain, fuel - 1);
      if first != Accepted then first else WalkAll(g, nodes[1..], chain, fuel)
  }

  function Outcome(g: Guard, fuel: nat): Verdict { Walk(g, g.root, {}, fuel) }

  // ---- Where a walk goes ----

  // A schema and the references followed to it since the last fresh chain.
  datatype Spot = Spot(node: Json, chain: set<string>)

  // What the dialect asks of one schema object.
  predicate Dialect(g: Guard, node: Json) {
    && node.Object? && AllowedKeys(g, node.members)
    && if Get(node.members, "$ref").Some? then Target(g, node.members).Some?
       else
         && TypeOk(g, Get(node.members, "type")) && RequiredOk(Get(node.members, "required"))
         && forall i | 0 <= i < 4 :: !Sections(node.members)[i].Broken?
  }

  // A reference is followed once along a chain, and a chain is short.
  predicate ChainOk(s: Spot) {
    s.node.Object? && Get(s.node.members, "$ref").Some? ==>
      |s.chain| < MAX_REF_DEPTH && Get(s.node.members, "$ref").value.Text? &&
        Get(s.node.members, "$ref").value.s !in s.chain
  }

  predicate Good(g: Guard, s: Spot) { Dialect(g, s.node) && ChainOk(s) }

  // The schemas one step away: the target of a reference that may be followed,
  // or the schemas nested in the four sections.
  predicate Leads(g: Guard, s: Spot, t: Spot) {
    && s.node.Object?
    && if Get(s.node.members, "$ref").Some?
       then ChainOk(s) && Target(g, s.node.members) == Some(t.node) &&
         t.chain == s.chain + {Get(s.node.members, "$ref").value.s}
       else exists i :: 0 <= i < 4 && InSection(Sections(s.node.members)[i], s.chain, t)
  }

  predicate InSection(section: Section, chain: set<string>, t: Spot) {
    section.Walks? && t.node in section.nodes && t.chain == if section.resets then {} else chain
  }

  lemma {:induction false} AllAccepted(g: Guard, nodes: seq<Json>, chain: set<string>, fuel: nat)
    requires fuel > 0
    ensures WalkAll(g, nodes, chain, fuel) == Accepted ==>
            forall n | n in nodes :: Walk(g, n, chain, fuel - 1) == Accepted
    ensures WalkAll(g, nodes, chain, fuel) != Accepted ==>
              exists n :: n in nodes && Walk(g, n, chain, fuel - 1) == WalkAll(g, nodes, chain, fuel)
    decreases |nodes|
  {
    if nodes != [] {
      AllAccepted(g, nodes[1..], chain, fuel);
      assert nodes == [nodes[0]] + nodes[1..];
      assert nodes[0] in nodes;
      if Walk(g, nodes[0], chain, fuel - 1) == Accepted && WalkAll(g, nodes, chain, fuel) != Accepted {
        var n :| n in nodes[1..] && Walk(g, n, chain, fuel - 1) == WalkAll(g, nodes[1..], chain, fuel);
        assert n in nodes;
      }
    }
  }

  lemma {:induction false} SectionsAccepted(g: Guard, sections: seq<Section>, chain: set<string>, fuel: nat)
    requires fuel > 0
    ensures WalkSections(g, sections, chain, fuel) == Accepted ==>
              forall i, t | 0 <= i < |sections| && InSection(sections[i], chain, t) ::
                Walk(g, t.node, t.chain, fuel - 1) == Accepted
    ensures WalkSections(g, sections, chain, fuel) == Accepted ==> forall i | 0 <= i < |sections| :: sections[i].Walks?
    ensures WalkSections(g, sections, chain, fuel) != Accepted ==>
              (WalkSections(g, sections, chain, fuel) == Rejected && exists i ::
                0 <= i < |sections| && sections[i].Broken?) ||
              (exists i, t :: 0 <= i < |sections| && InSection(sections[i], chain, t) &&
                              Walk(g, t.node, t.chain, fuel - 1) == WalkSections(g, sections, chain, fuel))
    decreases |sections|
  {
    if sections != [] && sections[0].Walks? {
      var c := if sections[0].resets then {} else chain;
      AllAccepted(g, sections[0].nodes, c, fuel);
      SectionsAccepted(g, sections[1..], chain, fuel);
      if WalkAll(g, sections[0].nodes, c, fuel) != Accepted {
        var n :| n in sections[0].nodes && Walk(g, n, c, fuel - 1) == WalkAll(g, sections[0].nodes, c, fuel);
        assert InSection(sections[0], chain, Spot(n, c));
      } else {
        assert forall i | 1 <= i < |sections| :: sections[i] == sections[1..][i - 1];
      }
    }
  }

  // One step of the walk, read off the spot: an accepted spot is good and leads
  // to accepted spots only.
  lemma AcceptedStep(g: Guard, s: Spot, fuel: nat)
    requires Walk(g, s.node, s.chain, fuel) == Accepted
    ensures fuel > 0 && Good(g, s)
  {
    if Get(s.node.members, "$ref").None? {
      SectionsAccepted(g, Sections(s.node.members), s.chain, fuel);
    }
  }

  lemma AcceptedNext(g: Guard, s: Spot, t: Spot, fuel: nat)
    requires Walk(g, s.node, s.chain, fuel) == Accepted && Leads(g, s, t)
    ensures fuel > 0 && Walk(g, t.node, t.chain, fuel - 1) == Accepted
  {
    if Get(s.node.members, "$ref").None? {
      SectionsAccepted(g, Sections(s.node.members), s.chain, fuel);
    }
  }

  // A spot that is not accepted is out of fuel, or is bad itself and rejected,
  // or leads to a spot with the same verdict.
  lemma OtherStep(g: Guard, s: Spot, fuel: nat) returns (next: Option<Spot>)
    requires Walk(g, s.node, s.chain, fuel) != Accepted && fuel > 0
    ensures next.None? ==> Walk(g, s.node, s.chain, fuel) == Rejected && !Good(g, s)
    ensures next.Some? ==> Leads(g, s, next.value)
    ensures next.Some? ==> Walk(g, next.value.node, next.value.chain, fuel - 1) == Walk(g, s.node, s.chain, fuel)
  {
    next := None;
    if s.node.Object? && AllowedKeys(g, s.node.members) {
      var ref := Get(s.node.members, "$ref");
      if ref.Some? {
        if Good(g, s) {
          next := Some(Spot(Target(g, s.node.members).value, s.chain + {ref.value.s}));
        }
      } else if TypeOk(g, Get(s.node.members, "type")) && RequiredOk(Get(s.node.members, "required")) {
        next := OtherSection(g, s, fuel);
      }
    }
  }

  lemma OtherSection(g: Guard, s: Spot, fuel: nat) returns (next: Option<Spot>)
    requires fuel > 0 && s.node.Object? && Get(s.node.members, "$ref").None?
    requires WalkSections(g, Sections(s.node.members), s.chain, fuel) != Accepted
    ensures next.None? ==> WalkSections(g, Sections(s.node.members), s.chain, fuel) == Rejected && !Good(g, s)
    ensures next.Some? ==> Leads(g, s, next.value)
    ensures next.Some? ==> Walk(g, next.value.node, next.value.chain, fuel - 1) ==
                           WalkSections(g, Sections(s.node.members), s.chain, fuel)
  {
    var sections := Sections(s.node.members);
    SectionsAccepted(g, sections, s.chain, fuel);
    next := None;
    if i, t :| 0 <= i < |sections| && InSection(sections[i], s.chain, t) &&
               Walk(g, t.node, t.chain, fuel - 1) == WalkSections(g, sections, s.chain, fuel) {
      next := Some(t);
    }
  }

  // ---- Acceptance is sound, and exact ----

  function LeadsIn(g: Guard): (Spot, Spot) -> bool { (s: Spot, t: Spot) => Leads(g, s, t) }

  function GoodIn(g: Guard): Spot -> bool { (s: Spot) => Good(g, s) }

  function VerdictIn(g: Guard): (Spot, nat) -> Verdict { (s: Spot, fuel: nat) => Walk(g, s.node, s.chain, fuel) }

  lemma WalkIsTraced(g: Guard, s: Spot, fuel: nat)
    ensures Traced(LeadsIn(g), GoodIn(g), VerdictIn(g), s, fuel)
  {
    hide Walk;
    hide Leads;
    hide Good;
    if fuel > 0 && VerdictIn(g)(s, fuel) != Accepted {
      var next := OtherStep(g, s, fuel);
      if next.Some? {
        assert LeadsIn(g)(s, next.value) && VerdictIn(g)(next.value, fuel - 1) == VerdictIn(g)(s, fuel);
      }
    }
  }

  lemma WalkIsSound(g: Guard)
    ensures AcceptsSoundly(LeadsIn(g), GoodIn(g), VerdictIn(g))
  {
    hide Walk;
    hide Leads;
    hide Good;
    forall s: Spot, fuel: nat | VerdictIn(g)(s, fuel) == Accepted
      ensures fuel > 0 && GoodIn(g)(s)
    {
      AcceptedStep(g, s, fuel);
    }
    forall s: Spot, t: Spot, fuel: nat | VerdictIn(g)(s, fuel) == Accepted && LeadsIn(g)(s, t)
      ensures fuel > 0 && VerdictIn(g)(t, fuel - 1) == Accepted
    {
      AcceptedNext(g, s, t, fuel);
    }
  }

  lemma WalkExplores(g: Guard)
    ensures AcceptsSoundly(LeadsIn(g), GoodIn(g), VerdictIn(g))
    ensures Traceable(LeadsIn(g), GoodIn(g), VerdictIn(g)) && OutOfFuel(VerdictIn(g))
  {
    WalkIsSound(g);
    forall s: Spot, fuel: nat
      ensures Traced(LeadsIn(g), GoodIn(g), VerdictIn(g), s, fuel)
    {
      WalkIsTraced(g, s, fuel);
    }
    forall s: Spot
      ensures VerdictIn(g)(s, 0) == Exhausted
    {
    }
  }

  // The schemas one step away, however they are reached.
  predicate Links(g: Guard, a: Json, b: Json) {
    && a.Object?
    && if Get(a.members, "$ref").Some? then Target(g, a.members) == Some(b)
       else exists i :: 0 <= i < 4 && Sections(a.members)[i].Walks? && b in Sections(a.members)[i].nodes
  }

  function LinksIn(g: Guard): (Json, Json) -> bool { (a: Json, b: Json) => Links(g, a, b) }

  function DialectIn(g: Guard): Json -> bool { (a: Json) => Dialect(g, a) }

  ghost predicate AcceptedSomehow(g: Guard, node: Json, fuel: nat) {
    exists chain :: Walk(g, node, chain, fuel) == Accepted
  }

  ghost function AcceptedIn(g: Guard): (Json, nat) -> Verdict {
    (node: Json, fuel: nat) => if AcceptedSomehow(g, node, fuel) then Accepted else Exhausted
  }

  lemma AcceptedLink(g: Guard, a: Json, b: Json, fuel: nat)
    requires AcceptedSomehow(g, a, fuel) && Links(g, a, b)
    ensures fuel > 0 && AcceptedSomehow(g, b, fuel - 1)
  {
    var chain :| Walk(g, a, chain, fuel) == Accepted;
    AcceptedStep(g, Spot(a, chain), fuel);
    var t: Spot;
    if Get(a.members, "$ref").Some? {
      t := Spot(b, chain + {Get(a.members, "$ref").value.s});
    } else {
      var i :| 0 <= i < 4 && Sections(a.members)[i].Walks? && b in Sections(a.members)[i].nodes;
      t := Spot(b, if Sections(a.members)[i].resets then {} else chain);
      assert InSection(Sections(a.members)[i], chain, t);
    }
    AcceptedNext(g, Spot(a, chain), t, fuel);
  }

  // Acceptance is sound: every schema reached from the document's root by any
  // path through properties, items, additionalProperties, $defs and resolved
  // references is in the dialect, and no such path comes back to a schema.
  lemma LinkedIsSound(g: Guard, fuel: nat, p: seq<Json>)
    requires Outcome(g, fuel) == Accepted && Path(LinksIn(g), p) && p[0] == g.root
    ensures Dialect(g, p[|p| - 1])
    ensures forall i, j | 0 <= i < j < |p| :: p[i] != p[j]
  {
    assert AcceptsSoundly(LinksIn(g), DialectIn(g), AcceptedIn(g)) by {
      forall a: Json, fuel: nat | AcceptedSomehow(g, a, fuel)
        ensures fuel > 0 && Dialect(g, a)
      {
        var chain :| Walk(g, a, chain, fuel) == Accepted;
        AcceptedStep(g, Spot(a, chain), fuel);
      }
      forall a: Json, b: Json, fuel: nat | AcceptedSomehow(g, a, fuel) && Links(g, a, b)
        ensures fuel > 0 && AcceptedSomehow(g, b, fuel - 1)
      {
        AcceptedLink(g, a, b, fuel);
      }
    }
    assert Walk(g, g.root, {}, fuel) == Accepted;
    assert AcceptedSomehow(g, g.root, fuel);
    AcceptedPath(LinksIn(g), DialectIn(g), AcceptedIn(g), p, fuel);
    forall q | Path(LinksIn(g), q) && q[0] == g.root
      ensures |q| <= fuel
    {
      AcceptedPath(LinksIn(g), DialectIn(g), AcceptedIn(g), q, fuel);
    }
    assert Bounded(LinksIn(g), g.root, fuel);
    forall i, j | 0 <= i < j < |p|
      ensures p[i] != p[j]
    {
      BoundedIsAcyclic(LinksIn(g), g.root, fuel, p, i, j);
    }
  }

  // ---- When the walk ends ----

  // Every reference written anywhere in a document.
  function RefsIn(j: Json): set<string>
    decreases j, 1
  {
    match j
    case Array(items) => RefsInItems(items)
    case Object(members) => RefsInMembers(members)
    case _ => {}
  }

  function RefsInItems(items: seq<Json>): set<string>
    decreases items, 0
  {
    if items == [] then {} else RefsIn(items[0]) + RefsInItems(items[1..])
  }

  function RefsInMembers(members: seq<Member>): (r: set<string>)
    ensures forall m | m in members :: RefsIn(m.value) <= r
    ensures forall m | m in members && m.key == "$ref" && m.value.Text? :: m.value.s in r
    decreases members, 0
  {
    if members == [] then {}
    else
      assert members == [members[0]] + members[1..];
      (if members[0].key == "$ref" && members[0].value.Text? then {members[0].value.s} else {}) +
      RefsIn(members[0].value) + RefsInMembers(members[1..])
  }

  // Every value in a document, itself included.
  function Within(j: Json): set<Json>
    decreases j, 1
  {
    {j} + match j
          case Array(items) => WithinItems(items)
          case Object(members) => WithinMembers(members)
          case _ => {}
  }

  function WithinItems(items: seq<Json>): set<Json>
    decreases items, 0
  {
    if items == [] then {} else Within(items[0]) + WithinItems(items[1..])
  }

  function WithinMembers(members: seq<Member>): (r: set<Json>)
    ensures forall m | m in members :: m.value in r
    decreases members, 0
  {
    if members == [] then {}
    else
      assert members == [members[0]] + members[1..];
      Within(members[0].value) + WithinMembers(members[1..])
  }

  lemma {:induction false} WithinIsTransitive(j: Json, n: Json)
    requires n in Within(j)
    ensures Within(n) <= Within(j) && RefsIn(n) <= RefsIn(j)
    decreases j, 1
  {
    if n != j {
      match j
      case Array(items) => WithinOneItem(items, n);
      case Object(members) => WithinOneMember(members, n);
      case _ =>
    }
  }

  lemma {:induction false} WithinOneItem(items: seq<Json>, n: Json)
    requires n in WithinItems(items)
    ensures Within(n) <= WithinItems(items) && RefsIn(n) <= RefsInItems(items)
    decreases items, 0
  {
    if n in Within(items[0]) {
      WithinIsTransitive(items[0], n);
    } else {
      WithinOneItem(items[1..], n);
    }
  }

  lemma {:induction false} WithinOneMember(members: seq<Member>, n: Json)
    requires n in WithinMembers(members)
    ensures Within(n) <= WithinMembers(members) && RefsIn(n) <= RefsInMembers(members)
    decreases members, 0
  {
    if n in Within(members[0].value) {
      WithinIsTransitive(members[0].value, n);
    } else {
      WithinOneMember(members[1..], n);
    }
  }

  lemma {:induction false} FollowStaysWithin(cur: Json, toks: seq<string>)
    requires Follow(cur, toks).Some?
    ensures Follow(cur, toks).value in Within(cur)
    decreases |toks|
  {
    if toks != [] {
      var v := Get(cur.members, Unescape(toks[0])).value;
      FollowStaysWithin(v, toks[1..]);
      WithinIsTransitive(cur, v);
    }
  }

  lemma NestedStaysWithin(node: Json, i: nat, n: Json)
    requires node.Object? && i < 4 && Sections(node.members)[i].Walks? && n in Sections(node.members)[i].nodes
    ensures n in Within(node)
  {
    var key := KeywordAt(i);
    SectionIsAt(node.members, i, n);
    var v := Get(node.members, key).value;
    assert v in WithinMembers(node.members);
    assert v in Within(node);
    hide Get;
    hide Sections;
    if n != v {
      MapStaysWithin(v, n);
      WithinIsTransitive(node, v);
    }
  }

  // A section's schemas are its keyword's value, or the members of it.
  lemma SectionIsAt(members: seq<Member>, i: nat, n: Json)
    requires i < 4 && Sections(members)[i].Walks? && n in Sections(members)[i].nodes
    ensures var v := Get(members, KeywordAt(i));
            v.Some? && (n == v.value || (v.value.Object? && n in Values(v.value.members)))
  {
    hide Get;
  }

  lemma MapStaysWithin(v: Json, n: Json)
    requires v.Object? && n in Values(v.members)
    ensures n in Within(v)
  {
    var k :| 0 <= k < |v.members| && Values(v.members)[k] == n;
    assert v.members[k] in v.members;
    assert n in WithinMembers(v.members);
  }

  // A document's schemas are closed under links, and the spots of a walk are
  // made of them and of the references written in the document.
  lemma LinkStaysWithin(g: Guard, a: Json, b: Json)
    requires a in Within(g.root) && Links(g, a, b)
    ensures b in Within(g.root)
  {
    var ref := Get(a.members, "$ref");
    if ref.Some? {
      if ref.value.s != "#" {
        FollowStaysWithin(g.root, Segments(ref.value.s));
      }
    } else {
      var i :| 0 <= i < 4 && Sections(a.members)[i].Walks? && b in Sections(a.members)[i].nodes;
      NestedStaysWithin(a, i, b);
      WithinIsTransitive(g.root, a);
    }
  }

  function SpotsOf(g: Guard): set<Spot> {
    set n, c | n in Within(g.root) && c <= RefsIn(g.root) :: Spot(n, c)
  }

  lemma LeadsIsLink(g: Guard, s: Spot, t: Spot)
    requires Leads(g, s, t)
    ensures Links(g, s.node, t.node)
    ensures t.chain <= s.chain || (Get(s.node.members, "$ref").Some? && Get(s.node.members, "$ref").value.Text? &&
                                   t.chain == s.chain + {Get(s.node.members, "$ref").value.s})
  {
    if Get(s.node.members, "$ref").None? {
      var i :| 0 <= i < 4 && InSection(Sections(s.node.members)[i], s.chain, t);
      assert t.node in Sections(s.node.members)[i].nodes;
    }
  }

  lemma SpotStaysWithin(g: Guard, s: Spot, t: Spot)
    requires s in SpotsOf(g) && Leads(g, s, t)
    ensures t in SpotsOf(g)
  {
    hide Links;
    LeadsIsLink(g, s, t);
    LinkStaysWithin(g, s.node, t.node);
    WithinIsTransitive(g.root, s.node);
  }

  lemma {:induction false} ProjectedPath(g: Guard, p: seq<Spot>) returns (q: seq<Json>)
    requires Path(LeadsIn(g), p)
    ensures Path(LinksIn(g), q) && |q| == |p| && forall i | 0 <= i < |p| :: q[i] == p[i].node
    decreases |p|
  {
    q := [p[0].node];
    if |p| > 1 {
      LeadsIsLink(g, p[0], p[1]);
      var rest := ProjectedPath(g, p[1..]);
      q := q + rest;
      assert q[1..] == rest;
    }
  }

  // ---- Exactly when the walk ends, and what it decides ----

  // The guard always comes to a verdict when no walk from the root comes back
  // to a schema under the same references; and where everything reached is
  // good, exactly then.
  lemma GuardEndsExactly(g: Guard)
    ensures Acyclic(LeadsIn(g), Spot(g.root, {})) ==> exists fuel: nat :: Outcome(g, fuel) != Exhausted
    ensures AllGood(LeadsIn(g), GoodIn(g), Spot(g.root, {})) ==>
              ((exists fuel: nat :: Outcome(g, fuel) != Exhausted) <==> Acyclic(LeadsIn(g), Spot(g.root, {})))
  {
    var start := Spot(g.root, {});
    WalkExplores(g);
    forall s, t | s in SpotsOf(g) && LeadsIn(g)(s, t)
      ensures t in SpotsOf(g)
    {
      SpotStaysWithin(g, s, t);
    }
    assert Closed(LeadsIn(g), SpotsOf(g));
    EndsWhenAcyclic(LeadsIn(g), GoodIn(g), VerdictIn(g), start, SpotsOf(g));
    assert forall fuel: nat :: Outcome(g, fuel) == VerdictIn(g)(start, fuel);
  }

  lemma LinksAcyclicWalksAcyclic(g: Guard)
    requires Acyclic(LinksIn(g), g.root)
    ensures Acyclic(LeadsIn(g), Spot(g.root, {}))
  {
    forall p | Path(LeadsIn(g), p) && p[0] == Spot(g.root, {})
      ensures NoRepeat(p)
    {
      var q := ProjectedPath(g, p);
      assert NoRepeat(q);
    }
  }

  // The guard comes to accept a document exactly when no schema of it reaches
  // itself, by nesting and by reference, and everything reached is good; it
  // comes to reject one only when something reached is not.
  lemma LinkedIsExact(g: Guard)
    ensures (exists fuel: nat :: Outcome(g, fuel) == Accepted) <==>
            Acyclic(LinksIn(g), g.root) && AllGood(LeadsIn(g), GoodIn(g), Spot(g.root, {}))
    ensures (exists fuel: nat :: Outcome(g, fuel) == Rejected) ==> !AllGood(LeadsIn(g), GoodIn(g), Spot(g.root, {}))
  {
    var start := Spot(g.root, {});
    WalkExplores(g);
    assert forall fuel: nat :: Outcome(g, fuel) == VerdictIn(g)(start, fuel);
    VerdictIsExact(LeadsIn(g), GoodIn(g), VerdictIn(g), start);
    if fuel: nat :| Outcome(g, fuel) == Accepted {
      forall p | Path(LinksIn(g), p) && p[0] == g.root
        ensures NoRepeat(p)
      {
        LinkedIsSound(g, fuel, p);
      }
    }
    if Acyclic(LinksIn(g), g.root) {
      LinksAcyclicWalksAcyclic(g);
      GuardEndsExactly(g);
    }
  }

  // Where no walk comes back, the verdict is acceptance exactly when everything
  // reached is good.
  lemma GuardDecides(g: Guard)
    requires Acyclic(LeadsIn(g), Spot(g.root, {}))
    ensures exists fuel: nat ::
              Outcome(g, fuel) == if AllGood(LeadsIn(g), GoodIn(g), Spot(g.root, {})) then Accepted else Rejected
  {
    GuardEndsExactly(g);
    WalkExplores(g);
    assert forall fuel: nat :: Outcome(g, fuel) == VerdictIn(g)(Spot(g.root, {}), fuel);
    VerdictIsExact(LeadsIn(g), GoodIn(g), VerdictIn(g), Spot(g.root, {}));
  }

  // ---- A condition to read off the document ----

  // A schema none of whose nested schemas has "$defs".
  predicate DefsFree(node: Json)
    decreases Height(node)
  {
    node.Object? && Get(node.members, "$ref").None? ==>
      && Get(node.members, "$defs").None?
      && forall i | 0 <= i < 3 && Sections(node.members)[i].Walks? ::
           forall k | 0 <= k < |Sections(node.members)[i].nodes| ::
             (NestedAreLower(node, i, k); DefsFree(Sections(node.members)[i].nodes[k]))
  }

  lemma MemberIsLower(members: seq<Member>, key: string)
    ensures var v := Get(members, key);
            v.Some? ==> Height(v.value) <= MembersHeight(members) && RefsIn(v.value) <= RefsInMembers(members)
  {
  }

  lemma ValuesAreLower(v: Json, k: nat)
    requires v.Object? && k < |v.members|
    ensures Height(Values(v.members)[k]) < Height(v) && RefsIn(Values(v.members)[k]) <= RefsIn(v)
  {
    assert v.members[k] in v.members;
  }

  lemma NestedAreLower(node: Json, i: nat, k: nat)
    requires node.Object? && i < 4 && Sections(node.members)[i].Walks? && k < |Sections(node.members)[i].nodes|
    ensures var n := Sections(node.members)[i].nodes[k]; Height(n) < Height(node) && RefsIn(n) <= RefsIn(node)
  {
    var key := KeywordAt(i);
    MemberIsLower(node.members, key);
    if i == 0 || i == 3 {
      var v := Get(node.members, key);
      assert SchemaMap(v, i == 3) == Sections(node.members)[i];
      ValuesAreLower(v.value, k);
    }
  }

  lemma {:induction false} TargetIsWithin(cur: Json, toks: seq<string>)
    requires Follow(cur, toks).Some?
    ensures var t := Follow(cur, toks).value; Height(t) <= Height(cur) && RefsIn(t) <= RefsIn(cur)
    decreases |toks|
  {
    if toks != [] {
      var v := Get(cur.members, Unescape(toks[0])).value;
      var m :| m in cur.members && m.value == v;
      TargetIsWithin(v, toks[1..]);
    }
  }

  // No reference written in the document points at a schema that has "$defs"
  // in it.
  predicate NoDefsBehindRefs(root: Json) {
    forall ref | ref in RefsIn(root) && IsLocal(ref) && Resolve(root, ref).Some? :: DefsFree(Resolve(root, ref).value)
  }

  // What is true of every spot the walk reaches.
  predicate Reachable(g: Guard, s: Spot) {
    && RefsIn(s.node) <= RefsIn(g.root) && Height(s.node) <= Height(g.root) && |s.chain| <= MAX_REF_DEPTH
    && (s.chain != {} ==> DefsFree(s.node))
  }

  function Times(k: nat, h: nat): nat { if k == 0 then 0 else h + Times(k - 1, h) }

  // How deep the walk can still go: every reference followed uses up one of
  // those a chain may hold, every other step goes down in the document.
  function Measure(g: Guard, s: Spot): nat
    requires |s.chain| <= MAX_REF_DEPTH
  {
    Times(MAX_REF_DEPTH - |s.chain|, Height(g.root) + 1) + Height(s.node) + 1
  }

  lemma TargetIsReachable(g: Guard, s: Spot, t: Spot)
    requires NoDefsBehindRefs(g.root) && Reachable(g, s) && Leads(g, s, t)
    requires Get(s.node.members, "$ref").Some?
    ensures Reachable(g, t) && |t.chain| == |s.chain| + 1
  {
    var r := Get(s.node.members, "$ref").value.s;
    assert r in RefsIn(g.root);
    if r != "#" {
      TargetIsWithin(g.root, Segments(r));
    }
  }

  lemma NestedAt(g: Guard, s: Spot, t: Spot) returns (i: nat, k: nat)
    requires Leads(g, s, t) && Get(s.node.members, "$ref").None?
    ensures i < 4 && InSection(Sections(s.node.members)[i], s.chain, t)
    ensures k < |Sections(s.node.members)[i].nodes| && Sections(s.node.members)[i].nodes[k] == t.node
  {
    i :| 0 <= i < 4 && InSection(Sections(s.node.members)[i], s.chain, t);
    k :| 0 <= k < |Sections(s.node.members)[i].nodes| && Sections(s.node.members)[i].nodes[k] == t.node;
  }

  lemma NestedKeepsChain(s: Spot, i: nat, k: nat, t: Spot)
    requires s.node.Object? && Get(s.node.members, "$ref").None?
    requires i < 4 && InSection(Sections(s.node.members)[i], s.chain, t)
    requires k < |Sections(s.node.members)[i].nodes| && Sections(s.node.members)[i].nodes[k] == t.node
    requires s.chain != {} ==> DefsFree(s.node)
    ensures t.chain == s.chain && (t.chain != {} ==> DefsFree(t.node))
  {
  }

  lemma NestedIsReachable(g: Guard, s: Spot, t: Spot)
    requires Reachable(g, s) && Leads(g, s, t) && Get(s.node.members, "$ref").None?
    ensures Reachable(g, t) && t.chain == s.chain && Height(t.node) < Height(s.node)
  {
    var i, k := NestedAt(g, s, t);
    NestedAreLower(s.node, i, k);
    NestedKeepsChain(s, i, k, t);
  }

  lemma StepsGoDown(g: Guard, s: Spot, t: Spot)
    requires NoDefsBehindRefs(g.root) && Reachable(g, s) && Leads(g, s, t)
    ensures Reachable(g, t)
    ensures (|t.chain| == |s.chain| + 1 && Height(t.node) <= Height(g.root)) ||
            (|t.chain| == |s.chain| && Height(t.node) < Height(s.node))
  {
    if Get(s.node.members, "$ref").Some? {
      TargetIsReachable(g, s, t);
    } else {
      NestedIsReachable(g, s, t);
    }
  }

  lemma MeasureDrops(h: nat, k: nat, a: nat, k': nat, b: nat)
    requires (k == k' + 1 && b <= h) || (k == k' && b < a)
    ensures Times(k', h + 1) + b < Times(k, h + 1) + a
  {
  }

  function ReachableIn(g: Guard): Spot -> bool { (s: Spot) => Reachable(g, s) }

  function MeasureIn(g: Guard): Spot -> nat { (s: Spot) => if |s.chain| <= MAX_REF_DEPTH then Measure(g, s) else 0 }

  lemma LowerMeasure(g: Guard, s: Spot, t: Spot)
    requires |s.chain| <= MAX_REF_DEPTH && |t.chain| <= MAX_REF_DEPTH
    requires (|t.chain| == |s.chain| + 1 && Height(t.node) <= Height(g.root)) ||
             (|t.chain| == |s.chain| && Height(t.node) < Height(s.node))
    ensures Measure(g, t) < Measure(g, s)
  {
    MeasureDrops(Height(g.root), MAX_REF_DEPTH - |s.chain|, Height(s.node), MAX_REF_DEPTH - |t.chain|, Height(t.node));
  }

  lemma MeasureStep(g: Guard, s: Spot, t: Spot)
    requires NoDefsBehindRefs(g.root) && ReachableIn(g)(s) && LeadsIn(g)(s, t)
    ensures ReachableIn(g)(t) && MeasureIn(g)(t) < MeasureIn(g)(s)
  {
    hide Leads;
    hide Measure;
    hide NoDefsBehindRefs;
    StepsGoDown(g, s, t);
    LowerMeasure(g, s, t);
  }

  lemma NoDefsBehindRefsIsAcyclic(root: Json)
    requires NoDefsBehindRefs(root)
    ensures Acyclic(LeadsIn(GuardOf(root)), Spot(root, {}))
  {
    var g := GuardOf(root);
    forall s: Spot, t: Spot | ReachableIn(g)(s) && LeadsIn(g)(s, t)
      ensures ReachableIn(g)(t) && MeasureIn(g)(t) < MeasureIn(g)(s)
    {
      MeasureStep(g, s, t);
    }
    forall p | Path(LeadsIn(g), p) && p[0] == Spot(root, {})
      ensures NoRepeat(p)
    {
      DescentNeverReturns(LeadsIn(g), ReachableIn(g), MeasureIn(g), p);
    }
  }

  // The guard decides every document where no reference points at a schema that
  // has "$defs" in it: it accepts it when all it reaches is good, and rejects it
  // otherwise.
  lemma GuardTerminates(root: Json)
    requires NoDefsBehindRefs(root)
    ensures var g := GuardOf(root);
            exists fuel: nat :: Outcome(g, fuel) ==
              if AllGood(LeadsIn(g), GoodIn(g), Spot(root, {})) then Accepted else Rejected
  {
    NoDefsBehindRefsIsAcyclic(root);
    GuardDecides(GuardOf(root));
  }

  // A definition that refers to the document it is in.
  const SELF: Member := Member("a", Object([Member("$ref", Text("#"))]))

  function WithDefs(definitions: seq<Member>): Json { Object([Member("$defs", Object(definitions))]) }

  // The shortest document the guard never finishes. Walking "$defs" starts a
  // fresh chain, so that the reference is never seen to repeat.
  const ENDLESS: Json := WithDefs([SELF])

  lemma {:induction false} EndlessWalk(g: Guard, more: seq<Member>, chain: set<string>, fuel: nat)
    requires g.root == WithDefs([SELF] + more) && "$defs" in g.keywords && "$ref" in g.keywords
    ensures Walk(g, g.root, chain, fuel) == Exhausted
    decreases fuel
  {
    if fuel > 1 {
      EndlessWalk(g, more, {"#"}, fuel - 2);
      assert {} + {"#"} == {"#"};
      assert Walk(g, SELF.value, {}, fuel - 1) == Exhausted;
    }
    if fuel > 0 {
      DefsDecide(g, [SELF] + more, chain, fuel);
    }
  }

  // Walking a document that has definitions only is walking the first of them,
  // if that one is not accepted.
  lemma DefsDecide(g: Guard, definitions: seq<Member>, chain: set<string>, fuel: nat)
    requires fuel > 0 && "$defs" in g.keywords && definitions != []
    requires Walk(g, definitions[0].value, {}, fuel - 1) != Accepted
    ensures Walk(g, WithDefs(definitions), chain, fuel) == Walk(g, definitions[0].value, {}, fuel - 1)
  {
    var members := WithDefs(definitions).members;
    assert members[1..] == [];
    var sections := Sections(members);
    assert sections[3] == Walks(Values(definitions), true);
    assert WalkAll(g, Values(definitions), {}, fuel) == Walk(g, definitions[0].value, {}, fuel - 1);
    var last := WalkSections(g, sections[3..], chain, fuel);
    assert last == Walk(g, definitions[0].value, {}, fuel - 1);
    assert sections[1..][1..][1..] == sections[3..];
    assert forall i | 0 <= i < 3 :: sections[i] == Walks([], false);
    assert WalkSections(g, sections[1..][1..], chain, fuel) == last;
    assert WalkSections(g, sections[1..], chain, fuel) == last;
  }

  lemma GuardMayNeverEnd(fuel: nat)
    ensures Outcome(GuardOf(ENDLESS), fuel) == Exhausted && !NoDefsBehindRefs(ENDLESS)
  {
    assert [SELF] + [] == [SELF];
    EndlessWalk(GuardOf(ENDLESS), [], {}, fuel);
    if NoDefsBehindRefs(ENDLESS) {
      GuardTerminates(ENDLESS);
      var enough: nat :| Outcome(GuardOf(ENDLESS), enough) != Exhausted;
      EndlessWalk(GuardOf(ENDLESS), [], {}, enough);
    }
  }

  // With a bad schema beside it, it depends on which of the two is visited
  // first whether the guard rejects the document or never ends.
  lemma OrderDecides(fuel: nat)
    requires fuel >= 2
    ensures Outcome(GuardOf(WithDefs([Member("b", Null), SELF])), fuel) == Rejected
    ensures Outcome(GuardOf(WithDefs([SELF, Member("b", Null)])), fuel) == Exhausted
  {
    DefsDecide(GuardOf(WithDefs([Member("b", Null), SELF])), [Member("b", Null), SELF], {}, fuel);
    assert [SELF] + [Member("b", Null)] == [SELF, Member("b", Null)];
    EndlessWalk(GuardOf(WithDefs([SELF, Member("b", Null)])), [Member("b", Null)], {}, fuel);
  }
}
