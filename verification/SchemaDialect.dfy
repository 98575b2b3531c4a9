// The closed schema dialect read off the document, keyword by keyword, and the
// guard's acceptance in those terms
// (server/internal/assets/schema_guard.go:20-62, 78-208).
module SchemaDialect {
  import opened Wrappers
  import opened JsonValue
  import opened JsonPointer
  import opened Exploration
  import opened SchemaGuard

  // ---- The schemas one step away ----

  // The value under a key, that of the first member with it.
  ghost predicate Has(members: seq<Member>, key: string, v: Json) {
    exists i :: 0 <= i < |members| && members[i] == Member(key, v) && forall j | 0 <= j < i :: members[j].key != key
  }

  ghost predicate HasKey(members: seq<Member>, key: string) { exists m :: m in members && m.key == key }

  // A value in the object under a key.
  ghost predicate InMap(members: seq<Member>, key: string, b: Json) {
    exists named: seq<Member>, m :: Has(members, key, Object(named)) && m in named && m.value == b
  }

  // A sole reference to a value of the document.
  ghost predicate RefersTo(root: Json, a: Json, b: Json) {
    exists ref :: a == Object([Member("$ref", Text(ref))]) && (ref == "#" || "#/" <= ref) &&
      Resolve(root, ref) == Some(b)
  }

  ghost predicate Defines(a: Json, b: Json) {
    a.Object? && !HasKey(a.members, "$ref") && InMap(a.members, "$defs", b)
  }

  ghost predicate Nests(a: Json, b: Json) {
    && a.Object? && !HasKey(a.members, "$ref")
    && (InMap(a.members, "properties", b) || Has(a.members, "items", b) ||
        (Has(a.members, "additionalProperties", b) && !b.Boolean?))
  }

  ghost predicate Child(root: Json, a: Json, b: Json) { RefersTo(root, a, b) || Defines(a, b) || Nests(a, b) }

  ghost function ChildIn(root: Json): (Json, Json) -> bool { (a: Json, b: Json) => Child(root, a, b) }

  // ---- What is asked of a schema ----

  predicate IsTypeValue(types: set<string>, v: Json) {
    || (v.Text? && v.s in types)
    || (v.Array? && forall i | 0 <= i < |v.items| :: v.items[i].Text? && v.items[i].s in types)
  }

  predicate IsTextList(v: Json) { v.Array? && forall i | 0 <= i < |v.items| :: v.items[i].Text? }

  ghost predicate InDialect(g: Guard, node: Json) {
    && node.Object? && (forall m | m in node.members :: m.key in g.keywords)
    && (HasKey(node.members, "$ref") ==> exists b :: RefersTo(g.root, node, b))
    && (forall v | Has(node.members, "type", v) :: IsTypeValue(g.types, v))
    && (forall v | Has(node.members, "required", v) :: IsTextList(v))
    && (forall v | Has(node.members, "properties", v) :: v.Object?)
    && (forall v | Has(node.members, "$defs", v) :: v.Object?)
  }

  predicate FirstAt(members: seq<Member>, key: string, i: nat) {
    i < |members| && members[i].key == key && forall j | 0 <= j < i :: members[j].key != key
  }

  lemma {:induction false} GetFirst(members: seq<Member>, key: string, i: nat)
    requires FirstAt(members, key, i)
    ensures Get(members, key) == Some(members[i].value)
    decreases i
  {
    if i > 0 {
      assert members[0].key != key;
      assert forall j | 0 <= j < i - 1 :: members[1..][j] == members[j + 1];
      GetFirst(members[1..], key, i - 1);
    }
  }

  lemma {:induction false} FirstOfGet(members: seq<Member>, key: string) returns (i: nat)
    requires Get(members, key).Some?
    ensures FirstAt(members, key, i)
    decreases |members|
  {
    if members[0].key == key {
      i := 0;
    } else {
      var k := FirstOfGet(members[1..], key);
      i := k + 1;
      assert forall j | 1 <= j < i :: members[j] == members[1..][j - 1];
    }
  }

  lemma HasIsGet(members: seq<Member>, key: string, v: Json)
    ensures Has(members, key, v) <==> Get(members, key) == Some(v)
  {
    if i: nat :| i < |members| && members[i] == Member(key, v) && forall j | 0 <= j < i :: members[j].key != key {
      GetFirst(members, key, i);
    }
    if Get(members, key) == Some(v) {
      var i := FirstOfGet(members, key);
      GetFirst(members, key, i);
      assert members[i] == Member(key, v);
    }
  }

  lemma HasKeyIsGet(members: seq<Member>, key: string)
    ensures HasKey(members, key) <==> Get(members, key).Some?
  {
  }

  lemma InMapIsValues(members: seq<Member>, key: string, resets: bool, b: Json)
    ensures var section := SchemaMap(Get(members, key), resets);
            InMap(members, key, b) <==> section.Walks? && b in section.nodes
  {
    var v := Get(members, key);
    if v.Some? {
      HasIsGet(members, key, v.value);
      if v.value.Object? {
        var ms := v.value.members;
        if m :| m in ms && m.value == b {
          var i :| 0 <= i < |ms| && ms[i] == m;
          assert Values(ms)[i] == b;
        }
        if b in Values(ms) {
          var i :| 0 <= i < |ms| && Values(ms)[i] == b;
          assert ms[i] in ms && ms[i].value == b;
        }
      }
    }
    forall named: seq<Member> | Has(members, key, Object(named))
      ensures v == Some(Object(named))
    {
      HasIsGet(members, key, Object(named));
    }
  }

  // ---- The same as what the walk goes by ----

  lemma ReferenceIsTarget(g: Guard, a: Json, b: Json)
    requires a.Object?
    ensures RefersTo(g.root, a, b) <==> Target(g, a.members) == Some(b)
  {
    var members := a.members;
    var v := Get(members, "$ref");
    if v.Some? && v.value.Text? && |members| == 1 {
      assert members == [Member("$ref", v.value)];
      assert a == Object([Member("$ref", Text(v.value.s))]);
    }
    if RefersTo(g.root, a, b) {
      var ref :| a == Object([Member("$ref", Text(ref))]) && (ref == "#" || "#/" <= ref) &&
        Resolve(g.root, ref) == Some(b);
      GetFirst(members, "$ref", 0);
    }
  }

  lemma SectionsAreMaps(members: seq<Member>, b: Json)
    ensures var s := Sections(members);
            && (InMap(members, "properties", b) <==> s[0].Walks? && b in s[0].nodes)
            && (Has(members, "additionalProperties", b) && !b.Boolean? <==> s[1].Walks? && b in s[1].nodes)
            && (Has(members, "items", b) <==> s[2].Walks? && b in s[2].nodes)
            && (InMap(members, "$defs", b) <==> s[3].Walks? && b in s[3].nodes)
  {
    InMapIsValues(members, "properties", false, b);
    InMapIsValues(members, "$defs", true, b);
    HasIsGet(members, "additionalProperties", b);
    HasIsGet(members, "items", b);
    hide Get;
    hide Has;
    hide InMap;
  }

  // A schema is in one of the four sections.
  predicate InOneOf(sections: seq<Section>, b: Json) {
    exists i :: 0 <= i < |sections| && sections[i].Walks? && b in sections[i].nodes
  }

  lemma FourSections(members: seq<Member>, b: Json)
    ensures InOneOf(Sections(members), b) <==>
            || InMap(members, "properties", b) || (Has(members, "additionalProperties", b) && !b.Boolean?)
            || Has(members, "items", b) || InMap(members, "$defs", b)
  {
    SectionsAreMaps(members, b);
    hide InMap;
    hide Has;
    hide Sections;
    var s := Sections(members);
    if i :| 0 <= i < 4 && s[i].Walks? && b in s[i].nodes {
      assert i == 0 || i == 1 || i == 2 || i == 3;
    }
  }

  lemma LinksAreChildren(g: Guard, a: Json, b: Json)
    ensures Links(g, a, b) <==> Child(g.root, a, b)
  {
    if a.Object? {
      ReferenceIsTarget(g, a, b);
      HasKeyIsGet(a.members, "$ref");
      FourSections(a.members, b);
      if RefersTo(g.root, a, b) {
        RefersIsKeyed(g.root, a, b);
      }
      assert Links(g, a, b) <==>
             if Get(a.members, "$ref").Some? then Target(g, a.members) == Some(b) else InOneOf(Sections(a.members), b);
      hide Links;
      hide Target;
      hide Sections;
      hide InOneOf;
      hide InMap;
      hide Has;
      hide HasKey;
      hide Get;
      hide RefersTo;
    }
  }

  lemma RefersIsKeyed(root: Json, a: Json, b: Json)
    requires RefersTo(root, a, b)
    ensures HasKey(a.members, "$ref")
  {
    var ref :| a == Object([Member("$ref", Text(ref))]) && (ref == "#" || "#/" <= ref) && Resolve(root, ref) == Some(b);
    assert a.members[0] in a.members;
  }

  lemma SectionsBreak(members: seq<Member>)
    ensures (forall i | 0 <= i < 4 :: !Sections(members)[i].Broken?) <==>
            (forall v | Has(members, "properties", v) :: v.Object?) &&
              (forall v | Has(members, "$defs", v) :: v.Object?)
  {
    forall v: Json
      ensures Has(members, "properties", v) <==> Get(members, "properties") == Some(v)
      ensures Has(members, "$defs", v) <==> Get(members, "$defs") == Some(v)
    {
      HasIsGet(members, "properties", v);
      HasIsGet(members, "$defs", v);
    }
    hide Get;
    hide Has;
    assert Sections(members)[0].Broken? <==>
      Get(members, "properties").Some? && !Get(members, "properties").value.Object?;
    assert Sections(members)[3].Broken? <==> Get(members, "$defs").Some? && !Get(members, "$defs").value.Object?;
    assert !Sections(members)[1].Broken? && !Sections(members)[2].Broken?;
  }

  lemma TypeIsTypeValue(g: Guard, members: seq<Member>)
    ensures TypeOk(g, Get(members, "type")) <==> forall v | Has(members, "type", v) :: IsTypeValue(g.types, v)
  {
    forall v: Json
      ensures Has(members, "type", v) <==> Get(members, "type") == Some(v)
    {
      HasIsGet(members, "type", v);
    }
    hide Get;
    hide Has;
    var t := Get(members, "type");
    if t.Some? && t.value.Array? {
      assert forall i | 0 <= i < |t.value.items| :: IsTypeName(g, t.value.items[i]) <==>
               t.value.items[i].Text? && t.value.items[i].s in g.types;
    }
  }

  lemma RequiredIsTextList(members: seq<Member>)
    ensures RequiredOk(Get(members, "required")) <==> forall v | Has(members, "required", v) :: IsTextList(v)
  {
    forall v: Json
      ensures Has(members, "required", v) <==> Get(members, "required") == Some(v)
    {
      HasIsGet(members, "required", v);
    }
    hide Get;
    hide Has;
  }

  // A sole reference leaves no other keyword to ask anything of.
  lemma ReferenceAlone(members: seq<Member>, key: string, v: Json)
    requires |members| == 1 && Get(members, "$ref").Some? && Has(members, key, v)
    ensures key == "$ref"
  {
  }

  lemma DialectIsInDialect(g: Guard, node: Json)
    ensures Dialect(g, node) <==> InDialect(g, node)
  {
    if node.Object? {
      var members := node.members;
      HasKeyIsGet(members, "$ref");
      SectionsBreak(members);
      TypeIsTypeValue(g, members);
      RequiredIsTextList(members);
      forall b: Json
        ensures RefersTo(g.root, node, b) <==> Target(g, members) == Some(b)
      {
        ReferenceIsTarget(g, node, b);
      }
      if Target(g, members).Some? {
        assert RefersTo(g.root, node, Target(g, members).value);
        forall v: Json
          ensures !Has(members, "type", v) && !Has(members, "required", v)
          ensures !Has(members, "properties", v) && !Has(members, "$defs", v)
        {
          if Has(members, "type", v) {
            ReferenceAlone(members, "type", v);
          }
          if Has(members, "required", v) {
            ReferenceAlone(members, "required", v);
          }
          if Has(members, "properties", v) {
            ReferenceAlone(members, "properties", v);
          }
          if Has(members, "$defs", v) {
            ReferenceAlone(members, "$defs", v);
          }
        }
      }
      assert Target(g, members).Some? ==> Get(members, "$ref").Some?;
      hide Target;
      hide RefersTo;
      hide Get;
      hide Has;
      hide HasKey;
      hide Sections;
      hide TypeOk;
      hide RequiredOk;
      hide IsTypeValue;
      hide IsTextList;
    }
  }

  // ---- How long chains of references are ----

  // A schema and the number of references followed to it since the last
  // definition.
  datatype Hop = Hop(node: Json, refs: nat)

  ghost predicate Hops(root: Json, s: Hop, t: Hop) {
    || (RefersTo(root, s.node, t.node) && t.refs == s.refs + 1)
    || (Defines(s.node, t.node) && t.refs == 0)
    || (Nests(s.node, t.node) && t.refs == s.refs)
  }

  ghost function HopsIn(root: Json): (Hop, Hop) -> bool { (s: Hop, t: Hop) => Hops(root, s, t) }

  ghost predicate Fine(g: Guard, s: Hop) { InDialect(g, s.node) && s.refs <= 32 }

  ghost function FineIn(g: Guard): Hop -> bool { (s: Hop) => Fine(g, s) }

  // Everything reached from the root is in the dialect, over at most 32
  // references in a row.
  ghost predicate AllFine(g: Guard) { AllGood(HopsIn(g.root), FineIn(g), Hop(g.root, 0)) }

  // A reference that may be followed adds to the chain; definitions start one.
  lemma LeadsIsHop(g: Guard, s: Spot, t: Spot)
    requires Leads(g, s, t)
    ensures Hops(g.root, Hop(s.node, |s.chain|), Hop(t.node, |t.chain|))
    ensures RefersTo(g.root, s.node, t.node) ==> t.chain == s.chain + {Get(s.node.members, "$ref").value.s}
  {
    var members := s.node.members;
    HasKeyIsGet(members, "$ref");
    ReferenceIsTarget(g, s.node, t.node);
    if Get(members, "$ref").Some? {
      assert |t.chain| == |s.chain| + 1;
    } else {
      SectionsAreMaps(members, t.node);
      var i :| 0 <= i < 4 && InSection(Sections(members)[i], s.chain, t);
      SectionResets(members, i);
      assert !Target(g, members).Some?;
    }
  }

  lemma SectionResets(members: seq<Member>, i: nat)
    requires i < 4 && Sections(members)[i].Walks?
    ensures Sections(members)[i].resets <==> i == 3
  {
  }

  lemma HopIsLeads(g: Guard, s: Spot, t: Hop) returns (next: Spot)
    requires ChainOk(s) && Hops(g.root, Hop(s.node, |s.chain|), t)
    ensures Leads(g, s, next) && next.node == t.node && |next.chain| == t.refs
  {
    var members := s.node.members;
    HasKeyIsGet(members, "$ref");
    ReferenceIsTarget(g, s.node, t.node);
    if Get(members, "$ref").Some? {
      var ref := Get(members, "$ref").value.s;
      next := Spot(t.node, s.chain + {ref});
    } else {
      assert !RefersTo(g.root, s.node, t.node);
      SectionsAreMaps(members, t.node);
      next := Spot(t.node, if Defines(s.node, t.node) && t.refs == 0 then {} else s.chain);
      var i := if Defines(s.node, t.node) && t.refs == 0 then 3 else if InMap(members, "properties", t.node) then 0
        else if Has(members, "items", t.node) then 2 else 1;
      assert Sections(members)[i].Walks? && t.node in Sections(members)[i].nodes;
      SectionResets(members, i);
      assert InSection(Sections(members)[i], s.chain, next);
    }
  }

  // Walking and hopping reach the same.
  lemma {:induction false} HopsOfPath(g: Guard, p: seq<Spot>) returns (q: seq<Hop>)
    requires Path(LeadsIn(g), p)
    ensures Path(HopsIn(g.root), q) && |q| == |p| && forall i | 0 <= i < |p| :: q[i] == Hop(p[i].node, |p[i].chain|)
    decreases |p|
  {
    q := [Hop(p[0].node, |p[0].chain|)];
    if |p| > 1 {
      LeadsIsHop(g, p[0], p[1]);
      var rest := HopsOfPath(g, p[1..]);
      q := q + rest;
      assert q[1..] == rest;
    }
  }

  lemma {:induction false} PathOfHops(g: Guard, q: seq<Hop>, s: Spot) returns (p: seq<Spot>)
    requires Path(HopsIn(g.root), q) && q[0] == Hop(s.node, |s.chain|)
    requires AllGood(LeadsIn(g), GoodIn(g), s)
    ensures Path(LeadsIn(g), p) && p[0] == s && p[|p| - 1].node == q[|q| - 1].node
    ensures |p[|p| - 1].chain| == q[|q| - 1].refs
    decreases |q|
  {
    p := [s];
    if |q| > 1 {
      StartIsGood(LeadsIn(g), GoodIn(g), s);
      var t := HopIsLeads(g, s, q[1]);
      GoodGoesOn(LeadsIn(g), GoodIn(g), s, t);
      hide AllGood;
      hide Leads;
      hide Good;
      hide Hops;
      var rest := PathOfHops(g, q[1..], t);
      p := [s] + rest;
      assert p[1..] == rest;
    }
  }

  // A reference in the chain was followed earlier on the walk.
  lemma {:induction false} FollowedBefore(g: Guard, p: seq<Spot>, ref: string) returns (i: nat)
    requires Path(LeadsIn(g), p) && ref in p[|p| - 1].chain && ref !in p[0].chain
    ensures i + 1 < |p| && p[i].node == Object([Member("$ref", Text(ref))])
    ensures Resolve(g.root, ref) == Some(p[i + 1].node)
    decreases |p|
  {
    hide Leads;
    if |p| > 1 {
      if ref in p[1].chain {
        i := 0;
        FollowedNow(g, p[0], p[1], ref);
      } else {
        var k := FollowedBefore(g, p[1..], ref);
        i := k + 1;
      }
    }
  }

  lemma FollowedNow(g: Guard, s: Spot, t: Spot, ref: string)
    requires Leads(g, s, t) && ref in t.chain && ref !in s.chain
    ensures s.node == Object([Member("$ref", Text(ref))]) && Resolve(g.root, ref) == Some(t.node)
  {
    var members := s.node.members;
    if Get(members, "$ref").Some? {
      ReferenceIsTarget(g, s.node, t.node);
      assert Get(members, "$ref") == Some(Text(ref));
      assert members == [Member("$ref", Text(ref))];
    }
  }

  // ---- The guard's acceptance ----

  lemma ChildrenAreLinks(g: Guard, p: seq<Json>)
    ensures Path(ChildIn(g.root), p) <==> Path(LinksIn(g), p)
  {
    forall a: Json, b: Json
      ensures ChildIn(g.root)(a, b) <==> LinksIn(g)(a, b)
    {
      LinksAreChildren(g, a, b);
    }
    SamePath(ChildIn(g.root), LinksIn(g), p);
  }

  // In an accepted document every schema reached from the root, by any path, is
  // in the dialect, and no path comes back to a schema.
  lemma AcceptanceIsSound(g: Guard, fuel: nat, p: seq<Json>)
    requires Outcome(g, fuel) == Accepted && Path(ChildIn(g.root), p) && p[0] == g.root
    ensures InDialect(g, p[|p| - 1])
    ensures forall i, j | 0 <= i < j < |p| :: p[i] != p[j]
  {
    ChildrenAreLinks(g, p);
    LinkedIsSound(g, fuel, p);
    DialectIsInDialect(g, p[|p| - 1]);
  }

  lemma {:induction false} ChainsAreShort(g: Guard, p: seq<Spot>)
    requires Path(LeadsIn(g), p) && |p[0].chain| <= 32
    ensures |p[|p| - 1].chain| <= 32
    decreases |p|
  {
    if |p| > 1 {
      StepIsShort(g, p[0], p[1]);
      ChainsAreShort(g, p[1..]);
    }
  }

  lemma StepIsShort(g: Guard, s: Spot, t: Spot)
    requires Leads(g, s, t) && |s.chain| <= 32
    ensures |t.chain| <= 32
  {
    if Get(s.node.members, "$ref").Some? {
      assert |s.chain| < 32;
    }
  }

  lemma GoodIsFine(g: Guard)
    requires AllGood(LeadsIn(g), GoodIn(g), Spot(g.root, {}))
    ensures AllFine(g)
  {
    forall q | Path(HopsIn(g.root), q) && q[0] == Hop(g.root, 0)
      ensures FineIn(g)(q[|q| - 1])
    {
      var p := PathOfHops(g, q, Spot(g.root, {}));
      assert GoodIn(g)(p[|p| - 1]);
      DialectIsInDialect(g, p[|p| - 1].node);
      ChainsAreShort(g, p);
    }
  }

  // Where no path comes back, a reference that is about to be followed is not in
  // the chain, and the chain has room for it.
  lemma FineIsGoodAt(g: Guard, p: seq<Spot>)
    requires Acyclic(ChildIn(g.root), g.root) && AllFine(g)
    requires Path(LeadsIn(g), p) && p[0] == Spot(g.root, {})
    ensures Good(g, p[|p| - 1])
  {
    var s := p[|p| - 1];
    var q := HopsOfPath(g, p);
    assert FineIn(g)(q[|q| - 1]);
    DialectIsInDialect(g, s.node);
    var ref := Get(s.node.members, "$ref");
    if ref.Some? {
      var b := Target(g, s.node.members).value;
      ReferenceIsTarget(g, s.node, b);
      OneMoreHop(g, q, Hop(b, |s.chain| + 1));
      if ref.value.s in s.chain {
        var i := FollowedBefore(g, p, ref.value.s);
        ComesBack(g, p, i, b);
      }
    }
  }

  lemma OneMoreHop(g: Guard, q: seq<Hop>, t: Hop)
    requires AllFine(g) && Path(HopsIn(g.root), q) && q[0] == Hop(g.root, 0) && Hops(g.root, q[|q| - 1], t)
    ensures t.refs <= 32
  {
    hide Hops;
    PathSnoc(HopsIn(g.root), q, t);
    assert (q + [t])[|q + [t]| - 1] == t;
    assert FineIn(g)(t);
  }

  // Following a reference to where the walk has been is a path that comes back.
  lemma {:induction false} ComesBack(g: Guard, p: seq<Spot>, i: nat, b: Json)
    requires Path(LeadsIn(g), p) && p[0].node == g.root && i + 1 < |p| && p[i + 1].node == b
    requires RefersTo(g.root, p[|p| - 1].node, b)
    ensures !Acyclic(ChildIn(g.root), g.root)
  {
    var nodes := ProjectedPath(g, p);
    ChildrenAreLinks(g, nodes);
    hide Child;
    assert Child(g.root, nodes[|nodes| - 1], b) by {
      assert nodes[|nodes| - 1] == p[|p| - 1].node;
    }
    PathSnoc(ChildIn(g.root), nodes, b);
    var loop := nodes + [b];
    assert loop[i + 1] == loop[|nodes|] == b;
    assert !NoRepeat(loop);
  }

  lemma FineIsGood(g: Guard)
    requires Acyclic(ChildIn(g.root), g.root) && AllFine(g)
    ensures AllGood(LeadsIn(g), GoodIn(g), Spot(g.root, {}))
  {
    forall p | Path(LeadsIn(g), p) && p[0] == Spot(g.root, {})
      ensures GoodIn(g)(p[|p| - 1])
    {
      FineIsGoodAt(g, p);
    }
  }

  lemma SameCycles(g: Guard)
    ensures Acyclic(ChildIn(g.root), g.root) <==> Acyclic(LinksIn(g), g.root)
  {
    forall p
      ensures Path(ChildIn(g.root), p) <==> Path(LinksIn(g), p)
    {
      ChildrenAreLinks(g, p);
    }
  }

  // A document is accepted exactly when no path of schemas in it comes back and
  // everything reached is in the dialect, over at most 32 references in a row.
  lemma GuardIsExact(g: Guard)
    ensures (exists fuel: nat :: Outcome(g, fuel) == Accepted) <==> Acyclic(ChildIn(g.root), g.root) && AllFine(g)
  {
    SameCycles(g);
    LinkedIsExact(g);
    if AllGood(LeadsIn(g), GoodIn(g), Spot(g.root, {})) {
      GoodIsFine(g);
    }
    if Acyclic(ChildIn(g.root), g.root) && AllFine(g) {
      FineIsGood(g);
    }
  }

  // And where no path comes back, every other document is rejected.
  lemma GuardDecidesDialect(g: Guard)
    requires Acyclic(ChildIn(g.root), g.root)
    ensures exists fuel: nat :: Outcome(g, fuel) == if AllFine(g) then Accepted else Rejected
  {
    SameCycles(g);
    LinksAcyclicWalksAcyclic(g);
    GuardDecides(g);
    if AllFine(g) {
      FineIsGood(g);
    } else if AllGood(LeadsIn(g), GoodIn(g), Spot(g.root, {})) {
      GoodIsFine(g);
    }
  }

  // What the conformance vectors use that the dialect leaves out.
  lemma NoComposition()
    ensures "oneOf" !in KEYWORDS && "anyOf" !in KEYWORDS && "allOf" !in KEYWORDS && "not" !in KEYWORDS
    ensures "if" !in KEYWORDS && "then" !in KEYWORDS && "else" !in KEYWORDS
  {
  }

  lemma NoOtherAssertions()
    ensures "format" !in KEYWORDS && "multipleOf" !in KEYWORDS && "contains" !in KEYWORDS &&
            "propertyNames" !in KEYWORDS
    ensures "minProperties" !in KEYWORDS && "maxProperties" !in KEYWORDS && "patternProperties" !in KEYWORDS
  {
  }

  lemma NoOtherReferences()
    ensures "$dynamicRef" !in KEYWORDS && "$dynamicAnchor" !in KEYWORDS && "$anchor" !in KEYWORDS
    ensures "prefixItems" !in KEYWORDS && "additionalItems" !in KEYWORDS
  {
  }
}
