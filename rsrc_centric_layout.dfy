/**
 * The resource-centric graph layout: every resource owns three named graphs
 * (admin, main and structure), every triple written for a resource is routed
 * to exactly one of them by a static table, and a meta graph records which
 * graph is about which resource.
 *
 * The dataset is a map from graph name to graph. A name that is absent
 * stands for an empty graph, as it does in a SPARQL store.
 */
module StoreLayout {
  import opened Rdf
  import opened Exceptions
  import RdfStrings

  type Dataset = map<string, Graph>

  /** `ds.graph(name)`: the graph of that name, empty when there is none. */
  function GraphAt(ds: Dataset, name: string): Graph
  {
    if name in ds then ds[name] else {}
  }

  /** `META_GR_URI`, the graph holding the `foaf:primaryTopic` records. */
  const META_GR_URI := FCSYSTEM + "meta"

  // ---------------------------------------------------------------------
  // Graph names

  /** The uid with `':' + ver_uid` appended exactly when ver_uid is non-empty. */
  function Qualified(uid: string, verUid: string): string
  {
    if verUid != "" then uid + ":" + verUid else uid
  }

  /**
   * `_main_uri(uid, ver_uid)`: the namespace followed by the uid, with a
   * suffix exactly when the version uid is non-empty.
   */
  function MainUri(uid: string, verUid: string): (r: string)
    ensures |r| >= |FCMAIN| + |uid| && r[..|FCMAIN| + |uid|] == FCMAIN + uid
    ensures |r| == |FCMAIN| + |uid| <==> verUid == ""
  {
    FCMAIN + Qualified(uid, verUid)
  }

  /**
   * `_admin_uri(uid, ver_uid)`: the namespace followed by the uid, with a
   * suffix exactly when the version uid is non-empty.
   */
  function AdminUri(uid: string, verUid: string): (r: string)
    ensures |r| >= |FCADMIN| + |uid| && r[..|FCADMIN| + |uid|] == FCADMIN + uid
    ensures |r| == |FCADMIN| + |uid| <==> verUid == ""
  {
    FCADMIN + Qualified(uid, verUid)
  }

  /**
   * `_struct_uri(uid, ver_uid)`: the namespace followed by the uid, with a
   * suffix exactly when the version uid is non-empty.
   */
  function StructUri(uid: string, verUid: string): (r: string)
    ensures |r| >= |FCSTRUCT| + |uid| && r[..|FCSTRUCT| + |uid|] == FCSTRUCT + uid
    ensures |r| == |FCSTRUCT| + |uid| <==> verUid == ""
  {
    FCSTRUCT + Qualified(uid, verUid)
  }

  /**
   * The three kinds of graph name never coincide, whatever the uids and
   * version uids, and none of them is the meta graph.
   */
  lemma GraphNamesDistinct(u1: string, v1: string, u2: string, v2: string)
    ensures MainUri(u1, v1) != AdminUri(u2, v2)
    ensures MainUri(u1, v1) != StructUri(u2, v2)
    ensures AdminUri(u1, v1) != StructUri(u2, v2)
    ensures MainUri(u1, v1) != META_GR_URI
    ensures AdminUri(u1, v1) != META_GR_URI
    ensures StructUri(u1, v1) != META_GR_URI
  {
    var m, a, s := MainUri(u1, v1), AdminUri(u2, v2), StructUri(u2, v2);
    var a1, s1 := AdminUri(u1, v1), StructUri(u1, v1);
    assert m[20] == 'u' && a[20] == 'a' && s[20] == 's' && a1[20] == 'a';
    assert m[14] == 'g' && a1[14] == 'g' && s1[14] == 'g' && META_GR_URI[14] == 'm';
  }

  /**
   * A versioned name is longer than, and so different from, the current
   * name of the same uid.
   */
  lemma VersionedNameDiffers(uid: string, verUid: string)
    requires verUid != ""
    ensures MainUri(uid, verUid) != MainUri(uid, "")
    ensures AdminUri(uid, verUid) != AdminUri(uid, "")
    ensures StructUri(uid, verUid) != StructUri(uid, "")
  {
    assert |Qualified(uid, verUid)| > |Qualified(uid, "")|;
  }

  /**
   * The uid and the version uid can be read back from a graph name when the
   * uid holds no ':' (the first ':' separates them), so such names are
   * unambiguous.
   */
  lemma {:induction false} GraphNamesInjective(u1: string, v1: string, u2: string, v2: string)
    requires ':' !in u1 && ':' !in u2
    requires MainUri(u1, v1) == MainUri(u2, v2)
    ensures u1 == u2 && v1 == v2
  {
    var q := Qualified(u1, v1);
    assert q == MainUri(u1, v1)[|FCMAIN|..] == MainUri(u2, v2)[|FCMAIN|..] == Qualified(u2, v2);
    QualifiedSplits(u1, v1);
    QualifiedSplits(u2, v2);
  }

  lemma QualifiedSplits(u: string, v: string)
    requires ':' !in u
    ensures var q := Qualified(u, v);
      u == RdfStrings.Before(q, ':') &&
      v == (if ':' in q then q[|u| + 1..] else "")
  {
    var q := Qualified(u, v);
    if v != "" {
      RdfStrings.BeforeJoin(u, ':', v);
      assert q[|u|] == ':';
      assert q[|u| + 1..] == v;
    }
  }

  /**
   * With a ':' in the uid, a current name and a version name coincide: the
   * current graph of `u:v` is version `v` of `u`.
   */
  lemma VersionNameCollision(u: string, v: string)
    requires v != ""
    ensures MainUri(u + ":" + v, "") == MainUri(u, v)
    ensures AdminUri(u + ":" + v, "") == AdminUri(u, v)
    ensures StructUri(u + ":" + v, "") == StructUri(u, v)
  {
  }

  // ---------------------------------------------------------------------
  // Routing table

  /** The keys of `attr_map`'s inner tables: 'p' (by predicate), 't' (by type). */
  datatype RouteKey = ByPredicate | ByType

  /** `attr_routes`: term -> destination namespace, one table per key. */
  type Routes = map<RouteKey, map<Term, string>>

  /** Server-managed predicates: their triples go to the admin graph. */
  const ADMIN_PREDICATES: set<Term> := {
    FCREPO_CREATED, FCREPO_CREATED_BY, FCREPO_HAS_PARENT, FCREPO_LAST_MODIFIED,
    FCREPO_LAST_MODIFIED_BY, LDP_MEMBERSHIP_RESOURCE, LDP_HAS_MEMBER_RELATION,
    LDP_INSERTED_CONTENT_RELATION, IANA_DESCRIBED_BY, PREMIS_HAS_MESSAGE_DIGEST,
    PREMIS_HAS_SIZE
  }

  /** Metadata types: `rdf:type` triples with one of them go to the admin graph. */
  const ADMIN_TYPES: set<Term> := {
    FCREPO_BINARY, FCREPO_CONTAINER, FCREPO_PAIRTREE, FCREPO_RESOURCE,
    LDP_BASIC_CONTAINER, LDP_CONTAINER, LDP_DIRECT_CONTAINER,
    LDP_INDIRECT_CONTAINER, LDP_NON_RDF_SOURCE, LDP_RDF_SOURCE, LDP_RESOURCE
  }

  /** Containment predicates: their triples go to the structure graph. */
  const STRUCT_PREDICATES: set<Term> := {FCSYSTEM_CONTAINS, LDP_CONTAINS, PCDM_HAS_MEMBER}

  /** The destination namespaces of `attr_map`, in its (insertion) order. */
  const ATTR_MAP_DESTS: seq<string> := [FCADMIN, FCSTRUCT]

  /** `attr_map` */
  function AttrMap(): map<string, map<RouteKey, set<Term>>>
  {
    map[FCADMIN := map[ByPredicate := ADMIN_PREDICATES, ByType := ADMIN_TYPES],
        FCSTRUCT := map[ByPredicate := STRUCT_PREDICATES]]
  }

  /** The shape of `attr_map`: destination -> key -> the terms routed there. */
  type AttrTable = map<string, map<RouteKey, set<Term>>>

  /** The terms `am[dest][k]` lists (none when either key is missing). */
  function Listed(am: AttrTable, dest: string, k: RouteKey): set<Term>
  {
    if dest in am && k in am[dest] then am[dest][k] else {}
  }

  /**
   * The table for key `k` after `update`-ing it with every destination of
   * `dests` in turn: a later destination overrides an earlier one.
   */
  function RoutesOver(am: AttrTable, dests: seq<string>, k: RouteKey): map<Term, string>
  {
    if dests == [] then map[]
    else
      var last := dests[|dests| - 1];
      RoutesOver(am, dests[..|dests| - 1], k) + map term | term in Listed(am, last, k) :: last
  }

  /** Both tables of the routing map built from `am`, visiting its keys in `dests` order. */
  function RoutesFrom(am: AttrTable, dests: seq<string>): Routes
  {
    map[ByPredicate := RoutesOver(am, dests, ByPredicate), ByType := RoutesOver(am, dests, ByType)]
  }

  /**
   * The routing table `attr_routes` evaluates to: both keys are present and
   * every route ends in one of the destination namespaces.
   */
  function AttrRoutes(): (r: Routes)
    ensures WellFormedRoutes(r)
  {
    RoutesOverValues(AttrMap(), ATTR_MAP_DESTS, ByPredicate);
    RoutesOverValues(AttrMap(), ATTR_MAP_DESTS, ByType);
    RoutesFrom(AttrMap(), ATTR_MAP_DESTS)
  }

  /** Both tables exist and send every term to a destination namespace. */
  predicate WellFormedRoutes(routes: Routes)
  {
    ByPredicate in routes && ByType in routes &&
    forall k, term :: k in routes && term in routes[k] ==> routes[k][term] in ATTR_MAP_DESTS
  }

  /** A folded table only ever routes to one of the destinations folded in. */
  lemma {:induction false} RoutesOverValues(am: AttrTable, dests: seq<string>, k: RouteKey)
    ensures forall term :: term in RoutesOver(am, dests, k) ==> RoutesOver(am, dests, k)[term] in dests
  {
    if dests != [] {
      var init := dests[..|dests| - 1];
      RoutesOverValues(am, init, k);
      assert forall d :: d in init ==> d in dests;
    }
  }

  /** One more destination folded into a table. */
  lemma RoutesOverStep(am: AttrTable, dests: seq<string>, i: nat, k: RouteKey)
    requires i < |dests|
    ensures RoutesOver(am, dests[..i + 1], k) ==
            RoutesOver(am, dests[..i], k) + map term | term in Listed(am, dests[i], k) :: dests[i]
  {
    assert dests[..i + 1][..i] == dests[..i];
  }

  /** The server-managed predicates and the containment predicates are disjoint. */
  lemma PredicateTablesDisjoint()
    ensures ADMIN_PREDICATES !! STRUCT_PREDICATES
  {
    assert |FCSYSTEM_CONTAINS.iri| == 22 && |LDP_CONTAINS.iri| == 33 && |PCDM_HAS_MEMBER.iri| == 32;
    assert forall t :: t in ADMIN_PREDICATES ==> |t.iri| >= 40 && t.iri != LDP_CONTAINS.iri && t.iri != PCDM_HAS_MEMBER.iri;
  }

  /** What the two tables of `attr_routes` hold. */
  lemma AttrRoutesTables()
    ensures AttrRoutes()[ByPredicate] ==
            (map t | t in ADMIN_PREDICATES :: FCADMIN) + (map t | t in STRUCT_PREDICATES :: FCSTRUCT)
    ensures AttrRoutes()[ByType] == map t | t in ADMIN_TYPES :: FCADMIN
  {
    AttrPredicateTable();
    AttrTypeTable();
  }

  lemma AttrPredicateTable()
    ensures AttrRoutes()[ByPredicate] ==
            (map t | t in ADMIN_PREDICATES :: FCADMIN) + (map t | t in STRUCT_PREDICATES :: FCSTRUCT)
  {
    assert AttrRoutes()[ByPredicate] == RoutesOver(AttrMap(), ATTR_MAP_DESTS, ByPredicate);
    assert Listed(AttrMap(), FCADMIN, ByPredicate) == ADMIN_PREDICATES;
    assert Listed(AttrMap(), FCSTRUCT, ByPredicate) == STRUCT_PREDICATES;
    RoutesOverPair(ByPredicate);
  }

  lemma AttrTypeTable()
    ensures AttrRoutes()[ByType] == map t | t in ADMIN_TYPES :: FCADMIN
  {
    assert AttrRoutes()[ByType] == RoutesOver(AttrMap(), ATTR_MAP_DESTS, ByType);
    assert Listed(AttrMap(), FCADMIN, ByType) == ADMIN_TYPES;
    assert Listed(AttrMap(), FCSTRUCT, ByType) == {};
    RoutesOverPair(ByType);
    var none: map<Term, string> := map t | t in Listed(AttrMap(), FCSTRUCT, ByType) :: FCSTRUCT;
    assert none == map[];
  }

  lemma RoutesOverPair(k: RouteKey)
    ensures RoutesOver(AttrMap(), ATTR_MAP_DESTS, k) ==
            (map t | t in Listed(AttrMap(), FCADMIN, k) :: FCADMIN) +
            (map t | t in Listed(AttrMap(), FCSTRUCT, k) :: FCSTRUCT)
  {
    assert ATTR_MAP_DESTS[..2] == ATTR_MAP_DESTS && ATTR_MAP_DESTS[..0] == [];
    RoutesOverStep(AttrMap(), ATTR_MAP_DESTS, 0, k);
    RoutesOverStep(AttrMap(), ATTR_MAP_DESTS, 1, k);
  }

  /**
   * `routes[k]` sends each term listed under `am[dest][k]` to `dest` and
   * routes nothing else.
   */
  ghost predicate RoutesExactlyAt(routes: Routes, am: AttrTable, k: RouteKey)
  {
    k in routes &&
    forall term, dest ::
      (term in routes[k] && routes[k][term] == dest) <==>
      (dest in am && k in am[dest] && term in am[dest][k])
  }

  /** `routes` is exactly the table `am` describes, for both keys. */
  ghost predicate RoutesExactly(routes: Routes, am: AttrTable)
  {
    forall k :: RoutesExactlyAt(routes, am, k)
  }

  lemma AttrRoutesKeyExact(k: RouteKey)
    ensures RoutesExactlyAt(AttrRoutes(), AttrMap(), k)
  {
    if k == ByPredicate {
      AttrPredicateExact();
    } else {
      AttrTypeExact();
    }
  }

  lemma AttrPredicateExact()
    ensures RoutesExactlyAt(AttrRoutes(), AttrMap(), ByPredicate)
  {
    var routes, am := AttrRoutes(), AttrMap();
    AttrPredicateTable();
    PredicateTablesDisjoint();
    DifferAt(FCADMIN, FCSTRUCT, 20);
    assert am.Keys == {FCADMIN, FCSTRUCT};
    assert Listed(am, FCADMIN, ByPredicate) == ADMIN_PREDICATES;
    assert Listed(am, FCSTRUCT, ByPredicate) == STRUCT_PREDICATES;
    TwoDestinationsExact(routes, am, ByPredicate, FCADMIN, ADMIN_PREDICATES, FCSTRUCT, STRUCT_PREDICATES);
  }

  lemma AttrTypeExact()
    ensures RoutesExactlyAt(AttrRoutes(), AttrMap(), ByType)
  {
    var routes, am := AttrRoutes(), AttrMap();
    var none: set<Term> := {};
    AttrTypeTable();
    DifferAt(FCADMIN, FCSTRUCT, 20);
    assert am.Keys == {FCADMIN, FCSTRUCT};
    assert Listed(am, FCADMIN, ByType) == ADMIN_TYPES;
    assert Listed(am, FCSTRUCT, ByType) == none;
    assert routes[ByType] == (map t | t in ADMIN_TYPES :: FCADMIN) + (map t | t in none :: FCSTRUCT);
    TwoDestinationsExact(routes, am, ByType, FCADMIN, ADMIN_TYPES, FCSTRUCT, none);
  }

  /** A table folded from two destinations with disjoint term lists routes exactly those terms. */
  lemma TwoDestinationsExact(routes: Routes, am: AttrTable, k: RouteKey, d1: string, a: set<Term>, d2: string, b: set<Term>)
    requires k in routes && routes[k] == (map t | t in a :: d1) + (map t | t in b :: d2)
    requires a !! b && d1 != d2 && am.Keys == {d1, d2}
    requires Listed(am, d1, k) == a && Listed(am, d2, k) == b
    ensures RoutesExactlyAt(routes, am, k)
  {
    forall term, dest ensures
      (term in routes[k] && routes[k][term] == dest) <==>
      (dest in am && k in am[dest] && term in am[dest][k])
    {
      if dest in am && k in am[dest] && term in am[dest][k] {
        assert term in Listed(am, dest, k);
      }
    }
  }

  /**
   * `attr_routes[k]` sends each term listed under `attr_map[dest][k]` to
   * `dest` and routes nothing else.
   */
  lemma AttrRoutesExact(k: RouteKey, term: Term, dest: string)
    ensures (term in AttrRoutes()[k] && AttrRoutes()[k][term] == dest) <==>
            (dest in AttrMap() && k in AttrMap()[dest] && term in AttrMap()[dest][k])
  {
    var routes, am := AttrRoutes(), AttrMap();
    assert k in routes by { assert k == ByPredicate || k == ByType; }
    AttrRoutesKeyExact(k);
    RoutesExactlyAtTerm(routes, am, k, term, dest);
  }

  lemma RoutesExactlyAtTerm(routes: Routes, am: AttrTable, k: RouteKey, term: Term, dest: string)
    requires RoutesExactlyAt(routes, am, k)
    ensures (k in routes && term in routes[k] && routes[k][term] == dest) <==>
            (dest in am && k in am[dest] && term in am[dest][k])
  {
  }

  /** `attr_routes` is exactly the table `attr_map` describes. */
  lemma AttrRoutesAllExact()
    ensures RoutesExactly(AttrRoutes(), AttrMap())
  {
    forall k ensures RoutesExactlyAt(AttrRoutes(), AttrMap(), k) {
      AttrRoutesKeyExact(k);
    }
  }

  /**
   * The nested loops of the `attr_routes` property: for every key `dest` of
   * `am`, in the order `dests`, `update` each table with what `am[dest]`
   * lists.
   */
  method BuildRoutes(am: AttrTable, dests: seq<string>) returns (routes: Routes)
    requires forall i :: 0 <= i < |dests| ==> dests[i] in am
    ensures routes == RoutesFrom(am, dests)
  {
    routes := map[ByPredicate := map[], ByType := map[]];
    var i := 0;
    while i < |dests|
      invariant 0 <= i <= |dests|
      invariant routes == RoutesFrom(am, dests[..i])
    {
      var next := UpdateRoutes(routes, am, dests[i]);
      RoutesFromStep(am, dests, i, routes, next);
      routes := next;
      i := i + 1;
    }
    assert dests[..|dests|] == dests;
  }

  lemma RoutesFromStep(am: AttrTable, dests: seq<string>, i: nat, routes: Routes, next: Routes)
    requires i < |dests| && routes == RoutesFrom(am, dests[..i])
    requires next.Keys == routes.Keys
    requires forall k :: k in next ==> next[k] == routes[k] + map term | term in Listed(am, dests[i], k) :: dests[i]
    ensures next == RoutesFrom(am, dests[..i + 1])
  {
    RoutesOverStep(am, dests, i, ByPredicate);
    RoutesOverStep(am, dests, i, ByType);
  }

  /** The inner loop: `update` the table of each key of `am[dest]`. */
  method UpdateRoutes(routes: Routes, am: AttrTable, dest: string) returns (r: Routes)
    requires routes.Keys == {ByPredicate, ByType} && dest in am
    ensures r.Keys == routes.Keys
    ensures forall k :: k in r ==> r[k] == routes[k] + map term | term in Listed(am, dest, k) :: dest
  {
    r := routes;
    var table := am[dest];
    var keys := table.Keys;
    while keys != {}
      invariant keys <= table.Keys
      invariant r.Keys == routes.Keys
      invariant forall k :: k in r ==>
        r[k] == if k in table && k !in keys then routes[k] + map term | term in table[k] :: dest else routes[k]
      decreases keys
    {
      var k :| k in keys;
      assert k in r by { assert k.ByPredicate? || k.ByType?; }
      r := r[k := r[k] + map term | term in table[k] :: dest];
      keys := keys - {k};
    }
    forall k | k in r && k !in table
      ensures r[k] == routes[k] + map term | term in Listed(am, dest, k) :: dest
    {
      var none: map<Term, string> := map term | term in Listed(am, dest, k) :: dest;
      assert none == map[];
    }
  }

  /** Building the table from `attr_map` yields exactly the routes of `AttrRoutesExact`. */
  method BuildAttrRoutes() returns (routes: Routes)
    ensures routes == AttrRoutes()
    ensures RoutesExactly(routes, AttrMap())
  {
    routes := BuildRoutes(AttrMap(), ATTR_MAP_DESTS);
    AttrRoutesAllExact();
  }

  /**
   * `_map_graph_uri(t, uid)` over the routing table `routes`: a routed
   * predicate decides first; otherwise an `rdf:type` triple with a routed
   * type goes where the type is routed; all else goes to the main graph.
   * The destination is always one of the three current graphs of the uid.
   */
  function MapGraphUri(routes: Routes, t: Triple, uid: string): (r: string)
    requires WellFormedRoutes(routes)
    ensures r == AdminUri(uid, "") || r == MainUri(uid, "") || r == StructUri(uid, "")
    ensures r != META_GR_URI
  {
    GraphNamesDistinct(uid, "", uid, "");
    if t.p in routes[ByPredicate] then
      routes[ByPredicate][t.p] + uid
    else if t.p == RDF_TYPE && t.o in routes[ByType] then
      routes[ByType][t.o] + uid
    else
      FCMAIN + uid
  }

  /**
   * With the table built from `attr_map`: server-managed predicates go to
   * the admin graph, containment predicates to the structure graph,
   * `rdf:type` triples with a metadata type to the admin graph, and
   * everything else to the main graph.
   */
  lemma MapGraphUriRules(t: Triple, uid: string)
    ensures t.p in ADMIN_PREDICATES ==> MapGraphUri(AttrRoutes(), t, uid) == AdminUri(uid, "")
    ensures t.p in STRUCT_PREDICATES ==> MapGraphUri(AttrRoutes(), t, uid) == StructUri(uid, "")
    ensures t.p == RDF_TYPE && t.o in ADMIN_TYPES ==> MapGraphUri(AttrRoutes(), t, uid) == AdminUri(uid, "")
    ensures (t.p !in ADMIN_PREDICATES && t.p !in STRUCT_PREDICATES &&
             !(t.p == RDF_TYPE && t.o in ADMIN_TYPES)) ==> MapGraphUri(AttrRoutes(), t, uid) == MainUri(uid, "")
  {
    AttrRoutesTables();
    PredicateTablesDisjoint();
  }

  // ---------------------------------------------------------------------
  // modify_rsrc

  /** The triples of `trp` that `_map_graph_uri` sends to graph `name`. */
  function RoutedTo(routes: Routes, trp: Graph, uid: string, name: string): Graph
    requires WellFormedRoutes(routes)
  {
    set t | t in trp && MapGraphUri(routes, t, uid) == name
  }

  /** The graphs that receive at least one triple of `trp`. */
  function Targets(routes: Routes, trp: Graph, uid: string): set<string>
    requires WellFormedRoutes(routes)
  {
    set t | t in trp :: MapGraphUri(routes, t, uid)
  }

  /** The `remove_routes` / `add_routes` dictionaries: graph name -> its triples. */
  function Group(routes: Routes, trp: Graph, uid: string): map<string, Graph>
    requires WellFormedRoutes(routes)
  {
    map name | name in Targets(routes, trp, uid) :: RoutedTo(routes, trp, uid, name)
  }

  /** `gr -= trp` for each routed graph. */
  function Subtract(ds: Dataset, groups: map<string, Graph>): Dataset
  {
    map n | n in ds.Keys + groups.Keys :: if n in groups then GraphAt(ds, n) - groups[n] else ds[n]
  }

  /** `gr += trp` for each routed graph. */
  function Merge(ds: Dataset, groups: map<string, Graph>): Dataset
  {
    map n | n in ds.Keys + groups.Keys :: if n in groups then GraphAt(ds, n) + groups[n] else ds[n]
  }

  /** `(gr_uri, foaf:primaryTopic, fcres:uid)` for each name. */
  function PrimaryTopics(names: set<string>, uid: string): Graph
  {
    set n | n in names :: Triple(Iri(n), FOAF_PRIMARY_TOPIC, Res(uid))
  }

  /** The meta graph additions, made only when there is something to add. */
  function AddTopics(ds: Dataset, names: set<string>, uid: string): Dataset
  {
    if names == {} then ds
    else ds[META_GR_URI := GraphAt(ds, META_GR_URI) + PrimaryTopics(names, uid)]
  }

  /** The dataset after `modify_rsrc(uid, remove_trp, add_trp)`. */
  function ModifyDataset(ds: Dataset, routes: Routes, uid: string, removeTrp: Graph, addTrp: Graph): (r: Dataset)
    requires WellFormedRoutes(routes)
    ensures removeTrp == {} && addTrp == {} ==> r == ds
  {
    TargetsEmpty(routes, removeTrp, uid);
    TargetsEmpty(routes, addTrp, uid);
    var addGroups := Group(routes, addTrp, uid);
    AddTopics(Merge(Subtract(ds, Group(routes, removeTrp, uid)), addGroups), addGroups.Keys, uid)
  }

  /** Only the empty set of triples has no target graph. */
  lemma TargetsEmpty(routes: Routes, trp: Graph, uid: string)
    requires WellFormedRoutes(routes)
    ensures Targets(routes, trp, uid) == {} <==> trp == {}
    ensures META_GR_URI !in Targets(routes, trp, uid)
  {
    if trp != {} {
      var t :| t in trp;
      assert MapGraphUri(routes, t, uid) in Targets(routes, trp, uid);
    }
  }

  /**
   * What `modify_rsrc` does to each graph other than the meta graph: the
   * removals routed to it are taken out first, then the additions routed to
   * it are put in.
   */
  lemma ModifyGraphContent(ds: Dataset, routes: Routes, uid: string, removeTrp: Graph, addTrp: Graph, name: string)
    requires WellFormedRoutes(routes)
    requires name != META_GR_URI
    ensures GraphAt(ModifyDataset(ds, routes, uid, removeTrp, addTrp), name) ==
            (GraphAt(ds, name) - RoutedTo(routes, removeTrp, uid, name)) + RoutedTo(routes, addTrp, uid, name)
  {
    var d1 := Subtract(ds, Group(routes, removeTrp, uid));
    var d2 := Merge(d1, Group(routes, addTrp, uid));
    assert GraphAt(ModifyDataset(ds, routes, uid, removeTrp, addTrp), name) == GraphAt(d2, name);
    if name !in Targets(routes, removeTrp, uid) {
      assert RoutedTo(routes, removeTrp, uid, name) == {};
    }
    assert GraphAt(d1, name) == GraphAt(ds, name) - RoutedTo(routes, removeTrp, uid, name);
    if name !in Targets(routes, addTrp, uid) {
      assert RoutedTo(routes, addTrp, uid, name) == {};
    }
  }

  /**
   * The meta graph gains a `foaf:primaryTopic` record for exactly the graphs
   * that received additions; graphs that only lost triples get none, and a
   * call that adds nothing leaves the meta graph alone.
   */
  lemma ModifyMetaGraph(ds: Dataset, routes: Routes, uid: string, removeTrp: Graph, addTrp: Graph)
    requires WellFormedRoutes(routes)
    ensures GraphAt(ModifyDataset(ds, routes, uid, removeTrp, addTrp), META_GR_URI) ==
            GraphAt(ds, META_GR_URI) + PrimaryTopics(Targets(routes, addTrp, uid), uid)
    ensures addTrp == {} ==>
            (META_GR_URI in ModifyDataset(ds, routes, uid, removeTrp, addTrp) <==> META_GR_URI in ds)
  {
    TargetsEmpty(routes, removeTrp, uid);
    TargetsEmpty(routes, addTrp, uid);
    var d2 := Merge(Subtract(ds, Group(routes, removeTrp, uid)), Group(routes, addTrp, uid));
    assert GraphAt(d2, META_GR_URI) == GraphAt(ds, META_GR_URI);
    assert META_GR_URI in d2 <==> META_GR_URI in ds;
  }

  /**
   * Each triple lands in, or leaves, exactly the graph `_map_graph_uri`
   * selects. A triple in both sets is present afterwards, because all
   * removals happen before all additions.
   */
  lemma ModifyRoutesEachTriple(ds: Dataset, routes: Routes, uid: string, removeTrp: Graph, addTrp: Graph, t: Triple)
    requires WellFormedRoutes(routes)
    ensures t in addTrp ==>
            t in GraphAt(ModifyDataset(ds, routes, uid, removeTrp, addTrp), MapGraphUri(routes, t, uid))
    ensures t in removeTrp && t !in addTrp ==>
            t !in GraphAt(ModifyDataset(ds, routes, uid, removeTrp, addTrp), MapGraphUri(routes, t, uid))
  {
    ModifyGraphContent(ds, routes, uid, removeTrp, addTrp, MapGraphUri(routes, t, uid));
  }

  /** Graphs that no triple selects, other than the meta graph, are unchanged. */
  lemma ModifyLeavesOthers(ds: Dataset, routes: Routes, uid: string, removeTrp: Graph, addTrp: Graph, name: string)
    requires WellFormedRoutes(routes)
    requires name != META_GR_URI
    requires name !in Targets(routes, removeTrp, uid) && name !in Targets(routes, addTrp, uid)
    ensures name in ModifyDataset(ds, routes, uid, removeTrp, addTrp) <==> name in ds
    ensures GraphAt(ModifyDataset(ds, routes, uid, removeTrp, addTrp), name) == GraphAt(ds, name)
  {
    ModifyGraphContent(ds, routes, uid, removeTrp, addTrp, name);
    assert RoutedTo(routes, removeTrp, uid, name) == {};
    assert RoutedTo(routes, addTrp, uid, name) == {};
  }

  // ---------------------------------------------------------------------
  // Existence, IMR extraction, deletion, versions

  /** `ask_rsrc_exists(uid)`: the admin graph types the resource `fcrepo:Resource`. */
  predicate RsrcExists(ds: Dataset, uid: string)
    ensures RsrcExists(ds, uid) ==> AdminUri(uid, "") in ds
  {
    Triple(Res(uid), RDF_TYPE, FCREPO_RESOURCE) in GraphAt(ds, AdminUri(uid, ""))
  }

  /**
   * `fcrepo:Resource` is a routed type, so writing its `rdf:type` triple
   * through `modify_rsrc` makes the resource exist, and removing it (without
   * re-adding it) makes it not exist.
   */
  lemma ExistsAfterModify(ds: Dataset, uid: string, removeTrp: Graph, addTrp: Graph)
    ensures Triple(Res(uid), RDF_TYPE, FCREPO_RESOURCE) in addTrp ==>
            RsrcExists(ModifyDataset(ds, AttrRoutes(), uid, removeTrp, addTrp), uid)
    ensures Triple(Res(uid), RDF_TYPE, FCREPO_RESOURCE) in removeTrp - addTrp ==>
            !RsrcExists(ModifyDataset(ds, AttrRoutes(), uid, removeTrp, addTrp), uid)
  {
    var t := Triple(Res(uid), RDF_TYPE, FCREPO_RESOURCE);
    MapGraphUriRules(t, uid);
    ModifyRoutesEachTriple(ds, AttrRoutes(), uid, removeTrp, addTrp, t);
  }

  /** The graphs `extract_imr` unions: admin, main and, with children, structure. */
  function ImrUnion(ds: Dataset, uid: string, inclChildren: bool): Graph
  {
    GraphAt(ds, AdminUri(uid, "")) + GraphAt(ds, MainUri(uid, "")) +
    (if inclChildren then GraphAt(ds, StructUri(uid, "")) else {})
  }

  /** The resource is a tombstone, or points to the tombstone of an ancestor. */
  predicate IsTombstone(gr: Graph, uid: string)
  {
    Triple(Res(uid), RDF_TYPE, FCSYSTEM_TOMBSTONE_TYPE) in gr ||
    Values(gr, Res(uid), FCSYSTEM_TOMBSTONE) != {}
  }

  /**
   * `extract_imr(uid, strict, incl_children)`: the union of the resource's
   * graphs; in strict mode an empty union fails as not found and a tombstone
   * fails; otherwise it never fails.
   */
  function ExtractImrFrom(ds: Dataset, uid: string, strict: bool, inclChildren: bool): (r: Result<Graph>)
    ensures r.Ok? ==> forall t :: t in r.value <==>
      t in GraphAt(ds, AdminUri(uid, "")) || t in GraphAt(ds, MainUri(uid, "")) ||
      (inclChildren && t in GraphAt(ds, StructUri(uid, "")))
    ensures !strict ==> r.Ok?
    ensures strict ==> (r.Ok? <==> ImrUnion(ds, uid, inclChildren) != {} &&
                                   !IsTombstone(ImrUnion(ds, uid, inclChildren), uid))
    ensures strict && ImrUnion(ds, uid, inclChildren) == {} ==> r == Err(ResourceNotExists(uid))
  {
    var gr := ImrUnion(ds, uid, inclChildren);
    if strict && gr == {} then Err(ResourceNotExists(uid))
    else if Triple(Res(uid), RDF_TYPE, FCSYSTEM_TOMBSTONE_TYPE) in gr then
      if strict then Err(TombstoneFound(uid)) else Ok(gr)
    else if Values(gr, Res(uid), FCSYSTEM_TOMBSTONE) != {} then
      if strict then Err(TombstoneFound(uid)) else Ok(gr)
    else Ok(gr)
  }

  /**
   * A resource that exists is never reported missing by a strict
   * extraction, and a lenient one returns its `fcrepo:Resource` type.
   */
  lemma ExistingResourceFound(ds: Dataset, uid: string, inclChildren: bool)
    requires RsrcExists(ds, uid)
    ensures ExtractImrFrom(ds, uid, true, inclChildren) != Err(ResourceNotExists(uid))
    ensures Triple(Res(uid), RDF_TYPE, FCREPO_RESOURCE) in ExtractImrFrom(ds, uid, false, inclChildren).value
  {
  }

  /**
   * `delete_rsrc_data(uid, backup_uid)`: with a backup uid the main graph is
   * MOVEd to its versioned name (SPARQL 1.1 Update, section 3.2.4: the
   * target is dropped, then receives the source, then the source is
   * dropped); then the main and structure graphs are dropped. The admin
   * graph is not named, so it stays.
   */
  function DeleteData(ds: Dataset, uid: string, backupUid: string): (r: Dataset)
    ensures r.Keys <= ds.Keys + (if backupUid != "" then {MainUri(uid, backupUid)} else {})
    ensures MainUri(uid, "") !in r && StructUri(uid, "") !in r
  {
    var mg := MainUri(uid, "");
    var moved :=
      if backupUid == "" then ds
      else if mg in ds then ds[MainUri(uid, backupUid) := ds[mg]]
      else ds - {MainUri(uid, backupUid)};
    moved - {mg, StructUri(uid, "")}
  }

  /**
   * After `delete_rsrc_data` the main and structure graphs are empty, the
   * admin graph is as before, a backup holds the old main graph, and every
   * other graph is untouched.
   */
  lemma DeleteDataEffect(ds: Dataset, uid: string, backupUid: string, name: string)
    ensures GraphAt(DeleteData(ds, uid, backupUid), MainUri(uid, "")) == {}
    ensures GraphAt(DeleteData(ds, uid, backupUid), StructUri(uid, "")) == {}
    ensures GraphAt(DeleteData(ds, uid, backupUid), AdminUri(uid, "")) == GraphAt(ds, AdminUri(uid, ""))
    ensures backupUid != "" ==>
      GraphAt(DeleteData(ds, uid, backupUid), MainUri(uid, backupUid)) == GraphAt(ds, MainUri(uid, ""))
    ensures name != MainUri(uid, "") && name != StructUri(uid, "") &&
            (backupUid == "" || name != MainUri(uid, backupUid)) ==>
      (name in DeleteData(ds, uid, backupUid) <==> name in ds) &&
      GraphAt(DeleteData(ds, uid, backupUid), name) == GraphAt(ds, name)
  {
    GraphNamesDistinct(uid, "", uid, "");
    GraphNamesDistinct(uid, backupUid, uid, "");
    if backupUid != "" {
      VersionedNameDiffers(uid, backupUid);
    }
  }

  /** The three current graphs of a uid share out every set of triples between them. */
  lemma RoutedPartition(routes: Routes, trp: Graph, uid: string)
    requires WellFormedRoutes(routes)
    ensures trp == RoutedTo(routes, trp, uid, AdminUri(uid, "")) + RoutedTo(routes, trp, uid, MainUri(uid, "")) +
                   RoutedTo(routes, trp, uid, StructUri(uid, ""))
  {
  }

  /** A pure addition puts into each graph the triples routed to it. */
  lemma ModifyAddOnly(ds: Dataset, routes: Routes, uid: string, trp: Graph, name: string)
    requires WellFormedRoutes(routes)
    requires name != META_GR_URI
    ensures GraphAt(ModifyDataset(ds, routes, uid, {}, trp), name) == GraphAt(ds, name) + RoutedTo(routes, trp, uid, name)
  {
    ModifyGraphContent(ds, routes, uid, {}, trp, name);
    assert RoutedTo(routes, {}, uid, name) == {};
  }

  /** Adding triples through `modify_rsrc` adds exactly them to the IMR, children included. */
  lemma ModifyAddsToImr(ds: Dataset, routes: Routes, uid: string, trp: Graph)
    requires WellFormedRoutes(routes)
    ensures ImrUnion(ModifyDataset(ds, routes, uid, {}, trp), uid, true) == ImrUnion(ds, uid, true) + trp
  {
    var a, m, s := AdminUri(uid, ""), MainUri(uid, ""), StructUri(uid, "");
    GraphNamesDistinct(uid, "", uid, "");
    ModifyAddOnly(ds, routes, uid, trp, a);
    ModifyAddOnly(ds, routes, uid, trp, m);
    ModifyAddOnly(ds, routes, uid, trp, s);
    RoutedPartition(routes, trp, uid);
  }

  /**
   * `create_or_replace_rsrc`: afterwards the resource's IMR, children
   * included, is its old admin graph plus exactly the triples written.
   */
  lemma CreateOrReplaceImr(ds: Dataset, routes: Routes, uid: string, trp: Graph, backupUid: string)
    requires WellFormedRoutes(routes)
    ensures ImrUnion(ModifyDataset(DeleteData(ds, uid, backupUid), routes, uid, {}, trp), uid, true) ==
            GraphAt(ds, AdminUri(uid, "")) + trp
  {
    DeleteDataEffect(ds, uid, backupUid, "");
    ModifyAddsToImr(DeleteData(ds, uid, backupUid), routes, uid, trp);
  }

  /** `create_or_replace_rsrc` with a backup uid keeps the previous main graph under it. */
  lemma CreateOrReplaceKeepsBackup(ds: Dataset, routes: Routes, uid: string, trp: Graph, backupUid: string)
    requires WellFormedRoutes(routes)
    requires backupUid != ""
    ensures VersionOf(ModifyDataset(DeleteData(ds, uid, backupUid), routes, uid, {}, trp), uid, backupUid) ==
            GraphAt(ds, MainUri(uid, ""))
  {
    var d := DeleteData(ds, uid, backupUid);
    var b := MainUri(uid, backupUid);
    GraphNamesDistinct(uid, backupUid, uid, "");
    VersionedNameDiffers(uid, backupUid);
    assert b !in Targets(routes, trp, uid);
    assert b !in Targets(routes, {}, uid);
    ModifyLeavesOthers(d, routes, uid, {}, trp, b);
    DeleteDataEffect(ds, uid, backupUid, b);
  }

  /** `get_version(uid, ver_uid)`: the content of the versioned main graph. */
  function VersionOf(ds: Dataset, uid: string, verUid: string): Graph
  {
    GraphAt(ds, MainUri(uid, verUid))
  }

  // ---------------------------------------------------------------------
  // The layout object

  class RsrcCentricLayout {
    /** The graph store (`self.ds`). */
    var ds: Dataset
    /** `_attr_routes`, filled on first use of `attr_routes`. */
    var attrRoutesCache: Option<Routes>

    ghost predicate Valid()
      reads this
    {
      attrRoutesCache.Some? ==> attrRoutesCache.value == AttrRoutes()
    }

    constructor (ds: Dataset)
      ensures Valid() && this.ds == ds && attrRoutesCache == None
    {
      this.ds := ds;
      attrRoutesCache := None;
    }

    /** The `attr_routes` property: build the table once, then reuse it. */
    method GetAttrRoutes() returns (routes: Routes)
      requires Valid()
      modifies this`attrRoutesCache
      ensures Valid() && routes == AttrRoutes() && attrRoutesCache == Some(routes)
    {
      if attrRoutesCache.None? {
        var built := BuildAttrRoutes();
        attrRoutesCache := Some(built);
      }
      routes := attrRoutesCache.value;
    }

    /** `ask_rsrc_exists(uid)` */
    predicate AskRsrcExists(uid: string)
      reads this
    {
      RsrcExists(ds, uid)
    }

    /** `extract_imr(uid, ver_uid=None, strict, incl_inbound=False, incl_children)` */
    function ExtractImr(uid: string, strict: bool, inclChildren: bool): (r: Result<Graph>)
      reads this
      ensures strict && r.Ok? ==> r.value != {} && !IsTombstone(r.value, uid)
      ensures !strict ==> r.Ok? && GraphAt(ds, MainUri(uid, "")) <= r.value
    {
      ExtractImrFrom(ds, uid, strict, inclChildren)
    }

    /** `get_version(uid, ver_uid)` */
    function GetVersion(uid: string, verUid: string): (r: Graph)
      reads this
      ensures verUid == "" ==> r <= ExtractImr(uid, false, false).value
    {
      VersionOf(ds, uid, verUid)
    }

    /** `modify_rsrc(uid, remove_trp, add_trp)` */
    method ModifyRsrc(uid: string, removeTrp: Graph, addTrp: Graph)
      requires Valid()
      modifies this
      ensures Valid() && ds == ModifyDataset(old(ds), AttrRoutes(), uid, removeTrp, addTrp)
    {
      var routes := GetAttrRoutes();
      // Create add and remove sets for each graph.
      var removeGroups := RouteTriples(routes, removeTrp, uid);
      var addGroups := RouteTriples(routes, addTrp, uid);
      TargetsEmpty(routes, addTrp, uid);
      var removed := ApplyRemovals(ds, removeGroups);
      ds := ApplyAdditions(removed, addGroups, uid);
    }

    /** `delete_rsrc_data(uid, backup_uid)` */
    method DeleteRsrcData(uid: string, backupUid: string)
      modifies this`ds
      ensures ds == DeleteData(old(ds), uid, backupUid)
    {
      var mgUri := MainUri(uid, "");
      var sgUri := StructUri(uid, "");
      if backupUid != "" {
        // MOVE SILENT mg TO vg
        var backupUri := MainUri(uid, backupUid);
        if mgUri in ds {
          ds := ds[backupUri := ds[mgUri]];
        } else {
          ds := ds - {backupUri};
        }
      }
      ds := ds - {mgUri};
      ds := ds - {sgUri};
    }

    /** `create_or_replace_rsrc(uid, trp, backup_uid)` */
    method CreateOrReplaceRsrc(uid: string, trp: Graph, backupUid: string)
      requires Valid()
      modifies this
      ensures Valid() && ds == ModifyDataset(DeleteData(old(ds), uid, backupUid), AttrRoutes(), uid, {}, trp)
    {
      DeleteRsrcData(uid, backupUid);
      ModifyRsrc(uid, {}, trp);
    }
  }

  /** The `defaultdict(set)` loop of `modify_rsrc`: group triples by target graph. */
  method RouteTriples(routes: Routes, trp: Graph, uid: string) returns (groups: map<string, Graph>)
    requires WellFormedRoutes(routes)
    ensures groups == Group(routes, trp, uid)
  {
    groups := map[];
    var rest := trp;
    while rest != {}
      invariant rest <= trp
      invariant groups == Group(routes, trp - rest, uid)
      decreases rest
    {
      var t :| t in rest;
      var name := MapGraphUri(routes, t, uid);
      GroupInsert(routes, trp - rest, t, uid);
      assert trp - (rest - {t}) == (trp - rest) + {t};
      groups := groups[name := (if name in groups then groups[name] else {}) + {t}];
      rest := rest - {t};
    }
    assert trp - rest == trp;
  }

  /** The first loop of `modify_rsrc`'s second half: `gr -= trp` per graph. */
  method ApplyRemovals(ds: Dataset, groups: map<string, Graph>) returns (r: Dataset)
    ensures r == Subtract(ds, groups)
  {
    r := ds;
    var names := groups.Keys;
    ghost var done: map<string, Graph> := map[];
    while names != {}
      invariant names <= groups.Keys
      invariant done.Keys == groups.Keys - names
      invariant forall n :: n in done ==> done[n] == groups[n]
      invariant r == Subtract(ds, done)
      decreases names
    {
      var n :| n in names;
      SubtractStep(ds, done, n, groups[n]);
      r := r[n := GraphAt(r, n) - groups[n]];
      done := done[n := groups[n]];
      names := names - {n};
    }
    assert done == groups;
  }

  /**
   * The second loop: `gr += trp` per graph, each followed by its
   * `foaf:primaryTopic` record in the meta graph.
   */
  method ApplyAdditions(ds: Dataset, groups: map<string, Graph>, uid: string) returns (r: Dataset)
    requires META_GR_URI !in groups
    ensures r == AddTopics(Merge(ds, groups), groups.Keys, uid)
  {
    r := ds;
    var names := groups.Keys;
    ghost var done: map<string, Graph> := map[];
    while names != {}
      invariant names <= groups.Keys
      invariant done.Keys == groups.Keys - names
      invariant forall n :: n in done ==> done[n] == groups[n]
      invariant r == AddTopics(Merge(ds, done), done.Keys, uid)
      decreases names
    {
      var n :| n in names;
      var add := groups[n];
      AddStep(ds, done, n, add, uid);
      ghost var done' := done[n := add];
      assert done'.Keys == done.Keys + {n} == groups.Keys - (names - {n});
      r := r[n := GraphAt(r, n) + add];
      r := r[META_GR_URI := GraphAt(r, META_GR_URI) + {Triple(Iri(n), FOAF_PRIMARY_TOPIC, Res(uid))}];
      assert r == AddTopics(Merge(ds, done'), done'.Keys, uid);
      done := done';
      names := names - {n};
    }
    assert done == groups;
  }

  lemma GroupInsert(routes: Routes, s: Graph, t: Triple, uid: string)
    requires WellFormedRoutes(routes)
    ensures var g := Group(routes, s, uid); var n := MapGraphUri(routes, t, uid);
      Group(routes, s + {t}, uid) == g[n := (if n in g then g[n] else {}) + {t}]
  {
    var g, n := Group(routes, s, uid), MapGraphUri(routes, t, uid);
    var lhs, rhs := Group(routes, s + {t}, uid), g[n := (if n in g then g[n] else {}) + {t}];
    TargetsInsert(routes, s, t, uid);
    assert lhs.Keys == rhs.Keys;
    forall m | m in lhs.Keys ensures lhs[m] == rhs[m] {
      RoutedToInsert(routes, s, t, uid, m);
    }
  }

  lemma TargetsInsert(routes: Routes, s: Graph, t: Triple, uid: string)
    requires WellFormedRoutes(routes)
    ensures Targets(routes, s + {t}, uid) == Targets(routes, s, uid) + {MapGraphUri(routes, t, uid)}
  {
  }

  lemma RoutedToInsert(routes: Routes, s: Graph, t: Triple, uid: string, m: string)
    requires WellFormedRoutes(routes)
    ensures RoutedTo(routes, s + {t}, uid, m) ==
            RoutedTo(routes, s, uid, m) + (if MapGraphUri(routes, t, uid) == m then {t} else {})
  {
  }

  lemma SubtractStep(ds: Dataset, done: map<string, Graph>, n: string, g: Graph)
    requires n !in done
    ensures var d := Subtract(ds, done);
      Subtract(ds, done[n := g]) == d[n := GraphAt(d, n) - g]
  {
    var d := Subtract(ds, done);
    var lhs, rhs := Subtract(ds, done[n := g]), d[n := GraphAt(d, n) - g];
    assert lhs.Keys == rhs.Keys;
    forall m | m in lhs.Keys ensures lhs[m] == rhs[m] {
    }
  }

  lemma MergeStep(ds: Dataset, done: map<string, Graph>, n: string, g: Graph)
    requires n !in done
    ensures var m := Merge(ds, done);
      Merge(ds, done[n := g]) == m[n := GraphAt(m, n) + g]
  {
    var m := Merge(ds, done);
    var lhs, rhs := Merge(ds, done[n := g]), m[n := GraphAt(m, n) + g];
    assert lhs.Keys == rhs.Keys;
    forall k | k in lhs.Keys ensures lhs[k] == rhs[k] {
    }
  }

  lemma AddStep(ds: Dataset, done: map<string, Graph>, n: string, g: Graph, uid: string)
    requires n !in done && n != META_GR_URI && META_GR_URI !in done
    ensures var d := AddTopics(Merge(ds, done), done.Keys, uid);
      var d1 := d[n := GraphAt(d, n) + g];
      AddTopics(Merge(ds, done[n := g]), done.Keys + {n}, uid) ==
      d1[META_GR_URI := GraphAt(d1, META_GR_URI) + {Triple(Iri(n), FOAF_PRIMARY_TOPIC, Res(uid))}]
  {
    MergeStep(ds, done, n, g);
    var m := Merge(ds, done);
    var tn := Triple(Iri(n), FOAF_PRIMARY_TOPIC, Res(uid));
    TopicsStep(done.Keys, n, uid);
    var base := GraphAt(m, META_GR_URI);
    var meta := base + PrimaryTopics(done.Keys, uid) + {tn};
    var d := AddTopics(m, done.Keys, uid);
    assert GraphAt(d, n) == GraphAt(m, n);
    assert GraphAt(d, META_GR_URI) == base + PrimaryTopics(done.Keys, uid);
    var z := GraphAt(m, n) + g;
    if done.Keys != {} {
      OverrideUpdate(m, META_GR_URI, n, GraphAt(d, META_GR_URI), z, meta);
    }
    assert d[n := z][META_GR_URI := meta] == m[n := z][META_GR_URI := meta];
    var m1 := m[n := z];
    assert GraphAt(m1, META_GR_URI) == base;
    assert n in done.Keys + {n};
    assert GraphAt(m1, META_GR_URI) + PrimaryTopics(done.Keys + {n}, uid) == meta;
    assert AddTopics(m1, done.Keys + {n}, uid) == m1[META_GR_URI := meta];
    assert GraphAt(d[n := z], META_GR_URI) == GraphAt(d, META_GR_URI);
  }

  /** `PrimaryTopics` over one more name. */
  lemma TopicsStep(names: set<string>, n: string, uid: string)
    ensures PrimaryTopics(names + {n}, uid) == PrimaryTopics(names, uid) + {Triple(Iri(n), FOAF_PRIMARY_TOPIC, Res(uid))}
  {
  }

  /** An update to `x` that is overwritten later is lost. */
  lemma OverrideUpdate<K, V>(a: map<K, V>, x: K, y: K, u: V, z: V, w: V)
    requires x != y
    ensures a[x := u][y := z][x := w] == a[y := z][x := w]
  {
    var lhs, rhs := a[x := u][y := z][x := w], a[y := z][x := w];
    assert lhs.Keys == rhs.Keys;
    forall k | k in lhs.Keys ensures lhs[k] == rhs[k] {
    }
  }
}
