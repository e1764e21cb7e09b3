/**
 * The rules `Ldpr` applies to a client payload before it is stored: the
 * replace delta, the server-managed stamps, the single-subject check, the
 * referential-integrity filter, the sanitising of server-managed terms and
 * the filter of the outgoing representation.
 *
 * The server-managed subjects, predicates and types are a parameter
 * (`ManagedTerms`): the table that lists them is not part of this model.
 */
module WriteRules {
  import opened Rdf
  import opened Exceptions
  import RdfStrings
  import StoreLayout

  // ---------------------------------------------------------------------
  // Deltas

  /**
   * `_dedup_deltas(remove_gr, add_gr)`: the two deltas without the triples
   * they share. Applying them to `remove_gr` yields `add_gr`.
   */
  function DedupDeltas(removeGr: Graph, addGr: Graph): (r: (Graph, Graph))
    ensures r.0 !! r.1
    ensures r.0 <= removeGr && r.1 <= addGr
    ensures r.0 !! addGr && r.1 !! removeGr
    ensures (removeGr - r.0) + r.1 == addGr
  {
    (removeGr - addGr, addGr - removeGr)
  }

  /** `protected_pred`: never removed from a stored resource by a replace. */
  const PROTECTED_PREDICATES: seq<Term> := [FCREPO_CREATED, FCREPO_CREATED_BY, LDP_CONTAINS]

  /** The triples of `imr` that a replace keeps whatever the payload. */
  function ProtectedPart(imr: Graph, urn: Term): Graph
  {
    set t | t in imr && t.s == urn && t.p in PROTECTED_PREDICATES
  }

  /** `self.imr.remove(p)` for each protected predicate. */
  function StripProtected(imr: Graph, urn: Term): Graph
  {
    imr - ProtectedPart(imr, urn)
  }

  /** The `(remove, add)` delta `_replace_rsrc` sends to the store. */
  function ReplaceDelta(imr: Graph, provided: Graph, urn: Term): (Graph, Graph)
  {
    DedupDeltas(StripProtected(imr, urn), provided)
  }

  /**
   * A replace never removes a protected triple of the resource, and applying
   * its delta to the stored state leaves exactly the payload plus the
   * protected triples.
   */
  lemma ReplaceKeepsProtected(imr: Graph, provided: Graph, urn: Term)
    ensures forall t :: t in ReplaceDelta(imr, provided, urn).0 ==> !(t.s == urn && t.p in PROTECTED_PREDICATES)
    ensures var d := ReplaceDelta(imr, provided, urn);
      (imr - d.0) + d.1 == provided + ProtectedPart(imr, urn)
  {
    var d := ReplaceDelta(imr, provided, urn);
    var lhs, rhs := (imr - d.0) + d.1, provided + ProtectedPart(imr, urn);
    forall t ensures t in lhs <==> t in rhs {
    }
  }

  // ---------------------------------------------------------------------
  // Server-managed triples

  /** `base_types` */
  const BASE_TYPES: set<Term> := {FCREPO_RESOURCE, LDP_RESOURCE, LDP_RDF_SOURCE}

  /** `DEFAULT_USER`: the agent recorded when the request names none. */
  const DEFAULT_USER := Lit("BypassAdmin")

  function BaseTypeTriples(urn: Term): Graph
  {
    set bt | bt in BASE_TYPES :: Triple(urn, RDF_TYPE, bt)
  }

  /** `URIRef('urn:sha1:' + cksum)`; the checksum function is a parameter. */
  function Digest(gr: Graph, cksum: Graph -> string): Term
  {
    Iri("urn:sha1:" + cksum(gr))
  }

  /** The predicates `_add_srv_mgd_triples` sets to a single value. */
  const STAMP_PREDICATES: set<Term> :=
    {PREMIS_HAS_MESSAGE_DIGEST, FCREPO_CREATED, FCREPO_CREATED_BY, FCREPO_LAST_MODIFIED, FCREPO_LAST_MODIFIED_BY}

  /**
   * `_add_srv_mgd_triples(create)` applied to the payload `gr` of resource
   * `urn` at time `ts`: the base types are added, the digest of the result
   * is set, `created`/`createdBy` are set when creating, and
   * `lastModified`/`lastModifiedBy` are always set.
   */
  function WithServerManaged(gr: Graph, urn: Term, create: bool, ts: Term, cksum: Graph -> string): (r: Graph)
    ensures Values(r, urn, FCREPO_LAST_MODIFIED_BY) == {DEFAULT_USER}
    ensures forall t :: t in gr && t.s != urn ==> t in r
  {
    var g1 := gr + BaseTypeTriples(urn);
    var g2 := SetValue(g1, urn, PREMIS_HAS_MESSAGE_DIGEST, Digest(g1, cksum));
    var g3 := if create then SetValue(SetValue(g2, urn, FCREPO_CREATED, ts), urn, FCREPO_CREATED_BY, DEFAULT_USER)
              else g2;
    SetValue(SetValue(g3, urn, FCREPO_LAST_MODIFIED, ts), urn, FCREPO_LAST_MODIFIED_BY, DEFAULT_USER)
  }

  lemma StampPredicatesDistinct()
    ensures PREMIS_HAS_MESSAGE_DIGEST != FCREPO_CREATED && PREMIS_HAS_MESSAGE_DIGEST != FCREPO_CREATED_BY
    ensures PREMIS_HAS_MESSAGE_DIGEST != FCREPO_LAST_MODIFIED && PREMIS_HAS_MESSAGE_DIGEST != FCREPO_LAST_MODIFIED_BY
    ensures FCREPO_CREATED != FCREPO_CREATED_BY && FCREPO_CREATED != FCREPO_LAST_MODIFIED
    ensures FCREPO_CREATED != FCREPO_LAST_MODIFIED_BY && FCREPO_CREATED_BY != FCREPO_LAST_MODIFIED
    ensures FCREPO_CREATED_BY != FCREPO_LAST_MODIFIED_BY && FCREPO_LAST_MODIFIED != FCREPO_LAST_MODIFIED_BY
    ensures RDF_TYPE !in STAMP_PREDICATES
  {
    assert |PREMIS_HAS_MESSAGE_DIGEST.iri| == 49 && |FCREPO_CREATED.iri| == 52;
    assert |FCREPO_CREATED_BY.iri| == 54 && |FCREPO_LAST_MODIFIED.iri| == 57;
    assert |FCREPO_LAST_MODIFIED_BY.iri| == 59 && |RDF_TYPE.iri| == 47;
  }

  /**
   * The stamps: `lastModified`/`lastModifiedBy` always hold exactly the
   * timestamp and the default user; `created`/`createdBy` do so when
   * creating and are left as the payload had them otherwise; the digest is
   * that of the payload with its base types; the base types are present;
   * every other triple is the payload's.
   */
  lemma ServerManagedStamps(gr: Graph, urn: Term, create: bool, ts: Term, cksum: Graph -> string)
    ensures var r := WithServerManaged(gr, urn, create, ts, cksum);
      Values(r, urn, FCREPO_LAST_MODIFIED) == {ts} &&
      Values(r, urn, FCREPO_LAST_MODIFIED_BY) == {DEFAULT_USER} &&
      Values(r, urn, PREMIS_HAS_MESSAGE_DIGEST) == {Digest(gr + BaseTypeTriples(urn), cksum)}
    ensures var r := WithServerManaged(gr, urn, create, ts, cksum);
      create ==> Values(r, urn, FCREPO_CREATED) == {ts} && Values(r, urn, FCREPO_CREATED_BY) == {DEFAULT_USER}
    ensures var r := WithServerManaged(gr, urn, create, ts, cksum);
      !create ==> Values(r, urn, FCREPO_CREATED) == Values(gr, urn, FCREPO_CREATED) &&
                  Values(r, urn, FCREPO_CREATED_BY) == Values(gr, urn, FCREPO_CREATED_BY)
    ensures var r := WithServerManaged(gr, urn, create, ts, cksum);
      BaseTypeTriples(urn) <= r &&
      forall t: Triple :: t.s != urn || t.p !in STAMP_PREDICATES ==>
        (t in r <==> t in gr || t in BaseTypeTriples(urn))
  {
    StampPredicatesDistinct();
    var g1 := gr + BaseTypeTriples(urn);
    var g2 := SetValue(g1, urn, PREMIS_HAS_MESSAGE_DIGEST, Digest(g1, cksum));
    var g3 := if create then SetValue(SetValue(g2, urn, FCREPO_CREATED, ts), urn, FCREPO_CREATED_BY, DEFAULT_USER)
              else g2;
    var g4 := SetValue(g3, urn, FCREPO_LAST_MODIFIED, ts);
    var r := SetValue(g4, urn, FCREPO_LAST_MODIFIED_BY, DEFAULT_USER);
    assert Values(r, urn, FCREPO_LAST_MODIFIED) == Values(g4, urn, FCREPO_LAST_MODIFIED);
    assert Values(g3, urn, PREMIS_HAS_MESSAGE_DIGEST) == Values(g2, urn, PREMIS_HAS_MESSAGE_DIGEST);
    assert Values(r, urn, PREMIS_HAS_MESSAGE_DIGEST) == Values(g3, urn, PREMIS_HAS_MESSAGE_DIGEST);
    if create {
      var c := SetValue(g2, urn, FCREPO_CREATED, ts);
      assert Values(g3, urn, FCREPO_CREATED) == Values(c, urn, FCREPO_CREATED);
      assert Values(r, urn, FCREPO_CREATED) == Values(g3, urn, FCREPO_CREATED);
      assert Values(r, urn, FCREPO_CREATED_BY) == Values(g3, urn, FCREPO_CREATED_BY);
    } else {
      assert Values(r, urn, FCREPO_CREATED) == Values(g1, urn, FCREPO_CREATED);
      assert Values(r, urn, FCREPO_CREATED_BY) == Values(g1, urn, FCREPO_CREATED_BY);
      assert Values(g1, urn, FCREPO_CREATED) == Values(gr, urn, FCREPO_CREATED);
      assert Values(g1, urn, FCREPO_CREATED_BY) == Values(gr, urn, FCREPO_CREATED_BY);
    }
  }

  // ---------------------------------------------------------------------
  // Single subject

  /** A subject cut at its first '#' (`URIRef(s.split('#')[0])`); other subjects as they are. */
  function Base(s: Term): (r: Term)
    ensures '#' !in Str(s) ==> r == s
    ensures '#' in Str(s) ==> r.Iri? && r.iri + ['#'] <= Str(s) && '#' !in r.iri
  {
    if '#' in Str(s) then
      var b := RdfStrings.Before(Str(s), '#');
      assert Str(s)[..|b| + 1] == b + ['#'];
      Iri(b)
    else s
  }

  /** Every subject of the payload, cut at '#', is the resource itself. */
  predicate SingleSubjectOk(gr: Graph, urn: Term)
  {
    forall s :: s in Subjects(gr) ==> Base(s) == urn
  }

  /** `(frag, fcsystem:fragmentOf, base)` for every fragment subject. */
  function FragmentTriples(gr: Graph): Graph
  {
    set s | s in Subjects(gr) && '#' in Str(s) :: Triple(s, FCSYSTEM_FRAGMENT_OF, Base(s))
  }

  /**
   * Adding the fragment triples introduces no new subject, so a payload that
   * passes the check still passes it afterwards, and a second pass adds
   * nothing. Each fragment triple of a passing payload points to the
   * resource.
   */
  lemma FragmentsStable(gr: Graph, urn: Term)
    ensures Subjects(gr + FragmentTriples(gr)) == Subjects(gr)
    ensures SingleSubjectOk(gr, urn) <==> SingleSubjectOk(gr + FragmentTriples(gr), urn)
    ensures FragmentTriples(gr + FragmentTriples(gr)) == FragmentTriples(gr)
    ensures SingleSubjectOk(gr, urn) ==> forall t :: t in FragmentTriples(gr) ==> t.o == urn
  {
    var g2 := gr + FragmentTriples(gr);
    assert forall t :: t in FragmentTriples(gr) ==> t.s in Subjects(gr);
    assert Subjects(g2) == Subjects(gr);
  }

  // ---------------------------------------------------------------------
  // Referential integrity

  /** The toolbox's `uuid_to_uri`: the webroot, then '/' and the uid when there is one. */
  function UuidToUri(webroot: string, uid: string): (r: string)
    ensures webroot <= r
  {
    if uid == "" then webroot else webroot + "/" + uid
  }

  /** The toolbox's `uri_to_uuid` for a URI under the webroot: the rest after one '/'. */
  function UriToUuid(webroot: string, uri: string): string
    requires webroot <= uri
  {
    var rest := uri[|webroot|..];
    if |rest| > 0 && rest[0] == '/' then rest[1..] else rest
  }

  /** `uri_to_uuid` inverts `uuid_to_uri`. */
  lemma UriUuidRoundTrip(webroot: string, uid: string)
    ensures UriToUuid(webroot, UuidToUri(webroot, uid)) == uid
  {
    if uid != "" {
      assert UuidToUri(webroot, uid)[|webroot|..] == "/" + uid;
    }
  }

  /** An IRI object under the webroot whose resource does not exist. */
  predicate Dangling(o: Term, webroot: string, ds: StoreLayout.Dataset)
  {
    o.Iri? && webroot <= o.iri && !StoreLayout.RsrcExists(ds, UriToUuid(webroot, o.iri))
  }

  /** The payload without every triple whose object is dangling. */
  function RefIntFiltered(gr: Graph, webroot: string, ds: StoreLayout.Dataset): Graph
  {
    set t | t in gr && !Dangling(t.o, webroot, ds)
  }

  /**
   * The lenient filter leaves no dangling object and keeps every other
   * triple; it changes nothing exactly when the strict check would pass.
   */
  lemma RefIntFilterSound(gr: Graph, webroot: string, ds: StoreLayout.Dataset)
    ensures forall o :: o in Objects(RefIntFiltered(gr, webroot, ds)) ==> !Dangling(o, webroot, ds)
    ensures forall t :: t in gr && !Dangling(t.o, webroot, ds) ==> t in RefIntFiltered(gr, webroot, ds)
    ensures RefIntFiltered(gr, webroot, ds) == gr <==>
            forall o :: o in Objects(gr) ==> !Dangling(o, webroot, ds)
  {
    if RefIntFiltered(gr, webroot, ds) == gr {
      forall o | o in Objects(gr) ensures !Dangling(o, webroot, ds) {
        var t :| t in gr && t.o == o;
        assert t in RefIntFiltered(gr, webroot, ds);
      }
    }
  }

  // ---------------------------------------------------------------------
  // Server-managed terms

  /** The server-managed subjects, predicates and `rdf:type` objects. */
  datatype ManagedTerms = ManagedTerms(subjects: set<Term>, predicates: set<Term>, types: set<Term>)

  /** `set(gr.objects(predicate=RDF.type))` */
  function TypesOf(gr: Graph): set<Term>
  {
    set t | t in gr && t.p == RDF_TYPE :: t.o
  }

  /** A triple that uses a server-managed subject, predicate or type. */
  predicate Offending(t: Triple, terms: ManagedTerms)
  {
    t.s in terms.subjects || t.p in terms.predicates || (t.p == RDF_TYPE && t.o in terms.types)
  }

  /** The payload with every offending triple removed. */
  function Sanitised(gr: Graph, terms: ManagedTerms): Graph
  {
    set t | t in gr && !Offending(t, terms)
  }

  /**
   * Sanitising leaves no server-managed term, keeps every other triple, and
   * changes nothing exactly when the strict check finds no offending
   * subject, predicate or type.
   */
  lemma SanitisedClean(gr: Graph, terms: ManagedTerms)
    ensures Subjects(Sanitised(gr, terms)) !! terms.subjects
    ensures Predicates(Sanitised(gr, terms)) !! terms.predicates
    ensures TypesOf(Sanitised(gr, terms)) !! terms.types
    ensures Sanitised(gr, terms) == gr <==>
            Subjects(gr) * terms.subjects == {} && Predicates(gr) * terms.predicates == {} &&
            TypesOf(gr) * terms.types == {}
  {
    var sg := Sanitised(gr, terms);
    if sg != gr {
      var t :| t in gr && Offending(t, terms);
      if t.s in terms.subjects {
        assert t.s in Subjects(gr) * terms.subjects;
      } else if t.p in terms.predicates {
        assert t.p in Predicates(gr) * terms.predicates;
      } else {
        assert t.o in TypesOf(gr) * terms.types;
      }
    }
  }

  // ---------------------------------------------------------------------
  // out_graph

  /** Digest and version links never appear in the outgoing representation. */
  const OUT_EXCLUDED: set<Term> := {PREMIS_HAS_MESSAGE_DIGEST, FCREPO_HAS_VERSION}

  /** The `out_graph` condition as written: `not (p == rdf:type or o in types)`. */
  predicate OutKeepsAsWritten(t: Triple, inclSrvMgd: bool, terms: ManagedTerms)
  {
    t.p !in OUT_EXCLUDED &&
    (inclSrvMgd || (t.p !in terms.predicates && !(t.p == RDF_TYPE || t.o in terms.types)))
  }

  /** `out_graph` as written. */
  function OutGraphAsWritten(imr: Graph, inclSrvMgd: bool, terms: ManagedTerms): (r: Graph)
    ensures r <= imr
    ensures !inclSrvMgd ==> forall t :: t in r ==> t.p != RDF_TYPE
  {
    set t | t in imr && OutKeepsAsWritten(t, inclSrvMgd, terms)
  }

  /**
   * As written, leaving out server-managed triples drops every `rdf:type`
   * triple, whatever its type; the corrected filter keeps it when neither
   * `rdf:type` nor the type is server-managed.
   */
  lemma OutGraphDropsUserTypes(t: Triple, terms: ManagedTerms)
    requires t.p == RDF_TYPE
    ensures t !in OutGraphAsWritten({t}, false, terms)
    ensures RDF_TYPE !in terms.predicates && t.o !in terms.types ==> t in OutGraph({t}, false, terms)
  {
    assert RDF_TYPE !in OUT_EXCLUDED by {
      assert RDF_TYPE.iri[11] == 'w';
      assert PREMIS_HAS_MESSAGE_DIGEST.iri[11] == 'l' && FCREPO_HAS_VERSION.iri[11] == 'r';
    }
  }

  /** Which triples `revert_to_version` copies: not server-managed. */
  predicate UserTriple(t: Triple, terms: ManagedTerms)
  {
    t.p !in terms.predicates && !(t.p == RDF_TYPE && t.o in terms.types)
  }

  /** `out_graph` with the condition the version-revert filter uses. */
  function OutGraph(imr: Graph, inclSrvMgd: bool, terms: ManagedTerms): (r: Graph)
    ensures r <= imr
    ensures forall t :: t in r ==> t.p !in OUT_EXCLUDED
    ensures !inclSrvMgd ==> forall t :: t in r ==> UserTriple(t, terms)
  {
    set t | t in imr && t.p !in OUT_EXCLUDED && (inclSrvMgd || UserTriple(t, terms))
  }

  /**
   * Every IMR triple other than a digest or version link is kept when
   * server-managed triples are asked for, and every user triple among them
   * when they are not. Leaving them out only ever narrows the corrected
   * `out_graph`; with them included it agrees with the filter as written;
   * without them it keeps everything the filter as written keeps, and the
   * two differ exactly on the kept triples whose predicate is `rdf:type` or
   * whose object is a managed type.
   */
  lemma OutGraphKeepsUserTriples(imr: Graph, terms: ManagedTerms)
    ensures forall t :: t in imr && t.p !in OUT_EXCLUDED && UserTriple(t, terms) ==> t in OutGraph(imr, false, terms)
    ensures forall t :: t in imr && t.p !in OUT_EXCLUDED ==> t in OutGraph(imr, true, terms)
    ensures OutGraph(imr, false, terms) <= OutGraph(imr, true, terms)
    ensures OutGraph(imr, true, terms) == OutGraphAsWritten(imr, true, terms)
    ensures OutGraphAsWritten(imr, false, terms) <= OutGraph(imr, false, terms)
    ensures OutGraph(imr, false, terms) - OutGraphAsWritten(imr, false, terms) ==
            set t | t in OutGraph(imr, false, terms) && (t.p == RDF_TYPE || t.o in terms.types)
  {
  }
}
