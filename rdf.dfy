/**
 * RDF terms, triples and graphs as plain values, the namespaces the
 * repository uses and the handful of rdflib graph accessors the write path
 * relies on (subjects, objects, the values of a predicate, `Resource.set`).
 *
 * The namespace table of the repository is not part of this model; the
 * prefixes below only need to be pairwise different and none of the graph
 * namespaces may be a prefix of another, which the layout lemmas use.
 */
module Rdf {

  /** An RDF term: an IRI (rdflib `URIRef`), a literal or a blank node. */
  datatype Term = Iri(iri: string) | Lit(lex: string) | BNode(id: string)

  datatype Triple = Triple(s: Term, p: Term, o: Term)

  /** A graph is a set of triples; rdflib graphs never hold duplicates. */
  type Graph = set<Triple>

  /** `str(term)`: the IRI, the lexical form or the node id. */
  function Str(t: Term): string
  {
    match t
    case Iri(v) => v
    case Lit(v) => v
    case BNode(v) => v
  }

  // ---------------------------------------------------------------------
  // Namespaces

  const FCRES := "urn:fcres:"
  const FCSYSTEM := "info:fcsystem/"
  const FCADMIN := "info:fcsystem/graph/admin/"
  const FCMAIN := "info:fcsystem/graph/userdata/_main/"
  const FCSTRUCT := "info:fcsystem/graph/structure/"
  const FCREPO := "http://fedora.info/definitions/v4/repository#"
  const LDP := "http://www.w3.org/ns/ldp#"
  const RDF := "http://www.w3.org/1999/02/22-rdf-syntax-ns#"
  const IANA := "http://www.iana.org/assignments/relation/"
  const PREMIS := "http://www.loc.gov/premis/rdf/v1#"
  const PCDM := "http://pcdm.org/models#"
  const FOAF := "http://xmlns.com/foaf/0.1/"

  /** `nsc['fcres'][uid]`: the internal URN of a resource. */
  function Res(uid: string): Term
  {
    Iri(FCRES + uid)
  }

  /** `Ldpr.ROOT_NODE_URN`, the system root node. */
  const ROOT_NODE_URN := Iri(FCSYSTEM + "root")

  /** `self.urn`: a falsy (empty) uuid names the root node. */
  function Urn(uuid: string): Term
  {
    if uuid == "" then ROOT_NODE_URN else Res(uuid)
  }

  // ---------------------------------------------------------------------
  // Vocabulary

  const RDF_TYPE := Iri(RDF + "type")

  const FCREPO_CREATED := Iri(FCREPO + "created")
  const FCREPO_CREATED_BY := Iri(FCREPO + "createdBy")
  const FCREPO_HAS_PARENT := Iri(FCREPO + "hasParent")
  const FCREPO_LAST_MODIFIED := Iri(FCREPO + "lastModified")
  const FCREPO_LAST_MODIFIED_BY := Iri(FCREPO + "lastModifiedBy")
  const FCREPO_HAS_VERSION := Iri(FCREPO + "hasVersion")
  const FCREPO_HAS_VERSIONS := Iri(FCREPO + "hasVersions")
  const FCREPO_HAS_VERSION_LABEL := Iri(FCREPO + "hasVersionLabel")
  const FCREPO_CONTAINS := Iri(FCREPO + "contains")

  const FCREPO_BINARY := Iri(FCREPO + "Binary")
  const FCREPO_CONTAINER := Iri(FCREPO + "Container")
  const FCREPO_PAIRTREE := Iri(FCREPO + "Pairtree")
  const FCREPO_RESOURCE := Iri(FCREPO + "Resource")
  const FCREPO_VERSION := Iri(FCREPO + "Version")

  const LDP_CONTAINS := Iri(LDP + "contains")
  const LDP_MEMBERSHIP_RESOURCE := Iri(LDP + "membershipResource")
  const LDP_HAS_MEMBER_RELATION := Iri(LDP + "hasMemberRelation")
  const LDP_INSERTED_CONTENT_RELATION := Iri(LDP + "insertedContentRelation")
  const LDP_BASIC_CONTAINER := Iri(LDP + "BasicContainer")
  const LDP_CONTAINER := Iri(LDP + "Container")
  const LDP_DIRECT_CONTAINER := Iri(LDP + "DirectContainer")
  const LDP_INDIRECT_CONTAINER := Iri(LDP + "IndirectContainer")
  const LDP_NON_RDF_SOURCE := Iri(LDP + "NonRDFSource")
  const LDP_RDF_SOURCE := Iri(LDP + "RDFSource")
  const LDP_RESOURCE := Iri(LDP + "Resource")

  const IANA_DESCRIBED_BY := Iri(IANA + "describedBy")
  const PREMIS_HAS_MESSAGE_DIGEST := Iri(PREMIS + "hasMessageDigest")
  const PREMIS_HAS_SIZE := Iri(PREMIS + "hasSize")
  const PCDM_HAS_MEMBER := Iri(PCDM + "hasMember")
  const FOAF_PRIMARY_TOPIC := Iri(FOAF + "primaryTopic")

  const FCSYSTEM_CONTAINS := Iri(FCSYSTEM + "contains")
  const FCSYSTEM_FRAGMENT_OF := Iri(FCSYSTEM + "fragmentOf")
  const FCSYSTEM_TOMBSTONE_TYPE := Iri(FCSYSTEM + "Tombstone")
  const FCSYSTEM_TOMBSTONE := Iri(FCSYSTEM + "tombstone")

  // ---------------------------------------------------------------------
  // Graph accessors

  /** `set(gr.subjects())` */
  function Subjects(g: Graph): set<Term>
  {
    set t | t in g :: t.s
  }

  /** `set(gr.predicates())` */
  function Predicates(g: Graph): set<Term>
  {
    set t | t in g :: t.p
  }

  /** `set(gr.objects())` */
  function Objects(g: Graph): set<Term>
  {
    set t | t in g :: t.o
  }

  /** The objects of every `(s, p, ?)` triple: `gr[s : p]`. */
  function Values(g: Graph, s: Term, p: Term): set<Term>
  {
    set t | t in g && t.s == s && t.p == p :: t.o
  }

  /**
   * rdflib `Resource.set(p, v)`: drop every `(s, p, ?)` triple, then add
   * `(s, p, v)`. Afterwards `v` is the one value of `p` on `s`, and no other
   * triple has changed.
   */
  function SetValue(g: Graph, s: Term, p: Term, v: Term): (r: Graph)
    ensures Values(r, s, p) == {v}
    ensures forall t: Triple :: t.s != s || t.p != p ==> (t in r <==> t in g)
  {
    var r := (set t | t in g && !(t.s == s && t.p == p)) + {Triple(s, p, v)};
    assert Triple(s, p, v) in r;
    r
  }

  /** Two strings that differ at some index are different strings. */
  lemma DifferAt(a: string, b: string, i: nat)
    requires i < |a| && i < |b| && a[i] != b[i]
    ensures a != b
  {
  }
}
