/**
 * Version snapshots of a resource: how the version URN and label are
 * formed, which triples of the current state a snapshot copies, and the
 * metadata recorded for it.
 */
module Versions {
  import opened Rdf

  /** `RES_VER_CONT_LABEL`: the container segment under which versions live. */
  const RES_VER_CONT_LABEL := "fcr:versions"

  /** `vers_uuid`: `<uuid>/fcr:versions` */
  function VersionsUuid(uuid: string): string
  {
    uuid + "/" + RES_VER_CONT_LABEL
  }

  /** `ver_uuid`: `<uuid>/fcr:versions/<ver_uid>` */
  function VersionUuid(uuid: string, verUid: string): string
  {
    VersionsUuid(uuid) + "/" + verUid
  }

  /** `ver_urn`: the URN of the version snapshot, which lies under the resource's own URN. */
  function VersionUrn(uuid: string, verUid: string): (r: Term)
    ensures r.Iri? && Res(uuid).iri < r.iri
  {
    Res(VersionUuid(uuid, verUid))
  }

  /**
   * The version URN is `fcres:<uuid>/fcr:versions/<ver_uid>`; it names a
   * different version for every label and is never the resource's own URN.
   */
  lemma VersionUrnShape(uuid: string, verUid: string, otherUid: string)
    ensures VersionUrn(uuid, verUid).iri == FCRES + uuid + "/fcr:versions/" + verUid
    ensures VersionUrn(uuid, verUid) == VersionUrn(uuid, otherUid) ==> verUid == otherUid
    ensures VersionUrn(uuid, verUid) != Urn(uuid)
  {
    VersionUrnIri(uuid, verUid);
    VersionUrnIri(uuid, otherUid);
    var p := FCRES + uuid + "/fcr:versions/";
    if VersionUrn(uuid, verUid) == VersionUrn(uuid, otherUid) {
      SamePrefixSameSuffix(p, verUid, otherUid);
    }
    VersionUrnNotUrn(uuid, verUid);
  }

  lemma VersionUrnIri(uuid: string, verUid: string)
    ensures VersionUrn(uuid, verUid).iri == FCRES + uuid + "/fcr:versions/" + verUid
  {
    assert "/" + RES_VER_CONT_LABEL + "/" == "/fcr:versions/";
    calc {
      VersionUrn(uuid, verUid).iri;
      FCRES + (((uuid + "/") + RES_VER_CONT_LABEL) + "/" + verUid);
      { assert ((uuid + "/") + RES_VER_CONT_LABEL) + "/" == uuid + ("/" + RES_VER_CONT_LABEL + "/"); }
      FCRES + (uuid + "/fcr:versions/" + verUid);
    }
  }

  lemma SamePrefixSameSuffix(p: string, a: string, b: string)
    requires p + a == p + b
    ensures a == b
  {
    assert a == (p + a)[|p|..];
  }

  lemma VersionUrnNotUrn(uuid: string, verUid: string)
    ensures VersionUrn(uuid, verUid) != Urn(uuid)
  {
    var iri := VersionUrn(uuid, verUid).iri;
    assert iri == FCRES + VersionUuid(uuid, verUid);
    if uuid == "" {
      assert iri[0] == 'u' && ROOT_NODE_URN.iri[0] == 'i';
      DifferAt(iri, ROOT_NODE_URN.iri, 0);
    } else {
      assert |iri| > |Res(uuid).iri|;
    }
  }

  /** The types a snapshot does not copy. */
  const SNAPSHOT_EXCLUDED_TYPES: set<Term> := {FCREPO_BINARY, FCREPO_CONTAINER, FCREPO_RESOURCE}

  /** The predicates a snapshot does not copy. */
  const SNAPSHOT_EXCLUDED_PREDICATES: set<Term> := {FCREPO_HAS_PARENT, FCREPO_HAS_VERSIONS, PREMIS_HAS_MESSAGE_DIGEST}

  predicate ExcludedFromSnapshot(t: Triple)
  {
    (t.p == RDF_TYPE && t.o in SNAPSHOT_EXCLUDED_TYPES) || t.p in SNAPSHOT_EXCLUDED_PREDICATES
  }

  /** `(ver_urn, rdf:type, fcrepo:Version)` */
  function VersionMarker(verUrn: Term): Triple
  {
    Triple(verUrn, RDF_TYPE, FCREPO_VERSION)
  }

  /**
   * `ver_add_gr`: the marker plus every current triple the filter lets
   * through, its subject moved from the resource to the version by
   * `replaceDomain` (the toolbox's `replace_term_domain(s, urn, ver_urn)`,
   * which is not part of this model).
   */
  function Snapshot(imr: Graph, verUrn: Term, replaceDomain: Term -> Term): Graph
  {
    {VersionMarker(verUrn)} +
    set t | t in imr && !ExcludedFromSnapshot(t) :: Triple(replaceDomain(t.s), t.p, t.o)
  }

  /**
   * Nothing the snapshot holds is of an excluded kind, and everything but
   * the marker is a renamed copy of a current triple. Excluded triples have
   * no influence on the snapshot, and with the identity renaming an IMR
   * free of them is copied as it is, plus the marker.
   */
  lemma SnapshotContents(imr: Graph, verUrn: Term, replaceDomain: Term -> Term)
    ensures forall u :: u in Snapshot(imr, verUrn, replaceDomain) ==>
      !ExcludedFromSnapshot(u) &&
      (u == VersionMarker(verUrn) || exists t :: t in imr && !ExcludedFromSnapshot(t) && u == Triple(replaceDomain(t.s), t.p, t.o))
    ensures Snapshot(imr, verUrn, replaceDomain) ==
            Snapshot((set t | t in imr && !ExcludedFromSnapshot(t)), verUrn, replaceDomain)
    ensures (forall t :: t in imr ==> !ExcludedFromSnapshot(t)) ==>
            Snapshot(imr, verUrn, x => x) == imr + {VersionMarker(verUrn)}
  {
    assert |FCREPO_VERSION.iri| == 52 && |FCREPO_BINARY.iri| == 51;
    assert |FCREPO_CONTAINER.iri| == 54 && |FCREPO_RESOURCE.iri| == 53;
    assert !ExcludedFromSnapshot(VersionMarker(verUrn)) by {
      assert |RDF_TYPE.iri| == 47;
      assert |FCREPO_HAS_PARENT.iri| == 54 && |FCREPO_HAS_VERSIONS.iri| == 56;
      assert |PREMIS_HAS_MESSAGE_DIGEST.iri| == 49;
    }
    if forall t :: t in imr ==> !ExcludedFromSnapshot(t) {
      var id: Term -> Term := x => x;
      forall t | t in imr
        ensures t in Snapshot(imr, verUrn, id)
      {
        assert t == Triple(id(t.s), t.p, t.o);
      }
    }
  }

  /** A snapshot has at most one triple more than the IMR it copies: the marker. */
  lemma {:induction false} SnapshotSize(imr: Graph, verUrn: Term, replaceDomain: Term -> Term)
    ensures |Snapshot(imr, verUrn, replaceDomain)| <= |imr| + 1
    decreases |imr|
  {
    if imr != {} {
      var t :| t in imr;
      var rest := imr - {t};
      SnapshotSize(rest, verUrn, replaceDomain);
      var extra: Graph := if ExcludedFromSnapshot(t) then {} else {Triple(replaceDomain(t.s), t.p, t.o)};
      assert Snapshot(imr, verUrn, replaceDomain) == Snapshot(rest, verUrn, replaceDomain) + extra;
    }
  }

  /** The copy loop of `_create_rsrc_version`. */
  method CopyForSnapshot(imr: Graph, verUrn: Term, replaceDomain: Term -> Term) returns (gr: Graph)
    ensures gr == Snapshot(imr, verUrn, replaceDomain)
  {
    gr := {VersionMarker(verUrn)};
    var rest := imr;
    while rest != {}
      invariant rest <= imr
      invariant gr == Snapshot(imr - rest, verUrn, replaceDomain)
      decreases rest
    {
      var t :| t in rest;
      if !ExcludedFromSnapshot(t) {
        gr := gr + {Triple(replaceDomain(t.s), t.p, t.o)};
      }
      rest := rest - {t};
      assert imr - rest == (imr - (rest + {t})) + {t};
    }
    assert imr - rest == imr;
  }

  /** `meta_add_gr`: `hasVersion`, `created` and `hasVersionLabel` for the new version. */
  function VersionMetadata(urn: Term, verUrn: Term, ts: Term, verUid: string): Graph
  {
    {Triple(urn, FCREPO_HAS_VERSION, verUrn), Triple(verUrn, FCREPO_CREATED, ts),
     Triple(verUrn, FCREPO_HAS_VERSION_LABEL, Lit(verUid))}
  }

  /** `rsrc_add_gr`: the resource points to its versions container. */
  function VersionsPointer(urn: Term, uuid: string): Graph
  {
    {Triple(urn, FCREPO_HAS_VERSIONS, Res(VersionsUuid(uuid)))}
  }

  /** `version_uids`: the labels of the versions `info` lists for `urn`. */
  function VersionUids(info: Graph, urn: Term): set<string>
  {
    set t1, t2 | t1 in info && t2 in info && t1.s == urn && t1.p == FCREPO_HAS_VERSION &&
                 t2.s == t1.o && t2.p == FCREPO_HAS_VERSION_LABEL :: Str(t2.o)
  }

  /**
   * `create_version`'s label: the requested one unless it is empty or
   * already used, in which case the fresh uuid.
   */
  function ChooseVersionLabel(verUid: string, used: set<string>, newUid: string): (r: string)
    ensures verUid != "" && verUid !in used ==> r == verUid
    ensures verUid == "" || verUid in used ==> r == newUid
    ensures newUid != "" && newUid !in used ==> r != "" && r !in used
  {
    if verUid == "" || verUid in used then newUid else verUid
  }

  /**
   * Once a version's metadata is recorded its label is taken, so asking for
   * the same label again yields the fresh uuid instead.
   */
  lemma LabelTakenAfterVersion(info: Graph, urn: Term, verUrn: Term, ts: Term, verLabel: string, newUid: string)
    ensures verLabel in VersionUids(info + VersionMetadata(urn, verUrn, ts, verLabel), urn)
    ensures ChooseVersionLabel(verLabel, VersionUids(info + VersionMetadata(urn, verUrn, ts, verLabel), urn), newUid) == newUid
  {
    var g := info + VersionMetadata(urn, verUrn, ts, verLabel);
    var t1, t2 := Triple(urn, FCREPO_HAS_VERSION, verUrn), Triple(verUrn, FCREPO_HAS_VERSION_LABEL, Lit(verLabel));
    assert t1 in g && t2 in g;
    assert Str(t2.o) in VersionUids(g, urn);
  }
}
