/**
 * An LDP resource being written (`Ldpr`): the memoised IMR and stored flag,
 * the methods that rewrite the client payload in place, and the create,
 * replace and version pipelines built from them.
 *
 * The store writes these pipelines end in (`modify_dataset`, which the
 * layout modelled here does not define) are returned as deltas instead of
 * being applied.
 */
module LdprModel {
  import opened Rdf
  import opened Exceptions
  import StoreLayout
  import WriteRules
  import Containment
  import Versions

  /** `RES_CREATED` / `RES_UPDATED`: the event a write reports. */
  datatype EventType = Created | Updated

  /** What a create or replace writes: the event, the `(remove, add)` delta and the containment. */
  datatype WriteResult = WriteResult(event: EventType, delta: (Graph, Graph), containment: Option<Containment.ContainmentRel>)

  /** What `_create_rsrc_version` writes: the snapshot, the version metadata and the pointer added to the resource. */
  datatype VersionWrites = VersionWrites(verUrn: Term, snapshot: Graph, metadata: Graph, rsrcAdd: Graph)

  /** The fragment links of a set of subjects. */
  function FragmentLinks(subs: set<Term>): Graph
  {
    set s | s in subs && '#' in Str(s) :: Triple(s, FCSYSTEM_FRAGMENT_OF, WriteRules.Base(s))
  }

  /** `(urn, rdf:type, t)` for each of `types`. */
  function TypeTriples(urn: Term, types: set<Term>): Graph
  {
    set bt | bt in types :: Triple(urn, RDF_TYPE, bt)
  }

  /** The three phases of `_check_mgd_terms`. */
  datatype Position = SubjectPos | PredicatePos | TypePos

  /** A triple `_check_mgd_terms` removes in phase `kind` for the offending terms `off`. */
  predicate Hits(t: Triple, off: set<Term>, kind: Position)
  {
    match kind
    case SubjectPos => t.s in off
    case PredicatePos => t.p in off
    case TypePos => t.p == RDF_TYPE && t.o in off
  }

  /** One removal loop of `_check_mgd_terms`: `gr.remove(...)` for each offending term. */
  method DropTerms(gr: Graph, off: set<Term>, kind: Position) returns (r: Graph)
    ensures r == set t | t in gr && !Hits(t, off, kind)
  {
    r := gr;
    var rest := off;
    while rest != {}
      invariant rest <= off
      invariant r == set t | t in gr && !Hits(t, off - rest, kind)
      decreases rest
    {
      var x :| x in rest;
      r := set t | t in r && !Hits(t, {x}, kind);
      rest := rest - {x};
    }
  }

  /**
   * The payload a create or replace writes: the server-managed stamps, the
   * fragment links, and, under a lenient referential-integrity setting, the
   * dangling triples dropped.
   */
  function PreparedPayload(provided: Graph, urn: Term, create: bool, ts: Term, cksum: Graph -> string,
                           refInt: string, webroot: string, ds: StoreLayout.Dataset): (r: Graph)
    ensures refInt != "" && refInt != "strict" ==> forall t :: t in r ==> !WriteRules.Dangling(t.o, webroot, ds)
    ensures refInt == "" || refInt == "strict" ==> WriteRules.WithServerManaged(provided, urn, create, ts, cksum) <= r
  {
    var g1 := WriteRules.WithServerManaged(provided, urn, create, ts, cksum);
    var g2 := g1 + WriteRules.FragmentTriples(g1);
    if refInt != "" && refInt != "strict" then WriteRules.RefIntFiltered(g2, webroot, ds) else g2
  }

  /**
   * The stamps survive the rest of the preparation: whatever the settings,
   * the payload records the literal timestamp as `lastModified`, and as
   * `created` when creating.
   */
  lemma PreparedPayloadStamps(provided: Graph, urn: Term, create: bool, ts: Term, cksum: Graph -> string,
                              refInt: string, webroot: string, ds: StoreLayout.Dataset)
    requires ts.Lit?
    ensures Values(PreparedPayload(provided, urn, create, ts, cksum, refInt, webroot, ds), urn, FCREPO_LAST_MODIFIED) == {ts}
    ensures Values(PreparedPayload(provided, urn, create, ts, cksum, refInt, webroot, ds), urn, FCREPO_LAST_MODIFIED_BY) == {WriteRules.DEFAULT_USER}
    ensures create ==> Values(PreparedPayload(provided, urn, create, ts, cksum, refInt, webroot, ds), urn, FCREPO_CREATED) == {ts}
  {
    var g1 := WriteRules.WithServerManaged(provided, urn, create, ts, cksum);
    var g2 := g1 + WriteRules.FragmentTriples(g1);
    var p := PreparedPayload(provided, urn, create, ts, cksum, refInt, webroot, ds);
    WriteRules.ServerManagedStamps(provided, urn, create, ts, cksum);
    assert |FCSYSTEM_FRAGMENT_OF.iri| != |FCREPO_LAST_MODIFIED.iri|;
    assert |FCSYSTEM_FRAGMENT_OF.iri| != |FCREPO_LAST_MODIFIED_BY.iri|;
    assert |FCSYSTEM_FRAGMENT_OF.iri| != |FCREPO_CREATED.iri|;
    assert forall q :: q != FCSYSTEM_FRAGMENT_OF ==> Values(g2, urn, q) == Values(g1, urn, q);
    assert forall q :: Values(p, urn, q) <= Values(g2, urn, q);
    assert Triple(urn, FCREPO_LAST_MODIFIED, ts) in p;
    assert Triple(urn, FCREPO_LAST_MODIFIED_BY, WriteRules.DEFAULT_USER) in p;
    if create {
      assert Triple(urn, FCREPO_CREATED, ts) in p;
    }
  }

  class Ldpr {
    /** `uuid`: the empty string names the root node. */
    const uuid: string
    /** `urn` */
    const urn: Term
    /** `handling` of server-managed terms: "none", "strict" or lenient. */
    const handling: string
    /** `incl_children` of the IMR options. */
    const inclChildren: bool
    /** `provided_imr`: the client payload, rewritten in place by the checks. */
    var providedImr: Graph
    /** `_imr`, filled on first use of `imr`. */
    var imrCache: Option<Graph>
    /** `_is_stored`, filled on first use of `is_stored`. */
    var isStoredCache: Option<bool>

    constructor (uuid: string, providedImr: Graph, handling: string, inclChildren: bool)
      ensures this.uuid == uuid && urn == Urn(uuid) && this.handling == handling && this.inclChildren == inclChildren
      ensures this.providedImr == providedImr && imrCache == None && isStoredCache == None
    {
      this.uuid := uuid;
      urn := Urn(uuid);
      this.handling := handling;
      this.inclChildren := inclChildren;
      this.providedImr := providedImr;
      imrCache := None;
      isStoredCache := None;
    }

    /** What the `imr` property yields now: the cached graph or a strict extraction. */
    ghost function CurrentImr(ds: StoreLayout.Dataset): Result<Graph>
      reads this
    {
      if imrCache.Some? then Ok(imrCache.value) else StoreLayout.ExtractImrFrom(ds, uuid, true, inclChildren)
    }

    /** What the `is_stored` property yields now. */
    ghost predicate Stored(ds: StoreLayout.Dataset)
      reads this
    {
      if isStoredCache.Some? then isStoredCache.value
      else if imrCache.Some? then |imrCache.value| > 0
      else StoreLayout.RsrcExists(ds, uuid)
    }

    /** The `imr` property: extract strictly once, then reuse; a failed extraction is not cached. */
    method Imr(layout: StoreLayout.RsrcCentricLayout) returns (r: Result<Graph>)
      modifies this`imrCache
      ensures r == old(CurrentImr(layout.ds))
      ensures imrCache == if r.Ok? then Some(r.value) else None
    {
      if imrCache.None? {
        r := layout.ExtractImr(uuid, true, inclChildren);
        if r.Ok? {
          imrCache := Some(r.value);
        }
      } else {
        r := Ok(imrCache.value);
      }
    }

    /** The `is_stored` property: a non-empty cached IMR, else the store's existence test; then cached. */
    method IsStored(layout: StoreLayout.RsrcCentricLayout) returns (stored: bool)
      modifies this`isStoredCache
      ensures stored == old(Stored(layout.ds))
      ensures isStoredCache == Some(stored)
    {
      if isStoredCache.None? {
        if imrCache.Some? {
          isStoredCache := Some(|imrCache.value| > 0);
        } else {
          isStoredCache := Some(layout.AskRsrcExists(uuid));
        }
      }
      stored := isStoredCache.value;
    }

    /** The first loop of `_add_srv_mgd_triples`: `provided_imr.add(RDF.type, t)` for each base type. */
    method AddBaseTypes()
      modifies this`providedImr
      ensures providedImr == old(providedImr) + WriteRules.BaseTypeTriples(urn)
    {
      var rest := WriteRules.BASE_TYPES;
      while rest != {}
        invariant rest <= WriteRules.BASE_TYPES
        invariant providedImr == old(providedImr) + TypeTriples(urn, WriteRules.BASE_TYPES - rest)
        decreases rest
      {
        var bt :| bt in rest;
        providedImr := providedImr + {Triple(urn, RDF_TYPE, bt)};
        assert TypeTriples(urn, WriteRules.BASE_TYPES - (rest - {bt})) == TypeTriples(urn, WriteRules.BASE_TYPES - rest) + {Triple(urn, RDF_TYPE, bt)};
        rest := rest - {bt};
      }
      assert WriteRules.BASE_TYPES - rest == WriteRules.BASE_TYPES;
    }

    /** `_add_srv_mgd_triples(create)` at time `ts`, with the toolbox checksum `cksum`. */
    method AddSrvMgdTriples(create: bool, ts: Term, cksum: Graph -> string)
      modifies this`providedImr
      ensures providedImr == WriteRules.WithServerManaged(old(providedImr), urn, create, ts, cksum)
    {
      // Base LDP types.
      AddBaseTypes();
      // Message digest.
      var digest := WriteRules.Digest(providedImr, cksum);
      providedImr := SetValue(providedImr, urn, PREMIS_HAS_MESSAGE_DIGEST, digest);
      // Create and modify timestamp.
      if create {
        providedImr := SetValue(providedImr, urn, FCREPO_CREATED, ts);
        providedImr := SetValue(providedImr, urn, FCREPO_CREATED_BY, WriteRules.DEFAULT_USER);
      }
      providedImr := SetValue(providedImr, urn, FCREPO_LAST_MODIFIED, ts);
      providedImr := SetValue(providedImr, urn, FCREPO_LAST_MODIFIED_BY, WriteRules.DEFAULT_USER);
    }

    /**
     * `_ensure_single_subject_rdf(provided_imr, add_fragment)`: passes
     * exactly when every subject, cut at '#', is the resource, and then has
     * added the fragment links; otherwise fails naming an offending base.
     */
    method EnsureSingleSubjectRdf(addFragment: bool) returns (r: Outcome)
      modifies this`providedImr
      ensures r.Pass? <==> WriteRules.SingleSubjectOk(old(providedImr), urn)
      ensures r.Pass? ==> providedImr == old(providedImr) + (if addFragment then WriteRules.FragmentTriples(old(providedImr)) else {})
      ensures r.Fail? ==> exists s :: s in Subjects(old(providedImr)) && WriteRules.Base(s) != urn &&
                                      r.error == SingleSubject(WriteRules.Base(s), uuid)
      ensures old(providedImr) <= providedImr <= old(providedImr) + WriteRules.FragmentTriples(old(providedImr))
    {
      var subs := Subjects(providedImr);
      var rest := subs;
      while rest != {}
        invariant rest <= subs
        invariant forall s :: s in subs - rest ==> WriteRules.Base(s) == urn
        invariant providedImr == old(providedImr) + (if addFragment then FragmentLinks(subs - rest) else {})
        decreases rest
      {
        var s :| s in rest;
        var base := WriteRules.Base(s);
        if '#' in Str(s) && addFragment {
          providedImr := providedImr + {Triple(s, FCSYSTEM_FRAGMENT_OF, base)};
        }
        assert FragmentLinks(subs - (rest - {s})) == FragmentLinks(subs - rest) + FragmentLinks({s});
        if base != urn {
          assert FragmentLinks(subs - (rest - {s})) <= WriteRules.FragmentTriples(old(providedImr));
          return Fail(SingleSubject(base, uuid));
        }
        rest := rest - {s};
      }
      assert subs - rest == subs;
      assert FragmentLinks(subs) == WriteRules.FragmentTriples(old(providedImr));
      r := Pass;
    }

    /**
     * `_check_ref_int(config)` over a snapshot of the payload's objects:
     * under "strict" the payload is left alone and the check fails exactly
     * when some object is dangling; otherwise every triple with a dangling
     * object is dropped.
     */
    method CheckRefInt(config: string, webroot: string, layout: StoreLayout.RsrcCentricLayout) returns (r: Outcome)
      modifies this`providedImr
      ensures config == "strict" ==> providedImr == old(providedImr)
      ensures config == "strict" ==>
        (r.Pass? <==> forall o :: o in Objects(old(providedImr)) ==> !WriteRules.Dangling(o, webroot, layout.ds))
      ensures r.Fail? ==> r.error.RefIntViolation? && r.error.obj in Objects(old(providedImr)) &&
                          WriteRules.Dangling(r.error.obj, webroot, layout.ds)
      ensures config != "strict" ==> r.Pass? && providedImr == WriteRules.RefIntFiltered(old(providedImr), webroot, layout.ds)
    {
      var objs := Objects(providedImr);
      var rest := objs;
      while rest != {}
        invariant rest <= objs
        invariant config == "strict" ==> providedImr == old(providedImr)
        invariant config == "strict" ==> forall o :: o in objs - rest ==> !WriteRules.Dangling(o, webroot, layout.ds)
        invariant config != "strict" ==>
          providedImr == set t | t in old(providedImr) && !(t.o in objs - rest && WriteRules.Dangling(t.o, webroot, layout.ds))
        decreases rest
      {
        var o :| o in rest;
        if o.Iri? && webroot <= o.iri && !layout.AskRsrcExists(WriteRules.UriToUuid(webroot, o.iri)) {
          if config == "strict" {
            return Fail(RefIntViolation(o));
          }
          providedImr := set t | t in providedImr && t.o != o;
        }
        rest := rest - {o};
      }
      r := Pass;
    }

    /**
     * `_check_mgd_terms(gr)`: unchanged under "none"; under "strict" the
     * first offending kind (subjects, then predicates, then types) fails;
     * otherwise every offending triple is removed.
     */
    method CheckMgdTerms(gr: Graph, terms: WriteRules.ManagedTerms) returns (r: Result<Graph>)
      ensures handling == "none" ==> r == Ok(gr)
      ensures handling == "strict" ==>
        (r.Ok? <==> Subjects(gr) * terms.subjects == {} && Predicates(gr) * terms.predicates == {} &&
                    WriteRules.TypesOf(gr) * terms.types == {})
      ensures handling == "strict" && r.Ok? ==> r.value == gr
      ensures handling == "strict" && Subjects(gr) * terms.subjects != {} ==>
        r == Err(ServerManagedTerm(Subjects(gr) * terms.subjects, "s"))
      ensures handling == "strict" && Subjects(gr) * terms.subjects == {} && Predicates(gr) * terms.predicates != {} ==>
        r == Err(ServerManagedTerm(Predicates(gr) * terms.predicates, "p"))
      ensures handling == "strict" && Subjects(gr) * terms.subjects == {} && Predicates(gr) * terms.predicates == {} &&
              WriteRules.TypesOf(gr) * terms.types != {} ==>
        r == Err(ServerManagedTerm(WriteRules.TypesOf(gr) * terms.types, "t"))
      ensures handling != "none" && handling != "strict" ==> r == Ok(WriteRules.Sanitised(gr, terms))
    {
      if handling == "none" {
        return Ok(gr);
      }
      var g := gr;
      var offS := Subjects(g) * terms.subjects;
      if offS != {} {
        if handling == "strict" {
          return Err(ServerManagedTerm(offS, "s"));
        }
        g := DropTerms(g, offS, SubjectPos);
      }
      ghost var g1 := g;
      assert g1 == set t | t in gr && t.s !in terms.subjects by {
        forall t | t in gr ensures t in g1 <==> t.s !in terms.subjects {
          assert t.s in Subjects(gr);
          assert t.s in offS <==> t.s in terms.subjects;
        }
      }
      var offP := Predicates(g) * terms.predicates;
      if offP != {} {
        if handling == "strict" {
          return Err(ServerManagedTerm(offP, "p"));
        }
        g := DropTerms(g, offP, PredicatePos);
      }
      ghost var g2 := g;
      assert g2 == set t | t in g1 && t.p !in terms.predicates by {
        forall t | t in g1 ensures t in g2 <==> t.p !in terms.predicates {
          assert t.p in Predicates(g1);
          assert t.p in offP <==> t.p in terms.predicates;
        }
      }
      var offT := WriteRules.TypesOf(g) * terms.types;
      if offT != {} {
        if handling == "strict" {
          return Err(ServerManagedTerm(offT, "t"));
        }
        g := DropTerms(g, offT, TypePos);
      }
      assert g == set t | t in g2 && !(t.p == RDF_TYPE && t.o in terms.types) by {
        forall t | t in g2 && t.p == RDF_TYPE ensures t in g <==> t.o !in terms.types {
          assert t.o in WriteRules.TypesOf(g2);
          assert t.o in offT <==> t.o in terms.types;
        }
      }
      assert g == WriteRules.Sanitised(gr, terms);
      r := Ok(g);
    }

    /** `_create_rsrc`: everything provided is added; the IMR becomes the payload. */
    method CreateRsrc() returns (delta: (Graph, Graph))
      modifies this`imrCache
      ensures delta == ({}, providedImr) && imrCache == Some(providedImr)
    {
      delta := ({}, providedImr);
      imrCache := Some(providedImr);
    }

    /**
     * `_replace_rsrc`: the protected triples are stripped from the current
     * IMR, the rest is replaced by the payload through the deduplicated
     * delta, and the IMR becomes the delta's add set.
     */
    method ReplaceRsrc(layout: StoreLayout.RsrcCentricLayout) returns (r: Result<(Graph, Graph)>)
      modifies this`imrCache
      ensures old(CurrentImr(layout.ds)).Err? ==> r == Err(old(CurrentImr(layout.ds)).error)
      ensures old(CurrentImr(layout.ds)).Ok? ==>
        r == Ok(WriteRules.ReplaceDelta(old(CurrentImr(layout.ds)).value, providedImr, urn)) &&
        imrCache == Some(r.value.1)
    {
      var cur := Imr(layout);
      if cur.Err? {
        return Err(cur.error);
      }
      var gr := cur.value;
      var i := 0;
      while i < |WriteRules.PROTECTED_PREDICATES|
        invariant 0 <= i <= |WriteRules.PROTECTED_PREDICATES|
        invariant gr == set t | t in cur.value && !(t.s == urn && t.p in WriteRules.PROTECTED_PREDICATES[..i])
      {
        var p := WriteRules.PROTECTED_PREDICATES[i];
        gr := set t | t in gr && !(t.s == urn && t.p == p);
        assert WriteRules.PROTECTED_PREDICATES[..i + 1] == WriteRules.PROTECTED_PREDICATES[..i] + [p];
        i := i + 1;
      }
      assert WriteRules.PROTECTED_PREDICATES[..i] == WriteRules.PROTECTED_PREDICATES;
      assert gr == WriteRules.StripProtected(cur.value, urn);
      imrCache := Some(gr);
      var delta := WriteRules.DedupDeltas(gr, providedImr);
      imrCache := Some(delta.1);
      r := Ok(delta);
    }

    /**
     * `_create_or_replace_rsrc(create_only)`: stamps, single-subject check,
     * referential integrity when configured, then a create or a replace,
     * then the containment of the resource.
     */
    method CreateOrReplaceRsrc(createOnly: bool, layout: StoreLayout.RsrcCentricLayout, refInt: string,
                               webroot: string, ts: Term, cksum: Graph -> string)
      returns (r: Result<WriteResult>)
      modifies this
      ensures var create := createOnly || !old(Stored(layout.ds));
        var g1 := WriteRules.WithServerManaged(old(providedImr), urn, create, ts, cksum);
        (!WriteRules.SingleSubjectOk(g1, urn) ==> r.Err? && r.error.SingleSubject?) &&
        (r.Ok? ==> WriteRules.SingleSubjectOk(g1, urn) &&
                   providedImr == PreparedPayload(old(providedImr), urn, create, ts, cksum, refInt, webroot, layout.ds) &&
                   r.value.event == (if create then Created else Updated) &&
                   r.value.containment == Containment.ContainmentFor(uuid, layout.ds))
      ensures var create := createOnly || !old(Stored(layout.ds));
        r.Ok? && create ==> r.value.delta == ({}, providedImr) && imrCache == Some(providedImr)
      ensures var create := createOnly || !old(Stored(layout.ds));
        r.Ok? && !create ==> (old(CurrentImr(layout.ds)).Ok? &&
          r.value.delta == WriteRules.ReplaceDelta(old(CurrentImr(layout.ds)).value, providedImr, urn) &&
          imrCache == Some(r.value.delta.1))
      ensures refInt == "strict" && r.Ok? ==>
        forall o :: o in Objects(providedImr) ==> !WriteRules.Dangling(o, webroot, layout.ds)
      ensures var create := createOnly || !old(Stored(layout.ds));
        var g1 := WriteRules.WithServerManaged(old(providedImr), urn, create, ts, cksum);
        var g2 := g1 + WriteRules.FragmentTriples(g1);
        var refIntOk := refInt != "strict" || forall o :: o in Objects(g2) ==> !WriteRules.Dangling(o, webroot, layout.ds);
        (WriteRules.SingleSubjectOk(g1, urn) && refIntOk && (create || old(CurrentImr(layout.ds)).Ok?) ==> r.Ok?) &&
        (WriteRules.SingleSubjectOk(g1, urn) && !refIntOk ==> r.Err? && r.error.RefIntViolation?) &&
        (WriteRules.SingleSubjectOk(g1, urn) && refIntOk && !create && old(CurrentImr(layout.ds)).Err? ==>
           r == Err(old(CurrentImr(layout.ds)).error))
    {
      var stored := IsStored(layout);
      var create := createOnly || !stored;
      ghost var imr0 := CurrentImr(layout.ds);
      AddSrvMgdTriples(create, ts, cksum);
      ghost var g1 := providedImr;
      var ss := EnsureSingleSubjectRdf(true);
      if ss.Fail? {
        return Err(ss.error);
      }
      if refInt != "" {
        var ri := CheckRefInt(refInt, webroot, layout);
        if ri.Fail? {
          return Err(ri.error);
        }
      }
      var delta: (Graph, Graph);
      var event: EventType;
      if create {
        delta := CreateRsrc();
        event := Created;
      } else {
        var rep := ReplaceRsrc(layout);
        if rep.Err? {
          return Err(rep.error);
        }
        delta := rep.value;
        event := Updated;
      }
      var cont := Containment.SetContainmentRel(uuid, layout);
      r := Ok(WriteResult(event, delta, cont));
    }

    /**
     * `_create_rsrc_version(ver_uid)`: the snapshot of the current IMR
     * under the version URN, its metadata, and the `hasVersions` pointer.
     * `replaceDomain` is the toolbox's `replace_term_domain(_, urn, ver_urn)`.
     */
    method CreateRsrcVersion(verUid: string, layout: StoreLayout.RsrcCentricLayout, ts: Term, replaceDomain: Term -> Term)
      returns (r: Result<VersionWrites>)
      modifies this`imrCache
      ensures old(CurrentImr(layout.ds)).Err? ==> r == Err(old(CurrentImr(layout.ds)).error)
      ensures old(CurrentImr(layout.ds)).Ok? ==>
        var verUrn := Versions.VersionUrn(uuid, verUid);
        r == Ok(VersionWrites(verUrn, Versions.Snapshot(old(CurrentImr(layout.ds)).value, verUrn, replaceDomain),
                              Versions.VersionMetadata(urn, verUrn, ts, verUid), Versions.VersionsPointer(urn, uuid)))
    {
      var imr := Imr(layout);
      if imr.Err? {
        return Err(imr.error);
      }
      var verUrn := Versions.VersionUrn(uuid, verUid);
      var snapshot := Versions.CopyForSnapshot(imr.value, verUrn, replaceDomain);
      r := Ok(VersionWrites(verUrn, snapshot, Versions.VersionMetadata(urn, verUrn, ts, verUid),
                            Versions.VersionsPointer(urn, uuid)));
    }

    /**
     * `create_version(ver_uid)`: an empty or already used label is replaced
     * by `newUid` (the `uuid4()` of the source); `info` is the resource's
     * version information.
     */
    method CreateVersion(verUid: string, info: Graph, newUid: string, layout: StoreLayout.RsrcCentricLayout,
                         ts: Term, replaceDomain: Term -> Term)
      returns (r: Result<VersionWrites>)
      modifies this`imrCache
      ensures var verLabel := Versions.ChooseVersionLabel(verUid, Versions.VersionUids(info, urn), newUid);
        old(CurrentImr(layout.ds)).Ok? ==>
          var verUrn := Versions.VersionUrn(uuid, verLabel);
          r == Ok(VersionWrites(verUrn, Versions.Snapshot(old(CurrentImr(layout.ds)).value, verUrn, replaceDomain),
                                Versions.VersionMetadata(urn, verUrn, ts, verLabel), Versions.VersionsPointer(urn, uuid)))
      ensures var verLabel := Versions.ChooseVersionLabel(verUid, Versions.VersionUids(info, urn), newUid);
        r.Ok? ==> verLabel in Versions.VersionUids(Versions.VersionMetadata(urn, r.value.verUrn, ts, verLabel), urn)
      ensures old(CurrentImr(layout.ds)).Err? ==> r == Err(old(CurrentImr(layout.ds)).error)
    {
      var verLabel := Versions.ChooseVersionLabel(verUid, Versions.VersionUids(info, urn), newUid);
      r := CreateRsrcVersion(verLabel, layout, ts, replaceDomain);
      if r.Ok? {
        Versions.LabelTakenAfterVersion({}, urn, r.value.verUrn, ts, verLabel, newUid);
        assert {} + Versions.VersionMetadata(urn, r.value.verUrn, ts, verLabel) == r.value.metadata;
      }
    }
  }
}
