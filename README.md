# Lakesuperior write path: resource write rules and the resource-centric layout

This project models two cooperating pieces of Lakesuperior's RDF write path,
with triples and graphs as plain data and the quad store as a map from graph
name to set of triples:

- the resource-centric store layout (`RsrcCentricLayout`):
  - the admin, main and structure graph names of a UID, optionally
    suffixed with `:<ver_uid>`;
  - the static attribute map and the routing table built from it;
  - the routing of each triple to one graph;
  - `modify_rsrc`, with its `foaf:primaryTopic` bookkeeping in the meta graph;
  - the existence test and IMR extraction with its failures;
  - dropping, moving and re-creating a resource's graphs;
- the write rules of an LDP resource (`Ldpr`):
  - the replace delta and its protected predicates;
  - the server-managed stamps;
  - the single-subject and fragment check;
  - the referential-integrity check and filter;
  - sanitising of server-managed terms;
  - the outgoing-graph filter;
  - version snapshots, their URNs and labels;
  - the choice of the containing parent along a '/'-separated UID, and the
    pairtree path segments created down to the new resource.

Modules:

- `Rdf` (`rdf.dfy`): terms, triples, graphs and the vocabulary.
- `RdfStrings` (`rdf_strings.dfy`): cutting a string at its first occurrence of a character.
- `Exceptions` (`exceptions.dfy`): the repository errors as values, with `Option`, `Result` and `Outcome`.
- `StoreLayout` (`rsrc_centric_layout.dfy`): the layout. It has specification functions over a `Dataset` (`map<string, Graph>`, where an absent name reads as the empty graph) and the class `RsrcCentricLayout`. The class has the store `ds` and the memoised routing table as fields, and its methods are proved against those functions.
- `WriteRules` (`write_rules.dfy`): the set algebra of the write rules.
- `Versions` (`versions.dfy`): version URNs, labels, snapshots and metadata.
- `Containment` (`containment.dfy`): parent choice and pairtree segments.
- `LdprModel` (`ldpr.dfy`): the class `Ldpr`. It has the client payload, the memoised IMR and the memoised stored flag as fields. Its methods rewrite the payload in place, as the source does, and run the create, replace and version pipelines.

The existence of a resource is one predicate over UIDs, `StoreLayout.RsrcExists`. It holds when the resource's admin graph holds `(fcres:uid, rdf:type, fcrepo:Resource)`.

## Model

| member | source | states |
|---|---|---|
| Rdf.SetValue | lakesuperior/model/ldpr.py:852-862 | rdflib's `Resource.set`: afterwards `(s, p)` has exactly the one value given, and every triple with another subject or predicate is unchanged |
| RdfStrings.Before | lakesuperior/model/ldpr.py:772-775 | `s.split('#')[0]`: the text before the first `#` is a prefix of `s` without `#`, followed by `#` in `s`; the whole string when there is none |
| StoreLayout.MainUri | lakesuperior/store_layouts/ldp_rs/rsrc_centric_layout.py:409-416 | the main graph name is the `fcmain:` namespace followed by the UID, with a `:<ver_uid>` suffix exactly when the version is non-empty |
| StoreLayout.AdminUri | lakesuperior/store_layouts/ldp_rs/rsrc_centric_layout.py:419-426 | the admin graph name is the `fcadmin:` namespace followed by the UID, with a suffix exactly when the version is non-empty |
| StoreLayout.StructUri | lakesuperior/store_layouts/ldp_rs/rsrc_centric_layout.py:429-436 | the structure graph name is the `fcstruct:` namespace followed by the UID, with a suffix exactly when the version is non-empty |
| StoreLayout.GraphNamesDistinct | lakesuperior/store_layouts/ldp_rs/rsrc_centric_layout.py:409-436 | admin, main and structure names never coincide, whatever the UIDs and versions, and none is the meta graph |
| StoreLayout.VersionedNameDiffers | lakesuperior/store_layouts/ldp_rs/rsrc_centric_layout.py:409-436 | a name with a version suffix differs from the current name of the same UID, for all three graphs |
| StoreLayout.GraphNamesInjective | lakesuperior/store_layouts/ldp_rs/rsrc_centric_layout.py:409-416 | for UIDs without ':', equal main graph names mean equal UID and equal version label |
| StoreLayout.VersionNameCollision | lakesuperior/store_layouts/ldp_rs/rsrc_centric_layout.py:409-436 | with ':' in a UID the names collide: for every UID `u` and non-empty `v`, the current main, admin and structure graphs of `u:v` are version `v` of `u` |
| StoreLayout.PredicateTablesDisjoint | lakesuperior/store_layouts/ldp_rs/rsrc_centric_layout.py:61-104 | no predicate is routed both to the admin and to the structure graph |
| StoreLayout.AttrRoutes | lakesuperior/store_layouts/ldp_rs/rsrc_centric_layout.py:127-143 | the routing table has a predicate table and a type table, and every destination it holds is the admin or the structure namespace |
| StoreLayout.RoutesOverValues | lakesuperior/store_layouts/ldp_rs/rsrc_centric_layout.py:136-141 | every term the loops route goes to one of the destinations iterated |
| StoreLayout.AttrRoutesExact | lakesuperior/store_layouts/ldp_rs/rsrc_centric_layout.py:61-104 | `attr_routes[k][term] == dest` exactly when `term` is listed under `attr_map[dest][k]`; nothing else is routed |
| StoreLayout.BuildRoutes | lakesuperior/store_layouts/ldp_rs/rsrc_centric_layout.py:136-141 | the nested loops build, destination by destination, the table where the last destination listing a term wins |
| StoreLayout.UpdateRoutes | lakesuperior/store_layouts/ldp_rs/rsrc_centric_layout.py:138-141 | one destination's pass: each table gains exactly its listed terms mapped to that destination, overriding earlier entries |
| StoreLayout.BuildAttrRoutes | lakesuperior/store_layouts/ldp_rs/rsrc_centric_layout.py:127-143 | the built table is the routing table, characterised term by term from the attribute map |
| StoreLayout.RsrcCentricLayout.GetAttrRoutes | lakesuperior/store_layouts/ldp_rs/rsrc_centric_layout.py:136-143 | built on first use and cached; every later use returns the same table |
| StoreLayout.MapGraphUri | lakesuperior/store_layouts/ldp_rs/rsrc_centric_layout.py:439-448 | every triple goes to the admin, main or structure graph of the UID, never to the meta graph |
| StoreLayout.MapGraphUriRules | lakesuperior/store_layouts/ldp_rs/rsrc_centric_layout.py:439-448 | a routed predicate wins; `rdf:type` with a routed type goes to admin; everything else goes to main |
| StoreLayout.RoutedPartition | lakesuperior/store_layouts/ldp_rs/rsrc_centric_layout.py:439-448 | the admin, main and structure shares of a set of triples together make up the whole set |
| StoreLayout.TargetsEmpty | lakesuperior/store_layouts/ldp_rs/rsrc_centric_layout.py:368-377 | no graph is selected exactly when there are no triples, and the meta graph is never selected |
| StoreLayout.ModifyDataset | lakesuperior/store_layouts/ldp_rs/rsrc_centric_layout.py:364-387 | a modify with nothing to remove and nothing to add leaves the store as it was |
| StoreLayout.ModifyGraphContent | lakesuperior/store_layouts/ldp_rs/rsrc_centric_layout.py:364-385 | each resource graph becomes its old content minus the removals routed to it, plus the additions routed to it; a triple both removed and added is present |
| StoreLayout.ModifyMetaGraph | lakesuperior/store_layouts/ldp_rs/rsrc_centric_layout.py:382-387 | the meta graph gains `(gr_uri, foaf:primaryTopic, fcres:uid)` for exactly the graphs that received additions; removal-only calls leave it unchanged |
| StoreLayout.ModifyRoutesEachTriple | lakesuperior/store_layouts/ldp_rs/rsrc_centric_layout.py:368-385 | an added triple is afterwards in the graph `_map_graph_uri` selects; a triple only removed is not |
| StoreLayout.ModifyLeavesOthers | lakesuperior/store_layouts/ldp_rs/rsrc_centric_layout.py:378-385 | a graph selected by no triple is unchanged, present or absent as before |
| StoreLayout.ExistsAfterModify | lakesuperior/store_layouts/ldp_rs/rsrc_centric_layout.py:227-233 | adding `(fcres:uid, rdf:type, fcrepo:Resource)` through `modify_rsrc` makes the resource exist; removing it without re-adding makes it not exist |
| StoreLayout.RsrcExists | lakesuperior/store_layouts/ldp_rs/rsrc_centric_layout.py:227-233 | a resource can exist only when its admin graph is present |
| StoreLayout.RsrcCentricLayout.AskRsrcExists | lakesuperior/store_layouts/ldp_rs/rsrc_centric_layout.py:227-233 | the existence test, on the layout's current store |
| StoreLayout.RsrcCentricLayout.ModifyRsrc | lakesuperior/store_layouts/ldp_rs/rsrc_centric_layout.py:364-387 | the store after the call is the modify specification applied to the store before it, with the cached routing table |
| StoreLayout.RouteTriples | lakesuperior/store_layouts/ldp_rs/rsrc_centric_layout.py:368-377 | the `defaultdict` loop groups each triple under the graph it is routed to, and only under it |
| StoreLayout.ApplyRemovals | lakesuperior/store_layouts/ldp_rs/rsrc_centric_layout.py:379-381 | each grouped graph loses exactly its group |
| StoreLayout.ApplyAdditions | lakesuperior/store_layouts/ldp_rs/rsrc_centric_layout.py:382-387 | each grouped graph gains exactly its group, and the meta graph records a primary topic for it |
| StoreLayout.ExtractImrFrom | lakesuperior/store_layouts/ldp_rs/rsrc_centric_layout.py:164-224 | the IMR is admin ∪ main, plus structure exactly when children are included; strict mode fails on an empty IMR as not found and on a tombstone; lenient mode returns the union in every case |
| StoreLayout.ExistingResourceFound | lakesuperior/store_layouts/ldp_rs/rsrc_centric_layout.py:164-233 | a resource `ask_rsrc_exists` finds is never reported missing by a strict extraction, and a lenient extraction returns its `fcrepo:Resource` type |
| StoreLayout.RsrcCentricLayout.ExtractImr | lakesuperior/store_layouts/ldp_rs/rsrc_centric_layout.py:164-224 | on the layout's store: a strict extraction that succeeds is non-empty and no tombstone; a lenient one always succeeds and holds the main graph |
| StoreLayout.RsrcCentricLayout.GetVersion | lakesuperior/store_layouts/ldp_rs/rsrc_centric_layout.py:285-291 | the versioned main graph; with an empty version label it is the current main graph, which is part of the IMR |
| StoreLayout.DeleteDataEffect | lakesuperior/store_layouts/ldp_rs/rsrc_centric_layout.py:390-404 | main and structure become empty; admin is kept; a backup name holds the old main graph; every other graph is untouched |
| StoreLayout.DeleteData | lakesuperior/store_layouts/ldp_rs/rsrc_centric_layout.py:390-404 | deleting creates no graph other than the backup, and leaves no main or structure graph for the UID |
| StoreLayout.RsrcCentricLayout.DeleteRsrcData | lakesuperior/store_layouts/ldp_rs/rsrc_centric_layout.py:390-404 | the MOVE and the DROPs, as map updates, give the delete specification |
| StoreLayout.ModifyAddOnly | lakesuperior/store_layouts/ldp_rs/rsrc_centric_layout.py:360-385 | an add-only modify puts into each graph exactly the triples routed to it |
| StoreLayout.ModifyAddsToImr | lakesuperior/store_layouts/ldp_rs/rsrc_centric_layout.py:364-387 | an add-only modify adds exactly the written triples to the IMR, children included |
| StoreLayout.CreateOrReplaceImr | lakesuperior/store_layouts/ldp_rs/rsrc_centric_layout.py:355-361 | after `create_or_replace_rsrc` the IMR is the old admin graph plus exactly the triples written |
| StoreLayout.CreateOrReplaceKeepsBackup | lakesuperior/store_layouts/ldp_rs/rsrc_centric_layout.py:285-291 | after `create_or_replace_rsrc` with a backup label, `get_version` of that label returns the previous main graph |
| StoreLayout.RsrcCentricLayout.CreateOrReplaceRsrc | lakesuperior/store_layouts/ldp_rs/rsrc_centric_layout.py:355-361 | delete, then add-only modify, on the store |
| WriteRules.DedupDeltas | lakesuperior/model/ldpr.py:937-945 | the remove and add sets are disjoint, remove ⊆ old and add ⊆ new, and (old − remove) ∪ add == new |
| WriteRules.ReplaceKeepsProtected | lakesuperior/model/ldpr.py:583-600 | the replace delta never removes a protected triple, and applying it leaves the payload plus the protected triples |
| WriteRules.WithServerManaged | lakesuperior/model/ldpr.py:841-862 | after stamping, `lastModifiedBy` holds exactly the default user, and every payload triple about another subject is kept |
| WriteRules.ServerManagedStamps | lakesuperior/model/ldpr.py:841-862 | `lastModified`/`lastModifiedBy` hold exactly the timestamp and the default user; `created`/`createdBy` likewise only when creating and are otherwise the payload's; the digest is that of the payload with its base types; every other triple is the payload's or a base type |
| WriteRules.Base | lakesuperior/model/ldpr.py:772-775 | a subject with `#` is cut to the IRI before its first `#`; any other subject is itself |
| WriteRules.FragmentsStable | lakesuperior/model/ldpr.py:768-783 | the fragment links add no subject, keep the single-subject verdict, are idempotent, and point to the resource when the check passes |
| WriteRules.UuidToUri | tests/test_toolbox.py:29-31 | the URI of a UID starts with the webroot |
| WriteRules.UriUuidRoundTrip | tests/test_toolbox.py:34-38 | `uri_to_uuid` inverts `uuid_to_uri` under the webroot |
| WriteRules.RefIntFilterSound | lakesuperior/model/ldpr.py:786-798 | the lenient filter leaves no dangling object and keeps every other triple; it changes nothing exactly when no object is dangling |
| WriteRules.SanitisedClean | lakesuperior/model/ldpr.py:801-838 | sanitising leaves no managed subject, predicate or type and keeps every other triple; it changes nothing exactly when the strict check finds nothing |
| WriteRules.OutGraphDropsUserTypes | lakesuperior/model/ldpr.py:252-257 | as written, every `rdf:type` triple is dropped when server-managed triples are left out; the corrected filter keeps it when neither `rdf:type` nor the type is managed |
| WriteRules.OutGraphAsWritten | lakesuperior/model/ldpr.py:252-257 | the filter as written keeps a part of the IMR, and without server-managed triples it holds no `rdf:type` triple at all |
| WriteRules.OutGraph | lakesuperior/model/ldpr.py:235-261 | the outgoing graph is part of the IMR and never carries the digest or version links; without server-managed triples it holds user triples only, so no managed predicate and no `rdf:type` triple of a managed type |
| WriteRules.OutGraphKeepsUserTriples | lakesuperior/model/ldpr.py:235-261 | with server-managed triples every IMR triple but the digest and version links is kept; without them every user triple among those is kept, user `rdf:type` triples included; leaving them out only narrows the graph; with them it equals the graph as written; without them it keeps all the graph as written keeps, and differs from it exactly on triples with predicate `rdf:type` or a managed-type object |
| Versions.VersionUrn | lakesuperior/model/ldpr.py:676-678 | the version URN lies strictly below the resource's own `fcres:` URN |
| Versions.VersionUrnShape | lakesuperior/model/ldpr.py:670-678 | the version URN is `fcres:<uuid>/fcr:versions/<ver_uid>`, determines its label, and is never the resource's own URN |
| Versions.SnapshotContents | lakesuperior/model/ldpr.py:679-698 | nothing in the snapshot is of an excluded kind, and all but the marker are renamed copies of current triples; excluded triples do not influence it; with the identity renaming an IMR free of them is copied as it is, plus the marker |
| Versions.SnapshotSize | lakesuperior/model/ldpr.py:679-698 | the snapshot has at most one triple more than the IMR: the marker |
| Versions.CopyForSnapshot | lakesuperior/model/ldpr.py:679-698 | the copy loop yields the snapshot |
| Versions.ChooseVersionLabel | lakesuperior/model/ldpr.py:509-510 | a non-empty unused label is kept; an empty label or one already in use yields the fresh uuid, which is non-empty and unused when it is |
| Versions.LabelTakenAfterVersion | lakesuperior/model/ldpr.py:286-296 | once a version's metadata is recorded its label is listed in `version_uids`, so asking for it again yields the fresh uuid |
| Containment.SlashPrefixes | lakesuperior/model/ldpr.py:901-913 | there are no more candidates than characters in the UID |
| Containment.SlashPrefixesSpec | lakesuperior/model/ldpr.py:901-913 | the candidates are exactly the prefixes of the UID that stop before a '/', strictly growing in length |
| Containment.ShortestCandidate | lakesuperior/model/ldpr.py:901-906 | there is a candidate exactly when the UID has a '/'; only the shortest has no '/' |
| Containment.NearestExisting | lakesuperior/model/ldpr.py:915-922 | the index found exists and every longer candidate does not; -1 when none exists |
| Containment.ChosenParentIsNearest | lakesuperior/model/ldpr.py:915-927 | the parent is the root node exactly when no '/'-prefix exists, and otherwise the longest existing '/'-prefix |
| Containment.PairtreeSegmentsChain | lakesuperior/model/ldpr.py:915-925 | one segment per candidate longer than the parent, longest first, each non-existent; the first links to the new resource and each later one to the previous segment's path |
| Containment.PathSegment | lakesuperior/model/ldpr.py:948-973 | the segment has exactly the real parent as `hasParent`, and every triple of it is about the segment, except the root node's containment link |
| Containment.PathSegmentRoot | lakesuperior/model/ldpr.py:969-971 | a segment is attached to `fcsystem:root` exactly when its path has no '/' |
| Containment.SearchPairtree | lakesuperior/model/ldpr.py:911-927 | the loop with early exit yields the nearest existing candidate, or the root node, and the segments below it |
| Containment.CreatePathSegments | lakesuperior/model/ldpr.py:929-930 | one path-segment graph per recorded pair, each with `hasParent` the chosen parent |
| Containment.FindParentOrCreatePairtree | lakesuperior/model/ldpr.py:893-934 | returns the chosen parent and the graphs of exactly the pairtree segments below it |
| Containment.ContainmentParent | lakesuperior/model/ldpr.py:874-880 | the root gets no containment; a UID without '/' is contained by the root node with no segment; the containment triple's object is the resource |
| Containment.SetContainmentRel | lakesuperior/model/ldpr.py:865-885 | the containment relation is the specified one |
| LdprModel.PreparedPayload | lakesuperior/model/ldpr.py:545-558 | under a lenient referential-integrity setting no object is dangling; otherwise every stamped triple is written |
| LdprModel.PreparedPayloadStamps | lakesuperior/model/ldpr.py:545-558 | after stamping, fragment links and the referential-integrity filter, the payload still records the timestamp as `lastModified`, and as `created` when creating |
| LdprModel.DropTerms | lakesuperior/model/ldpr.py:812-815 | the removal loop drops exactly the triples hitting an offending term |
| LdprModel.Ldpr.Imr | lakesuperior/model/ldpr.py:163-182 | a strict extraction on first use, cached when it succeeds; later uses return the cache |
| LdprModel.Ldpr.IsStored | lakesuperior/model/ldpr.py:299-307 | a non-empty cached IMR, else the store's existence test; cached afterwards |
| LdprModel.Ldpr.AddBaseTypes | lakesuperior/model/ldpr.py:848-849 | the loop adds exactly the base type triples |
| LdprModel.Ldpr.AddSrvMgdTriples | lakesuperior/model/ldpr.py:841-862 | the payload becomes the stamped payload |
| LdprModel.Ldpr.EnsureSingleSubjectRdf | lakesuperior/model/ldpr.py:768-783 | passes exactly when every subject cut at '#' is the resource, having then added the fragment links; otherwise fails naming an offending base, having added no more than fragment links |
| LdprModel.Ldpr.CheckRefInt | lakesuperior/model/ldpr.py:786-798 | under "strict" the payload is untouched and the check fails exactly when an object is dangling, naming one; otherwise it passes and every triple with a dangling object is dropped |
| LdprModel.Ldpr.CheckMgdTerms | lakesuperior/model/ldpr.py:801-838 | "none" returns the graph; "strict" fails on managed subjects, then predicates, then types, naming the intersection; otherwise the sanitised graph |
| LdprModel.Ldpr.CreateRsrc | lakesuperior/model/ldpr.py:570-580 | adds the whole payload and makes it the IMR |
| LdprModel.Ldpr.ReplaceRsrc | lakesuperior/model/ldpr.py:583-600 | the delta is the deduplicated one from the IMR without protected triples to the payload; the IMR becomes its add set; a failing IMR extraction propagates |
| LdprModel.Ldpr.CreateOrReplaceRsrc | lakesuperior/model/ldpr.py:545-567 | create when asked or not stored; a payload failing the single-subject check fails; when it passes, the call succeeds exactly when the referential-integrity check and (for a replace) the IMR extraction do, and otherwise fails with that check's or that extraction's error; on success the payload is the prepared one, the event and delta match create or replace, a replace caches the new IMR, the containment is the specified one, and under "strict" no object is dangling |
| LdprModel.Ldpr.CreateRsrcVersion | lakesuperior/model/ldpr.py:670-722 | the snapshot of the current IMR under the version URN, its metadata and the `hasVersions` pointer; a failing IMR extraction propagates |
| LdprModel.Ldpr.CreateVersion | lakesuperior/model/ldpr.py:497-512 | under the chosen label: the snapshot of the current IMR, the version metadata recording that label, and the `hasVersions` pointer; afterwards the label counts as taken; a failing IMR extraction propagates |

## Left out

- Transactions (the `atomic` decorator), `request.changelog`, messaging and `_send_event_msg`: these are I/O and request globals. `_modify_rsrc` therefore reduces to the store write.
- The store writes `Ldpr` makes go through `modify_dataset`. That function is not part of this model, so the create, replace, version and path-segment writes are returned as deltas and graphs rather than applied.
- `LdprModel.Ldpr.CreateOrReplaceRsrc` works out the containment against the store as it was before the resource's own write, because that write is returned rather than applied. The resource's own triples do not affect whether its ancestors exist.
- `_set_containment_rel` also writes the containment triple through a parent `Ldpr` built by `LdpFactory`, and adds the direct/indirect container relations (`_add_ldp_dc_ic_rel`). `LdpFactory` and those relations are not part of this model. The containment triple is returned instead.
- `Ldpr` passes URNs and URIs to `ask_rsrc_exists` and `extract_imr`, and the layout takes UIDs. Existence and extraction are modelled over UIDs throughout.
- Layout operations that are SPARQL text or stubs: `bootstrap`, `get_inbound_rel`, `get_metadata`, `purge_rsrc` and `create_snapshot`. Inbound triples (`incl_inbound`) in `extract_imr` are also left out. `extract_imr` accepts a `ver_uid` argument and ignores it, and so does the model.
- `StoreLayout.ExtractImrFrom`: the strict tombstone paths are modelled only as failing (`TombstoneFound`); the source raises through undefined names there. In lenient mode, a resource pointing to an ancestor's tombstone reaches a log call that formats the undefined name `uri` (lakesuperior/store_layouts/ldp_rs/rsrc_centric_layout.py:222), so the source raises there too, also through its lenient callers at lakesuperior/model/ldpr.py:436 and :642. The model returns the union, which is the logged pass the code evidently intends.
- Toolbox helpers:
  - `rdf_cksum` is a function parameter.
  - `replace_term_domain` is a function parameter.
  - `uri_to_uuid`/`uuid_to_uri` follow tests/test_toolbox.py, for URIs under the webroot only.
  - `globalize_graph` is left out.
- The server-managed term lists and the namespace table are not part of this model. The managed subjects, predicates and types are a parameter; the namespace prefixes are constants.
- Timestamps and `uuid4()` are parameters.
- Deleting, burying, purging and resurrecting resources are left out, together with the recursive child and inbound-reference cleanup.
- Versions.ChooseVersionLabel: the `create_version` docstring (ldpr.py:506-507) says that a label already in use raises an error; the code (ldpr.py:509-510) replaces it with a fresh uuid instead. The model follows the code.
- `revert_to_version`, `head`, `get`, `stored_or_new_imr`, `version_info`, `versions` and `ldp_types` are left out. The version information graph is a parameter of `create_version`.
- The `types` property is left out: it refers to an undefined name.
- LdprModel.Ldpr.EnsureSingleSubjectRdf: the source iterates over an unordered set of subjects. On a failure, which offending subject is named and how many fragment links were already added depend on that order, so the contract states only what holds for every order.
- LdprModel.Ldpr.CheckRefInt: under "strict", which dangling object is named depends on the order of an unordered set, so the contract states only that the named object is one of them.

## Findings

| source | as written | input that shows it | evidently intended | confidence | as-written member | corrected member |
|---|---|---|---|---|---|---|
| lakesuperior/model/ldpr.py:256 | the `out_graph` filter keeps a triple only when `not (p == rdf:type or o in srv_mgd_types)`, so leaving out server-managed triples drops every `rdf:type` triple | the IMR `{(fcres:a, rdf:type, <http://example.org/ns#Book>)}` with `incl_srv_mgd` false, where neither `rdf:type` nor the type is server-managed: the filter as written drops the triple and the corrected one keeps it (WriteRules.OutGraphDropsUserTypes) | drop only `rdf:type` triples whose type is server-managed, as the revert filter at lines 533-535 does | low; not executed | WriteRules.OutGraphAsWritten | WriteRules.OutGraph |
