/**
 * Where a new resource hangs in the containment tree: the nearest existing
 * ancestor along its '/'-separated UID (or the root node), and the pairtree
 * path segments that link that ancestor down to the new resource.
 */
module Containment {
  import opened Rdf
  import opened Exceptions
  import StoreLayout

  /**
   * The search list of `_find_parent_or_create_pairtree`, shortest first:
   * the text before each '/' of `s` (what `accumulate` builds from
   * `s.split('/')[:-1]`).
   */
  function SlashPrefixes(s: string): (r: seq<string>)
    ensures |r| <= |s|
    decreases |s|
  {
    if s == [] then []
    else
      var init := s[..|s| - 1];
      if s[|s| - 1] == '/' then SlashPrefixes(init) + [init] else SlashPrefixes(init)
  }

  /**
   * The candidates are exactly the prefixes of `s` that stop right before a
   * '/', strictly growing in length.
   */
  lemma {:induction false} SlashPrefixesSpec(s: string)
    ensures forall j :: 0 <= j < |SlashPrefixes(s)| ==>
      |SlashPrefixes(s)[j]| < |s| && SlashPrefixes(s)[j] == s[..|SlashPrefixes(s)[j]|] &&
      s[|SlashPrefixes(s)[j]|] == '/'
    ensures forall i :: 0 <= i < |s| && s[i] == '/' ==> s[..i] in SlashPrefixes(s)
    ensures forall j, k :: 0 <= j < k < |SlashPrefixes(s)| ==> |SlashPrefixes(s)[j]| < |SlashPrefixes(s)[k]|
    decreases |s|
  {
    if s != [] {
      var init := s[..|s| - 1];
      SlashPrefixesSpec(init);
      var c, ci := SlashPrefixes(s), SlashPrefixes(init);
      assert forall j :: 0 <= j < |ci| ==> ci[j] == init[..|ci[j]|] == s[..|ci[j]|] && s[|ci[j]|] == init[|ci[j]|];
      assert forall i :: 0 <= i < |init| ==> s[..i] == init[..i] && s[i] == init[i];
      if s[|s| - 1] == '/' {
        assert c == ci + [init];
        assert s[..|init|] == init;
      }
    }
  }

  /** The text before the first '/' holds no '/', and there is a candidate exactly when the UID has a '/'. */
  lemma ShortestCandidate(s: string)
    ensures |SlashPrefixes(s)| > 0 <==> '/' in s
    ensures |SlashPrefixes(s)| > 0 ==> '/' !in SlashPrefixes(s)[0]
    ensures forall j :: 0 < j < |SlashPrefixes(s)| ==> '/' in SlashPrefixes(s)[j]
  {
    SlashPrefixesSpec(s);
    var c := SlashPrefixes(s);
    if '/' in s {
      var i :| 0 <= i < |s| && s[i] == '/';
      assert s[..i] in c;
    }
    if |c| > 0 {
      forall j | 0 < j < |c| ensures '/' in c[j] {
        assert |c[0]| < |c[j]|;
        assert c[j][|c[0]|] == s[|c[0]|] == '/';
      }
    }
  }

  /** The index of the longest existing candidate below `hi`, or -1. */
  function NearestExisting(c: seq<string>, ds: StoreLayout.Dataset, hi: nat): (r: int)
    requires hi <= |c|
    ensures -1 <= r < hi
    ensures r >= 0 ==> StoreLayout.RsrcExists(ds, c[r])
    ensures forall k :: r < k < hi ==> !StoreLayout.RsrcExists(ds, c[k])
  {
    if hi == 0 then -1
    else if StoreLayout.RsrcExists(ds, c[hi - 1]) then hi - 1
    else NearestExisting(c, ds, hi - 1)
  }

  /** The parent `_find_parent_or_create_pairtree` returns. */
  function ChosenParent(uuid: string, ds: StoreLayout.Dataset): Term
  {
    var c := SlashPrefixes(uuid);
    var j := NearestExisting(c, ds, |c|);
    if j >= 0 then Res(c[j]) else ROOT_NODE_URN
  }

  /**
   * The parent is the longest existing '/'-prefix of the UID, or the root
   * node when no such prefix exists.
   */
  lemma ChosenParentIsNearest(uuid: string, ds: StoreLayout.Dataset)
    ensures ChosenParent(uuid, ds) == ROOT_NODE_URN <==>
            forall i :: 0 <= i < |uuid| && uuid[i] == '/' ==> !StoreLayout.RsrcExists(ds, uuid[..i])
    ensures ChosenParent(uuid, ds) != ROOT_NODE_URN ==>
            exists i :: 0 <= i < |uuid| && uuid[i] == '/' && ChosenParent(uuid, ds) == Res(uuid[..i]) &&
              StoreLayout.RsrcExists(ds, uuid[..i]) &&
              forall i' :: i < i' < |uuid| && uuid[i'] == '/' ==> !StoreLayout.RsrcExists(ds, uuid[..i'])
  {
    SlashPrefixesSpec(uuid);
    var c := SlashPrefixes(uuid);
    var j := NearestExisting(c, ds, |c|);
    forall i | 0 <= i < |uuid| && uuid[i] == '/' && i > (if j >= 0 then |c[j]| else -1)
      ensures !StoreLayout.RsrcExists(ds, uuid[..i])
    {
      var k :| 0 <= k < |c| && c[k] == uuid[..i];
      if j >= 0 && k <= j {
        assert false;
      }
    }
    if j >= 0 {
      var i := |c[j]|;
      DifferAt(Res(c[j]).iri, ROOT_NODE_URN.iri, 0);
      assert uuid[i] == '/' && c[j] == uuid[..i];
    }
  }

  /** Segment `k`: candidate `k` and the next-longer path (the new resource after the last candidate). */
  function SegmentAt(c: seq<string>, uuid: string, k: nat): (Term, Term)
    requires k < |c|
  {
    (Res(c[k]), if k == |c| - 1 then Res(uuid) else Res(c[k + 1]))
  }

  /** The segments for candidates `|c| - 1` down to `lo`, in the order they are met. */
  function SegmentsDown(c: seq<string>, uuid: string, lo: nat): seq<(Term, Term)>
    requires lo <= |c|
    decreases |c| - lo
  {
    if lo == |c| then [] else SegmentsDown(c, uuid, lo + 1) + [SegmentAt(c, uuid, lo)]
  }

  /** The segments for the candidates longer than the nearest existing one. */
  function SegmentsAbove(c: seq<string>, uuid: string, ds: StoreLayout.Dataset): seq<(Term, Term)>
  {
    SegmentsDown(c, uuid, NearestExisting(c, ds, |c|) + 1)
  }

  /** The `segments` list `_find_parent_or_create_pairtree` builds. */
  function PairtreeSegments(uuid: string, ds: StoreLayout.Dataset): seq<(Term, Term)>
  {
    SegmentsAbove(SlashPrefixes(uuid), uuid, ds)
  }

  lemma {:induction false} SegmentsDownIndex(c: seq<string>, uuid: string, lo: nat)
    requires lo <= |c|
    ensures |SegmentsDown(c, uuid, lo)| == |c| - lo
    ensures forall n :: 0 <= n < |c| - lo ==> SegmentsDown(c, uuid, lo)[n] == SegmentAt(c, uuid, |c| - 1 - n)
    decreases |c| - lo
  {
    if lo < |c| {
      SegmentsDownIndex(c, uuid, lo + 1);
    }
  }

  /**
   * One segment per candidate longer than the parent, longest first, each
   * of a path that does not exist; the first links to the new resource and
   * each later one to the path of the segment before it.
   */
  lemma PairtreeSegmentsChain(uuid: string, ds: StoreLayout.Dataset)
    ensures |PairtreeSegments(uuid, ds)| == |SlashPrefixes(uuid)| - 1 - NearestExisting(SlashPrefixes(uuid), ds, |SlashPrefixes(uuid)|)
    ensures forall n :: 0 <= n < |PairtreeSegments(uuid, ds)| ==>
      PairtreeSegments(uuid, ds)[n].0 == Res(SlashPrefixes(uuid)[|SlashPrefixes(uuid)| - 1 - n]) &&
      !StoreLayout.RsrcExists(ds, SlashPrefixes(uuid)[|SlashPrefixes(uuid)| - 1 - n])
    ensures |PairtreeSegments(uuid, ds)| > 0 ==> PairtreeSegments(uuid, ds)[0].1 == Res(uuid)
    ensures forall n :: 0 < n < |PairtreeSegments(uuid, ds)| ==>
      PairtreeSegments(uuid, ds)[n].1 == PairtreeSegments(uuid, ds)[n - 1].0
  {
    SegmentsAboveChain(SlashPrefixes(uuid), uuid, ds);
  }

  /** `PairtreeSegmentsChain` for any list of candidates `c`. */
  lemma SegmentsAboveChain(c: seq<string>, uuid: string, ds: StoreLayout.Dataset)
    ensures |SegmentsAbove(c, uuid, ds)| == |c| - 1 - NearestExisting(c, ds, |c|)
    ensures forall n :: 0 <= n < |SegmentsAbove(c, uuid, ds)| ==>
      SegmentsAbove(c, uuid, ds)[n].0 == Res(c[|c| - 1 - n]) && !StoreLayout.RsrcExists(ds, c[|c| - 1 - n])
    ensures |SegmentsAbove(c, uuid, ds)| > 0 ==> SegmentsAbove(c, uuid, ds)[0].1 == Res(uuid)
    ensures forall n :: 0 < n < |SegmentsAbove(c, uuid, ds)| ==>
      SegmentsAbove(c, uuid, ds)[n].1 == SegmentsAbove(c, uuid, ds)[n - 1].0
  {
    var j := NearestExisting(c, ds, |c|);
    var lo: nat := j + 1;
    var segs := SegmentsDown(c, uuid, lo);
    assert SegmentsAbove(c, uuid, ds) == segs;
    SegmentsMissing(c, uuid, ds, j, lo);
    SegmentsChain(c, uuid, lo);
  }

  /** Every segment above the nearest existing candidate `j` is of a missing path. */
  lemma SegmentsMissing(c: seq<string>, uuid: string, ds: StoreLayout.Dataset, j: int, lo: nat)
    requires -1 <= j < |c| && lo == j + 1
    requires forall k :: j < k < |c| ==> !StoreLayout.RsrcExists(ds, c[k])
    ensures |SegmentsDown(c, uuid, lo)| == |c| - lo
    ensures forall n :: 0 <= n < |SegmentsDown(c, uuid, lo)| ==>
      SegmentsDown(c, uuid, lo)[n].0 == Res(c[|c| - 1 - n]) && !StoreLayout.RsrcExists(ds, c[|c| - 1 - n])
  {
    SegmentsChain(c, uuid, lo);
    forall n | 0 <= n < |SegmentsDown(c, uuid, lo)|
      ensures SegmentsDown(c, uuid, lo)[n].0 == Res(c[|c| - 1 - n]) && !StoreLayout.RsrcExists(ds, c[|c| - 1 - n])
    {
      var k := |c| - 1 - n;
      assert j < k < |c|;
    }
  }

  lemma SegmentsChain(c: seq<string>, uuid: string, lo: nat)
    requires lo <= |c|
    ensures |SegmentsDown(c, uuid, lo)| == |c| - lo
    ensures forall n :: 0 <= n < |SegmentsDown(c, uuid, lo)| ==> SegmentsDown(c, uuid, lo)[n].0 == Res(c[|c| - 1 - n])
    ensures |SegmentsDown(c, uuid, lo)| > 0 ==> SegmentsDown(c, uuid, lo)[0].1 == Res(uuid)
    ensures forall n :: 0 < n < |SegmentsDown(c, uuid, lo)| ==>
      SegmentsDown(c, uuid, lo)[n].1 == SegmentsDown(c, uuid, lo)[n - 1].0
  {
    SegmentsDownIndex(c, uuid, lo);
  }

  /** `_create_path_segment(uri, child_uri, real_parent_uri)`: the graph written for one segment. */
  function PathSegment(uri: Term, childUri: Term, realParentUri: Term, urn: Term): (r: Graph)
    ensures Values(r, uri, FCREPO_HAS_PARENT) == {realParentUri}
    ensures forall t :: t in r && t.s != uri ==> t == Triple(ROOT_NODE_URN, FCREPO_CONTAINS, uri)
  {
    {Triple(uri, RDF_TYPE, LDP_CONTAINER), Triple(uri, RDF_TYPE, LDP_BASIC_CONTAINER),
     Triple(uri, RDF_TYPE, LDP_RDF_SOURCE), Triple(uri, RDF_TYPE, FCREPO_PAIRTREE),
     Triple(uri, FCREPO_CONTAINS, childUri), Triple(uri, LDP_CONTAINS, urn),
     Triple(uri, FCREPO_HAS_PARENT, realParentUri)} +
    (if '/' !in Str(uri) then {Triple(ROOT_NODE_URN, FCREPO_CONTAINS, uri)} else {})
  }

  /**
   * A segment is attached to the root node exactly when its path has no
   * '/', which among the candidates is the shortest one only.
   */
  lemma PathSegmentRoot(p: string, childUri: Term, realParentUri: Term, urn: Term)
    ensures Triple(ROOT_NODE_URN, FCREPO_CONTAINS, Res(p)) in PathSegment(Res(p), childUri, realParentUri, urn)
            <==> '/' !in p
  {
    assert '/' !in FCRES;
    DifferAt(Res(p).iri, ROOT_NODE_URN.iri, 0);
    assert '/' in Res(p).iri <==> '/' in p by {
      assert Res(p).iri == FCRES + p;
      assert forall i :: 0 <= i < |p| ==> Res(p).iri[|FCRES| + i] == p[i];
    }
  }

  /** The graphs written for a list of segments. */
  function SegmentGraphs(segs: seq<(Term, Term)>, realParentUri: Term, urn: Term): seq<Graph>
  {
    seq(|segs|, n requires 0 <= n < |segs| => PathSegment(segs[n].0, segs[n].1, realParentUri, urn))
  }

  /**
   * The search loop of `_find_parent_or_create_pairtree` over candidates
   * `c`: try them longest first, stop at the first that exists, otherwise
   * record a segment for it.
   */
  method SearchPairtree(c: seq<string>, uuid: string, layout: StoreLayout.RsrcCentricLayout)
    returns (parentUri: Term, segments: seq<(Term, Term)>)
    ensures var j := NearestExisting(c, layout.ds, |c|);
      parentUri == (if j >= 0 then Res(c[j]) else ROOT_NODE_URN) && segments == SegmentsDown(c, uuid, j + 1)
  {
    parentUri := ROOT_NODE_URN;
    var curChildUri := Res(uuid);
    segments := [];
    var found := false;
    var i := |c|;
    while i > 0 && !found
      invariant 0 <= i <= |c|
      invariant !found ==> NearestExisting(c, layout.ds, |c|) == NearestExisting(c, layout.ds, i)
      invariant !found ==> parentUri == ROOT_NODE_URN
      invariant found ==> i < |c| && NearestExisting(c, layout.ds, |c|) == i && parentUri == Res(c[i])
      invariant segments == SegmentsDown(c, uuid, if found then i + 1 else i)
      invariant !found ==> curChildUri == if i == |c| then Res(uuid) else Res(c[i])
      decreases i, !found
    {
      var cparentUri := Res(c[i - 1]);
      if layout.AskRsrcExists(c[i - 1]) {
        parentUri := cparentUri;
        found := true;
      } else {
        segments := segments + [(cparentUri, curChildUri)];
        curChildUri := cparentUri;
      }
      i := i - 1;
    }
  }

  /** The loop of `_find_parent_or_create_pairtree` that creates one path segment per recorded pair. */
  method CreatePathSegments(segments: seq<(Term, Term)>, parentUri: Term, urn: Term) returns (created: seq<Graph>)
    ensures created == SegmentGraphs(segments, parentUri, urn)
  {
    created := [];
    var n := 0;
    while n < |segments|
      invariant 0 <= n <= |segments|
      invariant created == SegmentGraphs(segments[..n], parentUri, urn)
    {
      created := created + [PathSegment(segments[n].0, segments[n].1, parentUri, urn)];
      n := n + 1;
    }
    assert segments[..n] == segments;
  }

  /**
   * `_find_parent_or_create_pairtree`: the parent it returns and the graphs
   * of the path segments it creates.
   */
  method FindParentOrCreatePairtree(uuid: string, layout: StoreLayout.RsrcCentricLayout)
    returns (parentUri: Term, created: seq<Graph>)
    ensures parentUri == ChosenParent(uuid, layout.ds)
    ensures created == SegmentGraphs(PairtreeSegments(uuid, layout.ds), parentUri, Res(uuid))
  {
    var c := SlashPrefixes(uuid);
    var segments;
    parentUri, segments := SearchPairtree(c, uuid, layout);
    created := CreatePathSegments(segments, parentUri, Res(uuid));
  }

  /** What `_set_containment_rel` writes: the parent, its containment triple and the path segments. */
  datatype ContainmentRel = ContainmentRel(parentUri: Term, contains: Triple, segments: seq<Graph>)

  /** The containment `_set_containment_rel` establishes, none for the root node. */
  function ContainmentFor(uuid: string, ds: StoreLayout.Dataset): Option<ContainmentRel>
  {
    if Urn(uuid) == ROOT_NODE_URN then None
    else
      var parentUri := ChosenParent(uuid, ds);
      Some(ContainmentRel(parentUri, Triple(parentUri, LDP_CONTAINS, Urn(uuid)),
                          SegmentGraphs(PairtreeSegments(uuid, ds), parentUri, Res(uuid))))
  }

  /**
   * The root node gets no containment; a UID without '/' is contained by
   * the root node and creates no segment; any other UID is contained by its
   * nearest existing ancestor.
   */
  lemma ContainmentParent(uuid: string, ds: StoreLayout.Dataset)
    ensures ContainmentFor(uuid, ds).None? <==> uuid == ""
    ensures uuid != "" && '/' !in uuid ==>
      ContainmentFor(uuid, ds) == Some(ContainmentRel(ROOT_NODE_URN, Triple(ROOT_NODE_URN, LDP_CONTAINS, Res(uuid)), []))
    ensures uuid != "" ==> ContainmentFor(uuid, ds).value.contains.o == Res(uuid)
  {
    ShortestCandidate(uuid);
    if uuid != "" {
      DifferAt(Res(uuid).iri, ROOT_NODE_URN.iri, 0);
      if '/' !in uuid {
        assert SlashPrefixes(uuid) == [];
        assert ChosenParent(uuid, ds) == ROOT_NODE_URN;
        assert PairtreeSegments(uuid, ds) == SegmentsDown([], uuid, 0) == [];
        assert SegmentGraphs([], ROOT_NODE_URN, Res(uuid)) == [];
        assert Urn(uuid) == Res(uuid);
      }
    }
  }

  /** `_set_containment_rel` */
  method SetContainmentRel(uuid: string, layout: StoreLayout.RsrcCentricLayout) returns (r: Option<ContainmentRel>)
    ensures r == ContainmentFor(uuid, layout.ds)
  {
    var urn := Urn(uuid);
    if urn == ROOT_NODE_URN {
      return None;
    }
    var parentUri: Term;
    var created: seq<Graph> := [];
    if '/' in uuid {
      parentUri, created := FindParentOrCreatePairtree(uuid, layout);
    } else {
      ContainmentParent(uuid, layout.ds);
      parentUri := ROOT_NODE_URN;
    }
    r := Some(ContainmentRel(parentUri, Triple(parentUri, LDP_CONTAINS, urn), created));
  }
}
