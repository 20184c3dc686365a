/**
 * The GUAC-backed queries (src/guac.rs): each one asks the graph adapter
 * one question, flattens the package trees of the answer into references
 * with `Graph.Flatten`, and the vulnerability queries project certification
 * records to vulnerability references and drop repeats.
 */
module Guac {
  import opened Wrappers
  import opened Json
  import Text
  import Purl
  import opened Graph
  import opened Model
  import Sequences
  import Batch

  /** How a reference's trust flag is set: from its namespace, or left unknown. */
  datatype TrustRule = ByNamespace | Unknown

  /** The reference emitted for one version leaf. */
  function RefOf(ext: Purl.Externals, rule: TrustRule, leaf: Leaf): (r: PackageRef)
    ensures r.purl == Purl.ExactKey(leaf.ty, leaf.namespace, leaf.name, leaf.version)
    ensures r.href == Purl.PackageHref(ext, r.purl)
    ensures rule == Unknown ==> r.trusted.None?
    ensures rule == ByNamespace ==> r.trusted.Some? && (r.trusted.value <==> leaf.namespace == "redhat")
  {
    PackageRef(leaf.ToPurl(), Purl.PackageHref(ext, leaf.ToPurl()),
               if rule == ByNamespace then Some(leaf.namespace == "redhat") else None)
  }

  function RefMaker(ext: Purl.Externals, rule: TrustRule): Leaf -> PackageRef
  {
    leaf => RefOf(ext, rule, leaf)
  }

  /** `refs` holds one reference per version leaf of `trees`, in encounter order. */
  predicate FlattenedRefs(ext: Purl.Externals, rule: TrustRule, trees: seq<PackageTree>, refs: seq<PackageRef>)
  {
    |refs| == |Leaves(trees)| &&
    forall i :: 0 <= i < |refs| ==> refs[i] == RefOf(ext, rule, Leaves(trees)[i])
  }

  /**
   * Flattened references are exactly the references of the reported
   * versions: one per version, each reported version has one, and nothing
   * else appears.
   */
  lemma FlattenedRefsReport(ext: Purl.Externals, rule: TrustRule, trees: seq<PackageTree>, refs: seq<PackageRef>)
    requires FlattenedRefs(ext, rule, trees, refs)
    ensures |refs| == VersionCount(trees)
    ensures forall l :: Reported(l, trees) ==> RefOf(ext, rule, l) in refs
    ensures forall r :: r in refs ==> exists l :: Reported(l, trees) && r == RefOf(ext, rule, l)
  {
    LeafCount(trees);
    forall l | Reported(l, trees)
      ensures RefOf(ext, rule, l) in refs
    {
      LeavesMembership(trees, l);
      var i :| 0 <= i < |Leaves(trees)| && Leaves(trees)[i] == l;
      assert refs[i] == RefOf(ext, rule, l);
    }
    forall r | r in refs
      ensures exists l :: Reported(l, trees) && r == RefOf(ext, rule, l)
    {
      var i :| 0 <= i < |refs| && refs[i] == r;
      LeavesMembership(trees, Leaves(trees)[i]);
    }
  }

  /** The version-stripped key `get_packages` searches with. */
  function PackagesQuery(purl: Purl.PackageUrl): string
    requires purl.namespace.Some?
  {
    Purl.VersionlessKey(purl.ty, purl.namespace.value, purl.name)
  }

  /**
   * `Guac::get_packages`: every version the graph knows under the
   * version-stripped key, flagged trusted when its namespace is `redhat`.
   * The namespace is unwrapped, so the caller must supply one.
   */
  method GetPackages(g: Adapter, ext: Purl.Externals, purl: Purl.PackageUrl)
    returns (r: Result<seq<PackageRef>, AdapterError>)
    requires purl.namespace.Some?
    ensures r.Failure? <==> g.packages(PackagesQuery(purl)).Failure?
    ensures r.Failure? ==> r.error == g.packages(PackagesQuery(purl)).error
    ensures r.Success? ==> FlattenedRefs(ext, ByNamespace, g.packages(PackagesQuery(purl)).value, r.value)
  {
    var pkgs := g.packages(PackagesQuery(purl));
    if pkgs.Failure? {
      return Failure(pkgs.error);
    }
    var ret := Flatten(pkgs.value, RefMaker(ext, ByNamespace));
    return Success(ret);
  }

  // ---------------------------------------------------------------------
  // One vulnerability and its advisory

  datatype Vulnerability = Vulnerability(cve: string, summary: string, advisory: string, packages: seq<PackageRef>)

  /** The advisory fetch: no response at all, or a status with the body if it decodes as JSON. */
  datatype Fetch = Unreachable | Response(status: int, body: Option<Json>)

  const HYDRA_PREFIX := "https://access.redhat.com/hydra/rest/securitydata/cve/"
  const ADVISORY_PREFIX := "https://access.redhat.com/security/cve/"
  const OSV_PREFIX := "https://osv.dev/vulnerability/"
  const UNAVAILABLE := "Unavailable"

  /**
   * The advisory data the summary is fetched from: the security-data prefix,
   * the id with its ASCII letters upper-cased, then `.json`.
   */
  function HydraUrl(cveId: string): (r: string)
    ensures |r| == |HYDRA_PREFIX| + |cveId| + 5
    ensures r[..|HYDRA_PREFIX|] == HYDRA_PREFIX && r[|r| - 5..] == ".json"
    ensures forall i :: 0 <= i < |cveId| ==> r[|HYDRA_PREFIX| + i] == Text.UpperChar(cveId[i])
  {
    var upper := Text.ToAsciiUpper(cveId);
    var r := HYDRA_PREFIX + upper + ".json";
    assert r[..|HYDRA_PREFIX|] == HYDRA_PREFIX;
    assert r[|r| - 5..] == ".json";
    assert forall i :: 0 <= i < |cveId| ==> r[|HYDRA_PREFIX| + i] == upper[i];
    r
  }

  /** The human-readable advisory page of a CVE: the prefix, then the lower-cased id. */
  function AdvisoryUrl(cveId: string): (r: string)
    ensures |r| == |ADVISORY_PREFIX| + |cveId| && r[..|ADVISORY_PREFIX|] == ADVISORY_PREFIX
    ensures forall i :: 0 <= i < |cveId| ==> r[|ADVISORY_PREFIX| + i] == Text.LowerChar(cveId[i])
  {
    var lower := Text.ToLower(cveId);
    var r := ADVISORY_PREFIX + lower;
    assert r[..|ADVISORY_PREFIX|] == ADVISORY_PREFIX;
    assert forall i :: 0 <= i < |cveId| ==> r[|ADVISORY_PREFIX| + i] == lower[i];
    r
  }

  /** Ids that differ only in the case of ASCII letters share an advisory page. */
  lemma AdvisoryUrlIgnoresCase(cveId: string)
    ensures AdvisoryUrl(Text.ToLower(cveId)) == AdvisoryUrl(cveId)
  {
    Text.ToLowerIdempotent(cveId);
  }

  /**
   * The first `details` entry of the advisory, present only when the fetch
   * answered 200 with a JSON object whose `details` is an array starting
   * with a string.
   */
  function FirstDetail(f: Fetch): (r: Option<string>)
    ensures r.Some? <==> f.Response? && f.status == 200 && f.body.Some? &&
                         Get(f.body.value, "details").Some? && Get(f.body.value, "details").value.JArray? &&
                         |Get(f.body.value, "details").value.items| > 0 &&
                         Get(f.body.value, "details").value.items[0].JString?
    ensures r.Some? ==> r.value == Get(f.body.value, "details").value.items[0].s
  {
    if f.Response? && f.status == 200 && f.body.Some? then
      match Get(f.body.value, "details")
      case Some(JArray(items)) => if |items| > 0 && items[0].JString? then Some(items[0].s) else None
      case _ => None
    else None
  }

  /**
   * `Guac::get_vulnerability`: the packages affected by `cveId`, the
   * advisory link, and a summary from the advisory data when it can be
   * had. Only a failing graph query fails the call; the fetch never does.
   */
  method GetVulnerability(g: Adapter, ext: Purl.Externals, fetch: string -> Fetch, cveId: string)
    returns (r: Result<Vulnerability, AdapterError>)
    ensures r.Failure? <==> g.vulnerabilities(cveId).Failure?
    ensures r.Failure? ==> r.error == g.vulnerabilities(cveId).error
    ensures r.Success? ==>
              r.value.cve == cveId &&
              r.value.advisory == AdvisoryUrl(cveId) &&
              FlattenedRefs(ext, ByNamespace, g.vulnerabilities(cveId).value, r.value.packages)
    ensures r.Success? ==>
              r.value.summary == match FirstDetail(fetch(HydraUrl(cveId)))
                                 case Some(s) => s
                                 case None => UNAVAILABLE
  {
    var vulns := g.vulnerabilities(cveId);
    if vulns.Failure? {
      return Failure(vulns.error);
    }
    var packages := Flatten(vulns.value, RefMaker(ext, ByNamespace));

    var response := fetch(HydraUrl(cveId));
    var summary := UNAVAILABLE;
    if response.Response? {
      if response.status == 200 {
        if response.body.Some? {
          var details := Get(response.body.value, "details");
          if details.Some? && details.value.JArray? {
            var items := details.value.items;
            if |items| > 0 && items[0].JString? {
              summary := items[0].s;
            }
          }
        }
      }
    }

    return Success(Vulnerability(cveId, summary, AdvisoryUrl(cveId), packages));
  }

  // ---------------------------------------------------------------------
  // Vulnerabilities certified for a package

  /** The link of an OSV record: the OSV page of the id with every `ghsa` in it written `GHSA`. */
  function OsvRef(id: string): (r: VulnerabilityRef)
    ensures r.cve == id
    ensures |r.href| == |OSV_PREFIX| + |id| && r.href[..|OSV_PREFIX|] == OSV_PREFIX
  {
    var normalised := Text.Replace(id, "ghsa", "GHSA");
    assert (OSV_PREFIX + normalised)[|OSV_PREFIX|..] == normalised;
    VulnerabilityRef(id, OSV_PREFIX + normalised)
  }

  /**
   * The OSV link rule: after the prefix, the characters of the id that lie
   * inside an occurrence of `ghsa` are upper-cased and every other
   * character is kept; an id without `ghsa` is linked unchanged, and no
   * lower-case `ghsa` is left in the link.
   */
  lemma OsvRefLinkRule(id: string)
    ensures Text.GhsaUpperCased(id, OsvRef(id).href[|OSV_PREFIX|..])
    ensures !Text.Contains(id, "ghsa") ==> OsvRef(id).href == OSV_PREFIX + id
    ensures !Text.Contains(OsvRef(id).href[|OSV_PREFIX|..], "ghsa")
  {
    var normalised := Text.Replace(id, "ghsa", "GHSA");
    assert OsvRef(id).href[|OSV_PREFIX|..] == normalised;
    Text.ReplaceGhsaLeavesNone(id);
    Text.ReplaceGhsaPointwise(id);
    if !Text.Contains(id, "ghsa") {
      Text.ReplaceAbsent(id, "ghsa", "GHSA");
    }
  }

  /** The link of a CVE record: the advisory page of the lower-cased id. */
  function CveRef(id: string): (r: VulnerabilityRef)
    ensures r.cve == id
    ensures |r.href| == |ADVISORY_PREFIX| + |id| && r.href[..|ADVISORY_PREFIX|] == ADVISORY_PREFIX
  {
    VulnerabilityRef(id, AdvisoryUrl(id))
  }

  /** A CVE record links to the same page `get_vulnerability` reports as its advisory. */
  lemma CveRefLinksAdvisory(id: string)
    ensures CveRef(id).href == AdvisoryUrl(id)
  {
  }

  /** The reference a certification record projects to; records of other kinds have none. */
  function Project(v: VulnerabilityNode): (r: Option<VulnerabilityRef>)
    ensures r.None? <==> v.OtherVulnerability?
    ensures r.Some? ==> r.value.cve == (if v.Osv? then v.osvId else v.cveId)
  {
    match v
    case Osv(id) => Some(OsvRef(id))
    case Cve(id) => Some(CveRef(id))
    case OtherVulnerability => None
  }

  /**
   * Two records project to the same reference exactly when they name the
   * same vulnerability in the same scheme: an OSV link and a CVE link
   * never coincide, so the duplicate check only drops repeats.
   */
  lemma ProjectIdentifies(a: VulnerabilityNode, b: VulnerabilityNode)
    requires !a.OtherVulnerability? && !b.OtherVulnerability?
    ensures Project(a) == Project(b) <==> a == b
  {
    if a.Osv? && b.Cve? {
      assert Project(a).value.href[8] == OSV_PREFIX[8];
      assert Project(b).value.href[8] == ADVISORY_PREFIX[8];
    } else if a.Cve? && b.Osv? {
      assert Project(a).value.href[8] == ADVISORY_PREFIX[8];
      assert Project(b).value.href[8] == OSV_PREFIX[8];
    }
  }

  /** The reference a certification record projects to. */
  function ProjectRecord(c: CertifyVuln): Option<VulnerabilityRef>
  {
    Project(c.vulnerability)
  }

  /** The projections of the records, in order, repeats included. */
  function Projected(certs: seq<CertifyVuln>): seq<VulnerabilityRef>
  {
    Sequences.FilterMap(ProjectRecord, certs)
  }

  /** An OSV record is linked by the OSV rule and a CVE record by the advisory rule. */
  lemma ProjectLinkRules(v: VulnerabilityNode)
    ensures v.Osv? ==> Project(v) == Some(OsvRef(v.osvId))
    ensures v.Cve? ==> Project(v) == Some(CveRef(v.cveId))
  {
  }

  /** A reference is projected exactly when some record projects to it. */
  lemma ProjectedMembership(certs: seq<CertifyVuln>, v: VulnerabilityRef)
    ensures v in Projected(certs) <==> exists i :: 0 <= i < |certs| && ProjectRecord(certs[i]) == Some(v)
  {
    Sequences.FilterMapMembership(ProjectRecord, certs, v);
  }

  /** Taking one more record adds its projection, if it has one. */
  lemma ProjectedGrows(certs: seq<CertifyVuln>, i: nat)
    requires i < |certs|
    ensures ProjectRecord(certs[i]).Some? ==>
              Projected(certs[..i + 1]) == Projected(certs[..i]) + [ProjectRecord(certs[i]).value]
    ensures ProjectRecord(certs[i]).None? ==> Projected(certs[..i + 1]) == Projected(certs[..i])
  {
    assert certs[..i + 1][..i] == certs[..i];
  }

  /** What `get_vulnerabilities` answers for `purl`. */
  function VulnerabilitiesOf(g: Adapter, purl: string): Result<seq<VulnerabilityRef>, AdapterError>
  {
    match g.certifyVuln(purl)
    case Failure(e) => Failure(e)
    case Success(certs) => Success(Sequences.Dedup(Projected(certs)))
  }

  /**
   * The answer to a certification query lists every OSV or CVE record's
   * reference, drops the other records, holds no reference twice, and keeps
   * the order in which references first occur.
   */
  lemma VulnerabilitiesOfCertifications(certs: seq<CertifyVuln>)
    ensures Sequences.NoDuplicates(Sequences.Dedup(Projected(certs)))
    ensures forall v :: v in Sequences.Dedup(Projected(certs)) <==>
              exists i :: 0 <= i < |certs| && ProjectRecord(certs[i]) == Some(v)
    ensures forall i, j :: 0 <= i < j < |Sequences.Dedup(Projected(certs))| ==>
              Sequences.FirstOccursBefore(Projected(certs), Sequences.Dedup(Projected(certs))[i],
                                          Sequences.Dedup(Projected(certs))[j])
  {
    Sequences.DedupNoDuplicates(Projected(certs));
    Sequences.DedupElements(Projected(certs));
    Sequences.DedupFirstOccurrenceOrder(Projected(certs));
    forall v {
      ProjectedMembership(certs, v);
    }
  }

  /**
   * `Guac::get_vulnerabilities`: the certification records for `purl`,
   * projected to references and pushed only when not already present.
   */
  method GetVulnerabilities(g: Adapter, purl: string) returns (r: Result<seq<VulnerabilityRef>, AdapterError>)
    ensures r == VulnerabilitiesOf(g, purl)
  {
    var vulns := g.certifyVuln(purl);
    if vulns.Failure? {
      return Failure(vulns.error);
    }
    var certs := vulns.value;
    var ret: seq<VulnerabilityRef> := [];
    for i := 0 to |certs|
      invariant ret == Sequences.Dedup(Projected(certs[..i]))
    {
      ProjectedGrows(certs, i);
      ProjectLinkRules(certs[i].vulnerability);
      match certs[i].vulnerability {
        case Osv(id) =>
          var vulnRef := VulnerabilityRef(id, OSV_PREFIX + Text.Replace(id, "ghsa", "GHSA"));
          if vulnRef !in ret {
            ret := ret + [vulnRef];
          }
        case Cve(id) =>
          var vulnRef := VulnerabilityRef(id, ADVISORY_PREFIX + Text.ToLower(id));
          if vulnRef !in ret {
            ret := ret + [vulnRef];
          }
        case OtherVulnerability =>
      }
    }
    assert certs[..|certs|] == certs;
    return Success(ret);
  }

  // ---------------------------------------------------------------------
  // Dependency edges

  /** `Guac::get_dependencies`: the dependent packages of `purl`, with no trust flag. */
  method GetDependencies(g: Adapter, ext: Purl.Externals, purl: string)
    returns (r: Result<PackageDependencies, AdapterError>)
    ensures r.Failure? <==> g.dependencies(purl).Failure?
    ensures r.Failure? ==> r.error == g.dependencies(purl).error
    ensures r.Success? ==> FlattenedRefs(ext, Unknown, g.dependencies(purl).value, r.value.refs)
  {
    var deps := g.dependencies(purl);
    if deps.Failure? {
      return Failure(deps.error);
    }
    var ret := Flatten(deps.value, RefMaker(ext, Unknown));
    return Success(PackageDependencies(ret));
  }

  /** `Guac::get_dependants`: the packages that depend on `purl`, with no trust flag. */
  method GetDependants(g: Adapter, ext: Purl.Externals, purl: string)
    returns (r: Result<PackageDependencies, AdapterError>)
    ensures r.Failure? <==> g.dependents(purl).Failure?
    ensures r.Failure? ==> r.error == g.dependents(purl).error
    ensures r.Success? ==> FlattenedRefs(ext, Unknown, g.dependents(purl).value, r.value.refs)
  {
    var deps := g.dependents(purl);
    if deps.Failure? {
      return Failure(deps.error);
    }
    var ret := Flatten(deps.value, RefMaker(ext, Unknown));
    return Success(PackageDependencies(ret));
  }

  // ---------------------------------------------------------------------
  // The whole catalog

  /** The catalog entry of one version, or the error of its vulnerability query. */
  function CatalogEntry(g: Adapter, ext: Purl.Externals, leaf: Leaf): Result<Package, AdapterError>
  {
    match VulnerabilitiesOf(g, leaf.ToPurl())
    case Failure(e) => Failure(e)
    case Success(vulns) =>
      Success(Package(Some(leaf.ToPurl()), Some(Purl.PackageHref(ext, leaf.ToPurl())),
                      Some(leaf.namespace == "redhat"), [], vulns, None))
  }

  function CatalogStep(g: Adapter, ext: Purl.Externals): Leaf -> Result<Package, AdapterError>
  {
    leaf => CatalogEntry(g, ext, leaf)
  }

  /**
   * The catalog succeeds exactly when every version's vulnerability query
   * does; it then has one entry per version in encounter order, trusted by
   * namespace, with no trusted versions and that version's vulnerabilities.
   * Otherwise it carries the error of the first version whose query failed.
   */
  lemma CatalogOutcome(g: Adapter, ext: Purl.Externals, leaves: seq<Leaf>)
    ensures Batch.Traverse(CatalogStep(g, ext), leaves).Success? <==>
              forall i :: 0 <= i < |leaves| ==> VulnerabilitiesOf(g, leaves[i].ToPurl()).Success?
    ensures Batch.Traverse(CatalogStep(g, ext), leaves).Success? ==>
              var ps := Batch.Traverse(CatalogStep(g, ext), leaves).value;
              |ps| == |leaves| &&
              forall i :: 0 <= i < |leaves| ==>
                ps[i].purl == Some(leaves[i].ToPurl()) &&
                ps[i].href == Some(Purl.PackageHref(ext, leaves[i].ToPurl())) &&
                ps[i].trusted == Some(leaves[i].namespace == "redhat") &&
                ps[i].trustedVersions == [] && ps[i].snyk.None? &&
                ps[i].vulnerabilities == VulnerabilitiesOf(g, leaves[i].ToPurl()).value
    ensures Batch.Traverse(CatalogStep(g, ext), leaves).Failure? ==>
              exists i :: 0 <= i < |leaves| &&
                VulnerabilitiesOf(g, leaves[i].ToPurl()).Failure? &&
                Batch.Traverse(CatalogStep(g, ext), leaves).error == VulnerabilitiesOf(g, leaves[i].ToPurl()).error &&
                forall j :: 0 <= j < i ==> VulnerabilitiesOf(g, leaves[j].ToPurl()).Success?
  {
    Batch.TraverseSuccess(CatalogStep(g, ext), leaves);
    if Batch.Traverse(CatalogStep(g, ext), leaves).Failure? {
      Batch.TraverseFirstFailure(CatalogStep(g, ext), leaves);
    }
  }

  /**
   * `Guac::get_all_packages`: every version in the graph with its
   * vulnerabilities; the first failing query aborts the whole call.
   */
  method GetAllPackages(g: Adapter, ext: Purl.Externals) returns (r: Result<seq<Package>, AdapterError>)
    ensures g.allPackages.Failure? ==> r == Failure(g.allPackages.error)
    ensures g.allPackages.Success? ==> r == Batch.Traverse(CatalogStep(g, ext), Leaves(g.allPackages.value))
  {
    if g.allPackages.Failure? {
      return Failure(g.allPackages.error);
    }
    var leaves := Flatten(g.allPackages.value, (leaf: Leaf) => leaf);
    assert leaves == Leaves(g.allPackages.value);
    var all: seq<Package> := [];
    for i := 0 to |leaves|
      invariant Batch.Traverse(CatalogStep(g, ext), leaves[..i]) == Success(all)
    {
      var leaf := leaves[i];
      var purl := leaf.ToPurl();
      Batch.TraverseSnoc(CatalogStep(g, ext), leaves, i);
      var vulns := GetVulnerabilities(g, purl);
      if vulns.Failure? {
        Batch.TraversePrefixFailure(CatalogStep(g, ext), leaves, i + 1);
        return Failure(vulns.error);
      }
      var p := Package(Some(purl), Some(Purl.PackageHref(ext, purl)), Some(leaf.namespace == "redhat"),
                       [], vulns.value, None);
      all := all + [p];
    }
    assert leaves[..|leaves|] == leaves;
    return Success(all);
  }
}
