/**
 * The package endpoints (src/package.rs): the bundled trust table that maps
 * an upstream package URL to its trusted rebuild, the single and batch
 * lookups against it, the dependency queries, and the status code of each
 * API error. These endpoints use their own response types, which have no
 * trust flag; the vulnerability reference, the reserved Snyk slot and the
 * request list are the shapes of `Model`.
 */
module PackageApi {
  import opened Wrappers
  import opened Json
  import Purl
  import opened Graph
  import Model
  import Tables
  import Batch

  datatype PackageRef = PackageRef(purl: string, href: string)

  datatype Package = Package(
    purl: Option<string>,
    href: Option<string>,
    trustedVersions: seq<PackageRef>,
    vulnerabilities: seq<Model.VulnerabilityRef>,
    snyk: Option<Model.SnykData>)

  datatype PackageDependencies = PackageDependencies(refs: seq<PackageRef>)

  datatype PackageDependants = PackageDependants(refs: seq<PackageRef>)

  /** The query string of `GET /api/package`. */
  datatype PackageQuery = PackageQuery(purl: Option<string>)

  datatype ApiError =
    | MissingQueryArgument
    | PackageNotFound(purl: string)
    | InvalidPackageUrl(purl: string)
    | InternalError

  /** The HTTP status each error is answered with. */
  function StatusCode(e: ApiError): (code: int)
    ensures code == 400 <==> e.MissingQueryArgument? || e.InvalidPackageUrl?
    ensures code == 404 <==> e.PackageNotFound?
    ensures code == 500 <==> e.InternalError?
  {
    match e
    case MissingQueryArgument => 400
    case PackageNotFound(_) => 404
    case InvalidPackageUrl(_) => 400
    case InternalError => 500
  }

  // ---------------------------------------------------------------------
  // The trust table

  /** The upstream-to-trusted table and the graph client; fixed once loaded. */
  datatype TrustedContent = TrustedContent(data: map<string, string>, client: Adapter)

  /** The `(upstream, trusted)` pair of one table entry, when both members are strings. */
  function EntryPair(entry: Json): (r: Option<(string, string)>)
    ensures r.Some? <==>
              entry.JObject? && "upstream" in entry.fields && "trusted" in entry.fields &&
              entry.fields["upstream"].JString? && entry.fields["trusted"].JString?
    ensures r.Some? ==> r.value == (entry.fields["upstream"].s, entry.fields["trusted"].s)
  {
    var upstream := AsStr(Index(entry, "upstream"));
    var trusted := AsStr(Index(entry, "trusted"));
    if upstream.Some? && trusted.Some? then Some((upstream.value, trusted.value)) else None
  }

  predicate WellFormedEntries(items: seq<Json>)
  {
    forall i :: 0 <= i < |items| ==> EntryPair(items[i]).Some?
  }

  /** The pairs of a well-formed entry list, in order. */
  function TrustPairs(items: seq<Json>): (r: seq<(string, string)>)
    requires WellFormedEntries(items)
    ensures |r| == |items|
    ensures forall i :: 0 <= i < |items| ==> r[i] == EntryPair(items[i]).value
  {
    if items == [] then []
    else TrustPairs(items[..|items| - 1]) + [EntryPair(items[|items| - 1]).value]
  }

  /** The pairs of one more entry. */
  lemma TrustPairsSnoc(items: seq<Json>, i: nat)
    requires i < |items| && WellFormedEntries(items[..i + 1])
    ensures WellFormedEntries(items[..i])
    ensures TrustPairs(items[..i + 1]) == TrustPairs(items[..i]) + [EntryPair(items[i]).value]
  {
    assert items[..i + 1][..i] == items[..i];
  }

  /**
   * The loop of `TrustedContent::new` over the entries: every pair is
   * inserted in order. `None` stands for the panic on an entry whose
   * `upstream` or `trusted` is not a string.
   */
  method InsertEntries(items: seq<Json>) returns (r: Option<map<string, string>>)
    ensures r.Some? <==> WellFormedEntries(items)
    ensures r.Some? ==> WellFormedEntries(items) && r.value == Tables.FromPairs(TrustPairs(items))
  {
    var data: map<string, string> := map[];
    for i := 0 to |items|
      invariant WellFormedEntries(items[..i])
      invariant data == Tables.FromPairs(TrustPairs(items[..i]))
    {
      var upstream := AsStr(Index(items[i], "upstream"));
      if upstream.None? {
        assert EntryPair(items[i]).None?;
        return None;
      }
      var tc := AsStr(Index(items[i], "trusted"));
      if tc.None? {
        assert EntryPair(items[i]).None?;
        return None;
      }
      assert EntryPair(items[i]) == Some((upstream.value, tc.value));
      TrustPairsSnoc(items, i);
      Tables.FromPairsSnoc(TrustPairs(items[..i]), upstream.value, tc.value);
      data := data[upstream.value := tc.value];
    }
    assert items[..|items|] == items;
    return Some(data);
  }

  /**
   * `TrustedContent::new`: parses the bundled table and loads it. `None`
   * stands for the panic: the text does not parse, or an entry is
   * malformed. A document that is not an array gives an empty table.
   */
  method New(trustedGav: string, parseJson: string -> Option<Json>, client: Adapter)
    returns (r: Option<TrustedContent>)
    ensures parseJson(trustedGav).None? ==> r.None?
    ensures parseJson(trustedGav).Some? && !parseJson(trustedGav).value.JArray? ==>
              r == Some(TrustedContent(map[], client))
    ensures parseJson(trustedGav).Some? && parseJson(trustedGav).value.JArray? ==>
              (r.Some? <==> WellFormedEntries(parseJson(trustedGav).value.items))
    ensures parseJson(trustedGav).Some? && parseJson(trustedGav).value.JArray? && r.Some? ==>
              WellFormedEntries(parseJson(trustedGav).value.items) &&
              r.value == TrustedContent(Tables.FromPairs(TrustPairs(parseJson(trustedGav).value.items)), client)
  {
    var input := parseJson(trustedGav);
    if input.None? {
      return None;
    }
    if !input.value.JArray? {
      return Some(TrustedContent(map[], client));
    }
    var data := InsertEntries(input.value.items);
    if data.None? {
      return None;
    }
    return Some(TrustedContent(data.value, client));
  }

  /** The loaded table is keyed by exactly the upstream URLs of the entries. */
  lemma TrustTableKeys(items: seq<Json>)
    requires WellFormedEntries(items)
    ensures Tables.FromPairs(TrustPairs(items)).Keys ==
              set i | 0 <= i < |items| :: EntryPair(items[i]).value.0
  {
    Tables.FromPairsKeys(TrustPairs(items));
  }

  /** An upstream URL maps to the trusted URL of the last entry that names it. */
  lemma TrustTableLastWins(items: seq<Json>, i: nat)
    requires WellFormedEntries(items)
    requires i < |items|
    requires forall j :: i < j < |items| ==> EntryPair(items[j]).value.0 != EntryPair(items[i]).value.0
    ensures EntryPair(items[i]).value.0 in Tables.FromPairs(TrustPairs(items))
    ensures Tables.FromPairs(TrustPairs(items))[EntryPair(items[i]).value.0] == EntryPair(items[i]).value.1
  {
    Tables.FromPairsLastWins(TrustPairs(items), i);
  }

  // ---------------------------------------------------------------------
  // Looking a package up

  /**
   * `get_trusted` unwraps the namespace and the version of a URL that
   * parses; the caller must not hand it one that lacks either.
   */
  predicate Unwrappable(ext: Purl.Externals, s: string)
  {
    ext.parse(s).None? || Purl.Keyable(ext.parse(s).value)
  }

  /**
   * `TrustedContent::get_trusted`: the package view of `s`. It fails, with
   * the input as given, exactly when `s` does not parse. Otherwise it names
   * the printed URL, links to it, and lists the trusted rebuild when the
   * table has the URL's exact key.
   */
  function GetTrusted(tc: TrustedContent, ext: Purl.Externals, s: string): (r: Result<Package, ApiError>)
    requires Unwrappable(ext, s)
    ensures r.Failure? <==> ext.parse(s).None?
    ensures r.Failure? ==> r.error == InvalidPackageUrl(s)
    ensures r.Success? ==>
              var p := ext.parse(s).value;
              r.value.purl == Some(ext.render(p)) &&
              r.value.href == Some(Purl.PackageHref(ext, ext.render(p))) &&
              r.value.vulnerabilities == [] && r.value.snyk.None?
    ensures r.Success? ==>
              var key := Purl.ExactKeyOf(ext.parse(s).value);
              (|r.value.trustedVersions| == 1 <==> key in tc.data) &&
              (key !in tc.data ==> r.value.trustedVersions == []) &&
              (key in tc.data ==>
                 r.value.trustedVersions[0] == PackageRef(tc.data[key], Purl.PackageHref(ext, tc.data[key])))
  {
    match ext.parse(s)
    case None => Failure(InvalidPackageUrl(s))
    case Some(p) =>
      var key := Purl.ExactKey(p.ty, p.namespace.value, p.name, p.version.value);
      var trustedVersions :=
        if key in tc.data then [PackageRef(tc.data[key], Purl.PackageHref(ext, tc.data[key]))] else [];
      Success(Package(Some(ext.render(p)), Some(Purl.PackageHref(ext, ext.render(p))), trustedVersions, [], None))
  }

  /**
   * The table is consulted by the exact key alone: two inputs whose URLs
   * differ only in qualifiers or subpath find the same trusted rebuilds.
   */
  lemma GetTrustedIgnoresQualifiers(tc: TrustedContent, ext: Purl.Externals, s: string, t: string)
    requires Unwrappable(ext, s) && Unwrappable(ext, t)
    requires ext.parse(s).Some? && ext.parse(t).Some?
    requires ext.parse(s).value.(qualifiers := ext.parse(t).value.qualifiers,
                                 subpath := ext.parse(t).value.subpath) == ext.parse(t).value
    ensures GetTrusted(tc, ext, s).value.trustedVersions == GetTrusted(tc, ext, t).value.trustedVersions
  {
    Purl.ExactKeyIgnoresQualifiers(ext.parse(s).value, ext.parse(t).value);
  }

  /**
   * `GET /api/package`: the package view of the `purl` argument. Every
   * error it can give is a bad request.
   */
  function GetPackage(tc: TrustedContent, ext: Purl.Externals, query: PackageQuery): (r: Result<Package, ApiError>)
    requires query.purl.Some? ==> Unwrappable(ext, query.purl.value)
    ensures query.purl.None? ==> r == Failure(MissingQueryArgument)
    ensures query.purl.Some? ==> r == GetTrusted(tc, ext, query.purl.value)
    ensures r.Failure? ==> StatusCode(r.error) == 400
  {
    match query.purl
    case Some(purl) => GetTrusted(tc, ext, purl)
    case None => Failure(MissingQueryArgument)
  }

  /**
   * `POST /api/package`: one slot per requested URL, in order; a URL that
   * does not parse leaves its slot empty instead of failing the request.
   */
  method QueryPackage(tc: TrustedContent, ext: Purl.Externals, body: Model.PackageList)
    returns (packages: seq<Option<Package>>)
    requires forall i :: 0 <= i < |body.items| ==> Unwrappable(ext, body.items[i])
    ensures |packages| == |body.items|
    ensures forall i :: 0 <= i < |packages| ==> (packages[i].None? <==> ext.parse(body.items[i]).None?)
    ensures forall i :: 0 <= i < |packages| && packages[i].Some? ==>
              packages[i].value == GetTrusted(tc, ext, body.items[i]).value
  {
    var list := body.List();
    packages := [];
    for i := 0 to |list|
      invariant |packages| == i
      invariant forall k :: 0 <= k < i ==> (packages[k].None? <==> ext.parse(list[k]).None?)
      invariant forall k :: 0 <= k < i && packages[k].Some? ==>
                  packages[k].value == GetTrusted(tc, ext, list[k]).value
    {
      var p := GetTrusted(tc, ext, list[i]);
      if p.Success? {
        packages := packages + [Some(p.value)];
      } else {
        packages := packages + [None];
      }
    }
  }

  // ---------------------------------------------------------------------
  // Dependencies

  /** The reference emitted for one dependent version. */
  function RefOf(ext: Purl.Externals, leaf: Leaf): (r: PackageRef)
    ensures r.purl == Purl.ExactKey(leaf.ty, leaf.namespace, leaf.name, leaf.version)
    ensures r.href == Purl.PackageHref(ext, r.purl)
  {
    PackageRef(leaf.ToPurl(), Purl.PackageHref(ext, leaf.ToPurl()))
  }

  function RefMaker(ext: Purl.Externals): Leaf -> PackageRef
  {
    leaf => RefOf(ext, leaf)
  }

  /**
   * What `get_dependencies` answers for `purl`: one reference per version
   * of the dependent packages, in encounter order, or an internal error
   * when the graph query fails.
   */
  ghost function DependenciesOf(tc: TrustedContent, ext: Purl.Externals, purl: string)
    : (r: Result<PackageDependencies, ApiError>)
    ensures r.Failure? <==> tc.client.dependencies(purl).Failure?
    ensures r.Failure? ==> r.error == InternalError
    ensures r.Success? ==>
              var leaves := Leaves(tc.client.dependencies(purl).value);
              |r.value.refs| == |leaves| &&
              forall i :: 0 <= i < |leaves| ==> r.value.refs[i] == RefOf(ext, leaves[i])
  {
    match tc.client.dependencies(purl)
    case Failure(_) => Failure(InternalError)
    case Success(trees) =>
      MapLeavesAt(RefMaker(ext), Leaves(trees));
      Success(PackageDependencies(MapLeaves(RefMaker(ext), Leaves(trees))))
  }

  /** `TrustedContent::get_dependencies`. */
  method GetDependencies(tc: TrustedContent, ext: Purl.Externals, purl: string)
    returns (r: Result<PackageDependencies, ApiError>)
    ensures r == DependenciesOf(tc, ext, purl)
  {
    var deps := tc.client.dependencies(purl);
    if deps.Failure? {
      return Failure(InternalError);
    }
    var ret := Flatten(deps.value, RefMaker(ext));
    MapLeavesAt(RefMaker(ext), Leaves(deps.value));
    assert ret == MapLeaves(RefMaker(ext), Leaves(deps.value));
    return Success(PackageDependencies(ret));
  }

  /** One item of the dependency batch: a URL that does not parse is rejected as given. */
  ghost function DependenciesStep(tc: TrustedContent, ext: Purl.Externals): string -> Result<PackageDependencies, ApiError>
  {
    s => if ext.parse(s).None? then Failure(InvalidPackageUrl(s)) else DependenciesOf(tc, ext, s)
  }

  /**
   * `POST /api/package/dependencies`: the dependencies of every requested
   * URL, in order; the first URL that does not parse, or whose graph query
   * fails, aborts the whole request.
   */
  method QueryPackageDependencies(tc: TrustedContent, ext: Purl.Externals, body: Model.PackageList)
    returns (r: Result<seq<PackageDependencies>, ApiError>)
    ensures r == Batch.Traverse(DependenciesStep(tc, ext), body.items)
  {
    var list := body.List();
    assert list == body.items;
    var dependencies: seq<PackageDependencies> := [];
    for i := 0 to |list|
      invariant Batch.Traverse(DependenciesStep(tc, ext), list[..i]) == Success(dependencies)
    {
      var purl := list[i];
      Batch.TraverseSnoc(DependenciesStep(tc, ext), list, i);
      if ext.parse(purl).Some? {
        var lst := GetDependencies(tc, ext, purl);
        if lst.Failure? {
          Batch.TraversePrefixFailure(DependenciesStep(tc, ext), list, i + 1);
          return Failure(lst.error);
        }
        dependencies := dependencies + [lst.value];
      } else {
        Batch.TraversePrefixFailure(DependenciesStep(tc, ext), list, i + 1);
        return Failure(InvalidPackageUrl(purl));
      }
    }
    assert list[..|list|] == list;
    return Success(dependencies);
  }

  /**
   * The dependency batch succeeds exactly when every URL parses and its
   * graph query succeeds, and then has one entry per URL in order; when it
   * fails, it reports the first bad URL as invalid, or an internal error
   * when that URL parsed but its query failed.
   */
  lemma DependenciesBatchOutcome(tc: TrustedContent, ext: Purl.Externals, items: seq<string>)
    ensures Batch.Traverse(DependenciesStep(tc, ext), items).Success? <==>
              forall i :: 0 <= i < |items| ==>
                ext.parse(items[i]).Some? && tc.client.dependencies(items[i]).Success?
    ensures Batch.Traverse(DependenciesStep(tc, ext), items).Success? ==>
              |Batch.Traverse(DependenciesStep(tc, ext), items).value| == |items| &&
              forall i :: 0 <= i < |items| ==>
                Batch.Traverse(DependenciesStep(tc, ext), items).value[i] == DependenciesOf(tc, ext, items[i]).value
    ensures Batch.Traverse(DependenciesStep(tc, ext), items).Failure? ==>
              exists i :: 0 <= i < |items| &&
                (forall j :: 0 <= j < i ==> ext.parse(items[j]).Some? && tc.client.dependencies(items[j]).Success?) &&
                (ext.parse(items[i]).None? || tc.client.dependencies(items[i]).Failure?) &&
                Batch.Traverse(DependenciesStep(tc, ext), items).error ==
                  if ext.parse(items[i]).None? then InvalidPackageUrl(items[i]) else InternalError
  {
    var f := DependenciesStep(tc, ext);
    Batch.TraverseSuccess(f, items);
    if Batch.Traverse(f, items).Failure? {
      Batch.TraverseFirstFailure(f, items);
      var i :| 0 <= i < |items| && f(items[i]).Failure? && Batch.Traverse(f, items).error == f(items[i]).error &&
               forall j :: 0 <= j < i ==> f(items[j]).Success?;
      assert forall j :: 0 <= j < i ==> ext.parse(items[j]).Some? && tc.client.dependencies(items[j]).Success? by {
        forall j | 0 <= j < i ensures ext.parse(items[j]).Some? && tc.client.dependencies(items[j]).Success? {
          assert f(items[j]).Success?;
        }
      }
    }
  }

  /**
   * `POST /api/package/dependants`: rejects the first URL that does not
   * parse; when all parse, the answer is an empty list.
   */
  method QueryPackageDependants(ext: Purl.Externals, body: Model.PackageList)
    returns (r: Result<seq<PackageDependants>, ApiError>)
    ensures r.Success? <==> forall i :: 0 <= i < |body.items| ==> ext.parse(body.items[i]).Some?
    ensures r.Success? ==> r.value == []
    ensures r.Failure? ==>
              exists i :: 0 <= i < |body.items| && ext.parse(body.items[i]).None? &&
                r.error == InvalidPackageUrl(body.items[i]) &&
                forall j :: 0 <= j < i ==> ext.parse(body.items[j]).Some?
  {
    var list := body.List();
    var dependants: seq<PackageDependants> := [];
    for i := 0 to |list|
      invariant forall j :: 0 <= j < i ==> ext.parse(list[j]).Some?
    {
      if ext.parse(list[i]).None? {
        return Failure(InvalidPackageUrl(list[i]));
      }
    }
    return Success(dependants);
  }
}
