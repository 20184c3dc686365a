# trust-api: identity and trust resolution, modelled in Dafny

The trust API answers questions about software packages named by package
URLs (purls). It draws on two sources:

- a bundled trust table, which maps an upstream package URL to the
  organisation's trusted rebuild of it;
- the GUAC graph service, which knows package versions, dependency edges and
  vulnerability certifications.

This project models the logic between the HTTP layer and those two sources.

- **Trust table and package endpoints** (`PackageApi`, from src/package.rs):
  - loading the table;
  - looking a purl up by its exact key `pkg:ty/ns/name@version`;
  - the single lookup and the three batch endpoints. The plain batch turns a
    bad item into an empty slot. The dependency and dependant batches stop at
    the first bad item;
  - the status code of each API error.
- **Graph queries** (`Guac`, from src/guac.rs):
  - every answer from the graph is a forest of package trees (type, then
    namespaces, then names, then versions). It is flattened into one
    reference per version, in encounter order (`Graph`);
  - the trust flag is set from the namespace for package, vulnerability and
    catalog answers. It is left unset for dependency edges;
  - vulnerability certifications are projected to references with a link
    rule per scheme (OSV or CVE). A reference is pushed only when it is not
    already present (`Sequences.Dedup`);
  - a vulnerability's summary comes from the advisory service when that
    answer has the expected shape. Otherwise it is `"Unavailable"`;
  - the whole catalog is built by running one vulnerability query per
    version. The first failing query aborts the call (`Batch.Traverse`).
- **Response types** (`Model`, from trust-api-model/src/pkg.rs):
  - derived structural equality;
  - serde's field-presence rules. Absent optional fields and empty lists are
    omitted, and missing fields read back as `None` or empty;
  - serde's derived readers. A struct is read from an object by member name,
    ignoring unknown members, or from an array by position in declaration
    order. An array may leave off trailing fields that have defaults, and may
    not be longer than the struct. `Model.Slot` is what a reader sees for
    one field: the member or the element, if there is one;
  - the JSON round trip.
- **SBOM registry** (`Sbom`, from src/sbom.rs): built from the constant
  registry and looked up by exact string match.

External collaborators are parameters, so the model fixes what is asked and
what is done with the answer:

- **`Purl.Externals`**: `PackageUrl::from_str`, `PackageUrl::to_string` and
  `urlencoding::encode`.
- **`Graph.Adapter`**: the graph client's queries, each a function of the
  query string.
- **The advisory fetch**: a function from URL to `Guac.Fetch`.
- **The JSON parser**: a function from text to `Option<Json>`.

A panic while loading (`TrustedContent::new`, `SbomRegistry::new`) is a
`None` result. A panic at request time comes from an `unwrap` of a parsed
URL's namespace or version. It is excluded by a `requires` clause
(`PackageApi.Unwrappable`, and `purl.namespace.Some?` for `get_packages`).

src/package.rs defines its own `PackageRef` without a trust flag, while
src/guac.rs uses the types of trust-api-model/src/pkg.rs, so:

- src/package.rs is modelled with its own `PackageRef` and `Package`, which
  have no trust flag;
- src/guac.rs is modelled with the types of trust-api-model/src/pkg.rs.

No core operation produces `PackageNotFound`. `Vulnerability` has the four
fields of src/guac.rs:109-118: id, summary, advisory link and affected
packages. The dependants batch of src/package.rs:225-236 only validates its
input URLs, and the lookups of src/package.rs never consult the graph.

## Model

| member | source | states |
|---|---|---|
| `PackageApi.StatusCode` | src/package.rs:315-322 | 400 exactly for a missing argument or an invalid URL, 404 exactly for not found, 500 exactly for an internal error |
| `PackageApi.EntryPair` | src/package.rs:40-41 | a table entry yields a pair exactly when it is an object whose `upstream` and `trusted` members are both strings, and the pair is those two strings |
| `PackageApi.TrustPairs` | src/package.rs:39-43 | the pairs of a well-formed entry list, one per entry and in entry order |
| `PackageApi.InsertEntries` | src/package.rs:38-44 | the insert loop succeeds exactly when every entry is well formed, and then the table is the pairs inserted in order |
| `PackageApi.New` | src/package.rs:35-48 | loading fails (the panic) when the text does not parse or an entry is malformed; a non-array document gives an empty table; otherwise the table holds every pair, inserted in order |
| `PackageApi.TrustTableKeys` | src/package.rs:39-43 | the loaded table's keys are exactly the entries' upstream URLs |
| `PackageApi.TrustTableLastWins` | src/package.rs:42 | an upstream URL maps to the trusted URL of the last entry naming it, so a later duplicate overwrites an earlier one |
| `PackageApi.GetTrusted` | src/package.rs:51-83 | fails with `InvalidPackageUrl` of the input as given exactly when parsing fails; otherwise purl and href are set, vulnerabilities are empty and snyk is `None`; trusted versions has one entry exactly when the exact key `pkg:ty/ns/name@version` is in the table, and that entry is the mapped value with its encoded link; otherwise it is empty |
| `PackageApi.GetTrustedIgnoresQualifiers` | src/package.rs:53-61 | two inputs whose URLs differ only in qualifiers or subpath find the same trusted versions |
| `PackageApi.GetPackage` | src/package.rs:136-146 | no `purl` argument gives `MissingQueryArgument`; otherwise the answer is the lookup of the argument; every error it gives has status 400 |
| `PackageApi.QueryPackage` | src/package.rs:176-189 | for inputs whose parsed URLs have a namespace and a version, never fails (a parsed URL without either panics at src/package.rs:56,58, e.g. `pkg:npm/lodash@4.17.21`); one slot per input in order; a slot is empty exactly when its URL does not parse, and is otherwise the lookup of that URL |
| `PackageApi.RefOf` | src/package.rs:98-105 | a dependency reference names `pkg:t/ns/name@v` and links to its encoding |
| `PackageApi.DependenciesOf` | src/package.rs:85-112 | a failing graph query is an internal error; otherwise one reference per version of the dependent packages, in encounter order |
| `PackageApi.GetDependencies` | src/package.rs:85-112 | the triple loop computes exactly `DependenciesOf` |
| `PackageApi.QueryPackageDependencies` | src/package.rs:199-215 | the batch loop computes the first-failure traversal of its inputs: an unparseable URL is rejected as given, and a failing query is an internal error |
| `PackageApi.DependenciesBatchOutcome` | src/package.rs:203-214 | the batch succeeds exactly when every URL parses and its query succeeds, and then has one entry per input in order; a failure reports the first bad input, every earlier input having parsed and been answered; the error is an invalid URL if that input did not parse, else an internal error |
| `PackageApi.QueryPackageDependants` | src/package.rs:225-236 | succeeds with an empty list exactly when every URL parses; otherwise rejects the first unparseable URL as given |
| `Guac.RefOf` | src/guac.rs:45-53 | a reference names `pkg:t/ns/name@v` and links to its encoding; its trust flag is `Some(namespace == "redhat")` under the namespace rule and `None` otherwise |
| `Guac.FlattenedRefsReport` | src/guac.rs:40-58 | flattened references number the versions in the answer; every reported version has its reference, and every reference is that of a reported version |
| `Guac.GetPackages` | src/guac.rs:22-60 | queries the version-stripped key `pkg:ty/ns/name`; fails exactly when that query fails; otherwise one namespace-trusted reference per version leaf, in order |
| `Guac.HydraUrl` | src/guac.rs:93 | the hydra link is the fixed prefix, the id with each character upper-cased on its own, then `.json` |
| `Guac.FirstDetail` | src/guac.rs:96-107 | a summary is available exactly when the fetch answered 200 with JSON whose `details` is an array starting with a string, and it is that string |
| `Guac.AdvisoryUrl` | src/guac.rs:113-116 | the advisory link is the fixed prefix followed by the id with each character lower-cased on its own |
| `Guac.GetVulnerability` | src/guac.rs:62-119 | fails only when the graph query fails; otherwise keeps the id as given, links the lower-cased advisory page, lists one namespace-trusted reference per affected version, and takes the summary from the upper-cased advisory fetch or falls back to `"Unavailable"` |
| `Guac.AdvisoryUrlIgnoresCase` | src/guac.rs:113-116 | ids differing only in ASCII letter case share one advisory link |
| `Guac.OsvRef` | src/guac.rs:134-143 | keeps the id; the link is the OSV page prefix followed by a string of the id's length |
| `Guac.OsvRefLinkRule` | src/guac.rs:134-143 | after the OSV prefix, exactly the characters of the id inside an occurrence of `ghsa` are upper-cased and all others are kept; an id without `ghsa` is linked unchanged; the linked id holds no lower-case `ghsa` |
| `Guac.CveRef` | src/guac.rs:149-156 | keeps the id; the link is the advisory prefix followed by the id with the same length |
| `Guac.CveRefLinksAdvisory` | src/guac.rs:149-156 | the link of a CVE record is the advisory that `get_vulnerability` reports for the same id |
| `Guac.Project` | src/guac.rs:132-163 | OSV and CVE records project to a reference carrying their id; records of other kinds are dropped |
| `Guac.ProjectLinkRules` | src/guac.rs:132-163 | an OSV record projects to its OSV reference and a CVE record to its advisory reference |
| `Guac.ProjectIdentifies` | src/guac.rs:144-159 | two OSV or CVE records project to equal references exactly when they are the same record, so an OSV link never collides with a CVE link |
| `Guac.ProjectedMembership` | src/guac.rs:132-163 | a reference is projected exactly when some record projects to it |
| `Guac.VulnerabilitiesOfCertifications` | src/guac.rs:131-165 | the answer holds no reference twice, holds exactly the references of the OSV and CVE records, and keeps them in the order of first occurrence |
| `Guac.GetVulnerabilities` | src/guac.rs:121-166 | the contains-then-push loop computes exactly the de-duplicated projection of the records, or the query's error |
| `Guac.GetDependencies` | src/guac.rs:168-197 | fails exactly when the query fails; otherwise one reference per dependent version, in order, with no trust flag |
| `Guac.GetDependants` | src/guac.rs:232-261 | fails exactly when the query fails; otherwise one reference per depending version, in order, with no trust flag |
| `Guac.CatalogOutcome` | src/guac.rs:199-230 | the catalog succeeds exactly when every version's vulnerability query does; then one entry per version in order, with purl, link and namespace trust flag, no trusted versions, no Snyk data and that version's vulnerabilities; otherwise the error of the first failing version |
| `Guac.GetAllPackages` | src/guac.rs:199-230 | fails with the graph's error when the catalog query fails; otherwise computes the first-failure traversal of the versions |
| `Graph.LeavesMembership` | src/guac.rs:40-58 | a version is among the flattened leaves exactly when the answer reports it under its type, namespace and name |
| `Graph.LeafCount` | src/guac.rs:40-58 | the flattened list has one leaf per version node |
| `Graph.FlattenNamespace` | src/guac.rs:43-56 | the name and version loops append exactly the values of the namespace's leaves, in order |
| `Graph.Flatten` | src/guac.rs:40-58 | the nested loops produce one value per leaf, in encounter order |
| `Sequences.DedupElements` | src/guac.rs:145-147 | de-duplication keeps exactly the elements of its input |
| `Sequences.DedupNoDuplicates` | src/guac.rs:144-147 | de-duplication leaves no element twice |
| `Sequences.DedupFirstOccurrenceOrder` | src/guac.rs:131-165 | de-duplication lists elements in the order of their first occurrence |
| `Sequences.DedupOfDistinct` | src/guac.rs:144-147 | a list without repeats passes unchanged |
| `Batch.TraverseSuccess` | src/package.rs:204-214 | a loop that returns at the first error succeeds exactly when every step does, and then holds every step's value in order |
| `Batch.TraverseFirstFailure` | src/guac.rs:212 | such a loop that fails reports the error of its first failing step |
| `Model.PackageList.List` | trust-api-model/src/pkg.rs:72-76 | returns the wrapped list unchanged |
| `Model.VulnerabilityRefEquality` | trust-api-model/src/pkg.rs:36-44 | two vulnerability references are equal exactly when both id and link are equal |
| `Model.PackageRefEquality` | trust-api-model/src/pkg.rs:46-57 | two package references are equal exactly when purl, link and trust flag are all equal |
| `Model.PackageRefToJson` | trust-api-model/src/pkg.rs:52-57 | a package reference writes purl, href and, when set, `trusted`, each with its value, and no other key |
| `Model.VulnerabilityRefToJson` | trust-api-model/src/pkg.rs:41-44 | a vulnerability reference writes exactly `cve` and `href`, with their values |
| `Model.PackageRefsToJson` | trust-api-model/src/pkg.rs:29 | a list of package references is written element by element, in order |
| `Model.VulnerabilityRefsToJson` | trust-api-model/src/pkg.rs:31 | a list of vulnerability references is written element by element, in order |
| `Model.PackageMembersAt` | trust-api-model/src/pkg.rs:20-33 | a member of the package object is present exactly when its field's value is, and holds that value |
| `Model.PackageToJson` | trust-api-model/src/pkg.rs:4-34 | a package is written as an object whose keys are among its six serialised names |
| `Model.VulnerabilityRefFromJson` | trust-api-model/src/pkg.rs:36-44 | reads exactly an object, or an array of at most two elements, whose `cve` and `href` slots are strings, and gives those strings |
| `Model.PackageRefFromJson` | trust-api-model/src/pkg.rs:46-57 | reads exactly an object, or an array of at most three elements, whose `purl` and `href` slots are strings and whose `trusted` slot is missing, null or a boolean; gives those strings, and `None` for a missing or null flag |
| `Model.PackageRefsFromJson` | trust-api-model/src/pkg.rs:29 | a list reads back exactly when every element does, element by element |
| `Model.VulnerabilityRefsFromJson` | trust-api-model/src/pkg.rs:31 | a list reads back exactly when every element does, element by element |
| `Model.PackageFromJson` | trust-api-model/src/pkg.rs:4-34 | reads exactly an object, or an array of at most six elements, whose purl and href slots are missing, null or strings, trusted slot missing, null or a boolean, list slots missing or arrays whose every element reads, and snyk slot missing or null; then a missing or null field is `None` or empty, the others hold their values, and Snyk data is `None` |
| `Model.ArrayFormReads` | trust-api-model/src/pkg.rs:4-57 | `["CVE-1","/api/vulnerability/CVE-1"]`, `["p","h"]`, `["p","h",true]` and `[]` read as the reference, the references and the empty package; a required element left off or an extra element is refused |
| `Model.NullAndUnknownMembers` | trust-api-model/src/pkg.rs:20-33 | an explicit `null` purl reads as `None` and an unknown member is ignored; a `null` list and non-null Snyk data are refused |
| `Model.OptionalFieldPresence` | trust-api-model/src/pkg.rs:21-33 | purl, href, trusted and snyk appear in the object exactly when they are `Some`, with their values, present Snyk data being written as null |
| `Model.ListFieldPresence` | trust-api-model/src/pkg.rs:27-31 | trusted versions and vulnerabilities appear exactly when non-empty, as arrays of their references, under `trustedVersions` and never `trusted_versions` |
| `Model.VulnerabilityRefRoundTrip` | trust-api-model/src/pkg.rs:41-44 | a vulnerability reference reads back as itself |
| `Model.PackageRefRoundTrip` | trust-api-model/src/pkg.rs:52-57 | a package reference reads back as itself, the absent trust flag included |
| `Model.PackageRefsRoundTrip` | trust-api-model/src/pkg.rs:29 | a list of package references reads back as itself |
| `Model.VulnerabilityRefsRoundTrip` | trust-api-model/src/pkg.rs:31 | a list of vulnerability references reads back as itself |
| `Model.ScalarFieldsRoundTrip` | trust-api-model/src/pkg.rs:21-26 | each optional field reads back as written, with snyk always read back as `None` |
| `Model.ListFieldsRoundTrip` | trust-api-model/src/pkg.rs:27-31 | each list field reads back as written, an omitted empty list included |
| `Model.PackageRoundTrip` | trust-api-model/src/pkg.rs:20-34 | a package reads back as itself, except that present Snyk data is read back as `None` |
| `Model.EmptyObjectIsNotFoundShape` | trust-api-model/src/pkg.rs:20-34 | an empty object reads as the package with every field absent or empty |
| `Sbom.Registry` | src/sbom.rs:3-12 | the registry holds exactly two entries with distinct URLs, the Java example and the UBI 9 image, each with its bundled document |
| `Sbom.Load` | src/sbom.rs:23-25 | the insert loop succeeds exactly when every document parses, and then the map is the parsed entries inserted in order |
| `Sbom.New` | src/sbom.rs:20-28 | fails (the panic) exactly when a bundled document does not parse; otherwise the keys are exactly the two registered URLs, each with its parsed document |
| `Sbom.Lookup` | src/sbom.rs:30-32 | finds a document exactly when the URL is a key, and then returns the stored document |
| `Sbom.LookupIsExact` | src/sbom.rs:30-32 | lookup does no normalisation: the registered Java example is found, and the same URL without its `?type=jar` qualifier is not |
| `Purl.ExactKeyExtendsVersionless` | src/guac.rs:27-48 | the exact key is the version-stripped key followed by `@version` |
| `Purl.ExactKeyIgnoresQualifiers` | src/package.rs:53-59 | qualifiers and subpath play no part in the exact key |
| `Text.ToLower` | src/guac.rs:115 | lower-casing keeps the length and maps each character on its own |
| `Text.ToAsciiUpper` | src/guac.rs:93 | upper-casing keeps the length and maps each ASCII letter on its own |
| `Text.Replace` | src/guac.rs:141 | replacing a pattern by one of the same length keeps the length |
| `Text.ReplaceAbsent` | src/guac.rs:141 | a string in which the pattern does not occur is left unchanged |
| `Text.ReplaceGhsaPointwise` | src/guac.rs:141 | replacing `ghsa` by `GHSA` upper-cases exactly the characters inside an occurrence of `ghsa` and keeps every other character |
| `Text.UpperCasedNoGhsa` | src/guac.rs:141 | a string upper-cased that way holds no `ghsa` at any position |
| `Text.ReplaceGhsaLeavesNone` | src/guac.rs:141 | after replacing `ghsa` by `GHSA` no `ghsa` is left, including across a replaced boundary |
| `Tables.FromPairsKeys` | src/package.rs:39-43 | a map filled by inserting pairs has exactly the pairs' keys |
| `Tables.FromPairsLastWins` | src/package.rs:42 | each key maps to the value of its last pair |
| `Json.Index` | src/package.rs:40-41 | `value[key]` is the member when the value is an object holding the key, and null otherwise |
| `Json.Get` | src/guac.rs:100 | `value.get(key)` is present exactly when the value is an object holding the key |
| `Json.AsStr` | src/package.rs:40-41 | `as_str` is present exactly for a string |

## Left out

- HTTP routing, actix extractors and response bodies, the OpenAPI/utoipa
  schemas, logging, and src/server.rs and src/main.rs. The endpoints return
  their values directly, in place of `HttpResponse`.
- Async execution. Each adapter query and the advisory fetch are modelled as
  values.
- The GraphQL wire protocol of the graph client. Its answers are the
  functions of `Graph.Adapter`.
- `packageurl` parsing and printing, and `urlencoding::encode`. These are the
  abstract functions of `Purl.Externals`.
- The JSON text parser. The bundled trust table, the bundled SBOM files and
  the advisory body are not part of this model; the parser's outcome is a
  parameter.
- The messages that `anyhow` and `map_err` wrap around a graph error. The
  model passes the adapter's error through unchanged.
- The request-time panics on a parsed URL without a namespace or version,
  which are `requires` clauses.
- `PackageApi.QueryPackage`: requires every input URL that parses to have a
  namespace and a version. The source panics at src/package.rs:56,58 for a
  URL such as `pkg:npm/lodash@4.17.21` or `pkg:maven/org.acme/lib`, so that
  request fails instead of leaving the slot empty; the model does not
  cover it.
- trust-api-model/src/vuln.rs. It is a schema with no behaviour.
- `Text.ToLower`: Unicode lower-casing is limited to the ASCII letters. The
  non-ASCII case mappings of `to_lowercase` are not modelled.
- `Guac.GetAllPackages`: the versions are flattened first and then queried
  one by one, where the source queries inside the innermost loop. The
  adapter is modelled as side-effect free, so the result is the same. The
  number of queries issued before a failure is not modelled.
- The graph service URL that `TrustedContent::new` and `Guac::new` take from
  configuration, and the client construction in `Guac::new`. The hydra,
  OSV and advisory URLs are fixed in src/guac.rs and are modelled as
  `HYDRA_PREFIX`, `OSV_PREFIX` and `ADVISORY_PREFIX`.
- Duplicate members of one JSON object, which serde refuses for a struct:
  a decoded `Json` object is a map and cannot hold them.
