/**
 * Package URLs. Parsing and printing them belongs to the `packageurl` crate
 * and percent-encoding to the `urlencoding` crate; the model takes all three
 * as function values (`Externals`) and only fixes how the service builds
 * its own keys and links from the parts of a parsed URL.
 */
module Purl {
  import opened Wrappers

  datatype PackageUrl = PackageUrl(
    ty: string,
    namespace: Option<string>,
    name: string,
    version: Option<string>,
    qualifiers: map<string, string>,
    subpath: Option<string>)

  datatype Externals = Externals(
    parse: string -> Option<PackageUrl>,   // PackageUrl::from_str
    render: PackageUrl -> string,          // PackageUrl::to_string
    encode: string -> string)              // urlencoding::encode

  /** The canonical, qualifier-free key `pkg:ty/ns/name@version`. */
  function ExactKey(ty: string, ns: string, name: string, version: string): string
  {
    "pkg:" + ty + "/" + ns + "/" + name + "@" + version
  }

  /** The version-stripped key `pkg:ty/ns/name` used to search for all versions. */
  function VersionlessKey(ty: string, ns: string, name: string): string
  {
    "pkg:" + ty + "/" + ns + "/" + name
  }

  /** The exact key is the version-stripped key followed by `@version`. */
  lemma ExactKeyExtendsVersionless(ty: string, ns: string, name: string, version: string)
    ensures ExactKey(ty, ns, name, version) == VersionlessKey(ty, ns, name) + "@" + version
  {
  }

  /** The exact key of a parsed URL; both optional parts must be present. */
  function ExactKeyOf(p: PackageUrl): string
    requires p.namespace.Some? && p.version.Some?
  {
    ExactKey(p.ty, p.namespace.value, p.name, p.version.value)
  }

  /** The parsed URL carries what the exact key needs. */
  predicate Keyable(p: PackageUrl)
  {
    p.namespace.Some? && p.version.Some?
  }

  /** `"/api/package?purl=" + encode(purl)`: the link to the package view. */
  function PackageHref(ext: Externals, purl: string): string
  {
    "/api/package?purl=" + ext.encode(purl)
  }

  /** Qualifiers and subpath play no part in the exact key. */
  lemma ExactKeyIgnoresQualifiers(p: PackageUrl, q: PackageUrl)
    requires Keyable(p) && Keyable(q)
    requires p.(qualifiers := q.qualifiers, subpath := q.subpath) == q
    ensures ExactKeyOf(p) == ExactKeyOf(q)
  {
  }
}
