/**
 * The response types of the trust API (trust-api-model/src/pkg.rs) and
 * their serde JSON form. Every type derives `PartialEq`, which Dafny's
 * structural datatype equality is. Optional fields and lists are left out
 * of the JSON object when they are `None` or empty, and a missing field
 * reads back as `None` or empty (`#[serde(default)]`).
 */
module Model {
  import opened Wrappers
  import opened Json

  /** The reserved second trust source; a unit struct, serialised as `null`. */
  datatype SnykData = SnykData

  datatype VulnerabilityRef = VulnerabilityRef(cve: string, href: string)

  datatype PackageRef = PackageRef(purl: string, href: string, trusted: Option<bool>)

  datatype Package = Package(
    purl: Option<string>,
    href: Option<string>,
    trusted: Option<bool>,
    trustedVersions: seq<PackageRef>,
    vulnerabilities: seq<VulnerabilityRef>,
    snyk: Option<SnykData>)

  datatype PackageDependencies = PackageDependencies(refs: seq<PackageRef>)

  datatype PackageDependents = PackageDependents(refs: seq<PackageRef>)

  datatype PackageList = PackageList(items: seq<string>)
  {
    /** `PackageList::list`: the wrapped list, unchanged. */
    function List(): (r: seq<string>)
      ensures |r| == |items| && forall i :: 0 <= i < |r| ==> r[i] == items[i]
    {
      items
    }
  }

  /** Derived equality on vulnerability references compares both fields. */
  lemma VulnerabilityRefEquality(a: VulnerabilityRef, b: VulnerabilityRef)
    ensures a == b <==> a.cve == b.cve && a.href == b.href
  {
  }

  /** Derived equality on package references compares all three fields. */
  lemma PackageRefEquality(a: PackageRef, b: PackageRef)
    ensures a == b <==> a.purl == b.purl && a.href == b.href && a.trusted == b.trusted
  {
  }

  datatype DecodeError = MissingField(field: string) | InvalidType(field: string) | InvalidLength(what: string)

  // ---------------------------------------------------------------------
  // Serialisation

  /** Adds `key` to the object only when there is a value for it. */
  function WithField(o: map<string, Json>, key: string, v: Option<Json>): (r: map<string, Json>)
    ensures forall k :: k in r <==> k in o || (k == key && v.Some?)
    ensures v.Some? ==> r[key] == v.value
    ensures forall k :: k in o && k != key ==> r[k] == o[k]
  {
    if v.Some? then o[key := v.value] else o
  }

  function StringValue(v: Option<string>): Option<Json>
  {
    if v.Some? then Some(JString(v.value)) else None
  }

  function BoolValue(v: Option<bool>): Option<Json>
  {
    if v.Some? then Some(JBool(v.value)) else None
  }

  /** A vulnerability reference is written as an object with exactly `cve` and `href`. */
  function VulnerabilityRefToJson(v: VulnerabilityRef): (r: Json)
    ensures r.JObject? && r.fields.Keys == {"cve", "href"}
    ensures r.fields["cve"] == JString(v.cve) && r.fields["href"] == JString(v.href)
  {
    JObject(map["cve" := JString(v.cve), "href" := JString(v.href)])
  }

  /** `trusted` is present in the object exactly when it is `Some`. */
  function PackageRefToJson(p: PackageRef): (r: Json)
    ensures r.JObject? && "purl" in r.fields && "href" in r.fields
    ensures "trusted" in r.fields <==> p.trusted.Some?
    ensures r.fields.Keys <= {"purl", "href", "trusted"}
    ensures r.fields["purl"] == JString(p.purl) && r.fields["href"] == JString(p.href)
    ensures p.trusted.Some? ==> r.fields["trusted"] == JBool(p.trusted.value)
  {
    JObject(WithField(map["purl" := JString(p.purl), "href" := JString(p.href)],
                      "trusted", BoolValue(p.trusted)))
  }

  function PackageRefsToJson(ps: seq<PackageRef>): (r: seq<Json>)
    ensures |r| == |ps|
    ensures forall i :: 0 <= i < |ps| ==> r[i] == PackageRefToJson(ps[i])
  {
    if ps == [] then [] else [PackageRefToJson(ps[0])] + PackageRefsToJson(ps[1..])
  }

  function VulnerabilityRefsToJson(vs: seq<VulnerabilityRef>): (r: seq<Json>)
    ensures |r| == |vs|
    ensures forall i :: 0 <= i < |vs| ==> r[i] == VulnerabilityRefToJson(vs[i])
  {
    if vs == [] then [] else [VulnerabilityRefToJson(vs[0])] + VulnerabilityRefsToJson(vs[1..])
  }

  /** The six member names of a package object are pairwise distinct. */
  lemma FieldNamesDistinct()
    ensures "purl" != "href" && "purl" != "trusted" && "purl" != "trustedVersions" &&
            "purl" != "vulnerabilities" && "purl" != "snyk"
    ensures "href" != "trusted" && "href" != "trustedVersions" && "href" != "vulnerabilities" && "href" != "snyk"
    ensures "trusted" != "trustedVersions" && "trusted" != "vulnerabilities" && "trusted" != "snyk"
    ensures "trustedVersions" != "vulnerabilities" && "trustedVersions" != "snyk"
    ensures "vulnerabilities" != "snyk"
    ensures "trusted_versions" !in {"purl", "href", "trusted", "trustedVersions", "vulnerabilities", "snyk"}
  {
    assert "purl"[0] != "href"[0] && "purl"[0] != "snyk"[0] && "href"[0] != "snyk"[0];
    assert "trustedVersions"[0] != "vulnerabilities"[0];
    assert "trusted_versions"[7] != "trustedVersions"[7];
  }

  /** A list field: omitted when empty. */
  function NonEmpty(items: seq<Json>): Option<Json>
  {
    if items == [] then None else Some(JArray(items))
  }

  /**
   * The members of a package object, one for each field value that is
   * present, under the six field names in declaration order.
   */
  function PackageMembers(purl: Option<Json>, href: Option<Json>, trusted: Option<Json>,
                          trustedVersions: Option<Json>, vulnerabilities: Option<Json>, snyk: Option<Json>)
    : (r: map<string, Json>)
    ensures r.Keys <= {"purl", "href", "trusted", "trustedVersions", "vulnerabilities", "snyk"}
  {
    var o1 := WithField(map[], "purl", purl);
    var o2 := WithField(o1, "href", href);
    var o3 := WithField(o2, "trusted", trusted);
    var o4 := WithField(o3, "trustedVersions", trustedVersions);
    var o5 := WithField(o4, "vulnerabilities", vulnerabilities);
    WithField(o5, "snyk", snyk)
  }

  /** Each member is present exactly when its value is, and holds that value. */
  lemma PackageMembersAt(purl: Option<Json>, href: Option<Json>, trusted: Option<Json>,
                         trustedVersions: Option<Json>, vulnerabilities: Option<Json>, snyk: Option<Json>)
    ensures var m := PackageMembers(purl, href, trusted, trustedVersions, vulnerabilities, snyk);
            ("purl" in m <==> purl.Some?) && (purl.Some? ==> m["purl"] == purl.value) &&
            ("href" in m <==> href.Some?) && (href.Some? ==> m["href"] == href.value) &&
            ("trusted" in m <==> trusted.Some?) && (trusted.Some? ==> m["trusted"] == trusted.value) &&
            ("trustedVersions" in m <==> trustedVersions.Some?) &&
            (trustedVersions.Some? ==> m["trustedVersions"] == trustedVersions.value) &&
            ("vulnerabilities" in m <==> vulnerabilities.Some?) &&
            (vulnerabilities.Some? ==> m["vulnerabilities"] == vulnerabilities.value) &&
            ("snyk" in m <==> snyk.Some?) && (snyk.Some? ==> m["snyk"] == snyk.value)
  {
    FieldNamesDistinct();
  }

  /**
   * The JSON object of a package: one member per present field, under the
   * six field names (`trustedVersions` for the trusted versions).
   */
  function PackageToJson(p: Package): (r: Json)
    ensures r.JObject?
    ensures r.fields.Keys <= {"purl", "href", "trusted", "trustedVersions", "vulnerabilities", "snyk"}
  {
    JObject(PackageMembers(StringValue(p.purl), StringValue(p.href), BoolValue(p.trusted),
                           NonEmpty(PackageRefsToJson(p.trustedVersions)),
                           NonEmpty(VulnerabilityRefsToJson(p.vulnerabilities)),
                           if p.snyk.Some? then Some(JNull) else None))
  }

  /**
   * An optional field is present in the object exactly when it is `Some`,
   * and then holds its value; present Snyk data is written as `null`.
   */
  lemma OptionalFieldPresence(p: Package)
    ensures "purl" in PackageToJson(p).fields <==> p.purl.Some?
    ensures "href" in PackageToJson(p).fields <==> p.href.Some?
    ensures "trusted" in PackageToJson(p).fields <==> p.trusted.Some?
    ensures "snyk" in PackageToJson(p).fields <==> p.snyk.Some?
    ensures p.purl.Some? ==> PackageToJson(p).fields["purl"] == JString(p.purl.value)
    ensures p.href.Some? ==> PackageToJson(p).fields["href"] == JString(p.href.value)
    ensures p.trusted.Some? ==> PackageToJson(p).fields["trusted"] == JBool(p.trusted.value)
    ensures p.snyk.Some? ==> PackageToJson(p).fields["snyk"] == JNull
  {
    PackageMembersAt(StringValue(p.purl), StringValue(p.href), BoolValue(p.trusted),
                     NonEmpty(PackageRefsToJson(p.trustedVersions)),
                     NonEmpty(VulnerabilityRefsToJson(p.vulnerabilities)),
                     if p.snyk.Some? then Some(JNull) else None);
  }

  /**
   * A list field is present exactly when it is non-empty, and the trusted
   * versions go under `trustedVersions`, never `trusted_versions`.
   */
  lemma ListFieldPresence(p: Package)
    ensures "trustedVersions" in PackageToJson(p).fields <==> p.trustedVersions != []
    ensures "vulnerabilities" in PackageToJson(p).fields <==> p.vulnerabilities != []
    ensures "trusted_versions" !in PackageToJson(p).fields
    ensures p.trustedVersions != [] ==>
              PackageToJson(p).fields["trustedVersions"] == JArray(PackageRefsToJson(p.trustedVersions))
    ensures p.vulnerabilities != [] ==>
              PackageToJson(p).fields["vulnerabilities"] == JArray(VulnerabilityRefsToJson(p.vulnerabilities))
  {
    PackageMembersAt(StringValue(p.purl), StringValue(p.href), BoolValue(p.trusted),
                     NonEmpty(PackageRefsToJson(p.trustedVersions)),
                     NonEmpty(VulnerabilityRefsToJson(p.vulnerabilities)),
                     if p.snyk.Some? then Some(JNull) else None);
  }

  // ---------------------------------------------------------------------
  // Deserialisation
  //
  // The derived `Deserialize` reads a struct from a JSON object, by member
  // name, or from a JSON array, by position in declaration order. Members
  // the struct does not declare are ignored. An array may stop early when
  // the missing fields have `#[serde(default)]`, and may not run past the
  // last field.

  /**
   * What a struct reader sees for its field `key`, declared at position
   * `index`: the object's member or the array's element, if there is one.
   */
  function Slot(j: Json, key: string, index: nat): (r: Option<Json>)
    requires j.JObject? || j.JArray?
    ensures j.JObject? ==> (r.Some? <==> key in j.fields) && (r.Some? ==> r.value == j.fields[key])
    ensures j.JArray? ==> (r.Some? <==> index < |j.items|) && (r.Some? ==> r.value == j.items[index])
  {
    if j.JObject? then (if key in j.fields then Some(j.fields[key]) else None)
    else if index < |j.items| then Some(j.items[index])
    else None
  }

  /** A JSON value a struct of `width` fields can be read from. */
  predicate StructShaped(j: Json, width: nat)
  {
    j.JObject? || (j.JArray? && |j.items| <= width)
  }

  /** Reads the members of an object, or the elements of a short enough array. */
  function StructSlots(j: Json, what: string, width: nat): (r: Result<Json, DecodeError>)
    ensures r.Success? <==> StructShaped(j, width)
    ensures r.Success? ==> r.value == j
  {
    if j.JObject? then Success(j)
    else if j.JArray? && |j.items| <= width then Success(j)
    else if j.JArray? then Failure(InvalidLength(what))
    else Failure(InvalidType(what))
  }

  predicate IsString(v: Option<Json>)
  {
    v.Some? && v.value.JString?
  }

  predicate NullOrString(v: Option<Json>)
  {
    v.None? || v.value.JNull? || v.value.JString?
  }

  predicate NullOrBool(v: Option<Json>)
  {
    v.None? || v.value.JNull? || v.value.JBool?
  }

  /** The string an `Option<String>` field holds: `None` for a missing or null slot. */
  function StringIn(v: Option<Json>): Option<string>
  {
    if v.Some? && v.value.JString? then Some(v.value.s) else None
  }

  /** The flag an `Option<bool>` field holds: `None` for a missing or null slot. */
  function BoolIn(v: Option<Json>): Option<bool>
  {
    if v.Some? && v.value.JBool? then Some(v.value.b) else None
  }

  /** A required `String` field. */
  function ReadString(v: Option<Json>, key: string): (r: Result<string, DecodeError>)
    ensures r.Success? <==> IsString(v)
    ensures r.Success? ==> r.value == v.value.s
  {
    if v.None? then Failure(MissingField(key))
    else if v.value.JString? then Success(v.value.s)
    else Failure(InvalidType(key))
  }

  /** An `Option<String>` field with `#[serde(default)]`: missing or null is `None`. */
  function ReadOptionalString(v: Option<Json>, key: string): (r: Result<Option<string>, DecodeError>)
    ensures r.Success? <==> NullOrString(v)
    ensures r.Success? ==> r.value == StringIn(v)
  {
    if v.None? || v.value.JNull? then Success(None)
    else if v.value.JString? then Success(Some(v.value.s))
    else Failure(InvalidType(key))
  }

  /** An `Option<bool>` field with `#[serde(default)]`: missing or null is `None`. */
  function ReadOptionalBool(v: Option<Json>, key: string): (r: Result<Option<bool>, DecodeError>)
    ensures r.Success? <==> NullOrBool(v)
    ensures r.Success? ==> r.value == BoolIn(v)
  {
    if v.None? || v.value.JNull? then Success(None)
    else if v.value.JBool? then Success(Some(v.value.b))
    else Failure(InvalidType(key))
  }

  /**
   * An `Option<SnykData>` field: `null` is read as `None` before the unit
   * struct is tried, and a unit struct accepts nothing but `null`.
   */
  function ReadSnyk(v: Option<Json>): (r: Result<Option<SnykData>, DecodeError>)
    ensures r.Success? <==> v.None? || v.value.JNull?
    ensures r.Success? ==> r.value.None?
  {
    if v.None? || v.value.JNull? then Success(None) else Failure(InvalidType("snyk"))
  }

  /**
   * `VulnerabilityRef`'s reader: `cve` and `href` must be strings, from an
   * object or from an array of exactly two elements.
   */
  function VulnerabilityRefFromJson(j: Json): (r: Result<VulnerabilityRef, DecodeError>)
    ensures r.Success? <==> StructShaped(j, 2) && IsString(Slot(j, "cve", 0)) && IsString(Slot(j, "href", 1))
    ensures r.Success? ==> r.value == VulnerabilityRef(Slot(j, "cve", 0).value.s, Slot(j, "href", 1).value.s)
  {
    match StructSlots(j, "VulnerabilityRef", 2)
    case Failure(e) => Failure(e)
    case Success(_) =>
      match ReadString(Slot(j, "cve", 0), "cve")
      case Failure(e) => Failure(e)
      case Success(cve) =>
        match ReadString(Slot(j, "href", 1), "href")
        case Failure(e) => Failure(e)
        case Success(href) => Success(VulnerabilityRef(cve, href))
  }

  /**
   * `PackageRef`'s reader: `purl` and `href` must be strings; `trusted` may
   * be missing or `null` (then `None`) or a boolean. An array form holds two
   * or three elements.
   */
  function PackageRefFromJson(j: Json): (r: Result<PackageRef, DecodeError>)
    ensures r.Success? <==> StructShaped(j, 3) && IsString(Slot(j, "purl", 0)) &&
                            IsString(Slot(j, "href", 1)) && NullOrBool(Slot(j, "trusted", 2))
    ensures r.Success? ==>
              r.value == PackageRef(Slot(j, "purl", 0).value.s, Slot(j, "href", 1).value.s,
                                    BoolIn(Slot(j, "trusted", 2)))
  {
    match StructSlots(j, "PackageRef", 3)
    case Failure(e) => Failure(e)
    case Success(_) =>
      match ReadString(Slot(j, "purl", 0), "purl")
      case Failure(e) => Failure(e)
      case Success(purl) =>
        match ReadString(Slot(j, "href", 1), "href")
        case Failure(e) => Failure(e)
        case Success(href) =>
          match ReadOptionalBool(Slot(j, "trusted", 2), "trusted")
          case Failure(e) => Failure(e)
          case Success(trusted) => Success(PackageRef(purl, href, trusted))
  }

  /** A list is read when every element is, element by element. */
  function PackageRefsFromJson(js: seq<Json>): (r: Result<seq<PackageRef>, DecodeError>)
    ensures r.Success? <==> forall i :: 0 <= i < |js| ==> PackageRefFromJson(js[i]).Success?
    ensures r.Success? ==>
              |r.value| == |js| && forall i :: 0 <= i < |js| ==> r.value[i] == PackageRefFromJson(js[i]).value
  {
    if js == [] then Success([])
    else
      match PackageRefFromJson(js[0])
      case Failure(e) => Failure(e)
      case Success(p) =>
        match PackageRefsFromJson(js[1..])
        case Failure(e) => Failure(e)
        case Success(ps) => Success([p] + ps)
  }

  /** A list is read when every element is, element by element. */
  function VulnerabilityRefsFromJson(js: seq<Json>): (r: Result<seq<VulnerabilityRef>, DecodeError>)
    ensures r.Success? <==> forall i :: 0 <= i < |js| ==> VulnerabilityRefFromJson(js[i]).Success?
    ensures r.Success? ==>
              |r.value| == |js| && forall i :: 0 <= i < |js| ==> r.value[i] == VulnerabilityRefFromJson(js[i]).value
  {
    if js == [] then Success([])
    else
      match VulnerabilityRefFromJson(js[0])
      case Failure(e) => Failure(e)
      case Success(v) =>
        match VulnerabilityRefsFromJson(js[1..])
        case Failure(e) => Failure(e)
        case Success(vs) => Success([v] + vs)
  }

  /** A `Vec<PackageRef>` slot that reads: missing, or an array whose every element reads. */
  predicate PackageRefsReadable(v: Option<Json>)
  {
    v.None? || (v.value.JArray? && forall i :: 0 <= i < |v.value.items| ==> PackageRefFromJson(v.value.items[i]).Success?)
  }

  /** A `Vec<VulnerabilityRef>` slot that reads: missing, or an array whose every element reads. */
  predicate VulnerabilityRefsReadable(v: Option<Json>)
  {
    v.None? ||
    (v.value.JArray? && forall i :: 0 <= i < |v.value.items| ==> VulnerabilityRefFromJson(v.value.items[i]).Success?)
  }

  /** A `Vec<PackageRef>` field with `#[serde(default)]`: missing is empty; `null` is an error. */
  function ReadPackageRefs(v: Option<Json>, key: string): (r: Result<seq<PackageRef>, DecodeError>)
    ensures r.Success? <==> PackageRefsReadable(v)
    ensures r.Success? && v.None? ==> r.value == []
    ensures r.Success? && v.Some? ==>
              |r.value| == |v.value.items| &&
              forall i :: 0 <= i < |r.value| ==> r.value[i] == PackageRefFromJson(v.value.items[i]).value
  {
    if v.None? then Success([])
    else if v.value.JArray? then PackageRefsFromJson(v.value.items)
    else Failure(InvalidType(key))
  }

  /** A `Vec<VulnerabilityRef>` field with `#[serde(default)]`: missing is empty; `null` is an error. */
  function ReadVulnerabilityRefs(v: Option<Json>, key: string): (r: Result<seq<VulnerabilityRef>, DecodeError>)
    ensures r.Success? <==> VulnerabilityRefsReadable(v)
    ensures r.Success? && v.None? ==> r.value == []
    ensures r.Success? && v.Some? ==>
              |r.value| == |v.value.items| &&
              forall i :: 0 <= i < |r.value| ==> r.value[i] == VulnerabilityRefFromJson(v.value.items[i]).value
  {
    if v.None? then Success([])
    else if v.value.JArray? then VulnerabilityRefsFromJson(v.value.items)
    else Failure(InvalidType(key))
  }

  /**
   * `Package`'s reader. Every field has a default, so an empty object or an
   * empty array reads as the package with every field absent or empty; Snyk
   * data is never read back as present.
   */
  function PackageFromJson(j: Json): (r: Result<Package, DecodeError>)
    ensures r.Success? <==>
              StructShaped(j, 6) &&
              NullOrString(Slot(j, "purl", 0)) && NullOrString(Slot(j, "href", 1)) &&
              NullOrBool(Slot(j, "trusted", 2)) &&
              PackageRefsReadable(Slot(j, "trustedVersions", 3)) &&
              VulnerabilityRefsReadable(Slot(j, "vulnerabilities", 4)) &&
              (Slot(j, "snyk", 5).None? || Slot(j, "snyk", 5).value.JNull?)
    ensures r.Success? ==>
              r.value.purl == StringIn(Slot(j, "purl", 0)) &&
              r.value.href == StringIn(Slot(j, "href", 1)) &&
              r.value.trusted == BoolIn(Slot(j, "trusted", 2))
    ensures r.Success? ==>
              r.value.trustedVersions == ReadPackageRefs(Slot(j, "trustedVersions", 3), "trustedVersions").value &&
              r.value.vulnerabilities == ReadVulnerabilityRefs(Slot(j, "vulnerabilities", 4), "vulnerabilities").value
    ensures r.Success? ==> r.value.snyk.None?
  {
    match StructSlots(j, "Package", 6)
    case Failure(e) => Failure(e)
    case Success(_) =>
      match ReadOptionalString(Slot(j, "purl", 0), "purl")
      case Failure(e) => Failure(e)
      case Success(purl) =>
      match ReadOptionalString(Slot(j, "href", 1), "href")
      case Failure(e) => Failure(e)
      case Success(href) =>
      match ReadOptionalBool(Slot(j, "trusted", 2), "trusted")
      case Failure(e) => Failure(e)
      case Success(trusted) =>
      match ReadPackageRefs(Slot(j, "trustedVersions", 3), "trustedVersions")
      case Failure(e) => Failure(e)
      case Success(tvs) =>
      match ReadVulnerabilityRefs(Slot(j, "vulnerabilities", 4), "vulnerabilities")
      case Failure(e) => Failure(e)
      case Success(vulns) =>
      match ReadSnyk(Slot(j, "snyk", 5))
      case Failure(e) => Failure(e)
      case Success(snyk) => Success(Package(purl, href, trusted, tvs, vulns, snyk))
  }

  // ---------------------------------------------------------------------
  // Round trips

  lemma VulnerabilityRefRoundTrip(v: VulnerabilityRef)
    ensures VulnerabilityRefFromJson(VulnerabilityRefToJson(v)) == Success(v)
  {
  }

  lemma PackageRefRoundTrip(p: PackageRef)
    ensures PackageRefFromJson(PackageRefToJson(p)) == Success(p)
  {
  }

  lemma PackageRefsRoundTrip(ps: seq<PackageRef>)
    ensures PackageRefsFromJson(PackageRefsToJson(ps)) == Success(ps)
  {
    var js := PackageRefsToJson(ps);
    forall i | 0 <= i < |js|
      ensures PackageRefFromJson(js[i]) == Success(ps[i])
    {
      PackageRefRoundTrip(ps[i]);
    }
    assert PackageRefsFromJson(js).value == ps;
  }


  lemma VulnerabilityRefsRoundTrip(vs: seq<VulnerabilityRef>)
    ensures VulnerabilityRefsFromJson(VulnerabilityRefsToJson(vs)) == Success(vs)
  {
    var js := VulnerabilityRefsToJson(vs);
    forall i | 0 <= i < |js|
      ensures VulnerabilityRefFromJson(js[i]) == Success(vs[i])
    {
      VulnerabilityRefRoundTrip(vs[i]);
    }
    assert VulnerabilityRefsFromJson(js).value == vs;
  }


  lemma ScalarFieldsRoundTrip(p: Package)
    ensures ReadOptionalString(Slot(PackageToJson(p), "purl", 0), "purl") == Success(p.purl)
    ensures ReadOptionalString(Slot(PackageToJson(p), "href", 1), "href") == Success(p.href)
    ensures ReadOptionalBool(Slot(PackageToJson(p), "trusted", 2), "trusted") == Success(p.trusted)
    ensures ReadSnyk(Slot(PackageToJson(p), "snyk", 5)) == Success(None)
  {
    OptionalFieldPresence(p);
  }

  lemma ListFieldsRoundTrip(p: Package)
    ensures ReadPackageRefs(Slot(PackageToJson(p), "trustedVersions", 3), "trustedVersions") == Success(p.trustedVersions)
    ensures ReadVulnerabilityRefs(Slot(PackageToJson(p), "vulnerabilities", 4), "vulnerabilities") ==
            Success(p.vulnerabilities)
  {
    ListFieldPresence(p);
    PackageRefsRoundTrip(p.trustedVersions);
    VulnerabilityRefsRoundTrip(p.vulnerabilities);
  }

  /**
   * Serialising and reading back gives the package again, except that a
   * present `snyk` (written as `null`) reads back as `None`.
   */
  lemma PackageRoundTrip(p: Package)
    ensures PackageFromJson(PackageToJson(p)) == Success(p.(snyk := None))
  {
    ScalarFieldsRoundTrip(p);
    ListFieldsRoundTrip(p);
  }

  /** An empty object reads back as the package with every field absent. */
  lemma EmptyObjectIsNotFoundShape()
    ensures PackageFromJson(JObject(map[])) == Success(Package(None, None, None, [], [], None))
  {
  }

  /**
   * The array form: elements are read by position, trailing defaulted
   * fields may be left off, and an array longer than the struct is refused.
   */
  lemma ArrayFormReads()
    ensures VulnerabilityRefFromJson(JArray([JString("CVE-1"), JString("/api/vulnerability/CVE-1")])) ==
            Success(VulnerabilityRef("CVE-1", "/api/vulnerability/CVE-1"))
    ensures PackageRefFromJson(JArray([JString("p"), JString("h")])) == Success(PackageRef("p", "h", None))
    ensures PackageRefFromJson(JArray([JString("p"), JString("h"), JBool(true)])) == Success(PackageRef("p", "h", Some(true)))
    ensures PackageRefFromJson(JArray([JString("p")])).Failure?
    ensures VulnerabilityRefFromJson(JArray([JString("c"), JString("h"), JNull])).Failure?
    ensures PackageFromJson(JArray([])) == Success(Package(None, None, None, [], [], None))
  {
  }

  /** An explicit `null` reads as the missing field, and an unknown member is ignored. */
  lemma NullAndUnknownMembers()
    ensures PackageFromJson(JObject(map["purl" := JNull, "extra" := JNumber(1)])) ==
            Success(Package(None, None, None, [], [], None))
    ensures PackageFromJson(JObject(map["trustedVersions" := JNull])).Failure?
    ensures PackageFromJson(JObject(map["snyk" := JBool(true)])).Failure?
  {
  }
}
