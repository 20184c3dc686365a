/**
 * The bundled SBOM registry (src/sbom.rs): a fixed list of package URLs,
 * each with the text of its SBOM document, loaded into a map and looked up
 * by exact string match. The document texts are bundled files that are
 * not part of this model; they and the JSON parser are parameters.
 */
module Sbom {
  import opened Wrappers
  import opened Json
  import Tables

  const JAVA_EXAMPLE := "pkg:maven/io.seedwing/seedwing-java-example@1.0.0-SNAPSHOT?type=jar"
  const UBI9 := "pkg:oci/ubi9@sha256:d03c30dddefc59229303f49a94105d537ac324c86df9177ec5be37d30d44672d?arch=x86_64&repository_url=registry.redhat.io/ubi9"

  /**
   * `REGISTRY`: each registered URL with the text of its document. The two
   * URLs differ, so neither entry overwrites the other when loaded.
   */
  function Registry(javaSbom: string, ubiSbom: string): (r: seq<(string, string)>)
    ensures |r| == 2 && r[0].0 != r[1].0
    ensures Tables.Firsts(r) == {JAVA_EXAMPLE, UBI9}
    ensures r[0].0 == JAVA_EXAMPLE && r[0].1 == javaSbom
    ensures r[1].0 == UBI9 && r[1].1 == ubiSbom
  {
    var r := [(JAVA_EXAMPLE, javaSbom), (UBI9, ubiSbom)];
    assert JAVA_EXAMPLE != UBI9 by {
      assert |JAVA_EXAMPLE| != |UBI9|;
    }
    assert Tables.Firsts(r) == {JAVA_EXAMPLE, UBI9} by {
      assert r[0].0 == JAVA_EXAMPLE && r[1].0 == UBI9;
    }
    r
  }

  datatype SbomRegistry = SbomRegistry(data: map<string, Json>)

  predicate AllParse(entries: seq<(string, string)>, parseJson: string -> Option<Json>)
  {
    forall i :: 0 <= i < |entries| ==> parseJson(entries[i].1).Some?
  }

  /** The registered URLs with their parsed documents, in order. */
  function ParsedPairs(entries: seq<(string, string)>, parseJson: string -> Option<Json>): (r: seq<(string, Json)>)
    requires AllParse(entries, parseJson)
    ensures |r| == |entries|
    ensures forall i :: 0 <= i < |entries| ==> r[i] == (entries[i].0, parseJson(entries[i].1).value)
  {
    if entries == [] then []
    else ParsedPairs(entries[..|entries| - 1], parseJson) +
         [(entries[|entries| - 1].0, parseJson(entries[|entries| - 1].1).value)]
  }

  lemma ParsedPairsSnoc(entries: seq<(string, string)>, parseJson: string -> Option<Json>, i: nat)
    requires i < |entries| && AllParse(entries[..i + 1], parseJson)
    ensures AllParse(entries[..i], parseJson)
    ensures ParsedPairs(entries[..i + 1], parseJson) ==
              ParsedPairs(entries[..i], parseJson) + [(entries[i].0, parseJson(entries[i].1).value)]
  {
    assert entries[..i + 1][..i] == entries[..i];
  }

  /**
   * The loop of `SbomRegistry::new`: inserts every entry's parsed document
   * under its URL. `None` stands for the panic on a document that does not
   * parse.
   */
  method Load(entries: seq<(string, string)>, parseJson: string -> Option<Json>)
    returns (r: Option<SbomRegistry>)
    ensures r.Some? <==> AllParse(entries, parseJson)
    ensures r.Some? ==> AllParse(entries, parseJson) && r.value.data == Tables.FromPairs(ParsedPairs(entries, parseJson))
  {
    var data: map<string, Json> := map[];
    for i := 0 to |entries|
      invariant AllParse(entries[..i], parseJson)
      invariant data == Tables.FromPairs(ParsedPairs(entries[..i], parseJson))
    {
      var (purl, text) := entries[i];
      var doc := parseJson(text);
      if doc.None? {
        assert parseJson(entries[i].1).None?;
        return None;
      }
      ParsedPairsSnoc(entries, parseJson, i);
      Tables.FromPairsSnoc(ParsedPairs(entries[..i], parseJson), purl, doc.value);
      data := data[purl := doc.value];
    }
    assert entries[..|entries|] == entries;
    return Some(SbomRegistry(data));
  }

  /**
   * `SbomRegistry::new`: the registry holds exactly the two registered
   * URLs, each with its parsed document; it panics (`None`) when either
   * document does not parse.
   */
  method New(javaSbom: string, ubiSbom: string, parseJson: string -> Option<Json>)
    returns (r: Option<SbomRegistry>)
    ensures r.Some? <==> parseJson(javaSbom).Some? && parseJson(ubiSbom).Some?
    ensures r.Some? ==> r.value.data.Keys == {JAVA_EXAMPLE, UBI9}
    ensures r.Some? ==> r.value.data[JAVA_EXAMPLE] == parseJson(javaSbom).value &&
                        r.value.data[UBI9] == parseJson(ubiSbom).value
  {
    var entries := Registry(javaSbom, ubiSbom);
    r := Load(entries, parseJson);
    assert AllParse(entries, parseJson) <==> parseJson(javaSbom).Some? && parseJson(ubiSbom).Some? by {
      assert entries[0].1 == javaSbom && entries[1].1 == ubiSbom;
    }
    if r.Some? {
      var pairs := ParsedPairs(entries, parseJson);
      Tables.FromPairsKeys(pairs);
      assert Tables.Firsts(pairs) == {JAVA_EXAMPLE, UBI9} by {
        assert pairs[0].0 == JAVA_EXAMPLE && pairs[1].0 == UBI9;
      }
      assert JAVA_EXAMPLE != UBI9 by {
        assert |JAVA_EXAMPLE| != |UBI9|;
      }
      Tables.FromPairsLastWins(pairs, 0);
      Tables.FromPairsLastWins(pairs, 1);
    }
  }

  /** `SbomRegistry::lookup`: the stored document of exactly this URL, if any. */
  function Lookup(reg: SbomRegistry, purl: string): (r: Option<Json>)
    ensures r.Some? <==> purl in reg.data
    ensures r.Some? ==> r.value == reg.data[purl]
  {
    if purl in reg.data then Some(reg.data[purl]) else None
  }

  /**
   * Lookup does no normalisation: the registered Java example without its
   * `?type=jar` qualifier is not found.
   */
  lemma LookupIsExact(reg: SbomRegistry)
    requires reg.data.Keys == {JAVA_EXAMPLE, UBI9}
    ensures Lookup(reg, JAVA_EXAMPLE).Some?
    ensures Lookup(reg, "pkg:maven/io.seedwing/seedwing-java-example@1.0.0-SNAPSHOT").None?
  {
    var bare := "pkg:maven/io.seedwing/seedwing-java-example@1.0.0-SNAPSHOT";
    assert bare != JAVA_EXAMPLE by {
      assert |bare| != |JAVA_EXAMPLE|;
    }
    assert bare != UBI9 by {
      assert |bare| != |UBI9|;
    }
  }
}
