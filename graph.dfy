/**
 * What the GUAC graph service returns, and the one traversal the service
 * applies to it: a package tree (type, then namespaces, then names, then
 * versions) is flattened into its version leaves in encounter order.
 *
 * The GraphQL client is not part of this model. Each of its queries is a
 * function value in `Adapter`, keyed by the string the service sends, so the
 * model fixes which key is asked and what is done with the answer.
 */
module Graph {
  import opened Wrappers
  import Purl

  datatype VersionNode = VersionNode(version: string)

  datatype NameNode = NameNode(name: string, versions: seq<VersionNode>)

  datatype NamespaceNode = NamespaceNode(namespace: string, names: seq<NameNode>)

  datatype PackageTree = PackageTree(ty: string, namespaces: seq<NamespaceNode>)

  /** The vulnerability a certification names: an OSV id, a CVE id, or another kind. */
  datatype VulnerabilityNode = Osv(osvId: string) | Cve(cveId: string) | OtherVulnerability

  datatype CertifyVuln = CertifyVuln(vulnerability: VulnerabilityNode)

  datatype AdapterError = AdapterError(detail: string)

  datatype Adapter = Adapter(
    packages: string -> Result<seq<PackageTree>, AdapterError>,         // get_packages
    vulnerabilities: string -> Result<seq<PackageTree>, AdapterError>,  // get_vulnerabilities: each record's package
    certifyVuln: string -> Result<seq<CertifyVuln>, AdapterError>,      // certify_vuln
    dependencies: string -> Result<seq<PackageTree>, AdapterError>,     // get_dependencies: each dependent_package
    dependents: string -> Result<seq<PackageTree>, AdapterError>,       // is_dependent: each package
    allPackages: Result<seq<PackageTree>, AdapterError>)                // get_all_packages

  /** One concrete version reached by the traversal. */
  datatype Leaf = Leaf(ty: string, namespace: string, name: string, version: string)
  {
    /** `pkg:ty/namespace/name@version`. */
    function ToPurl(): string
    {
      Purl.ExactKey(ty, namespace, name, version)
    }
  }

  // ---------------------------------------------------------------------
  // The leaves of a forest of package trees, level by level, in order.

  function VersionsLeaves(ty: string, ns: string, name: string, vs: seq<VersionNode>): seq<Leaf>
  {
    if vs == [] then []
    else VersionsLeaves(ty, ns, name, vs[..|vs| - 1]) + [Leaf(ty, ns, name, vs[|vs| - 1].version)]
  }

  function NamesLeaves(ty: string, ns: string, names: seq<NameNode>): seq<Leaf>
  {
    if names == [] then []
    else
      var n := names[|names| - 1];
      NamesLeaves(ty, ns, names[..|names| - 1]) + VersionsLeaves(ty, ns, n.name, n.versions)
  }

  function NamespacesLeaves(ty: string, nss: seq<NamespaceNode>): seq<Leaf>
  {
    if nss == [] then []
    else
      var n := nss[|nss| - 1];
      NamespacesLeaves(ty, nss[..|nss| - 1]) + NamesLeaves(ty, n.namespace, n.names)
  }

  function Leaves(trees: seq<PackageTree>): seq<Leaf>
  {
    if trees == [] then []
    else
      var t := trees[|trees| - 1];
      Leaves(trees[..|trees| - 1]) + NamespacesLeaves(t.ty, t.namespaces)
  }

  // ---------------------------------------------------------------------
  // Membership: a leaf is produced exactly when the trees report it.

  ghost predicate InNames(l: Leaf, names: seq<NameNode>)
  {
    exists n :: n in names && n.name == l.name && VersionNode(l.version) in n.versions
  }

  ghost predicate InNamespaces(l: Leaf, nss: seq<NamespaceNode>)
  {
    exists n :: n in nss && n.namespace == l.namespace && InNames(l, n.names)
  }

  /** Some tree of `trees` has the leaf's type, namespace, name and version. */
  ghost predicate Reported(l: Leaf, trees: seq<PackageTree>)
  {
    exists t :: t in trees && t.ty == l.ty && InNamespaces(l, t.namespaces)
  }

  lemma {:induction false} VersionsLeavesMembership(ty: string, ns: string, name: string, vs: seq<VersionNode>, l: Leaf)
    ensures l in VersionsLeaves(ty, ns, name, vs) <==>
            l.ty == ty && l.namespace == ns && l.name == name && VersionNode(l.version) in vs
  {
    if vs != [] {
      var init := vs[..|vs| - 1];
      VersionsLeavesMembership(ty, ns, name, init, l);
      assert vs == init + [vs[|vs| - 1]];
    }
  }

  lemma {:induction false} NamesLeavesMembership(ty: string, ns: string, names: seq<NameNode>, l: Leaf)
    ensures l in NamesLeaves(ty, ns, names) <==> l.ty == ty && l.namespace == ns && InNames(l, names)
  {
    if names != [] {
      var init, last := names[..|names| - 1], names[|names| - 1];
      NamesLeavesMembership(ty, ns, init, l);
      VersionsLeavesMembership(ty, ns, last.name, last.versions, l);
      assert names == init + [last];
      if InNames(l, names) && !InNames(l, init) {
        var n :| n in names && n.name == l.name && VersionNode(l.version) in n.versions;
        assert n == last;
      }
    }
  }

  lemma {:induction false} NamespacesLeavesMembership(ty: string, nss: seq<NamespaceNode>, l: Leaf)
    ensures l in NamespacesLeaves(ty, nss) <==> l.ty == ty && InNamespaces(l, nss)
  {
    if nss != [] {
      var init, last := nss[..|nss| - 1], nss[|nss| - 1];
      NamespacesLeavesMembership(ty, init, l);
      NamesLeavesMembership(ty, last.namespace, last.names, l);
      assert nss == init + [last];
      if InNamespaces(l, nss) && !InNamespaces(l, init) {
        var n :| n in nss && n.namespace == l.namespace && InNames(l, n.names);
        assert n == last;
      }
    }
  }

  /** Flattening produces a leaf exactly when one of the trees reports it. */
  lemma {:induction false} LeavesMembership(trees: seq<PackageTree>, l: Leaf)
    ensures l in Leaves(trees) <==> Reported(l, trees)
  {
    if trees != [] {
      var init, last := trees[..|trees| - 1], trees[|trees| - 1];
      LeavesMembership(init, l);
      NamespacesLeavesMembership(last.ty, last.namespaces, l);
      assert trees == init + [last];
      if Reported(l, trees) && !Reported(l, init) {
        var t :| t in trees && t.ty == l.ty && InNamespaces(l, t.namespaces);
        assert t == last;
      }
    }
  }

  // ---------------------------------------------------------------------
  // Count and order: one leaf per version node; trees are flattened in turn.

  function VersionCount(trees: seq<PackageTree>): nat
  {
    if trees == [] then 0 else NamespacesVersionCount(trees[0].namespaces) + VersionCount(trees[1..])
  }

  function NamespacesVersionCount(nss: seq<NamespaceNode>): nat
  {
    if nss == [] then 0 else NamesVersionCount(nss[0].names) + NamespacesVersionCount(nss[1..])
  }

  function NamesVersionCount(names: seq<NameNode>): nat
  {
    if names == [] then 0 else |names[0].versions| + NamesVersionCount(names[1..])
  }

  lemma {:induction false} NamesCount(ty: string, ns: string, names: seq<NameNode>)
    ensures |NamesLeaves(ty, ns, names)| == NamesVersionCount(names)
  {
    if names != [] {
      var init := names[..|names| - 1];
      NamesCount(ty, ns, init);
      VersionsCount(ty, ns, names[|names| - 1].name, names[|names| - 1].versions);
      NamesVersionCountSnoc(init, names[|names| - 1]);
      assert names == init + [names[|names| - 1]];
    }
  }

  lemma {:induction false} VersionsCount(ty: string, ns: string, name: string, vs: seq<VersionNode>)
    ensures |VersionsLeaves(ty, ns, name, vs)| == |vs|
  {
    if vs != [] {
      VersionsCount(ty, ns, name, vs[..|vs| - 1]);
    }
  }

  lemma {:induction false} NamesVersionCountSnoc(names: seq<NameNode>, n: NameNode)
    ensures NamesVersionCount(names + [n]) == NamesVersionCount(names) + |n.versions|
  {
    if names != [] {
      assert (names + [n])[1..] == names[1..] + [n];
      NamesVersionCountSnoc(names[1..], n);
    }
  }

  lemma {:induction false} NamespacesVersionCountSnoc(nss: seq<NamespaceNode>, n: NamespaceNode)
    ensures NamespacesVersionCount(nss + [n]) == NamespacesVersionCount(nss) + NamesVersionCount(n.names)
  {
    if nss != [] {
      assert (nss + [n])[1..] == nss[1..] + [n];
      NamespacesVersionCountSnoc(nss[1..], n);
    }
  }

  lemma {:induction false} VersionCountSnoc(trees: seq<PackageTree>, t: PackageTree)
    ensures VersionCount(trees + [t]) == VersionCount(trees) + NamespacesVersionCount(t.namespaces)
  {
    if trees != [] {
      assert (trees + [t])[1..] == trees[1..] + [t];
      VersionCountSnoc(trees[1..], t);
    }
  }

  lemma {:induction false} NamespacesCount(ty: string, nss: seq<NamespaceNode>)
    ensures |NamespacesLeaves(ty, nss)| == NamespacesVersionCount(nss)
  {
    if nss != [] {
      var init, last := nss[..|nss| - 1], nss[|nss| - 1];
      NamespacesCount(ty, init);
      NamesCount(ty, last.namespace, last.names);
      NamespacesVersionCountSnoc(init, last);
      assert nss == init + [last];
    }
  }

  /** Exactly one leaf per version node of the trees. */
  lemma {:induction false} LeafCount(trees: seq<PackageTree>)
    ensures |Leaves(trees)| == VersionCount(trees)
  {
    if trees != [] {
      var init, last := trees[..|trees| - 1], trees[|trees| - 1];
      LeafCount(init);
      NamespacesCount(last.ty, last.namespaces);
      VersionCountSnoc(init, last);
      assert trees == init + [last];
    }
  }

  // ---------------------------------------------------------------------
  // The traversal itself: three nested loops over namespaces, names and
  // versions for each tree, pushing one value per version.

  /** `make` applied to every leaf, in order. */
  ghost function MapLeaves<T>(make: Leaf -> T, ls: seq<Leaf>): seq<T>
  {
    if ls == [] then [] else MapLeaves(make, ls[..|ls| - 1]) + [make(ls[|ls| - 1])]
  }

  lemma {:induction false} MapLeavesAt<T>(make: Leaf -> T, ls: seq<Leaf>)
    ensures |MapLeaves(make, ls)| == |ls|
    ensures forall i :: 0 <= i < |ls| ==> MapLeaves(make, ls)[i] == make(ls[i])
  {
    if ls != [] {
      MapLeavesAt(make, ls[..|ls| - 1]);
    }
  }

  lemma MapLeavesSnoc<T>(make: Leaf -> T, ls: seq<Leaf>, l: Leaf)
    ensures MapLeaves(make, ls + [l]) == MapLeaves(make, ls) + [make(l)]
  {
    assert (ls + [l])[..|ls|] == ls;
  }

  lemma VersionsLeavesSnoc(ty: string, ns: string, name: string, vs: seq<VersionNode>, l: nat)
    requires l < |vs|
    ensures VersionsLeaves(ty, ns, name, vs[..l + 1])
         == VersionsLeaves(ty, ns, name, vs[..l]) + [Leaf(ty, ns, name, vs[l].version)]
  {
    assert vs[..l + 1][..l] == vs[..l];
  }

  lemma NamesLeavesSnoc(ty: string, ns: string, names: seq<NameNode>, k: nat)
    requires k < |names|
    ensures NamesLeaves(ty, ns, names[..k + 1])
         == NamesLeaves(ty, ns, names[..k]) + VersionsLeaves(ty, ns, names[k].name, names[k].versions)
  {
    assert names[..k + 1][..k] == names[..k];
  }

  lemma NamespacesLeavesSnoc(ty: string, nss: seq<NamespaceNode>, j: nat)
    requires j < |nss|
    ensures NamespacesLeaves(ty, nss[..j + 1])
         == NamespacesLeaves(ty, nss[..j]) + NamesLeaves(ty, nss[j].namespace, nss[j].names)
  {
    assert nss[..j + 1][..j] == nss[..j];
  }

  lemma LeavesSnoc(trees: seq<PackageTree>, i: nat)
    requires i < |trees|
    ensures Leaves(trees[..i + 1]) == Leaves(trees[..i]) + NamespacesLeaves(trees[i].ty, trees[i].namespaces)
  {
    assert trees[..i + 1][..i] == trees[..i];
  }

  lemma {:induction false} MapLeavesAppend<T>(make: Leaf -> T, a: seq<Leaf>, b: seq<Leaf>)
    ensures MapLeaves(make, a + b) == MapLeaves(make, a) + MapLeaves(make, b)
  {
    if b == [] {
      assert a + b == a;
    } else {
      var init, last := b[..|b| - 1], b[|b| - 1];
      assert a + b == (a + init) + [last];
      MapLeavesSnoc(make, a + init, last);
      MapLeavesAppend(make, a, init);
    }
  }

  // ---------------------------------------------------------------------
  // The same levels with `make` applied at each leaf, which is what the
  // traversal builds; the fusion lemmas tie them to `Leaves`.

  function MakeVersions<T>(make: Leaf -> T, ty: string, ns: string, name: string, vs: seq<VersionNode>): seq<T>
  {
    if vs == [] then []
    else MakeVersions(make, ty, ns, name, vs[..|vs| - 1]) + [make(Leaf(ty, ns, name, vs[|vs| - 1].version))]
  }

  function MakeNames<T>(make: Leaf -> T, ty: string, ns: string, names: seq<NameNode>): seq<T>
  {
    if names == [] then []
    else
      var n := names[|names| - 1];
      MakeNames(make, ty, ns, names[..|names| - 1]) + MakeVersions(make, ty, ns, n.name, n.versions)
  }

  function MakeNamespaces<T>(make: Leaf -> T, ty: string, nss: seq<NamespaceNode>): seq<T>
  {
    if nss == [] then []
    else
      var n := nss[|nss| - 1];
      MakeNamespaces(make, ty, nss[..|nss| - 1]) + MakeNames(make, ty, n.namespace, n.names)
  }

  lemma {:induction false} MakeVersionsFusion<T>(make: Leaf -> T, ty: string, ns: string, name: string, vs: seq<VersionNode>)
    ensures MakeVersions(make, ty, ns, name, vs) == MapLeaves(make, VersionsLeaves(ty, ns, name, vs))
  {
    if vs != [] {
      MakeVersionsFusion(make, ty, ns, name, vs[..|vs| - 1]);
      MapLeavesSnoc(make, VersionsLeaves(ty, ns, name, vs[..|vs| - 1]), Leaf(ty, ns, name, vs[|vs| - 1].version));
    }
  }

  lemma {:induction false} MakeNamesFusion<T>(make: Leaf -> T, ty: string, ns: string, names: seq<NameNode>)
    ensures MakeNames(make, ty, ns, names) == MapLeaves(make, NamesLeaves(ty, ns, names))
  {
    if names != [] {
      var init, n := names[..|names| - 1], names[|names| - 1];
      MakeNamesFusion(make, ty, ns, init);
      MakeVersionsFusion(make, ty, ns, n.name, n.versions);
      MapLeavesAppend(make, NamesLeaves(ty, ns, init), VersionsLeaves(ty, ns, n.name, n.versions));
    }
  }

  lemma {:induction false} MakeNamespacesFusion<T>(make: Leaf -> T, ty: string, nss: seq<NamespaceNode>)
    ensures MakeNamespaces(make, ty, nss) == MapLeaves(make, NamespacesLeaves(ty, nss))
  {
    if nss != [] {
      var init, n := nss[..|nss| - 1], nss[|nss| - 1];
      MakeNamespacesFusion(make, ty, init);
      MakeNamesFusion(make, ty, n.namespace, n.names);
      MapLeavesAppend(make, NamespacesLeaves(ty, init), NamesLeaves(ty, n.namespace, n.names));
    }
  }

  lemma MakeVersionsSnoc<T>(make: Leaf -> T, ty: string, ns: string, name: string, vs: seq<VersionNode>, l: nat)
    requires l < |vs|
    ensures MakeVersions(make, ty, ns, name, vs[..l + 1])
         == MakeVersions(make, ty, ns, name, vs[..l]) + [make(Leaf(ty, ns, name, vs[l].version))]
  {
    assert vs[..l + 1][..l] == vs[..l];
  }

  lemma MakeNamesSnoc<T>(make: Leaf -> T, ty: string, ns: string, names: seq<NameNode>, k: nat)
    requires k < |names|
    ensures MakeNames(make, ty, ns, names[..k + 1])
         == MakeNames(make, ty, ns, names[..k]) + MakeVersions(make, ty, ns, names[k].name, names[k].versions)
  {
    assert names[..k + 1][..k] == names[..k];
  }

  lemma MakeNamespacesSnoc<T>(make: Leaf -> T, ty: string, nss: seq<NamespaceNode>, j: nat)
    requires j < |nss|
    ensures MakeNamespaces(make, ty, nss[..j + 1])
         == MakeNamespaces(make, ty, nss[..j]) + MakeNames(make, ty, nss[j].namespace, nss[j].names)
  {
    assert nss[..j + 1][..j] == nss[..j];
  }

  /**
   * The innermost pass of the traversal, over one name node: every version,
   * appending one value per version to `ret0`.
   */
  method FlattenName<T>(ty: string, namespace: string, name: NameNode, make: Leaf -> T, ret0: seq<T>)
    returns (ret: seq<T>)
    ensures ret == ret0 + MakeVersions(make, ty, namespace, name.name, name.versions)
  {
    ret := ret0;
    for l := 0 to |name.versions|
      invariant ret == ret0 + MakeVersions(make, ty, namespace, name.name, name.versions[..l])
    {
      var leaf := Leaf(ty, namespace, name.name, name.versions[l].version);
      MakeVersionsSnoc(make, ty, namespace, name.name, name.versions, l);
      ret := ret + [make(leaf)];
    }
    assert name.versions[..|name.versions|] == name.versions;
  }

  /**
   * The inner two passes of the traversal, over one namespace node: every
   * name, then every version, appending one value per version to `ret0`.
   */
  method FlattenNamespace<T>(ty: string, namespace: NamespaceNode, make: Leaf -> T, ret0: seq<T>)
    returns (ret: seq<T>)
    ensures ret == ret0 + MakeNames(make, ty, namespace.namespace, namespace.names)
  {
    ret := ret0;
    for k := 0 to |namespace.names|
      invariant ret == ret0 + MakeNames(make, ty, namespace.namespace, namespace.names[..k])
    {
      ret := FlattenName(ty, namespace.namespace, namespace.names[k], make, ret);
      MakeNamesSnoc(make, ty, namespace.namespace, namespace.names, k);
    }
    assert namespace.names[..|namespace.names|] == namespace.names;
  }

  /**
   * The traversal of a whole response: for every tree, every namespace,
   * then (in `FlattenNamespace`) every name and every version, producing one
   * value per version leaf in encounter order.
   */
  method Flatten<T>(trees: seq<PackageTree>, make: Leaf -> T) returns (ret: seq<T>)
    ensures |ret| == |Leaves(trees)|
    ensures forall i :: 0 <= i < |ret| ==> ret[i] == make(Leaves(trees)[i])
  {
    ret := [];
    for i := 0 to |trees|
      invariant ret == MapLeaves(make, Leaves(trees[..i]))
    {
      var t := trees[i];
      ghost var before := ret;
      for j := 0 to |t.namespaces|
        invariant ret == before + MakeNamespaces(make, t.ty, t.namespaces[..j])
      {
        MakeNamespacesSnoc(make, t.ty, t.namespaces, j);
        ret := FlattenNamespace(t.ty, t.namespaces[j], make, ret);
      }
      assert t.namespaces[..|t.namespaces|] == t.namespaces;
      MakeNamespacesFusion(make, t.ty, t.namespaces);
      MapLeavesAppend(make, Leaves(trees[..i]), NamespacesLeaves(t.ty, t.namespaces));
      LeavesSnoc(trees, i);
    }
    assert trees[..|trees|] == trees;
    MapLeavesAt(make, Leaves(trees));
  }
}
