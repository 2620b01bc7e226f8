/**
 The installation catalog: it groups installations by user id in an index
 map, then counts licenses by filtering each user's group and summing what
 the assessor says about each filtered group.
 */
module Catalog {
  import opened Installations
  import opened IndexMap
  import ApplicationFilters
  import LicenseAssessor

  /** The records of a group that the filter keeps. */
  function FilterGroup(group: set<Installation>, filter: Installation -> bool): (kept: set<Installation>)
    ensures kept <= group
    ensures forall r :: r in group ==> (r in kept <==> filter(r))
  {
    set r | r in group && filter(r)
  }

  /** The assessor's verdict on the filtered groups of the keys `keys`, summed. */
  ghost function TotalOver(
    m: Groups, keys: set<int>, filter: Installation -> bool, assessor: set<Installation> -> int): int
    requires keys <= m.Keys
    decreases keys
  {
    if keys == {} then 0
    else
      var k := Pick(keys);
      assessor(FilterGroup(m[k], filter)) + TotalOver(m, keys - {k}, filter, assessor)
  }

  /** The license count of a whole dictionary of groups. */
  ghost function CatalogTotal(m: Groups, filter: Installation -> bool, assessor: set<Installation> -> int): int
  {
    TotalOver(m, m.Keys, filter, assessor)
  }

  /** The sum over any key can be taken first: the total has no group order. */
  lemma {:induction false} TotalOverRemove(
    m: Groups, keys: set<int>, k: int, filter: Installation -> bool, assessor: set<Installation> -> int)
    requires keys <= m.Keys && k in keys
    ensures TotalOver(m, keys, filter, assessor)
         == assessor(FilterGroup(m[k], filter)) + TotalOver(m, keys - {k}, filter, assessor)
    decreases keys
  {
    var j := Pick(keys);
    if j != k {
      TotalOverRemove(m, keys - {j}, k, filter, assessor);
      TotalOverRemove(m, keys - {k}, j, filter, assessor);
      assert keys - {j} - {k} == keys - {k} - {j};
    }
  }

  /** The running sum over groups enumerated one after another. */
  function SumGroups(groups: seq<set<Installation>>, filter: Installation -> bool, assessor: set<Installation> -> int): int
  {
    if groups == [] then 0
    else SumGroups(groups[..|groups| - 1], filter, assessor) + assessor(FilterGroup(groups[|groups| - 1], filter))
  }

  lemma {:induction false} PrefixTotal(
    m: Groups, keys: seq<int>, groups: seq<set<Installation>>, n: nat,
    filter: Installation -> bool, assessor: set<Installation> -> int)
    requires EnumeratesGroups(m, keys, groups) && n <= |keys|
    ensures KeySet(keys[..n]) <= m.Keys
    ensures SumGroups(groups[..n], filter, assessor) == TotalOver(m, KeySet(keys[..n]), filter, assessor)
  {
    assert forall k :: k in KeySet(keys[..n]) ==> k in KeySet(keys);
    if n > 0 {
      PrefixTotal(m, keys, groups, n - 1, filter, assessor);
      var last := keys[n - 1];
      var before := KeySet(keys[..n - 1]);
      var after := KeySet(keys[..n]);
      assert keys[..n] == keys[..n - 1] + [last];
      assert after == before + {last};
      assert last !in before by {
        assert forall j :: 0 <= j < n - 1 ==> keys[..n - 1][j] == keys[j] != keys[n - 1];
      }
      assert after - {last} == before;
      assert groups[..n][..n - 1] == groups[..n - 1];
      TotalOverRemove(m, after, last, filter, assessor);
    }
  }

  /** Whatever order the index map enumerates its groups in, the sum is the catalog total. */
  lemma EnumerationTotal(
    m: Groups, keys: seq<int>, groups: seq<set<Installation>>,
    filter: Installation -> bool, assessor: set<Installation> -> int)
    requires EnumeratesGroups(m, keys, groups)
    ensures SumGroups(groups, filter, assessor) == CatalogTotal(m, filter, assessor)
  {
    PrefixTotal(m, keys, groups, |keys|, filter, assessor);
    assert keys[..|keys|] == keys;
    assert groups[..|groups|] == groups;
  }

  /** The (user id, installation) additions made for a sequence of installations. */
  function KeyedByUser(installations: seq<Installation>): (history: seq<(int, Installation)>)
    ensures |history| == |installations|
    ensures forall i :: 0 <= i < |installations| ==> history[i] == (installations[i].userId, installations[i])
  {
    seq(|installations|, i requires 0 <= i < |installations| => (installations[i].userId, installations[i]))
  }

  class InstallationCatalog {
    const indexMap: InstallationIndexMap

    ghost predicate Valid()
      reads indexMap
    {
      indexMap.Valid()
    }

    /** A catalog over the given index map. */
    constructor (indexMap: InstallationIndexMap)
      ensures this.indexMap == indexMap
    {
      this.indexMap := indexMap;
    }

    /** Add each installation once, indexed by its user id. */
    method AddInstallationsByUser(installationsToAdd: seq<Installation>)
      requires Valid()
      modifies indexMap
      ensures Valid()
      ensures indexMap.history == old(indexMap.history) + KeyedByUser(installationsToAdd)
    {
      for i := 0 to |installationsToAdd|
        invariant Valid()
        invariant indexMap.history == old(indexMap.history) + KeyedByUser(installationsToAdd[..i])
      {
        var installation := installationsToAdd[i];
        indexMap.AddInstallation(installation.userId, installation);
        assert KeyedByUser(installationsToAdd[..i + 1]) == KeyedByUser(installationsToAdd[..i]) + [(installation.userId, installation)];
      }
      assert installationsToAdd[..|installationsToAdd|] == installationsToAdd;
    }

    /**
     For each user's group, keep what the filter keeps and ask the assessor;
     return the sum over all groups.
     */
    method CountLicensesByUser(filter: Installation -> bool, assessor: set<Installation> -> int)
      returns (licensesRequiredTotal: int)
      requires Valid()
      ensures licensesRequiredTotal == CatalogTotal(indexMap.installationSets, filter, assessor)
    {
      var userGroups := indexMap.Values();
      licensesRequiredTotal := 0;
      for i := 0 to |userGroups|
        invariant licensesRequiredTotal == SumGroups(userGroups[..i], filter, assessor)
      {
        var considerInstallations := FilterGroup(userGroups[i], filter);
        licensesRequiredTotal := licensesRequiredTotal + assessor(considerInstallations);
        assert userGroups[..i + 1][..i] == userGroups[..i];
      }
      assert userGroups[..|userGroups|] == userGroups;
      ghost var keys :| EnumeratesGroups(indexMap.installationSets, keys, userGroups);
      EnumerationTotal(indexMap.installationSets, keys, userGroups, filter, assessor);
    }

    /** Counting reads the catalog only: two counts in a row agree. */
    method CountTwice(filter: Installation -> bool, assessor: set<Installation> -> int)
      returns (first: int, second: int)
      requires Valid()
      ensures first == second
    {
      first := CountLicensesByUser(filter, assessor);
      second := CountLicensesByUser(filter, assessor);
    }
  }

  // ---------------------------------------------------------------------
  // Properties of the catalog contents and of the total.

  /** After adding by user, each added installation sits in its user's group. */
  lemma AddedInstallationsAreHeld(history: seq<(int, Installation)>, installations: seq<Installation>)
    ensures forall x :: x in installations ==>
      var m := Insertions(history + KeyedByUser(installations));
      x.userId in m && x in m[x.userId]
  {
    var h := history + KeyedByUser(installations);
    forall x | x in installations
      ensures x.userId in Insertions(h) && x in Insertions(h)[x.userId]
    {
      var i :| 0 <= i < |installations| && installations[i] == x;
      assert h[|history| + i] == (x.userId, x);
      InsertionsHold(h, x.userId, x);
    }
  }

  /** Every addition made by the catalog is keyed by the record's own user id. */
  ghost predicate KeyedByOwnUser(history: seq<(int, Installation)>)
  {
    forall i :: 0 <= i < |history| ==> history[i].0 == history[i].1.userId
  }

  /** A catalog filled only by user holds, in each group, only that user's records. */
  lemma GroupsShareUser(history: seq<(int, Installation)>, k: int, r: Installation)
    requires KeyedByOwnUser(history)
    requires k in Insertions(history) && r in Insertions(history)[k]
    ensures r.userId == k
  {
    InsertionsHold(history, k, r);
  }

  /** A catalog filled from installations has one group per distinct user id, holding those installations. */
  lemma CatalogOfInstallations(installations: seq<Installation>)
    ensures KeyedByOwnUser(KeyedByUser(installations))
    ensures Insertions(KeyedByUser(installations)).Keys == set x | x in installations :: x.userId
    ensures Members(Insertions(KeyedByUser(installations))) == set x | x in installations
  {
    var h := KeyedByUser(installations);
    InsertionsKeys(h);
    InsertionsMembers(h);
    forall x | x in installations ensures (x.userId, x) in h {
      var i :| 0 <= i < |installations| && installations[i] == x;
      assert h[i] == (x.userId, x);
    }
  }

  /** An assessor that always answers `c` makes the total `c` times the number of groups. */
  lemma {:induction false} ConstantAssessor(
    m: Groups, keys: set<int>, filter: Installation -> bool, assessor: set<Installation> -> int, c: int)
    requires keys <= m.Keys
    requires forall g :: assessor(g) == c
    ensures TotalOver(m, keys, filter, assessor) == c * |keys|
    decreases keys
  {
    if keys != {} {
      var k := Pick(keys);
      ConstantAssessor(m, keys - {k}, filter, assessor, c);
    }
  }

  /**
   When the filter keeps nothing, every group reaches the assessor empty;
   with an assessor that gives 0 for no installations the total is 0.
   */
  lemma {:induction false} NothingKept(
    m: Groups, keys: set<int>, filter: Installation -> bool, assessor: set<Installation> -> int)
    requires keys <= m.Keys
    requires forall k, r :: k in keys && r in m[k] ==> !filter(r)
    ensures TotalOver(m, keys, filter, assessor) == assessor({}) * |keys|
    decreases keys
  {
    if keys != {} {
      var k := Pick(keys);
      assert FilterGroup(m[k], filter) == {};
      NothingKept(m, keys - {k}, filter, assessor);
    }
  }

  lemma EmptyCatalog(filter: Installation -> bool, assessor: set<Installation> -> int)
    ensures CatalogTotal(map[], filter, assessor) == 0
  {
  }

  // Two users of application 374: user 0 with two desktops (2 licenses) and
  // user 1 with one laptop (1 license) need 3 licenses in all.
  const firstDesktop := Installation(0, 0, 374, Desktop)
  const secondDesktop := Installation(1, 0, 374, Desktop)
  const laptop := Installation(2, 1, 374, Laptop)

  lemma ScenarioGroups()
    ensures Insertions(KeyedByUser([firstDesktop, secondDesktop, laptop]))
         == map[0 := {firstDesktop, secondDesktop}, 1 := {laptop}]
  {
    var h := KeyedByUser([firstDesktop, secondDesktop, laptop]);
    assert h == [(0, firstDesktop), (0, secondDesktop), (1, laptop)];
    assert h[..2] == [(0, firstDesktop), (0, secondDesktop)];
    assert h[..2][..1] == [(0, firstDesktop)];
    assert h[..2][..1][..0] == [];
    assert Insertions(h[..2][..1]) == map[0 := {firstDesktop}];
    assert {firstDesktop} + {secondDesktop} == {firstDesktop, secondDesktop};
  }

  lemma ScenarioAssessments()
    ensures LicenseAssessor.AssessSet({firstDesktop, secondDesktop}) == 2
    ensures LicenseAssessor.AssessSet({laptop}) == 1
  {
    assert LicenseAssessor.OfType({firstDesktop, secondDesktop}, Desktop) == {firstDesktop, secondDesktop};
    assert LicenseAssessor.OfType({firstDesktop, secondDesktop}, Laptop) == {};
    assert LicenseAssessor.OfType({laptop}, Desktop) == {};
    assert LicenseAssessor.OfType({laptop}, Laptop) == {laptop};
  }

  lemma {:induction false} TwoGroupTotal(
    m: Groups, x: int, y: int, filter: Installation -> bool, assessor: set<Installation> -> int)
    requires m.Keys == {x, y} && x != y
    ensures CatalogTotal(m, filter, assessor)
         == assessor(FilterGroup(m[x], filter)) + assessor(FilterGroup(m[y], filter))
  {
    TotalOverRemove(m, {x, y}, x, filter, assessor);
    assert {x, y} - {x} == {y};
    TotalOverRemove(m, {y}, y, filter, assessor);
    assert {y} - {y} == {};
  }

  lemma TwoUsersScenario()
    ensures CatalogTotal(
      Insertions(KeyedByUser([firstDesktop, secondDesktop, laptop])),
      r => ApplicationFilters.ApplicationFilter(374).Filter(r),
      g => LicenseAssessor.AssessSet(g)) == 3
  {
    var filter := r => ApplicationFilters.ApplicationFilter(374).Filter(r);
    var assessor := g => LicenseAssessor.AssessSet(g);
    ScenarioGroups();
    ScenarioAssessments();
    var m := map[0 := {firstDesktop, secondDesktop}, 1 := {laptop}];
    assert FilterGroup(m[0], filter) == m[0];
    assert FilterGroup(m[1], filter) == m[1];
    TwoGroupTotal(m, 0, 1, filter, assessor);
  }
}
