/**
 The grouping index: a dictionary from an integer index value to the set of
 installations added under it, with add-or-create insertion.
 */
module IndexMap {
  import opened Installations

  type Groups = map<int, set<Installation>>

  /** The dictionary after adding `installation` under `indexValue`. */
  function Insert(m: Groups, indexValue: int, installation: Installation): (m': Groups)
    ensures m'.Keys == m.Keys + {indexValue}
    ensures installation in m'[indexValue]
    ensures indexValue in m ==> m'[indexValue] == m[indexValue] + {installation}
    ensures indexValue !in m ==> m'[indexValue] == {installation}
    ensures forall k :: k in m && k != indexValue ==> m'[k] == m[k]
  {
    if indexValue in m then m[indexValue := m[indexValue] + {installation}]
    else m[indexValue := {installation}]
  }

  /** The dictionary built by a sequence of (index value, installation) additions. */
  function Insertions(history: seq<(int, Installation)>): Groups
  {
    if history == [] then map[]
    else
      var last := history[|history| - 1];
      Insert(Insertions(history[..|history| - 1]), last.0, last.1)
  }

  /** Every installation held anywhere in the dictionary. */
  function Members(m: Groups): set<Installation>
  {
    set k, r | k in m && r in m[k] :: r
  }

  /** Adding an installation already held under that index changes nothing. */
  lemma InsertIdempotent(m: Groups, indexValue: int, installation: Installation)
    requires indexValue in m && installation in m[indexValue]
    ensures Insert(m, indexValue, installation) == m
  {
    assert m[indexValue] + {installation} == m[indexValue];
  }

  /** A group holds exactly the installations that were added under its index. */
  lemma {:induction false} InsertionsHold(history: seq<(int, Installation)>, k: int, r: Installation)
    ensures (k in Insertions(history) && r in Insertions(history)[k]) <==> (k, r) in history
  {
    if history != [] {
      var prefix := history[..|history| - 1];
      assert history == prefix + [history[|history| - 1]];
      InsertionsHold(prefix, k, r);
    }
  }

  /** The groups are exactly the distinct index values ever used. */
  lemma {:induction false} InsertionsKeys(history: seq<(int, Installation)>)
    ensures Insertions(history).Keys == set p | p in history :: p.0
  {
    if history != [] {
      var prefix := history[..|history| - 1];
      assert history == prefix + [history[|history| - 1]];
      InsertionsKeys(prefix);
    }
  }

  /** No group is ever empty. */
  lemma {:induction false} InsertionsNonEmpty(history: seq<(int, Installation)>)
    ensures forall k :: k in Insertions(history) ==> Insertions(history)[k] != {}
  {
    if history != [] {
      InsertionsNonEmpty(history[..|history| - 1]);
    }
  }

  /** No installation is lost or gained: the union of the groups is what was added. */
  lemma InsertionsMembers(history: seq<(int, Installation)>)
    ensures Members(Insertions(history)) == set p | p in history :: p.1
  {
    var m := Insertions(history);
    forall r | r in Members(m) ensures r in set p | p in history :: p.1 {
      var k :| k in m && r in m[k];
      InsertionsHold(history, k, r);
    }
    forall p | p in history ensures p.1 in Members(m) {
      InsertionsHold(history, p.0, p.1);
    }
  }

  /** Repeating an addition already made leaves the dictionary as it was. */
  lemma RepeatedInsertion(history: seq<(int, Installation)>, k: int, r: Installation)
    requires (k, r) in history
    ensures Insertions(history + [(k, r)]) == Insertions(history)
  {
    var h := history + [(k, r)];
    assert h[..|h| - 1] == history;
    InsertionsHold(history, k, r);
    InsertIdempotent(Insertions(history), k, r);
  }

  class InstallationIndexMap {
    var installationSets: Groups
    /** The additions made so far, in order. */
    ghost var history: seq<(int, Installation)>

    ghost predicate Valid()
      reads this
    {
      installationSets == Insertions(history)
    }

    /** An empty index. */
    constructor ()
      ensures Valid()
      ensures history == [] && installationSets == map[]
    {
      installationSets := map[];
      history := [];
    }

    /**
     The groups in no particular order: one per index value, each the set
     held under that index value.
     */
    method Values() returns (groups: seq<set<Installation>>)
      requires Valid()
      ensures |groups| == |installationSets|
      ensures exists keys :: EnumeratesGroups(installationSets, keys, groups)
    {
      groups := [];
      ghost var keys: seq<int> := [];
      var remaining := installationSets.Keys;
      while remaining != {}
        invariant remaining <= installationSets.Keys
        invariant EnumeratesKeys(keys, installationSets.Keys - remaining)
        invariant |groups| == |keys|
        invariant forall i :: 0 <= i < |keys| ==> keys[i] in installationSets
        invariant forall i :: 0 <= i < |keys| ==> groups[i] == installationSets[keys[i]]
        decreases remaining
      {
        NonEmptyHasMember(remaining);
        var k :| k in remaining;
        assert KeySet(keys + [k]) == KeySet(keys) + {k};
        groups := groups + [installationSets[k]];
        keys := keys + [k];
        remaining := remaining - {k};
      }
      assert EnumeratesGroups(installationSets, keys, groups);
      DistinctKeysCardinality(keys, installationSets.Keys);
    }

    /** Add an installation to the group of `indexValue`, creating the group if absent. */
    method AddInstallation(indexValue: int, installation: Installation)
      requires Valid()
      modifies this
      ensures Valid()
      ensures history == old(history) + [(indexValue, installation)]
      ensures installationSets == Insert(old(installationSets), indexValue, installation)
    {
      if indexValue in installationSets {
        installationSets := installationSets[indexValue := installationSets[indexValue] + {installation}];
      } else {
        installationSets := installationSets[indexValue := GetInstallationSet(installation)];
      }
      history := history + [(indexValue, installation)];
      assert history[..|history| - 1] == old(history);
    }

    /** A new group with `initialMember` as its sole occupant. */
    static function GetInstallationSet(initialMember: Installation): (group: set<Installation>)
      ensures initialMember in group
      ensures forall other :: other in group ==> other == initialMember
    {
      {initialMember}
    }
  }

  lemma NonEmptyHasMember(keys: set<int>)
    requires keys != {}
    ensures exists k :: k in keys
  {
    if forall k :: k !in keys {
      assert false;
    }
  }

  /** Some element of a non-empty set of keys. */
  ghost function Pick(keys: set<int>): (k: int)
    requires keys != {}
    ensures k in keys
  {
    NonEmptyHasMember(keys);
    var x :| x in keys; x
  }

  /** The elements of a sequence of keys. */
  ghost function KeySet(keys: seq<int>): set<int>
  {
    set k | k in keys
  }

  /** `keys` lists every element of `ks` exactly once. */
  ghost predicate EnumeratesKeys(keys: seq<int>, ks: set<int>)
  {
    && (forall i, j :: 0 <= i < j < |keys| ==> keys[i] != keys[j])
    && KeySet(keys) == ks
  }

  /** `groups` lists the dictionary's groups, in the order of the keys `keys`. */
  ghost predicate EnumeratesGroups(m: Groups, keys: seq<int>, groups: seq<set<Installation>>)
  {
    && EnumeratesKeys(keys, m.Keys)
    && |groups| == |keys|
    && forall i :: 0 <= i < |keys| ==> groups[i] == m[keys[i]]
  }

  lemma {:induction false} DistinctKeysCardinality(keys: seq<int>, ks: set<int>)
    requires EnumeratesKeys(keys, ks)
    ensures |keys| == |ks|
    decreases |keys|
  {
    if keys != [] {
      var last := keys[|keys| - 1];
      var prefix := keys[..|keys| - 1];
      assert keys == prefix + [last];
      assert last !in KeySet(prefix) by {
        assert forall j :: 0 <= j < |prefix| ==> prefix[j] == keys[j] != keys[|keys| - 1];
      }
      assert ks == KeySet(prefix) + {last};
      DistinctKeysCardinality(prefix, KeySet(prefix));
    }
  }
}
