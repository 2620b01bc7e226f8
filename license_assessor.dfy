/**
 The license rule for one user's installations of one application: a license
 covers one desktop, or two machines of which at least one is a laptop (read
 literally, so two laptops may share a license).
 */
module LicenseAssessor {
  import opened Installations

  /** The number of records of type `t` in `s`, counted from the front. */
  function CountOf(s: seq<Installation>, t: ComputerType): (n: nat)
    ensures n <= |s|
  {
    if s == [] then 0
    else CountOf(s[..|s| - 1], t) + (if s[|s| - 1].computerType == t then 1 else 0)
  }

  function Max(a: int, b: int): int { if a < b then b else a }

  /**
   Licenses needed for `desktops` desktops and `laptops` laptops: one per
   desktop, laptops up to the desktop count pair with them for free, and each
   two excess laptops (or part thereof) cost one more.
   */
  function RequiredLicenses(desktops: nat, laptops: nat): (licenses: nat)
    ensures licenses >= desktops
    ensures laptops <= desktops ==> licenses == desktops
    ensures licenses == Max(desktops, (desktops + laptops + 1) / 2)
  {
    desktops + (if laptops > desktops then (laptops - desktops + 1) / 2 else 0)
  }

  /** The license requirement of a sequence of one user's installations. */
  function Assess(s: seq<Installation>): nat
  {
    RequiredLicenses(CountOf(s, Desktop), CountOf(s, Laptop))
  }

  /**
   One pass over the installations counting desktops and laptops, then the
   excess-laptop rule.
   */
  method AssessInstallationLicenses(installations: seq<Installation>) returns (licensesRequired: nat)
    ensures licensesRequired == RequiredLicenses(CountOf(installations, Desktop), CountOf(installations, Laptop))
  {
    var desktopComputers: nat := 0;
    var laptopComputers: nat := 0;
    var i := 0;
    while i < |installations|
      invariant 0 <= i <= |installations|
      invariant desktopComputers == CountOf(installations[..i], Desktop)
      invariant laptopComputers == CountOf(installations[..i], Laptop)
    {
      assert installations[..i + 1][..i] == installations[..i];
      match installations[i].computerType {
        case Desktop =>
          desktopComputers := desktopComputers + 1;
        case Laptop =>
          laptopComputers := laptopComputers + 1;
      }
      i := i + 1;
    }
    assert installations[..i] == installations;

    licensesRequired := desktopComputers;
    if laptopComputers > desktopComputers {
      var excessLaptops := laptopComputers - desktopComputers;
      licensesRequired := licensesRequired + (excessLaptops + 1) / 2;
    }
  }

  // ---------------------------------------------------------------------
  // Minimality: RequiredLicenses is the least number of licenses that can
  // cover the machines under the rule.

  /**
   A way of covering machines with licenses: licenses holding one desktop,
   a desktop and a laptop, one laptop, or two laptops.
   */
  datatype Allocation = Allocation(desktopOnly: nat, desktopLaptop: nat, laptopOnly: nat, laptopPair: nat)
  {
    function Size(): nat { desktopOnly + desktopLaptop + laptopOnly + laptopPair }

    /** Every machine is covered by exactly one license. */
    predicate Covers(desktops: nat, laptops: nat)
    {
      && desktopOnly + desktopLaptop == desktops
      && desktopLaptop + laptopOnly + 2 * laptopPair == laptops
    }
  }

  /** An allocation that uses exactly RequiredLicenses licenses. */
  function Cheapest(desktops: nat, laptops: nat): (a: Allocation)
    ensures a.Covers(desktops, laptops)
    ensures a.Size() == RequiredLicenses(desktops, laptops)
  {
    if laptops <= desktops then Allocation(desktops - laptops, laptops, 0, 0)
    else Allocation(0, desktops, (laptops - desktops) % 2, (laptops - desktops) / 2)
  }

  /** No allocation covering the machines uses fewer licenses. */
  lemma NoCheaperAllocation(a: Allocation, desktops: nat, laptops: nat)
    requires a.Covers(desktops, laptops)
    ensures a.Size() >= RequiredLicenses(desktops, laptops)
  {
    assert 2 * a.Size() >= desktops + laptops;
  }

  /** The literal rule is not simply MAX(desktopCount, laptopCount). */
  lemma NotMaxOfCounts()
    ensures RequiredLicenses(0, 2) == 1 != Max(0, 2)
  {
  }

  /** The worked examples D, L, DD, DL, LL, DDD, ..., DLLLLL. */
  lemma WorkedExamples()
    ensures RequiredLicenses(0, 0) == 0
    ensures RequiredLicenses(1, 0) == 1 && RequiredLicenses(0, 1) == 1
    ensures RequiredLicenses(2, 0) == 2 && RequiredLicenses(1, 1) == 1 && RequiredLicenses(0, 2) == 1
    ensures RequiredLicenses(3, 0) == 3 && RequiredLicenses(2, 1) == 2
    ensures RequiredLicenses(1, 2) == 2 && RequiredLicenses(0, 3) == 2
    ensures RequiredLicenses(4, 0) == 4 && RequiredLicenses(3, 1) == 3 && RequiredLicenses(2, 2) == 2
    ensures RequiredLicenses(1, 3) == 2 && RequiredLicenses(0, 4) == 2
    ensures RequiredLicenses(4, 1) == 4 && RequiredLicenses(3, 2) == 3 && RequiredLicenses(2, 3) == 3
    ensures RequiredLicenses(1, 4) == 3 && RequiredLicenses(1, 5) == 3
  {
  }

  // ---------------------------------------------------------------------
  // Counting lemmas.

  lemma {:induction false} CountOfAppend(a: seq<Installation>, b: seq<Installation>, t: ComputerType)
    ensures CountOf(a + b, t) == CountOf(a, t) + CountOf(b, t)
    decreases |b|
  {
    if b == [] {
      assert a + b == a;
    } else {
      assert (a + b)[..|a + b| - 1] == a + b[..|b| - 1];
      CountOfAppend(a, b[..|b| - 1], t);
    }
  }

  /** Every record is either a desktop or a laptop. */
  lemma {:induction false} CountsPartition(s: seq<Installation>)
    ensures CountOf(s, Desktop) + CountOf(s, Laptop) == |s|
  {
    if s != [] {
      CountsPartition(s[..|s| - 1]);
    }
  }

  /** Reordering the input never changes the counts, hence the result. */
  lemma {:induction false} CountOfPermutation(a: seq<Installation>, b: seq<Installation>, t: ComputerType)
    requires multiset(a) == multiset(b)
    ensures CountOf(a, t) == CountOf(b, t)
    decreases |a|
  {
    if a != [] {
      var x := a[|a| - 1];
      assert x in multiset(b);
      var i :| 0 <= i < |b| && b[i] == x;
      var a' := a[..|a| - 1];
      var b' := b[..i] + b[i + 1..];
      assert a == a' + [x];
      assert b == b[..i] + [x] + b[i + 1..];
      assert multiset(a) == multiset(a') + multiset{x};
      assert multiset(b) == multiset(b[..i]) + multiset{x} + multiset(b[i + 1..]);
      assert multiset(b') == multiset(b[..i]) + multiset(b[i + 1..]);
      assert multiset(a') == multiset(a) - multiset{x};
      assert multiset(b') == multiset(b) - multiset{x};
      CountOfPermutation(a', b', t);
      CountOfAppend(a', [x], t);
      CountOfAppend(b[..i] + [x], b[i + 1..], t);
      CountOfAppend(b[..i], [x], t);
      CountOfAppend(b[..i], b[i + 1..], t);
    }
  }

  lemma AssessPermutation(a: seq<Installation>, b: seq<Installation>)
    requires multiset(a) == multiset(b)
    ensures Assess(a) == Assess(b)
  {
    CountOfPermutation(a, b, Desktop);
    CountOfPermutation(a, b, Laptop);
  }

  lemma AssessEmpty()
    ensures Assess([]) == 0
  {
  }

  /** `n` machines of type `t` with computer ids 0..n-1, as the tests build them. */
  function Machines(n: nat, t: ComputerType): (s: seq<Installation>)
    ensures |s| == n
  {
    seq(n, i => Installation(i, 0, 0, t))
  }

  lemma {:induction false} CountOfMachines(n: nat, t: ComputerType, u: ComputerType)
    ensures CountOf(Machines(n, t), u) == if t == u then n else 0
  {
    if n > 0 {
      assert Machines(n, t)[..n - 1] == Machines(n - 1, t);
      CountOfMachines(n - 1, t, u);
    }
  }

  /** Any number of laptops followed by any number of desktops. */
  lemma LaptopsThenDesktops(laptops: nat, desktops: nat)
    ensures Assess(Machines(laptops, Laptop) + Machines(desktops, Desktop)) == RequiredLicenses(desktops, laptops)
  {
    var s := Machines(laptops, Laptop) + Machines(desktops, Desktop);
    CountOfAppend(Machines(laptops, Laptop), Machines(desktops, Desktop), Desktop);
    CountOfAppend(Machines(laptops, Laptop), Machines(desktops, Desktop), Laptop);
    CountOfMachines(laptops, Laptop, Desktop);
    CountOfMachines(laptops, Laptop, Laptop);
    CountOfMachines(desktops, Desktop, Desktop);
    CountOfMachines(desktops, Desktop, Laptop);
  }

  /** The large cases: 10 L + 8 D, 11 L + 8 D, 2 L + 11 D. */
  lemma LargeCases()
    ensures Assess(Machines(10, Laptop) + Machines(8, Desktop)) == 9
    ensures Assess(Machines(11, Laptop) + Machines(8, Desktop)) == 10
    ensures Assess(Machines(2, Laptop) + Machines(11, Desktop)) == 11
  {
    LaptopsThenDesktops(10, 8);
    LaptopsThenDesktops(11, 8);
    LaptopsThenDesktops(2, 11);
  }

  // ---------------------------------------------------------------------
  // The assessor on a duplicate-free group (a set), as the catalog uses it.

  /** The records of type `t` in a set. */
  function OfType(g: set<Installation>, t: ComputerType): set<Installation>
  {
    set r | r in g && r.computerType == t
  }

  /** The number of records of type `t` in a set. */
  function SetCountOf(g: set<Installation>, t: ComputerType): nat
  {
    |OfType(g, t)|
  }

  /** The license requirement of a group of records that share a user. */
  function AssessSet(g: set<Installation>): nat
  {
    RequiredLicenses(SetCountOf(g, Desktop), SetCountOf(g, Laptop))
  }

  predicate Distinct(s: seq<Installation>)
  {
    forall i, j :: 0 <= i < j < |s| ==> s[i] != s[j]
  }

  lemma SetCountOfAdd(g: set<Installation>, x: Installation, t: ComputerType)
    requires x !in g
    ensures SetCountOf(g + {x}, t) == SetCountOf(g, t) + (if x.computerType == t then 1 else 0)
  {
    if x.computerType == t {
      assert OfType(g + {x}, t) == OfType(g, t) + {x};
    } else {
      assert OfType(g + {x}, t) == OfType(g, t);
    }
  }

  /** Counting along any duplicate-free enumeration of a set counts the set. */
  lemma {:induction false} CountOfEnumeration(s: seq<Installation>, g: set<Installation>, t: ComputerType)
    requires Distinct(s) && (set r | r in s) == g
    ensures CountOf(s, t) == SetCountOf(g, t)
    decreases |s|
  {
    if s == [] {
      assert OfType(g, t) == {};
    } else {
      var x := s[|s| - 1];
      var s' := s[..|s| - 1];
      var g' := set r | r in s';
      assert s == s' + [x];
      assert Distinct(s') by {
        assert forall j :: 0 <= j < |s'| ==> s'[j] == s[j];
      }
      assert x !in g' by {
        assert forall j :: 0 <= j < |s'| ==> s'[j] == s[j] != s[|s| - 1];
      }
      assert g == g' + {x};
      CountOfEnumeration(s', g', t);
      SetCountOfAdd(g', x, t);
    }
  }

  /**
   Whatever order a set's members are enumerated in, the assessor returns
   the same count as AssessSet.
   */
  lemma AssessEnumeration(s: seq<Installation>, g: set<Installation>)
    requires Distinct(s) && (set r | r in s) == g
    ensures Assess(s) == AssessSet(g)
  {
    CountOfEnumeration(s, g, Desktop);
    CountOfEnumeration(s, g, Laptop);
  }
}
