/**
 The installation record: one observed installation of an application on one
 computer, owned by one user. Records are immutable values compared on all
 four fields, which is exactly Dafny's structural equality on datatypes.
 */
module Installations {

  /** The two computer types that exist for license assignment. */
  datatype ComputerType = Desktop | Laptop

  datatype Installation = Installation(
    computerId: int,
    userId: int,
    applicationId: int,
    computerType: ComputerType)

  /** Two records are equal exactly when all four fields agree. */
  lemma EqualityIsFieldwise(a: Installation, b: Installation)
    ensures a == b <==>
      && a.computerId == b.computerId
      && a.userId == b.userId
      && a.applicationId == b.applicationId
      && a.computerType == b.computerType
  {
  }
}
