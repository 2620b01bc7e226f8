/**
 The application filter: a predicate that keeps the installations of one
 application. The target id is fixed at construction and never changes, so
 the filter is an immutable value.
 */
module ApplicationFilters {
  import opened Installations

  datatype ApplicationFilter = ApplicationFilter(applicationId: int)
  {
    /** True for installations of the application chosen at construction. */
    predicate Filter(installation: Installation)
    {
      applicationId == installation.applicationId
    }
  }

  /**
   Only the application id matters: two installations with the same
   application id are both kept or both dropped, whatever their computer id,
   user id and computer type.
   */
  lemma FilterIgnoresOtherFields(filter: ApplicationFilter, a: Installation, b: Installation)
    requires a.applicationId == b.applicationId
    ensures filter.Filter(a) == filter.Filter(b)
  {
  }

  /** Kept exactly when the application id equals the target id. */
  lemma FilterMatchesApplicationId(filter: ApplicationFilter, installation: Installation)
    ensures filter.Filter(installation) <==> installation.applicationId == filter.applicationId
  {
  }

  /**
   Target 17: a matching installation is kept, the next application id is
   dropped, and so is a record whose computer and user ids are 17.
   */
  lemma FilterExamples()
    ensures ApplicationFilter(17).Filter(Installation(0, 0, 17, Desktop))
    ensures !ApplicationFilter(17).Filter(Installation(0, 0, 18, Desktop))
    ensures !ApplicationFilter(17).Filter(Installation(17, 17, 0, Desktop))
  {
  }
}
