/**
 The step from parsed report rows to installation records: each parsed row
 carries its row index, an optional mapping error and the parsed record, and
 only the rows without an error are kept.
 */
module ReportLoader {
  import opened Installations

  datatype Option<T> = None | Some(value: T)

  /** The four columns of a report row that matter (the comment column is not kept). */
  datatype InstallationData = InstallationData(computerId: int, userId: int, applicationId: int, computerType: ComputerType)
  {
    /** The installation record with the same four fields. */
    function ToInstallation(): (installation: Installation)
      ensures installation.computerId == computerId
      ensures installation.userId == userId
      ensures installation.applicationId == applicationId
      ensures installation.computerType == computerType
    {
      Installation(computerId, userId, applicationId, computerType)
    }
  }

  /** A row with every property at its default value. */
  const DefaultData := InstallationData(0, 0, 0, Desktop)

  /** The parse data of an installation record; the inverse of ToInstallation. */
  function FromInstallation(installation: Installation): InstallationData
  {
    InstallationData(installation.computerId, installation.userId, installation.applicationId, installation.computerType)
  }

  /** Which column failed to parse, and the text found there. */
  datatype CsvMappingError = CsvMappingError(columnIndex: int, value: string)

  /** The parser's outcome for one row. */
  datatype CsvMappingResult = CsvMappingResult(rowIndex: int, error: Option<CsvMappingError>, result: InstallationData)
  {
    /** A row is valid exactly when no mapping error was recorded, whatever its result holds. */
    predicate IsValid() { error.None? }
  }

  /**
   The installation records of the valid rows, in row order. Rows flagged
   invalid are dropped even when they carry a parsed record.
   */
  function ConvertReportData(loadResults: seq<CsvMappingResult>): (installations: seq<Installation>)
    ensures |installations| <= |loadResults|
    ensures |installations| == |loadResults| <==> forall i :: 0 <= i < |loadResults| ==> loadResults[i].IsValid()
    ensures forall x :: x in installations <==>
      exists i :: 0 <= i < |loadResults| && loadResults[i].IsValid() && loadResults[i].result.ToInstallation() == x
  {
    if loadResults == [] then []
    else
      var prefix := loadResults[..|loadResults| - 1];
      var last := loadResults[|loadResults| - 1];
      var converted := ConvertReportData(prefix);
      assert forall i :: 0 <= i < |prefix| ==> prefix[i] == loadResults[i];
      if last.IsValid() then converted + [last.result.ToInstallation()] else converted
  }

  // ---------------------------------------------------------------------
  // Properties of the conversion.

  lemma EmptyReport()
    ensures ConvertReportData([]) == []
  {
  }

  /** Record and parse data convert into each other without loss. */
  lemma ToInstallationRoundTrip(data: InstallationData, installation: Installation)
    ensures FromInstallation(data.ToInstallation()) == data
    ensures FromInstallation(installation).ToInstallation() == installation
  {
  }

  /** A row with all properties left at their defaults converts to the record of zeros. */
  lemma DefaultDataConverts()
    ensures DefaultData.ToInstallation() == Installation(0, 0, 0, Desktop)
  {
  }

  /** One row converts to its record when valid and to nothing otherwise. */
  lemma ConvertSingleRow(row: CsvMappingResult)
    ensures ConvertReportData([row]) == if row.IsValid() then [row.result.ToInstallation()] else []
  {
    assert [row][..0] == [];
  }

  /** Converting a concatenation converts each part: order is kept, and rows are independent. */
  lemma {:induction false} ConvertAppend(a: seq<CsvMappingResult>, b: seq<CsvMappingResult>)
    ensures ConvertReportData(a + b) == ConvertReportData(a) + ConvertReportData(b)
    decreases |b|
  {
    if b == [] {
      assert a + b == a;
    } else {
      assert (a + b)[..|a + b| - 1] == a + b[..|b| - 1];
      assert (a + b)[|a + b| - 1] == b[|b| - 1];
      ConvertAppend(a, b[..|b| - 1]);
    }
  }

  /** An invalid row between two stretches of rows contributes nothing. */
  lemma DropsInvalidRow(a: seq<CsvMappingResult>, row: CsvMappingResult, b: seq<CsvMappingResult>)
    requires !row.IsValid()
    ensures ConvertReportData(a + [row] + b) == ConvertReportData(a) + ConvertReportData(b)
  {
    ConvertAppend(a + [row], b);
    ConvertAppend(a, [row]);
    ConvertSingleRow(row);
  }

  /** A valid row contributes its own record, in its own place. */
  lemma KeepsValidRow(a: seq<CsvMappingResult>, row: CsvMappingResult, b: seq<CsvMappingResult>)
    requires row.IsValid()
    ensures ConvertReportData(a + [row] + b) == ConvertReportData(a) + [row.result.ToInstallation()] + ConvertReportData(b)
  {
    ConvertAppend(a + [row], b);
    ConvertAppend(a, [row]);
    ConvertSingleRow(row);
  }

  /** When every row is valid, the i-th record is the i-th row's record. */
  lemma {:induction false} ConvertAllValid(loadResults: seq<CsvMappingResult>)
    requires forall i :: 0 <= i < |loadResults| ==> loadResults[i].IsValid()
    ensures |ConvertReportData(loadResults)| == |loadResults|
    ensures forall i :: 0 <= i < |loadResults| ==>
      ConvertReportData(loadResults)[i] == loadResults[i].result.ToInstallation()
  {
    if loadResults != [] {
      var prefix := loadResults[..|loadResults| - 1];
      ConvertAllValid(prefix);
    }
  }

  /** The indices of the valid rows. */
  function ValidRows(loadResults: seq<CsvMappingResult>): set<int>
  {
    set i | 0 <= i < |loadResults| && loadResults[i].IsValid()
  }

  /** The output has one record per valid row. */
  lemma {:induction false} ConvertLength(loadResults: seq<CsvMappingResult>)
    ensures |ConvertReportData(loadResults)| == |ValidRows(loadResults)|
  {
    if loadResults == [] {
      assert ValidRows(loadResults) == {};
    } else {
      var n := |loadResults| - 1;
      var prefix := loadResults[..n];
      ConvertLength(prefix);
      if loadResults[n].IsValid() {
        assert ValidRows(loadResults) == ValidRows(prefix) + {n};
      } else {
        assert ValidRows(loadResults) == ValidRows(prefix);
      }
    }
  }

  const data0 := InstallationData(3, 4, 5, Laptop)
  const data1 := InstallationData(13, 14, 15, Desktop)
  const data2 := InstallationData(23, 24, 25, Laptop)
  const valid0 := CsvMappingResult(0, None, data0)
  const valid1 := CsvMappingResult(1, None, data1)
  const valid2 := CsvMappingResult(2, None, data2)
  /** An error row that still carries a parsed record. */
  const invalid1 := CsvMappingResult(1, Some(CsvMappingError(44, "Test error")), data1)

  /** Three valid rows give three records; the first and last match the first and last rows. */
  lemma AllValidReport()
    ensures |ConvertReportData([valid0, valid1, valid2])| == 3
    ensures ConvertReportData([valid0, valid1, valid2])[0] == Installation(3, 4, 5, Laptop)
    ensures ConvertReportData([valid0, valid1, valid2])[2] == Installation(23, 24, 25, Laptop)
  {
    ConvertAllValid([valid0, valid1, valid2]);
  }

  /** The error row in the middle is dropped although it has a record. */
  lemma InvalidMiddleRow()
    ensures ConvertReportData([valid0, invalid1, valid2]) == [data0.ToInstallation(), data2.ToInstallation()]
  {
    assert [valid0, invalid1, valid2] == [valid0] + [invalid1] + [valid2];
    DropsInvalidRow([valid0], invalid1, [valid2]);
    ConvertSingleRow(valid0);
    ConvertSingleRow(valid2);
  }
}
