# license-count: the counting engine, modelled in Dafny

license-count reads a report of application installations and works out how
many licenses an application needs. Each installation record has a computer
id, a user id, an application id and a computer type (Desktop or Laptop). One
license covers one desktop. It also covers two computers if at least one of
them is a laptop. Read literally, that lets two laptops share a license.

This project models the engine, in the modules below.

- **Installations** (`installations.dfy`): the record and the computer type.
  Both are datatypes. Structural equality is the record's four-field value
  equality. `Installation.cs` is not part of this model; its equality is
  taken from its tests.
- **LicenseAssessor** (`license_assessor.dfy`): the one-pass counting
  method. It is proved equal to the specification function
  `RequiredLicenses` (D desktops, L laptops: D plus half the excess laptops,
  rounded up). The file also proves:
  - the closed form `max(D, ceil((D+L)/2))`;
  - minimality against every possible allocation of machines to licenses;
  - independence of input order;
  - the worked examples and the large cases from the tests;
  - agreement between counting along any duplicate-free enumeration of a
    set and counting the set (`AssessSet`).
- **IndexMap** (`index_map.dfy`): the class `InstallationIndexMap`. It
  holds a `map<int, set<Installation>>` that `AddInstallation` updates in
  place. A ghost history of additions ties the map to a fold of insertions.
  That fold has proved properties: membership, one group per distinct key,
  no record lost or gained, no empty group, and no change from re-adding.
  `Values()` lists the groups in an unspecified order, and states that the
  list is an enumeration of the map.
- **ApplicationFilters** (`application_filter.dfy`): the application-id
  predicate, as an immutable value.
- **Catalog** (`catalog.dfy`): the class `InstallationCatalog`.
  - It adds records keyed by user id.
  - It counts licenses by filtering each user's group and summing the
    assessor's verdicts.
  - The count is proved equal to an order-independent total over the map's
    keys, whatever order the groups are enumerated in.
  - The filter and the assessor are function parameters, so both the real
    ones and the test stubs can be plugged in.
- **ComputerTypeConverter** (`computer_type_converter.dfy`): the
  Desktop/Laptop token parser, under the two comparison modes it is used
  with.
- **ReportLoader** (`report_conversion.dfy`): the parsed-row datatype and
  the projection that keeps only the valid rows, in order, as installation
  records.

## Model

| member | source | states |
|---|---|---|
| `LicenseAssessor.AssessInstallationLicenses` | src/InstallationModel/LicenseAssessor.cs:62-94 | the counting loop plus the excess-laptop rule returns `RequiredLicenses` of the input's desktop and laptop counts; the invariant is that the counters equal the counts of the prefix processed |
| `LicenseAssessor.RequiredLicenses` | src/InstallationModel/LicenseAssessor.cs:82-90 | the result is at least D, is exactly D when L <= D, and always equals max(D, ceil((D+L)/2)) |
| `LicenseAssessor.Cheapest` | src/InstallationModel/LicenseAssessor.cs:21-22 | some allocation of the machines to licenses (desktop alone, desktop plus laptop, laptop alone, two laptops) uses exactly `RequiredLicenses` licenses |
| `LicenseAssessor.NoCheaperAllocation` | src/InstallationModel/LicenseAssessor.cs:13-22 | no allocation covering D desktops and L laptops uses fewer than `RequiredLicenses(D, L)` licenses, so the rule is the minimum |
| `LicenseAssessor.NotMaxOfCounts` | src/InstallationModel/LicenseAssessor.cs:33 | two laptops need one license, not max(desktops, laptops) = 2 |
| `LicenseAssessor.WorkedExamples` | src/InstallationModel/LicenseAssessor.cs:35-54 | every row of the worked example table, from D => 1 to D L L L L L => 3 |
| `LicenseAssessor.CountsPartition` | src/InstallationModel/ComputerType.cs:8-13 | every record is counted as exactly one of desktop or laptop |
| `LicenseAssessor.CountOfAppend` | src/InstallationModel/LicenseAssessor.cs:69-80 | the count of a type in a concatenation is the sum of the counts of the parts |
| `LicenseAssessor.CountOfPermutation` | src/InstallationModel/LicenseAssessor.cs:69-80 | two inputs holding the same records in any order have the same count of each type |
| `LicenseAssessor.AssessPermutation` | src/InstallationModel/LicenseAssessor.cs:62-94 | reordering the input never changes the number of licenses |
| `LicenseAssessor.AssessEmpty` | test/InstallationModelTests/LicenseAssessorTests.cs:28-37 | no installations need no licenses |
| `LicenseAssessor.CountOfMachines` | test/InstallationModelTests/LicenseAssessorTests.cs:160-214 | a run of n machines of one type counts n of that type and none of the other |
| `LicenseAssessor.LaptopsThenDesktops` | test/InstallationModelTests/LicenseAssessorTests.cs:160-214 | any number of laptops followed by any number of desktops is assessed by the rule on those two counts |
| `LicenseAssessor.LargeCases` | test/InstallationModelTests/LicenseAssessorTests.cs:160-214 | 10 laptops + 8 desktops need 9, 11 + 8 need 10, 2 + 11 need 11 |
| `LicenseAssessor.SetCountOfAdd` | src/InstallationModel/InstallationIndexMap.cs:56 | adding a new record to a set raises the count of its own type by one and leaves the other count as it was |
| `LicenseAssessor.CountOfEnumeration` | src/InstallationModel/InstallationCatalog.cs:56-58 | counting along any duplicate-free enumeration of a set gives the set's count |
| `LicenseAssessor.AssessEnumeration` | src/InstallationModel/InstallationCatalog.cs:56-58 | the assessor gives the same answer for a user's group whatever order the group's records are enumerated in |
| `Installations.EqualityIsFieldwise` | test/InstallationModelTests/InstallationTests.cs:19-70 | two records are equal exactly when all four fields agree |
| `IndexMap.Insert` | src/InstallationModel/InstallationIndexMap.cs:36-47 | after an addition the key is present and its group holds the record; an existing group gains exactly that record, a new key gets the singleton set, and every other group is unchanged |
| `IndexMap.InsertIdempotent` | src/InstallationModel/InstallationIndexMap.cs:41 | adding a record already in the key's group leaves the dictionary unchanged |
| `IndexMap.InsertionsHold` | src/InstallationModel/InstallationIndexMap.cs:36-47 | a key's group holds a record exactly when that (key, record) addition was made |
| `IndexMap.InsertionsKeys` | test/InstallationModelTests/InstallationIndexMapTests.cs:32-47 | the groups are exactly the distinct keys ever added under |
| `IndexMap.InsertionsNonEmpty` | src/InstallationModel/InstallationIndexMap.cs:45-56 | no group is empty |
| `IndexMap.InsertionsMembers` | test/InstallationModelTests/InstallationIndexMapTests.cs:95-138 | the union of all groups is exactly the set of records added: nothing lost or gained |
| `IndexMap.RepeatedInsertion` | src/InstallationModel/InstallationIndexMap.cs:41 | repeating an addition already made leaves the dictionary as it was |
| `IndexMap.InstallationIndexMap.constructor` | src/InstallationModel/InstallationIndexMap.cs:19-22 | a new index has no groups and no additions |
| `IndexMap.InstallationIndexMap.Values` | src/InstallationModel/InstallationIndexMap.cs:27 | the result holds one group per key, each equal to the set held under that key, in some order of the keys with none repeated |
| `IndexMap.InstallationIndexMap.AddInstallation` | src/InstallationModel/InstallationIndexMap.cs:36-47 | the dictionary becomes `Insert` of the old one, and the addition is appended to the history that the dictionary is the fold of |
| `IndexMap.InstallationIndexMap.GetInstallationSet` | src/InstallationModel/InstallationIndexMap.cs:54-57 | the new group holds the initial member and nothing else |
| `IndexMap.DistinctKeysCardinality` | src/InstallationModel/InstallationIndexMap.cs:27 | a duplicate-free listing of a key set is as long as the set, so there are as many groups listed as keys |
| `ApplicationFilters.FilterMatchesApplicationId` | src/InstallationModel/ApplicationFilter.cs:22 | an installation is kept exactly when its application id is the target id |
| `ApplicationFilters.FilterIgnoresOtherFields` | test/InstallationModelTests/ApplicationFilterTests.cs:53-62 | two installations with the same application id are treated alike, whatever their other fields |
| `ApplicationFilters.FilterExamples` | test/InstallationModelTests/ApplicationFilterTests.cs:22-62 | target 17 keeps application 17, drops application 18, and drops a record whose computer and user ids are 17 |
| `Catalog.FilterGroup` | src/InstallationModel/InstallationCatalog.cs:56 | the records passed to the assessor are the group's records the filter keeps, and only those |
| `Catalog.TotalOverRemove` | src/InstallationModel/InstallationCatalog.cs:54-59 | the total over a set of keys can take any key's term first, so it does not depend on the order of the groups |
| `Catalog.PrefixTotal` | src/InstallationModel/InstallationCatalog.cs:52-59 | after the first n groups of an enumeration, the running sum is the total over those n keys |
| `Catalog.EnumerationTotal` | src/InstallationModel/InstallationCatalog.cs:52-61 | summing along any enumeration of the groups gives the order-independent catalog total |
| `Catalog.KeyedByUser` | src/InstallationModel/InstallationCatalog.cs:35-38 | each installation to add becomes one addition, in order, keyed by its own user id |
| `Catalog.InstallationCatalog.constructor` | src/InstallationModel/InstallationCatalog.cs:23-26 | the catalog works over the index map it is given |
| `Catalog.InstallationCatalog.AddInstallationsByUser` | src/InstallationModel/InstallationCatalog.cs:33-39 | the index map's additions grow by exactly one (user id, record) addition per record, in input order, and the map stays their fold |
| `Catalog.InstallationCatalog.CountLicensesByUser` | src/InstallationModel/InstallationCatalog.cs:49-62 | the result is the sum, over all groups of the index map, of the assessor applied to the filtered group |
| `Catalog.InstallationCatalog.CountTwice` | src/InstallationModel/InstallationCatalog.cs:54-58 | counting changes nothing, so two counts in a row agree |
| `Catalog.AddedInstallationsAreHeld` | src/InstallationModel/InstallationCatalog.cs:33-39 | after adding by user, each added record is in the group of its user id |
| `Catalog.GroupsShareUser` | test/InstallationModelTests/InstallationCatalogTests.cs:36-50 | in a catalog filled by user id, every record of a group has that group's user id |
| `Catalog.CatalogOfInstallations` | test/InstallationModelTests/InstallationCatalogTests.cs:36-50 | filling from installations gives one group per distinct user id, and the groups hold exactly those installations |
| `Catalog.ConstantAssessor` | test/InstallationModelTests/InstallationCatalogTests.cs:96-116 | an assessor that always answers c gives c times the number of groups |
| `Catalog.NothingKept` | test/InstallationModelTests/InstallationCatalogTests.cs:67-91 | when the filter keeps nothing, each group reaches the assessor empty |
| `Catalog.EmptyCatalog` | src/InstallationModel/InstallationCatalog.cs:52-61 | an empty catalog counts 0 for any filter and assessor |
| `Catalog.ScenarioGroups` | src/InstallationModel/InstallationCatalog.cs:33-39 | two desktops of user 0 and a laptop of user 1 fill two groups: {both desktops} and {the laptop} |
| `Catalog.ScenarioAssessments` | src/InstallationModel/LicenseAssessor.cs:36-38 | two desktops need 2 licenses and one laptop needs 1 |
| `Catalog.TwoGroupTotal` | src/InstallationModel/InstallationCatalog.cs:52-61 | the total of a two-group catalog is the sum of the two groups' verdicts |
| `Catalog.TwoUsersScenario` | src/InstallationModel/InstallationCatalog.cs:49-62 | with the application filter for 374 and the real assessor, those two users need 3 licenses |
| `ComputerTypeConverter.Converter.InternalConvert` | src/ReportLoader/ComputerTypeConverter.cs:41-59 | succeeds exactly when the trimmed token equals "Desktop" or "Laptop" under the chosen comparison; on success the result is the type whose name matched; on failure the result is Desktop |
| `ComputerTypeConverter.TrimStart` | src/ReportLoader/ComputerTypeConverter.cs:45 | drops a leading run of white space: the result is a suffix of the input and starts with no white space |
| `ComputerTypeConverter.TrimEnd` | src/ReportLoader/ComputerTypeConverter.cs:45 | drops a trailing run of white space: the result is a prefix of the input and ends with no white space |
| `ComputerTypeConverter.Trim` | src/ReportLoader/ComputerTypeConverter.cs:45 | neither end of the result is white space |
| `ComputerTypeConverter.TrimStartSkips` | src/ReportLoader/ComputerTypeConverter.cs:45 | leading white space before a non-blank start is removed, and nothing more |
| `ComputerTypeConverter.TrimEndSkips` | src/ReportLoader/ComputerTypeConverter.cs:45 | trailing white space after a non-blank end is removed, and nothing more |
| `ComputerTypeConverter.TrimPadded` | src/ReportLoader/ComputerTypeConverter.cs:45 | trimming white space + core + white space gives the core back, when the core has no blank ends |
| `ComputerTypeConverter.TrimIdempotent` | src/ReportLoader/ComputerTypeConverter.cs:45 | trimming twice is trimming once |
| `ComputerTypeConverter.NamesDistinct` | src/ReportLoader/ComputerTypeConverter.cs:47-56 | no token matches both names under either comparison, so checking Desktop first never shadows Laptop |
| `ComputerTypeConverter.CaseVariantTrimmed` | src/ReportLoader/ComputerTypeConverter.cs:45-52 | a case variant of a type name has no blank ends |
| `ComputerTypeConverter.ConvertIgnoresCaseAndPadding` | src/ReportLoader/ComputerTypeConverter.cs:19-21 | under the default comparison, any case variant of a type name, with any white space around it, converts to that type |
| `ComputerTypeConverter.ConvertTypeName` | src/ReportLoader/ComputerTypeConverter.cs:27-32 | under either comparison, the type's own name converts to that type, so parsing inverts the naming |
| `ComputerTypeConverter.OrdinalIsExact` | src/ReportLoader/ComputerTypeConverter.cs:47-56 | under Ordinal comparison, success means the trimmed token is exactly the name of the result |
| `ComputerTypeConverter.LowerCaseDesktop` | test/ReportLoaderTests/ComputerTypeConverterTests.cs:20-41 | "desktop" converts to Desktop |
| `ComputerTypeConverter.LowerCaseLaptop` | test/ReportLoaderTests/ComputerTypeConverterTests.cs:20-41 | "laptop" converts to Laptop |
| `ComputerTypeConverter.PaddedMixedCaseDesktop` | test/ReportLoaderTests/ComputerTypeConverterTests.cs:74-95 | " DESKTop  " converts to Desktop |
| `ComputerTypeConverter.PaddedMixedCaseLaptop` | test/ReportLoaderTests/ComputerTypeConverterTests.cs:74-95 | " LaptoP  " converts to Laptop |
| `ComputerTypeConverter.UnknownTokenExample` | test/ReportLoaderTests/ComputerTypeConverterTests.cs:64-71 | "surface 2" is rejected and the result is Desktop |
| `ComputerTypeConverter.OrdinalRejectsUpperCase` | test/ReportLoaderTests/ComputerTypeConverterTests.cs:98-105 | under Ordinal comparison "LAPTOP" is rejected |
| `ReportLoader.InstallationData.ToInstallation` | src/ReportLoader/InstallationData.cs:20-23 | the record has the row's computer id, user id, application id and computer type |
| `ReportLoader.ToInstallationRoundTrip` | src/ReportLoader/InstallationData.cs:10-23 | row data and record convert into each other without loss, in both directions |
| `ReportLoader.DefaultDataConverts` | test/ReportLoaderTests/InstallationDataTests.cs:18-26 | a row left at its default values converts to the all-zero Desktop record |
| `ReportLoader.ConvertReportData` | src/ReportLoader/ReportToModelConverter.cs:19-26 | the output is no longer than the input; it is as long exactly when every row is valid; a record is in the output exactly when some valid row converts to it |
| `ReportLoader.EmptyReport` | test/ReportLoaderTests/ReportToModelConverterTests.cs:60-70 | no rows give no records |
| `ReportLoader.ConvertSingleRow` | src/ReportLoader/ReportToModelConverter.cs:21-23 | one row gives its record when valid and nothing when invalid, whatever record it carries |
| `ReportLoader.ConvertAppend` | src/ReportLoader/ReportToModelConverter.cs:21-23 | converting a concatenation converts each part and concatenates: rows are independent and order is kept |
| `ReportLoader.DropsInvalidRow` | test/ReportLoaderTests/ReportToModelConverterTests.cs:120-131 | an invalid row between two stretches of rows contributes nothing |
| `ReportLoader.KeepsValidRow` | src/ReportLoader/ReportToModelConverter.cs:21-23 | a valid row contributes its own record, in its own place |
| `ReportLoader.ConvertAllValid` | test/ReportLoaderTests/ReportToModelConverterTests.cs:73-117 | when every row is valid, the output has the input's length and its i-th record is the i-th row's record |
| `ReportLoader.ConvertLength` | src/ReportLoader/ReportToModelConverter.cs:21 | the output has one record per valid row |
| `ReportLoader.AllValidReport` | test/ReportLoaderTests/ReportToModelConverterTests.cs:73-117 | three valid rows give three records; the first and last match the first and last rows field for field |
| `ReportLoader.InvalidMiddleRow` | test/ReportLoaderTests/ReportToModelConverterTests.cs:120-131 | an error row in the middle is dropped although it carries a record, leaving the first and third rows' records |

## Left out

- Reading the report file and the CSV library's parsing and column mapping are not modelled. `ReportLoader.cs` and `InstallationDataMapping.cs` are not part of this model. The parser's output is the input of `ConvertReportData`.
- The composition of loader, converter and catalog around a file name, and the dependency-injection set-up, are not modelled: they are wiring with no behaviour of their own.
- The filter and assessor interfaces are function parameters, so the real implementations and the test stubs share one shape.
- Null arguments and their exceptions are not modelled: Dafny values and references are never null.
- Hash codes, lazy LINQ evaluation and call counts are not modelled. This covers the "each record is passed to the filter exactly once" and single-traversal checks, because the model's filter and assessor are pure functions.
- Catalog.InstallationCatalog.CountLicensesByUser: the assessor receives each filtered group as a set, not as an enumeration in hash-set order. `LicenseAssessor.AssessEnumeration` proves that the real assessor gives the same answer for every duplicate-free enumeration of a set, so the order carries no information.
- IndexMap.InstallationIndexMap.Values: the groups are returned as set values. The source returns the live hash sets, which alias the dictionary's own, and the model does not capture that aliasing.
- Dictionary iteration order is unspecified in the source. `Values` makes an arbitrary choice, and the catalog total is proved not to depend on it.
- ComputerTypeConverter.Trim: only the ASCII white-space characters (space, tab, line feed, vertical tab, form feed, carriage return) are trimmed. The Unicode white space that .NET also trims is not modelled.
- ComputerTypeConverter.StringEquals: case folding covers ASCII letters only. Only the Ordinal and OrdinalIgnoreCase comparisons are modelled, because the converter is used with those two.
- The base converter's handling of a null or empty token before `InternalConvert` lives in the CSV library and is not modelled.
- LicenseAssessor.AssessInstallationLicenses: counts and totals are unbounded integers, so 32-bit overflow of the source's `int` counters and sums is not modelled.
- ReportLoader.CsvMappingResult: a valid row whose parsed record is missing (null) cannot be written in the model, because every row carries a record.
- The test named "two laptops, one desktop" (`LicenseAssessorTests.cs:146-157`) builds two desktops and a laptop. The model takes the D L L case from the worked example table instead (`LicenseAssessor.cs:43`).
- The test suites whose data files are absent, and the totals they expect, are not modelled.
