# Cryptographic policy list editing and eIDAS condition selection

This project models two small, self-contained pieces of the DSS validation
policy code.

The first piece is the set of helpers that edit the algorithm lists of a
cryptographic constraint before each validation run:

- `setAlgoExpirationDate` sets the expiration date of every entry with a
  given name, or appends a new entry when there is none.
- `removeAlgorithm` deletes every entry with a given name.
- `setAlgorithmSize` sets the size of the first entry with a given name.
- `xmlListContainsMessage` looks up a message tag in a conclusion's error list.
- The `check*ErrorPresence` assertions compare that lookup with the expected
  presence.

A policy entry (`Algo`) is a value with a name, an optional date and an
optional size. The mutable `List<Algo>` is the class `AlgoList`, whose
`algos` sequence the helper methods update in place. Each method is proved
against a pure specification function. The specification functions are:

- `WithExpirationDate`
- `Removed`
- `WithFirstSize`
- `HasMessage`

The properties the test scenarios rely on are proved as lemmas about those
functions:

- which entries change, and which are left as they were;
- what happens to the length of the list;
- that relative order is kept;
- that removal is idempotent.

The second piece is `CertificateConditionBuilder`. It selects the pre-eIDAS
or the post-eIDAS variant of the "qualified" and "SSCD" certificate
conditions. It does this by comparing the certificate's not-before date with
the eIDAS cutover date, using a strict "before". Conditions are modelled as a
tagged variant, `Qualified(era)` or `SSCD(era)`. Dates are modelled as
millisecond instants.

Files:

- `algo_lists.dfy`: module `AlgoLists`, holding the policy entries, the list
  class and the three list helpers.
- `report_messages.dfy`: module `ReportMessages`, holding the message tags,
  the error-list lookup and the presence assertions.
- `certificate_conditions.dfy`: module `CertificateConditions`, holding the
  date-threshold variant selection.

## Model

| member | source | states |
|---|---|---|
| `AlgoLists.SetAlgoExpirationDate` | validation-policy/src/test/java/eu/europa/esig/dss/validation/executor/CustomCryptographicConstraintsTest.java:580-598 | the constraint's expiration list afterwards is the old list with every entry named `algorithmName` redated, or with one new entry appended when none matched |
| `AlgoLists.DatesSetAt` | validation-policy/src/test/java/eu/europa/esig/dss/validation/executor/CustomCryptographicConstraintsTest.java:585-590 | the redating pass keeps the length and changes, position by position, exactly the entries named `name`, and only in their date |
| `AlgoLists.ExpirationDateApplied` | validation-policy/src/test/java/eu/europa/esig/dss/validation/executor/CustomCryptographicConstraintsTest.java:584-596 | afterwards every entry named `name` has date `date`, and at least one such entry exists |
| `AlgoLists.ExpirationDateLength` | validation-policy/src/test/java/eu/europa/esig/dss/validation/executor/CustomCryptographicConstraintsTest.java:591-596 | with a match the length is unchanged; without one the result is the old list plus exactly `(name, date)` at the end, with no size |
| `AlgoLists.ExpirationDateFrame` | validation-policy/src/test/java/eu/europa/esig/dss/validation/executor/CustomCryptographicConstraintsTest.java:585-590 | entries with another name stay unchanged at their position; matching entries change only in their date |
| `AlgoLists.ExpirationDateIdempotent` | validation-policy/src/test/java/eu/europa/esig/dss/validation/executor/CustomCryptographicConstraintsTest.java:580-598 | setting the same date a second time leaves the list as the first call left it |
| `AlgoLists.RemoveAlgorithm` | validation-policy/src/test/java/eu/europa/esig/dss/validation/executor/CustomCryptographicConstraintsTest.java:600-608 | the iterator loop leaves the list equal to the old list without its entries named `algorithmName` |
| `AlgoLists.RemovedNone` | validation-policy/src/test/java/eu/europa/esig/dss/validation/executor/CustomCryptographicConstraintsTest.java:602-606 | no entry named `name` remains, and every remaining entry was in the original list under another name |
| `AlgoLists.RemovedKeeps` | validation-policy/src/test/java/eu/europa/esig/dss/validation/executor/CustomCryptographicConstraintsTest.java:602-606 | every entry with another name remains exactly as many times as it occurred |
| `AlgoLists.RemovedAppend` | validation-policy/src/test/java/eu/europa/esig/dss/validation/executor/CustomCryptographicConstraintsTest.java:600-608 | removal distributes over concatenation, so the survivors keep their original relative order |
| `AlgoLists.RemovedAbsent` | validation-policy/src/test/java/eu/europa/esig/dss/validation/executor/CustomCryptographicConstraintsTest.java:602-606 | a list with no entry named `name` is left unchanged |
| `AlgoLists.RemovedIdempotent` | validation-policy/src/test/java/eu/europa/esig/dss/validation/executor/CustomCryptographicConstraintsTest.java:600-608 | removing the same name a second time changes nothing |
| `AlgoLists.FirstNamed` | validation-policy/src/test/java/eu/europa/esig/dss/validation/executor/CustomCryptographicConstraintsTest.java:611-614 | the early-return search finds an index holding the name with no earlier match, and finds nothing exactly when no entry has the name |
| `AlgoLists.SetAlgorithmSize` | validation-policy/src/test/java/eu/europa/esig/dss/validation/executor/CustomCryptographicConstraintsTest.java:610-617 | as written: only the first entry named `algorithm` changes, and its size becomes `"4096"` whatever `size` is |
| `AlgoLists.SetFirstSize` | validation-policy/src/test/java/eu/europa/esig/dss/validation/executor/CustomCryptographicConstraintsTest.java:611-616 | the loop stops at the first entry named `algorithm` and sets its size; with no match the list is unchanged |
| `AlgoLists.SetAlgorithmSizeIntended` | validation-policy/src/test/java/eu/europa/esig/dss/validation/executor/CustomCryptographicConstraintsTest.java:610-617 | corrected: the first entry named `algorithm` gets the caller's `size` |
| `AlgoLists.FirstSizeFrame` | validation-policy/src/test/java/eu/europa/esig/dss/validation/executor/CustomCryptographicConstraintsTest.java:610-616 | the length is kept; with no match nothing changes; otherwise exactly one position changes, the first match, and only in its size |
| `AlgoLists.LaterNamesUnchanged` | validation-policy/src/test/java/eu/europa/esig/dss/validation/executor/CustomCryptographicConstraintsTest.java:611-614 | a matching entry preceded by an earlier match keeps its old size |
| `AlgoLists.SizeArgumentIgnored` | validation-policy/src/test/java/eu/europa/esig/dss/validation/executor/CustomCryptographicConstraintsTest.java:613 | on `[RSA, size 1024]`, the helper as written and the helper asked for `"2048"` give different lists |
| `AlgoLists.IntendedSizeApplied` | validation-policy/src/test/java/eu/europa/esig/dss/validation/executor/CustomCryptographicConstraintsTest.java:610-617 | with the corrected helper, the first entry named `name` keeps its name and date and carries exactly the requested size |
| `ReportMessages.XmlListContainsMessage` | validation-policy/src/test/java/eu/europa/esig/dss/validation/executor/CustomCryptographicConstraintsTest.java:536-543 | returns true if and only if some entry's value equals the tag's message text |
| `ReportMessages.ErrorPresenceHolds` | validation-policy/src/test/java/eu/europa/esig/dss/validation/executor/CustomCryptographicConstraintsTest.java:521-534 | `!present ^ contains` holds exactly when `present` equals whether the error list contains the message |
| `ReportMessages.MessagesDistinct` | validation-policy/src/test/java/eu/europa/esig/dss/validation/executor/CustomCryptographicConstraintsTest.java:538 | two tags have the same message text only if they are the same tag |
| `ReportMessages.OtherTagNotFound` | validation-policy/src/test/java/eu/europa/esig/dss/validation/executor/CustomCryptographicConstraintsTest.java:536-543 | an error list whose entries all carry another tag's text does not contain this tag |
| `ReportMessages.MessagePresenceHolds` | validation-policy/src/test/java/eu/europa/esig/dss/validation/executor/CustomCryptographicConstraintsTest.java:516-519 | `checkErrorMessagePresence` holds exactly when the flag-style test `!present ^ contains` with `present` true holds on both the warning list and the error list, so the two assertion styles of the test agree |
| `ReportMessages.MessageAbsenceHolds` | validation-policy/src/test/java/eu/europa/esig/dss/validation/executor/CustomCryptographicConstraintsTest.java:505-508 | `checkErrorMessageAbsence` holds exactly when the flag-style test with `present` false holds on both lists, as `checkErrorMessageAbsence` at :112 and `check*ErrorPresence(..., false)` at :116-117 expect the same thing |
| `ReportMessages.PresenceAbsenceExclusive` | validation-policy/src/test/java/eu/europa/esig/dss/validation/executor/CustomCryptographicConstraintsTest.java:505-519 | the presence and absence assertions never both hold; when the tag is in both lists or in neither, one of them holds |
| `CertificateConditions.CertificateQualified` | validation-policy/src/main/java/eu/europa/esig/dss/validation/process/art32/qualification/checks/CertificateConditionBuilder.java:12-18 | always a "qualified" condition; pre-eIDAS exactly when the cutover is strictly before `notBefore` |
| `CertificateConditions.CertificateSSCD` | validation-policy/src/main/java/eu/europa/esig/dss/validation/process/art32/qualification/checks/CertificateConditionBuilder.java:20-26 | always an SSCD condition; pre-eIDAS exactly when the cutover is strictly before `notBefore` |
| `CertificateConditions.CutoverDayIsPostEIDAS` | validation-policy/src/main/java/eu/europa/esig/dss/validation/process/art32/qualification/checks/CertificateConditionBuilder.java:12-26 | a certificate whose `notBefore` equals the cutover gets the post-eIDAS variant of both conditions |
| `CertificateConditions.SameEra` | validation-policy/src/main/java/eu/europa/esig/dss/validation/process/art32/qualification/checks/CertificateConditionBuilder.java:12-26 | both builders select the same era for every certificate |
| `CertificateConditions.OnlyNotBeforeMatters` | validation-policy/src/main/java/eu/europa/esig/dss/validation/process/art32/qualification/checks/CertificateConditionBuilder.java:12-26 | certificates with the same `notBefore` get the same conditions |
| `CertificateConditions.LateCertificateGetsPreEIDAS` | validation-policy/src/main/java/eu/europa/esig/dss/validation/process/art32/qualification/checks/CertificateConditionBuilder.java:13-14 | as written, a certificate issued one day after the cutover gets the pre-eIDAS variants |
| `CertificateConditions.CertificateQualifiedIntended` | validation-policy/src/main/java/eu/europa/esig/dss/validation/process/art32/qualification/checks/CertificateConditionBuilder.java:12-18 | corrected: pre-eIDAS exactly when `notBefore` is strictly before the cutover |
| `CertificateConditions.CertificateSSCDIntended` | validation-policy/src/main/java/eu/europa/esig/dss/validation/process/art32/qualification/checks/CertificateConditionBuilder.java:20-26 | corrected: pre-eIDAS exactly when `notBefore` is strictly before the cutover |
| `CertificateConditions.WrittenAndIntendedDiffer` | validation-policy/src/main/java/eu/europa/esig/dss/validation/process/art32/qualification/checks/CertificateConditionBuilder.java:12-26 | the written and the corrected selections agree if and only if `notBefore` equals the cutover |

## Left out

- The cryptographic constraint engine is not part of this model. This covers:
  - constraint resolution;
  - the acceptability, key-size and expiration checks;
  - severity handling;
  - building blocks;
  - detailed and simple reports;
  - past-signature validation.

  Their source files are not among the modelled files. The end-to-end
  indication assertions of the test methods depend on them and on fixture
  files, so those assertions are not modelled either.
- Loading policies and diagnostic data from XML files, and running the
  executor (`initializeExecutor`, `loadConstraintsParameters`, `createReports`
  and the other report builders), are I/O and calls into code outside this
  model.
- The callers of the list helpers fetch and re-attach nested JAXB containers
  through the `get`/`set*CryptographicConstraint` helpers; that plumbing is
  left out. `SetAlgoExpirationDate` takes the constraint object and reads its
  expiration list, as `setAlgoExpirationDate` does.
- `Algo` entries are values, not shared mutable objects. An alias of an entry
  held elsewhere does not see the new date or size.
- Missing values are assumed present. The source behaves differently when they are null:
  - a null entry name makes `setAlgoExpirationDate`, `removeAlgorithm` and `setAlgorithmSize` throw a `NullPointerException`;
  - a constraint without an expiration container makes `setAlgoExpirationDate` throw, because it calls `getAlgo()` on null;
  - a null `algorithmName` matches no entry, so `setAlgoExpirationDate` appends an entry with a null name; a `string` here cannot be null;
  - a null `notBefore` makes `certificateQualified` and `certificateSSCD` throw; `CertificateQualified` and `CertificateSSCD` are total.
- Expiration dates and sizes in policy entries are uninterpreted strings, as
  the helpers treat them.
- `MessageTag.java` is not part of this model. Each tag's message text is
  stood in for by the tag's own identifier. The model relies only on the
  texts being distinct (`MessagesDistinct`, used by `OtherTagNotFound`).
- `EIDASConstants.java` is not part of this model. The cutover is a fixed
  instant whose value is left open. `java.util.Date` is reduced to a
  millisecond instant, with no time zones.
- The `PreEIDAS*`/`PostEIDAS*` condition classes are not part of this model.
  They appear only as the variant tags they are selected by.
- `CertificateWrapper` is reduced to an identifier and its `notBefore` date.
- `checkErrorMessagePresence` and `checkErrorMessageAbsence` first fetch the
  first signature's warnings and errors from the detailed report. That lookup
  is left out with the reports; `MessagePresenceHolds` and
  `MessageAbsenceHolds` take the two lists as arguments.

## Findings

| source | as written | input that shows it | evidently intended | confidence | as-written member | corrected member |
|---|---|---|---|---|---|---|
| validation-policy/src/test/java/eu/europa/esig/dss/validation/executor/CustomCryptographicConstraintsTest.java:613 | `setAlgorithmSize` writes the constant `"4096"` and ignores its `size` argument | list `[RSA with size "1024"]`, algorithm `"RSA"`, size `"2048"`: the entry gets `"4096"` | the first matching entry gets the caller's `size` | medium, not executed; every caller in the file passes `"4096"`, so no test outcome changes | `AlgoLists.SetAlgorithmSize`, `AlgoLists.SizeArgumentIgnored` | `AlgoLists.SetAlgorithmSizeIntended`, `AlgoLists.FirstSizeFrame`, `AlgoLists.IntendedSizeApplied` |
| validation-policy/src/main/java/eu/europa/esig/dss/validation/process/art32/qualification/checks/CertificateConditionBuilder.java:13 | `EIDAS_DATE.before(notBefore)` selects the pre-eIDAS variant for certificates issued after the cutover | a certificate whose `notBefore` is one day after the cutover gets `PreEIDASCertificateQualified` and `PreEIDASCertificateSSCD` | pre-eIDAS only for certificates issued before the cutover | low, not executed; the variant classes are not part of this model | `CertificateConditions.CertificateQualified`, `CertificateConditions.LateCertificateGetsPreEIDAS` | `CertificateConditions.CertificateQualifiedIntended`, `CertificateConditions.WrittenAndIntendedDiffer` |
