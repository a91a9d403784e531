# Order valuation, QC derivation, invoicing and report aggregation of a lab LIMS

This project models the computational core of a laboratory information
management system built on Plone (bika.lims), in Dafny, and proves properties
of it. The modelled code is:

- **The analysis request (lab order)** in `bika/lims/content/analysisrequest.py`.
  It covers the billable analyses, subtotal, total with VAT, VAT, the default
  member discount, lateness, the department managers (`getManagers`,
  `getResponsible`), the verifier taken from the review history, the QC
  analyses reached through worksheets, and the find-or-create of the month's
  ad-hoc invoice batch in `issueInvoice`.
- **The "daily samples received" report** in
  `bika/lims/browser/reports/productivity_dailysamplesreceived.py`. It groups
  the received samples by the patient's country and keeps per-group and footer
  counts.
- **The age-at-onset arithmetic** of the batch form in
  `bika/lims/browser/js/batch.js`.

Modules, one per component:

| file | module | models |
|---|---|---|
| `wrappers.dfy` | `Wrappers` | `Option` for values that may be missing (Python `None`) |
| `sequences.dfy` | `Sequences` | `Distinct`: no element of a sequence occurs twice |
| `calendar.dfy` | `Calendar` | Gregorian dates, month lengths, `DateTime + n` and `DateTime - 1` |
| `analysis_types.dfy` | `AnalysisTypes` | review states, analyses, services, departments, managers, worksheet analyses, history entries |
| `valuation.dfy` | `Valuation` | `getBillableItems`, `getSubtotal`, `getTotalPrice`, `getVAT`, `getDefaultMemberDiscount` |
| `request_status.dfy` | `RequestStatus` | `getLate`, `get_verifier` |
| `departments.dfy` | `Departments` | `getManagers`, `getResponsible` |
| `qc_analyses.dfy` | `QcDerivation` | `getQCAnalyses` |
| `invoice_batches.dfy` | `InvoiceBatches` | `issueInvoice`: title, lookup, month boundaries, find-or-create (class `InvoiceStore`) |
| `daily_samples_received.dfy` | `DailySamplesReceived` | `Report.__call__` from the catalog result on |
| `patient_age.dfy` | `PatientAge` | `setPatientAgeAtCaseOnsetDate` |

Every loop of the source that builds a list, a total or a report is a Dafny
`method` with a `while` loop. Most of these methods are proved equal to a
specification function: `Billable`, `Total`, `Visited`, `ManagersOf`,
`ResponsibleOf`, `Select`/`Reached`, `TallyOf`, and `ElapsedMonths` with
`DayPart`. Lemmas then prove what the source promises about those functions.
`IsLate`, `Verifier`, `ServiceUids`, `FindByTitle` and `LastDayOfMonth` are
proved against direct postconditions instead. `getSubtotal` is a list
comprehension in the source, so it stays the function `NetSum`. The
invoice-batch store is a class whose batch sequence `IssueInvoice` reassigns.

Money is `real`. The source computes with `Decimal` and never rounds, so exact
values model it faithfully. Workflow states are the datatype `ReviewState`.
Worksheet back-references are worksheet ids on each analysis, and the
worksheets are a map passed in. The clock, the catalog, the workflow tool and
the membership lookup are parameters.

Points of the code that are easy to misread:

- `countrysamples` is reset for every sample record
  (bika/lims/browser/reports/productivity_dailysamplesreceived.py:46). So a
  group's `SamplesCount` counts sample RECORDS with at least one analysis, not
  distinct sample ids: the same id returned twice is counted twice.
- Money is never rounded (bika/lims/content/analysisrequest.py:600-626), and
  neither is the model's.
- The month's last day is found by jumping to day 1 + 31 and stepping back a
  day at a time (bika/lims/content/analysisrequest.py:643-647). The model does
  the same in `LastDayOfMonth`.
- Worksheets are not deduplicated: the first worksheet of every analysis is
  expanded again, and only the `wa not in qcanalyses` test keeps the result
  free of repeats (bika/lims/content/analysisrequest.py:807-824).

## Model

| member | source | states |
|---|---|---|
| `Calendar.DaysInMonth` | bika/lims/browser/js/batch.js:141-152 | 31 days exactly for months 1, 3, 5, 7, 8, 10, 12; 29 exactly for February of a Gregorian leap year (divisible by 4, not by 100 unless by 400); 28 for other Februaries; 30 otherwise |
| `Calendar.PrevMonth` | bika/lims/browser/js/batch.js:136-140 | the month before month m, January wrapping to December of the previous year; the month after the result is m again |
| `Calendar.NextDay` | bika/lims/content/analysisrequest.py:645 | `DateTime + 1` is a valid date strictly after the given one, and no valid date lies strictly between the two |
| `Calendar.AddDays` | bika/lims/content/analysisrequest.py:645 | `DateTime + n` is n steps of `NextDay`: a valid date, the same date for n = 0 and a strictly later one for n > 0. `AddDaysSplit`, `AddDaysWithinMonth` and `FirstPlus31` state what adding days does |
| `Calendar.PrevDay` | bika/lims/content/analysisrequest.py:647 | `DateTime - 1` gives a valid, strictly earlier date whose next day is the given one (the inverse of `NextDay`) |
| `Calendar.AddDaysWithinMonth` | bika/lims/content/analysisrequest.py:645 | adding k days inside a month changes only the day number |
| `Calendar.AddDaysSplit` | bika/lims/content/analysisrequest.py:645 | adding a + b days is adding a days and then b days |
| `Calendar.FirstPlus31` | bika/lims/content/analysisrequest.py:643-645 | day 1 of a month plus 31 days lands in the next month, on day 32 minus the month's length |
| `Valuation.BillableItems` | bika/lims/content/analysisrequest.py:588-596 | returns the analyses whose state is not `not_requested`, in their original order; an analysis is in the result iff it is in the order and is not `not_requested` |
| `Valuation.BillableExact` | bika/lims/content/analysisrequest.py:588-596 | the filter keeps exactly the analyses that are not `not_requested`, never grows the list, and keeps an order with no `not_requested` analysis unchanged |
| `Valuation.BillableConcat` | bika/lims/content/analysisrequest.py:588-596 | filtering a concatenation concatenates the filtered parts, so the original order is kept |
| `Valuation.TotalPrice` | bika/lims/content/analysisrequest.py:615-626 | the running total with its early return equals `Total`: 0 as soon as a billable analysis has no service, otherwise the sum of price × (1 + VAT) with a missing price or VAT read as 0 |
| `Valuation.NotRequestedIsIgnored` | bika/lims/content/analysisrequest.py:600-626 | adding or removing a `not_requested` analysis anywhere in the order changes neither the subtotal nor the total nor the VAT |
| `Valuation.Subtotal` | bika/lims/content/analysisrequest.py:600-605 | the sum of the billable items' prices, a missing service or price read as 0: 0 for an order with no billable analysis, and never negative when no price is. `SubtotalAppend` and `NotRequestedIsIgnored` state how it changes |
| `Valuation.SubtotalAppend` | bika/lims/content/analysisrequest.py:600-605 | a billable analysis adds exactly its price (0 when the service or price is missing) to the subtotal, so a non-negative item never lowers it |
| `Valuation.GrossIsNetPlusVat` | bika/lims/content/analysisrequest.py:615-626 | with every service present, Σ price × (1 + VAT) = Σ price + Σ price × VAT, and the VAT sum is non-negative when prices and rates are |
| `Valuation.VatMeaning` | bika/lims/content/analysisrequest.py:609-626 | VAT = total − subtotal. With every billable service present it is Σ price × VAT, so it is ≥ 0 and total ≥ subtotal for non-negative prices and rates. With a service missing, the total is 0 and the VAT is −subtotal |
| `Valuation.Vat` | bika/lims/content/analysisrequest.py:609-611 | total − subtotal is Σ price × VAT over the billable items when all have their service, and −subtotal when the total aborts to 0. `VatMeaning` draws the sign and total ≥ subtotal from this |
| `Valuation.DefaultMemberDiscount` | bika/lims/content/analysisrequest.py:494-502 | None when the order has no discount flag; the configured rate when the discount applies; `"0.00"` otherwise |
| `RequestStatus.IsLate` | bika/lims/content/analysisrequest.py:569-584 | late iff the order is not in `to_be_sampled`/`to_be_preserved`/`sample_due`/`published` and some analysis not `published` has due date < result-capture date |
| `RequestStatus.DisplayName` | bika/lims/content/analysisrequest.py:764-767 | the member's full name, or the actor id when the full name is None or empty |
| `RequestStatus.Verifier` | bika/lims/content/analysisrequest.py:747-768 | `"no history"` for an empty history; None when no entry is a `verify` action; otherwise the display name of the actor of the LAST `verify` entry |
| `Departments.Managers` | bika/lims/content/analysisrequest.py:544-565 | the list built by the loop equals `ManagersOf(Visited(analyses))`: each department visited once by id, departments without manager skipped, each manager once by id, in first-met order |
| `Departments.Responsible` | bika/lims/content/analysisrequest.py:506-540 | the manager records built by the loop equal `ResponsibleOf(Visited(analyses))`, and `ids` is their key set |
| `Departments.VisitedOnce` | bika/lims/content/analysisrequest.py:510-517 | visited department ids are distinct; every analysis's department id is visited; every visited department is the department of some analysis |
| `Departments.ManagersOnce` | bika/lims/content/analysisrequest.py:557-563 | manager ids in the result are distinct; every listed manager manages a visited department; every visited department's manager is listed |
| `Departments.ResponsibleKeys` | bika/lims/content/analysisrequest.py:518-523 | `getResponsible`'s record keys are exactly the ids of the managers `getManagers` lists |
| `Departments.ResponsibleContacts` | bika/lims/content/analysisrequest.py:522-529 | each record holds its manager's full name, email, phone and `<url>/Signature`, taken when the manager is first met |
| `Departments.ResponsibleDepartments` | bika/lims/content/analysisrequest.py:530-534 | a record's `dept` string is built from the titles of the departments that manager manages, in visiting order |
| `Departments.NoTitlesWithoutRecord` | bika/lims/content/analysisrequest.py:522-534 | a manager without a record manages none of the visited departments |
| `Departments.DeptStringIsJoin` | bika/lims/content/analysisrequest.py:530-534 | when no department title is empty, the `dept` string is the titles joined with `", "` |
| `QcDerivation.ServiceUids` | bika/lims/content/analysisrequest.py:800-805 | the collected service UIDs are distinct and are exactly the service UIDs of the order's analyses |
| `QcDerivation.ScanWorksheet` | bika/lims/content/analysisrequest.py:812-824 | scanning one worksheet's analyses extends the collected QC list exactly as `Select` does over the traversal extended by that worksheet |
| `QcDerivation.QcAnalyses` | bika/lims/content/analysisrequest.py:790-826 | the nested loops return `Select` over the traversal (first back-reference of each analysis, then that worksheet's analyses) |
| `QcDerivation.SelectExact` | bika/lims/content/analysisrequest.py:813-824 | no analysis is returned twice; an analysis is returned iff it is reached and is a duplicate of this request or a reference analysis of one of its services, of the requested type when one is given |
| `QcDerivation.SelectPrefix` | bika/lims/content/analysisrequest.py:799-826 | results are in first-encountered order: what is selected from a prefix of the traversal stays at the front of the result |
| `QcDerivation.ReachedSkipsUnhosted` | bika/lims/content/analysisrequest.py:809-812 | an analysis with no worksheet back-reference adds nothing to the traversal |
| `QcDerivation.NoWorksheetNoContribution` | bika/lims/content/analysisrequest.py:807-826 | removing an analysis with no back-reference (whose service another analysis shares) leaves the QC result unchanged |
| `QcDerivation.AnyTypeIsUnion` | bika/lims/content/analysisrequest.py:817-823 | with `qctype` None the result is the union of the results for each single reference type |
| `InvoiceBatches.FindByTitle` | bika/lims/content/analysisrequest.py:638-641 | None iff no batch has the title; otherwise the LAST batch with that title |
| `InvoiceBatches.LastDayOfMonth` | bika/lims/content/analysisrequest.py:643-648 | the decrement loop from day 1 + 31 ends on the last day of the month (29 February in a leap year) |
| `InvoiceBatches.InvoiceStore.IssueInvoice` | bika/lims/content/analysisrequest.py:631-662 | reuses the last batch titled `"<Mon> <Year> - ad hoc"`, or else appends one new batch from day 1 to the month's last day; attaches the order's invoice to it; leaves the other batches unchanged; keeps titles unique when they were |
| `InvoiceBatches.IssueTwiceSameMonth` | bika/lims/content/analysisrequest.py:635-662 | two calls in the same month return the same batch and create at most one batch between them, also on a store where a race left two batches with the month's title; unique titles stay unique |
| `InvoiceBatches.BatchTitle` | bika/lims/content/analysisrequest.py:635-637 | the title is the three-letter month abbreviation, a space, the year's digits and `" - ad hoc"`. `BatchTitleInjective` shows it names one month only |
| `InvoiceBatches.YearStringInjective` | bika/lims/content/analysisrequest.py:636 | different years give different `%Y` strings |
| `InvoiceBatches.MonthAbbrevInjective` | bika/lims/content/analysisrequest.py:636 | different months give different `%b` abbreviations |
| `InvoiceBatches.BatchTitleInjective` | bika/lims/content/analysisrequest.py:635-637 | equal batch titles mean the same year and month, so the title lookup finds only that month's batch |
| `InvoiceBatches.MonthRangesDisjoint` | bika/lims/content/analysisrequest.py:643-648 | batches of two different months have non-overlapping date ranges |
| `DailySamplesReceived.DailySamplesReport` | bika/lims/browser/reports/productivity_dailysamplesreceived.py:36-87 | the loops build exactly `ReportOf(samples)`: the no-samples notice for an empty result, otherwise the groups, their countries in insertion order and the footer |
| `DailySamplesReceived.SumOverOther` | bika/lims/browser/reports/productivity_dailysamplesreceived.py:76 | storing a group under a new country leaves the sums over the existing groups unchanged |
| `DailySamplesReceived.SumOverUpdate` | bika/lims/browser/reports/productivity_dailysamplesreceived.py:76 | replacing one group changes a sum over the groups by exactly the change of that group's counter |
| `DailySamplesReceived.AddRowConsistent` | bika/lims/browser/reports/productivity_dailysamplesreceived.py:51-77 | one analysis row keeps the groups keyed by their own country, inserted once, with `AnalysesCount` = number of rows, and keeps each footer counter equal to the sum of the group counters |
| `DailySamplesReceived.TallyConsistent` | bika/lims/browser/reports/productivity_dailysamplesreceived.py:42-77 | after any number of samples, the same holds |
| `DailySamplesReceived.SampleEffect` | bika/lims/browser/reports/productivity_dailysamplesreceived.py:45-77 | a sample appends one detail row per analysis, in order, to its country's group (the existing group, or a fresh one). It adds that many to `AnalysesCount` and to the footer, and 1 to `SamplesCount` and the footer only when it has an analysis. No other group changes |
| `DailySamplesReceived.FooterTotals` | bika/lims/browser/reports/productivity_dailysamplesreceived.py:61-81 | footer `AnalysesCount` = total number of analyses (detail rows); footer `SamplesCount` = number of sample records with at least one analysis |
| `DailySamplesReceived.GroupKeys` | bika/lims/browser/reports/productivity_dailysamplesreceived.py:50-57 | a country is a group key iff one of its samples has an analysis; a missing country is `Unknown` |
| `DailySamplesReceived.GroupsOnlyGrow` | bika/lims/browser/reports/productivity_dailysamplesreceived.py:56-57 | groups are reused and extended, never replaced, and country keys keep their first-insertion order |
| `DailySamplesReceived.ReportTotals` | bika/lims/browser/reports/productivity_dailysamplesreceived.py:36-87 | empty catalog result ⇔ the "No samples matched your query" notice; otherwise one footer line whose counts equal the sums over the groups, the total analyses and the samples with analyses |
| `PatientAge.AgeAtOnset` | bika/lims/browser/js/batch.js:121-172 | cleared iff a date is missing or onset < birth. Otherwise months are in 0..11 and years ≥ 0, and years·12 + months is the whole months elapsed. Days are the plain day difference when onset day ≥ birth day. Otherwise days are the difference plus the previous month's length: below that length, and as low as −2 |
| `PatientAge.YearWraps` | bika/lims/browser/js/batch.js:137-161 | years = onset year − birth year, minus 1 when the day borrow wraps past January, minus 1 when the month difference is wrapped by +12; never both |
| `PatientAge.NegativeDayExample` | bika/lims/browser/js/batch.js:131-153 | born 31 January, onset 1 March of a common year: the day field is −2 |
| `PatientAge.CorrectedAge` | bika/lims/browser/js/batch.js:121-172 | cleared under the same conditions as the form. Otherwise years ≥ 0 and months in 0..11. Days are onset day − birth day when no day is borrowed. After a borrow of a month of length L, days are onset day − min(birth day, L) + L, which is never negative |
| `PatientAge.CorrectedAgeSound` | bika/lims/browser/js/batch.js:131-161 | the corrected age keeps the form's years and months. Its day count is never below the form's, and equals it exactly unless the day is borrowed from a month shorter than the birth day |
| `PatientAge.CorrectedDaysSinceAnniversary` | bika/lims/browser/js/batch.js:131-161 | the corrected days are the days from a month anniversary to the onset. That anniversary is the birth day in the onset month when reached, otherwise the birth day in the previous month clamped to that month's length. It falls the elapsed number of whole months after the birth month |
| `PatientAge.CorrectedDaysStepInMonth` | bika/lims/browser/js/batch.js:131-153 | inside a month, when the next day is not the birth day, the next day has the same whole months elapsed and exactly one more corrected day |
| `PatientAge.CorrectedDaysStepAcrossMonths` | bika/lims/browser/js/batch.js:131-153 | from a month's last day to the next month's first, for a birth day from 2 to that month's length, the whole months elapsed stay the same and the corrected day count goes up by exactly one |
| `PatientAge.CorrectedExample` | bika/lims/browser/js/batch.js:131-153 | born 31 January 2000: on 1 and 4 March 2023 the corrected age is 23 years, 1 month and 1 or 4 days. Born 29 January: 1 day on 1 March, where the form gives 0 |

## Left out

- Schema, field and widget declarations, `Title`/`Description`, `getClient`, `getBatch`, `_renameAfterCreation`, `addARAttachment`, `delARAttachment`, `printInvoice`, `getContactUIDForUser`, `current_date`: these are content-management plumbing with no computation.
- `Departments.Managers`, `Departments.Responsible`: require every analysis to have a service. The source dereferences `getService()` without a check and raises otherwise.
- `Departments.Responsible`: `ids` is a set, because Python 2's `managers.keys()` has no defined order.
- `RequestStatus.IsLate`: due and result-capture dates are integers. The comparison of missing (None) dates under Python 2 is not modelled. The unused `now` is dropped.
- `RequestStatus.Verifier`: the `access denied` branch (an exception from the workflow tool) is not modelled. The member lookup is a given function from actor to optional full name, and an unknown member (which raises in the source) is not modelled.
- `Valuation.DefaultMemberDiscount`: the site configuration read is the `configuredRate` parameter.
- `Valuation.TotalPrice`: the `Decimal(0, 2)`/`Decimal(1, 2)` context arguments have no effect on the values and are not modelled. The VAT value is used as the source uses it, as a fraction in price × (1 + VAT).
- `InvoiceBatches.InvoiceStore.IssueInvoice`: the catalog `Title` query is modelled as exact title equality, not as a text-index search.
- `InvoiceBatches.InvoiceStore.IssueInvoice`: `invokeFactory`, `edit`, `processForm` and `createInvoice` are one new batch plus one appended `Invoice` record. The invoice-total recomputation and the redirect are not modelled.
- `InvoiceBatches.InvoiceStore.IssueInvoice`: the read-then-create race between concurrent callers is a concurrency concern and is not modelled.
- `InvoiceBatches.InvoiceStore.IssueInvoice`: the clock is the `now` parameter, and it requires a year ≥ 0.
- `InvoiceBatches.LastDayOfMonth`: `earliestTime`/`latestTime` are not modelled. Batch boundaries are whole days.
- `InvoiceBatches.MonthAbbrev`: `strftime('%b')` follows the server's locale, so the title looked up depends on it. The model fixes the English (C-locale) abbreviations.
- `InvoiceBatches.YearString`: years are written without zero padding, so a year below 1000 may differ from `strftime('%Y')`.
- `DailySamplesReceived.DailySamplesReport`: the catalog query, the review-state and date-range filter, and the `parms`/`titles` lists are not modelled. The samples are the input sequence.
- `DailySamplesReceived.DailySamplesReport`: `ulocalized_time` formatting is not modelled (dates arrive formatted). Page templates, the portal message and the returned report title are not modelled either. The empty case returns the message as a value.
- `DailySamplesReceived.DailySamplesReport`: Python 2 dicts do not keep insertion order. The `countries` sequence is a model device that records first insertion.
- `DailySamplesReceived.DailySamplesReport`: every sample has a patient and a sample type. The source raises on a sample without a patient (`patient.getPhysicalAddress()`, productivity_dailysamplesreceived.py:49-50) or without a sample type (line 67), and `SampleRecord` cannot express either case.
- `PatientAge.CorrectedAge`: corrects the day field only. The month count stays the form's, so the clamped anniversary itself is not counted as a new month. Born 31 January, 28 February of a common year is 0 months and 28 days, and 1 March is 1 month and 1 day.
- `PatientAge.AgeAtOnset`: JavaScript `Date` parsing of the form strings, time zones and the jQuery reads and writes are not modelled. An unparsable date is `None`, and comparing dates is comparing (year, month, day).
- The CPD/CAE/symptom delete handlers and the AJAX, combogrid and overlay code of `batch.js` are form plumbing and are not modelled.

## Findings

| source | as written | input that shows it | evidently intended | confidence | as-written member | corrected member |
|---|---|---|---|---|---|---|
| bika/lims/browser/js/batch.js:131-153 | when the onset day is before the birth day, `ageday` is the day difference plus the length of the previous month, which is negative when the birth day exceeds that length by more than the onset day | birth 2000-01-31, onset 2023-03-01 gives 23 years, 1 month, −2 days | the days since the birth day's anniversary in the borrowed month, clamped to that month's length: here 1 day after 28 February | medium; not executed | `PatientAge.NegativeDayExample` | `PatientAge.CorrectedAge` |
