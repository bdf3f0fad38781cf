# Parental-control medicine tracker: a Dafny model

The parental-control web app lets a parent register family members and add
medicines for them. It keeps track of the stock of each medicine and shows
monthly statistics of whether doses were taken, missed or taken late. This
project models three parts of that app:

- **Monthly intake statistics** (`medicinestats.jsx`):
  - grouping the month's `history_entry` rows by medicine name, with
    per-status counters and the list of individual intakes;
  - the three pie-chart totals;
  - the empty and error handling;
  - the year/month selector;
  - the table and PDF rows built from the grouping.
- **The header forms** (`header.jsx`):
  - adding a family member: name, age, a 10-digit phone number, and a
    duplicate-phone lookup;
  - adding a medicine: an ordered validation chain, a duplicate lookup
    that ignores letter case, the inserted record and the form reset;
  - toggling the daily intake times.
- **The medicine stock page** (`medicinestock.jsx`):
  - prepending an added medicine;
  - validating and saving an edit, with its update payload and the
    in-place list replacement;
  - deleting by id;
  - the low-stock flag;
  - the edit modal's intake-time toggle.

Backend calls (Supabase queries, inserts, updates, deletes) become
parameters. A lookup is a `Lookup` value: either the rows it returned or a
failure. An insert, update or delete becomes a boolean that says whether it
succeeded. The signed-in user is an `Option`, and the current month is a
parameter `cur`. A number typed into a form is what JavaScript's `Number`
makes of the input's text when that is a finite number, an `Option<real>`:
blank text is 0 and `None` is `NaN`. The age is what `parseInt` makes of its text. A row on the stock
page holds its dosage, total quantity and refill threshold as a
`NumberField`: a stored `null` (which `Number` reads as 0), a number, or
text typed in the edit modal. Its quantity left has no input, so it is an
`Option<real>`, with `None` for a stored `null`. Lengths of
names are JavaScript's `.length`, in UTF-16 code units.

Modules:

| module | role |
|---|---|
| `Base` | `Option`, `Result`, `Lookup`, `Filter` |
| `Text` | JavaScript `trim`, ASCII case-insensitive comparison, digit strings, `join` |
| `IntakeStats` | the monthly statistics |
| `MonthNav` | the month selector |
| `IntakeTimes` | the intake-time toggle |
| `MedicineRules` | the medicine validation chain |
| `HeaderForms` | the two header submit handlers |
| `MedicineStock` | the stock page |

The grouping is modelled as a fold over the records, one record at a time,
producing a list of entries in first-occurrence order. This is the order in
which JavaScript's `Object.entries` lists string keys that are not integer
indices. The fold is checked against independent reference definitions:

- `FirstOccurrences`: the distinct names in order;
- `DetailsFor`: a medicine's intakes in order;
- `CountFor` and `CountKind`: how many records have a given name and
  status.

## Model

| member | source | states |
|---|---|---|
| IntakeStats.Tally | parent/parental-control/src/components/medicinestats.jsx:167-175 | adding a record appends its date, time and status to the details and raises exactly the counter of its status (none for an unrecognised status) |
| IntakeStats.Find | parent/parental-control/src/components/medicinestats.jsx:158 | the lookup of a medicine name finds its first entry, and finds none exactly when the name has no entry yet |
| IntakeStats.AggregateIsFaithful | parent/parental-control/src/components/medicinestats.jsx:156-176 | the grouped counts list each medicine name of the month once, in order of first occurrence, and each entry's details and counters equal the reference definitions over all records |
| IntakeStats.AggregateKeys | parent/parental-control/src/components/medicinestats.jsx:157-165 | the grouping's names are distinct, are exactly the names occurring in the records, and come in first-occurrence order |
| IntakeStats.AggregateEntry | parent/parental-control/src/components/medicinestats.jsx:157-176 | for every entry, the details are that medicine's intakes in input order, and the taken, missed and late counters count its records with status "taken", "missed" and "takenLate" |
| IntakeStats.DetailsForIsSubsequence | parent/parental-control/src/components/medicinestats.jsx:167-171 | a medicine's details are the records filtered by that name, mapped to (date, time, status) |
| IntakeStats.CountersCoverDetails | parent/parental-control/src/components/medicinestats.jsx:173-175 | the three counters of a medicine never add up to more than its number of details; the difference is the records with another status |
| IntakeStats.TotalCountsStatus | parent/parental-control/src/components/medicinestats.jsx:180-182 | summing one counter over all medicines gives the number of records of that status in the month |
| IntakeStats.Conservation | parent/parental-control/src/components/medicinestats.jsx:180-182 | the three totals add up to the number of records whose status is recognised |
| IntakeStats.PieFor | parent/parental-control/src/components/medicinestats.jsx:184-192 | the pie has the labels Taken, Missed, Late, and its data are the month's counts of taken, missed and late records |
| IntakeStats.ApplyMonthFetch | parent/parental-control/src/components/medicinestats.jsx:137-192 | a failed fetch or an empty month clears the history flag, the counts and the pie; otherwise the flag is set, the counts are the faithful grouping and the pie carries the totals |
| IntakeStats.PageFor | parent/parental-control/src/components/medicinestats.jsx:203-337 | the page says "no history yet" exactly when the existence check failed or counted nothing, "no data this month" exactly when there is history but the month fetch is empty or failed, and otherwise reports the month's state, the faithful grouping and its pie |
| IntakeStats.NoHistoryIgnoresMonth | parent/parental-control/src/components/medicinestats.jsx:117-122 | without any history the month's data never reach the page |
| IntakeStats.TableMatchesCounters | parent/parental-control/src/components/medicinestats.jsx:370-376 | each table row names a medicine in first-occurrence order, shows its taken counter, and lists as many missed and late intakes as the matching counters say |
| IntakeStats.ListText | parent/parental-control/src/components/medicinestats.jsx:424-433 | the PDF's list of intakes is "-" exactly when there are none |
| IntakeStats.PdfMatchesCounters | parent/parental-control/src/components/medicinestats.jsx:422-442 | each PDF row names a medicine in first-occurrence order, its count cells start with the decimal counter, and its list cell is "-" exactly when that counter is zero |
| MonthNav.AddMonths | parent/parental-control/src/components/medicinestats.jsx:54 | adding n months moves the month index by exactly n, across year boundaries |
| MonthNav.NextDisabledIffNotBefore | parent/parental-control/src/components/medicinestats.jsx:54 | the "current or future month" flag holds exactly when the selected month is not before the current month |
| MonthNav.ChangeYear | parent/parental-control/src/components/medicinestats.jsx:84-93 | choosing a year keeps the month; a date past the current month is replaced by the current month |
| MonthNav.ChangeMonth | parent/parental-control/src/components/medicinestats.jsx:95-104 | choosing a month keeps the year; a date past the current month is replaced by the current month |
| MonthNav.GoPrev | parent/parental-control/src/components/medicinestats.jsx:107-109 | "previous" always moves back one month, from January to December of the year before |
| MonthNav.GoNext | parent/parental-control/src/components/medicinestats.jsx:111-115 | "next" moves forward one month only while the selection is before the current month, and otherwise changes nothing |
| MonthNav.PrevThenNext | parent/parental-control/src/components/medicinestats.jsx:107-115 | from a month not after the current one, "previous" then "next" returns to it |
| MonthNav.NextThenPrev | parent/parental-control/src/components/medicinestats.jsx:107-115 | from a month before the current one, "next" then "previous" returns to it |
| MonthNav.Apply | parent/parental-control/src/components/medicinestats.jsx:84-115 | no single selector action moves a selection past the current month |
| MonthNav.NeverPastCurrent | parent/parental-control/src/components/medicinestats.jsx:84-115 | no sequence of selector actions moves a selection past the current month |
| MonthNav.IndexIsInjective | parent/parental-control/src/components/medicinestats.jsx:56-57 | a (year, month) pair and its month index determine each other |
| Text.TrimIsBlankBordered | parent/parental-control/src/components/header.jsx:240 | trimming yields a contiguous slice of the text with only whitespace before and after it |
| Text.TrimEndsAreNotBlank | parent/parental-control/src/components/header.jsx:240 | a trimmed text neither starts nor ends with whitespace |
| Text.TrimIdempotent | parent/parental-control/src/components/header.jsx:240 | trimming twice is trimming once |
| Text.TrimEmptyIffBlank | parent/parental-control/src/components/header.jsx:217 | a trimmed text is empty exactly when the text is all whitespace |
| Text.EqualsIgnoringCaseIsEquivalence | parent/parental-control/src/components/header.jsx:416 | the case-insensitive name comparison is reflexive, symmetric and transitive |
| Text.NatToDecimal | parent/parental-control/src/components/medicinestats.jsx:438-439 | a count is written as a non-empty string of decimal digits without a leading zero whose value is the count |
| Text.JoinHoldsFirst | parent/parental-control/src/components/medicinestats.jsx:427-428 | a joined list starts with its first part |
| HeaderForms.PrepareMember | parent/parental-control/src/components/header.jsx:203-283 | the member handler reports, in order: not signed in, empty name, age not an integer in 1..100, phone not ten digits; the record it inserts carries the trimmed name and phone, and its phone is used by none of the parent's children |
| HeaderForms.PhoneTakenIffUsedOnce | parent/parental-control/src/components/header.jsx:250-269 | with valid fields, the handler reports "already assigned" exactly when one of the parent's children uses the phone, a failed add exactly when several do (`maybeSingle` fails), and prepares the member exactly when none does |
| HeaderForms.SubmitMember | parent/parental-control/src/components/header.jsx:198-301 | a member is added exactly when preparation and insert succeed; then every field is cleared and the modal closes, otherwise the form keeps what was typed and the modal stays open; a failed insert is reported as the generic failed add |
| MedicineRules.CheckAll | parent/parental-control/src/components/header.jsx:375-409 | the add form reports the first failing check of the chain child, name length (at least two UTF-16 code units after trimming), dosage, total quantity, threshold and threshold-within-total, and reports nothing when all hold |
| MedicineRules.MessagesIdentifyChecks | parent/parental-control/src/components/header.jsx:375-409 | the checks show pairwise different messages, so the message names the failing check |
| MedicineRules.AstralNamePassesLengthCheck | parent/parental-control/src/components/header.jsx:381 | a name of one character outside the Basic Multilingual Plane passes the length check, since JavaScript counts it as two code units |
| Text.Utf16Length | parent/parental-control/src/components/header.jsx:381 | a text's JavaScript length lies between its number of characters and twice that |
| Text.Utf16LengthIsCountIffBmp | parent/parental-control/src/pages/medicinestock.jsx:134 | the JavaScript length equals the number of characters exactly when no character lies outside the Basic Multilingual Plane |
| Text.AstralCharacterCountsTwice | parent/parental-control/src/pages/medicinestock.jsx:134 | one character outside the Basic Multilingual Plane has JavaScript length two |
| MedicineRules.CheckFieldsIsFirstFailure | parent/parental-control/src/pages/medicinestock.jsx:133-153 | the edit form reports the first failing check of the same chain without the child check |
| MedicineRules.EditChainIsAddChainWithoutChild | parent/parental-control/src/pages/medicinestock.jsx:133-153 | with a child chosen, the edit chain and the add chain report the same check |
| MedicineRules.PassingFieldsAreSound | parent/parental-control/src/components/header.jsx:381-409 | values that pass the chain have a trimmed name of at least two code units, a positive dosage, and a threshold between zero and the total |
| MedicineRules.SoundFieldsPass | parent/parental-control/src/components/header.jsx:381-409 | conversely, such values pass the chain |
| HeaderForms.PrepareMedicine | parent/parental-control/src/components/header.jsx:375-442 | the medicine handler reports a failing check, an existing medicine of the same name up to letter case, or a failed lookup; the inserted row carries the trimmed name, the parsed numbers, and a quantity left equal to the total |
| HeaderForms.CaseVariantIsDuplicate | parent/parental-control/src/components/header.jsx:411-424 | valid fields naming an existing medicine of the same child in another letter case are refused as already existing (for names without pattern metacharacters) |
| HeaderForms.SubmitMedicine | parent/parental-control/src/components/header.jsx:426-461 | a medicine is added exactly when preparation and insert succeed; then the form is reset with no intake times and the modal closes, otherwise the form is left as it was and the modal stays open; a failed insert is reported as the generic failed add |
| HeaderForms.BlankFormIsRejected | parent/parental-control/src/components/header.jsx:450-459 | the form after a reset is refused at the child check |
| IntakeTimes.Toggle | parent/parental-control/src/components/header.jsx:350-367 | clicking a time selects it exactly when it was not selected, appending it at the end, and leaves every other time as it was |
| IntakeTimes.ToggleKeepsOthers | parent/parental-control/src/components/header.jsx:353-364 | the times other than the clicked one keep their order |
| IntakeTimes.ToggleKeepsDistinct | parent/parental-control/src/components/header.jsx:353-364 | a list without repeats stays without repeats |
| IntakeTimes.ToggleTwiceRestores | parent/parental-control/src/components/header.jsx:353-364 | clicking an unselected time twice restores the list |
| IntakeTimes.ClicksStayWithinOptions | parent/parental-control/src/components/header.jsx:322-367 | from a selection of offered times without repeats (such as the empty one of a fresh form), any clicks on the offered checkboxes keep it a selection of offered times without repeats |
| IntakeTimes.ToggleTwiceMovesToEnd | parent/parental-control/src/components/header.jsx:353-364 | clicking a selected time twice moves it to the end |
| HeaderForms.ToggleIntakeTime | parent/parental-control/src/components/header.jsx:350-367 | the toggle changes only the intake times of the form |
| IntakeTimes.ToggleOrStart | parent/parental-control/src/pages/medicinestock.jsx:420-425 | the edit modal treats a missing list as empty, so a first click gives a one-element list |
| MedicineStock.ToggleEditTime | parent/parental-control/src/pages/medicinestock.jsx:420-425 | the edit toggle changes only the medicine's intake times |
| MedicineStock.Prepend | parent/parental-control/src/pages/medicinestock.jsx:101-103 | an added medicine goes in front of the unchanged list |
| MedicineStock.RemoveAfterPrepend | parent/parental-control/src/pages/medicinestock.jsx:101-103 | deleting a just-added medicine's id gives the same list as deleting that id before the add |
| MedicineStock.RemoveById | parent/parental-control/src/pages/medicinestock.jsx:205 | deleting keeps exactly the medicines with another id |
| MedicineStock.RemoveByIdIdempotent | parent/parental-control/src/pages/medicinestock.jsx:205 | deleting the same id twice is deleting it once |
| MedicineStock.RemoveByIdCommutes | parent/parental-control/src/pages/medicinestock.jsx:205 | two deletions give the same list in either order |
| MedicineStock.DeleteMedicine | parent/parental-control/src/pages/medicinestock.jsx:190-210 | a confirmed, successful delete removes the id and closes the modal; otherwise list and modal stay |
| MedicineStock.ReplaceById | parent/parental-control/src/pages/medicinestock.jsx:178-180 | an edit replaces every medicine with the edited id and keeps all others and the length |
| MedicineStock.ReplaceOnlyTouchesId | parent/parental-control/src/pages/medicinestock.jsx:178-180 | apart from the edited id, the list after an edit is the list before it |
| MedicineStock.ChildUserOf | parent/parental-control/src/pages/medicinestock.jsx:175 | the child user kept after an edit is that of the first medicine with the id, and is absent when no medicine has it |
| MedicineStock.ValidateEdit | parent/parental-control/src/pages/medicinestock.jsx:133-153 | saving an edit reports the first failing check after the child check, on the trimmed name and on `Number` of each numeric field (a stored `null` reads as 0), and never the child check |
| MedicineStock.NullThresholdIsSentAsZero | parent/parental-control/src/pages/medicinestock.jsx:146-166 | a stored row with a `null` refill threshold and otherwise valid fields passes the edit checks, and the update sends the threshold as 0 |
| MedicineStock.NullTotalFailsThresholdCheck | parent/parental-control/src/pages/medicinestock.jsx:142-153 | a stored row with a `null` total and a positive threshold fails the threshold-within-total check, not the total check |
| MedicineStock.PayloadOf | parent/parental-control/src/pages/medicinestock.jsx:158-169 | the update sends the trimmed name, `Number` of the dosage (positive), of the total and of the threshold (between zero and the total), and the expiry date, intake times and parent id unchanged |
| MedicineStock.PayloadIgnoresChildAndStock | parent/parental-control/src/pages/medicinestock.jsx:158-169 | the edit's validity and its payload do not depend on the child or on the quantity left |
| MedicineStock.SaveMedicine | parent/parental-control/src/pages/medicinestock.jsx:130-186 | an update is sent exactly when a medicine is open and passes validation; a successful update replaces it in the list and closes the modal, anything else leaves list and modal unchanged |
| MedicineStock.LowStockDefaults | parent/parental-control/src/pages/medicinestock.jsx:271-275 | a `null` quantity left or threshold counts as zero in the low-stock comparison, and a threshold that is not a number never marks the row low |
| MedicineStock.FreshMedicineLowIffThresholdIsTotal | parent/parental-control/src/pages/medicinestock.jsx:271-275 | a just-added medicine shows as low exactly when its refill threshold equals its total quantity |
| MedicineStock.FreshMedicinePassesEdit | parent/parental-control/src/pages/medicinestock.jsx:133-153 | a medicine as the add form stores it passes the edit form's validation unchanged |

## Left out

- Loading spinners, alerts (SweetAlert, toasts) and console logging are not modelled: they do not affect the data. Of the modals, the model covers the two header modals closing after a successful add and the edit modal closing after a successful save or delete; opening them is not modelled.
- Parsing text into numbers is not modelled. A form holds what `Number` (or, for the age, `parseInt`) makes of each input's text, so the parsing rules themselves, such as `parseInt` accepting a numeric prefix, are outside the model.
- A numeric field absent from a stock row (`undefined`, for which `Number` gives `NaN`) is not modelled. Rows read from the table carry every column, with `null` for a missing value.
- The `ilike` duplicate check is modelled as equality up to ASCII letter case. The name is passed to it unescaped, so some of its characters are pattern metacharacters there; these are not modelled: the `%` and `_` wildcards, `*` (which PostgREST reads as `%`), `\` (LIKE's escape character), and non-ASCII case folding.
- HeaderForms.PrepareMedicine: the duplicate test compares the trimmed name literally. For a name containing `%`, `_`, `*` or `\` the program's lookup differs. A new "Vit*" is refused when "Vitamin" exists, while the model accepts it. A new "a\b" is accepted when "a\b" exists, while the model refuses it.
- HeaderForms.CaseVariantIsDuplicate: the refusal it states holds in the program only for names without pattern metacharacters. A name containing `\` (or a `%`, `_` or `*` that matches differently) need not find its own case variant.
- The month query's date-range filter runs on the server. The model receives the rows the query returned.
- A `null` history with no error is treated like an empty one, as the code does.
- The add form's initial `daily_intake_times` value is a string, not an array. The model starts from a list.
- The disabled future options of the month selector, and the range of years it offers, are presentation only.
- IntakeStats.AggregateIsFaithful: medicine names that are integer-like (such as "12") are listed by JavaScript's `Object.entries` before the others, in numeric order; the model keeps first-occurrence order for every name.
- IntakeStats.TableMatchesCounters: the table rows come from `Object.entries`, so integer-like medicine names come first, in numeric order, rather than in first-occurrence order as the model states.
- IntakeStats.PdfMatchesCounters: the PDF rows come from `Object.entries` too, with the same exception for integer-like medicine names.
- IntakeStats.AggregateIsFaithful: a medicine named after a member of `Object.prototype` ("constructor", "toString", "valueOf", "hasOwnProperty", "__proto__", …) makes `counts[name]` find the inherited member. The code then calls `.details.push` on something without `details`, which throws, so the month report never loads. The model groups such a name like any other.
- The profile, password and logout handlers of `header.jsx`, the fetching of medicines and users on the stock page, and the other pages (health reports, login, register, home) are not part of this model.
- Chart colours, the PDF layout and the PDF title are not modelled.
- HeaderForms.PrepareMedicine: infinite numbers are not modelled. Text such as "Infinity" or "1e400" makes `Number` return `Infinity`. That passes every check (it is not `NaN` and is greater than 0), and the request body carries it as `null`. The model has only finite numbers and `NaN`.
- MedicineStock.ValidateEdit: the same holds for the edit modal. An `Infinity` typed into it passes the checks, which the model does not show.
- MedicineStock.PayloadOf: an `Infinity` would be sent as `null`. The model only sends finite numbers.
- MedicineStock.FreshMedicinePassesEdit: holds only for finite numbers. A total stored as `null` because it was `Infinity` reads as 0 in the edit checks, so a positive threshold then fails the threshold-within-total check.
- IntakeStats.ApplyMonthFetch: the code sets the pie to an empty object when there is no data, and the model follows the code (`None`). It does not model a zero summary.
