# Signup-channel statistics for a membership database, modelled in Dafny

The analysis scripts read a backup of a membership-management system (Action Network).
They turn each member record into a row of a statistics table: the member's local group,
signup date, the form they signed up with, whether a website referred them, and a
*signup channel*. The channel is one of `NVDA`, `Volunteer`, `Website`, `HfX Talk` and
`Other`, and it is chosen by ordered substring rules on the form's human name. Form names
come from a *form catalog*. The catalog flattens each form into one row per identifier and
is keyed by the part of the identifier after its `type:` prefix.

This project models that logic and proves its properties:

- `seqs.dfy` (module `Seqs`) and `wrappers.dfy` (module `Wrappers`) hold sequence facts and
  `Option`/`Result`.
- `text.dfy` (module `Text`) models Python's substring test `t in s` and `s.split(c)`.
  The substring test is proved equal to an independent positional definition. Split and
  join are proved to be inverse to each other in both directions.
- `dates.dfy` (module `Dates`) models dates as `(year, month, day)` triples with their
  order (proved to agree with a day-ordinal reference on valid dates), the formation date 2018-04-01 and the
  website-join cutoff 2020-02-20.
- `forms.dfy` (module `Forms`) models `get_forms`. The nested loop is the method
  `GetForms`, proved equal to the specification function `Flatten`. The lemmas give the
  row count, the row order, the copied fields and the failure on identifiers without `:`.
- `members.dfy` (module `Members`) models the three first-match extractors as loop methods
  proved against specification functions. It also models the submission-history reader,
  the record normaliser, the form-name lookup, the website flag and the channel classifier.
- `member_stats.dfy` (module `MemberStats`) models `get_member_stats`. The method
  `GetMemberStats` (with its loops `ProcessMembers` and `DeriveColumns`) is proved equal
  to the function `Stats`. The lemmas about `Stats` cover the dropped last record,
  filtering and order, the row count, every derived column, and when and how a run fails.

Modelling choices:

- Three external inputs are parameters. The per-member submission history is a function
  `history` from the member's submissions link to the list of submissions. The forms list
  is a plain argument. Date parsing is a function `parseDate`, where `None` means the
  parser rejects the text.
- Missing dictionary keys that the code checks (`custom_fields`, `local_group`,
  `locality`, `region`, `referrer_data`) are `Option` fields. An empty submission history
  gives `(None, None)`.
- The code fails when no member survives the filter, which includes a backup of at most
  one record. `pd.DataFrame([])` then has no `sign_up_date` column, and line 111 of
  `analysis_scripts/members.py` raises `KeyError`. The model keeps this behaviour as
  `Err(EmptyTable)`.
- The code also fails when the form catalog has no rows, because there are no forms or
  every form has an empty identifier list. `get_forms` then returns `pd.DataFrame([])`,
  which has no `identifier` column, and `set_index('identifier')` at line 112 raises
  `KeyError`. The model returns `Err(EmptyCatalog)` in that case. It checks this after a
  malformed identifier, because `get_forms` raises `IndexError` before `set_index` runs.
- `map_signup_form` returns `"Other"` when the form is unknown, and also when the form's
  name is `"Other"`. `MapSignupForm` states this exact condition. The two cases cannot be
  told apart by the classifier: both end in the `Other` channel
  (`OtherFormIsOtherChannel`, `UnknownFormIsOtherChannel`).
- `Classify` returns the datatype `Channel`. `ChannelName` gives the string the scripts
  write for each channel.

## Model

| member | source | states |
|---|---|---|
| `Text.Contains` | analysis_scripts/members.py:81-92 | Python's `t in s`: the empty pattern is always found, a found pattern is no longer than the name, and a pattern as long as the name is found exactly when the two are equal |
| `Text.ContainsIffOccurs` | analysis_scripts/members.py:81-92 | The substring test used by the rules holds exactly when the pattern occurs at some position, case-sensitively |
| `Text.LacksFirstChar` | analysis_scripts/members.py:81-92 | A name without the first letter of a trigger word does not contain that word |
| `Text.Split` | analysis_scripts/forms.py:16 | `split(':')` yields at least one piece, exactly one when there is no separator, and no piece holds the separator |
| `Text.JoinSplit` | analysis_scripts/forms.py:16 | Rejoining the pieces of a split with the separator gives back the original identifier |
| `Text.SplitJoin` | analysis_scripts/forms.py:16 | Splitting a join of separator-free pieces gives back exactly those pieces |
| `Members.FirstIndex` | analysis_scripts/members.py:14-16 | The first-match search returns the first position satisfying the test, or None exactly when no position does |
| `Dates.Before` | analysis_scripts/members.py:88 | `a < b` on dates; on valid dates it is the order of their day ordinals. The two fixed dates are 2018-04-01 (line 9) and 2020-02-20 (line 88) |
| `Dates.BeforeIsStrictTotalOrder` | analysis_scripts/members.py:105 | Date comparison is irreflexive, transitive, total and asymmetric, so the skip test `<= start_date` is the negation of "strictly after" |
| `Members.PrimaryEmail` | analysis_scripts/members.py:12-16 | The address of the first entry flagged primary; None exactly when no entry is primary |
| `Members.ExtractPrimaryEmail` | analysis_scripts/members.py:12-16 | The early-return loop computes `PrimaryEmail` of the member's email entries |
| `Members.PrimaryAddress` | analysis_scripts/members.py:19-35 | The first postal address flagged primary; None exactly when no address is primary |
| `Members.PrimaryLocality` | analysis_scripts/members.py:19-28 | None without a primary address; otherwise the first primary address's locality, or its region when the locality is missing |
| `Members.PrimaryPostalCode` | analysis_scripts/members.py:31-35 | None exactly when no address is primary; otherwise the first primary address's postal code |
| `Members.ExtractPrimaryLocality` | analysis_scripts/members.py:19-28 | The loop returns the first primary address's locality, else its region, else None; None without a primary address |
| `Members.ExtractPrimaryPostalCode` | analysis_scripts/members.py:31-35 | The loop returns the first primary address's postal code, or None without a primary address |
| `Members.LaterAddressesIgnored` | analysis_scripts/members.py:19-35 | Once a primary address exists, appending any addresses (further primary ones included) changes neither locality nor postal code |
| `Members.ExtractSignupForm` | analysis_scripts/members.py:42-49 | The form is None exactly for an empty history; otherwise it is the first submission's form and the referrer's source or None; a source never comes without a form |
| `Members.SignupFormIgnoresLaterSubmissions` | analysis_scripts/members.py:45-49 | Only the first submission is read |
| `Members.LocalGroup` | analysis_scripts/members.py:58-63 | No group exactly when the field or its parent is missing or holds "Not selected" or "No group nearby"; otherwise the field's value unchanged |
| `Members.DatePart` | analysis_scripts/members.py:64-65 | The signup date is the prefix of the timestamp before the first 'T', or the whole string when it has no 'T' |
| `Members.ExtractData` | analysis_scripts/members.py:57-68 | The record never holds a sentinel group, its date is a 'T'-free prefix of the timestamp, and its form is missing exactly for an empty history |
| `Members.MapSignupForm` | analysis_scripts/members.py:71-77 | A known form gives its mapped name; the result is "Other" exactly when the form is missing, unknown, or itself named "Other" |
| `Members.Classify` | analysis_scripts/members.py:80-95 | Each channel holds exactly under its rule with all earlier rules failing: NVDA, then Volunteer, then Join (Website iff a referrer and a date strictly before 2020-02-20, else HfX Talk), then Website, else Other |
| `Members.OtherFormIsOtherChannel` | analysis_scripts/members.py:71-95 | The fallback name "Other" is classified as `Other` whatever the referrer and date |
| `Members.UnknownFormIsOtherChannel` | analysis_scripts/members.py:71-95 | A missing or unknown form always ends in the `Other` channel |
| `Members.ClassifyFirstRuleWins` | analysis_scripts/members.py:80-82 | "NVDA Volunteer Join" is NVDA although it matches three rules |
| `Members.ClassifyJoinCutoff` | analysis_scripts/members.py:87-90 | A name containing "Join" but neither "NVDA" nor "Volunteer" is Website only with a referrer strictly before the cutoff; on the cutoff day and without a referrer it is HfX Talk |
| `Members.JoinChannelByReferrer` | analysis_scripts/members.py:87-90 | For such a Join name, a missing referrer or the literal "none" gives HfX Talk on every date; any other referrer gives Website exactly strictly before 2020-02-20 |
| `Members.ChannelName` | analysis_scripts/members.py:80-95 | Every channel is written as one of the five labels "NVDA", "Volunteer", "Website", "HfX Talk", "Other" |
| `Members.ChannelNamesDistinct` | analysis_scripts/members.py:80-95 | Distinct channels get distinct labels |
| `Forms.IdentifierKey` | analysis_scripts/forms.py:16 | `split(':')[1]` fails exactly when the identifier has no ':', and a key never holds a ':' |
| `Forms.IdentifierKeySpec` | analysis_scripts/forms.py:16 | `split(':')[1]` fails exactly without a ':'; otherwise it is the separator-free text right after the first ':' up to the next one |
| `Forms.TypedIdentifierKey` | analysis_scripts/forms.py:16 | For `t:x` with no ':' in `t` or `x`, the key is exactly `x` |
| `Forms.FormRows` | analysis_scripts/forms.py:13-22 | A form's rows number its identifiers; a failure names one of its identifiers, one without ':' |
| `Forms.Flatten` | analysis_scripts/forms.py:10-24 | The catalog fails only by naming an identifier without ':' |
| `Forms.FormRowsSpec` | analysis_scripts/forms.py:13-22 | A form gives one row per identifier, in identifier order, fields copied from the form; it fails exactly when an identifier lacks ':', naming such an identifier |
| `Forms.FlattenOkIff` | analysis_scripts/forms.py:12-16 | The catalog is built exactly when every identifier of every form has a ':'; a failure names a malformed identifier |
| `Forms.FlattenLength` | analysis_scripts/forms.py:12-13 | The number of rows is the sum over forms of their identifier counts |
| `Forms.FlattenRowAt` | analysis_scripts/forms.py:12-22 | Identifier j of form i gives the row at (identifiers of earlier forms) + j, with the identifier's key and every other field copied from form i |
| `Forms.RowsOfOneFormAgree` | analysis_scripts/forms.py:14-21 | Rows of one form differ at most in their identifier |
| `Forms.FlattenAppend` | analysis_scripts/forms.py:12-14 | The catalog of concatenated form lists is the concatenation of their catalogs: rows are grouped by form in input order |
| `Forms.GetForms` | analysis_scripts/forms.py:10-24 | The nested append loop computes `Flatten` of the forms, including its failure |
| `Forms.FormMapping` | analysis_scripts/members.py:112 | With distinct identifiers, every catalog identifier maps to its form's name and every key is a catalog identifier |
| `MemberStats.Visited` | analysis_scripts/members.py:103 | `members[0:-1]` is a prefix one shorter than the input, or empty for an empty input |
| `MemberStats.Kept` | analysis_scripts/members.py:103-106 | A member is kept exactly when it is visited and its parsed creation date is strictly after the start date |
| `MemberStats.KeptAppend` | analysis_scripts/members.py:103-107 | Keeping distributes over concatenation, so kept members stay in input order |
| `MemberStats.Collect` | analysis_scripts/members.py:102-107 | The loop yields at most one record per visited member, each with a parseable signup date |
| `MemberStats.CollectSpec` | analysis_scripts/members.py:102-107 | The loop fails exactly when a visited creation date does not parse; otherwise record k is the extraction of the k-th kept member |
| `MemberStats.CollectErrors` | analysis_scripts/members.py:105 | The loop aborts only on an unparseable date |
| `MemberStats.ProcessMembers` | analysis_scripts/members.py:102-107 | The `for`/`continue` loop computes `Collect` of the visited records |
| `MemberStats.DeriveRow` | analysis_scripts/members.py:111-116 | A row keeps the record's group, form and referrer; its date is cleared exactly when before 2018-04-01; its website flag is false exactly for a missing or "none" referrer; its channel is classified on the uncleared date |
| `MemberStats.DeriveColumns` | analysis_scripts/members.py:111-116 | One row per record; each row holds the parsed date's derived columns, the channel computed before the date is cleared |
| `MemberStats.Stats` | analysis_scripts/members.py:98-118 | A successful run has between 1 and `len(members) - 1` rows, and no shown date precedes 2018-04-01 |
| `MemberStats.GetMemberStats` | analysis_scripts/members.py:98-118 | The whole pipeline computes `Stats` on the loaded records and fetched forms |
| `MemberStats.StatsIgnoresLastRecord` | analysis_scripts/members.py:103 | The last record never affects the result |
| `MemberStats.StatsOutcome` | analysis_scripts/members.py:102-112 | A run fails on an unparseable date first, then on an empty table, then on a malformed catalog identifier, then on a catalog without rows, and succeeds exactly when none applies |
| `MemberStats.StatsRowCount` | analysis_scripts/members.py:103-116 | One row per kept member, between 1 and `len(members) - 1` rows |
| `MemberStats.StatsRowAt` | analysis_scripts/members.py:105-116 | Row k comes from the k-th kept member (created after the start date): group, form and referrer carried over; form name, website flag and channel by the rules on the parsed date; the date cleared exactly when before 2018-04-01, the row kept |

## Left out

- The network `query` calls (`get_sign_up_channel`, and the fetch in `get_forms`) are not modelled. The submission histories and the forms list are inputs, and a failed request is not modelled. `analysis_scripts/util.py` is not part of this model.
- Loading the backup JSON file is not modelled; the member list is an input.
- `export_member_stats` and the CSV write are not modelled (file output through pandas).
- The progress `print` and the unused helper `to_str` are not modelled.
- pandas is not modelled. Tables are sequences of records. The column assignments of lines 111-116 are evaluated row by row. On a table with at least one row and a catalog with at least one row, this gives the same result under the assumption on date parsing stated below: apart from the date parse of line 111, each column depends only on its own row, and the channel is computed before the date is cleared. The two empty cases fail in pandas, and the model returns `EmptyTable` and `EmptyCatalog` for them.
- `pd.to_datetime` is the parameter `parseDate`; which texts it accepts is not modelled.
- The model assumes that the column-wide date parse of line 111 accepts every date text the per-member parse of line 105 accepted and gives the same date, so it reuses `parseDate` on each record. pandas infers one format for the whole column, and it may reject a column whose dates parse one by one. That failure of line 111 is not modelled.
- Dates are `(year, month, day)` triples compared in that order; calendar validity is the parser's concern.
- Values of keys the code reads without a check are never JSON `null` in the model: `EmailAddress.address`, `PostalAddress.postalCode`, `Submission.formId` and the `local_group` value are plain strings. The code passes a `null` there through as None. So a first primary email with a `null` address gives None, which `Members.PrimaryEmail` reserves for "no primary entry". Likewise, a `null` form id gives `(None, source)`, which `Members.ExtractSignupForm` rules out with "a source never comes without a form".
- Keys the code reads without a check are always present in the model: `email_addresses`, `address`, `postal_addresses`, `postal_code`, `created_date`, `form_id`, `source`, `_embedded` and the form fields. The `KeyError` a document without them would raise is not modelled.
- `Members.ExtractPrimaryLocality`: a `locality` key that is present but JSON `null` is not told apart from a missing key, so the model falls back to `region` where the code returns None.
- `Forms.FormMapping`: duplicate catalog identifiers are excluded by a precondition (`MemberStats.CatalogUsable`). With duplicates, pandas would return a series instead of a name; this case is not modelled.
- The embedded `creator` object of a form is an opaque string, and timestamps in the catalog are copied as strings.
