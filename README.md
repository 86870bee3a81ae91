# Survey submission pipeline: validation and PII redaction

This project models `models.py`, the data model of a survey submission
pipeline, in Dafny. The file has two pydantic (v1) models:

- `SurveySubmission`: an inbound record that a client supplies. Building it
  checks every field against its bounds. Name must be 1 to 100 characters.
  Email must be valid. Age must be 13 to 120. Consent must be exactly true.
  Rating must be 1 to 5. Comments, when given, may have at most 1000
  characters and are stripped of surrounding whitespace. When the caller
  gives no `submission_id`, one is derived: the hash of the email followed
  by the `%Y%m%d%H` hour bucket of the current time.
- `StoredSurveyRecord`: the persisted form. `from_submission` copies the
  non-PII fields, takes the receipt time and origin address from the caller,
  and replaces email and age with their hashes. The new record is checked
  again against the same field rules. Its own id validator never derives
  an id.

Everything in the core is pure, so the model is datatypes, functions and
lemmas. There are no classes or loops. Three things the source takes from
outside become parameters:

- the SHA-256 hexdigest is `hash: string -> string`;
- the `EmailStr` validator is `emailCheck: string -> Option<string>`, which
  returns the normalised address or `None`;
- `datetime.now()` is a `now: Timestamp` argument.

Modules:

- `Wrappers`: `Option` and `Result`.
- `Text`: Python's `str.strip()` and the decimal rendering of integers.
- `Clock`: `datetime` values and the hour bucket.
- `FieldRules`: the field constraints and validators both models share, and
  the error list. A `Field` value names a field (`FieldName` gives the name
  pydantic reports). Each error entry is a (field, message) pair.
- `Submission`: `SurveySubmission`.
- `StoredRecord`: `StoredSurveyRecord` and `from_submission`.

Validation follows pydantic v1 order. Each field's declared constraint is
checked first. The field's custom validator runs only if that check passed.
A field that failed is absent from the values later validators see. So:

- the comments length bound applies to the text BEFORE it is stripped;
- a missing required field is reported as `field required`, and its
  validator never runs;
- when the email fails, no id is derived.

A missing `consent` is reported as `field required`, not as "consent must
be true": `_must_consent` (models.py:21-25) only runs on a value that is
present (`FieldRules.CheckConsent`).

Errors are reported as pydantic does: one entry per violated field, in the
order the fields are declared, each carrying its check's message.
`FieldRules.Position` gives that order, and the stored record's fields keep
the same relative order.

## Model

| member | source | states |
|---|---|---|
| Text.SkipLeading | models.py:19 | the leading whitespace scan of `strip()` stops at the first non-whitespace character or the end, having passed only whitespace |
| Text.SkipTrailing | models.py:19 | the trailing whitespace scan of `strip()` stops after the last non-whitespace character or at the lower limit, having passed only whitespace |
| Text.Strip | models.py:17-19 | `str.strip()` returns the slice `s[i..j]` whose margins are all whitespace, which has no surrounding whitespace and is never longer than the input |
| Text.StripTrimmed | models.py:17-19 | stripping a string without surrounding whitespace returns it unchanged |
| Text.StripIdempotent | models.py:17-19 | stripping twice is the same as stripping once |
| Text.StripExample | models.py:17-19 | `"  hello  "` is stripped to `"hello"` |
| Text.NatDigits | models.py:46 | `str(n)` for n ≥ 0 is a digit string with no leading zero that reads back as n |
| Text.DecimalString | models.py:46 | `str(n)` for n ≥ 0 is digits with no leading zero that read back as n; for n < 0 it is `-` followed by such digits of -n |
| Text.DecimalStringInjective | models.py:46 | distinct ages render to distinct decimal strings |
| Text.FixedDigits | models.py:35 | the zero-padded fields of `strftime` have fixed width, are all digits, and read back as the value when it fits |
| Clock.HourBucket | models.py:34-35 | `%Y%m%d%H` gives 10 digits; for a valid datetime its slices read back as year, month, day and hour |
| Clock.HourBucketExact | models.py:35 | two valid datetimes share a bucket if and only if they are in the same calendar hour |
| Clock.HourBoundaryExample | models.py:35 | 23:59:59 and the next day's 00:00:00 get different buckets |
| FieldRules.FieldNameInjective | models.py:7-57 | each declared field is reported under its own name (name, email, age, consent, rating, comments, user_agent, submission_id, received_at, ip, hashed_email, hashed_age), so an error's name identifies its field |
| FieldRules.ErrorEntry | models.py:6-14 | a passing field adds no error entry; a failing field adds exactly one entry with its name and message |
| FieldRules.CheckLength | models.py:7 | a length-bounded required `str` passes exactly when present with min ≤ length ≤ max; the value is kept; a missing value reports `field required` |
| FieldRules.CheckRange | models.py:9-11 | a `ge`/`le`-bounded required `int` passes exactly when present with lo ≤ value ≤ hi, inclusive; a missing value reports `field required` |
| FieldRules.CheckConsent | models.py:21-25 | consent passes exactly when it is `True`; `False` gives "consent must be true"; a missing value gives `field required` |
| FieldRules.CheckComments | models.py:12-19 | comments pass exactly when absent or at most 1000 characters before stripping; the value kept is the stripped input (trimmed, no longer); the failure message is pydantic's max-length message |
| FieldRules.StripComments | models.py:17-19 | `_strip_comments` keeps absence, and turns present comments into the slice of the input left after cutting its leading and trailing whitespace, which is trimmed and no longer |
| FieldRules.MustConsent | models.py:21-25 | `_must_consent` accepts exactly `True`, and otherwise fails with "consent must be true" |
| FieldRules.CheckName | models.py:7 | `name` passes exactly when present with 1 to 100 characters, keeping the value; missing is `field required` |
| FieldRules.CheckRating | models.py:11 | `rating` passes exactly when present and 1 ≤ rating ≤ 5, keeping the value; missing is `field required` |
| FieldRules.CheckCommentsStable | models.py:61-63 | comments that are trimmed and within the bound validate to themselves |
| FieldRules.CheckCommentsIdempotent | models.py:17-19 | validating the validated comments again changes nothing |
| FieldRules.BoundaryExamples | models.py:7-12 | rating 1 and 5 pass; 0 and 6 fail with their messages; an empty name fails; 1000 characters of comments pass and 1001 fail |
| FieldRules.FlaggedEntry | models.py:6-14 | a field's error entry reports that field exactly when its check failed, and no other field |
| FieldRules.FlaggedConcat | models.py:6-14 | a field is reported in a concatenation of error lists exactly when it is reported in one part |
| FieldRules.FlaggedMember | models.py:6-14 | every entry of an error list reports its own field |
| FieldRules.NotFlagged | models.py:6-14 | an error list whose entries name only other fields does not report a given field |
| FieldRules.OrderedConcat | models.py:6-14 | two error lists, each in declaration order and the first wholly before the second, are in declaration order together |
| FieldRules.OrderedInFieldOrder | models.py:6-14 | an error list whose neighbouring entries are in declaration order has every pair in that order, so no field appears twice |
| FieldRules.WithinMembers | models.py:6-14 | an error list is within a set of fields exactly when every entry names one of them |
| Submission.CheckEmail | models.py:8 | email passes exactly when present and accepted by the email validator, and the value kept is the normalised address; missing is `field required`, rejected is "value is not a valid email address" |
| Submission.CheckAge | models.py:9 | `age` passes exactly when present and 13 ≤ age ≤ 120, keeping the value; missing is `field required` |
| Submission.HashInput | models.py:33-36 | the text hashed into a derived id is the email followed by the ten-digit `%Y%m%d%H` hour bucket of `now` |
| Submission.HashInputExact | models.py:35-36 | for valid datetimes, the text hashed into an id identifies exactly the email and the calendar hour |
| Submission.GenerateSubmissionId | models.py:27-38 | a supplied id is kept; no id results exactly when none was supplied and no non-empty validated email exists; any derived id is the hash of the email and the hour bucket |
| Submission.SixFlagged | models.py:6-14 | in the six fields' entries, each field is flagged exactly when its check failed |
| Submission.SixPlaced | models.py:6-14 | the six fields' entries name only checked fields, in declaration order |
| Submission.ValidationErrors | models.py:6-14 | the error list is empty exactly when every field passed; each field is reported exactly when it failed, with its check's message; entries follow declaration order, so none repeats; only the six constrained fields appear |
| Submission.SubmissionErrors | models.py:6-14 | for a raw submission, the error list is empty exactly when every rule holds; each field is reported exactly when its rule is violated, with its check's message, once, in declaration order |
| Submission.Validate | models.py:6-38 | a submission is accepted exactly when every field rule holds; the result is well formed, maps each field, strips comments and sets the id by derivation; on failure each field is reported exactly when its rule is violated, with its check's message, at most once and in declaration order |
| Submission.ConsentFalseRejected | models.py:21-25 | consent `False` is always rejected with ("consent", "consent must be true"), whatever the other fields hold |
| Submission.AgeBoundaries | models.py:9 | age 13 and 120 pass; 12 and 121 fail with the `ge`/`le` messages |
| Submission.ExplicitIdKept | models.py:30-38 | an id the caller supplies passes through unchanged |
| Submission.DerivedId | models.py:30-37 | without a supplied id, the id is the hash of the validated email followed by the hour bucket |
| Submission.SameEmailSameHourSameId | models.py:33-37 | the same email within the same calendar hour gets the same id |
| Submission.DifferentHourDifferentHashInput | models.py:33-37 | the same email in different calendar hours hashes different inputs into its id |
| Submission.HashedEmailOfValidated | models.py:40-42 | `get_hashed_email` of a validated submission hashes the address the email validator normalised |
| Submission.HashedAgeOfDigits | models.py:44-46 | `get_hashed_age` of a valid submission hashes the age's plain decimal digits, which read back as the age |
| Submission.HashedAgeInputsDistinct | models.py:44-46 | submissions with different ages hash different strings for `hashed_age` |
| StoredRecord.CheckRequired | models.py:56-59 | a required field without other constraint passes exactly when present, and keeps its value |
| StoredRecord.FlaggedInGroups | models.py:49-59 | in the stored record's error list, each field is reported only by its own group of checks |
| StoredRecord.KeepSubmissionId | models.py:71-79 | the stored record's id validator returns its input unchanged, present or absent |
| StoredRecord.SharedErrors | models.py:50-53 | the shared fields' errors: among name, consent, rating and comments, each failed field has one entry with its check's message, in declaration order, and no other field appears |
| StoredRecord.ReceiptErrors | models.py:56-59 | the receipt fields' errors: among received_at, ip, hashed_email and hashed_age, each failed field has one entry with its check's message, in declaration order, and no other field appears |
| StoredRecord.GroupsFlagged | models.py:49-59 | in the two groups' errors together, each field is flagged exactly when its own group flags it |
| StoredRecord.GroupsPlaced | models.py:49-59 | the two groups' errors together name only checked fields, in declaration order |
| StoredRecord.FlaggedInFour | models.py:49-59 | four fields' entries report a field exactly when one of them is that field and its check failed |
| StoredRecord.FourPlaced | models.py:49-59 | four fields' entries, declared in order, name only those fields, in declaration order |
| StoredRecord.StoredErrors | models.py:49-59 | the stored record's error list is empty exactly when every field passed; each field is reported exactly when it failed, with its check's message; entries follow declaration order, so none repeats |
| StoredRecord.StoredRecordErrors | models.py:49-79 | for a raw stored record, the error list is empty exactly when every rule holds; each field is reported exactly when its rule is violated, with its check's message (`field required` for a missing receipt field), once, in declaration order |
| StoredRecord.ValidateStored | models.py:49-79 | a stored record is accepted exactly when the shared bounds hold and the receipt and hash fields are present; comments are stripped; the id is kept; each violated field is reported once, with its check's message, in declaration order |
| StoredRecord.FromSubmission | models.py:81-95 | `from_submission` succeeds exactly when the copied fields meet the shared bounds; the record is name, consent, rating, stripped comments, user_agent and submission_id copied, received_at and ip as given, hash(email) and hash(str(age)); on failure name, consent, rating and comments are each reported exactly when their rule is violated, only those fields appear, in declaration order, each with its check's message ("consent must be true" for consent, the length or bound message otherwise) |
| StoredRecord.ReceiptNeverFlagged | models.py:82-95 | when no receipt or hash field is reported, the stored errors name only shared fields |
| StoredRecord.FromSubmissionMapping | models.py:82-95 | a well-formed submission is always stored; the record copies name, consent, rating, comments, user_agent and submission_id, takes received_at and ip from the caller, and holds hash(email) and hash(str(age)) |
| StoredRecord.ValidateThenStore | models.py:82-95 | whatever `SurveySubmission` accepts is stored without error, with the hashes of the validated email and of the given age |
| StoredRecord.PiiOnlyThroughHashes | models.py:84-95 | the stored record depends on email and age only through their hashes |
| StoredRecord.StoredIdNeverDerived | models.py:71-79 | the stored record's id validator never derives an id: an absent id stays absent and a present one is kept |
| StoredRecord.FromSubmissionRechecksConsent | models.py:65-69 | a submission that was never validated and has consent `False` is not stored, and consent is reported with "consent must be true" |
| StoredRecord.StoredHashesAreDigests | models.py:40-46 | when the hash yields 64-character hexdigests, both hash fields of the stored record are hexdigests |

## Left out

- SHA-256 (`hashlib.sha256(...).hexdigest()`, models.py:37, 42, 46) is foreign library code. It is the parameter `hash`. The model assumes nothing about it: not determinism beyond being a function, not the digest format, and not collision freedom. Lemmas state the properties they need as hypotheses.
- Submission.DifferentHourDifferentHashInput: proves that the hash INPUTS differ, not the ids. Different ids would also need the hash to be collision-free, which is not modelled.
- `EmailStr` (models.py:8) is delegated to a library whose source is not part of this model. It is the parameter `emailCheck`, which returns the normalised address or `None`.
- `datetime.now()` (models.py:34) is the argument `now`. Time zones and the local clock are not modelled.
- `%Y` is rendered as four zero-padded digits. For years below 1000, some platforms' `strftime` writes fewer digits; that rendering is not modelled.
- Pydantic's type coercion is not modelled: `"yes"` to `True`, `"13"` to `13`, floats to int, and strict-type errors. Raw fields arrive already typed as `Option<string>`, `Option<int>` or `Option<bool>`, so non-boolean consent is out of scope.
- Errors carry only the field name and message. Pydantic's error `type` and `ctx` parts are not modelled.
- Pydantic's handling of unknown extra fields, and assignment to a model after construction, are not modelled. Records here are immutable values.
- `received_at` is a `Timestamp` value that is copied through. It is not validated beyond being present.
