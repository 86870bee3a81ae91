/** `SurveySubmission`: validation of an inbound survey record, with
    derivation of its `submission_id` and the hashes of its two PII fields.

    The hash (SHA-256 hexdigest), the email validator (`EmailStr`) and the
    wall clock (`datetime.now()`) are parameters. */
module Submission {
  import opened Wrappers
  import opened Text
  import opened Clock
  import opened FieldRules

  /** The one-way hash: text in, hexdigest out. */
  type Hash = string -> string

  /** `EmailStr`: the normalised address when the text is a valid email,
      `None` when it is not. */
  type EmailValidator = string -> Option<string>

  const AgeMin: int := 13
  const AgeMax: int := 120

  const EmailMsg := "value is not a valid email address"

  /** The fields as a caller supplies them; `None` is a field left out (or,
      for the optional fields, given as null). */
  datatype RawSubmission = RawSubmission(
    name: Option<string>,
    email: Option<string>,
    age: Option<int>,
    consent: Option<bool>,
    rating: Option<int>,
    comments: Option<string>,
    userAgent: Option<string>,
    submissionId: Option<string>)

  /** A validated submission. */
  datatype SurveySubmission = SurveySubmission(
    name: string,
    email: string,
    age: int,
    consent: bool,
    rating: int,
    comments: Option<string>,
    userAgent: Option<string>,
    submissionId: Option<string>)

  /** What every field of a validated submission satisfies (the email's own
      rule belongs to the email validator). */
  predicate WellFormed(s: SurveySubmission) {
    && NameInBounds(Some(s.name))
    && AgeMin <= s.age <= AgeMax
    && s.consent
    && RatingInBounds(Some(s.rating))
    && CommentsInBounds(s.comments)
    && (s.comments.Some? ==> IsTrimmed(s.comments.value))
  }

  /** The validity rule, field by field: name of 1 to 100 characters, a
      valid email, age 13 to 120, consent exactly true, rating 1 to 5, and
      comments (if any) of at most 1000 characters. */
  predicate NameAcceptable(raw: RawSubmission) {
    NameInBounds(raw.name)
  }
  predicate EmailAcceptable(raw: RawSubmission, emailCheck: EmailValidator) {
    raw.email.Some? && emailCheck(raw.email.value).Some?
  }
  predicate AgeAcceptable(raw: RawSubmission) {
    raw.age.Some? && AgeMin <= raw.age.value <= AgeMax
  }
  predicate ConsentAcceptable(raw: RawSubmission) {
    raw.consent == Some(true)
  }
  predicate RatingAcceptable(raw: RawSubmission) {
    RatingInBounds(raw.rating)
  }
  predicate CommentsAcceptable(raw: RawSubmission) {
    CommentsInBounds(raw.comments)
  }
  predicate Acceptable(raw: RawSubmission, emailCheck: EmailValidator) {
    && NameAcceptable(raw) && EmailAcceptable(raw, emailCheck) && AgeAcceptable(raw)
    && ConsentAcceptable(raw) && RatingAcceptable(raw) && CommentsAcceptable(raw)
  }

  /** The names of the fields that have a constraint. */
  const CheckedFields: set<Field> := {Name, Email, Age, Consent, Rating, Comments}

  /** `email`: required, then handed to the email validator. */
  function CheckEmail(v: Option<string>, emailCheck: EmailValidator): (r: Check<string>)
    ensures r.Pass? <==> v.Some? && emailCheck(v.value).Some?
    ensures r.Pass? ==> Some(r.value) == emailCheck(v.value)
    ensures v.None? ==> r == Fail(MissingMsg)
    ensures v.Some? && emailCheck(v.value).None? ==> r == Fail(EmailMsg)
  {
    match v
    case None => Fail(MissingMsg)
    case Some(e) =>
      match emailCheck(e)
      case None => Fail(EmailMsg)
      case Some(normalised) => Pass(normalised)
  }

  /** `age`: 13 to 120. */
  function CheckAge(v: Option<int>): (r: Check<int>)
    ensures r.Pass? <==> v.Some? && 13 <= v.value <= 120
    ensures r.Pass? ==> r.value == v.value
    ensures v.None? ==> r == Fail(MissingMsg)
  {
    CheckRange(v, AgeMin, AgeMax)
  }

  /** The text hashed into a derived id: the email followed by the hour
      bucket of the reading. */
  function HashInput(email: string, now: Timestamp): (r: string)
    ensures |r| == |email| + 10
    ensures r[..|email|] == email && r[|email|..] == HourBucket(now)
  {
    email + HourBucket(now)
  }

  /** Different (email, hour) pairs give different hash inputs, and the same
      pair gives the same one: the hash input identifies exactly the email and
      the calendar hour. */
  lemma HashInputExact(e1: string, t1: Timestamp, e2: string, t2: Timestamp)
    requires Valid(t1) && Valid(t2)
    ensures HashInput(e1, t1) == HashInput(e2, t2) <==> e1 == e2 && SameHour(t1, t2)
  {
    HourBucketExact(t1, t2);
    if HashInput(e1, t1) == HashInput(e2, t2) {
      var s := HashInput(e1, t1);
      assert |e1| == |e2|;
      assert e1 == s[..|e1|] == e2;
      assert HourBucket(t1) == s[|e1|..] == HourBucket(t2);
    }
  }

  /** `_generate_submission_id`: an id the caller gave is kept; otherwise,
      when the email validated and is non-empty, the id is the hash of the
      email and the hour bucket of `now`; otherwise there is no id.
      `email` is the validated email, `None` when that field failed. */
  function GenerateSubmissionId(v: Option<string>, email: Option<string>, now: Timestamp, hash: Hash): (r: Option<string>)
    ensures v.Some? ==> r == v
    ensures r.None? <==> v.None? && (email.None? || email.value == "")
    ensures r != v ==> r == Some(hash(HashInput(email.value, now)))
  {
    if v.None? && email.Some? && email.value != "" then
      Some(hash(HashInput(email.value, now)))
    else
      v
  }

  /** A field is flagged in six concatenated lists exactly when it is
      flagged in one of them. */
  lemma FlaggedOfSix(e1: Errors, e2: Errors, e3: Errors, e4: Errors, e5: Errors, e6: Errors, f: Field)
    ensures Flagged(e1 + e2 + e3 + e4 + e5 + e6, f) <==>
      Flagged(e1, f) || Flagged(e2, f) || Flagged(e3, f) || Flagged(e4, f) || Flagged(e5, f) || Flagged(e6, f)
  {
    FlaggedConcat(e1 + e2 + e3 + e4 + e5, e6, f);
    FlaggedConcat(e1 + e2 + e3 + e4, e5, f);
    FlaggedConcat(e1 + e2 + e3, e4, f);
    FlaggedConcat(e1 + e2, e3, f);
    FlaggedConcat(e1, e2, f);
  }

  /** In the six fields' entries, each field is flagged exactly when its
      check failed. */
  lemma SixFlagged(name: Check<string>, email: Check<string>, age: Check<int>,
                   consent: Check<bool>, rating: Check<int>, comments: Check<Option<string>>)
    ensures var r := ErrorEntry(Name, name) + ErrorEntry(Email, email) + ErrorEntry(Age, age)
                   + ErrorEntry(Consent, consent) + ErrorEntry(Rating, rating) + ErrorEntry(Comments, comments);
      && (Flagged(r, Name) <==> name.Fail?)
      && (Flagged(r, Email) <==> email.Fail?)
      && (Flagged(r, Age) <==> age.Fail?)
      && (Flagged(r, Consent) <==> consent.Fail?)
      && (Flagged(r, Rating) <==> rating.Fail?)
      && (Flagged(r, Comments) <==> comments.Fail?)
  {
    var e1, e2, e3 := ErrorEntry(Name, name), ErrorEntry(Email, email), ErrorEntry(Age, age);
    var e4, e5, e6 := ErrorEntry(Consent, consent), ErrorEntry(Rating, rating), ErrorEntry(Comments, comments);
    FlaggedEntry(Name, name, Name);
    FlaggedEntry(Email, email, Email);
    FlaggedEntry(Age, age, Age);
    FlaggedEntry(Consent, consent, Consent);
    FlaggedEntry(Rating, rating, Rating);
    FlaggedEntry(Comments, comments, Comments);
    FlaggedOfSix(e1, e2, e3, e4, e5, e6, Name);
    FlaggedOfSix(e1, e2, e3, e4, e5, e6, Email);
    FlaggedOfSix(e1, e2, e3, e4, e5, e6, Age);
    FlaggedOfSix(e1, e2, e3, e4, e5, e6, Consent);
    FlaggedOfSix(e1, e2, e3, e4, e5, e6, Rating);
    FlaggedOfSix(e1, e2, e3, e4, e5, e6, Comments);
  }

  /** The six fields' entries name only checked fields, in declaration
      order. */
  lemma SixPlaced(name: Check<string>, email: Check<string>, age: Check<int>,
                  consent: Check<bool>, rating: Check<int>, comments: Check<Option<string>>)
    ensures var r := ErrorEntry(Name, name) + ErrorEntry(Email, email) + ErrorEntry(Age, age)
                   + ErrorEntry(Consent, consent) + ErrorEntry(Rating, rating) + ErrorEntry(Comments, comments);
      Within(r, CheckedFields) && Ordered(r)
  {
    var e1, e2, e3 := ErrorEntry(Name, name), ErrorEntry(Email, email), ErrorEntry(Age, age);
    var e4, e5, e6 := ErrorEntry(Consent, consent), ErrorEntry(Rating, rating), ErrorEntry(Comments, comments);
    WithinEntry(Name, name, CheckedFields);
    WithinEntry(Email, email, CheckedFields);
    WithinEntry(Age, age, CheckedFields);
    WithinEntry(Consent, consent, CheckedFields);
    WithinEntry(Rating, rating, CheckedFields);
    WithinEntry(Comments, comments, CheckedFields);
    WithinConcat(e1 + e2 + e3 + e4 + e5, e6, CheckedFields);
    WithinConcat(e1 + e2 + e3 + e4, e5, CheckedFields);
    WithinConcat(e1 + e2 + e3, e4, CheckedFields);
    WithinConcat(e1 + e2, e3, CheckedFields);
    WithinConcat(e1, e2, CheckedFields);
    EntryPlaced(Name, name, 0, 1);
    EntryPlaced(Email, email, 1, 2);
    EntryPlaced(Age, age, 2, 3);
    EntryPlaced(Consent, consent, 3, 4);
    EntryPlaced(Rating, rating, 4, 5);
    EntryPlaced(Comments, comments, 5, 6);
    OrderedConcat(e1, e2, 0, 1, 2);
    OrderedConcat(e1 + e2, e3, 0, 2, 3);
    OrderedConcat(e1 + e2 + e3, e4, 0, 3, 4);
    OrderedConcat(e1 + e2 + e3 + e4, e5, 0, 4, 5);
    OrderedConcat(e1 + e2 + e3 + e4 + e5, e6, 0, 5, 6);
  }

  /** The error list of a validation: one entry per failed field, in the
      order the fields are declared. */
  function ValidationErrors(name: Check<string>, email: Check<string>, age: Check<int>,
                            consent: Check<bool>, rating: Check<int>, comments: Check<Option<string>>): (r: Errors)
    ensures r == [] <==> name.Pass? && email.Pass? && age.Pass? && consent.Pass? && rating.Pass? && comments.Pass?
    ensures Flagged(r, Name) <==> name.Fail?
    ensures Flagged(r, Email) <==> email.Fail?
    ensures Flagged(r, Age) <==> age.Fail?
    ensures Flagged(r, Consent) <==> consent.Fail?
    ensures Flagged(r, Rating) <==> rating.Fail?
    ensures Flagged(r, Comments) <==> comments.Fail?
    ensures Within(r, CheckedFields)
    ensures Ordered(r)
    ensures name.Fail? ==> FieldError(Name, name.msg) in r
    ensures email.Fail? ==> FieldError(Email, email.msg) in r
    ensures age.Fail? ==> FieldError(Age, age.msg) in r
    ensures consent.Fail? ==> FieldError(Consent, consent.msg) in r
    ensures rating.Fail? ==> FieldError(Rating, rating.msg) in r
    ensures comments.Fail? ==> FieldError(Comments, comments.msg) in r
  {
    SixFlagged(name, email, age, consent, rating, comments);
    SixPlaced(name, email, age, consent, rating, comments);
    ErrorEntry(Name, name) + ErrorEntry(Email, email) + ErrorEntry(Age, age)
      + ErrorEntry(Consent, consent) + ErrorEntry(Rating, rating) + ErrorEntry(Comments, comments)
  }

  /** Each field of a raw submission is flagged exactly when it violates its
      rule. */
  lemma RawFlags(raw: RawSubmission, emailCheck: EmailValidator)
    ensures var r := ValidationErrors(CheckName(raw.name), CheckEmail(raw.email, emailCheck), CheckAge(raw.age),
                                      CheckConsent(raw.consent), CheckRating(raw.rating), CheckComments(raw.comments));
      && (r == [] <==> Acceptable(raw, emailCheck))
      && (Flagged(r, Name) <==> !NameAcceptable(raw))
      && (Flagged(r, Email) <==> !EmailAcceptable(raw, emailCheck))
      && (Flagged(r, Age) <==> !AgeAcceptable(raw))
      && (Flagged(r, Consent) <==> !ConsentAcceptable(raw))
      && (Flagged(r, Rating) <==> !RatingAcceptable(raw))
      && (Flagged(r, Comments) <==> !CommentsAcceptable(raw))
  {
  }

  /** Each violated field of a raw submission is reported with its check's
      message. */
  lemma RawMessages(raw: RawSubmission, emailCheck: EmailValidator)
    ensures var r := ValidationErrors(CheckName(raw.name), CheckEmail(raw.email, emailCheck), CheckAge(raw.age),
                                      CheckConsent(raw.consent), CheckRating(raw.rating), CheckComments(raw.comments));
      && (!NameAcceptable(raw) ==> FieldError(Name, CheckName(raw.name).msg) in r)
      && (!EmailAcceptable(raw, emailCheck) ==> FieldError(Email, CheckEmail(raw.email, emailCheck).msg) in r)
      && (!AgeAcceptable(raw) ==> FieldError(Age, CheckAge(raw.age).msg) in r)
      && (!ConsentAcceptable(raw) ==> FieldError(Consent, CheckConsent(raw.consent).msg) in r)
      && (!RatingAcceptable(raw) ==> FieldError(Rating, CheckRating(raw.rating).msg) in r)
      && (!CommentsAcceptable(raw) ==> FieldError(Comments, CheckComments(raw.comments).msg) in r)
  {
  }

  /** The error list of a submission's validation, in terms of the raw
      fields: one entry per violated field, in declaration order, each with
      its check's message. */
  function SubmissionErrors(raw: RawSubmission, emailCheck: EmailValidator): (r: Errors)
    ensures r == [] <==> Acceptable(raw, emailCheck)
    ensures
      && (Flagged(r, Name) <==> !NameAcceptable(raw))
      && (Flagged(r, Email) <==> !EmailAcceptable(raw, emailCheck))
      && (Flagged(r, Age) <==> !AgeAcceptable(raw))
      && (Flagged(r, Consent) <==> !ConsentAcceptable(raw))
      && (Flagged(r, Rating) <==> !RatingAcceptable(raw))
      && (Flagged(r, Comments) <==> !CommentsAcceptable(raw))
      && (forall e :: e in r ==> e.field in CheckedFields)
      && InFieldOrder(r)
      && (!NameAcceptable(raw) ==> FieldError(Name, CheckName(raw.name).msg) in r)
      && (!EmailAcceptable(raw, emailCheck) ==> FieldError(Email, CheckEmail(raw.email, emailCheck).msg) in r)
      && (!AgeAcceptable(raw) ==> FieldError(Age, CheckAge(raw.age).msg) in r)
      && (!ConsentAcceptable(raw) ==> FieldError(Consent, CheckConsent(raw.consent).msg) in r)
      && (!RatingAcceptable(raw) ==> FieldError(Rating, CheckRating(raw.rating).msg) in r)
      && (!CommentsAcceptable(raw) ==> FieldError(Comments, CheckComments(raw.comments).msg) in r)
  {
    var errs := ValidationErrors(CheckName(raw.name), CheckEmail(raw.email, emailCheck), CheckAge(raw.age),
                                 CheckConsent(raw.consent), CheckRating(raw.rating), CheckComments(raw.comments));
    WithinMembers(errs, CheckedFields);
    OrderedInFieldOrder(errs);
    RawFlags(raw, emailCheck);
    RawMessages(raw, emailCheck);
    errs
  }

  /** Construction of a `SurveySubmission`: every field is checked on its
      own, all failures are collected in field order, and a record is
      returned only when none failed. */
  function Validate(raw: RawSubmission, emailCheck: EmailValidator, hash: Hash, now: Timestamp): (r: Result<SurveySubmission, Errors>)
    ensures r.Ok? <==> Acceptable(raw, emailCheck)
    ensures r.Ok? ==> WellFormed(r.value)
    ensures r.Ok? ==>
      && r.value.name == raw.name.value
      && Some(r.value.email) == emailCheck(raw.email.value)
      && r.value.age == raw.age.value
      && r.value.rating == raw.rating.value
      && r.value.comments == StripComments(raw.comments)
      && r.value.userAgent == raw.userAgent
      && r.value.submissionId == GenerateSubmissionId(raw.submissionId, Some(r.value.email), now, hash)
    ensures r.Err? ==>
      && (Flagged(r.error, Name) <==> !NameAcceptable(raw))
      && (Flagged(r.error, Email) <==> !EmailAcceptable(raw, emailCheck))
      && (Flagged(r.error, Age) <==> !AgeAcceptable(raw))
      && (Flagged(r.error, Consent) <==> !ConsentAcceptable(raw))
      && (Flagged(r.error, Rating) <==> !RatingAcceptable(raw))
      && (Flagged(r.error, Comments) <==> !CommentsAcceptable(raw))
      && (forall e :: e in r.error ==> e.field in CheckedFields)
      && InFieldOrder(r.error)
      && (!NameAcceptable(raw) ==> FieldError(Name, CheckName(raw.name).msg) in r.error)
      && (!EmailAcceptable(raw, emailCheck) ==> FieldError(Email, CheckEmail(raw.email, emailCheck).msg) in r.error)
      && (!AgeAcceptable(raw) ==> FieldError(Age, CheckAge(raw.age).msg) in r.error)
      && (!ConsentAcceptable(raw) ==> FieldError(Consent, CheckConsent(raw.consent).msg) in r.error)
      && (!RatingAcceptable(raw) ==> FieldError(Rating, CheckRating(raw.rating).msg) in r.error)
      && (!CommentsAcceptable(raw) ==> FieldError(Comments, CheckComments(raw.comments).msg) in r.error)
  {
    var name := CheckName(raw.name);
    var email := CheckEmail(raw.email, emailCheck);
    var age := CheckAge(raw.age);
    var consent := CheckConsent(raw.consent);
    var rating := CheckRating(raw.rating);
    var comments := CheckComments(raw.comments);
    // a field that failed is not among the values later validators see
    var validatedEmail := if email.Pass? then Some(email.value) else None;
    var id := GenerateSubmissionId(raw.submissionId, validatedEmail, now, hash);
    var errs := SubmissionErrors(raw, emailCheck);
    if errs == [] then
      Ok(SurveySubmission(name.value, email.value, age.value, consent.value, rating.value,
                          comments.value, raw.userAgent, id))
    else
      Err(errs)
  }

  /** `get_hashed_email`. */
  function GetHashedEmail(s: SurveySubmission, hash: Hash): string {
    hash(s.email)
  }

  /** `get_hashed_age`: the hash of the decimal rendering of the age. */
  function GetHashedAge(s: SurveySubmission, hash: Hash): string {
    hash(DecimalString(s.age))
  }

  /** The hashed email of a validated submission is the hash of the address
      the email validator normalised, not of the raw input. */
  lemma HashedEmailOfValidated(raw: RawSubmission, emailCheck: EmailValidator, hash: Hash, now: Timestamp)
    requires Validate(raw, emailCheck, hash, now).Ok?
    ensures emailCheck(raw.email.value).Some?
    ensures GetHashedEmail(Validate(raw, emailCheck, hash, now).value, hash) == hash(emailCheck(raw.email.value).value)
  {
  }

  /** The text hashed for a valid age is its plain decimal digits: no sign,
      no leading zero, reading back as the age. */
  lemma HashedAgeOfDigits(s: SurveySubmission, hash: Hash)
    requires WellFormed(s)
    ensures exists t: string :: GetHashedAge(s, hash) == hash(t) && AllDigits(t) && DecimalValue(t) == s.age && t[0] != '0'
  {
    var t := DecimalString(s.age);
    assert GetHashedAge(s, hash) == hash(t);
  }

  /** Consent given as `False` is refused with "consent must be true",
      whatever the other fields hold. */
  lemma ConsentFalseRejected(raw: RawSubmission, emailCheck: EmailValidator, hash: Hash, now: Timestamp)
    requires raw.consent == Some(false)
    ensures Validate(raw, emailCheck, hash, now).Err?
    ensures FieldError(Consent, ConsentMsg) in Validate(raw, emailCheck, hash, now).error
  {
    assert !ConsentAcceptable(raw);
    assert CheckConsent(raw.consent).msg == ConsentMsg;
  }

  /** The inclusive age boundaries, and the messages just outside them. */
  lemma AgeBoundaries()
    ensures CheckAge(Some(13)).Pass? && CheckAge(Some(120)).Pass?
    ensures CheckAge(Some(12)) == Fail("ensure this value is greater than or equal to 13")
    ensures CheckAge(Some(121)) == Fail("ensure this value is less than or equal to 120")
  {
    assert NatDigits(13) == NatDigits(1) + ['3'];
    assert NatDigits(120) == NatDigits(12) + ['0'];
    assert NatDigits(12) == NatDigits(1) + ['2'];
  }

  /** An id the caller supplies is kept as it is. */
  lemma ExplicitIdKept(raw: RawSubmission, emailCheck: EmailValidator, hash: Hash, now: Timestamp)
    requires raw.submissionId.Some?
    requires Validate(raw, emailCheck, hash, now).Ok?
    ensures Validate(raw, emailCheck, hash, now).value.submissionId == raw.submissionId
  {
  }

  /** Without a supplied id, a submission whose (normalised) email is not
      empty gets the hash of that email followed by the hour bucket. */
  lemma DerivedId(raw: RawSubmission, emailCheck: EmailValidator, hash: Hash, now: Timestamp)
    requires raw.submissionId.None?
    requires Validate(raw, emailCheck, hash, now).Ok?
    ensures var s := Validate(raw, emailCheck, hash, now).value;
      s.email != "" ==> s.submissionId == Some(hash(s.email + HourBucket(now)))
  {
  }

  /** Submissions without an id, from the same email and validated within the
      same calendar hour, get the same id. */
  lemma SameEmailSameHourSameId(raw1: RawSubmission, raw2: RawSubmission, emailCheck: EmailValidator, hash: Hash,
                                now1: Timestamp, now2: Timestamp)
    requires raw1.submissionId.None? && raw2.submissionId.None?
    requires raw1.email == raw2.email
    requires SameHour(now1, now2)
    requires Validate(raw1, emailCheck, hash, now1).Ok? && Validate(raw2, emailCheck, hash, now2).Ok?
    ensures Validate(raw1, emailCheck, hash, now1).value.submissionId == Validate(raw2, emailCheck, hash, now2).value.submissionId
  {
    assert HourBucket(now1) == HourBucket(now2);
  }

  /** Submissions without an id, from the same non-empty email but validated
      in different calendar hours, hash different inputs into their ids. */
  lemma DifferentHourDifferentHashInput(raw1: RawSubmission, raw2: RawSubmission, emailCheck: EmailValidator, hash: Hash,
                                        now1: Timestamp, now2: Timestamp)
    requires Valid(now1) && Valid(now2) && !SameHour(now1, now2)
    requires raw1.submissionId.None? && raw2.submissionId.None?
    requires raw1.email == raw2.email
    requires Acceptable(raw1, emailCheck) && Acceptable(raw2, emailCheck)
    ensures var s1, s2 := Validate(raw1, emailCheck, hash, now1).value, Validate(raw2, emailCheck, hash, now2).value;
      s1.email == s2.email
      && (s1.email != "" ==>
            && s1.submissionId == Some(hash(HashInput(s1.email, now1)))
            && s2.submissionId == Some(hash(HashInput(s2.email, now2)))
            && HashInput(s1.email, now1) != HashInput(s2.email, now2))
  {
    var e := Validate(raw1, emailCheck, hash, now1).value.email;
    HashInputExact(e, now1, e, now2);
  }

  /** Different ages feed different strings into `get_hashed_age`. */
  lemma HashedAgeInputsDistinct(s1: SurveySubmission, s2: SurveySubmission)
    requires s1.age != s2.age
    ensures DecimalString(s1.age) != DecimalString(s2.age)
  {
    if DecimalString(s1.age) == DecimalString(s2.age) {
      DecimalStringInjective(s1.age, s2.age);
    }
  }
}
