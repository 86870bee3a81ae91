/** `StoredSurveyRecord`: the persisted form of a submission. It keeps the
    non-PII fields, replaces email and age by their hashes, and is validated
    again against the same field rules when it is built. */
module StoredRecord {
  import opened Wrappers
  import opened Text
  import opened Clock
  import opened FieldRules
  import opened Submission

  /** The fields handed to the `StoredSurveyRecord` constructor. */
  datatype RawStoredRecord = RawStoredRecord(
    name: Option<string>,
    consent: Option<bool>,
    rating: Option<int>,
    comments: Option<string>,
    userAgent: Option<string>,
    submissionId: Option<string>,
    receivedAt: Option<Timestamp>,
    ip: Option<string>,
    hashedEmail: Option<string>,
    hashedAge: Option<string>)

  /** A validated stored record. There is no email and no age field. */
  datatype StoredSurveyRecord = StoredSurveyRecord(
    name: string,
    consent: bool,
    rating: int,
    comments: Option<string>,
    userAgent: Option<string>,
    submissionId: Option<string>,
    receivedAt: Timestamp,
    ip: string,
    hashedEmail: string,
    hashedAge: string)

  /** The validity rule of the stored record: the shared bounds on name,
      consent, rating and comments, and the four receipt and hash fields
      present. */
  predicate StoredAcceptable(raw: RawStoredRecord) {
    && NameInBounds(raw.name)
    && raw.consent == Some(true)
    && RatingInBounds(raw.rating)
    && CommentsInBounds(raw.comments)
    && raw.receivedAt.Some? && raw.ip.Some? && raw.hashedEmail.Some? && raw.hashedAge.Some?
  }

  /** A required field without further constraint. */
  function CheckRequired<T>(v: Option<T>): (r: Check<T>)
    ensures r.Pass? <==> v.Some?
    ensures r.Pass? ==> r.value == v.value
  {
    match v
    case None => Fail(MissingMsg)
    case Some(x) => Pass(x)
  }

  /** The stored record's `_generate_submission_id`: it has no email to
      derive an id from, so whatever it is given, present or absent, is what
      it keeps. */
  function KeepSubmissionId(v: Option<string>): (r: Option<string>)
    ensures r == v
  {
    v
  }

  /** The names of the stored record's fields that have a constraint. */
  const StoredCheckedFields: set<Field> := SharedFields + ReceiptFields

  const SharedFields: set<Field> := {Name, Consent, Rating, Comments}
  const ReceiptFields: set<Field> := {ReceivedAt, Ip, HashedEmail, HashedAge}

  /** In the concatenation of the two groups' errors, a field is flagged by
      its own group alone. */
  lemma FlaggedInGroups(shared: Errors, receipt: Errors, f: Field)
    requires Within(shared, SharedFields)
    requires Within(receipt, ReceiptFields)
    ensures f in SharedFields ==> (Flagged(shared + receipt, f) <==> Flagged(shared, f))
    ensures f in ReceiptFields ==> (Flagged(shared + receipt, f) <==> Flagged(receipt, f))
  {
    FlaggedConcat(shared, receipt, f);
    if f in SharedFields {
      NotFlagged(receipt, ReceiptFields, f);
    }
    if f in ReceiptFields {
      NotFlagged(shared, SharedFields, f);
    }
  }

  /** A field is flagged in four concatenated lists exactly when it is
      flagged in one of them. */
  lemma FlaggedOfFour(e1: Errors, e2: Errors, e3: Errors, e4: Errors, f: Field)
    ensures Flagged(e1 + e2 + e3 + e4, f) <==> Flagged(e1, f) || Flagged(e2, f) || Flagged(e3, f) || Flagged(e4, f)
  {
    FlaggedConcat(e1 + e2 + e3, e4, f);
    FlaggedConcat(e1 + e2, e3, f);
    FlaggedConcat(e1, e2, f);
  }

  /** Four concatenated lists stay within `fields` when each does. */
  lemma WithinOfFour(e1: Errors, e2: Errors, e3: Errors, e4: Errors, fields: set<Field>)
    requires Within(e1, fields) && Within(e2, fields) && Within(e3, fields) && Within(e4, fields)
    ensures Within(e1 + e2 + e3 + e4, fields)
  {
    WithinConcat(e1 + e2 + e3, e4, fields);
    WithinConcat(e1 + e2, e3, fields);
    WithinConcat(e1, e2, fields);
  }

  /** Four ordered lists, each placed before the next, are ordered
      together. */
  lemma OrderedOfFour(e1: Errors, e2: Errors, e3: Errors, e4: Errors, p0: nat, p1: nat, p2: nat, p3: nat, p4: nat)
    requires p0 <= p1 <= p2 <= p3 <= p4
    requires Ordered(e1) && Between(e1, p0, p1)
    requires Ordered(e2) && Between(e2, p1, p2)
    requires Ordered(e3) && Between(e3, p2, p3)
    requires Ordered(e4) && Between(e4, p3, p4)
    ensures Ordered(e1 + e2 + e3 + e4) && Between(e1 + e2 + e3 + e4, p0, p4)
  {
    OrderedConcat(e1, e2, p0, p1, p2);
    OrderedConcat(e1 + e2, e3, p0, p2, p3);
    OrderedConcat(e1 + e2 + e3, e4, p0, p3, p4);
  }

  /** The entries of four fields flag a field exactly when one of the four is
      that field and its check failed. */
  lemma FlaggedInFour<A, B, C, D>(f1: Field, c1: Check<A>, f2: Field, c2: Check<B>,
                                  f3: Field, c3: Check<C>, f4: Field, c4: Check<D>, f: Field)
    ensures Flagged(ErrorEntry(f1, c1) + ErrorEntry(f2, c2) + ErrorEntry(f3, c3) + ErrorEntry(f4, c4), f) <==>
      (c1.Fail? && f1 == f) || (c2.Fail? && f2 == f) || (c3.Fail? && f3 == f) || (c4.Fail? && f4 == f)
  {
    FlaggedEntry(f1, c1, f);
    FlaggedEntry(f2, c2, f);
    FlaggedEntry(f3, c3, f);
    FlaggedEntry(f4, c4, f);
    FlaggedOfFour(ErrorEntry(f1, c1), ErrorEntry(f2, c2), ErrorEntry(f3, c3), ErrorEntry(f4, c4), f);
  }

  /** In the entries of four distinct fields, each field is flagged exactly
      when its check failed. */
  lemma FourFlagged<A, B, C, D>(f1: Field, c1: Check<A>, f2: Field, c2: Check<B>,
                                f3: Field, c3: Check<C>, f4: Field, c4: Check<D>)
    requires f1 != f2 && f1 != f3 && f1 != f4 && f2 != f3 && f2 != f4 && f3 != f4
    ensures var r := ErrorEntry(f1, c1) + ErrorEntry(f2, c2) + ErrorEntry(f3, c3) + ErrorEntry(f4, c4);
      && (Flagged(r, f1) <==> c1.Fail?)
      && (Flagged(r, f2) <==> c2.Fail?)
      && (Flagged(r, f3) <==> c3.Fail?)
      && (Flagged(r, f4) <==> c4.Fail?)
  {
    FlaggedInFour(f1, c1, f2, c2, f3, c3, f4, c4, f1);
    FlaggedInFour(f1, c1, f2, c2, f3, c3, f4, c4, f2);
    FlaggedInFour(f1, c1, f2, c2, f3, c3, f4, c4, f3);
    FlaggedInFour(f1, c1, f2, c2, f3, c3, f4, c4, f4);
  }

  /** The entries of four fields of `fields`, declared in this order, name
      only those fields, in declaration order, placed from the first to the
      last of them. */
  lemma FourPlaced<A, B, C, D>(f1: Field, c1: Check<A>, f2: Field, c2: Check<B>,
                               f3: Field, c3: Check<C>, f4: Field, c4: Check<D>, fields: set<Field>)
    requires Position(f1) < Position(f2) < Position(f3) < Position(f4)
    requires f1 in fields && f2 in fields && f3 in fields && f4 in fields
    ensures var r := ErrorEntry(f1, c1) + ErrorEntry(f2, c2) + ErrorEntry(f3, c3) + ErrorEntry(f4, c4);
      Within(r, fields) && Ordered(r) && Between(r, Position(f1), Position(f4) + 1)
  {
    var e1, e2, e3, e4 := ErrorEntry(f1, c1), ErrorEntry(f2, c2), ErrorEntry(f3, c3), ErrorEntry(f4, c4);
    WithinEntry(f1, c1, fields);
    WithinEntry(f2, c2, fields);
    WithinEntry(f3, c3, fields);
    WithinEntry(f4, c4, fields);
    WithinOfFour(e1, e2, e3, e4, fields);
    EntryPlaced(f1, c1, Position(f1), Position(f2));
    EntryPlaced(f2, c2, Position(f2), Position(f3));
    EntryPlaced(f3, c3, Position(f3), Position(f4));
    EntryPlaced(f4, c4, Position(f4), Position(f4) + 1);
    OrderedOfFour(e1, e2, e3, e4, Position(f1), Position(f2), Position(f3), Position(f4), Position(f4) + 1);
  }

  /** The errors of the four shared fields. */
  function SharedErrors(name: Check<string>, consent: Check<bool>, rating: Check<int>, comments: Check<Option<string>>): (r: Errors)
    ensures r == [] <==> name.Pass? && consent.Pass? && rating.Pass? && comments.Pass?
    ensures Flagged(r, Name) <==> name.Fail?
    ensures Flagged(r, Consent) <==> consent.Fail?
    ensures Flagged(r, Rating) <==> rating.Fail?
    ensures Flagged(r, Comments) <==> comments.Fail?
    ensures Within(r, SharedFields)
    ensures Ordered(r) && Between(r, Position(Name), Position(Comments) + 1)
    ensures name.Fail? ==> FieldError(Name, name.msg) in r
    ensures consent.Fail? ==> FieldError(Consent, consent.msg) in r
    ensures rating.Fail? ==> FieldError(Rating, rating.msg) in r
    ensures comments.Fail? ==> FieldError(Comments, comments.msg) in r
  {
    FourFlagged(Name, name, Consent, consent, Rating, rating, Comments, comments);
    FourPlaced(Name, name, Consent, consent, Rating, rating, Comments, comments, SharedFields);
    ErrorEntry(Name, name) + ErrorEntry(Consent, consent) + ErrorEntry(Rating, rating) + ErrorEntry(Comments, comments)
  }

  /** The errors of the four receipt and hash fields. */
  function ReceiptErrors(receivedAt: Check<Timestamp>, ip: Check<string>, hashedEmail: Check<string>, hashedAge: Check<string>): (r: Errors)
    ensures r == [] <==> receivedAt.Pass? && ip.Pass? && hashedEmail.Pass? && hashedAge.Pass?
    ensures Flagged(r, ReceivedAt) <==> receivedAt.Fail?
    ensures Flagged(r, Ip) <==> ip.Fail?
    ensures Flagged(r, HashedEmail) <==> hashedEmail.Fail?
    ensures Flagged(r, HashedAge) <==> hashedAge.Fail?
    ensures Within(r, ReceiptFields)
    ensures Ordered(r) && Between(r, Position(ReceivedAt), Position(HashedAge) + 1)
    ensures receivedAt.Fail? ==> FieldError(ReceivedAt, receivedAt.msg) in r
    ensures ip.Fail? ==> FieldError(Ip, ip.msg) in r
    ensures hashedEmail.Fail? ==> FieldError(HashedEmail, hashedEmail.msg) in r
    ensures hashedAge.Fail? ==> FieldError(HashedAge, hashedAge.msg) in r
  {
    FourFlagged(ReceivedAt, receivedAt, Ip, ip, HashedEmail, hashedEmail, HashedAge, hashedAge);
    FourPlaced(ReceivedAt, receivedAt, Ip, ip, HashedEmail, hashedEmail, HashedAge, hashedAge, ReceiptFields);
    ErrorEntry(ReceivedAt, receivedAt) + ErrorEntry(Ip, ip) + ErrorEntry(HashedEmail, hashedEmail) + ErrorEntry(HashedAge, hashedAge)
  }

  /** In the two groups' errors together, each field is flagged exactly
      when its own group flags it. */
  lemma GroupsFlagged(shared: Errors, receipt: Errors)
    requires Within(shared, SharedFields)
    requires Within(receipt, ReceiptFields)
    ensures && (Flagged(shared + receipt, Name) <==> Flagged(shared, Name))
            && (Flagged(shared + receipt, Consent) <==> Flagged(shared, Consent))
            && (Flagged(shared + receipt, Rating) <==> Flagged(shared, Rating))
            && (Flagged(shared + receipt, Comments) <==> Flagged(shared, Comments))
            && (Flagged(shared + receipt, ReceivedAt) <==> Flagged(receipt, ReceivedAt))
            && (Flagged(shared + receipt, Ip) <==> Flagged(receipt, Ip))
            && (Flagged(shared + receipt, HashedEmail) <==> Flagged(receipt, HashedEmail))
            && (Flagged(shared + receipt, HashedAge) <==> Flagged(receipt, HashedAge))
  {
    FlaggedInGroups(shared, receipt, Name);
    FlaggedInGroups(shared, receipt, Consent);
    FlaggedInGroups(shared, receipt, Rating);
    FlaggedInGroups(shared, receipt, Comments);
    FlaggedInGroups(shared, receipt, ReceivedAt);
    FlaggedInGroups(shared, receipt, Ip);
    FlaggedInGroups(shared, receipt, HashedEmail);
    FlaggedInGroups(shared, receipt, HashedAge);
  }

  /** The two groups' errors together name only checked fields, in
      declaration order. */
  lemma GroupsPlaced(shared: Errors, receipt: Errors)
    requires Within(shared, SharedFields) && Ordered(shared) && Between(shared, Position(Name), Position(Comments) + 1)
    requires Within(receipt, ReceiptFields) && Ordered(receipt) && Between(receipt, Position(ReceivedAt), Position(HashedAge) + 1)
    ensures Within(shared + receipt, StoredCheckedFields) && Ordered(shared + receipt)
  {
    WithinWider(shared, SharedFields, StoredCheckedFields);
    WithinWider(receipt, ReceiptFields, StoredCheckedFields);
    WithinConcat(shared, receipt, StoredCheckedFields);
    BetweenWiden(shared, 0, 6, 0, 8);
    OrderedConcat(shared, receipt, 0, 8, 12);
  }

  /** The error list of the stored record's validation: one entry per
      failed field, in the order the fields are declared. */
  function StoredErrors(name: Check<string>, consent: Check<bool>, rating: Check<int>, comments: Check<Option<string>>,
                        receivedAt: Check<Timestamp>, ip: Check<string>, hashedEmail: Check<string>, hashedAge: Check<string>): (r: Errors)
    ensures r == [] <==> && name.Pass? && consent.Pass? && rating.Pass? && comments.Pass?
                         && receivedAt.Pass? && ip.Pass? && hashedEmail.Pass? && hashedAge.Pass?
    ensures Flagged(r, Name) <==> name.Fail?
    ensures Flagged(r, Consent) <==> consent.Fail?
    ensures Flagged(r, Rating) <==> rating.Fail?
    ensures Flagged(r, Comments) <==> comments.Fail?
    ensures Flagged(r, ReceivedAt) <==> receivedAt.Fail?
    ensures Flagged(r, Ip) <==> ip.Fail?
    ensures Flagged(r, HashedEmail) <==> hashedEmail.Fail?
    ensures Flagged(r, HashedAge) <==> hashedAge.Fail?
    ensures Within(r, StoredCheckedFields)
    ensures Ordered(r)
    ensures name.Fail? ==> FieldError(Name, name.msg) in r
    ensures consent.Fail? ==> FieldError(Consent, consent.msg) in r
    ensures rating.Fail? ==> FieldError(Rating, rating.msg) in r
    ensures comments.Fail? ==> FieldError(Comments, comments.msg) in r
    ensures receivedAt.Fail? ==> FieldError(ReceivedAt, receivedAt.msg) in r
    ensures ip.Fail? ==> FieldError(Ip, ip.msg) in r
    ensures hashedEmail.Fail? ==> FieldError(HashedEmail, hashedEmail.msg) in r
    ensures hashedAge.Fail? ==> FieldError(HashedAge, hashedAge.msg) in r
  {
    var shared := SharedErrors(name, consent, rating, comments);
    var receipt := ReceiptErrors(receivedAt, ip, hashedEmail, hashedAge);
    GroupsFlagged(shared, receipt);
    GroupsPlaced(shared, receipt);
    shared + receipt
  }

  /** Each field of a raw stored record is flagged exactly when it violates
      its rule. */
  lemma StoredFlags(raw: RawStoredRecord)
    ensures var r := StoredErrors(CheckName(raw.name), CheckConsent(raw.consent), CheckRating(raw.rating), CheckComments(raw.comments),
                                  CheckRequired(raw.receivedAt), CheckRequired(raw.ip), CheckRequired(raw.hashedEmail), CheckRequired(raw.hashedAge));
      && (r == [] <==> StoredAcceptable(raw))
      && (Flagged(r, Name) <==> !NameInBounds(raw.name))
      && (Flagged(r, Consent) <==> raw.consent != Some(true))
      && (Flagged(r, Rating) <==> !RatingInBounds(raw.rating))
      && (Flagged(r, Comments) <==> !CommentsInBounds(raw.comments))
      && (Flagged(r, ReceivedAt) <==> raw.receivedAt.None?)
      && (Flagged(r, Ip) <==> raw.ip.None?)
      && (Flagged(r, HashedEmail) <==> raw.hashedEmail.None?)
      && (Flagged(r, HashedAge) <==> raw.hashedAge.None?)
  {
  }

  /** Each violated field of a raw stored record is reported with its
      check's message. */
  lemma StoredMessages(raw: RawStoredRecord)
    ensures var r := StoredErrors(CheckName(raw.name), CheckConsent(raw.consent), CheckRating(raw.rating), CheckComments(raw.comments),
                                  CheckRequired(raw.receivedAt), CheckRequired(raw.ip), CheckRequired(raw.hashedEmail), CheckRequired(raw.hashedAge));
      && (CheckName(raw.name).Fail? ==> FieldError(Name, CheckName(raw.name).msg) in r)
      && (CheckConsent(raw.consent).Fail? ==> FieldError(Consent, CheckConsent(raw.consent).msg) in r)
      && (CheckRating(raw.rating).Fail? ==> FieldError(Rating, CheckRating(raw.rating).msg) in r)
      && (CheckComments(raw.comments).Fail? ==> FieldError(Comments, CheckComments(raw.comments).msg) in r)
      && (raw.receivedAt.None? ==> FieldError(ReceivedAt, MissingMsg) in r)
      && (raw.ip.None? ==> FieldError(Ip, MissingMsg) in r)
      && (raw.hashedEmail.None? ==> FieldError(HashedEmail, MissingMsg) in r)
      && (raw.hashedAge.None? ==> FieldError(HashedAge, MissingMsg) in r)
  {
  }

  /** The error list of a stored record's validation, in terms of the raw
      fields: one entry per violated field, in declaration order, each with
      its check's message. */
  function StoredRecordErrors(raw: RawStoredRecord): (r: Errors)
    ensures r == [] <==> StoredAcceptable(raw)
    ensures
      && (Flagged(r, Name) <==> !NameInBounds(raw.name))
      && (Flagged(r, Consent) <==> raw.consent != Some(true))
      && (Flagged(r, Rating) <==> !RatingInBounds(raw.rating))
      && (Flagged(r, Comments) <==> !CommentsInBounds(raw.comments))
      && (Flagged(r, ReceivedAt) <==> raw.receivedAt.None?)
      && (Flagged(r, Ip) <==> raw.ip.None?)
      && (Flagged(r, HashedEmail) <==> raw.hashedEmail.None?)
      && (Flagged(r, HashedAge) <==> raw.hashedAge.None?)
      && (forall e :: e in r ==> e.field in StoredCheckedFields)
      && InFieldOrder(r)
      && (CheckName(raw.name).Fail? ==> FieldError(Name, CheckName(raw.name).msg) in r)
      && (CheckConsent(raw.consent).Fail? ==> FieldError(Consent, CheckConsent(raw.consent).msg) in r)
      && (CheckRating(raw.rating).Fail? ==> FieldError(Rating, CheckRating(raw.rating).msg) in r)
      && (CheckComments(raw.comments).Fail? ==> FieldError(Comments, CheckComments(raw.comments).msg) in r)
      && (raw.receivedAt.None? ==> FieldError(ReceivedAt, MissingMsg) in r)
      && (raw.ip.None? ==> FieldError(Ip, MissingMsg) in r)
      && (raw.hashedEmail.None? ==> FieldError(HashedEmail, MissingMsg) in r)
      && (raw.hashedAge.None? ==> FieldError(HashedAge, MissingMsg) in r)
  {
    var errs := StoredErrors(CheckName(raw.name), CheckConsent(raw.consent), CheckRating(raw.rating), CheckComments(raw.comments),
                             CheckRequired(raw.receivedAt), CheckRequired(raw.ip), CheckRequired(raw.hashedEmail), CheckRequired(raw.hashedAge));
    WithinMembers(errs, StoredCheckedFields);
    OrderedInFieldOrder(errs);
    StoredFlags(raw);
    StoredMessages(raw);
    errs
  }

  /** Construction of a `StoredSurveyRecord`: the same field rules as the
      inbound record (consent exactly true, comments stripped after the
      length check), the id kept as given, and every failure reported. */
  function ValidateStored(raw: RawStoredRecord): (r: Result<StoredSurveyRecord, Errors>)
    ensures r.Ok? <==> StoredAcceptable(raw)
    ensures r.Ok? ==>
      && r.value.name == raw.name.value
      && r.value.consent
      && r.value.rating == raw.rating.value
      && r.value.comments == StripComments(raw.comments)
      && r.value.userAgent == raw.userAgent
      && r.value.submissionId == raw.submissionId
      && r.value.receivedAt == raw.receivedAt.value
      && r.value.ip == raw.ip.value
      && r.value.hashedEmail == raw.hashedEmail.value
      && r.value.hashedAge == raw.hashedAge.value
    ensures r.Err? ==>
      && (Flagged(r.error, Name) <==> !NameInBounds(raw.name))
      && (Flagged(r.error, Consent) <==> raw.consent != Some(true))
      && (Flagged(r.error, Rating) <==> !RatingInBounds(raw.rating))
      && (Flagged(r.error, Comments) <==> !CommentsInBounds(raw.comments))
      && (Flagged(r.error, ReceivedAt) <==> raw.receivedAt.None?)
      && (Flagged(r.error, Ip) <==> raw.ip.None?)
      && (Flagged(r.error, HashedEmail) <==> raw.hashedEmail.None?)
      && (Flagged(r.error, HashedAge) <==> raw.hashedAge.None?)
      && (forall e :: e in r.error ==> e.field in StoredCheckedFields)
      && InFieldOrder(r.error)
      && (CheckName(raw.name).Fail? ==> FieldError(Name, CheckName(raw.name).msg) in r.error)
      && (CheckConsent(raw.consent).Fail? ==> FieldError(Consent, CheckConsent(raw.consent).msg) in r.error)
      && (CheckRating(raw.rating).Fail? ==> FieldError(Rating, CheckRating(raw.rating).msg) in r.error)
      && (CheckComments(raw.comments).Fail? ==> FieldError(Comments, CheckComments(raw.comments).msg) in r.error)
      && (raw.receivedAt.None? ==> FieldError(ReceivedAt, MissingMsg) in r.error)
      && (raw.ip.None? ==> FieldError(Ip, MissingMsg) in r.error)
      && (raw.hashedEmail.None? ==> FieldError(HashedEmail, MissingMsg) in r.error)
      && (raw.hashedAge.None? ==> FieldError(HashedAge, MissingMsg) in r.error)
  {
    var errs := StoredRecordErrors(raw);
    if errs == [] then
      Ok(StoredSurveyRecord(raw.name.value, raw.consent.value, raw.rating.value, StripComments(raw.comments), raw.userAgent,
                            KeepSubmissionId(raw.submissionId), raw.receivedAt.value, raw.ip.value,
                            raw.hashedEmail.value, raw.hashedAge.value))
    else
      Err(errs)
  }

  /** `from_submission`: the non-PII fields copied, the receipt time and
      address as the caller gives them, email and age replaced by their
      hashes, and the result validated as a stored record. */
  function FromSubmission(s: SurveySubmission, receivedAt: Timestamp, ip: string, hash: Hash): (r: Result<StoredSurveyRecord, Errors>)
    ensures r.Ok? <==> NameInBounds(Some(s.name)) && s.consent && RatingInBounds(Some(s.rating)) && CommentsInBounds(s.comments)
    ensures r.Ok? ==> r.value == StoredSurveyRecord(
      s.name, s.consent, s.rating, StripComments(s.comments), s.userAgent, s.submissionId,
      receivedAt, ip, hash(s.email), hash(DecimalString(s.age)))
    ensures r.Err? ==>
      && (Flagged(r.error, Name) <==> !NameInBounds(Some(s.name)))
      && (Flagged(r.error, Consent) <==> !s.consent)
      && (Flagged(r.error, Rating) <==> !RatingInBounds(Some(s.rating)))
      && (Flagged(r.error, Comments) <==> !CommentsInBounds(s.comments))
      && (forall e :: e in r.error ==> e.field in SharedFields)
      && InFieldOrder(r.error)
      && (!NameInBounds(Some(s.name)) ==> FieldError(Name, CheckName(Some(s.name)).msg) in r.error)
      && (!s.consent ==> FieldError(Consent, ConsentMsg) in r.error)
      && (!RatingInBounds(Some(s.rating)) ==> FieldError(Rating, CheckRating(Some(s.rating)).msg) in r.error)
      && (!CommentsInBounds(s.comments) ==> FieldError(Comments, CheckComments(s.comments).msg) in r.error)
  {
    var r := ValidateStored(RawStoredRecord(
      Some(s.name), Some(s.consent), Some(s.rating), s.comments, s.userAgent, s.submissionId,
      Some(receivedAt), Some(ip), Some(GetHashedEmail(s, hash)), Some(GetHashedAge(s, hash))));
    if r.Err? then
      ReceiptNeverFlagged(r.error);
      r
    else
      r
  }

  /** An error list within the stored record's checked fields that flags no
      receipt field names only shared fields. */
  lemma ReceiptNeverFlagged(errs: Errors)
    requires forall e :: e in errs ==> e.field in StoredCheckedFields
    requires !Flagged(errs, ReceivedAt) && !Flagged(errs, Ip) && !Flagged(errs, HashedEmail) && !Flagged(errs, HashedAge)
    ensures forall e :: e in errs ==> e.field in SharedFields
  {
    forall e | e in errs
      ensures e.field in SharedFields
    {
      FlaggedMember(errs, e);
    }
  }

  /** A well-formed submission always passes the second validation, and the
      stored record is the field mapping of `from_submission`: everything but
      email and age verbatim (comments already trimmed are unchanged), the
      receipt data as given, and the two hashes. */
  lemma FromSubmissionMapping(s: SurveySubmission, receivedAt: Timestamp, ip: string, hash: Hash)
    requires WellFormed(s)
    ensures FromSubmission(s, receivedAt, ip, hash) == Ok(StoredSurveyRecord(
      s.name, s.consent, s.rating, s.comments, s.userAgent, s.submissionId,
      receivedAt, ip, hash(s.email), hash(DecimalString(s.age))))
  {
    CheckCommentsStable(s.comments);
  }

  /** The whole pipeline: whatever `SurveySubmission` accepts is stored
      without error, and the stored hashes are those of the validated email
      and of the decimal form of the age the caller gave. */
  lemma ValidateThenStore(raw: RawSubmission, emailCheck: EmailValidator, hash: Hash, now: Timestamp,
                          receivedAt: Timestamp, ip: string)
    requires Validate(raw, emailCheck, hash, now).Ok?
    ensures var s := Validate(raw, emailCheck, hash, now).value;
      var stored := FromSubmission(s, receivedAt, ip, hash);
      && stored.Ok?
      && stored.value.name == raw.name.value
      && stored.value.rating == raw.rating.value
      && stored.value.comments == StripComments(raw.comments)
      && stored.value.submissionId == s.submissionId
      && Some(stored.value.hashedEmail) == (match emailCheck(raw.email.value) case Some(e) => Some(hash(e)) case None => None)
      && stored.value.hashedAge == hash(DecimalString(raw.age.value))
  {
    FromSubmissionMapping(Validate(raw, emailCheck, hash, now).value, receivedAt, ip, hash);
  }

  /** The stored record depends on email and age only through their hashes:
      two submissions that agree elsewhere and whose email and age hash alike
      are stored identically, so no raw email or age reaches the record. */
  lemma PiiOnlyThroughHashes(s1: SurveySubmission, s2: SurveySubmission, receivedAt: Timestamp, ip: string, hash: Hash)
    requires s1.(email := s2.email, age := s2.age) == s2
    requires hash(s1.email) == hash(s2.email)
    requires hash(DecimalString(s1.age)) == hash(DecimalString(s2.age))
    ensures FromSubmission(s1, receivedAt, ip, hash) == FromSubmission(s2, receivedAt, ip, hash)
  {
  }

  /** The second validation never derives an id: an absent id stays absent
      and a present one is kept. */
  lemma StoredIdNeverDerived(raw: RawStoredRecord)
    requires ValidateStored(raw).Ok?
    ensures raw.submissionId.None? ==> ValidateStored(raw).value.submissionId.None?
    ensures raw.submissionId.Some? ==> ValidateStored(raw).value.submissionId == raw.submissionId
  {
  }

  /** A submission built without validation whose consent is false is not
      stored: the second validation reports the consent field. */
  lemma FromSubmissionRechecksConsent(s: SurveySubmission, receivedAt: Timestamp, ip: string, hash: Hash)
    requires !s.consent
    ensures FromSubmission(s, receivedAt, ip, hash).Err?
    ensures Flagged(FromSubmission(s, receivedAt, ip, hash).error, Consent)
    ensures FieldError(Consent, ConsentMsg) in FromSubmission(s, receivedAt, ip, hash).error
  {
  }

  /** A SHA-256 hexdigest: 64 lower-case hexadecimal characters. */
  predicate IsHexDigest(h: string) {
    |h| == 64 && forall k :: 0 <= k < |h| ==> ('0' <= h[k] <= '9' || 'a' <= h[k] <= 'f')
  }

  /** When the hash produces hexdigests, so do both hash fields of every
      stored record built from a well-formed submission. */
  lemma StoredHashesAreDigests(s: SurveySubmission, receivedAt: Timestamp, ip: string, hash: Hash)
    requires WellFormed(s)
    requires IsHexDigest(hash(s.email)) && IsHexDigest(hash(DecimalString(s.age)))
    ensures FromSubmission(s, receivedAt, ip, hash).Ok?
    ensures IsHexDigest(FromSubmission(s, receivedAt, ip, hash).value.hashedEmail)
    ensures IsHexDigest(FromSubmission(s, receivedAt, ip, hash).value.hashedAge)
  {
    FromSubmissionMapping(s, receivedAt, ip, hash);
  }
}
