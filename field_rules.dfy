/** The field constraints both record shapes declare (`Field(..., min_length,
    max_length, ge, le)`), the custom validators they share
    (`_strip_comments`, `_must_consent`), and the error list a failed
    validation reports: one (field, message) entry per violated field. */
module FieldRules {
  import opened Wrappers
  import opened Text

  /** The fields of the two record shapes. */
  datatype Field =
    | Name | Email | Age | Consent | Rating | Comments | UserAgent | SubmissionId
    | ReceivedAt | Ip | HashedEmail | HashedAge

  /** The name under which an error reports the field. */
  function FieldName(f: Field): string {
    match f
    case Name => "name"
    case Email => "email"
    case Age => "age"
    case Consent => "consent"
    case Rating => "rating"
    case Comments => "comments"
    case UserAgent => "user_agent"
    case SubmissionId => "submission_id"
    case ReceivedAt => "received_at"
    case Ip => "ip"
    case HashedEmail => "hashed_email"
    case HashedAge => "hashed_age"
  }

  /** Each field is reported under a name of its own, so an error's reported
      name identifies the field it is about. */
  lemma FieldNameInjective(f: Field, g: Field)
    ensures FieldName(f) == FieldName(g) <==> f == g
  {
  }

  datatype FieldError = FieldError(field: Field, msg: string)

  type Errors = seq<FieldError>

  /** The outcome of validating one field. */
  datatype Check<T> = Pass(value: T) | Fail(msg: string)

  const NameMinLength: nat := 1
  const NameMaxLength: nat := 100
  const RatingMin: int := 1
  const RatingMax: int := 5
  const CommentsMaxLength: nat := 1000

  /** The declared bounds the two record shapes share, on a field as the
      caller supplies it. */
  predicate NameInBounds(v: Option<string>) {
    v.Some? && NameMinLength <= |v.value| <= NameMaxLength
  }
  predicate RatingInBounds(v: Option<int>) {
    v.Some? && RatingMin <= v.value <= RatingMax
  }
  predicate CommentsInBounds(v: Option<string>) {
    v.None? || |v.value| <= CommentsMaxLength
  }

  const MissingMsg := "field required"
  const ConsentMsg := "consent must be true"

  /** Some entry of `errs` is about `field`. */
  predicate Flagged(errs: Errors, field: Field) {
    errs != [] && (errs[0].field == field || Flagged(errs[1..], field))
  }

  /** The error list contribution of one field: nothing when it passed, one
      entry carrying the field's name and message when it failed. */
  function ErrorEntry<T>(field: Field, c: Check<T>): (r: Errors)
    ensures c.Pass? ==> r == []
    ensures c.Fail? ==> r == [FieldError(field, c.msg)]
  {
    match c
    case Pass(_) => []
    case Fail(msg) => [FieldError(field, msg)]
  }

  /** The entries of a concatenation are those of its parts. */
  lemma {:induction false} FlaggedConcat(a: Errors, b: Errors, field: Field)
    ensures Flagged(a + b, field) <==> Flagged(a, field) || Flagged(b, field)
  {
    if a == [] {
      assert a + b == b;
    } else {
      assert (a + b)[1..] == a[1..] + b;
      FlaggedConcat(a[1..], b, field);
    }
  }

  /** Every entry of `errs` is about one of `fields`. */
  predicate Within(errs: Errors, fields: set<Field>) {
    errs == [] || (errs[0].field in fields && Within(errs[1..], fields))
  }

  /** `Within` holds of a list exactly when every entry is about one of
      `fields`. */
  lemma {:induction false} WithinMembers(errs: Errors, fields: set<Field>)
    ensures Within(errs, fields) <==> forall e :: e in errs ==> e.field in fields
  {
    if errs != [] {
      WithinMembers(errs[1..], fields);
      assert forall e :: e in errs <==> e == errs[0] || e in errs[1..];
    }
  }

  /** A concatenation stays within `fields` exactly when both parts do. */
  lemma {:induction false} WithinConcat(a: Errors, b: Errors, fields: set<Field>)
    ensures Within(a + b, fields) <==> Within(a, fields) && Within(b, fields)
  {
    if a == [] {
      assert a + b == b;
    } else {
      assert (a + b)[1..] == a[1..] + b;
      WithinConcat(a[1..], b, fields);
    }
  }

  /** A list within some fields is within any superset of them. */
  lemma {:induction false} WithinWider(errs: Errors, fields: set<Field>, wider: set<Field>)
    requires Within(errs, fields)
    requires fields <= wider
    ensures Within(errs, wider)
  {
    if errs != [] {
      WithinWider(errs[1..], fields, wider);
    }
  }

  /** Every entry flags its own field. */
  lemma {:induction false} FlaggedMember(errs: Errors, e: FieldError)
    requires e in errs
    ensures Flagged(errs, e.field)
  {
    if errs[0] != e {
      FlaggedMember(errs[1..], e);
    }
  }

  /** A list whose entries are all about other fields does not flag `field`. */
  lemma {:induction false} NotFlagged(errs: Errors, fields: set<Field>, field: Field)
    requires Within(errs, fields)
    requires field !in fields
    ensures !Flagged(errs, field)
  {
    if errs != [] {
      NotFlagged(errs[1..], fields, field);
    }
  }

  /** A field's entry flags that field, and only when it failed. */
  lemma FlaggedEntry<T>(name: Field, c: Check<T>, field: Field)
    ensures Flagged(ErrorEntry(name, c), field) <==> c.Fail? && name == field
  {
    if c.Fail? {
      assert ErrorEntry(name, c)[1..] == [];
    }
  }

  /** A field's entry stays within `fields` when it passed or the field is
      one of them. */
  lemma WithinEntry<T>(name: Field, c: Check<T>, fields: set<Field>)
    ensures Within(ErrorEntry(name, c), fields) <==> c.Pass? || name in fields
  {
    if c.Fail? {
      assert ErrorEntry(name, c)[1..] == [];
    }
  }

  /** The place of a field in the order the models declare their fields,
      which is the order pydantic validates them and reports their errors.
      The stored record's fields keep the relative order they have here. */
  function Position(f: Field): nat {
    match f
    case Name => 0
    case Email => 1
    case Age => 2
    case Consent => 3
    case Rating => 4
    case Comments => 5
    case UserAgent => 6
    case SubmissionId => 7
    case ReceivedAt => 8
    case Ip => 9
    case HashedEmail => 10
    case HashedAge => 11
  }

  /** Every entry of `errs` names a field placed in `[lo, hi)`. */
  predicate Between(errs: Errors, lo: nat, hi: nat) {
    errs == [] || (lo <= Position(errs[0].field) < hi && Between(errs[1..], lo, hi))
  }

  /** Each entry names a field declared after the field of the entry before
      it. */
  predicate Ordered(errs: Errors) {
    |errs| < 2 || (Position(errs[0].field) < Position(errs[1].field) && Ordered(errs[1..]))
  }

  /** Entries in declaration order: every field is reported at most once, and
      earlier fields come first. */
  predicate InFieldOrder(errs: Errors) {
    forall i, j :: 0 <= i < j < |errs| ==> Position(errs[i].field) < Position(errs[j].field)
  }

  lemma {:induction false} BetweenWiden(errs: Errors, lo: nat, hi: nat, lo': nat, hi': nat)
    requires Between(errs, lo, hi)
    requires lo' <= lo && hi <= hi'
    ensures Between(errs, lo', hi')
  {
    if errs != [] {
      BetweenWiden(errs[1..], lo, hi, lo', hi');
    }
  }

  /** A field's entry is ordered and placed where the field is. */
  lemma EntryPlaced<T>(name: Field, c: Check<T>, lo: nat, hi: nat)
    requires lo <= Position(name) < hi
    ensures Ordered(ErrorEntry(name, c)) && Between(ErrorEntry(name, c), lo, hi)
  {
    if c.Fail? {
      assert ErrorEntry(name, c)[1..] == [];
    }
  }

  /** Two ordered lists, the first placed wholly before the second, are
      ordered together. */
  lemma {:induction false} OrderedConcat(a: Errors, b: Errors, lo: nat, mid: nat, hi: nat)
    requires lo <= mid <= hi
    requires Ordered(a) && Between(a, lo, mid)
    requires Ordered(b) && Between(b, mid, hi)
    ensures Ordered(a + b) && Between(a + b, lo, hi)
  {
    if a == [] {
      assert a + b == b;
      BetweenWiden(b, mid, hi, lo, hi);
    } else {
      assert (a + b)[1..] == a[1..] + b;
      OrderedConcat(a[1..], b, lo, mid, hi);
      if |a| == 1 {
        if b != [] {
          assert (a + b)[1] == b[0];
        }
      } else {
        assert (a + b)[1] == a[1];
      }
    }
  }

  /** Ordering of neighbours is ordering of every pair. */
  lemma {:induction false} OrderedInFieldOrder(errs: Errors)
    requires Ordered(errs)
    ensures InFieldOrder(errs)
  {
    if |errs| >= 2 {
      var tail := errs[1..];
      OrderedInFieldOrder(tail);
      forall i, j | 0 <= i < j < |errs|
        ensures Position(errs[i].field) < Position(errs[j].field)
      {
        if i > 0 {
          assert errs[i] == tail[i - 1] && errs[j] == tail[j - 1];
        } else if j > 1 {
          assert errs[1] == tail[0] && errs[j] == tail[j - 1];
        }
      }
    }
  }

  /** A required `str` field with `min_length` and `max_length`. */
  function CheckLength(v: Option<string>, minLen: nat, maxLen: nat): (r: Check<string>)
    ensures r.Pass? <==> v.Some? && minLen <= |v.value| <= maxLen
    ensures r.Pass? ==> r.value == v.value
    ensures v.None? ==> r == Fail(MissingMsg)
  {
    match v
    case None => Fail(MissingMsg)
    case Some(s) =>
      if |s| < minLen then Fail("ensure this value has at least " + DecimalString(minLen) + " characters")
      else if |s| > maxLen then Fail("ensure this value has at most " + DecimalString(maxLen) + " characters")
      else Pass(s)
  }

  /** A required `int` field with `ge` and `le`. */
  function CheckRange(v: Option<int>, lo: int, hi: int): (r: Check<int>)
    ensures r.Pass? <==> v.Some? && lo <= v.value <= hi
    ensures r.Pass? ==> r.value == v.value
    ensures v.None? ==> r == Fail(MissingMsg)
  {
    match v
    case None => Fail(MissingMsg)
    case Some(n) =>
      if n < lo then Fail("ensure this value is greater than or equal to " + DecimalString(lo))
      else if n > hi then Fail("ensure this value is less than or equal to " + DecimalString(hi))
      else Pass(n)
  }

  /** `name`: 1 to 100 characters. */
  function CheckName(v: Option<string>): (r: Check<string>)
    ensures r.Pass? <==> v.Some? && 1 <= |v.value| <= 100
    ensures r.Pass? ==> r.value == v.value
    ensures v.None? ==> r == Fail(MissingMsg)
  {
    CheckLength(v, NameMinLength, NameMaxLength)
  }

  /** `rating`: 1 to 5. */
  function CheckRating(v: Option<int>): (r: Check<int>)
    ensures r.Pass? <==> v.Some? && 1 <= v.value <= 5
    ensures r.Pass? ==> r.value == v.value
    ensures v.None? ==> r == Fail(MissingMsg)
  {
    CheckRange(v, RatingMin, RatingMax)
  }

  /** `_must_consent`: anything but `True` is refused. */
  function MustConsent(b: bool): (r: Check<bool>)
    ensures r.Pass? <==> b
    ensures r.Fail? ==> r.msg == ConsentMsg
  {
    if b != true then Fail(ConsentMsg) else Pass(b)
  }

  /** `consent`: a required bool, then `_must_consent`. A missing value never
      reaches the validator and is reported as missing. */
  function CheckConsent(v: Option<bool>): (r: Check<bool>)
    ensures r.Pass? <==> v == Some(true)
    ensures r.Pass? ==> r.value
    ensures v == Some(false) ==> r == Fail(ConsentMsg)
    ensures v.None? ==> r == Fail(MissingMsg)
  {
    match v
    case None => Fail(MissingMsg)
    case Some(b) => MustConsent(b)
  }

  /** `_strip_comments`: strings are stripped, anything else is kept. */
  function StripComments(v: Option<string>): (r: Option<string>)
    ensures r.Some? <==> v.Some?
    ensures v.Some? ==> IsTrimmed(r.value) && |r.value| <= |v.value|
    ensures v.Some? ==> exists i, j :: 0 <= i <= j <= |v.value| && r.value == v.value[i..j]
                                       && SpaceBetween(v.value, 0, i) && SpaceBetween(v.value, j, |v.value|)
  {
    match v
    case None => None
    case Some(s) => Some(Strip(s))
  }

  /** `comments`: optional; at most 1000 characters, counted BEFORE the
      validator strips it, since the length constraint runs first. */
  function CheckComments(v: Option<string>): (r: Check<Option<string>>)
    ensures r.Pass? <==> v.None? || |v.value| <= CommentsMaxLength
    ensures r.Pass? ==> (r.value.Some? <==> v.Some?)
    ensures r.Pass? && v.Some? ==> IsTrimmed(r.value.value) && |r.value.value| <= |v.value|
    ensures r.Pass? ==> r.value == StripComments(v)
    ensures r.Fail? ==> r.msg == "ensure this value has at most 1000 characters"
  {
    match v
    case None => Pass(None)
    case Some(s) =>
      if |s| > CommentsMaxLength then Fail("ensure this value has at most " + DecimalString(CommentsMaxLength) + " characters")
      else Pass(StripComments(v))
  }

  /** Comments that are already trimmed and within the bound validate to
      themselves, so validating a second time changes nothing. */
  lemma CheckCommentsStable(v: Option<string>)
    requires v.Some? ==> IsTrimmed(v.value) && |v.value| <= CommentsMaxLength
    ensures CheckComments(v) == Pass(v)
  {
    if v.Some? {
      StripTrimmed(v.value);
    }
  }

  /** Validating comments twice gives what validating once gives. */
  lemma CheckCommentsIdempotent(v: Option<string>)
    requires CheckComments(v).Pass?
    ensures CheckComments(CheckComments(v).value) == CheckComments(v)
  {
    if v.Some? {
      StripIdempotent(v.value);
    }
  }

  /** The inclusive boundaries of the shared bounds, and their messages. */
  lemma BoundaryExamples()
    ensures CheckRating(Some(1)).Pass? && CheckRating(Some(5)).Pass?
    ensures CheckRating(Some(0)) == Fail("ensure this value is greater than or equal to 1")
    ensures CheckRating(Some(6)) == Fail("ensure this value is less than or equal to 5")
    ensures CheckName(Some("")) == Fail("ensure this value has at least 1 characters")
    ensures CheckComments(Some(seq(1000, _ => 'a'))).Pass?
    ensures CheckComments(Some(seq(1001, _ => 'a'))).Fail?
  {
    assert DecimalString(1) == "1";
    assert DecimalString(5) == "5";
  }
}
