/**
 * The public registration form: it normalises the posted fields, runs nine
 * field checks that all report (none stops the others), looks the phone
 * number up only when every field check passed, and inserts the candidate
 * only when no error was found. The client-side role selector is modelled
 * at the end.
 */
module Registration {
  import opened Php
  import opened Store

  /** The posted form. `age` and `yearsExperience` are what `intval` and
      `floatval` made of the posted text (0 when the field is missing);
      the salary keeps its raw text, because `empty()` is applied to that
      text before `floatval` turns it into `currentSalaryValue`. */
  datatype Submission = Submission(
    fullName: Option<string>,
    age: int,
    phoneNumber: Option<string>,
    gender: Option<string>,
    city: Option<string>,
    jobCategory: Option<string>,
    jobRole: Option<string>,
    yearsExperience: real,
    currentSalaryText: Option<string>,
    currentSalaryValue: real)

  /** Normalisation: name, phone, city, category and role are trimmed (a
      missing one becomes ""); gender is taken as posted; a missing or
      `empty` salary, "0" included, becomes NULL. */
  function Normalize(p: Submission): Profile {
    Profile(
      Trim(p.fullName.OrElse("")),
      p.age,
      Trim(p.phoneNumber.OrElse("")),
      p.gender.OrElse(""),
      Trim(p.city.OrElse("")),
      Trim(p.jobCategory.OrElse("")),
      Trim(p.jobRole.OrElse("")),
      p.yearsExperience,
      if p.currentSalaryText.Some? && !IsEmpty(p.currentSalaryText.value)
      then Some(p.currentSalaryValue) else None)
  }

  /** What normalisation promises: the five text fields come out trimmed;
      gender, age and experience pass through untouched; the salary is NULL
      exactly when it was missing or `empty`, and is the posted value
      otherwise. */
  lemma NormalizeSpec(p: Submission)
    ensures var a := Normalize(p);
            && IsTrimmed(a.fullName) && IsTrimmed(a.phoneNumber) && IsTrimmed(a.city)
            && IsTrimmed(a.jobCategory) && IsTrimmed(a.jobRole)
            && a.gender == p.gender.OrElse("")
            && a.age == p.age && a.yearsExperience == p.yearsExperience
            && (a.currentSalary.None? <==> p.currentSalaryText.None? || IsEmpty(p.currentSalaryText.value))
            && (a.currentSalary.Some? ==> a.currentSalary.value == p.currentSalaryValue)
  {
  }

  /** The error messages the form can show, one per check. */
  datatype Violation =
    | BadName | BadAge | BadPhone | BadGender | BadCity
    | NoCategory | NoRole | BadExperience | NegativeSalary
    | DuplicatePhone

  function Message(v: Violation): string {
    match v
    case BadName => "Full name is required (minimum 2 characters)"
    case BadAge => "Age must be between 16 and 80"
    case BadPhone => "Please enter a valid 10-digit phone number"
    case BadGender => "Please select a valid gender"
    case BadCity => "City is required"
    case NoCategory => "Please select a job category"
    case NoRole => "Please select a job role"
    case BadExperience => "Years of experience must be between 0 and 50"
    case NegativeSalary => "Current salary cannot be negative"
    case DuplicatePhone => "This phone number is already registered"
  }

  /** The nine field checks, in the order the form runs them. */
  const FieldChecks: seq<Violation> :=
    [BadName, BadAge, BadPhone, BadGender, BadCity, NoCategory, NoRole, BadExperience, NegativeSalary]

  /** Where a message stands in the fixed order of messages. */
  function Rank(v: Violation): nat {
    match v
    case BadName => 0
    case BadAge => 1
    case BadPhone => 2
    case BadGender => 3
    case BadCity => 4
    case NoCategory => 5
    case NoRole => 6
    case BadExperience => 7
    case NegativeSalary => 8
    case DuplicatePhone => 9
  }

  /** Messages appear in the fixed order, each at most once. */
  predicate InOrder(vs: seq<Violation>) {
    forall i, j :: 0 <= i < j < |vs| ==> Rank(vs[i]) < Rank(vs[j])
  }

  predicate IsDigit(c: char) {
    '0' <= c <= '9'
  }

  /** An Indian mobile number: ten digits, the first of them 6 to 9. */
  predicate IsMobileNumber(s: string) {
    |s| == 10 && '6' <= s[0] <= '9' && forall i :: 1 <= i < 10 ==> IsDigit(s[i])
  }

  /** `preg_match('/^[6-9][0-9]{9}$/', s)`. In PCRE `$` also matches just
      before a final line feed, so ten such digits followed by "\n" match too. */
  predicate PhonePatternMatches(s: string) {
    IsMobileNumber(s) || (|s| == 11 && s[10] == '\n' && IsMobileNumber(s[..10]))
  }

  const Genders: seq<string> := ["Male", "Female", "Other"]

  /** The condition under which each check adds its message. Category and
      role are only required to be non-empty; nothing compares them with the
      category list. The duplicate-phone message is not a field check. */
  predicate Violates(v: Violation, a: Profile) {
    match v
    case BadName => IsEmpty(a.fullName) || Utf8Length(a.fullName) < 2
    case BadAge => a.age < 16 || a.age > 80
    case BadPhone => IsEmpty(a.phoneNumber) || !PhonePatternMatches(a.phoneNumber)
    case BadGender => a.gender !in Genders
    case BadCity => IsEmpty(a.city) || Utf8Length(a.city) < 2
    case NoCategory => IsEmpty(a.jobCategory)
    case NoRole => IsEmpty(a.jobRole)
    case BadExperience => a.yearsExperience < 0.0 || a.yearsExperience > 50.0
    case NegativeSalary => a.currentSalary.Some? && a.currentSalary.value < 0.0
    case DuplicatePhone => false
  }

  /** The message of check `v` if `a` fails it, nothing otherwise. */
  function Flag(v: Violation, a: Profile): seq<Violation> {
    if Violates(v, a) then [v] else []
  }

  /** The checks of `checks` that `a` fails, in the order of `checks`. */
  function Failing(checks: seq<Violation>, a: Profile): seq<Violation> {
    if checks == [] then [] else Failing(checks[..|checks| - 1], a) + Flag(checks[|checks| - 1], a)
  }

  /** `Failing` keeps exactly the failed checks. */
  lemma {:induction false} FailingMembers(checks: seq<Violation>, a: Profile)
    ensures forall v :: v in Failing(checks, a) <==> v in checks && Violates(v, a)
  {
    if checks != [] {
      var init := checks[..|checks| - 1];
      FailingMembers(init, a);
      assert checks == init + [checks[|checks| - 1]];
    }
  }

  /** `Failing` keeps the order of the checks. */
  lemma {:induction false} FailingInOrder(checks: seq<Violation>, a: Profile)
    requires InOrder(checks)
    ensures InOrder(Failing(checks, a))
  {
    if checks != [] {
      var init := checks[..|checks| - 1];
      assert InOrder(init);
      FailingInOrder(init, a);
      FailingMembers(init, a);
      PrefixRanksBelowLast(checks);
      assert forall v :: v in Failing(init, a) ==> Rank(v) < Rank(checks[|checks| - 1]);
    }
  }

  /** `Failing` keeps exactly the failed checks and keeps their order. */
  lemma FailingSpec(checks: seq<Violation>, a: Profile)
    ensures forall v :: v in Failing(checks, a) <==> v in checks && Violates(v, a)
    ensures InOrder(checks) ==> InOrder(Failing(checks, a))
  {
    FailingMembers(checks, a);
    if InOrder(checks) {
      FailingInOrder(checks, a);
    }
  }

  /** In an ordered list every element before the last ranks below it
      (`Dashboard.PrefixRanksBelowLast` is its twin for the filters). */
  lemma PrefixRanksBelowLast(checks: seq<Violation>)
    requires checks != [] && InOrder(checks)
    ensures forall v :: v in checks[..|checks| - 1] ==> Rank(v) < Rank(checks[|checks| - 1])
  {
    forall v | v in checks[..|checks| - 1] ensures Rank(v) < Rank(checks[|checks| - 1]) {
      var k :| 0 <= k < |checks| - 1 && checks[..|checks| - 1][k] == v;
      assert checks[k] == v;
    }
  }

  /** Running one more check appends its message when it fails. */
  lemma FailingStep(checks: seq<Violation>, k: nat, a: Profile)
    requires k < |checks|
    ensures Failing(checks[..k + 1], a) == Failing(checks[..k], a) + Flag(checks[k], a)
  {
    assert checks[..k + 1][..k] == checks[..k];
  }

  /** The field errors: the field checks `a` fails, in the order they run. */
  function FieldErrors(a: Profile): seq<Violation> {
    Failing(FieldChecks, a)
  }

  /** Every field check is evaluated, none stops the others: the field
      errors are exactly the checks `a` fails, in the fixed order. */
  lemma FieldErrorsSpec(a: Profile)
    ensures forall v :: v in FieldErrors(a) <==> v != DuplicatePhone && Violates(v, a)
    ensures InOrder(FieldErrors(a))
  {
    FailingSpec(FieldChecks, a);
    assert forall v :: v in FieldChecks <==> v != DuplicatePhone;
  }

  /** One message at a time: `v` is among the field errors exactly when its check fails. */
  lemma FieldErrorsHas(a: Profile, v: Violation)
    ensures v in FieldErrors(a) <==> v != DuplicatePhone && Violates(v, a)
  {
    FieldErrorsSpec(a);
  }

  /** An empty final error list means the phone was looked up and not found. */
  lemma NoErrorsMeansNewPhone(a: Profile, rows: map<int, Candidate>)
    requires ValidationErrors(a, rows) == []
    ensures FieldErrors(a) == [] && !PhoneTaken(rows, a.phoneNumber)
  {
  }

  /** The final error list: the field errors, or, when there are none and
      the phone is already in the table, the duplicate message alone. */
  function ValidationErrors(a: Profile, rows: map<int, Candidate>): seq<Violation> {
    var fieldErrors := FieldErrors(a);
    if fieldErrors == [] && PhoneTaken(rows, a.phoneNumber) then [DuplicatePhone] else fieldErrors
  }

  /** The phone lookup happens only after every field check passed, so
      "already registered" is only ever the sole error; the list is empty
      exactly when all checks pass and the phone is new. */
  lemma ValidationErrorsSpec(a: Profile, rows: map<int, Candidate>)
    ensures var r := ValidationErrors(a, rows);
            && (r == [] <==> FieldErrors(a) == [] && !PhoneTaken(rows, a.phoneNumber))
            && (DuplicatePhone in r <==> FieldErrors(a) == [] && PhoneTaken(rows, a.phoneNumber))
            && (DuplicatePhone in r ==> r == [DuplicatePhone])
            && (forall v :: v != DuplicatePhone ==> (v in r <==> Violates(v, a)))
            && InOrder(r)
  {
    FieldErrorsSpec(a);
  }

  /** The first five field checks spelled out one by one. */
  lemma FirstFieldErrorsUnfold(a: Profile)
    ensures Failing(FieldChecks[..5], a)
            == Flag(BadName, a) + Flag(BadAge, a) + Flag(BadPhone, a) + Flag(BadGender, a)
               + Flag(BadCity, a)
  {
    var checks := FieldChecks;
    assert checks[..0] == [];
    FailingStep(checks, 0, a);
    assert Failing(checks[..1], a) == Flag(BadName, a);
    FailingStep(checks, 1, a);
    assert Failing(checks[..2], a) == Flag(BadName, a) + Flag(BadAge, a);
    FailingStep(checks, 2, a);
    assert Failing(checks[..3], a) == Flag(BadName, a) + Flag(BadAge, a) + Flag(BadPhone, a);
    FailingStep(checks, 3, a);
    assert Failing(checks[..4], a) == Flag(BadName, a) + Flag(BadAge, a) + Flag(BadPhone, a) + Flag(BadGender, a);
    FailingStep(checks, 4, a);
    assert Failing(checks[..5], a) == Flag(BadName, a) + Flag(BadAge, a) + Flag(BadPhone, a) + Flag(BadGender, a) + Flag(BadCity, a);
  }

  /** The field errors spelled out check by check. */
  lemma FieldErrorsUnfold(a: Profile)
    ensures FieldErrors(a)
            == Flag(BadName, a) + Flag(BadAge, a) + Flag(BadPhone, a) + Flag(BadGender, a)
               + Flag(BadCity, a) + Flag(NoCategory, a) + Flag(NoRole, a)
               + Flag(BadExperience, a) + Flag(NegativeSalary, a)
  {
    var checks := FieldChecks;
    FirstFieldErrorsUnfold(a);
    FailingStep(checks, 5, a);
    assert Failing(checks[..6], a) == Flag(BadName, a) + Flag(BadAge, a) + Flag(BadPhone, a) + Flag(BadGender, a) + Flag(BadCity, a) + Flag(NoCategory, a);
    FailingStep(checks, 6, a);
    assert Failing(checks[..7], a) == Flag(BadName, a) + Flag(BadAge, a) + Flag(BadPhone, a) + Flag(BadGender, a) + Flag(BadCity, a) + Flag(NoCategory, a) + Flag(NoRole, a);
    FailingStep(checks, 7, a);
    assert Failing(checks[..8], a) == Flag(BadName, a) + Flag(BadAge, a) + Flag(BadPhone, a) + Flag(BadGender, a) + Flag(BadCity, a) + Flag(NoCategory, a) + Flag(NoRole, a) + Flag(BadExperience, a);
    FailingStep(checks, 8, a);
    assert Failing(checks[..9], a) == Flag(BadName, a) + Flag(BadAge, a) + Flag(BadPhone, a) + Flag(BadGender, a) + Flag(BadCity, a) + Flag(NoCategory, a) + Flag(NoRole, a) + Flag(BadExperience, a) + Flag(NegativeSalary, a);
    assert checks[..9] == checks;
  }

  /** The nine field checks of the form handler, each appending its message
      when it fails; none stops the others. */
  method CheckFields(a: Profile) returns (errors: seq<Violation>)
    ensures errors == FieldErrors(a)
  {
    errors := [];
    errors := errors + (if IsEmpty(a.fullName) || Utf8Length(a.fullName) < 2 then [BadName] else []);
    assert errors == Flag(BadName, a);
    errors := errors + (if a.age < 16 || a.age > 80 then [BadAge] else []);
    assert errors == Flag(BadName, a) + Flag(BadAge, a);
    errors := errors + (if IsEmpty(a.phoneNumber) || !PhonePatternMatches(a.phoneNumber) then [BadPhone] else []);
    assert errors == Flag(BadName, a) + Flag(BadAge, a) + Flag(BadPhone, a);
    errors := errors + (if a.gender !in Genders then [BadGender] else []);
    assert errors == Flag(BadName, a) + Flag(BadAge, a) + Flag(BadPhone, a) + Flag(BadGender, a);
    errors := errors + (if IsEmpty(a.city) || Utf8Length(a.city) < 2 then [BadCity] else []);
    assert errors == Flag(BadName, a) + Flag(BadAge, a) + Flag(BadPhone, a) + Flag(BadGender, a) + Flag(BadCity, a);
    errors := errors + (if IsEmpty(a.jobCategory) then [NoCategory] else []);
    assert errors == Flag(BadName, a) + Flag(BadAge, a) + Flag(BadPhone, a) + Flag(BadGender, a) + Flag(BadCity, a) + Flag(NoCategory, a);
    errors := errors + (if IsEmpty(a.jobRole) then [NoRole] else []);
    assert errors == Flag(BadName, a) + Flag(BadAge, a) + Flag(BadPhone, a) + Flag(BadGender, a) + Flag(BadCity, a) + Flag(NoCategory, a) + Flag(NoRole, a);
    errors := errors + (if a.yearsExperience < 0.0 || a.yearsExperience > 50.0 then [BadExperience] else []);
    assert errors == Flag(BadName, a) + Flag(BadAge, a) + Flag(BadPhone, a) + Flag(BadGender, a) + Flag(BadCity, a) + Flag(NoCategory, a) + Flag(NoRole, a) + Flag(BadExperience, a);
    errors := errors + (if a.currentSalary.Some? && a.currentSalary.value < 0.0 then [NegativeSalary] else []);
    assert errors == Flag(BadName, a) + Flag(BadAge, a) + Flag(BadPhone, a) + Flag(BadGender, a) + Flag(BadCity, a) + Flag(NoCategory, a) + Flag(NoRole, a) + Flag(BadExperience, a) + Flag(NegativeSalary, a);
    FieldErrorsUnfold(a);
  }

  /** The validation block of the form handler: the field checks, then the
      phone lookup only if the list is still empty. */
  method Validate(a: Profile, store: CandidateStore) returns (errors: seq<Violation>)
    ensures errors == ValidationErrors(a, store.rows)
  {
    errors := CheckFields(a);
    if errors == [] {
      if PhoneTaken(store.rows, a.phoneNumber) {
        errors := errors + [DuplicatePhone];
      }
    }
  }

  const SuccessMessage: string := "Registration successful! Thank you for joining our talent network."
  const InsertFailedMessage: string := "Registration failed. Please try again."

  /** What the form reports after a submission. */
  datatype Outcome =
    | Registered(id: int, message: string)
    | Rejected(errors: seq<Violation>, message: string)
    | InsertFailed(message: string)

  /** The messages of `errors`, in order. */
  function Messages(errors: seq<Violation>): seq<string> {
    if errors == [] then [] else [Message(errors[0])] + Messages(errors[1..])
  }

  /** `implode('<br>', $errors)`. */
  function ErrorText(errors: seq<Violation>): string {
    Implode("<br>", Messages(errors))
  }

  /** The whole POST handler. `insertExecutes` says whether the database
      ran the INSERT. A row is inserted exactly when the final error list is
      empty and the INSERT runs; otherwise the table is left as it was. */
  method Register(store: CandidateStore, p: Submission, now: string, insertExecutes: bool)
    returns (outcome: Outcome)
    requires store.Valid()
    modifies store
    ensures store.Valid()
    ensures var errors := ValidationErrors(Normalize(p), old(store.rows));
            errors != [] ==> outcome == Rejected(errors, ErrorText(errors))
    ensures var errors := ValidationErrors(Normalize(p), old(store.rows));
            errors == [] && !insertExecutes ==> outcome == InsertFailed(InsertFailedMessage)
    ensures var errors := ValidationErrors(Normalize(p), old(store.rows));
            errors == [] && insertExecutes ==> outcome == Registered(old(store.nextId), SuccessMessage)
    ensures outcome.Registered? ==>
              store.rows == old(store.rows)[outcome.id := NewCandidate(outcome.id, Normalize(p), now)]
              && outcome.id !in old(store.rows)
              && |store.rows| == |old(store.rows)| + 1
    ensures !outcome.Registered? ==> store.rows == old(store.rows) && store.nextId == old(store.nextId)
    ensures PhonesDistinct(old(store.rows)) ==> PhonesDistinct(store.rows)
  {
    var a := Normalize(p);
    var errors := Validate(a, store);
    if errors == [] {
      if insertExecutes {
        ghost var before := store.rows;
        NoErrorsMeansNewPhone(a, before);
        var id := store.Insert(a, now);
        if PhonesDistinct(before) {
          InsertKeepsPhonesDistinct(before, NewCandidate(id, a, now));
        }
        outcome := Registered(id, SuccessMessage);
      } else {
        outcome := InsertFailed(InsertFailedMessage);
      }
    } else {
      outcome := Rejected(errors, ErrorText(errors));
    }
  }

  // Properties of the validator

  /** Because the phone is trimmed first, the pattern's tolerance of a final
      line feed never matters: a trimmed phone passes exactly when it is ten
      digits starting with 6 to 9. */
  lemma PhoneAcceptedIff(a: Profile)
    requires IsTrimmed(a.phoneNumber)
    ensures !Violates(BadPhone, a) <==> IsMobileNumber(a.phoneNumber)
  {
    var s := a.phoneNumber;
    if |s| == 11 {
      assert s[|s| - 1] == s[10];
    }
  }

  /** Name and city pass exactly when their UTF-8 byte length is at least 2
      (the `empty()` test adds nothing, since "" and "0" are shorter). */
  lemma NameAndCityAcceptedIff(a: Profile)
    ensures !Violates(BadName, a) <==> Utf8Length(a.fullName) >= 2
    ensures !Violates(BadCity, a) <==> Utf8Length(a.city) >= 2
  {
    assert Utf8Length("0") == 1;
  }

  /** `strlen` counts bytes, so a one-character name outside ASCII passes the
      two-character minimum. */
  lemma OneCharacterNameAccepted(a: Profile)
    requires |a.fullName| == 1 && a.fullName[0] as int >= 0x80
    ensures !Violates(BadName, a)
  {
    assert a.fullName[1..] == [];
    assert Utf8Length(a.fullName) == Utf8Width(a.fullName[0]);
  }

  /** A salary posted as "0" is stored as NULL, never as 0. */
  lemma ZeroSalaryBecomesNull(p: Submission)
    requires p.currentSalaryText == Some("0")
    ensures Normalize(p).currentSalary == None
    ensures NegativeSalary !in FieldErrors(Normalize(p))
  {
    var a := Normalize(p);
    FieldErrorsHas(a, NegativeSalary);
  }

  /** A category or role posted as "0" counts as missing. */
  lemma ZeroCategoryRejected(p: Submission)
    ensures p.jobCategory == Some("0") ==> NoCategory in FieldErrors(Normalize(p))
    ensures p.jobRole == Some("0") ==> NoRole in FieldErrors(Normalize(p))
  {
    TrimKeepsTrimmed("0");
    var a := Normalize(p);
    FieldErrorsHas(a, NoCategory);
    FieldErrorsHas(a, NoRole);
  }

  /** A gender outside the list fails its check. */
  lemma UnlistedGenderRejected(a: Profile)
    requires a.gender !in Genders
    ensures BadGender in FieldErrors(a)
  {
    FieldErrorsHas(a, BadGender);
  }

  /** A padded gender is not on the list. */
  lemma PaddedMaleUnlisted(g: string)
    requires g == " Male"
    ensures g !in Genders
  {
  }

  /** Gender is not trimmed, so " Male" is rejected. */
  lemma PaddedGenderRejected(p: Submission)
    requires p.gender == Some(" Male")
    ensures BadGender in FieldErrors(Normalize(p))
  {
    var a := Normalize(p);
    assert a.gender == " Male";
    PaddedMaleUnlisted(a.gender);
    UnlistedGenderRejected(a);
  }

  /** The rules a candidate must meet: each field check stated positively
      (category and role are only required to be non-empty). */
  predicate MeetsRules(a: Profile) {
    && Utf8Length(a.fullName) >= 2
    && 16 <= a.age <= 80
    && IsMobileNumber(a.phoneNumber)
    && a.gender in Genders
    && Utf8Length(a.city) >= 2
    && !IsEmpty(a.jobCategory) && !IsEmpty(a.jobRole)
    && 0.0 <= a.yearsExperience <= 50.0
    && (a.currentSalary.None? || a.currentSalary.value >= 0.0)
  }

  /** Passing every field check is the same as meeting the rules, given a
      trimmed phone (so that the pattern's final line feed cannot occur). */
  lemma FieldChecksAreRules(a: Profile)
    requires IsTrimmed(a.phoneNumber)
    ensures (forall v :: v != DuplicatePhone ==> !Violates(v, a)) <==> MeetsRules(a)
  {
    PhoneAcceptedIff(a);
    NameAndCityAcceptedIff(a);
    if MeetsRules(a) {
      forall v | v != DuplicatePhone ensures !Violates(v, a) {
      }
    } else {
      assert Violates(BadName, a) || Violates(BadAge, a) || Violates(BadPhone, a)
             || Violates(BadGender, a) || Violates(BadCity, a) || Violates(NoCategory, a)
             || Violates(NoRole, a) || Violates(BadExperience, a) || Violates(NegativeSalary, a);
    }
  }

  /** There are no field errors exactly when no field check fails. */
  lemma FieldErrorsEmptyIff(a: Profile)
    ensures FieldErrors(a) == [] <==> forall v :: v != DuplicatePhone ==> !Violates(v, a)
  {
    FieldErrorsSpec(a);
    if FieldErrors(a) != [] {
      assert FieldErrors(a)[0] in FieldErrors(a);
    }
  }

  /** With a trimmed phone, the error list is empty exactly when the
      profile meets every rule and its phone is not yet registered. */
  lemma ProfileAcceptedIff(a: Profile, rows: map<int, Candidate>)
    requires IsTrimmed(a.phoneNumber)
    ensures ValidationErrors(a, rows) == [] <==> MeetsRules(a) && !PhoneTaken(rows, a.phoneNumber)
  {
    FieldChecksAreRules(a);
    FieldErrorsEmptyIff(a);
  }

  /** A submission is accepted exactly when its normalised fields meet every
      rule and its phone is not yet registered. */
  lemma AcceptedIff(p: Submission, rows: map<int, Candidate>)
    ensures ValidationErrors(Normalize(p), rows) == []
            <==> MeetsRules(Normalize(p)) && !PhoneTaken(rows, Normalize(p).phoneNumber)
  {
    var a := Normalize(p);
    assert IsTrimmed(a.phoneNumber);
    ProfileAcceptedIff(a, rows);
  }

  /** Submitting the same accepted form twice never yields two rows: once
      the first is inserted, the second gets the duplicate message alone. */
  lemma ResubmissionRejected(p: Submission, rows: map<int, Candidate>, id: int, now: string)
    requires ValidationErrors(Normalize(p), rows) == []
    ensures var a := Normalize(p);
            ValidationErrors(a, rows[id := NewCandidate(id, a, now)]) == [DuplicatePhone]
  {
    var a := Normalize(p);
    var after := rows[id := NewCandidate(id, a, now)];
    assert after[id].profile.phoneNumber == a.phoneNumber;
    assert PhoneTaken(after, a.phoneNumber);
  }

  // The role selector of the form (client side)

  /** One entry of the category list: its name and its roles (a missing
      `roles` list is the empty list). */
  datatype JobCategory = JobCategory(category: string, roles: seq<string>)

  /** `jobRoles.find(cat => cat.category === name)`: the index of the first
      category with that exact name. */
  function FindCategory(categories: seq<JobCategory>, name: string): (r: Option<nat>)
    ensures r.Some? ==> r.value < |categories| && categories[r.value].category == name
    ensures r.Some? ==> forall j :: 0 <= j < r.value ==> categories[j].category != name
    ensures r.None? ==> forall j :: 0 <= j < |categories| ==> categories[j].category != name
  {
    if categories == [] then None
    else if categories[0].category == name then Some(0)
    else match FindCategory(categories[1..], name)
      case None => None
      case Some(i) => Some(i + 1)
  }

  /** What the role selector offers after a category is chosen. */
  datatype RoleMenu =
    | SelectCategoryFirst            // the "First select a category" prompt
    | RoleChoices(roles: seq<string>) // "Select Job Role" followed by these roles

  /** The change handler of the category selector. An empty selection asks
      for a category (in JavaScript "0" is a real selection); otherwise the
      menu offers the roles of the first category of that name, or none. */
  function RoleMenuFor(categories: seq<JobCategory>, selected: string): (m: RoleMenu)
    ensures m.SelectCategoryFirst? <==> selected == ""
    ensures selected != "" && (forall j :: 0 <= j < |categories| ==> categories[j].category != selected)
            ==> m == RoleChoices([])
    ensures forall i :: 0 <= i < |categories| && selected != "" && categories[i].category == selected
                        && (forall j :: 0 <= j < i ==> categories[j].category != selected)
                        ==> m == RoleChoices(categories[i].roles)
  {
    if selected == "" then SelectCategoryFirst
    else match FindCategory(categories, selected)
      case None => RoleChoices([])
      case Some(i) => RoleChoices(categories[i].roles)
  }
}
