/** Request validation: the field constraints and validators of the request bodies.
    A request that fails them is rejected before any handler runs, and the
    application's validation handler answers it with 400. The ISO 3166-1
    alpha-2 table, the e-mail syntax and the URL syntax are given as predicates. */
module Schemas {
  import opened Base
  import opened LegacyActivation

  type Lookup = string -> bool

  predicate LengthIn(s: string, lo: nat, hi: nat)
  {
    lo <= |s| <= hi
  }

  function UpperChar(c: char): char
  {
    if 'a' <= c <= 'z' then (c as int - 32) as char else c
  }

  function Upper(s: string): (r: string)
    ensures |r| == |s|
  {
    seq(|s|, i requires 0 <= i < |s| => UpperChar(s[i]))
  }

  /** `^[A-Za-z]{2}$` and a known alpha-2 code once upper-cased. */
  predicate ValidCountry(c: string, isCountry: Lookup)
  {
    |c| == 2 && IsAsciiLetter(c[0]) && IsAsciiLetter(c[1]) && isCountry(Upper(c))
  }

  predicate AgeInRange(a: Option<int>)
  {
    a.None? || 0 <= a.value <= 100
  }

  /** `Target`: optional ages in 0..100 with `age_from <= age_until` when both are
      given, an optional existing two-letter country, at most 20 categories of 2..20
      characters each. */
  predicate ValidTarget(t: Target, isCountry: Lookup)
  {
    AgeInRange(t.ageFrom) && AgeInRange(t.ageUntil) &&
    (t.ageFrom.None? || t.ageUntil.None? || t.ageFrom.value <= t.ageUntil.value) &&
    (t.country.None? || ValidCountry(t.country.value, isCountry)) &&
    (t.categories.None? ||
      (|t.categories.value| <= 20 &&
       forall i :: 0 <= i < |t.categories.value| ==> LengthIn(t.categories.value[i], 2, 20)))
  }

  /** The youngest age a target admits. */
  function YoungestAdmitted(t: Target): int
  {
    if t.ageFrom.Some? then t.ageFrom.value else 0
  }

  /** A valid target never describes an empty age range: some age a profile can hold
      passes it. */
  lemma ValidTargetAdmitsSomeAge(t: Target, isCountry: Lookup)
    requires ValidTarget(t, isCountry)
    ensures 0 <= YoungestAdmitted(t) <= 100 && AgeAdmits(t, YoungestAdmitted(t))
  {
  }

  /** On a valid target the older router's age rule differs from the intended one
      only when `age_until` is 0. */
  lemma ValidTargetAgeRules(t: Target, isCountry: Lookup, age: int)
    requires ValidTarget(t, isCountry) && 0 <= age <= 100 && t.ageUntil != Some(0)
    ensures AgeAdmitsAsWritten(t, age) <==> AgeAdmits(t, age)
  {
    AgeRulesAgreeOtherwise(t, age);
  }

  /** `HttpUrl` syntax plus the 350-character cap. */
  predicate ValidUrl(u: Option<string>, isUrl: Lookup)
  {
    u.None? || (isUrl(u.value) && |u.value| <= 350)
  }

  /** The body of `POST /business/promo`. `mode` is still text here. */
  datatype PromoCreateRequest = PromoCreateRequest(
    description: string,
    imageUrl: Option<string>,
    target: Target,
    maxCount: int,
    activeFrom: Option<Date>,
    activeUntil: Option<Date>,
    mode: string,
    promoCommon: Option<string>,
    promoUnique: Option<seq<string>>)

  predicate ValidCodes(req: PromoCreateRequest)
  {
    (req.promoCommon.None? || LengthIn(req.promoCommon.value, 5, 30)) &&
    (req.promoUnique.None? ||
      (1 <= |req.promoUnique.value| <= 5000 &&
       forall i :: 0 <= i < |req.promoUnique.value| ==> LengthIn(req.promoUnique.value[i], 3, 30)))
  }

  /** `validate_mode_and_dependencies`: the code fields required and forbidden by each
      mode (an empty value counts as missing), and `max_count` 1 for UNIQUE. */
  function ModeDependencies(req: PromoCreateRequest): (r: Result<()>)
    ensures r.Err? ==> r.error == InvalidRequest
    ensures req.mode == "COMMON" ==>
      (r.Ok? <==> req.promoCommon.Some? && req.promoCommon.value != "" &&
                  (req.promoUnique.None? || req.promoUnique.value == []))
    ensures req.mode == "UNIQUE" ==>
      (r.Ok? <==> req.promoUnique.Some? && req.promoUnique.value != [] &&
                  (req.promoCommon.None? || req.promoCommon.value == "") && req.maxCount == 1)
    ensures req.mode != "COMMON" && req.mode != "UNIQUE" ==> r.Ok?
  {
    var hasCommon := req.promoCommon.Some? && req.promoCommon.value != "";
    var hasUnique := req.promoUnique.Some? && req.promoUnique.value != [];
    if req.mode == "COMMON" && (!hasCommon || hasUnique) then Err(InvalidRequest)
    else if req.mode == "UNIQUE" && (!hasUnique || hasCommon || req.maxCount != 1) then Err(InvalidRequest)
    else Ok(())
  }

  /** Every constraint of `PromoCreate`. */
  predicate ValidPromoCreate(req: PromoCreateRequest, isUrl: Lookup, isCountry: Lookup)
  {
    LengthIn(req.description, 10, 300) &&
    ValidUrl(req.imageUrl, isUrl) &&
    ValidTarget(req.target, isCountry) &&
    0 <= req.maxCount <= 100000000 &&
    (req.mode == "COMMON" || req.mode == "UNIQUE") &&
    ValidCodes(req) &&
    ModeDependencies(req).Ok?
  }

  /** A valid request carries exactly the code field of its mode: the shared code for
      COMMON, a non-empty pool and `max_count` 1 for UNIQUE. */
  lemma ValidCreateHasOneCodeSource(req: PromoCreateRequest, isUrl: Lookup, isCountry: Lookup)
    requires ValidPromoCreate(req, isUrl, isCountry)
    ensures req.mode == "COMMON" ==> req.promoCommon.Some? && req.promoUnique.None?
    ensures req.mode == "UNIQUE" ==>
      req.promoUnique.Some? && 1 <= |req.promoUnique.value| <= 5000 &&
      req.promoCommon.None? && req.maxCount == 1
  {
  }

  /** The body of `PATCH /business/promo/{id}`. The dates distinguish a field left
      out from one sent as `null`. */
  datatype Supplied<T> = Unset | SetTo(value: Option<T>)

  datatype PromoPatchRequest = PromoPatchRequest(
    description: Option<string>,
    imageUrl: Option<string>,
    target: Option<Target>,
    maxCount: Option<int>,
    activeFrom: Supplied<Date>,
    activeUntil: Supplied<Date>)

  /** `PromoPatch`: every field is optional, and each one sent must pass its own rule. */
  predicate ValidPromoPatch(req: PromoPatchRequest, isUrl: Lookup, isCountry: Lookup): (r: bool)
    ensures r <==>
      (req.description.Some? ==> 10 <= |req.description.value| <= 300) &&
      (req.imageUrl.Some? ==> isUrl(req.imageUrl.value) && |req.imageUrl.value| <= 350) &&
      (req.target.Some? ==> ValidTarget(req.target.value, isCountry)) &&
      (req.maxCount.Some? ==> req.maxCount.value >= 0)
  {
    (req.description.None? || LengthIn(req.description.value, 10, 300)) &&
    ValidUrl(req.imageUrl, isUrl) &&
    (req.target.None? || ValidTarget(req.target.value, isCountry)) &&
    (req.maxCount.None? || req.maxCount.value >= 0)
  }

  /** The schema puts no rule on the dates: their order is checked by the handlers. */
  lemma PatchValidationIgnoresDates(req: PromoPatchRequest, from: Supplied<Date>, until: Supplied<Date>,
                                    isUrl: Lookup, isCountry: Lookup)
    ensures ValidPromoPatch(req.(activeFrom := from, activeUntil := until), isUrl, isCountry) <==>
            ValidPromoPatch(req, isUrl, isCountry)
  {
  }

  /** `UserTargetSettings`: age 0..100 and an existing two-letter country. */
  predicate ValidTargetSettings(age: int, country: string, isCountry: Lookup)
  {
    0 <= age <= 100 && ValidCountry(country, isCountry)
  }

  /** A registered profile always passes the older router's 400 check. */
  lemma TargetSettingsCompleteProfile(id: Uuid, email: string, age: int, country: string, isCountry: Lookup)
    requires ValidTargetSettings(age, country, isCountry)
    ensures ProfileComplete(Store.UserRow(id, email, Some(country), Some(age)))
  {
  }

  // ---------------------------------------------------------------------------------
  // Passwords

  predicate IsLower(c: char) { 'a' <= c <= 'z' }
  predicate IsUpper(c: char) { 'A' <= c <= 'Z' }
  predicate IsDigit(c: char) { '0' <= c <= '9' }
  predicate IsSpecial(c: char) { c in "@$!%*?&" }

  predicate InAlphabet(c: char)
  {
    IsLower(c) || IsUpper(c) || IsDigit(c) || IsSpecial(c)
  }

  predicate HasLower(s: string) { exists i :: 0 <= i < |s| && IsLower(s[i]) }
  predicate HasUpper(s: string) { exists i :: 0 <= i < |s| && IsUpper(s[i]) }
  predicate HasDigit(s: string) { exists i :: 0 <= i < |s| && IsDigit(s[i]) }
  predicate HasSpecial(s: string) { exists i :: 0 <= i < |s| && IsSpecial(s[i]) }

  /** The four lookaheads and the character class of the password pattern. */
  predicate PasswordBody(s: string)
  {
    (forall i :: 0 <= i < |s| ==> InAlphabet(s[i])) &&
    HasLower(s) && HasUpper(s) && HasDigit(s) && HasSpecial(s)
  }

  /** `re.match(^(?=.*[a-z])(?=.*[A-Z])(?=.*\d)(?=.*[@$!%*?&])[A-Za-z\d@$!%*?&]{lo,hi}$, v)`:
      `$` also matches just before a final newline, so the body may be followed by one
      "\n". `hi` is None for an open repetition `{lo,}`. */
  predicate PatternMatchesAsWritten(v: string, lo: nat, hi: Option<nat>)
  {
    var bodyOk := (b: string) => PasswordBody(b) && lo <= |b| && (hi.None? || |b| <= hi.value);
    bodyOk(v) || (|v| >= 1 && v[|v| - 1] == '\n' && bodyOk(v[..|v| - 1]))
  }

  /** The password field as written: the 8..60 length of the field, then the pattern. */
  predicate PasswordAcceptedAsWritten(v: string, hi: Option<nat>)
  {
    LengthIn(v, 8, 60) && PatternMatchesAsWritten(v, 8, hi)
  }

  /** The rule as intended: 8..60 characters, only letters, digits and `@$!%*?&`, and
      at least one lower-case letter, upper-case letter, digit and special character. */
  predicate PasswordRule(v: string)
  {
    LengthIn(v, 8, 60) && PasswordBody(v)
  }

  /** A password ending in a newline passes the pattern. */
  lemma TrailingNewlinePasses()
    ensures PasswordAcceptedAsWritten("Abcdef1!\n", Some(60)) && !PasswordRule("Abcdef1!\n")
  {
    var v := "Abcdef1!\n";
    assert v[..|v| - 1] == "Abcdef1!";
    assert IsLower(v[1]) && IsUpper(v[0]) && IsDigit(v[6]) && IsSpecial(v[7]);
    assert !InAlphabet(v[8]);
  }

  /** Without a final newline the pattern is exactly the intended rule, whichever upper
      bound it writes: the company form's `{8,}` is capped by the field's 60. */
  lemma PatternAgreesWithoutNewline(v: string, hi: Option<nat>)
    requires |v| == 0 || v[|v| - 1] != '\n'
    requires hi.None? || hi.value >= 60
    ensures PasswordAcceptedAsWritten(v, hi) <==> PasswordRule(v)
  {
  }

  /** The company form and the user form accept the same passwords. */
  lemma CompanyAndUserPasswordsAgree(v: string)
    ensures PasswordAcceptedAsWritten(v, None) <==> PasswordAcceptedAsWritten(v, Some(60))
  {
    if |v| >= 1 && v[|v| - 1] == '\n' {
      assert |v[..|v| - 1]| == |v| - 1;
    }
  }

  /** Every password the intended rule accepts holds each character class and no
      character outside the alphabet, in particular no line break. */
  lemma PasswordRuleExcludesNewline(v: string, i: nat)
    requires PasswordRule(v) && i < |v|
    ensures v[i] != '\n' && 8 <= |v| <= 60
  {
  }

  // ---------------------------------------------------------------------------------
  // Accounts and comments

  datatype UserRegisterRequest = UserRegisterRequest(
    name: string, surname: string, email: string, avatarUrl: Option<string>,
    age: int, country: string, password: string)

  predicate ValidEmail(e: string, isEmail: Lookup)
  {
    LengthIn(e, 8, 120) && isEmail(e)
  }

  /** `UserRegister`, with the intended password rule. */
  predicate ValidUserRegister(req: UserRegisterRequest, isEmail: Lookup, isUrl: Lookup, isCountry: Lookup)
  {
    LengthIn(req.name, 1, 100) && LengthIn(req.surname, 1, 120) &&
    ValidEmail(req.email, isEmail) && ValidUrl(req.avatarUrl, isUrl) &&
    ValidTargetSettings(req.age, req.country, isCountry) &&
    PasswordRule(req.password)
  }

  /** `SignIn` (user and company forms alike). */
  predicate ValidSignIn(email: string, password: string, isEmail: Lookup)
  {
    ValidEmail(email, isEmail) && PasswordRule(password)
  }

  /** `CompanyCreate`. */
  predicate ValidCompanyCreate(name: string, email: string, password: string, isEmail: Lookup)
  {
    LengthIn(name, 5, 50) && ValidEmail(email, isEmail) && PasswordRule(password)
  }

  /** Whoever could register can also sign in with the same e-mail and password. */
  lemma RegisteredCanSignIn(req: UserRegisterRequest, isEmail: Lookup, isUrl: Lookup, isCountry: Lookup)
    requires ValidUserRegister(req, isEmail, isUrl, isCountry)
    ensures ValidSignIn(req.email, req.password, isEmail)
  {
  }

  /** `CommentText`: 10..1000 characters. */
  predicate ValidCommentText(text: string)
  {
    LengthIn(text, 10, 1000)
  }
}
