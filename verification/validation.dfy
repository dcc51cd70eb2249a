/**
  The request-body validation rules and the middleware that turns their
  errors into a 400 answer. A rule is a chain over one body field: it may be
  optional, and it runs sanitizers (which rewrite the field) and validators
  (which record an error with the chain's message) in order.
 */
module Validation {
  import opened Common
  import Text

  /** A request body: field name to string value. */
  type Body = map<string, string>

  /** The string predicates and the e-mail sanitizer the rules borrow from
      the validation library, left uninterpreted. */
  datatype Library = Library(
    isEmail: string -> bool,
    normalizeEmail: string -> string,
    isISO8601: string -> bool)

  datatype Sanitizer = Trim | NormalizeEmail

  datatype Validator =
    | IsEmail
    | IsISO8601
    | NotEmpty
    | MinLength(min: nat)
    | IsIn(values: seq<string>)

  /** One element of a chain; a validator carries the message it reports. */
  datatype Link = Sanitize(sanitizer: Sanitizer) | Check(validator: Validator, message: string)

  datatype Chain = Chain(field: string, optional: bool, links: seq<Link>)

  /** One entry of the 400 answer: the field, the value the failing
      validator read (`None` for a missing field), and the chain's message. */
  datatype FieldError = FieldError(field: string, value: Option<string>, message: string)

  /** The body as the later chains and the handler see it, and the errors
      recorded so far. */
  datatype Checked = Checked(body: Body, errors: seq<FieldError>)

  /** The value a chain reads: a missing field reads as the empty string. */
  function Field(body: Body, f: string): string {
    if f in body then body[f] else ""
  }

  /** The field's value, or `None` when the body lacks it. */
  function Lookup(body: Body, f: string): Option<string> {
    if f in body then Some(Field(body, f)) else None
  }

  /** The field's value once trimmed, or `None` when the body lacks it. */
  function Trimmed(body: Body, f: string): Option<string> {
    if f in body then Some(Text.Trim(Field(body, f))) else None
  }

  function Sanitized(lib: Library, s: Sanitizer, value: string): string {
    match s
    case Trim => Text.Trim(value)
    case NormalizeEmail => lib.normalizeEmail(value)
  }

  predicate Passes(lib: Library, v: Validator, value: string) {
    match v
    case IsEmail => lib.isEmail(value)
    case IsISO8601 => lib.isISO8601(value)
    case NotEmpty => value != ""
    case MinLength(n) => Text.Length(value) >= n
    case IsIn(values) => value in values
  }

  /** A failed validator: the value it read and the message it reports. */
  datatype Failure = Failure(value: string, message: string)

  /** The value after a chain's links, and the validators that failed, in
      order. */
  datatype Outcome = Outcome(value: string, failures: seq<Failure>)

  function RunLinks(lib: Library, value: string, links: seq<Link>): (o: Outcome)
    ensures |o.failures| <= |links|
    decreases |links|
  {
    if links == [] then
      Outcome(value, [])
    else
      match links[0]
      case Sanitize(s) =>
        RunLinks(lib, Sanitized(lib, s, value), links[1..])
      case Check(v, m) =>
        var rest := RunLinks(lib, value, links[1..]);
        Outcome(rest.value, (if Passes(lib, v, value) then [] else [Failure(value, m)]) + rest.failures)
  }

  /** The errors of a chain over `field`; a missing field has no value to
      report. */
  function Report(field: string, present: bool, failures: seq<Failure>): seq<FieldError> {
    seq(|failures|, i requires 0 <= i < |failures| =>
      FieldError(field, if present then Some(failures[i].value) else None, failures[i].message))
  }

  /** One chain: an optional chain skips a missing field; otherwise the
      errors of its failed validators are appended and, when the field is
      present, its sanitized value replaces it. */
  function RunChain(lib: Library, ch: Chain, c: Checked): (r: Checked)
    ensures ch.optional && ch.field !in c.body ==> r == c
    ensures r.body.Keys == c.body.Keys
  {
    if ch.optional && ch.field !in c.body then
      c
    else
      var o := RunLinks(lib, Field(c.body, ch.field), ch.links);
      Checked(if ch.field in c.body then c.body[ch.field := o.value] else c.body,
              c.errors + Report(ch.field, ch.field in c.body, o.failures))
  }

  /** The chains of a route, run one after the other. */
  function RunChains(lib: Library, chains: seq<Chain>, c: Checked): (r: Checked)
    ensures r.body.Keys == c.body.Keys
    decreases |chains|
  {
    if chains == [] then c else RunChains(lib, chains[1..], RunChain(lib, chains[0], c))
  }

  // ---------------------------------------------------------------------
  // the rules

  const EmailMessage: string := "Please provide a valid email"
  const PasswordLengthMessage: string := "Password must be at least 6 characters long"
  const FirstNameMessage: string := "First name cannot be empty"
  const LastNameMessage: string := "Last name cannot be empty"
  const PasswordRequiredMessage: string := "Password is required"
  const CompanyMessage: string := "Company name is required"
  const PositionMessage: string := "Position is required"
  const StatusMessage: string := "Invalid status"
  const DateMessage: string := "Invalid date format"

  const EmailChain: Chain := Chain("email", false, [Check(IsEmail, EmailMessage), Sanitize(NormalizeEmail)])

  const RegisterRules: seq<Chain> := [
    EmailChain,
    Chain("password", false, [Check(MinLength(6), PasswordLengthMessage)]),
    Chain("firstName", true, [Sanitize(Trim), Check(MinLength(1), FirstNameMessage)]),
    Chain("lastName", true, [Sanitize(Trim), Check(MinLength(1), LastNameMessage)])
  ]

  const LoginRules: seq<Chain> := [
    EmailChain,
    Chain("password", false, [Check(NotEmpty, PasswordRequiredMessage)])
  ]

  const ApplicationRules: seq<Chain> := [
    Chain("company", false, [Sanitize(Trim), Check(NotEmpty, CompanyMessage)]),
    Chain("position", false, [Sanitize(Trim), Check(NotEmpty, PositionMessage)]),
    Chain("status", true, [Check(IsIn(ApplicationStatuses), StatusMessage)]),
    Chain("applicationDate", true, [Check(IsISO8601, DateMessage)])
  ]

  // ---------------------------------------------------------------------
  // the middleware

  datatype Decision = Next | Reject(status: nat, errors: seq<FieldError>)

  /** `validate`: passes the request on when no chain recorded an error and
      answers 400 with the errors otherwise. */
  function Validate(c: Checked): (d: Decision)
    ensures d.Next? <==> c.errors == []
    ensures d.Reject? ==> d.status == 400 && d.errors == c.errors && d.errors != []
  {
    if c.errors == [] then Next else Reject(400, c.errors)
  }

  // ---------------------------------------------------------------------
  // what each rule set accepts, stated field by field

  /** Neither missing nor made only of whitespace. */
  ghost predicate Filled(body: Body, f: string) {
    f in body && !Text.Blank(body[f])
  }

  /** A present optional name keeps at least one character, by the
      validator's count, once trimmed. */
  ghost predicate NameOk(body: Body, f: string) {
    f in body ==> Text.Length(Text.Trim(body[f])) >= 1
  }

  ghost predicate RegistrationAcceptable(lib: Library, body: Body) {
    && lib.isEmail(Field(body, "email"))
    && Text.Length(Field(body, "password")) >= 6
    && NameOk(body, "firstName")
    && NameOk(body, "lastName")
  }

  ghost predicate LoginAcceptable(lib: Library, body: Body) {
    lib.isEmail(Field(body, "email")) && Field(body, "password") != ""
  }

  ghost predicate ApplicationAcceptable(lib: Library, body: Body) {
    && Filled(body, "company")
    && Filled(body, "position")
    && ("status" in body ==> body["status"] in ApplicationStatuses)
    && ("applicationDate" in body ==> lib.isISO8601(body["applicationDate"]))
  }

  /** The error list of a chain with one validator that reports `message`
      and the value it read exactly when `ok` fails. */
  function Expect(ok: bool, field: string, value: Option<string>, message: string): seq<FieldError> {
    if ok then [] else [FieldError(field, value, message)]
  }

  /** An optional present field is rewritten only when it is present. */
  function Rewrite(body: Body, f: string, value: string): Body {
    if f in body then body[f := value] else body
  }

  lemma RunChainsCons(lib: Library, ch: Chain, rest: seq<Chain>, c: Checked)
    ensures RunChains(lib, [ch] + rest, c) == RunChains(lib, rest, RunChain(lib, ch, c))
  {
    assert ([ch] + rest)[1..] == rest;
  }

  lemma ReportOne(f: string, present: bool, ok: bool, value: string, m: string)
    ensures Report(f, present, if ok then [] else [Failure(value, m)])
         == Expect(ok, f, if present then Some(value) else None, m)
  {
  }

  /** A chain with a single validator, optionally preceded or followed by a
      sanitizer, reports its message once at most. */
  lemma LinksCheck(lib: Library, value: string, v: Validator, m: string)
    ensures RunLinks(lib, value, [Check(v, m)])
         == Outcome(value, if Passes(lib, v, value) then [] else [Failure(value, m)])
  {
    assert [Check(v, m)][1..] == [];
  }

  lemma LinksSanitizeCheck(lib: Library, value: string, s: Sanitizer, v: Validator, m: string)
    ensures var w := Sanitized(lib, s, value);
      RunLinks(lib, value, [Sanitize(s), Check(v, m)])
         == Outcome(w, if Passes(lib, v, w) then [] else [Failure(w, m)])
  {
    assert [Sanitize(s), Check(v, m)][1..] == [Check(v, m)];
    LinksCheck(lib, Sanitized(lib, s, value), v, m);
  }

  lemma LinksCheckSanitize(lib: Library, value: string, v: Validator, m: string, s: Sanitizer)
    ensures RunLinks(lib, value, [Check(v, m), Sanitize(s)])
         == Outcome(Sanitized(lib, s, value), if Passes(lib, v, value) then [] else [Failure(value, m)])
  {
    var links := [Check(v, m), Sanitize(s)];
    var tail := [Sanitize(s)];
    assert links[1..] == tail;
    assert tail[1..] == [];
    assert RunLinks(lib, value, tail) == Outcome(Sanitized(lib, s, value), []);
  }

  /** The e-mail chain: reports a rejected address and writes back the
      normalized address of a present field. */
  lemma EmailStep(lib: Library, c: Checked)
    ensures RunChain(lib, EmailChain, c)
         == Checked(Rewrite(c.body, "email", lib.normalizeEmail(Field(c.body, "email"))),
                    c.errors + Expect(lib.isEmail(Field(c.body, "email")), "email", Lookup(c.body, "email"), EmailMessage))
  {
    var value := Field(c.body, "email");
    LinksCheckSanitize(lib, value, IsEmail, EmailMessage, NormalizeEmail);
    ReportOne("email", "email" in c.body, lib.isEmail(value), value, EmailMessage);
  }

  /** A field checked by one validator and never rewritten. */
  lemma CheckStep(lib: Library, f: string, optional: bool, v: Validator, m: string, c: Checked)
    requires !optional || f in c.body
    ensures RunChain(lib, Chain(f, optional, [Check(v, m)]), c)
         == Checked(c.body, c.errors + Expect(Passes(lib, v, Field(c.body, f)), f, Lookup(c.body, f), m))
  {
    var value := Field(c.body, f);
    LinksCheck(lib, value, v, m);
    ReportOne(f, f in c.body, Passes(lib, v, value), value, m);
    if f in c.body {
      assert c.body[f := value] == c.body;
    }
  }

  /** A field trimmed and then checked by one validator. */
  lemma TrimStep(lib: Library, f: string, optional: bool, v: Validator, m: string, c: Checked)
    requires !optional || f in c.body
    ensures var w := Text.Trim(Field(c.body, f));
      RunChain(lib, Chain(f, optional, [Sanitize(Trim), Check(v, m)]), c)
         == Checked(Rewrite(c.body, f, w), c.errors + Expect(Passes(lib, v, w), f, Trimmed(c.body, f), m))
  {
    var value := Field(c.body, f);
    var w := Text.Trim(value);
    LinksSanitizeCheck(lib, value, Trim, v, m);
    ReportOne(f, f in c.body, Passes(lib, v, w), w, m);
  }

  /** After trimming, "not empty" means the value was not blank; "at least
      one character" by the validator's count implies it, and means the same
      for a value without variation selectors. */
  lemma TrimmedNonEmpty(s: string)
    ensures Text.Trim(s) != "" <==> !Text.Blank(s)
    ensures Text.Length(Text.Trim(s)) >= 1 ==> !Text.Blank(s)
    ensures (forall i :: 0 <= i < |s| ==> !Text.IsVariationSelector(s[i])) ==>
      (Text.Length(Text.Trim(s)) >= 1 <==> !Text.Blank(s))
  {
    Text.TrimLength(s);
  }

  lemma {:induction false} RouteOfFour(lib: Library, rules: seq<Chain>, start: Checked)
    requires |rules| == 4
    ensures RunChains(lib, rules, start)
         == RunChain(lib, rules[3], RunChain(lib, rules[2], RunChain(lib, rules[1], RunChain(lib, rules[0], start))))
  {
    var c1 := RunChain(lib, rules[0], start);
    var c2 := RunChain(lib, rules[1], c1);
    var c3 := RunChain(lib, rules[2], c2);
    var c4 := RunChain(lib, rules[3], c3);
    assert RunChains(lib, rules[4..], c4) == c4;
    assert rules[3..][1..] == rules[4..];
    assert RunChains(lib, rules[3..], c3) == c4;
    assert rules[2..][1..] == rules[3..];
    assert RunChains(lib, rules[2..], c2) == c4;
    assert rules[1..][1..] == rules[2..];
    assert RunChains(lib, rules[1..], c1) == c4;
  }

  lemma {:induction false} RouteOfTwo(lib: Library, rules: seq<Chain>, start: Checked)
    requires |rules| == 2
    ensures RunChains(lib, rules, start) == RunChain(lib, rules[1], RunChain(lib, rules[0], start))
  {
    var c1 := RunChain(lib, rules[0], start);
    var c2 := RunChain(lib, rules[1], c1);
    assert RunChains(lib, rules[2..], c2) == c2;
    assert rules[1..][1..] == rules[2..];
    assert RunChains(lib, rules[1..], c1) == c2;
  }

  /** An optional name: trimmed when present, and reported when nothing is
      left. */
  lemma OptionalNameStep(lib: Library, f: string, m: string, c: Checked)
    ensures RunChain(lib, Chain(f, true, [Sanitize(Trim), Check(MinLength(1), m)]), c)
         == Checked(Rewrite(c.body, f, Text.Trim(Field(c.body, f))),
                    c.errors + Expect(NameOk(c.body, f), f, Trimmed(c.body, f), m))
  {
    if f in c.body {
      TrimStep(lib, f, true, MinLength(1), m, c);
    } else {
      assert c.errors + [] == c.errors;
    }
  }

  /** An optional field checked by one validator when present. */
  lemma OptionalCheckStep(lib: Library, f: string, v: Validator, m: string, c: Checked)
    ensures RunChain(lib, Chain(f, true, [Check(v, m)]), c)
         == Checked(c.body, c.errors + Expect(f !in c.body || Passes(lib, v, c.body[f]), f, Lookup(c.body, f), m))
  {
    if f in c.body {
      CheckStep(lib, f, true, v, m, c);
    } else {
      assert c.errors + [] == c.errors;
    }
  }

  /** A required field that must not be blank once trimmed. */
  lemma RequiredTextStep(lib: Library, f: string, m: string, c: Checked)
    ensures RunChain(lib, Chain(f, false, [Sanitize(Trim), Check(NotEmpty, m)]), c)
         == Checked(Rewrite(c.body, f, Text.Trim(Field(c.body, f))),
                    c.errors + Expect(Filled(c.body, f), f, Trimmed(c.body, f), m))
  {
    TrimStep(lib, f, false, NotEmpty, m, c);
    TrimmedNonEmpty(Field(c.body, f));
    if f !in c.body {
      assert Text.Blank(Field(c.body, f));
    }
  }

  /** Rewriting one field leaves every other field as it was. */
  lemma RewriteOther(body: Body, f: string, value: string, g: string)
    requires f != g
    ensures g in Rewrite(body, f, value) <==> g in body
    ensures Field(Rewrite(body, f, value), g) == Field(body, g)
    ensures Lookup(Rewrite(body, f, value), g) == Lookup(body, g)
    ensures Trimmed(Rewrite(body, f, value), g) == Trimmed(body, g)
  {
  }

  /** Rewriting a field keeps the field names. */
  lemma RewriteKeys(body: Body, f: string, value: string)
    ensures Rewrite(body, f, value).Keys == body.Keys
    ensures Field(Rewrite(body, f, value), f) == if f in body then value else ""
  {
  }

  /** The four registration chains, one after the other. */
  lemma RegistrationSteps(lib: Library, body: Body)
    ensures RunChains(lib, RegisterRules, Checked(body, [])).body
         == Rewrite(Rewrite(Rewrite(body, "email", lib.normalizeEmail(Field(body, "email"))),
                            "firstName", Text.Trim(Field(body, "firstName"))),
                    "lastName", Text.Trim(Field(body, "lastName")))
    ensures RunChains(lib, RegisterRules, Checked(body, [])).errors
         == Expect(lib.isEmail(Field(body, "email")), "email", Lookup(body, "email"), EmailMessage)
          + Expect(Text.Length(Field(body, "password")) >= 6, "password", Lookup(body, "password"), PasswordLengthMessage)
          + Expect(NameOk(body, "firstName"), "firstName", Trimmed(body, "firstName"), FirstNameMessage)
          + Expect(NameOk(body, "lastName"), "lastName", Trimmed(body, "lastName"), LastNameMessage)
  {
    var start := Checked(body, []);
    RouteOfFour(lib, RegisterRules, start);
    RegistrationFirstSteps(lib, body);
    RegistrationNameSteps(lib, body, RunChain(lib, RegisterRules[1], RunChain(lib, RegisterRules[0], start)));
  }

  /** The two name chains of registration, run after the email chain has
      rewritten the email. */
  lemma RegistrationNameSteps(lib: Library, body: Body, c: Checked)
    requires c.body == Rewrite(body, "email", lib.normalizeEmail(Field(body, "email")))
    ensures var c4 := RunChain(lib, RegisterRules[3], RunChain(lib, RegisterRules[2], c));
      && c4.body == Rewrite(Rewrite(c.body, "firstName", Text.Trim(Field(body, "firstName"))),
                            "lastName", Text.Trim(Field(body, "lastName")))
      && c4.errors == c.errors
                    + Expect(NameOk(body, "firstName"), "firstName", Trimmed(body, "firstName"), FirstNameMessage)
                    + Expect(NameOk(body, "lastName"), "lastName", Trimmed(body, "lastName"), LastNameMessage)
  {
    assert RegisterRules[2] == Chain("firstName", true, [Sanitize(Trim), Check(MinLength(1), FirstNameMessage)]);
    assert RegisterRules[3] == Chain("lastName", true, [Sanitize(Trim), Check(MinLength(1), LastNameMessage)]);
    RewriteOther(body, "email", lib.normalizeEmail(Field(body, "email")), "firstName");
    RewriteOther(body, "email", lib.normalizeEmail(Field(body, "email")), "lastName");
    NameStepFrom(lib, "firstName", FirstNameMessage, c, body);
    var c3 := RunChain(lib, RegisterRules[2], c);
    RewriteOther(c.body, "firstName", Text.Trim(Field(body, "firstName")), "lastName");
    NameStepFrom(lib, "lastName", LastNameMessage, c3, body);
  }

  /** An optional name chain run on a body that holds the same value as
      `body` in that field. */
  lemma NameStepFrom(lib: Library, f: string, m: string, c: Checked, body: Body)
    requires (f in c.body <==> f in body) && Field(c.body, f) == Field(body, f)
    ensures RunChain(lib, Chain(f, true, [Sanitize(Trim), Check(MinLength(1), m)]), c)
         == Checked(Rewrite(c.body, f, Text.Trim(Field(body, f))),
                    c.errors + Expect(NameOk(body, f), f, Trimmed(body, f), m))
  {
    OptionalNameStep(lib, f, m, c);
    assert NameOk(c.body, f) == NameOk(body, f);
    assert Trimmed(c.body, f) == Trimmed(body, f);
  }

  /** The email and password chains of registration. */
  lemma RegistrationFirstSteps(lib: Library, body: Body)
    ensures var c := RunChain(lib, RegisterRules[1], RunChain(lib, RegisterRules[0], Checked(body, [])));
      && c.body == Rewrite(body, "email", lib.normalizeEmail(Field(body, "email")))
      && c.errors == Expect(lib.isEmail(Field(body, "email")), "email", Lookup(body, "email"), EmailMessage)
                   + Expect(Text.Length(Field(body, "password")) >= 6, "password", Lookup(body, "password"), PasswordLengthMessage)
  {
    var start := Checked(body, []);
    assert RegisterRules[0] == EmailChain;
    assert RegisterRules[1] == Chain("password", false, [Check(MinLength(6), PasswordLengthMessage)]);
    var c1 := RunChain(lib, RegisterRules[0], start);
    EmailStep(lib, start);
    var e1 := Expect(lib.isEmail(Field(body, "email")), "email", Lookup(body, "email"), EmailMessage);
    var b1 := Rewrite(body, "email", lib.normalizeEmail(Field(body, "email")));
    assert c1 == Checked(b1, e1);
    RewriteOther(body, "email", lib.normalizeEmail(Field(body, "email")), "password");
    PasswordLengthStep(lib, c1);
    assert Field(b1, "password") == Field(body, "password");
    assert Lookup(b1, "password") == Lookup(body, "password");
  }

  /** The registration password chain: reports a password shorter than six
      characters, together with the password itself. */
  lemma PasswordLengthStep(lib: Library, c: Checked)
    ensures RunChain(lib, Chain("password", false, [Check(MinLength(6), PasswordLengthMessage)]), c)
         == Checked(c.body, c.errors + Expect(Text.Length(Field(c.body, "password")) >= 6, "password",
                                              Lookup(c.body, "password"), PasswordLengthMessage))
  {
    CheckStep(lib, "password", false, MinLength(6), PasswordLengthMessage, c);
  }

  /** What the registration chains leave in each field. */
  lemma RegistrationFields(body: Body, email: string, first: string, last: string)
    ensures var b := Rewrite(Rewrite(Rewrite(body, "email", email), "firstName", first), "lastName", last);
      && b.Keys == body.Keys
      && ("email" in body ==> b["email"] == email)
      && ("password" in body ==> b["password"] == body["password"])
      && ("firstName" in body ==> b["firstName"] == first)
      && ("lastName" in body ==> b["lastName"] == last)
  {
    var b1 := Rewrite(body, "email", email);
    var b3 := Rewrite(b1, "firstName", first);
    RewriteKeys(body, "email", email);
    RewriteKeys(b1, "firstName", first);
    RewriteKeys(b3, "lastName", last);
    RewriteOther(body, "email", email, "password");
    RewriteOther(b1, "firstName", first, "password");
    RewriteOther(b3, "lastName", last, "password");
    RewriteOther(b1, "firstName", first, "email");
    RewriteOther(b3, "lastName", last, "email");
    RewriteOther(body, "email", email, "firstName");
    RewriteOther(b3, "lastName", last, "firstName");
    RewriteOther(body, "email", email, "lastName");
    RewriteOther(b1, "firstName", first, "lastName");
  }

  /** `registerValidation` on a body: one error per failed rule, in rule
      order, and the sanitized body. */
  function CheckRegistration(lib: Library, body: Body): (r: Checked)
    ensures r.errors
         == Expect(lib.isEmail(Field(body, "email")), "email", Lookup(body, "email"), EmailMessage)
          + Expect(Text.Length(Field(body, "password")) >= 6, "password", Lookup(body, "password"), PasswordLengthMessage)
          + Expect(NameOk(body, "firstName"), "firstName", Trimmed(body, "firstName"), FirstNameMessage)
          + Expect(NameOk(body, "lastName"), "lastName", Trimmed(body, "lastName"), LastNameMessage)
    ensures r.errors == [] <==> RegistrationAcceptable(lib, body)
    ensures r.body.Keys == body.Keys
    ensures "email" in body ==> r.body["email"] == lib.normalizeEmail(body["email"])
    ensures "password" in body ==> r.body["password"] == body["password"]
    ensures "firstName" in body ==> r.body["firstName"] == Text.Trim(body["firstName"])
    ensures "lastName" in body ==> r.body["lastName"] == Text.Trim(body["lastName"])
  {
    RegistrationSteps(lib, body);
    RegistrationFields(body, lib.normalizeEmail(Field(body, "email")),
                       Text.Trim(Field(body, "firstName")), Text.Trim(Field(body, "lastName")));
    RunChains(lib, RegisterRules, Checked(body, []))
  }

  /** The two login chains, one after the other. */
  lemma LoginSteps(lib: Library, body: Body)
    ensures RunChains(lib, LoginRules, Checked(body, [])).body
         == Rewrite(body, "email", lib.normalizeEmail(Field(body, "email")))
    ensures RunChains(lib, LoginRules, Checked(body, [])).errors
         == Expect(lib.isEmail(Field(body, "email")), "email", Lookup(body, "email"), EmailMessage)
          + Expect(Field(body, "password") != "", "password", Lookup(body, "password"), PasswordRequiredMessage)
  {
    var start := Checked(body, []);
    RouteOfTwo(lib, LoginRules, start);
    assert LoginRules[0] == EmailChain;
    assert LoginRules[1] == Chain("password", false, [Check(NotEmpty, PasswordRequiredMessage)]);
    var n := lib.normalizeEmail(Field(body, "email"));
    EmailStep(lib, start);
    var c1 := RunChain(lib, LoginRules[0], start);
    assert c1 == Checked(Rewrite(body, "email", n), Expect(lib.isEmail(Field(body, "email")), "email", Lookup(body, "email"), EmailMessage));
    RewriteOther(body, "email", n, "password");
    CheckStep(lib, "password", false, NotEmpty, PasswordRequiredMessage, c1);
  }

  /** `loginValidation` on a body. */
  function CheckLogin(lib: Library, body: Body): (r: Checked)
    ensures r.errors
         == Expect(lib.isEmail(Field(body, "email")), "email", Lookup(body, "email"), EmailMessage)
          + Expect(Field(body, "password") != "", "password", Lookup(body, "password"), PasswordRequiredMessage)
    ensures r.errors == [] <==> LoginAcceptable(lib, body)
    ensures r.body.Keys == body.Keys
    ensures "email" in body ==> r.body["email"] == lib.normalizeEmail(body["email"])
    ensures "password" in body ==> r.body["password"] == body["password"]
  {
    var n := lib.normalizeEmail(Field(body, "email"));
    LoginSteps(lib, body);
    RewriteKeys(body, "email", n);
    RewriteOther(body, "email", n, "password");
    RunChains(lib, LoginRules, Checked(body, []))
  }

  /** The company and position chains. */
  lemma ApplicationTextSteps(lib: Library, body: Body)
    ensures RunChain(lib, ApplicationRules[1], RunChain(lib, ApplicationRules[0], Checked(body, []))).body
         == Rewrite(Rewrite(body, "company", Text.Trim(Field(body, "company"))),
                    "position", Text.Trim(Field(body, "position")))
    ensures RunChain(lib, ApplicationRules[1], RunChain(lib, ApplicationRules[0], Checked(body, []))).errors
         == Expect(Filled(body, "company"), "company", Trimmed(body, "company"), CompanyMessage)
          + Expect(Filled(body, "position"), "position", Trimmed(body, "position"), PositionMessage)
  {
    var start := Checked(body, []);
    assert ApplicationRules[0] == Chain("company", false, [Sanitize(Trim), Check(NotEmpty, CompanyMessage)]);
    assert ApplicationRules[1] == Chain("position", false, [Sanitize(Trim), Check(NotEmpty, PositionMessage)]);
    var tc := Text.Trim(Field(body, "company"));
    var b1 := Rewrite(body, "company", tc);
    RequiredTextStep(lib, "company", CompanyMessage, start);
    var c1 := RunChain(lib, ApplicationRules[0], start);
    assert c1 == Checked(b1, Expect(Filled(body, "company"), "company", Trimmed(body, "company"), CompanyMessage));
    RewriteOther(body, "company", tc, "position");
    FilledAgrees(b1, body, "position");
    RequiredTextStep(lib, "position", PositionMessage, c1);
  }

  /** The status and date chains, which never rewrite the body. */
  lemma ApplicationOptionalSteps(lib: Library, c: Checked)
    ensures RunChain(lib, ApplicationRules[3], RunChain(lib, ApplicationRules[2], c)).body == c.body
    ensures RunChain(lib, ApplicationRules[3], RunChain(lib, ApplicationRules[2], c)).errors
         == c.errors
          + Expect("status" !in c.body || c.body["status"] in ApplicationStatuses, "status", Lookup(c.body, "status"), StatusMessage)
          + Expect("applicationDate" !in c.body || lib.isISO8601(c.body["applicationDate"]), "applicationDate",
                   Lookup(c.body, "applicationDate"), DateMessage)
  {
    assert ApplicationRules[2] == Chain("status", true, [Check(IsIn(ApplicationStatuses), StatusMessage)]);
    assert ApplicationRules[3] == Chain("applicationDate", true, [Check(IsISO8601, DateMessage)]);
    OptionalCheckStep(lib, "status", IsIn(ApplicationStatuses), StatusMessage, c);
    var c3 := RunChain(lib, ApplicationRules[2], c);
    OptionalCheckStep(lib, "applicationDate", IsISO8601, DateMessage, c3);
  }

  /** Two bodies that agree on a field agree on whether it is filled. */
  lemma FilledAgrees(a: Body, b: Body, f: string)
    requires f in a <==> f in b
    requires Field(a, f) == Field(b, f)
    ensures Filled(a, f) == Filled(b, f)
  {
  }

  /** The four application chains, one after the other. */
  lemma ApplicationSteps(lib: Library, body: Body)
    ensures RunChains(lib, ApplicationRules, Checked(body, [])).body
         == Rewrite(Rewrite(body, "company", Text.Trim(Field(body, "company"))),
                    "position", Text.Trim(Field(body, "position")))
    ensures RunChains(lib, ApplicationRules, Checked(body, [])).errors
         == Expect(Filled(body, "company"), "company", Trimmed(body, "company"), CompanyMessage)
          + Expect(Filled(body, "position"), "position", Trimmed(body, "position"), PositionMessage)
          + Expect("status" !in body || body["status"] in ApplicationStatuses, "status", Lookup(body, "status"), StatusMessage)
          + Expect("applicationDate" !in body || lib.isISO8601(body["applicationDate"]), "applicationDate",
                   Lookup(body, "applicationDate"), DateMessage)
  {
    var start := Checked(body, []);
    var c2 := RunChain(lib, ApplicationRules[1], RunChain(lib, ApplicationRules[0], start));
    RouteOfFour(lib, ApplicationRules, start);
    ApplicationTextSteps(lib, body);
    ApplicationOptionalSteps(lib, c2);
    UntouchedByText(body, "status");
    UntouchedByText(body, "applicationDate");
  }

  /** A field other than company and position reads the same after the two
      text chains. */
  lemma UntouchedByText(body: Body, g: string)
    requires g != "company" && g != "position"
    ensures var b := Rewrite(Rewrite(body, "company", Text.Trim(Field(body, "company"))),
                             "position", Text.Trim(Field(body, "position")));
      && (g in b <==> g in body)
      && (g in body ==> b[g] == body[g])
      && Lookup(b, g) == Lookup(body, g)
  {
    var b1 := Rewrite(body, "company", Text.Trim(Field(body, "company")));
    RewriteOther(body, "company", Text.Trim(Field(body, "company")), g);
    RewriteOther(b1, "position", Text.Trim(Field(body, "position")), g);
  }

  /** What the application chains leave in each field. */
  lemma ApplicationFields(body: Body, company: string, position: string)
    ensures var b := Rewrite(Rewrite(body, "company", company), "position", position);
      && b.Keys == body.Keys
      && ("company" in body ==> b["company"] == company)
      && ("position" in body ==> b["position"] == position)
      && ("status" in body ==> b["status"] == body["status"])
      && ("applicationDate" in body ==> b["applicationDate"] == body["applicationDate"])
      && KeepsOtherFields(body, b)
  {
    var b1 := Rewrite(body, "company", company);
    forall f | f in body && f != "company" && f != "position"
      ensures f in Rewrite(b1, "position", position) && Rewrite(b1, "position", position)[f] == body[f]
    {
      RewriteOther(body, "company", company, f);
      RewriteOther(b1, "position", position, f);
    }
    RewriteKeys(body, "company", company);
    RewriteKeys(b1, "position", position);
    RewriteOther(b1, "position", position, "company");
    RewriteOther(body, "company", company, "position");
    RewriteOther(body, "company", company, "status");
    RewriteOther(b1, "position", position, "status");
    RewriteOther(body, "company", company, "applicationDate");
    RewriteOther(b1, "position", position, "applicationDate");
  }

  /** Every field other than company and position is still there, with the
      value it had. */
  ghost predicate KeepsOtherFields(before: Body, after: Body) {
    forall f :: f in before && f != "company" && f != "position" ==> f in after && after[f] == before[f]
  }

  /** `applicationValidation` on a body: the sanitized body. What it
      reports is stated by `ApplicationErrors`. */
  function CheckApplication(lib: Library, body: Body): (r: Checked)
    ensures r.body.Keys == body.Keys
    ensures "company" in body ==> r.body["company"] == Text.Trim(body["company"])
    ensures "position" in body ==> r.body["position"] == Text.Trim(body["position"])
    ensures KeepsOtherFields(body, r.body)
  {
    var r := RunChains(lib, ApplicationRules, Checked(body, []));
    ApplicationBody(lib, body);
    r
  }

  /** The body the application rules leave: company and position trimmed,
      every other field as it was. */
  lemma ApplicationBody(lib: Library, body: Body)
    ensures var b := RunChains(lib, ApplicationRules, Checked(body, [])).body;
      && b.Keys == body.Keys
      && ("company" in body ==> b["company"] == Text.Trim(body["company"]))
      && ("position" in body ==> b["position"] == Text.Trim(body["position"]))
      && KeepsOtherFields(body, b)
  {
    var b := RunChains(lib, ApplicationRules, Checked(body, [])).body;
    ApplicationSteps(lib, body);
    assert b == Rewrite(Rewrite(body, "company", Text.Trim(Field(body, "company"))),
                        "position", Text.Trim(Field(body, "position")));
    ApplicationFields(body, Text.Trim(Field(body, "company")), Text.Trim(Field(body, "position")));
  }

  /** The application rules report one error per failed rule, in rule
      order, and none exactly when the body is acceptable. */
  lemma ApplicationErrors(lib: Library, body: Body)
    ensures CheckApplication(lib, body).errors
         == Expect(Filled(body, "company"), "company", Trimmed(body, "company"), CompanyMessage)
          + Expect(Filled(body, "position"), "position", Trimmed(body, "position"), PositionMessage)
          + Expect("status" !in body || body["status"] in ApplicationStatuses, "status", Lookup(body, "status"), StatusMessage)
          + Expect("applicationDate" !in body || lib.isISO8601(body["applicationDate"]), "applicationDate",
                   Lookup(body, "applicationDate"), DateMessage)
    ensures CheckApplication(lib, body).errors == [] <==> ApplicationAcceptable(lib, body)
  {
    ApplicationSteps(lib, body);
  }

  // ---------------------------------------------------------------------
  // the routes: rules followed by the middleware

  /** The registration route reaches its handler exactly when the body is
      acceptable; otherwise it answers 400 with at least one error. */
  lemma RegistrationGate(lib: Library, body: Body)
    ensures Validate(CheckRegistration(lib, body)).Next? <==> RegistrationAcceptable(lib, body)
  {
  }

  /** A registration refused for a short password answers 400 with the
      password itself in the error list. */
  lemma ShortPasswordEchoed(lib: Library, body: Body)
    requires "password" in body && Text.Length(body["password"]) < 6
    ensures Validate(CheckRegistration(lib, body)).Reject?
    ensures FieldError("password", Some(body["password"]), PasswordLengthMessage)
         in Validate(CheckRegistration(lib, body)).errors
  {
    var e := FieldError("password", Some(body["password"]), PasswordLengthMessage);
    assert Expect(Text.Length(Field(body, "password")) >= 6, "password", Lookup(body, "password"), PasswordLengthMessage)
        == [e];
    InSecondOfFour(Expect(lib.isEmail(Field(body, "email")), "email", Lookup(body, "email"), EmailMessage),
                   [e],
                   Expect(NameOk(body, "firstName"), "firstName", Trimmed(body, "firstName"), FirstNameMessage),
                   Expect(NameOk(body, "lastName"), "lastName", Trimmed(body, "lastName"), LastNameMessage),
                   e);
  }

  lemma InSecondOfFour(a: seq<FieldError>, b: seq<FieldError>, c: seq<FieldError>, d: seq<FieldError>, e: FieldError)
    requires e in b
    ensures e in a + b + c + d
  {
    var i :| 0 <= i < |b| && b[i] == e;
    assert (a + b + c + d)[|a| + i] == e;
  }

  lemma LoginGate(lib: Library, body: Body)
    ensures Validate(CheckLogin(lib, body)).Next? <==> LoginAcceptable(lib, body)
  {
  }

  /** The application route reaches its handler exactly when the body is
      acceptable. */
  lemma ApplicationGate(lib: Library, body: Body)
    ensures Validate(CheckApplication(lib, body)).Next? <==> ApplicationAcceptable(lib, body)
  {
    ApplicationErrors(lib, body);
  }

  /** A trimmed non-blank value is non-empty and trims to itself. */
  lemma TrimmedText(s: string)
    requires !Text.Blank(s)
    ensures Text.Trim(s) != "" && Text.Trim(Text.Trim(s)) == Text.Trim(s)
  {
    Text.TrimIdempotent(s);
  }

  /** A body the application rules accept (by `ApplicationGate`, exactly
      the bodies that reach the handler) gives the handler a company and a
      position that are non-empty and already trimmed. */
  lemma ApplicationHandlerInput(lib: Library, body: Body)
    requires ApplicationAcceptable(lib, body)
    ensures "company" in CheckApplication(lib, body).body
    ensures "position" in CheckApplication(lib, body).body
    ensures CheckApplication(lib, body).body["company"] != ""
    ensures Text.Trim(CheckApplication(lib, body).body["company"]) == CheckApplication(lib, body).body["company"]
    ensures CheckApplication(lib, body).body["position"] != ""
    ensures Text.Trim(CheckApplication(lib, body).body["position"]) == CheckApplication(lib, body).body["position"]
  {
    TrimmedText(body["company"]);
    TrimmedText(body["position"]);
  }
}
