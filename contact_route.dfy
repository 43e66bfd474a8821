/**
 * The contact-form endpoint (`POST /api/contact`): body normalisation, the
 * field rules of `ContactSchema`, the first-issue error policy, the
 * configuration readers for the mail relay, and the sequence of early
 * returns that decides the response.
 */
module ContactRoute {
  import opened Wrappers
  import opened JsStrings
  import opened JsValues

  /** Implicit-TLS submission port (section 3.3 of RFC 8314). */
  const SmtpsPort: real := 465.0
  /** Submission port with STARTTLS (RFC 6409). */
  const StartTlsPort: real := 587.0

  const NameMessage := "Please enter your full name."
  const EmailMessage := "Please enter a valid email address."
  const PhoneMessage := "If provided, phone should be at least 6 characters."
  const MessageMessage := "Message should be at least 10 characters."
  /** The schema library's own message for a missing string field. */
  const RequiredMessage := "Required"
  const InvalidDataMessage := "Invalid data."
  const InsertFailedMessage := "Database insert failed."
  const MailFailedMessage := "Mail send failed."
  const UnexpectedMessage := "Unexpected server error."
  const ThanksMessage := "Thanks! We received your message."

  // ---------------------------------------------------------------------
  // parseBody

  /** `typeof v === "string" ? v : ""`. */
  function StringOrEmpty(v: JsValue): (r: string)
    ensures v.Str? ==> r == v.s
    ensures !v.Str? ==> r == []
  {
    if v.Str? then v.s else ""
  }

  /** The body is read as JSON when the content type mentions `application/json`. */
  predicate IsJsonContentType(contentType: Option<string>) {
    Includes(contentType.GetOr(""), "application/json")
  }

  /**
   * The key whose assignment on a plain object goes to the prototype setter,
   * which ignores a string: `out["__proto__"] = v` stores nothing.
   */
  const ProtoKey := "__proto__"

  /**
   * `parseBody`: the entries of the JSON object or of the form data, copied
   * one by one into a record of strings, non-strings becoming `""`. A key
   * that repeats (possible in form data) keeps its last value; the key
   * `__proto__` is never stored.
   */
  method ParseBody(contentType: Option<string>, jsonEntries: seq<(string, JsValue)>, formEntries: seq<(string, JsValue)>)
    returns (out: map<string, string>)
    ensures var es := if IsJsonContentType(contentType) then jsonEntries else formEntries;
      forall k :: k in out <==> k != ProtoKey && HasKey(es, |es|, k)
    ensures var es := if IsJsonContentType(contentType) then jsonEntries else formEntries;
      forall k :: k in out ==> LastValueIs(es, |es|, k, out[k])
  {
    var entries := if IsJsonContentType(contentType) then jsonEntries else formEntries;
    out := map[];
    for n := 0 to |entries|
      invariant forall k :: k in out <==> k != ProtoKey && HasKey(entries, n, k)
      invariant forall k :: k in out ==> LastValueIs(entries, n, k, out[k])
    {
      var (k, v) := entries[n];
      if k != ProtoKey {
        out := out[k := StringOrEmpty(v)];
        assert LastValueIs(entries, n + 1, k, out[k]);
      }
    }
  }

  /** Some of the first `n` entries has key `k`. */
  predicate HasKey(es: seq<(string, JsValue)>, n: nat, k: string)
    requires n <= |es|
  {
    exists i :: 0 <= i < n && es[i].0 == k
  }

  /**
   * Among the first `n` entries, one has key `k` and normalised value `v`,
   * and no later one has key `k`.
   */
  predicate LastValueIs(es: seq<(string, JsValue)>, n: nat, k: string, v: string)
    requires n <= |es|
  {
    exists i :: 0 <= i < n && es[i].0 == k && v == StringOrEmpty(es[i].1)
      && forall j :: i < j < n ==> es[j].0 != k
  }

  // ---------------------------------------------------------------------
  // ContactSchema

  /** The validated payload. */
  datatype Contact = Contact(name: string, email: string, phone: Option<string>, message: string)

  /** One finding of the schema; `Required` is the library's own finding for a missing field. */
  datatype Issue = Required(field: string) | NameTooShort | InvalidEmail | PhoneTooShort | MessageTooShort

  /** The message each finding carries. */
  function IssueMessage(i: Issue): string {
    match i
    case Required(_) => RequiredMessage
    case NameTooShort => NameMessage
    case InvalidEmail => EmailMessage
    case PhoneTooShort => PhoneMessage
    case MessageTooShort => MessageMessage
  }

  /** The phone after trimming, with `""` turned into absence. */
  function NormalizePhone(v: Option<string>): Option<string> {
    match v
    case None => None
    case Some(s) => if Trim(s) == "" then None else Some(Trim(s))
  }

  predicate NameValid(raw: map<string, string>) {
    "name" in raw && Utf16Length(Trim(raw["name"])) >= 2
  }

  predicate EmailValid(raw: map<string, string>, isEmail: string -> bool) {
    "email" in raw && isEmail(Trim(raw["email"]))
  }

  /** An absent phone passes; a present one needs 6 code units. */
  predicate PhoneValid(raw: map<string, string>) {
    var p := NormalizePhone(Lookup(raw, "phone"));
    p.None? || Utf16Length(p.value) >= 6
  }

  predicate MessageValid(raw: map<string, string>) {
    "message" in raw && Utf16Length(Trim(raw["message"])) >= 10
  }

  function NameIssues(raw: map<string, string>): seq<Issue> {
    if NameValid(raw) then [] else if "name" in raw then [NameTooShort] else [Required("name")]
  }

  function EmailIssues(raw: map<string, string>, isEmail: string -> bool): seq<Issue> {
    if EmailValid(raw, isEmail) then [] else if "email" in raw then [InvalidEmail] else [Required("email")]
  }

  function PhoneIssues(raw: map<string, string>): seq<Issue> {
    if PhoneValid(raw) then [] else [PhoneTooShort]
  }

  function MessageIssues(raw: map<string, string>): seq<Issue> {
    if MessageValid(raw) then [] else if "message" in raw then [MessageTooShort] else [Required("message")]
  }

  /** The findings, in the schema's field order: name, email, phone, message. */
  function Issues(raw: map<string, string>, isEmail: string -> bool): seq<Issue> {
    NameIssues(raw) + EmailIssues(raw, isEmail) + PhoneIssues(raw) + MessageIssues(raw)
  }

  /**
   * `ContactSchema.safeParse(raw)`: the trimmed fields when every rule holds,
   * otherwise every finding. Keys other than the four fields are dropped.
   */
  function Validate(raw: map<string, string>, isEmail: string -> bool): (r: Result<Contact, seq<Issue>>)
    ensures r.Success? <==> NameValid(raw) && EmailValid(raw, isEmail) && PhoneValid(raw) && MessageValid(raw)
    ensures r.Success? ==>
      && "name" in raw && r.value.name == Trim(raw["name"])
      && "email" in raw && r.value.email == Trim(raw["email"])
      && "message" in raw && r.value.message == Trim(raw["message"])
      && (r.value.phone.None? <==> "phone" !in raw || Trim(raw["phone"]) == "")
      && (r.value.phone.Some? ==> r.value.phone.value == Trim(raw["phone"]) && Utf16Length(r.value.phone.value) >= 6)
    ensures r.Failure? ==> 1 <= |r.error| <= 4
  {
    var issues := Issues(raw, isEmail);
    if issues == [] then
      Success(Contact(Trim(raw["name"]), Trim(raw["email"]), NormalizePhone(Lookup(raw, "phone")), Trim(raw["message"])))
    else
      Failure(issues)
  }

  /** `issues.map(i => i.message)[0] ?? "Invalid data."`. */
  function FirstIssue(issues: seq<Issue>): (r: string)
    ensures issues == [] <==> r == InvalidDataMessage
    ensures issues != [] ==> r in {RequiredMessage, NameMessage, EmailMessage, PhoneMessage, MessageMessage}
  {
    if issues == [] then InvalidDataMessage else IssueMessage(issues[0])
  }

  /** The finding for the first field, in the order name, email, phone, message, that breaks its rule. */
  function FirstFailingField(raw: map<string, string>, isEmail: string -> bool): Issue
    requires !(NameValid(raw) && EmailValid(raw, isEmail) && PhoneValid(raw) && MessageValid(raw))
  {
    if !NameValid(raw) then (if "name" in raw then NameTooShort else Required("name"))
    else if !EmailValid(raw, isEmail) then (if "email" in raw then InvalidEmail else Required("email"))
    else if !PhoneValid(raw) then PhoneTooShort
    else if "message" in raw then MessageTooShort else Required("message")
  }

  /**
   * The reported error is the message of the first failing field; findings
   * about later fields are never reported.
   */
  lemma ReportedIssueIsFirstFailingField(raw: map<string, string>, isEmail: string -> bool)
    requires Validate(raw, isEmail).Failure?
    ensures FirstIssue(Validate(raw, isEmail).error) == IssueMessage(FirstFailingField(raw, isEmail))
  {
    var issues := Issues(raw, isEmail);
    assert Validate(raw, isEmail).error == issues;
    if !NameValid(raw) {
      assert issues[0] == NameIssues(raw)[0];
    } else if !EmailValid(raw, isEmail) {
      assert issues[0] == EmailIssues(raw, isEmail)[0];
    } else if !PhoneValid(raw) {
      assert issues[0] == PhoneIssues(raw)[0];
    } else {
      assert issues == MessageIssues(raw);
    }
  }

  /** A phone that trims to `""` is the same as no phone at all. */
  lemma BlankPhoneIsAbsent(raw: map<string, string>, isEmail: string -> bool)
    requires "phone" in raw && Trim(raw["phone"]) == ""
    ensures Validate(raw, isEmail) == Validate(raw - {"phone"}, isEmail)
  {
    var r' := raw - {"phone"};
    assert Lookup(r', "name") == Lookup(raw, "name");
    assert Lookup(r', "email") == Lookup(raw, "email");
    assert Lookup(r', "message") == Lookup(raw, "message");
    assert NormalizePhone(Lookup(r', "phone")) == NormalizePhone(Lookup(raw, "phone")) == None;
    assert Issues(r', isEmail) == Issues(raw, isEmail);
  }

  // ---------------------------------------------------------------------
  // Configuration readers

  /**
   * `requireEnv(key, fallback)`: `(env[key] ?? fallback ?? "").trim()`, failing
   * when that is empty.
   */
  function RequireEnv(env: map<string, string>, key: string, fallback: Option<string>): (r: Result<string, string>)
    ensures r.Success? ==> r.value != [] && !IsWhitespace(r.value[0]) && !IsWhitespace(r.value[|r.value| - 1])
    ensures r.Failure? ==> r.error == "Missing required env: " + key
  {
    var chosen := if key in env then env[key] else fallback.GetOr("");
    TrimShape(chosen);
    var v := Trim(chosen);
    if v == "" then Failure("Missing required env: " + key) else Success(v)
  }

  /**
   * A variable that is set is chosen over the fallback, even when it holds
   * only blanks (and then the read fails); the value returned is trimmed and
   * the failure names the variable.
   */
  lemma RequireEnvChoice(env: map<string, string>, key: string, fallback: Option<string>)
    ensures key in env ==> (RequireEnv(env, key, fallback).Success? <==> !AllWhitespace(env[key]))
    ensures key in env && RequireEnv(env, key, fallback).Success? ==> RequireEnv(env, key, fallback).value == Trim(env[key])
    ensures key !in env && fallback.Some? ==> (RequireEnv(env, key, fallback).Success? <==> !AllWhitespace(fallback.value))
    ensures key !in env && fallback.Some? && RequireEnv(env, key, fallback).Success? ==>
              RequireEnv(env, key, fallback).value == Trim(fallback.value)
    ensures key !in env && fallback.None? ==> RequireEnv(env, key, fallback).Failure?
    ensures RequireEnv(env, key, fallback).Failure? ==> RequireEnv(env, key, fallback).error == "Missing required env: " + key
  {
    TrimEmptyIff(if key in env then env[key] else fallback.GetOr(""));
  }

  /** `parsePort(raw, dflt)`: the number when it is finite and positive, else the default. */
  function ParsePort(raw: Option<string>, dflt: real, parse: string -> JsNumber): (port: real)
    ensures var p := ToNumber(raw, parse);
      (p.Finite? && p.value > 0.0 ==> port == p.value) && (!(p.Finite? && p.value > 0.0) ==> port == dflt)
    ensures raw.None? ==> port == dflt
    ensures dflt > 0.0 ==> port > 0.0
  {
    var p := ToNumber(raw, parse);
    if p.Finite? && p.value > 0.0 then p.value else dflt
  }

  /**
   * `smtpSecure`: implicit TLS when `SMTP_SECURE` reads `true` in any case, or
   * when the port is the implicit-TLS submission port 465.
   */
  function SmtpSecure(env: map<string, string>, port: real): (secure: bool)
    ensures port == SmtpsPort ==> secure
    ensures "SMTP_SECURE" !in env ==> (secure <==> port == SmtpsPort)
    ensures "SMTP_SECURE" in env && ToLowerAscii(env["SMTP_SECURE"]) == "true" ==> secure
    ensures port != SmtpsPort && !("SMTP_SECURE" in env && ToLowerAscii(env["SMTP_SECURE"]) == "true") ==> !secure
  {
    var flag := Lookup(env, "SMTP_SECURE").GetOr("");
    ToLowerAscii(flag) == "true" || port == SmtpsPort
  }

  /** The relay settings that `POST` reads before sending mail. */
  datatype MailConfig = MailConfig(
    host: string, user: string, pass: string, from: string, adminTo: string,
    port: real, secure: bool)

  /** `smtps` for implicit TLS, `smtp` otherwise: the scheme of the relay URL. */
  function Protocol(c: MailConfig): string {
    if c.secure then "smtps" else "smtp"
  }

  /**
   * The five `requireEnv` calls in their order (the first failure is the
   * error) followed by the port and TLS decisions.
   */
  function ReadMailConfig(env: map<string, string>, parse: string -> JsNumber): (r: Result<MailConfig, string>)
    ensures r.Success? ==> r.value.host != [] && r.value.user != [] && r.value.pass != []
    ensures r.Success? ==> r.value.from != [] && r.value.adminTo != [] && r.value.port > 0.0
    ensures r.Failure? ==> StartsWith(r.error, "Missing required env: ")
  {
    var host := RequireEnv(env, "SMTP_HOST", None);
    if host.Failure? then Failure(host.error) else
    var user := RequireEnv(env, "SMTP_USER", None);
    if user.Failure? then Failure(user.error) else
    var pass := RequireEnv(env, "SMTP_PASS", None);
    if pass.Failure? then Failure(pass.error) else
    var from := RequireEnv(env, "CONTACT_FROM", Some("noreply@embuscon.com"));
    if from.Failure? then Failure(from.error) else
    var adminTo := RequireEnv(env, "CONTACT_ADMIN_TO", Some("vikas.bansal@embuscon.com"));
    if adminTo.Failure? then Failure(adminTo.error) else
    var port := ParsePort(Lookup(env, "SMTP_PORT"), StartTlsPort, parse);
    Success(MailConfig(host.value, user.value, pass.value, from.value, adminTo.value, port, SmtpSecure(env, port)))
  }

  /**
   * The relay settings are read when host, user and password are set to
   * something other than blanks and the sender and admin addresses are not
   * set to blanks (unset, they fall back to built-in addresses).
   */
  lemma MailConfigRequirements(env: map<string, string>, parse: string -> JsNumber)
    ensures ReadMailConfig(env, parse).Success? <==>
      && "SMTP_HOST" in env && !AllWhitespace(env["SMTP_HOST"])
      && "SMTP_USER" in env && !AllWhitespace(env["SMTP_USER"])
      && "SMTP_PASS" in env && !AllWhitespace(env["SMTP_PASS"])
      && ("CONTACT_FROM" in env ==> !AllWhitespace(env["CONTACT_FROM"]))
      && ("CONTACT_ADMIN_TO" in env ==> !AllWhitespace(env["CONTACT_ADMIN_TO"]))
  {
    MailConfigNeedsEveryRead(env, parse);
    RequireEnvSucceeds(env, "SMTP_HOST", None);
    RequireEnvSucceeds(env, "SMTP_USER", None);
    RequireEnvSucceeds(env, "SMTP_PASS", None);
    RequireEnvSucceeds(env, "CONTACT_FROM", Some("noreply@embuscon.com"));
    RequireEnvSucceeds(env, "CONTACT_ADMIN_TO", Some("vikas.bansal@embuscon.com"));
  }

  /** Without `SMTP_HOST` the read fails, naming that variable. */
  lemma MailConfigMissingHost(env: map<string, string>, parse: string -> JsNumber)
    requires "SMTP_HOST" !in env
    ensures ReadMailConfig(env, parse) == Failure("Missing required env: SMTP_HOST")
  {
    RequireEnvChoice(env, "SMTP_HOST", None);
    assert "Missing required env: " + "SMTP_HOST" == "Missing required env: SMTP_HOST";
  }

  /** The settings are read exactly when each of the five reads succeeds. */
  lemma MailConfigNeedsEveryRead(env: map<string, string>, parse: string -> JsNumber)
    ensures ReadMailConfig(env, parse).Success? <==>
      && RequireEnv(env, "SMTP_HOST", None).Success?
      && RequireEnv(env, "SMTP_USER", None).Success?
      && RequireEnv(env, "SMTP_PASS", None).Success?
      && RequireEnv(env, "CONTACT_FROM", Some("noreply@embuscon.com")).Success?
      && RequireEnv(env, "CONTACT_ADMIN_TO", Some("vikas.bansal@embuscon.com")).Success?
  {
  }

  /** One read succeeds when the variable is set to non-blanks, or is unset and the fallback is non-blank. */
  lemma RequireEnvSucceeds(env: map<string, string>, key: string, fallback: Option<string>)
    requires fallback.Some? ==> fallback.value != [] && !IsWhitespace(fallback.value[0])
    ensures RequireEnv(env, key, fallback).Success? <==>
      if key in env then !AllWhitespace(env[key]) else fallback.Some?
  {
    RequireEnvChoice(env, key, fallback);
    if fallback.Some? {
      TrimEmptyIff(fallback.value);
    }
  }

  /**
   * Once read, the relay port is 587 when `SMTP_PORT` is unset, and the
   * scheme is `smtps` exactly on port 465 or when `SMTP_SECURE` says `true`.
   */
  lemma MailConfigTransport(env: map<string, string>, parse: string -> JsNumber)
    requires ReadMailConfig(env, parse).Success?
    ensures "SMTP_PORT" !in env ==> ReadMailConfig(env, parse).value.port == StartTlsPort
    ensures Protocol(ReadMailConfig(env, parse).value) == "smtps" <==>
      ReadMailConfig(env, parse).value.port == SmtpsPort
      || ("SMTP_SECURE" in env && ToLowerAscii(env["SMTP_SECURE"]) == "true")
  {
  }

  /** Without `CONTACT_FROM` the sender is the built-in address. */
  lemma MailConfigDefaultSender(env: map<string, string>, parse: string -> JsNumber)
    requires ReadMailConfig(env, parse).Success? && "CONTACT_FROM" !in env
    ensures ReadMailConfig(env, parse).value.from == "noreply@embuscon.com"
  {
    TrimOfTrimmed("noreply@embuscon.com");
  }

  /**
   * The client address: the first entry of `x-forwarded-for`, trimmed, or
   * `""` when the header is missing.
   */
  function ClientIp(forwardedFor: Option<string>): (ip: string)
    ensures forall i :: 0 <= i < |ip| ==> ip[i] != ','
    ensures forwardedFor.None? ==> ip == ""
    ensures forwardedFor.Some? && ',' !in forwardedFor.value ==> ip == Trim(forwardedFor.value)
    ensures forwardedFor.Some? ==> ip == Trim(FirstSegment(forwardedFor.value))
  {
    var h := forwardedFor.GetOr("");
    TrimShape(FirstSegment(h));
    Trim(FirstSegment(h))
  }

  /**
   * With a proxy chain `client, proxy1, ...` the address reported is the
   * client's, trimmed: later entries are never looked at.
   */
  lemma ClientIpOfProxyChain(client: string, proxies: string)
    requires ',' !in client
    ensures ClientIp(Some(client + "," + proxies)) == Trim(client)
  {
    assert client + "," + proxies == client + ("," + proxies);
    FirstSegmentStopsAtComma(client, "," + proxies);
  }

  /** For instance, `1.2.3.4, 5.6.7.8` reports `1.2.3.4`. */
  lemma ClientIpExample()
    ensures ClientIp(Some("1.2.3.4, 5.6.7.8")) == "1.2.3.4"
  {
    assert "1.2.3.4, 5.6.7.8" == "1.2.3.4" + "," + " 5.6.7.8";
    ClientIpOfProxyChain("1.2.3.4", " 5.6.7.8");
    TrimOfTrimmed("1.2.3.4");
  }

  /** The first segment of `a` followed by a comma-led tail is `a` itself, when `a` has no comma. */
  lemma FirstSegmentStopsAtComma(a: string, rest: string)
    requires ',' !in a && rest != [] && rest[0] == ','
    ensures FirstSegment(a + rest) == a
  {
    assert (a + rest)[..|a|] == a;
  }

  /** `h.split(",")[0]`: the text before the first comma. */
  function FirstSegment(h: string): (r: string)
    ensures |r| <= |h| && r == h[..|r|]
    ensures ',' !in r
    ensures |r| < |h| ==> h[|r|] == ','
    ensures ',' !in h ==> r == h
  {
    if h == [] || h[0] == ',' then [] else [h[0]] + FirstSegment(h[1..])
  }

  // ---------------------------------------------------------------------
  // POST

  /** The JSON body returned (always with status 200). */
  datatype Response = Accepted(message: string, id: string) | Rejected(error: string)

  /** What the store returned for the insert: an error flag and the selected row. */
  datatype InsertOutcome = InsertOutcome(failed: bool, data: JsValue)

  /**
   * `error ?? !data`: a reported error, or no row (`null`), fails the
   * insert; a returned row object without an error does not.
   */
  function InsertFailed(o: InsertOutcome): (b: bool)
    ensures o.failed ==> b
    ensures o.data.Null? || o.data.Undefined? ==> b
    ensures !o.failed && (o.data.Obj? || o.data.Arr?) ==> !b
  {
    o.failed || !Truthy(o.data)
  }

  /** `InsertedRow.parse(data).id`: an object whose `id` is a UUID string. */
  function RowId(data: JsValue, isUuid: string -> bool): (r: Option<string>)
    ensures r.Some? ==> isUuid(r.value) && Get(data, "id") == Str(r.value)
    ensures r.None? <==> !(data.Obj? && Get(data, "id").Str? && isUuid(Get(data, "id").s))
  {
    var id := Get(data, "id");
    if data.Obj? && id.Str? && isUuid(id.s) then Some(id.s) else None
  }

  /**
   * `getSupabaseAdmin` succeeds when a client was already created by an
   * earlier request (`clientCached`), or when `SUPABASE_URL` and
   * `SUPABASE_SERVICE_ROLE` are both set to non-empty strings; otherwise it
   * throws.
   */
  function SupabaseReady(env: map<string, string>, clientCached: bool): (b: bool)
    ensures clientCached ==> b
    ensures !clientCached ==>
      (b <==> "SUPABASE_URL" in env && env["SUPABASE_URL"] != [] &&
              "SUPABASE_SERVICE_ROLE" in env && env["SUPABASE_SERVICE_ROLE"] != [])
  {
    clientCached || (Lookup(env, "SUPABASE_URL").GetOr("") != "" && Lookup(env, "SUPABASE_SERVICE_ROLE").GetOr("") != "")
  }

  /**
   * `POST`: validate, obtain the store client, insert, read the relay
   * settings, send both mails. `body` is `None` when reading the body
   * throws; `mailDelivered` is whether both `sendMail` calls succeeded.
   */
  method Post(
    body: Option<map<string, string>>, isEmail: string -> bool,
    insert: InsertOutcome, isUuid: string -> bool,
    env: map<string, string>, clientCached: bool, parse: string -> JsNumber, mailDelivered: bool)
    returns (resp: Response)
    ensures body.None? ==> resp == Rejected(UnexpectedMessage)
    ensures body.Some? && Validate(body.value, isEmail).Failure? ==>
      resp == Rejected(FirstIssue(Validate(body.value, isEmail).error))
    ensures body.Some? && Validate(body.value, isEmail).Success? && !SupabaseReady(env, clientCached) ==>
      resp == Rejected(UnexpectedMessage)
    ensures body.Some? && Validate(body.value, isEmail).Success? && SupabaseReady(env, clientCached)
              && InsertFailed(insert) ==>
      resp == Rejected(InsertFailedMessage)
    ensures body.Some? && Validate(body.value, isEmail).Success? && SupabaseReady(env, clientCached)
              && !InsertFailed(insert) && RowId(insert.data, isUuid).None?
            ==> resp == Rejected(UnexpectedMessage)
    ensures body.Some? && Validate(body.value, isEmail).Success? && SupabaseReady(env, clientCached)
              && !InsertFailed(insert) && RowId(insert.data, isUuid).Some? && (ReadMailConfig(env, parse).Failure? || !mailDelivered)
            ==> resp == Rejected(MailFailedMessage)
    ensures resp.Accepted? <==>
      body.Some? && Validate(body.value, isEmail).Success? && SupabaseReady(env, clientCached)
      && !InsertFailed(insert) && RowId(insert.data, isUuid).Some? && ReadMailConfig(env, parse).Success? && mailDelivered
    ensures resp.Accepted? ==> resp.message == ThanksMessage && resp.id == RowId(insert.data, isUuid).value
  {
    if body.None? {
      return Rejected(UnexpectedMessage);
    }
    var parsed := Validate(body.value, isEmail);
    if parsed.Failure? {
      return Rejected(FirstIssue(parsed.error));
    }
    if !SupabaseReady(env, clientCached) {
      return Rejected(UnexpectedMessage);
    }
    if InsertFailed(insert) {
      return Rejected(InsertFailedMessage);
    }
    var id := RowId(insert.data, isUuid);
    if id.None? {
      return Rejected(UnexpectedMessage);
    }
    var config := ReadMailConfig(env, parse);
    if config.Failure? || !mailDelivered {
      return Rejected(MailFailedMessage);
    }
    return Accepted(ThanksMessage, id.value);
  }
}
