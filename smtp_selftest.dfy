/**
 * The SMTP diagnostics endpoint (`GET /api/smtp-selftest`): the environment
 * readers `envBool` and `envInt`, the transport settings with their
 * defaults, the redacted configuration snapshot, and the error extractor
 * that shapes the failure payload.
 */
module SmtpSelftest {
  import opened Wrappers
  import opened JsStrings
  import opened JsValues
  import ContactRoute

  const DefaultErrorMessage := "SMTP verify failed"
  const OkNote := "SMTP verify OK"

  // ---------------------------------------------------------------------
  // envBool

  /** One of the words that switch a flag on, in any letter case. */
  predicate IsTrueWord(t: string) {
    SameIgnoringCase(t, "1") || SameIgnoringCase(t, "true") || SameIgnoringCase(t, "yes")
  }

  /**
   * `envBool`: an unset variable gives the fallback; a set one is on exactly
   * when, trimmed, it is `1`, `true` or `yes` in any letter case. A set
   * variable that says anything else, including nothing, is off whatever
   * the fallback.
   */
  function EnvBool(value: Option<string>, fallback: bool): (b: bool)
    ensures value.None? ==> b == fallback
    ensures value.Some? ==> (b <==> IsTrueWord(Trim(value.value)))
  {
    match value
    case None => fallback
    case Some(raw) =>
      var v := ToLowerAscii(Trim(raw));
      LowerIsWord(Trim(raw), "1");
      LowerIsWord(Trim(raw), "true");
      LowerIsWord(Trim(raw), "yes");
      v == "1" || v == "true" || v == "yes"
  }

  /** A set variable decides the flag on its own: the fallback is not consulted. */
  lemma EnvBoolIgnoresFallbackWhenSet(raw: string)
    ensures EnvBool(Some(raw), true) == EnvBool(Some(raw), false)
  {
  }

  /** Blank, `false` and `no` switch a flag off even when it defaults to on. */
  lemma EnvBoolOffWords()
    ensures !EnvBool(Some(""), true)
    ensures !EnvBool(Some("  "), true)
    ensures !EnvBool(Some("false"), true)
    ensures !EnvBool(Some("no"), true)
  {
    TrimEmptyIff("");
    TrimEmptyIff("  ");
    TrimOfTrimmed("false");
    TrimOfTrimmed("no");
    assert !SameIgnoringCase("false", "true") by {
      assert LowerAscii("false"[0]) != LowerAscii("true"[0]);
    }
    assert !SameIgnoringCase("no", "yes");
  }

  /** Surrounding blanks and letter case do not matter: ` Yes ` and `TRUE` are on. */
  lemma EnvBoolOnWords()
    ensures EnvBool(Some(" Yes "), false)
    ensures EnvBool(Some("TRUE"), false)
  {
    assert TrimStart(" Yes ") == TrimStart("Yes ") == "Yes ";
    assert TrimEnd("Yes ") == TrimEnd("Yes") == "Yes";
    assert SameIgnoringCase("Yes", "yes") by {
      assert LowerAscii("Yes"[0]) == 'y';
    }
    TrimOfTrimmed("TRUE");
    assert SameIgnoringCase("TRUE", "true") by {
      assert LowerAscii("TRUE"[0]) == 't';
      assert LowerAscii("TRUE"[1]) == 'r';
      assert LowerAscii("TRUE"[2]) == 'u';
      assert LowerAscii("TRUE"[3]) == 'e';
    }
  }

  // ---------------------------------------------------------------------
  // envInt

  /**
   * `envInt`: the variable converted to a number when that number is finite,
   * the fallback otherwise (unset converts to NaN).
   */
  function EnvInt(value: Option<string>, fallback: real, parse: string -> JsNumber): (n: real)
    ensures value.None? ==> n == fallback
    ensures value.Some? && parse(value.value).Finite? ==> n == parse(value.value).value
    ensures value.Some? && !parse(value.value).Finite? ==> n == fallback
  {
    var x := ToNumber(value, parse);
    if x.Finite? then x.value else fallback
  }

  /**
   * Unlike the contact route's `parsePort`, `envInt` keeps zero and negative
   * numbers: for such a value the two readers disagree.
   */
  lemma EnvIntKeepsNonPositive(raw: string, fallback: real, parse: string -> JsNumber)
    requires parse(raw).Finite? && parse(raw).value <= 0.0
    requires fallback > 0.0
    ensures EnvInt(Some(raw), fallback, parse) == parse(raw).value <= 0.0
    ensures ContactRoute.ParsePort(Some(raw), fallback, parse) == fallback
  {
  }

  /** On positive finite numbers and on non-numbers the two readers agree. */
  lemma EnvIntAgreesWithParsePort(value: Option<string>, fallback: real, parse: string -> JsNumber)
    requires value.Some? ==> !(parse(value.value).Finite? && parse(value.value).value <= 0.0)
    ensures EnvInt(value, fallback, parse) == ContactRoute.ParsePort(value, fallback, parse)
  {
  }

  // ---------------------------------------------------------------------
  // Transport settings

  /** `secure`: `SMTP_SECURE` read by `envBool`, on when unset. */
  function Secure(env: map<string, string>): (secure: bool)
    ensures "SMTP_SECURE" !in env ==> secure
  {
    EnvBool(Lookup(env, "SMTP_SECURE"), true)
  }

  /** `port`: `SMTP_PORT` read by `envInt`, defaulting to 465 with implicit TLS and 587 without. */
  function Port(env: map<string, string>, parse: string -> JsNumber): (port: real)
    ensures "SMTP_PORT" !in env ==> port == (if Secure(env) then ContactRoute.SmtpsPort else ContactRoute.StartTlsPort)
    ensures "SMTP_PORT" !in env && "SMTP_SECURE" !in env ==> port == ContactRoute.SmtpsPort
  {
    EnvInt(Lookup(env, "SMTP_PORT"), if Secure(env) then ContactRoute.SmtpsPort else ContactRoute.StartTlsPort, parse)
  }

  /** The options handed to the mail transport. */
  datatype TransportOptions = TransportOptions(
    host: Option<string>, port: real, secure: bool,
    user: Option<string>, pass: Option<string>,
    logger: bool, debug: bool)

  /**
   * `buildTransportOptions`. `debugParam` is the `debug` query parameter of
   * the request URL (None when absent). Protocol logging is on when that
   * parameter is exactly `1` or `SMTP_DEBUG` reads on (off when unset).
   */
  function BuildTransportOptions(debugParam: Option<string>, env: map<string, string>, parse: string -> JsNumber)
    : (o: TransportOptions)
    ensures o.logger == o.debug
    ensures debugParam == Some("1") ==> o.debug
    ensures "SMTP_DEBUG" !in env ==> (o.debug <==> debugParam == Some("1"))
    ensures "SMTP_DEBUG" in env && IsTrueWord(Trim(env["SMTP_DEBUG"])) ==> o.debug
    ensures debugParam != Some("1") && !("SMTP_DEBUG" in env && IsTrueWord(Trim(env["SMTP_DEBUG"]))) ==> !o.debug
    ensures o.pass == Lookup(env, "SMTP_PASS")
  {
    var debug := debugParam == Some("1") || EnvBool(Lookup(env, "SMTP_DEBUG"), false);
    TransportOptions(
      Lookup(env, "SMTP_HOST"), Port(env, parse), Secure(env),
      Lookup(env, "SMTP_USER"), Lookup(env, "SMTP_PASS"),
      debug, debug)
  }

  /** The query parameter is compared as written: `?debug=true` does not switch logging on. */
  lemma DebugParamIsExact(env: map<string, string>, parse: string -> JsNumber)
    requires "SMTP_DEBUG" !in env
    ensures !BuildTransportOptions(Some("true"), env, parse).debug
    ensures !BuildTransportOptions(Some(" 1"), env, parse).debug
  {
  }

  // ---------------------------------------------------------------------
  // safeSnapshotFromEnv

  /** What the diagnostics report about the configuration: never the password itself. */
  datatype SafeConfig = SafeConfig(
    host: Option<string>, port: real, secure: bool, user: Option<string>,
    passLen: nat, startsOrEndsQuote: bool)

  predicate IsQuote(c: char) {
    c == '"' || c == '\''
  }

  /** The password begins or ends with a quote character (a common paste mistake). */
  predicate QuotedEnds(pass: string) {
    StartsWith(pass, "\"") || StartsWith(pass, "'") || EndsWith(pass, "\"") || EndsWith(pass, "'")
  }

  /**
   * `safeSnapshotFromEnv`: host, port, implicit TLS and user as the transport
   * sees them, the password's length in UTF-16 code units (0 when unset),
   * and whether it begins or ends with a quote.
   */
  function SafeSnapshot(env: map<string, string>, parse: string -> JsNumber): (c: SafeConfig)
    ensures "SMTP_PASS" !in env ==> c.passLen == 0 && !c.startsOrEndsQuote
    ensures "SMTP_PASS" in env ==> |env["SMTP_PASS"]| <= c.passLen <= 2 * |env["SMTP_PASS"]|
    ensures c.startsOrEndsQuote <==>
      && "SMTP_PASS" in env
      && |env["SMTP_PASS"]| > 0
      && (IsQuote(env["SMTP_PASS"][0]) || IsQuote(env["SMTP_PASS"][|env["SMTP_PASS"]| - 1]))
    ensures "SMTP_SECURE" !in env && "SMTP_PORT" !in env ==> c.secure && c.port == ContactRoute.SmtpsPort
  {
    var pass := Lookup(env, "SMTP_PASS");
    var passLen := if pass.Some? then Utf16Length(pass.value) else 0;
    var startsOrEndsQuote := pass.Some? && QuotedEnds(pass.value);
    SafeConfig(Lookup(env, "SMTP_HOST"), Port(env, parse), Secure(env), Lookup(env, "SMTP_USER"),
      passLen, startsOrEndsQuote)
  }

  /**
   * The snapshot describes the same server, port, TLS mode and user as the
   * transport options it sits beside, and the length of the same password.
   */
  lemma SnapshotMatchesTransport(debugParam: Option<string>, env: map<string, string>, parse: string -> JsNumber)
    ensures var c := SafeSnapshot(env, parse);
      var o := BuildTransportOptions(debugParam, env, parse);
      c.host == o.host && c.port == o.port && c.secure == o.secure && c.user == o.user
      && c.passLen == (if o.pass.Some? then Utf16Length(o.pass.value) else 0)
  {
  }

  /**
   * The snapshot reveals nothing more of the password than its length and
   * its quote flag: two passwords alike in those give the same snapshot.
   */
  lemma SnapshotRedactsPassword(env: map<string, string>, p: string, q: string, parse: string -> JsNumber)
    requires Utf16Length(p) == Utf16Length(q)
    requires QuotedEnds(p) == QuotedEnds(q)
    ensures SafeSnapshot(env["SMTP_PASS" := p], parse) == SafeSnapshot(env["SMTP_PASS" := q], parse)
  {
    var e1, e2 := env["SMTP_PASS" := p], env["SMTP_PASS" := q];
    assert Lookup(e1, "SMTP_HOST") == Lookup(e2, "SMTP_HOST");
    assert Lookup(e1, "SMTP_USER") == Lookup(e2, "SMTP_USER");
    assert Lookup(e1, "SMTP_SECURE") == Lookup(e2, "SMTP_SECURE");
    assert Lookup(e1, "SMTP_PORT") == Lookup(e2, "SMTP_PORT");
  }

  // ---------------------------------------------------------------------
  // extractSmtpError and the response

  /**
   * `extractSmtpError`: start from the default message with no reply code
   * and no server reply, and take each of `message`, `responseCode` and
   * `response` from the thrown value only when it is an object carrying
   * that property with the expected type.
   */
  method ExtractSmtpError(e: JsValue) returns (message: string, code: Option<JsNumber>, smtp: Option<string>)
    ensures !(Truthy(e) && IsNonNullObject(e)) ==> message == DefaultErrorMessage && code.None? && smtp.None?
    ensures Get(e, "message").Str? ==> message == Get(e, "message").s
    ensures !Get(e, "message").Str? ==> message == DefaultErrorMessage
    ensures Get(e, "responseCode").Num? <==> code.Some?
    ensures code.Some? ==> Get(e, "responseCode") == Num(code.value)
    ensures Get(e, "response").Str? <==> smtp.Some?
    ensures smtp.Some? ==> Get(e, "response") == Str(smtp.value)
  {
    message := DefaultErrorMessage;
    code := None;
    smtp := None;
    if Truthy(e) && IsNonNullObject(e) {
      var m := Get(e, "message");
      if m.Str? {
        message := m.s;
      }
      var rc := Get(e, "responseCode");
      if rc.Num? {
        code := Some(rc.n);
      }
      var resp := Get(e, "response");
      if resp.Str? {
        smtp := Some(resp.s);
      }
    }
  }

  /** The JSON body of the diagnostics response. */
  datatype Payload =
    | OkPayload(config: SafeConfig, note: string)
    | ErrPayload(config: SafeConfig, error: string, code: Option<JsNumber>, smtp: Option<string>)

  /**
   * `GET`: `verifyError` is what verifying the transport built from
   * `BuildTransportOptions` threw, None when it succeeded. Success answers
   * 200 with the fixed note; failure answers 500 with the message, reply
   * code and server reply extracted from the thrown value. Both carry the
   * redacted snapshot.
   */
  method SelfTest(debugParam: Option<string>, env: map<string, string>, parse: string -> JsNumber,
             verifyError: Option<JsValue>)
    returns (status: int, payload: Payload)
    ensures status == 200 <==> verifyError.None?
    ensures status == 200 || status == 500
    ensures payload.OkPayload? <==> status == 200
    ensures payload.config == SafeSnapshot(env, parse)
    ensures payload.OkPayload? ==> payload.note == OkNote
    ensures payload.ErrPayload? && !IsNonNullObject(verifyError.value) ==>
      payload.error == DefaultErrorMessage && payload.code.None? && payload.smtp.None?
    ensures payload.ErrPayload? && Get(verifyError.value, "message").Str? ==>
      payload.error == Get(verifyError.value, "message").s
    ensures payload.ErrPayload? && !Get(verifyError.value, "message").Str? ==>
      payload.error == DefaultErrorMessage
    ensures payload.ErrPayload? ==>
      (payload.code.Some? <==> Get(verifyError.value, "responseCode").Num?)
    ensures payload.ErrPayload? && payload.code.Some? ==>
      Get(verifyError.value, "responseCode") == Num(payload.code.value)
    ensures payload.ErrPayload? ==>
      (payload.smtp.Some? <==> Get(verifyError.value, "response").Str?)
    ensures payload.ErrPayload? && payload.smtp.Some? ==>
      Get(verifyError.value, "response") == Str(payload.smtp.value)
  {
    var config := SafeSnapshot(env, parse);
    if verifyError.None? {
      status, payload := 200, OkPayload(config, OkNote);
    } else {
      var message, code, smtp := ExtractSmtpError(verifyError.value);
      status, payload := 500, ErrPayload(config, message, code, smtp);
    }
  }
}
