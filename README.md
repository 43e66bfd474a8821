# Embuscon site core, modelled in Dafny

This project models the decision logic of the Embuscon company website, a
Next.js application. It does not model its rendering or its services. The
modelled parts are:

- **The contact endpoint** (`POST /api/contact`):
  - the body is normalised into a record of strings;
  - the fields are validated against the contact schema;
  - only the first validation finding is reported;
  - the free text is HTML-escaped before it goes into the mails;
  - the mail-relay configuration is read (`requireEnv`, `parsePort`, the implicit-TLS decision);
  - the client address is taken from `x-forwarded-for`;
  - the chain of early returns decides the JSON answer.
- **The SMTP diagnostics endpoint** (`GET /api/smtp-selftest`):
  - the `envBool`/`envInt` readers;
  - the port and TLS defaults;
  - the debug switch;
  - the redacted configuration snapshot, which never includes the password;
  - the error extractor and the 200/500 answer.
- **The navigation link**: when a link counts as the current page, and the class string it renders with.
- **`cn`**: class names joined, with falsy values dropped.
- **The blog lookups** over the constant post list.
- **The contentlayer computed fields** `slug`, `url` and `isDraft`.
- **The submissions page's shape guards** `isItem` and `isApiList`.

The modules are:

- `Wrappers`: `Option` and `Result`.
- `JsStrings`: the JavaScript string built-ins, with white space as `trim` defines it.
- `JsValues`: JSON-like values, truthiness, `Number()` and `process.env`.
- `ContactRoute` and `HtmlEscape`.
- `SmtpSelftest`, `NavLink`, `ClassNames`, `Blog`, `ContentConfig` and `SubmissionGuards`.

External behaviour enters as parameters:

- **`isEmail`**: the schema library's e-mail check.
- **`isUuid`**: its UUID check.
- **`parse`**: JavaScript's string-to-number conversion.
- **`env`**: the process environment.
- **`clientCached`**: whether an earlier request already created the store client.
- **`insert`**: the store's reply.
- **`mailDelivered`**: whether both mails went out.
- **`verifyError`**: what the SMTP verification threw.
- **`debugParam`**: the `debug` query parameter.

String lengths are counted in UTF-16 code units, as JavaScript's `length` counts them.

Every answer of the contact endpoint has status 200. A mail failure after a
successful insert is answered with `Mail send failed.`. A message has no
upper length bound.

## Model

| member | source | states |
|---|---|---|
| ContactRoute.StringOrEmpty | app/api/contact/route.ts:38 | A string value is kept as it is; any other value becomes the empty string |
| ContactRoute.ParseBody | app/api/contact/route.ts:33-45 | JSON entries are read when the content type contains `application/json`, and form entries otherwise. The record has exactly the keys that occur, except `__proto__`, whose assignment the prototype setter swallows. Each key holds the normalised value of its last occurrence |
| ContactRoute.Validate | app/api/contact/route.ts:13-25 | Success exactly when all four field rules hold (name of 2+ code units, e-mail accepted, phone absent/blank or 6+, message of 10+, all after trimming). On success the fields are the trimmed inputs and a blank phone becomes absent. On failure there are 1 to 4 findings |
| ContactRoute.FirstIssue | app/api/contact/route.ts:81-83 | `Invalid data.` exactly when there are no findings; otherwise one of the five schema messages |
| ContactRoute.ReportedIssueIsFirstFailingField | app/api/contact/route.ts:79-86 | The error reported is the message of the first field, in the order name, email, phone, message, that breaks its rule; a missing field reports `Required` |
| ContactRoute.BlankPhoneIsAbsent | app/api/contact/route.ts:16-23 | A phone that trims to the empty string validates exactly as if no phone had been sent |
| ContactRoute.RequireEnv | app/api/contact/route.ts:58-62 | A value read is non-empty and starts and ends with a non-blank character; a failure is `Missing required env: ` followed by the variable's name |
| ContactRoute.RequireEnvChoice | app/api/contact/route.ts:58-62 | A set variable is used even when it is blank, so the read fails and the fallback is ignored. Otherwise the fallback is used. A success value is trimmed, and a failure names the variable |
| ContactRoute.RequireEnvSucceeds | app/api/contact/route.ts:58-62 | With a usable fallback, a read succeeds exactly when the variable is set to something non-blank, or is unset and a fallback exists |
| ContactRoute.ParsePort | app/api/contact/route.ts:64-67 | A finite, positive converted number is returned; anything else (unset, NaN, infinite, zero or negative) gives the default. A positive default gives a positive port |
| ContactRoute.SmtpSecure | app/api/contact/route.ts:125-127 | Implicit TLS exactly when `SMTP_SECURE` lower-cases to `true` or the port is 465 (section 3.3 of RFC 8314); when unset, exactly on port 465 |
| ContactRoute.ReadMailConfig | app/api/contact/route.ts:118-127 | Read settings have non-empty host, user, password, sender and admin address, and a positive port; a failure is a `Missing required env: ` message |
| ContactRoute.MailConfigNeedsEveryRead | app/api/contact/route.ts:118-127 | The relay settings are read exactly when all five `requireEnv` reads succeed |
| ContactRoute.MailConfigRequirements | app/api/contact/route.ts:119-123 | The settings are read exactly when host, user and password are set and non-blank, and the sender and admin addresses are either unset or non-blank |
| ContactRoute.MailConfigMissingHost | app/api/contact/route.ts:119 | Without `SMTP_HOST` the read fails with `Missing required env: SMTP_HOST` |
| ContactRoute.MailConfigTransport | app/api/contact/route.ts:125-130 | Once the settings are read, the port is 587 when `SMTP_PORT` is unset, and the scheme is `smtps` exactly under the implicit-TLS rule |
| ContactRoute.MailConfigDefaultSender | app/api/contact/route.ts:122 | Without `CONTACT_FROM` the sender is `noreply@embuscon.com` |
| ContactRoute.FirstSegment | app/api/contact/route.ts:90 | The longest comma-free prefix of the header, followed in the header by a comma or by its end |
| ContactRoute.ClientIp | app/api/contact/route.ts:90 | The client address never contains a comma. It is empty without the header, and otherwise is the header's first comma-separated entry, trimmed |
| ContactRoute.ClientIpOfProxyChain | app/api/contact/route.ts:90 | For `client,proxies` the address is the trimmed client entry, whatever the proxies are |
| ContactRoute.ClientIpExample | app/api/contact/route.ts:90 | `1.2.3.4, 5.6.7.8` gives `1.2.3.4` |
| ContactRoute.SupabaseReady | lib/supabaseAdmin.ts:6-16 | A cached client is always available; otherwise the client is created exactly when `SUPABASE_URL` and `SUPABASE_SERVICE_ROLE` are both set and non-empty |
| ContactRoute.InsertFailed | app/api/contact/route.ts:101 | A reported error fails the insert, and so does a missing (`null`) row; a returned row without an error does not |
| ContactRoute.RowId | app/api/contact/route.ts:115 | An id is produced exactly when the row is an object whose `id` is a UUID string, and it is that string |
| ContactRoute.Post | app/api/contact/route.ts:75-220 | The steps are checked in order. An unreadable body gives `Unexpected server error.`. Invalid input gives the first finding. An unconfigured store client gives `Unexpected server error.`. A failed or empty insert gives `Database insert failed.`. A row without a UUID id gives `Unexpected server error.`. A missing setting or an undelivered mail gives `Mail send failed.`. The answer is the thank-you message with the row id exactly when every step succeeds |
| HtmlEscape.EscapeHtml | app/api/contact/route.ts:48-55 | The output has no raw `<`, `>`, `"` or `'`, and every `&` in it starts one of the five references. Text without special characters is unchanged |
| HtmlEscape.EscapeChainIsPerCharacter | app/api/contact/route.ts:49-54 | The five chained `replaceAll` calls are the same as replacing each special character by its reference in one pass, because `&` is replaced first |
| HtmlEscape.EscapedPiecesClean | app/api/contact/route.ts:48-55 | The per-character escape leaves no raw special character, and every `&` it leaves starts a reference |
| HtmlEscape.UnescapeInvertsEscape | app/api/contact/route.ts:48-55 | Undoing the five replacements in reverse order (`&amp;` last) gives back the original text, so escaping loses nothing |
| SmtpSelftest.EnvBool | app/api/smtp-selftest/route.ts:29-33 | An unset variable gives the fallback. A set one is on exactly when its trimmed value is `1`, `true` or `yes` in any letter case |
| SmtpSelftest.EnvBoolIgnoresFallbackWhenSet | app/api/smtp-selftest/route.ts:30-32 | For a set variable the result does not depend on the fallback |
| SmtpSelftest.EnvBoolOffWords | app/api/smtp-selftest/route.ts:31-32 | Empty, blank, `false` and `no` are off even when the default is on |
| SmtpSelftest.EnvBoolOnWords | app/api/smtp-selftest/route.ts:31-32 | ` Yes ` and `TRUE` are on |
| SmtpSelftest.EnvInt | app/api/smtp-selftest/route.ts:35-38 | The converted number when it is finite, the fallback otherwise; unset gives the fallback |
| SmtpSelftest.EnvIntKeepsNonPositive | app/api/smtp-selftest/route.ts:35-38 | Zero and negative numbers are kept by `envInt`, where the contact route's `parsePort` substitutes its default |
| SmtpSelftest.EnvIntAgreesWithParsePort | app/api/smtp-selftest/route.ts:35-38 | Apart from finite non-positive numbers, `envInt` and `parsePort` agree |
| SmtpSelftest.Secure | app/api/smtp-selftest/route.ts:45 | TLS is on when `SMTP_SECURE` is unset |
| SmtpSelftest.Port | app/api/smtp-selftest/route.ts:46 | With `SMTP_PORT` unset, the port is 465 under implicit TLS and 587 otherwise, and 465 when both variables are unset |
| SmtpSelftest.BuildTransportOptions | app/api/smtp-selftest/route.ts:40-59 | Logging and debug are equal. They are on exactly when the query parameter is `1` or `SMTP_DEBUG` reads on; with `SMTP_DEBUG` unset, exactly when the parameter is `1`. The password is passed through unchanged |
| SmtpSelftest.DebugParamIsExact | app/api/smtp-selftest/route.ts:42-43 | `?debug=true` and `?debug= 1` do not switch logging on |
| SmtpSelftest.SafeSnapshot | app/api/smtp-selftest/route.ts:61-78 | Without a password the length is 0 and the quote flag is off. Otherwise the length is between the code-point count and twice it. The quote flag is on exactly when a set, non-empty password starts or ends with `"` or `'`. With both variables unset, TLS is on and the port is 465 |
| SmtpSelftest.SnapshotMatchesTransport | app/api/smtp-selftest/route.ts:61-78 | The snapshot reports the host, port, TLS mode and user of the transport options, and the length of their password |
| SmtpSelftest.SnapshotRedactsPassword | app/api/smtp-selftest/route.ts:61-78 | Two passwords with the same length and quote flag give the same snapshot: nothing else about the password is revealed |
| SmtpSelftest.ExtractSmtpError | app/api/smtp-selftest/route.ts:80-92 | The message defaults to `SMTP verify failed` and the code and reply default to absent. Each is taken from the thrown value only when it is an object with that property of the right type |
| SmtpSelftest.SelfTest | app/api/smtp-selftest/route.ts:94-109 | Status 200 with the OK note exactly when verification succeeded, 500 otherwise; both carry the redacted snapshot. On failure the error is the thrown object's string `message` or `SMTP verify failed`, the code is present exactly when `responseCode` is a number, and the reply exactly when `response` is a string, each equal to that property |
| NavLink.IsActive | components/NavLink.tsx:22-25 | A link is active on its own path. The home link is active exactly on `/`; any other active link is a prefix of the path |
| NavLink.IsActiveMeansSegmentPrefix | components/NavLink.tsx:22-25 | A link other than home is active exactly on its own path, or on a path that continues it after a `/` separator |
| NavLink.HomeIsExact | components/NavLink.tsx:22-24 | The home link is active only on `/` |
| NavLink.BlogExamples | components/NavLink.tsx:16-25 | `/blog` is active on `/blog` and `/blog/some-post`, not on `/blogger` or `/` |
| NavLink.Combined | components/NavLink.tsx:27-33 | The class string starts with the base classes followed by the active or inactive classes, and ends with the caller's classes without trailing blanks |
| NavLink.CombinedShape | components/NavLink.tsx:27-33 | Trimming only drops the caller's trailing blanks, and the separating space when the caller's classes are blank |
| NavLink.CombinedWithoutExtras | components/NavLink.tsx:27-33 | Without extra classes the string is the base classes and the state classes |
| ClassNames.Cn | lib/cn.ts:5-7 | The output length is the kept strings' total length plus one space between each neighbouring pair |
| ClassNames.Kept | lib/cn.ts:6 | The filter keeps no empty string and never grows the list |
| ClassNames.KeptAppend | lib/cn.ts:6 | Filtering a concatenation concatenates the filtered parts, so the arguments' order is kept |
| ClassNames.KeptFromInputs | lib/cn.ts:6 | Every kept string is one of the arguments |
| ClassNames.KeptEmptyIff | lib/cn.ts:6 | Nothing is kept exactly when every argument is falsy |
| ClassNames.CnEmptyIff | lib/cn.ts:5-7 | The result is the empty string exactly when every argument is falsy |
| ClassNames.CnSingle | lib/cn.ts:5-7 | One non-empty argument comes back unchanged |
| ClassNames.CnDropsFalsy | lib/cn.ts:3-7 | `false`, `null`, `undefined` and `""` anywhere among the arguments change nothing |
| ClassNames.CnAppend | lib/cn.ts:5-7 | Splitting the arguments anywhere, the result is the halves' results joined by one space, or whichever half is non-empty |
| Blog.Find | lib/blog.ts:79 | A found post has the requested slug and is in the list |
| Blog.FindIsFirstMatch | lib/blog.ts:78-80 | Nothing is found exactly when no post has the slug; otherwise the post found is at the first index with that slug |
| Blog.SlugsOf | lib/blog.ts:83 | Same length as the posts, and the i-th slug is the i-th post's |
| Blog.GetAllPosts | lib/blog.ts:74-76 | The list of the two published posts |
| Blog.GetPostBySlug | lib/blog.ts:78-80 | A post returned has the requested slug and is one of the posts |
| Blog.GetAllSlugs | lib/blog.ts:82-84 | One slug per post, in list order |
| Blog.SlugListedIffFound | lib/blog.ts:78-84 | A slug is listed exactly when looking it up finds a post |
| Blog.PublishedSlugs | lib/blog.ts:14-71 | The two published slugs, in order, each leading to its own post; any other slug finds nothing |
| ContentConfig.FirstMdMatch | contentlayer.config.ts:20 | The leftmost index where `\.mdx?$` matches, or none when no index matches |
| ContentConfig.StripMdExtension | contentlayer.config.ts:20 | The result is a prefix of the name, shorter by 0, 3 or 4 characters |
| ContentConfig.StripMdExtensionRule | contentlayer.config.ts:20 | The replacement removes a trailing `.mdx`, else a trailing `.md`, and leaves any other name unchanged |
| ContentConfig.StripMdExtensionRoundTrip | contentlayer.config.ts:20 | `name.md` and `name.mdx` both give back `name`: exactly one extension comes off |
| ContentConfig.StripMdExtensionExamples | contentlayer.config.ts:20 | `welcome.txt` and `readme` are unchanged |
| ContentConfig.StripMdExtensionDoubled | contentlayer.config.ts:20 | `notes.md.mdx` gives `notes.md` |
| ContentConfig.Slug | contentlayer.config.ts:20 | The slug is a prefix of the source file name |
| ContentConfig.Url | contentlayer.config.ts:21 | The url starts with `/blog/` |
| ContentConfig.UrlIsBlogPathOfSlug | contentlayer.config.ts:20-21 | The url is `/blog/` followed by the slug, and the slug's `.mdx` file has the same url |
| ContentConfig.IsDraft | contentlayer.config.ts:25 | No flag is never a draft; a draft's trimmed flag is 1 or 4 characters long |
| ContentConfig.IsDraftMeaning | contentlayer.config.ts:23-26 | A draft exactly when the flag is given and, trimmed, is `true` in any letter case or `1` |
| ContentConfig.IsDraftIgnoresBlanks | contentlayer.config.ts:25 | Blanks around the flag do not matter |
| ContentConfig.IsDraftOffExamples | contentlayer.config.ts:25 | No flag, `false` and `yes` leave a post published |
| ContentConfig.IsDraftOnExamples | contentlayer.config.ts:25 | ` TRUE ` and `1` mark a draft |
| SubmissionGuards.IsItem | app/submissions/page.tsx:21-31 | Accepted exactly when the value is an object in which each of `id`, `name`, `email`, `message` and `created_at` is a string; arrays are rejected |
| SubmissionGuards.EveryItem | app/submissions/page.tsx:38 | True exactly when every element passes `isItem`; the empty list passes |
| SubmissionGuards.IsApiList | app/submissions/page.tsx:33-44 | An accepted envelope is an object with a boolean `success`; with `true`, `items` is an array of items; with `false`, `error` is a string |
| SubmissionGuards.IsApiListMeaning | app/submissions/page.tsx:33-44 | Accepted exactly when the value is an object that either has `success: true` with an `items` array of items, or `success: false` with a string `error` |
| SubmissionGuards.GuardsRejectNonObjects | app/submissions/page.tsx:21-35 | `null`, primitives and arrays are neither items nor envelopes |
| SubmissionGuards.EncodeItem | app/submissions/page.tsx:6-14 | A submission is an object whose `id`, `name`, `email`, `message` and `created_at` are its five strings |
| SubmissionGuards.EncodeApiList | app/submissions/page.tsx:16-18 | A list is `success: true` with an `items` array holding each submission's object in order; a refusal is `success: false` with its `error` string |
| SubmissionGuards.DecodeItem | app/submissions/page.tsx:6-14 | Reading an accepted value gives a submission whose five required fields are the value's strings, with `ip` and `ua` absent |
| SubmissionGuards.EncodedItemRoundTrip | app/submissions/page.tsx:21-31 | Every submission passes `isItem`, and its five required fields read back unchanged |
| SubmissionGuards.EncodedApiListAccepted | app/submissions/page.tsx:33-44 | Every success or failure envelope passes `isApiList` |
| SubmissionGuards.OptionalFieldsUnchecked | app/submissions/page.tsx:21-31 | `ip` and `ua` are not checked: an item whose `ip` is a number still passes |
| SubmissionGuards.OneBadItemRejectsList | app/submissions/page.tsx:37-39 | One element that is not an item rejects a success envelope |

## Left out

- The Supabase store is left out, because it is an external service. The insert's reply is the parameter `insert`.
- The module-level client cache of `getSupabaseAdmin` is state kept across requests; the model takes it as the parameter `clientCached` and does not model its update.
- Nodemailer is left out: transport creation, `sendMail` and `verify` are network I/O. Their outcomes are the parameters `mailDelivered` and `verifyError`.
- The relay URL with its percent-encoded credentials is left out; only the scheme is modelled.
- The HTML and plain-text mail bodies and subjects are left out; only `escapeHtml`, which they use, is modelled.
- Logging to standard error is left out: it does not affect any answer.
- The schema library's e-mail grammar and UUID check are the parameters `isEmail` and `isUuid`.
- JavaScript's string-to-number conversion is the parameter `parse`, and `Number.isFinite` is the `Finite` case of the number type. Floating point is not modelled.
- `toLowerCase` is modelled on ASCII letters only. This is exact for the comparisons made here (`true`, `1`, `yes`): the only non-ASCII character that lower-cases to an ASCII letter is the Kelvin sign, which becomes `k`.
- Reading the body is modelled by the entry lists `jsonEntries` and `formEntries`. A body that cannot be parsed, and the JSON value `null` (on which `Object.entries` throws), are `body == None` in `Post`. Any other JSON value that is not an object gives whatever entries `Object.entries` yields for it, as `jsonEntries`. Form file entries count as non-strings.
- ContactRoute.Validate: a missing field's finding is modelled with the schema library's default message `Required`. That message is not written in this repository.
- ContactRoute.Post: an `InsertedRow` whose `id` is not a UUID throws, and the answer is `Unexpected server error.`; the model makes that path explicit, as it does for the missing store configuration.
- The `user-agent` header and the row written to the store are not modelled. They do not affect the answer.
- `readingTime` and the MDX, remark and rehype plugins of the content configuration are left out: they are foreign libraries.
- The contentlayer document type declaration (field list, file pattern) is left out; only the computed fields are modelled.
- `draft` is taken as an optional string, because the field is declared as one. A non-string value converted by `String()` is not modelled.
- Blog.Posts: the article bodies (`content`) are left empty. No modelled lookup reads them.
- SubmissionGuards.DecodeItem: `ip` and `ua` are not read back. The guard does not check them, so their types are not known.
- The React state and fetching of the submissions page are left out, as are the rendering of every component and the React `children` of the navigation link.
- The `debug` query parameter is taken as already extracted from the request URL, as `debugParam`.
- The TypeScript-only declarations (`runtime`, `dynamic`, interfaces) are left out. They carry no behaviour.
