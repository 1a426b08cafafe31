# WhatsApp gateway policy core, in Dafny

This project models the decision logic of a small WhatsApp automation
gateway (`Unknown.js`): a Node.js process that holds a `whatsapp-web.js`
session, answers some inbound text messages automatically, rejects calls
outside business hours, and exposes `POST /send-message` so other systems
can send a message through the session. The model covers five pieces.

- **Phone-number formatting** (`phoneNumberFormatter`), module `Phone`. It
  drops the first `@c.us` and keeps the decimal digits. `ContactId` rebuilds
  the identifier `digits@c.us`.
- **Business hours and call gating**, module `BusinessHours`. The window is
  08:00–18:59. The `call` handler is installed only when the start-up hour is
  outside the window. Each call is then checked against the window again.
  After that come `call.reject()`, the "Fora do horário comercial." notice,
  and a `catch` that logs.
- **Inbound message rules**, module `MessageRules`. There is a
  case-insensitive exact "jaco" rule (reply "Oi" after 30 000 ms) and a
  case-insensitive substring "pix" rule (one of `respostasPix` after
  10 000 ms). Timers are data: a reply carries its delay.
- **The `memoize` cache**, module `Memo`. It is one map shared by every
  memoized function and keyed by the serialised arguments. A lookup only
  hits on a truthy value, and a falsy result is stored but recomputed.
- **The `/send-message` pipeline**, modules `SendMessage` and `Sanitize`. It
  runs validation, the tag and login sanitisers, number formatting, the
  `isRegisteredUser` check, and `sendMessage`, in that order. Validation, the
  empty-number test, the check and the send can each end the request; the
  two sanitisers run on already validated strings, outside the `try`, and
  cannot. The
  two chat-client calls are oracle inputs. Each is an `Attempt`: either it
  returns a value or it throws. The `Outcome` records whether the check and
  the send were reached, and with which arguments.

Shared helpers live in `Common` (`Option`, `Attempt`) and `Text`. `Text`
holds the character classes, the order-preserving `Filter`, and `Select` and
`IsSubsequence`. It also has `IndexOf`, `Contains` and `ReplaceFirst`, which
model JavaScript's `indexOf`, `includes` and `replace` with a string pattern.

Some consequences of the code that are easy to miss:

- The "jaco" and "pix" rules cannot both fire on one message, because
  "jaco" contains no "pix" (`MessageRules.RulesExclusive`). A message gets
  at most one automatic reply.
- The business-hours test at start-up (line 111) does not latch the
  window: it only decides whether the `call` handler exists. Every call the
  handler sees is checked again against the window (line 114). A process
  started during business hours therefore never rejects a call (see
  Findings).
- Each field's chain `isString().notEmpty()` reports one entry per failing
  validator. An absent field fails both, so it yields two entries:
  `"Invalid value"` and the field's own message. Every failing field is
  named, and no passing field is.

## Model

| member | source | states |
|---|---|---|
| Phone.FormatPhone | Unknown.js:245-252 | the result is digits only and equals the decimal digits of the input in order; the falsy branch and the `@c.us` branch agree with the plain digit filter |
| Phone.FormatPhoneEmptyIff | Unknown.js:245-252 | the formatted number is `''` exactly when the input contains no decimal digit |
| Phone.FormatPhoneIsSubsequence | Unknown.js:249-251 | the formatted number is obtained from the input by deleting characters |
| Phone.FormatPhoneIdempotent | Unknown.js:245-252 | formatting an already formatted number returns it unchanged |
| Phone.FormatWidNumber | Unknown.js:247-249 | an identifier made of digits followed by `@c.us` formats to exactly those digits (so "5585999999999@c.us" gives "5585999999999") |
| Phone.ContactId | Unknown.js:280 | the contact identifier is the digits followed by `@c.us`, and formatting it gives back the digits it was built from |
| Phone.ContactIdRoundTrip | Unknown.js:273-280 | formatting the contact id `digits@c.us` built from a formatted number gives back the same digits |
| Sanitize.StripTags | Unknown.js:269 | the sanitised message contains no `<`, is no longer than the input, and is the input itself when the input has no `<` |
| Sanitize.StripTagsIsScan | Unknown.js:269 | the match-by-match reading of `/<[^>]*>?/g` (each `<` swallows text through the next `>`, or to the end) equals a character-by-character tag-flag scan |
| Sanitize.StripTagsPass | Unknown.js:269 | a single left-to-right pass with a tag flag computes exactly the regex replacement, and its output has no `<` |
| Sanitize.StripTagsElement | Unknown.js:269 | an element `<open>text<close>` whose text has no `<` sanitises to exactly its text (so `<b>Hi</b>` gives `Hi`) |
| Sanitize.StripTagsIsSubsequence | Unknown.js:269 | the sanitised message is a subsequence of the raw message |
| Sanitize.StripTagsIdempotent | Unknown.js:269 | sanitising a sanitised message changes nothing |
| Sanitize.SanitizeLogin | Unknown.js:270 | the sanitised login holds only ASCII `[A-Za-z0-9]`, is a subsequence of the input, and equals the input exactly when the input is all alphanumeric |
| Sanitize.SanitizeLoginIdempotent | Unknown.js:270 | sanitising a sanitised login changes nothing |
| BusinessHours.IsWithinBusinessHours | Unknown.js:28-38 | an hour is within business hours exactly when it is one of 8, 9, …, 18; hours up to 7 and from 19 on are outside |
| BusinessHours.HandlerInstalled | Unknown.js:111 | the `call` handler is installed exactly when the start-up hour is outside 8..18 |
| BusinessHours.OnCall | Unknown.js:113-123 | the notice goes to the caller exactly when the handler is installed, the call is outside hours, and both `reject` and the send return; a throwing `reject` means no notice and a logged error; nothing propagates |
| BusinessHours.OnCallAsWritten | Unknown.js:111-125 | a call is rejected exactly when both the start-up hour and the call hour are outside business hours and `reject` returns |
| BusinessHours.StartedInHoursNeverRejects | Unknown.js:111-114 | a process started inside business hours ignores every call, whatever its hour |
| BusinessHours.LatchLetsNightCallThrough | Unknown.js:111-114 | started at 10:00, a call at 22:00 (outside hours) is let through |
| BusinessHours.OnCallPerEvent | Unknown.js:113-123 | with the window checked per call only, a call is rejected exactly when it arrives outside business hours and `reject` returns |
| BusinessHours.VariantsAgreeIff | Unknown.js:111-125 | the as-written and the per-call handling give the same outcome exactly when the handler was installed or the call came in business hours |
| MessageRules.JacoRuleFires | Unknown.js:134 | the greeting rule fires exactly when the body equals "jaco" ignoring ASCII case, with no trimming |
| MessageRules.PixRuleFires | Unknown.js:142-143 | the pix rule fires exactly when "pix" occurs somewhere in the body ignoring ASCII case |
| MessageRules.RulesExclusive | Unknown.js:134-143 | no message body fires both rules |
| MessageRules.NoTrimming | Unknown.js:131-134 | " jaco" and "jaco " do not fire the greeting rule; "JaCo" does |
| MessageRules.PickIndex | Unknown.js:151 | `Math.floor(u * n)` for a draw in `[0, 1)` is a valid index below `n`, the floor of `u * n` |
| MessageRules.OnMessage | Unknown.js:128-158 | a message gets at most one scheduled reply; none exactly when neither rule fires; the greeting rule gives "Oi" after 30000 ms; the pix rule gives a reply after 10000 ms drawn from the configured answers |
| MessageRules.PixReplyIsFixed | Unknown.js:145-151 | with the single configured answer, the pix reply is that answer whatever the draw |
| MessageRules.Scenarios | Unknown.js:134-154 | "JACO" schedules exactly "Oi" after 30000 ms; "my pix key please" schedules exactly the pix answer after 10000 ms |
| Memo.MemoCall | Unknown.js:162-169 | a truthy cached value is returned without calling the function and leaves the cache unchanged; otherwise the function's result is returned and stored under the key; no key is ever removed and other keys keep their values |
| Memo.FalsyResultRecomputed | Unknown.js:165-167 | a falsy result is stored but the next call with the same key calls the function again |
| Memo.TruthyValueServed | Unknown.js:161-167 | once a truthy value is cached, any memoized function called with the same key gets it without being called |
| Memo.RunGrowsCache | Unknown.js:161-169 | after any sequence of calls the cache holds its old keys plus every key asked for, and untouched keys keep their values |
| Memo.RunValuesAreFreshOrCached | Unknown.js:161-169 | each value a sequence of calls returns is that call's own result or a truthy value cached under the same key before the run or by an earlier call |
| SendMessage.FieldErrors | Unknown.js:256-259 | a field yields no error entry exactly when it is a non-empty string, and every entry names that field |
| SendMessage.Validate | Unknown.js:255-264 | the error list is empty exactly when all four fields are non-empty strings, and it names a field exactly when that field fails |
| SendMessage.Dispatching | Unknown.js:272-298 | the registration check is made exactly when the formatted number is non-empty, on `digits@c.us`; the send happens exactly when the check returned true, with that id and the sanitised message |
| SendMessage.Status | Unknown.js:261-298 | the status is always 200, 400 or 500: 200 exactly for a completed send, 500 exactly when a collaborator threw, 400 exactly for the field, number and registration exits |
| SendMessage.Deliver | Unknown.js:255-301 | failing validation gives 400 with the validation errors and reaches nothing else; an empty number gives 400 "invalid number" before the check; "not registered" gives 400 and no send; the send uses the sanitised message; a throw from the check or the send gives 500; 200 exactly on a completed send |
| SendMessage.StatusClassifiesExits | Unknown.js:262-298 | status 500 exactly when a reached check or send threw; status 400 exactly for the field, number and registration exits |
| SendMessage.CredentialsIgnored | Unknown.js:258-270 | any two valid `login`/`pass` values give the same outcome: the credentials are never checked |
| SendMessage.LoginDropsTrailingSymbols | Unknown.js:270 | a login of letters and digits followed by non-alphanumeric characters sanitises to the letters and digits (so "abc123!" gives "abc123") |
| SendMessage.DeliverSucceeds | Unknown.js:273-294 | a valid request to `digits@c.us` for a registered number, with a send that returns, replies 200, checks and sends to that same identifier, and sends the sanitised message |

## Left out

- Express, body-parser and the winston logger setup (Unknown.js:1-24, 40-44, 310-312) are framework glue. Every log line the handlers write is a side effect, not a result, and is not modelled.
- The WhatsApp client lifecycle (Unknown.js:47-108) is not modelled. That covers `initialize` and `destroy` on disconnect, QR rendering, the `ready`, `auth_failure` and page-error hooks, and `clientStatus`, which `ready` sets and no handler resets.
- Timers are not run. A reply carries its delay as data, and what happens when `msg.reply` fails inside a timer is not modelled.
- `Math.random` is the parameter `u` of `MessageRules.OnMessage`. The draw is taken when the timer fires.
- MessageRules.PickIndex: takes `u * n` as an exact real product, not a double-precision one. With the single configured answer (`n == 1`) the two agree.
- The clock is a parameter: the hour `Date.getHours` would report.
- The resource governor (Unknown.js:172-193) reads floating-point heap and load figures and calls `global.gc`. Its "pause" is a no-op `setTimeout`. The interval that builds `expensiveFunction` only exercises `memoize`, so it is not modelled.
- The `/logs` endpoint (Unknown.js:197-232) is a file read plus HTML templating.
- `mikrotik.js` is not part of this model. It is network I/O to a router, and line 14 is not valid JavaScript.
- Memo.MemoCall: takes the cache key and the wrapped function's result as parameters. It does not model `JSON.stringify` or the call of `func` itself.
- Memo.MemoCall: the value model has integer numbers only. NaN and fractions are not modelled.
- Phone.FormatPhone: takes a string. Non-string arguments are not modelled, because the only caller passes a validated non-empty string.
- Case-insensitive matching is restricted to ASCII, which is exact for the `/i` regex on "pix". `toLowerCase` on non-ASCII characters is not modelled. JavaScript strings are UTF-16 code units; here a string is a sequence of Dafny characters.
- The express-validator rules are read as follows. `isString()` fails on non-strings with "Invalid value". `notEmpty()` fails when the value's string form is empty, and `undefined` and `null` read as `''`. Both run, and `withMessage` labels only `notEmpty()`.
- Concurrent requests and their interleaving on the shared client are not modelled. Each request is handled as one step.
- `login` and `pass` are only validated. `sanitizedLogin` is computed and never used, and there is no authentication step to model.

## Findings

| source | as written | input that shows it | evidently intended | confidence | as-written member | corrected member |
|---|---|---|---|---|---|---|
| Unknown.js:111-114 | the `call` handler is installed only if the start-up hour is outside business hours | process started at 10:00, call at 22:00: the call is neither rejected nor answered with the notice | every call arriving outside business hours is rejected, as the per-call check on line 114 expects | medium, not executed | BusinessHours.LatchLetsNightCallThrough | BusinessHours.OnCallPerEvent |
