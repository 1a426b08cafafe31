/** The `/send-message` endpoint (Unknown.js:254-301): field validation,
    sanitisation, number formatting, the registration check and the send,
    in that order. Validation, the empty-number test, the check and the send
    can each end the request; the sanitisers cannot. The chat client's
    `isRegisteredUser` and `sendMessage` are not called but answered: each
    is an `Attempt` given as input, and the outcome records whether the
    pipeline reached them and with what arguments. */
module SendMessage {
  import opened Common
  import opened Text
  import opened Phone
  import opened Sanitize

  /** A request body field as the parser delivers it: missing (or `null`),
      a string, or some other JSON value together with its string form. */
  datatype Field = Absent | Str(s: string) | NonText(rendered: string)

  datatype SendRequest = SendRequest(to: Field, msg: Field, login: Field, pass: Field)

  datatype FieldName = To | Msg | Login | Pass

  /** One entry of the `errors` array. */
  datatype FieldError = FieldError(field: FieldName, message: string)

  /** The message `isString()` reports (it has no `withMessage`). */
  const InvalidValue: string := "Invalid value"

  /** The message attached to each field's `notEmpty()`. */
  function RequiredMessage(f: FieldName): string {
    match f
    case To => "Número do destinatário é obrigatório"
    case Msg => "Mensagem é obrigatória"
    case Login => "Login é obrigatório"
    case Pass => "Senha é obrigatória"
  }

  /** The string a validator sees for the field (`null` and `undefined` read as `''`). */
  function Rendered(v: Field): string {
    match v
    case Absent => ""
    case Str(s) => s
    case NonText(r) => r
  }

  /** A field that passes both `isString()` and `notEmpty()`. */
  predicate FieldOk(v: Field) {
    v.Str? && v.s != []
  }

  /** The errors of one field's chain `isString().notEmpty()`: every
      validator in the chain runs and reports its own failure. */
  function FieldErrors(f: FieldName, v: Field): (errs: seq<FieldError>)
    ensures errs == [] <==> FieldOk(v)
    ensures forall e :: e in errs ==> e.field == f
    ensures |errs| <= 2
  {
    (if v.Str? then [] else [FieldError(f, InvalidValue)])
    + (if Rendered(v) == [] then [FieldError(f, RequiredMessage(f))] else [])
  }

  function FieldOf(req: SendRequest, f: FieldName): Field {
    match f
    case To => req.to
    case Msg => req.msg
    case Login => req.login
    case Pass => req.pass
  }

  predicate AllFieldsOk(req: SendRequest) {
    FieldOk(req.to) && FieldOk(req.msg) && FieldOk(req.login) && FieldOk(req.pass)
  }

  /** `validationResult(req).array()`: the chains' errors in declaration order. */
  function Validate(req: SendRequest): (errs: seq<FieldError>)
    ensures errs == [] <==> AllFieldsOk(req)
    ensures forall f: FieldName :: (exists e :: e in errs && e.field == f) <==> !FieldOk(FieldOf(req, f))
  {
    var errs := FieldErrors(To, req.to) + FieldErrors(Msg, req.msg)
      + FieldErrors(Login, req.login) + FieldErrors(Pass, req.pass);
    assert forall f: FieldName :: (exists e :: e in errs && e.field == f) <==> !FieldOk(FieldOf(req, f)) by {
      forall f: FieldName
        ensures (exists e :: e in errs && e.field == f) <==> !FieldOk(FieldOf(req, f))
      {
        var own := FieldErrors(f, FieldOf(req, f));
        assert forall e :: e in own ==> e in errs;
        if !FieldOk(FieldOf(req, f)) {
          assert own[0] in errs && own[0].field == f;
        }
      }
    }
    errs
  }

  /** The response the endpoint sends. */
  datatype Reply =
    | Sent                                // 200 "Mensagem enviada com sucesso!"
    | BadFields(errors: seq<FieldError>)  // 400 { errors }
    | InvalidNumber                       // 400 "Número de telefone inválido"
    | NotRegistered                       // 400 "Número não registrado no WhatsApp"
    | SendFailed                          // 500 "Erro ao enviar mensagem"

  /** The HTTP status of a reply: 200 only for a completed send, 500 only
      when a collaborator threw, 400 for every mistake of the caller. */
  function Status(r: Reply): (code: int)
    ensures code in {200, 400, 500}
    ensures code == 200 <==> r.Sent?
    ensures code == 500 <==> r.SendFailed?
    ensures code == 400 <==> r.BadFields? || r.InvalidNumber? || r.NotRegistered?
  {
    match r
    case Sent => 200
    case BadFields(_) => 400
    case InvalidNumber => 400
    case NotRegistered => 400
    case SendFailed => 500
  }

  /** What `sendMessage` was called with. */
  datatype Dispatch = Dispatch(contactId: string, text: string)

  /** The reply, the identifier `isRegisteredUser` was asked about (if it was
      reached) and the send that was made (if it was reached). */
  datatype Outcome = Outcome(reply: Reply, checked: Option<string>, sent: Option<Dispatch>)

  /** The steps after validation, inside the handler's `try`. */
  function Dispatching(to: string, msg: string, registered: Attempt<bool>, send: Attempt<()>): (o: Outcome)
    ensures FormatPhone(to) == [] <==> o.checked.None?
    ensures o.checked.Some? ==> o.checked.value == ContactId(FormatPhone(to))
    ensures o.sent.Some? <==> o.checked.Some? && registered == Returned(true)
    ensures o.sent.Some? ==> o.sent.value == Dispatch(ContactId(FormatPhone(to)), StripTags(msg))
  {
    var sanitized := StripTags(msg);
    var digits := FormatPhone(to);
    if digits == [] then Outcome(InvalidNumber, None, None)
    else
      var contact := ContactId(digits);
      match registered
      case Threw => Outcome(SendFailed, Some(contact), None)
      case Returned(false) => Outcome(NotRegistered, Some(contact), None)
      case Returned(true) =>
        var attempt := Dispatch(contact, sanitized);
        match send
        case Threw => Outcome(SendFailed, Some(contact), Some(attempt))
        case Returned(_) => Outcome(Sent, Some(contact), Some(attempt))
  }

  /** The whole handler for one request. */
  function Deliver(req: SendRequest, registered: Attempt<bool>, send: Attempt<()>): (o: Outcome)
    // validation is the first exit and nothing else runs on it
    ensures !AllFieldsOk(req) <==> o.reply.BadFields?
    ensures !AllFieldsOk(req) ==> o.reply.errors == Validate(req) && o.checked.None? && o.sent.None?
    // an empty formatted number is the second exit, before the check
    ensures o.reply == InvalidNumber <==> AllFieldsOk(req) && FormatPhone(req.to.s) == []
    ensures o.reply == InvalidNumber ==> o.checked.None? && o.sent.None?
    // the registration check is made exactly for valid requests with digits
    ensures o.checked.Some? <==> AllFieldsOk(req) && FormatPhone(req.to.s) != []
    ensures o.checked.Some? ==> o.checked.value == ContactId(FormatPhone(req.to.s))
    // a number that is not registered is never sent to
    ensures o.reply == NotRegistered <==> o.checked.Some? && registered == Returned(false)
    ensures o.reply == NotRegistered ==> o.sent.None?
    // a send happens only after a positive check, with the sanitised text
    ensures o.sent.Some? <==> o.checked.Some? && registered == Returned(true)
    ensures o.sent.Some? ==>
      o.sent.value == Dispatch(ContactId(FormatPhone(req.to.s)), StripTags(req.msg.s))
    // either collaborator throwing is a 500
    ensures o.reply == SendFailed <==>
      o.checked.Some? && (registered.Threw? || (registered == Returned(true) && send.Threw?))
    ensures o.reply == Sent <==> o.sent.Some? && send.Returned?
    ensures Status(o.reply) == 200 <==> o.reply == Sent
  {
    var errors := Validate(req);
    if errors != [] then Outcome(BadFields(errors), None, None)
    else
      var sanitizedLogin := SanitizeLogin(req.login.s);  // computed and never used
      Dispatching(req.to.s, req.msg.s, registered, send)
  }

  /** `login` and `pass` are only validated, never checked: any two valid
      credentials lead to the same outcome. */
  lemma CredentialsIgnored(req: SendRequest, login: string, pass: string,
                           registered: Attempt<bool>, send: Attempt<()>)
    requires login != [] && pass != []
    requires FieldOk(req.login) && FieldOk(req.pass)
    ensures Deliver(req.(login := Str(login), pass := Str(pass)), registered, send)
         == Deliver(req, registered, send)
  {
  }

  /** The status tells the exits apart: 400 for the caller's mistakes
      (fields, number, registration), 500 exactly when a collaborator that
      was reached threw. */
  lemma StatusClassifiesExits(req: SendRequest, registered: Attempt<bool>, send: Attempt<()>)
    ensures var o := Deliver(req, registered, send);
      (Status(o.reply) == 500 <==> (registered.Threw? && o.checked.Some?) || (o.sent.Some? && send.Threw?)) &&
      (Status(o.reply) == 400 <==> o.reply.BadFields? || o.reply == InvalidNumber || o.reply == NotRegistered)
  {
  }

  /** A login made of letters and digits followed by symbols sanitises to
      the letters and digits (so `abc123!` gives `abc123`). */
  lemma LoginDropsTrailingSymbols(name: string, symbols: string)
    requires forall i :: 0 <= i < |name| ==> IsAsciiAlnum(name[i])
    requires forall i :: 0 <= i < |symbols| ==> !IsAsciiAlnum(symbols[i])
    ensures SanitizeLogin(name + symbols) == name
  {
    FilterAppend(name, symbols, IsAsciiAlnum);
    FilterUnchangedIff(name, IsAsciiAlnum);
    FilterEmptyIff(symbols, IsAsciiAlnum);
  }

  /** A valid request to `digits@c.us`, a registered number, with a send
      that returns: the check and the send use that same identifier, the
      sanitised message is sent, and the reply is 200. */
  lemma DeliverSucceeds(digits: string, msg: string, login: string, pass: string)
    requires digits != [] && forall i :: 0 <= i < |digits| ==> IsDigit(digits[i])
    requires msg != [] && login != [] && pass != []
    ensures Deliver(SendRequest(Str(digits + WidSuffix), Str(msg), Str(login), Str(pass)), Returned(true), Returned(()))
         == Outcome(Sent, Some(digits + WidSuffix), Some(Dispatch(digits + WidSuffix, StripTags(msg))))
  {
    FormatWidNumber(digits);
  }
}
