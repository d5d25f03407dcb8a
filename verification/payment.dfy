/** The request gate behind `POST /create-payment-intent`: validate the
    amount, build the processor request, and relay the processor's outcome.
    The processor itself is a parameter: whatever it answers for a request. */
module PaymentIntent {
  import opened Wrappers

  const DefaultCurrency: string := "eur"
  const InvalidAmountMessage: string := "Montant invalide"
  const FallbackErrorMessage: string := "Impossible de créer PaymentIntent"

  /** The fields of the request body the handler reads; `None` is absence.
      Amounts are integers, in minor currency units. */
  datatype PaymentRequestBody = PaymentRequestBody(amount: Option<int>, currency: Option<string>)

  /** The parameters sent to the processor's `paymentIntents.create`. */
  datatype IntentRequest = IntentRequest(
    amount: int,
    currency: string,
    automaticPaymentMethods: bool,
    metadata: map<string, string>)

  /** What the processor call produced: a created intent, or a thrown error
      whose `message` may be absent. */
  datatype ProcessorOutcome =
    | Created(id: string, clientSecret: string)
    | Failed(message: Option<string>)

  /** The JSON bodies the endpoint sends. */
  datatype PaymentBody =
    | IntentCreated(clientSecret: string, paymentIntentId: string)
    | Error(error: string)

  datatype PaymentResponse = PaymentResponse(status: int, body: PaymentBody)

  /** The decision taken before any processor call: reject the request
      outright, or forward this request to the processor. */
  datatype GateDecision = Rejected(response: PaymentResponse) | Forward(request: IntentRequest)

  /** One handled request: what, if anything, went to the processor, and what
      the client got back. */
  datatype Exchange = Exchange(sent: Option<IntentRequest>, response: PaymentResponse)

  /** A request the processor accepts as an intent amount: a positive integer. */
  predicate WellFormedRequest(req: IntentRequest) {
    req.amount > 0
  }

  /** The validation and request construction. JavaScript's `!amount ||
      amount <= 0` rejects an absent amount, zero and negative amounts; the
      destructuring default `currency = 'eur'` applies only when the field is
      absent. `Math.round(parseFloat(amount))` is the identity on integers,
      so the amount goes out as received. */
  function Gate(body: PaymentRequestBody): (d: GateDecision)
    ensures d.Rejected? <==> body.amount.None? || body.amount.value <= 0
    ensures d.Rejected? ==> d.response == PaymentResponse(400, Error(InvalidAmountMessage))
    ensures d.Forward? ==> WellFormedRequest(d.request)
    ensures d.Forward? ==> d.request.amount == body.amount.value
    ensures d.Forward? && body.currency.Some? ==> d.request.currency == body.currency.value
    ensures d.Forward? && body.currency.None? ==> d.request.currency == "eur"
    ensures d.Forward? ==> d.request.automaticPaymentMethods
    ensures d.Forward? ==> d.request.metadata == map["integration_check" := "accept_a_payment"]
  {
    if body.amount.None? || body.amount.value == 0 || body.amount.value <= 0 then
      Rejected(PaymentResponse(400, Error(InvalidAmountMessage)))
    else
      Forward(IntentRequest(
        body.amount.value,
        body.currency.GetOr(DefaultCurrency),
        true,
        map["integration_check" := "accept_a_payment"]))
  }

  /** The mapping of the processor's outcome to the client's response: the
      intent's id and secret with 200, or the error message with 500, falling
      back to a fixed message when the error has none (`err.message ||
      '...'` treats an empty message as none). */
  function Relay(outcome: ProcessorOutcome): (r: PaymentResponse)
    ensures r.status == 200 <==> outcome.Created?
    ensures r.status == 200 || r.status == 500
    ensures outcome.Created? ==> r.body == IntentCreated(outcome.clientSecret, outcome.id)
    ensures outcome.Failed? ==> r.body.Error? && r.body.error != ""
    ensures outcome.Failed? && outcome.message.Some? && outcome.message.value != ""
         ==> r.body.error == outcome.message.value
    ensures outcome.Failed? && (outcome.message.None? || outcome.message.value == "")
         ==> r.body.error == "Impossible de créer PaymentIntent"
  {
    match outcome
    case Created(id, secret) => PaymentResponse(200, IntentCreated(secret, id))
    case Failed(message) =>
      if message.Some? && message.value != "" then PaymentResponse(500, Error(message.value))
      else PaymentResponse(500, Error(FallbackErrorMessage))
  }

  /** The whole handler for a given processor. */
  function CreatePaymentIntent(body: PaymentRequestBody, processor: IntentRequest -> ProcessorOutcome): (x: Exchange)
    ensures x.sent.None? <==> body.amount.None? || body.amount.value <= 0
    ensures x.sent.None? ==> x.response == PaymentResponse(400, Error("Montant invalide"))
    ensures x.sent.Some? ==> Gate(body) == Forward(x.sent.value)
    ensures x.sent.Some? ==> x.response == Relay(processor(x.sent.value))
  {
    match Gate(body)
    case Rejected(response) => Exchange(None, response)
    case Forward(request) => Exchange(Some(request), Relay(processor(request)))
  }

  /** The three statuses tell apart the three things that can happen: 400
      exactly when nothing was sent, 200 exactly when the processor created
      an intent, 500 exactly when it failed. */
  lemma StatusClassifies(body: PaymentRequestBody, processor: IntentRequest -> ProcessorOutcome)
    ensures var x := CreatePaymentIntent(body, processor);
      && (x.response.status == 400 <==> x.sent.None?)
      && (x.response.status == 200 <==> x.sent.Some? && processor(x.sent.value).Created?)
      && (x.response.status == 500 <==> x.sent.Some? && processor(x.sent.value).Failed?)
  {
  }

  /** A rejected request never reaches the processor: the response is the
      same whatever the processor would have answered. */
  lemma RejectionIgnoresProcessor(body: PaymentRequestBody,
                                  p1: IntentRequest -> ProcessorOutcome,
                                  p2: IntentRequest -> ProcessorOutcome)
    requires body.amount.None? || body.amount.value <= 0
    ensures CreatePaymentIntent(body, p1) == CreatePaymentIntent(body, p2)
    ensures CreatePaymentIntent(body, p1).sent.None?
  {
  }

  /** For a positive amount the processor sees exactly that amount, not
      scaled, and the supplied currency or the default one. */
  lemma ForwardsAmountUnscaled(amount: int, currency: Option<string>, processor: IntentRequest -> ProcessorOutcome)
    requires amount > 0
    ensures var x := CreatePaymentIntent(PaymentRequestBody(Some(amount), currency), processor);
      && x.sent.Some?
      && x.sent.value.amount == amount
      && x.sent.value.currency == currency.GetOr("eur")
  {
  }

  /** A processor success is relayed as 200 with its secret and id; a
      failure as 500 with its message. */
  lemma OutcomeRelayed(body: PaymentRequestBody, processor: IntentRequest -> ProcessorOutcome)
    requires body.amount.Some? && body.amount.value > 0
    ensures var x := CreatePaymentIntent(body, processor);
      match processor(x.sent.value)
      case Created(id, secret) => x.response == PaymentResponse(200, IntentCreated(secret, id))
      case Failed(Some(m)) =>
        x.response == PaymentResponse(500, Error(if m == "" then "Impossible de créer PaymentIntent" else m))
      case Failed(None) => x.response == PaymentResponse(500, Error("Impossible de créer PaymentIntent"))
  {
  }

  /** A worked example: 1999 cents in euros with a processor that creates
      the intent. */
  lemma Example1999Euros(id: string, secret: string)
    ensures var x := CreatePaymentIntent(PaymentRequestBody(Some(1999), Some("eur")),
                                         (req: IntentRequest) => Created(id, secret));
      && x.sent == Some(IntentRequest(1999, "eur", true, map["integration_check" := "accept_a_payment"]))
      && x.response == PaymentResponse(200, IntentCreated(secret, id))
  {
  }
}
