/** The payment service: guard logic in front of an abstract payment port.
    The provider behind the port is opaque: its state has an arbitrary type S
    and each port operation is an arbitrary function of that state and its
    argument. Every service operation returns the provider's new state, its
    result or error, and the trace of port calls it made, each with the reply
    the port gave. */
module PaymentService {
  import opened Wrappers
  import opened Text
  import opened PaymentIntents

  /** What a port call yields: an intent, or a PaymentProcessingException. */
  datatype Reply = Returned(intent: PaymentIntent) | ProcessingFailed(cause: string)

  /** The payment port. Retrieval only reads the provider's state; create,
      confirm and cancel may change it. */
  datatype PaymentPort<!S> = PaymentPort(
    create: (S, PaymentIntent) -> (S, Reply),
    retrieve: (S, JString) -> Reply,
    confirm: (S, string) -> (S, Reply),
    cancel: (S, string) -> (S, Reply))

  /** One port call as it appears in a trace, with the reply it got. */
  datatype PortCall =
    | Create(intent: PaymentIntent, reply: Reply)
    | Get(requested: JString, reply: Reply)
    | Confirm(id: string, reply: Reply)
    | Cancel(id: string, reply: Reply)
  {
    /** A call that changes the state of an existing intent. */
    predicate Acts() {
      Confirm? || Cancel?
    }
  }

  datatype Action = ConfirmAction | CancelAction

  /** The errors the service raises or lets through. */
  datatype ServiceError =
    | Invalid(violation: Violation)        // thrown by PaymentIntent.validate()
    | IdRequired                           // "Payment intent ID is required"
    | EventTypeRequired                    // "Event type is required"
    | AlreadyFinal(action: Action, id: string, status: PaymentStatus)  // IllegalStateException
    | ProviderFailed(cause: string)        // PaymentProcessingException from the port

  datatype Exchange<S, T> = Exchange(state: S, result: Result<T, ServiceError>, calls: seq<PortCall>)

  /** The port's reply as seen by the caller: the intent, or the port's exception. */
  function FromReply(reply: Reply): (r: Result<PaymentIntent, ServiceError>)
    ensures reply.Returned? <==> r.Ok?
    ensures reply.Returned? ==> r.value == reply.intent
    ensures reply.ProcessingFailed? ==> r == Err(ProviderFailed(reply.cause))
  {
    match reply
    case Returned(p) => Ok(p)
    case ProcessingFailed(cause) => Err(ProviderFailed(cause))
  }

  /** `createPaymentIntent`: a rejected intent never reaches the port; a valid
      one is handed to the port's create exactly once, unchanged, and the
      port's answer is returned unchanged. */
  function CreatePaymentIntent<S>(port: PaymentPort<S>, s: S, intent: PaymentIntent): (r: Exchange<S, PaymentIntent>)
    ensures Validate(intent).Fail? ==>
              r.result == Err(Invalid(Validate(intent).error)) && r.calls == [] && r.state == s
    ensures Validate(intent).Pass? ==>
              && r.calls == [Create(intent, port.create(s, intent).1)]
              && r.state == port.create(s, intent).0
              && r.result == FromReply(port.create(s, intent).1)
  {
    match Validate(intent)
    case Fail(v) => Exchange(s, Err(Invalid(v)), [])
    case Pass =>
      var (s', reply) := port.create(s, intent);
      Exchange(s', FromReply(reply), [Create(intent, reply)])
  }

  /** `getPaymentIntent`: a null or blank id is rejected without a port call;
      otherwise exactly one retrieval, whose answer is returned. */
  function GetPaymentIntent<S>(port: PaymentPort<S>, s: S, id: JString): (r: Exchange<S, PaymentIntent>)
    ensures r.state == s
    ensures IsNullOrBlank(id) ==> r.result == Err(IdRequired) && r.calls == []
    ensures !IsNullOrBlank(id) ==>
              r.calls == [Get(id, port.retrieve(s, id))] && r.result == FromReply(port.retrieve(s, id))
  {
    if IsNullOrBlank(id) then Exchange(s, Err(IdRequired), [])
    else
      var reply := port.retrieve(s, id);
      Exchange(s, FromReply(reply), [Get(id, reply)])
  }

  /** The fetch-then-act shape shared by confirm and cancel: validate the id,
      retrieve the current intent, refuse if it is final, otherwise perform
      `act` on the provider. */
  function FetchThenAct<S>(port: PaymentPort<S>, s: S, id: JString, action: Action): (r: Exchange<S, PaymentIntent>)
    ensures IsNullOrBlank(id) ==> r == Exchange(s, Err(IdRequired), [])
    ensures !IsNullOrBlank(id) ==>
              |r.calls| >= 1 && r.calls[0] == Get(id, port.retrieve(s, id))
    ensures !IsNullOrBlank(id) && port.retrieve(s, id).ProcessingFailed? ==>
              r == Exchange(s, Err(ProviderFailed(port.retrieve(s, id).cause)), [Get(id, port.retrieve(s, id))])
    ensures !IsNullOrBlank(id) && port.retrieve(s, id).Returned? && IsFinalState(port.retrieve(s, id).intent) ==>
              && r.state == s
              && r.calls == [Get(id, port.retrieve(s, id))]
              && r.result == Err(AlreadyFinal(action, id.value, port.retrieve(s, id).intent.status.value))
    ensures !IsNullOrBlank(id) && port.retrieve(s, id).Returned? && !IsFinalState(port.retrieve(s, id).intent) ==>
              var (s', reply) := if action == ConfirmAction then port.confirm(s, id.value) else port.cancel(s, id.value);
              && r.state == s'
              && r.result == FromReply(reply)
              && r.calls == [Get(id, port.retrieve(s, id)),
                             if action == ConfirmAction then Confirm(id.value, reply) else Cancel(id.value, reply)]
  {
    if IsNullOrBlank(id) then Exchange(s, Err(IdRequired), [])
    else
      var current := port.retrieve(s, id);
      var fetched := Get(id, current);
      match current
      case ProcessingFailed(cause) => Exchange(s, Err(ProviderFailed(cause)), [fetched])
      case Returned(p) =>
        if IsFinalState(p) then Exchange(s, Err(AlreadyFinal(action, id.value, p.status.value)), [fetched])
        else if action == ConfirmAction then
          var (s', reply) := port.confirm(s, id.value);
          Exchange(s', FromReply(reply), [fetched, Confirm(id.value, reply)])
        else
          var (s', reply) := port.cancel(s, id.value);
          Exchange(s', FromReply(reply), [fetched, Cancel(id.value, reply)])
  }

  /** `confirmPaymentIntent`: fetch, refuse a final intent, otherwise confirm.
      A confirm call is only ever made right after a successful fetch of the
      same id that showed a non-final intent, and no cancel is ever made. */
  function ConfirmPaymentIntent<S>(port: PaymentPort<S>, s: S, id: JString): (r: Exchange<S, PaymentIntent>)
    ensures forall i :: 0 <= i < |r.calls| ==> !r.calls[i].Cancel? && !r.calls[i].Create?
    ensures forall i :: 0 <= i < |r.calls| && r.calls[i].Confirm? ==>
              i == 1 && AuthorizesAction(r.calls[0], r.calls[i].id)
    ensures r.result.Err? && r.result.error.AlreadyFinal? ==>
              && r.result.error.action == ConfirmAction
              && id == Some(r.result.error.id)
              && r.result.error.status in FinalStatuses
              && r.state == s
  {
    FetchThenAct(port, s, id, ConfirmAction)
  }

  /** `cancelPaymentIntent`: the same guard in front of the port's cancel. */
  function CancelPaymentIntent<S>(port: PaymentPort<S>, s: S, id: JString): (r: Exchange<S, PaymentIntent>)
    ensures forall i :: 0 <= i < |r.calls| ==> !r.calls[i].Confirm? && !r.calls[i].Create?
    ensures forall i :: 0 <= i < |r.calls| && r.calls[i].Cancel? ==>
              i == 1 && AuthorizesAction(r.calls[0], r.calls[i].id)
    ensures r.result.Err? && r.result.error.AlreadyFinal? ==>
              && r.result.error.action == CancelAction
              && id == Some(r.result.error.id)
              && r.result.error.status in FinalStatuses
              && r.state == s
  {
    FetchThenAct(port, s, id, CancelAction)
  }

  /** The provider is asked to confirm or cancel exactly when the id is
      present and the fetched intent is not final; otherwise its state is
      left as it was. */
  lemma ProviderActsIffIntentLive<S>(port: PaymentPort<S>, s: S, id: JString, action: Action)
    ensures var r := FetchThenAct(port, s, id, action);
            (|r.calls| == 2 && r.calls[1].Acts()) <==>
              (!IsNullOrBlank(id) && port.retrieve(s, id).Returned? && !IsFinalState(port.retrieve(s, id).intent))
    ensures var r := FetchThenAct(port, s, id, action);
            |r.calls| < 2 ==> r.state == s
  {
  }

  /** A fetched intent that has already succeeded is refused, naming the id
      and the status, and neither confirm nor cancel reaches the provider. */
  lemma SucceededIntentIsRefused<S>(port: PaymentPort<S>, s: S, id: string, action: Action)
    requires !IsBlank(id)
    requires port.retrieve(s, Some(id)).Returned?
    requires port.retrieve(s, Some(id)).intent.status == Some(Succeeded)
    ensures var r := FetchThenAct(port, s, Some(id), action);
            && r.result == Err(AlreadyFinal(action, id, Succeeded))
            && r.state == s
            && r.calls == [Get(Some(id), port.retrieve(s, Some(id)))]
  {
  }

  /** `processWebhookEvent`: a null or blank event type is rejected without a
      port call; otherwise the referenced intent (whose id is not checked) is
      retrieved once for the audit log and nothing else happens. Only a failing
      retrieval makes it fail. */
  function ProcessWebhookEvent<S>(port: PaymentPort<S>, s: S, eventType: JString, intentId: JString): (r: Exchange<S, ()>)
    ensures r.state == s
    ensures IsNullOrBlank(eventType) ==> r.result == Err(EventTypeRequired) && r.calls == []
    ensures !IsNullOrBlank(eventType) ==>
              && r.calls == [Get(intentId, port.retrieve(s, intentId))]
              && (r.result.Ok? <==> port.retrieve(s, intentId).Returned?)
              && (r.result.Err? ==> r.result.error == ProviderFailed(port.retrieve(s, intentId).cause))
  {
    if IsNullOrBlank(eventType) then Exchange(s, Err(EventTypeRequired), [])
    else
      var reply := port.retrieve(s, intentId);
      match reply
      case Returned(_) => Exchange(s, Ok(()), [Get(intentId, reply)])
      case ProcessingFailed(cause) => Exchange(s, Err(ProviderFailed(cause)), [Get(intentId, reply)])
  }

  /** The event type's content beyond being non-blank is never consulted:
      recognised and unrecognised event types are handled alike. */
  lemma WebhookIgnoresEventType<S>(port: PaymentPort<S>, s: S, e1: string, e2: string, intentId: JString)
    requires !IsBlank(e1) && !IsBlank(e2)
    ensures ProcessWebhookEvent(port, s, Some(e1), intentId) == ProcessWebhookEvent(port, s, Some(e2), intentId)
  {
  }

  // ---------------------------------------------------------------------------
  // Traces of whole sessions

  /** `c` is a successful fetch of `id` that showed a non-final intent. */
  predicate AuthorizesAction(c: PortCall, id: string) {
    c.Get? && c.requested == Some(id) && c.reply.Returned? && !IsFinalState(c.reply.intent)
  }

  /** Every confirm or cancel in `t` comes right after a fetch that authorizes it. */
  predicate FetchedBeforeActing(t: seq<PortCall>) {
    forall i :: 0 <= i < |t| && t[i].Acts() ==> 0 < i && AuthorizesAction(t[i - 1], t[i].id)
  }

  /** Every intent sent to the provider's create passed validation. */
  predicate CreatesOnlyValid(t: seq<PortCall>) {
    forall i :: 0 <= i < |t| && t[i].Create? ==> Validate(t[i].intent).Pass?
  }

  /** The two safety rules of the service, over a trace. */
  predicate Disciplined(t: seq<PortCall>) {
    FetchedBeforeActing(t) && CreatesOnlyValid(t)
  }

  /** A trace with no create, whose only confirm or cancel comes second and
      is authorized by the first call, obeys both rules. */
  lemma GuardedTraceIsDisciplined(t: seq<PortCall>)
    requires forall i :: 0 <= i < |t| ==> !t[i].Create?
    requires forall i :: 0 <= i < |t| && t[i].Acts() ==> i == 1 && AuthorizesAction(t[0], t[i].id)
    ensures Disciplined(t)
    ensures |t| > 0 ==> !t[0].Acts()
  {
  }

  /** One request to the service. */
  datatype Request =
    | CreateRequest(intent: PaymentIntent)
    | GetRequest(id: JString)
    | ConfirmRequest(id: JString)
    | CancelRequest(id: JString)
    | WebhookRequest(eventType: JString, intentId: JString)

  /** Serves one request: the provider's new state and the port calls made.
      The trace obeys both safety rules and does not open with a confirm or a
      cancel, so it can follow any other disciplined trace. */
  function Serve<S>(port: PaymentPort<S>, s: S, req: Request): (r: (S, seq<PortCall>))
    ensures Disciplined(r.1)
    ensures |r.1| > 0 ==> !r.1[0].Acts()
    ensures (req.GetRequest? || req.WebhookRequest?) ==>
              r.0 == s && forall i :: 0 <= i < |r.1| ==> r.1[i].Get?
  {
    match req
    case CreateRequest(intent) =>
      var x := CreatePaymentIntent(port, s, intent); (x.state, x.calls)
    case GetRequest(id) =>
      var x := GetPaymentIntent(port, s, id); (x.state, x.calls)
    case ConfirmRequest(id) =>
      var x := ConfirmPaymentIntent(port, s, id);
      GuardedTraceIsDisciplined(x.calls);
      (x.state, x.calls)
    case CancelRequest(id) =>
      var x := CancelPaymentIntent(port, s, id);
      GuardedTraceIsDisciplined(x.calls);
      (x.state, x.calls)
    case WebhookRequest(eventType, intentId) =>
      var x := ProcessWebhookEvent(port, s, eventType, intentId); (x.state, x.calls)
  }

  /** Serves the requests one after another against the same provider. */
  function RunSession<S>(port: PaymentPort<S>, s: S, reqs: seq<Request>): (S, seq<PortCall>)
  {
    if |reqs| == 0 then (s, [])
    else
      var (s1, t1) := Serve(port, s, reqs[0]);
      var (s2, t2) := RunSession(port, s1, reqs[1..]);
      (s2, t1 + t2)
  }

  /** Two disciplined traces concatenate into a disciplined trace when the
      second does not open with a confirm or a cancel. */
  lemma DisciplinedAppend(a: seq<PortCall>, b: seq<PortCall>)
    requires Disciplined(a) && Disciplined(b)
    requires |b| > 0 ==> !b[0].Acts()
    ensures Disciplined(a + b)
    ensures |a| > 0 ==> (a + b)[0] == a[0]
  {
    var t := a + b;
    forall i | 0 <= i < |t| && t[i].Acts()
      ensures 0 < i && AuthorizesAction(t[i - 1], t[i].id)
    {
      if i < |a| {
        assert t[i] == a[i] && t[i - 1] == a[i - 1];
      } else {
        assert t[i] == b[i - |a|];
        assert i - |a| > 0;
        assert t[i - 1] == b[i - |a| - 1];
      }
    }
    forall i | 0 <= i < |t| && t[i].Create?
      ensures Validate(t[i].intent).Pass?
    {
      if i < |a| {
        assert t[i] == a[i];
      } else {
        assert t[i] == b[i - |a|];
      }
    }
  }

  /** Over any session, whatever the provider does: no intent reaches the
      provider's create without passing validation, and no confirm or cancel
      is sent except right after a fetch of the same id that showed a
      non-final intent. */
  lemma {:induction false} SessionIsDisciplined<S>(port: PaymentPort<S>, s: S, reqs: seq<Request>)
    ensures Disciplined(RunSession(port, s, reqs).1)
    ensures |RunSession(port, s, reqs).1| > 0 ==> !RunSession(port, s, reqs).1[0].Acts()
  {
    if |reqs| > 0 {
      var (s1, t1) := Serve(port, s, reqs[0]);
      SessionIsDisciplined(port, s1, reqs[1..]);
      var t2 := RunSession(port, s1, reqs[1..]).1;
      DisciplinedAppend(t1, t2);
    }
  }

  /** A session of lookups and webhooks only reads: the provider's state is
      untouched and every port call is a retrieval. */
  lemma {:induction false} ReadOnlySession<S>(port: PaymentPort<S>, s: S, reqs: seq<Request>)
    requires forall i :: 0 <= i < |reqs| ==> reqs[i].GetRequest? || reqs[i].WebhookRequest?
    ensures RunSession(port, s, reqs).0 == s
    ensures forall i :: 0 <= i < |RunSession(port, s, reqs).1| ==> RunSession(port, s, reqs).1[i].Get?
  {
    if |reqs| > 0 {
      var (s1, t1) := Serve(port, s, reqs[0]);
      ReadOnlySession(port, s1, reqs[1..]);
      var t2 := RunSession(port, s1, reqs[1..]).1;
      assert forall i :: 0 <= i < |t1 + t2| ==> (t1 + t2)[i] == if i < |t1| then t1[i] else t2[i - |t1|];
    }
  }
}
