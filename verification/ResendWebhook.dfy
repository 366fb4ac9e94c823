/**
 Receiving a provider webhook (backend/src/Email/ResendWebhookVerifier.php and ResendWebhookService.php).
 */
module ResendWebhook {
  import opened Wrappers
  import opened Notifications

  datatype Failure = SignatureInvalid | PayloadInvalid

  /** What a body that decodes to a JSON array or object says; whatever is missing or ill-typed is no kind or no id. */
  datatype Payload = Payload(kind: Kind, messageId: Option<string>)

  /**
   The headers as received, the signature header already split at white space, and the decoded
   body, if it decodes.
   */
  datatype Request = Request(
    eventId: Option<string>, timestamp: Option<string>, candidates: Option<seq<string>>, payload: Option<Payload>)

  predicate EventIdChar(c: char) {
    'A' <= c <= 'Z' || 'a' <= c <= 'z' || '0' <= c <= '9' || c == '_' || c == '-'
  }

  predicate ValidEventId(id: string) {
    1 <= |id| <= 255 && forall i :: 0 <= i < |id| ==> EventIdChar(id[i])
  }

  predicate Digits(s: string) {
    forall i :: 0 <= i < |s| ==> '0' <= s[i] <= '9'
  }

  function Decimal(s: string): nat
    requires Digits(s)
  {
    if s == "" then 0 else 10 * Decimal(s[..|s| - 1]) + (s[|s| - 1] as int - '0' as int)
  }

  /** The HMAC over id, timestamp and body that the provider must have sent. */
  predicate Signed(r: Request, expected: string) {
    r.candidates.Some? && exists i :: 0 <= i < |r.candidates.value| && r.candidates.value[i] == "v1," + expected
  }

  predicate WellFormed(r: Request) {
    r.eventId.Some? && ValidEventId(r.eventId.value) && r.timestamp.Some? && |r.timestamp.value| == 10
        && Digits(r.timestamp.value)
  }

  /** The guards on headers, age and signature. */
  ghost predicate Authentic(r: Request, expected: string, now: int) {
    WellFormed(r) && -FRESHNESS_SECONDS <= now - Decimal(r.timestamp.value) <= FRESHNESS_SECONDS && Signed(r, expected)
  }

  function DeliveryOf(r: Request, expected: string): Delivery
    requires WellFormed(r) && r.payload.Some?
  {
    Delivery(r.eventId.value, Decimal(r.timestamp.value), Signed(r, expected), r.payload.value.kind,
        r.payload.value.messageId)
  }

  function StartsWithV1(candidate: string): bool {
    |candidate| >= 3 && candidate[..3] == "v1,"
  }

  /** The guards in their order, then every candidate signature. */
  method Verify(r: Request, expected: string, now: int) returns (verified: Result<Delivery, Failure>)
    ensures verified == Err(SignatureInvalid) <==> !Authentic(r, expected, now)
    ensures verified == Err(PayloadInvalid) <==> Authentic(r, expected, now) && r.payload.None?
    ensures verified.Ok? ==> Authentic(r, expected, now) && r.payload.Some? && verified.value == DeliveryOf(r, expected)
  {
    if r.eventId.None? || !ValidEventId(r.eventId.value) || r.timestamp.None? || |r.timestamp.value| != 10
        || !Digits(r.timestamp.value) {
      return Err(SignatureInvalid);
    }
    var age := now - Decimal(r.timestamp.value);
    if (if age < 0 then -age else age) > FRESHNESS_SECONDS || r.candidates.None? {
      return Err(SignatureInvalid);
    }
    var valid := false;
    for i := 0 to |r.candidates.value|
      invariant valid <==> exists j :: 0 <= j < i && r.candidates.value[j] == "v1," + expected
    {
      var candidate := r.candidates.value[i];
      if StartsWithV1(candidate) && candidate[3..] == expected {
        assert candidate == "v1," + candidate[3..];
        valid := true;
      }
      assert candidate == "v1," + expected ==> candidate[3..] == expected;
    }
    if !valid {
      return Err(SignatureInvalid);
    }
    if r.payload.None? {
      return Err(PayloadInvalid);
    }
    return Ok(DeliveryOf(r, expected));
  }

  class Service {
    var w: World

    constructor (w: World)
      ensures this.w == w
    {
      this.w := w;
    }

    /**
     `handle`.  A verified delivery is exactly one protocol step; a repeated one reports so and changes
     nothing; one that does not verify, or whose body does not decode, changes nothing either and does not use up
     its event id.
     */
    method Handle(r: Request, expected: string) returns (processed: Result<bool, Failure>)
      modifies this
      ensures processed.Ok? <==> WellFormed(r) && r.payload.Some? && Accepted(old(w), DeliveryOf(r, expected))
      ensures processed == Err(PayloadInvalid) <==> Authentic(r, expected, old(w).now) && r.payload.None?
      ensures processed.Err? ==> w == old(w)
      ensures processed.Ok? ==>
          Enabled(old(w), Deliver(DeliveryOf(r, expected))) && w == Apply(old(w), Deliver(DeliveryOf(r, expected)))
      ensures processed.Ok? ==> (processed.value <==> r.eventId.value !in old(w).events)
    {
      var outcome := Verify(r, expected, w.now);
      if outcome.Err? {
        assert outcome.error.SignatureInvalid? || outcome.error.PayloadInvalid?;
        return Err(outcome.error);
      }
      var verified := outcome.value;
      if verified.eventId in w.events {
        return Ok(false);
      }
      w := w.(events := w.events[verified.eventId := w.now]);
      if verified.messageId.None? {
        assert w.rows == WebhookRows(w.rows, verified, w.now);
        return Ok(true);
      }
      var id := verified.messageId.value;
      var rows, now := w.rows, w.now;
      match verified.kind {
        case EmailDelivered =>
          rows := map wallet | wallet in w.rows ::
            if w.rows[wallet].messageId == Some(id)
            then w.rows[wallet].(status := Delivered, deliveredAt := Coalesce(w.rows[wallet].deliveredAt, now))
            else w.rows[wallet];
        case EmailSent =>
          rows := map wallet | wallet in w.rows ::
            if w.rows[wallet].messageId == Some(id) && w.rows[wallet].status !in {Delivered, Failed}
            then w.rows[wallet].(status := Sent, sentAt := Coalesce(w.rows[wallet].sentAt, now)) else w.rows[wallet];
        case OtherKind =>
        case _ =>
          rows := map wallet | wallet in w.rows ::
            if w.rows[wallet].messageId == Some(id)
            then w.rows[wallet].(status := Failed, failedAt := Coalesce(w.rows[wallet].failedAt, now))
            else w.rows[wallet];
      }
      assert rows == WebhookRows(w.rows, verified, now);
      w := w.(rows := rows);
      return Ok(true);
    }
  }
}
