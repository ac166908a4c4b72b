/** One call of `send_promotional_email` on a dict recipient: validation, then
    (only for a valid recipient) one SMTP session, and the outcome it records. */
module Delivery {
  import opened PyValues
  import opened Validation
  import Seqs

  /** What building the message and running the SMTP session ends in: success,
      an `smtplib.SMTPException`, or any other exception (a refused connection,
      a socket error, a malformed address). */
  datatype Transport = Ok | SmtpErr(message: string) | OtherErr(message: string)

  /** An element of `failed_recipients`. */
  datatype FailEntry = FailEntry(name: Value, email: Value, reason: string)

  datatype Outcome = Sent | Failed(entry: FailEntry)

  const Unknown: Value := Str("Unknown")

  /** `recipient.get(key, "Unknown")` */
  function Lookup(r: Recipient, key: string): Value {
    if key in r then r[key] else Unknown
  }

  function FailureOf(r: Recipient, reason: string): FailEntry {
    FailEntry(Lookup(r, "name"), Lookup(r, "email"), reason)
  }

  const MissingPrefix: string := "Missing fields: "
  const InvalidCostPrefix: string := "Invalid trip_cost: "
  const SmtpPrefix: string := "SMTP error: "
  const UnexpectedPrefix: string := "Unexpected error: "

  /** The failure recorded for a recipient that did not pass validation. */
  function Rejection(r: Recipient, v: Verdict, rt: Runtime): FailEntry
    requires !v.Valid?
  {
    match v
    case Incomplete(missing) => FailureOf(r, MissingPrefix + Seqs.Join(missing, ", "))
    case BadCost(cost) => FailureOf(r, InvalidCostPrefix + PyStr(cost, rt))
    case CostRaised(e) => FailureOf(r, UnexpectedPrefix + e)
  }

  /** The outcome once a validated recipient's SMTP session has ended in `t`. */
  function AfterSend(r: Recipient, t: Transport): Outcome {
    match t
    case Ok => Sent
    case SmtpErr(e) => Failed(FailureOf(r, SmtpPrefix + e))
    case OtherErr(e) => Failed(FailureOf(r, UnexpectedPrefix + e))
  }

  /** The outcome of one recipient, where `t` is how an SMTP session would end. */
  function Deliver(r: Recipient, rt: Runtime, t: Transport): (o: Outcome)
    ensures o.Sent? <==> Validate(r, rt).Valid? && t.Ok?
    ensures o.Failed? ==> o.entry.name == Lookup(r, "name") && o.entry.email == Lookup(r, "email")
    ensures MissingFields(r) != [] ==>
      o.Failed? && o.entry.reason == MissingPrefix + Seqs.Join(MissingFields(r), ", ")
    ensures Validate(r, rt).BadCost? ==>
      o.Failed? && o.entry.reason == InvalidCostPrefix + PyStr(Validate(r, rt).cost, rt)
    ensures Validate(r, rt).CostRaised? ==>
      o.Failed? && o.entry.reason == UnexpectedPrefix + Validate(r, rt).message
    ensures Validate(r, rt).Valid? && t.SmtpErr? ==> o.Failed? && o.entry.reason == SmtpPrefix + t.message
    ensures Validate(r, rt).Valid? && t.OtherErr? ==> o.Failed? && o.entry.reason == UnexpectedPrefix + t.message
  {
    var v := Validate(r, rt);
    if v.Valid? then AfterSend(r, t) else Failed(Rejection(r, v, rt))
  }

  /** No send is attempted for an invalid recipient: its outcome is the same
      whatever an SMTP session would have done. */
  lemma NoSendWhenInvalid(r: Recipient, rt: Runtime, t: Transport, t': Transport)
    requires !Validate(r, rt).Valid?
    ensures Deliver(r, rt, t) == Deliver(r, rt, t')
  {
  }

  lemma PrefixesDiffer(p: string, q: string, rest: string)
    requires |p| > 0 && |q| > 0 && p[0] != q[0]
    ensures !(p <= q + rest)
  {
    assert (q + rest)[0] == q[0];
  }

  /** The prefix of a failure reason tells which step failed. */
  lemma ReasonIdentifiesCause(r: Recipient, rt: Runtime, t: Transport)
    ensures var o := Deliver(r, rt, t);
      o.Failed? && MissingPrefix <= o.entry.reason <==> MissingFields(r) != []
    ensures var o := Deliver(r, rt, t);
      o.Failed? && InvalidCostPrefix <= o.entry.reason <==> Validate(r, rt).BadCost?
    ensures var o := Deliver(r, rt, t);
      o.Failed? && SmtpPrefix <= o.entry.reason <==> Validate(r, rt).Valid? && t.SmtpErr?
    ensures var o := Deliver(r, rt, t);
      o.Failed? && UnexpectedPrefix <= o.entry.reason <==>
        Validate(r, rt).CostRaised? || (Validate(r, rt).Valid? && t.OtherErr?)
  {
    var v := Validate(r, rt);
    var o := Deliver(r, rt, t);
    if o.Failed? {
      var reason := o.entry.reason;
      if v.Incomplete? {
        OnlyOwnPrefix(MissingPrefix, Seqs.Join(v.missing, ", "));
      } else if v.BadCost? {
        OnlyOwnPrefix(InvalidCostPrefix, PyStr(v.cost, rt));
      } else if v.CostRaised? {
        OnlyOwnPrefix(UnexpectedPrefix, v.message);
      } else if t.SmtpErr? {
        OnlyOwnPrefix(SmtpPrefix, t.message);
      } else {
        OnlyOwnPrefix(UnexpectedPrefix, t.message);
      }
    }
  }

  /** A reason built from one of the four prefixes starts with that prefix and
      with none of the other three. */
  lemma OnlyOwnPrefix(own: string, rest: string)
    requires own in [MissingPrefix, InvalidCostPrefix, SmtpPrefix, UnexpectedPrefix]
    ensures MissingPrefix <= own + rest <==> own == MissingPrefix
    ensures InvalidCostPrefix <= own + rest <==> own == InvalidCostPrefix
    ensures SmtpPrefix <= own + rest <==> own == SmtpPrefix
    ensures UnexpectedPrefix <= own + rest <==> own == UnexpectedPrefix
  {
    assert MissingPrefix[0] == 'M' && InvalidCostPrefix[0] == 'I';
    assert SmtpPrefix[0] == 'S' && UnexpectedPrefix[0] == 'U';
    assert (own + rest)[..|own|] == own;
    if own != MissingPrefix { PrefixesDiffer(MissingPrefix, own, rest); }
    if own != InvalidCostPrefix { PrefixesDiffer(InvalidCostPrefix, own, rest); }
    if own != SmtpPrefix { PrefixesDiffer(SmtpPrefix, own, rest); }
    if own != UnexpectedPrefix { PrefixesDiffer(UnexpectedPrefix, own, rest); }
  }
}
