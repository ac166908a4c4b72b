/** The campaign loop `send_emails_to_all_recipients` and the three module-level
    tallies it updates (`success_count`, `failure_count`, `failed_recipients`),
    kept here as an explicit `Summary` value. SMTP sessions are an oracle:
    `smtp(n)` is how the n-th session opened during the run (counting from 0)
    ends. Only recipients that pass validation open a session. */
module Campaign {
  import opened PyValues
  import opened Validation
  import opened Delivery
  import Seqs

  datatype Summary = Summary(success: nat, failure: nat, failed: seq<FailEntry>)

  /** The tallies as the script initialises them. */
  const Start: Summary := Summary(0, 0, [])

  /** Every counted failure has its entry in `failed`. */
  predicate Balanced(s: Summary) {
    |s.failed| == s.failure
  }

  function SentCount(os: seq<Outcome>): nat
    decreases |os|
  {
    if os == [] then 0 else (if os[0].Sent? then 1 else 0) + SentCount(os[1..])
  }

  /** The failure entries among `os`, in order. */
  function FailuresOf(os: seq<Outcome>): (fs: seq<FailEntry>)
    ensures |fs| + SentCount(os) == |os|
    decreases |os|
  {
    if os == [] then []
    else if os[0].Sent? then FailuresOf(os[1..])
    else [os[0].entry] + FailuresOf(os[1..])
  }

  /** How one call of `send_promotional_email` changes the tallies: exactly one
      counter goes up by exactly one, and `failed` grows exactly when
      `failure` does. */
  function Record(s: Summary, o: Outcome): (s': Summary)
    ensures s'.success + s'.failure == s.success + s.failure + 1
    ensures s'.success == s.success + SentCount([o])
    ensures s'.failed == s.failed + FailuresOf([o])
    ensures Balanced(s) ==> Balanced(s')
  {
    match o
    case Sent => s.(success := s.success + 1)
    case Failed(e) => Summary(s.success, s.failure + 1, s.failed + [e])
  }

  /** The number of recipients in `rs` that pass validation, that is, the
      number of SMTP sessions they open. */
  function ValidCount(rs: seq<Recipient>, rt: Runtime): nat
    decreases |rs|
  {
    if rs == [] then 0
    else ValidCount(rs[..|rs| - 1], rt) + (if Validate(rs[|rs| - 1], rt).Valid? then 1 else 0)
  }

  /** The outcome of each recipient of `rs`, processed in order: each valid
      recipient opens the session numbered by the valid recipients before it. */
  function Outcomes(rs: seq<Recipient>, rt: Runtime, smtp: nat -> Transport): (os: seq<Outcome>)
    ensures |os| == |rs|
    decreases |rs|
  {
    if rs == [] then []
    else
      var before := rs[..|rs| - 1];
      Outcomes(before, rt, smtp) + [Deliver(rs[|rs| - 1], rt, smtp(ValidCount(before, rt)))]
  }

  lemma {:induction false} SentCountAppend(a: seq<Outcome>, b: seq<Outcome>)
    ensures SentCount(a + b) == SentCount(a) + SentCount(b)
    decreases |a|
  {
    if a != [] {
      assert (a + b)[0] == a[0] && (a + b)[1..] == a[1..] + b;
      SentCountAppend(a[1..], b);
    } else {
      assert a + b == b;
    }
  }

  lemma {:induction false} FailuresOfAppend(a: seq<Outcome>, b: seq<Outcome>)
    ensures FailuresOf(a + b) == FailuresOf(a) + FailuresOf(b)
    decreases |a|
  {
    if a != [] {
      assert (a + b)[0] == a[0] && (a + b)[1..] == a[1..] + b;
      FailuresOfAppend(a[1..], b);
    } else {
      assert a + b == b;
    }
  }

  /** The first `i + 1` recipients extend the outcomes and the session count
      of the first `i` by those of recipient `i`. */
  lemma OutcomesPrefix(rs: seq<Recipient>, rt: Runtime, smtp: nat -> Transport, i: nat)
    requires i < |rs|
    ensures Outcomes(rs[..i + 1], rt, smtp)
         == Outcomes(rs[..i], rt, smtp) + [Deliver(rs[i], rt, smtp(ValidCount(rs[..i], rt)))]
    ensures ValidCount(rs[..i + 1], rt) == ValidCount(rs[..i], rt) + (if Validate(rs[i], rt).Valid? then 1 else 0)
  {
    assert rs[..i + 1][..i] == rs[..i];
  }

  /** The outcomes of the first `k` recipients are the first `k` outcomes of
      the whole run: later recipients do not change earlier outcomes. */
  lemma {:induction false} OutcomesOfPrefix(rs: seq<Recipient>, rt: Runtime, smtp: nat -> Transport, k: nat)
    requires k <= |rs|
    ensures Outcomes(rs[..k], rt, smtp) == Outcomes(rs, rt, smtp)[..k]
    decreases |rs| - k
  {
    if k == |rs| {
      assert rs[..k] == rs;
    } else {
      OutcomesOfPrefix(rs, rt, smtp, k + 1);
      OutcomesPrefix(rs, rt, smtp, k);
      Seqs.PrefixStep(Outcomes(rs, rt, smtp), Outcomes(rs[..k], rt, smtp),
                      Deliver(rs[k], rt, smtp(ValidCount(rs[..k], rt))), k);
    }
  }

  /** Recipient `i` gets the outcome of its own validation and, if it is valid,
      of the session numbered by how many valid recipients came before it. */
  lemma OutcomeAt(rs: seq<Recipient>, rt: Runtime, smtp: nat -> Transport, i: nat)
    requires i < |rs|
    ensures Outcomes(rs, rt, smtp)[i] == Deliver(rs[i], rt, smtp(ValidCount(rs[..i], rt)))
  {
    var os := Outcomes(rs, rt, smtp);
    OutcomesOfPrefix(rs, rt, smtp, i + 1);
    OutcomesPrefix(rs, rt, smtp, i);
    assert os[..i + 1][i] == os[i];
  }

  /** `send_promotional_email` on one recipient with the tallies `s`, when
      `attempts` SMTP sessions have been opened so far: the session is opened
      only after validation succeeds. */
  method SendPromotionalEmail(s: Summary, r: Recipient, rt: Runtime, smtp: nat -> Transport, attempts: nat)
    returns (s': Summary, attempts': nat)
    ensures s' == Record(s, Deliver(r, rt, smtp(attempts)))
    ensures attempts' == attempts + (if Validate(r, rt).Valid? then 1 else 0)
  {
    var verdict := Validate(r, rt);
    var o: Outcome;
    if verdict.Valid? {
      o := AfterSend(r, smtp(attempts));
      attempts' := attempts + 1;
    } else {
      o := Failed(Rejection(r, verdict, rt));
      attempts' := attempts;
    }
    s' := Record(s, o);
  }

  /** The loop's progress after the first `i` recipients: `s` and `attempts`
      account for exactly their outcomes. */
  ghost predicate Progress(s0: Summary, rs: seq<Recipient>, rt: Runtime, smtp: nat -> Transport,
                           i: nat, s: Summary, attempts: nat)
    requires i <= |rs|
  {
    && attempts == ValidCount(rs[..i], rt)
    && s.success == s0.success + SentCount(Outcomes(rs[..i], rt, smtp))
    && s.failed == s0.failed + FailuresOf(Outcomes(rs[..i], rt, smtp))
    && s.success + s.failure == s0.success + s0.failure + i
    && |s.failed| - s.failure == |s0.failed| - s0.failure
  }

  /** Recording one more outcome keeps the tallies equal to the counts over
      the outcomes recorded so far. */
  lemma TallyStep(s0: Summary, s: Summary, before: seq<Outcome>, o: Outcome)
    requires s.success == s0.success + SentCount(before)
    requires s.failed == s0.failed + FailuresOf(before)
    ensures Record(s, o).success == s0.success + SentCount(before + [o])
    ensures Record(s, o).failed == s0.failed + FailuresOf(before + [o])
  {
    SentCountAppend(before, [o]);
    FailuresOfAppend(before, [o]);
    Seqs.AppendAssoc(s0.failed, FailuresOf(before), FailuresOf([o]));
  }

  /** Processing recipient `i` takes the loop's progress from `i` to `i + 1`. */
  lemma ProgressStep(s0: Summary, rs: seq<Recipient>, rt: Runtime, smtp: nat -> Transport,
                     i: nat, s: Summary, attempts: nat)
    requires i < |rs| && Progress(s0, rs, rt, smtp, i, s, attempts)
    ensures Progress(s0, rs, rt, smtp, i + 1,
                     Record(s, Deliver(rs[i], rt, smtp(attempts))),
                     attempts + (if Validate(rs[i], rt).Valid? then 1 else 0))
  {
    OutcomesPrefix(rs, rt, smtp, i);
    TallyStep(s0, s, Outcomes(rs[..i], rt, smtp), Deliver(rs[i], rt, smtp(attempts)));
  }

  /** `send_emails_to_all_recipients` run from tallies `s0`: each recipient is
      processed once, in order; the tallies count the outcomes and `failed`
      lists the failures in processing order. `attempts` is the number of SMTP
      sessions opened. */
  method SendEmailsToAllRecipients(s0: Summary, rs: seq<Recipient>, rt: Runtime, smtp: nat -> Transport)
    returns (s: Summary, attempts: nat)
    ensures s.success == s0.success + SentCount(Outcomes(rs, rt, smtp))
    ensures s.failure == s0.failure + (|rs| - SentCount(Outcomes(rs, rt, smtp)))
    ensures s.failed == s0.failed + FailuresOf(Outcomes(rs, rt, smtp))
    ensures s.success + s.failure == s0.success + s0.failure + |rs|
    ensures Balanced(s0) ==> Balanced(s)
    ensures attempts == ValidCount(rs, rt)
    ensures rs == [] ==> s == s0 && attempts == 0
  {
    s, attempts := s0, 0;
    if rs == [] {
      return;
    }
    var i := 0;
    while i < |rs|
      invariant i <= |rs|
      invariant Progress(s0, rs, rt, smtp, i, s, attempts)
    {
      ProgressStep(s0, rs, rt, smtp, i, s, attempts);
      s, attempts := SendPromotionalEmail(s, rs[i], rt, smtp, attempts);
      i := i + 1;
    }
    assert rs[..i] == rs;
  }

  /** The campaign as the script runs it: the tallies start at zero, so at the
      end `success_count` and `failure_count` split the recipients between them
      and `failed_recipients` holds one entry per failure, in processing order. */
  method RunCampaign(rs: seq<Recipient>, rt: Runtime, smtp: nat -> Transport)
    returns (s: Summary, attempts: nat)
    ensures s.success == SentCount(Outcomes(rs, rt, smtp))
    ensures s.failed == FailuresOf(Outcomes(rs, rt, smtp))
    ensures s.failure == |s.failed| && s.success + s.failure == |rs|
    ensures attempts == ValidCount(rs, rt)
  {
    s, attempts := SendEmailsToAllRecipients(Start, rs, rt, smtp);
  }

  /** A transport failure for one recipient changes no other recipient's
      outcome: if the oracles differ only in session `m`, recipient `i` gets the
      same outcome under both unless it is the valid recipient that opens
      session `m`. */
  lemma TransportIsolation(rs: seq<Recipient>, rt: Runtime, smtp: nat -> Transport, smtp': nat -> Transport,
                           m: nat, i: nat)
    requires forall n :: n != m ==> smtp(n) == smtp'(n)
    requires i < |rs| && !(Validate(rs[i], rt).Valid? && ValidCount(rs[..i], rt) == m)
    ensures Outcomes(rs, rt, smtp)[i] == Outcomes(rs, rt, smtp')[i]
  {
    OutcomeAt(rs, rt, smtp, i);
    OutcomeAt(rs, rt, smtp', i);
    if !Validate(rs[i], rt).Valid? {
      NoSendWhenInvalid(rs[i], rt, smtp(ValidCount(rs[..i], rt)), smtp'(ValidCount(rs[..i], rt)));
    }
  }

  /** Outcomes that are all `Sent` count fully as successes and list no failure. */
  lemma {:induction false} AllSent(os: seq<Outcome>)
    requires forall i :: 0 <= i < |os| ==> os[i].Sent?
    ensures SentCount(os) == |os| && FailuresOf(os) == []
    decreases |os|
  {
    if os != [] {
      AllSent(os[1..]);
    }
  }

  /** With every recipient valid and every session succeeding, every recipient
      counts as a success and nothing fails. */
  lemma AllDelivered(rs: seq<Recipient>, rt: Runtime, smtp: nat -> Transport)
    requires forall i :: 0 <= i < |rs| ==> Validate(rs[i], rt).Valid?
    requires forall n :: smtp(n) == Ok
    ensures SentCount(Outcomes(rs, rt, smtp)) == |rs|
    ensures FailuresOf(Outcomes(rs, rt, smtp)) == []
  {
    var os := Outcomes(rs, rt, smtp);
    forall i | 0 <= i < |os| ensures os[i].Sent? {
      OutcomeAt(rs, rt, smtp, i);
    }
    AllSent(os);
  }

  /** A record holding every required key but `trip_date` misses just that one. */
  lemma OnlyTripDateMissing(b: Recipient)
    requires b.Keys == {"email", "name", "trip_name", "trip_cost", "trip_description"}
    ensures MissingFields(b) == ["trip_date"]
  {
  }

  /** A record lacking only `trip_date` fails with that reason, whatever the
      session would have done. */
  lemma TripDateRejected(b: Recipient, rt: Runtime, t: Transport)
    requires b.Keys == {"email", "name", "trip_name", "trip_cost", "trip_description"}
    ensures Deliver(b, rt, t) == Failed(FailEntry(b["name"], b["email"], "Missing fields: trip_date"))
  {
    OnlyTripDateMissing(b);
    assert MissingPrefix + Seqs.Join(["trip_date"], ", ") == "Missing fields: trip_date";
  }

  /** The outcomes of three recipients, element by element. */
  lemma OutcomesOfThree(rs: seq<Recipient>, rt: Runtime, smtp: nat -> Transport)
    requires |rs| == 3
    ensures Outcomes(rs, rt, smtp)
         == [Deliver(rs[0], rt, smtp(0)),
             Deliver(rs[1], rt, smtp(ValidCount(rs[..1], rt))),
             Deliver(rs[2], rt, smtp(ValidCount(rs[..2], rt)))]
  {
    assert rs[..0] == [];
    OutcomeAt(rs, rt, smtp, 0);
    OutcomeAt(rs, rt, smtp, 1);
    OutcomeAt(rs, rt, smtp, 2);
  }

  /** A valid recipient followed by an invalid one opens exactly one session. */
  lemma OneSessionForTwo(a: Recipient, b: Recipient, rt: Runtime)
    requires Validate(a, rt).Valid? && !Validate(b, rt).Valid?
    ensures ValidCount([a], rt) == 1 && ValidCount([a, b], rt) == 1
  {
    assert [a][..0] == [] && [a, b][..1] == [a];
  }

  /** Three recipients where the middle one lacks `trip_date`: it is rejected
      without opening a session, so the third recipient uses the second session. */
  lemma ThreeRecipients(a: Recipient, b: Recipient, c: Recipient, rt: Runtime, smtp: nat -> Transport, e: string)
    requires Validate(a, rt).Valid? && Validate(c, rt).Valid?
    requires b.Keys == {"email", "name", "trip_name", "trip_cost", "trip_description"}
    requires smtp(0) == Ok && smtp(1) == SmtpErr(e)
    ensures Outcomes([a, b, c], rt, smtp)
         == [Sent, Failed(FailEntry(b["name"], b["email"], "Missing fields: trip_date")),
             Failed(FailEntry(Lookup(c, "name"), Lookup(c, "email"), "SMTP error: " + e))]
  {
    var rs := [a, b, c];
    TripDateRejected(b, rt, smtp(1));
    OneSessionForTwo(a, b, rt);
    assert rs[..1] == [a] && rs[..2] == [a, b];
    OutcomesOfThree(rs, rt, smtp);
  }
}
