# All Packers Expeditions email campaign, modelled in Dafny

`allpackersNotification.py` sends one promotional email per recipient listed in
`recipients.json`, then mails its log to an administrator. This project models
the part of the script that decides things:

- the start-up check of the SMTP settings in the environment (`Config`);
- the rule that turns the recipients file into a list, with its fallbacks (`RecipientSource`);
- the per-recipient validation in `send_promotional_email`: all six required keys present, then
  `float()` of the trip cost (`Validation`);
- the outcome of one recipient, and the failure entry and reason it records (`Delivery`);
- the campaign loop `send_emails_to_all_recipients`, with the module-level tallies
  `success_count`, `failure_count` and `failed_recipients` kept as an explicit
  `Summary` value (`Campaign`).

Two supporting modules hold what those need from Python: `PyValues` covers JSON values and the
parts of `float()` and `str()` the script relies on, and `Seqs` covers list comprehension with
a condition, subsequences and `str.join`.

Everything the script does not decide for itself is a parameter:

- **SMTP sessions**: `smtp: nat -> Transport` says how the n-th session opened during the run
  ends: `Ok`, an `smtplib.SMTPException`, or another exception. Only a recipient that passes
  validation opens a session, so the index counts the valid recipients before it.
- **`float()` of a string**: `Runtime.parsesAsFloat` says whether `float()` accepts the string.
- **`repr`**: `Runtime.repr` gives the `repr` of lists and dicts.
- **`int()` of the port string**: `parseInt` gives the result of `int()` on `SMTP_PORT`.
- **The environment**: a `map<string, string>`.
- **The recipients file**: a `Source` value, either not a file, or a file whose load decodes,
  fails to decode, or fails to read.

Everything else `float()` and `str()` do on the values JSON can produce is written out:

- `None`, lists and dicts raise TypeError. That is an "Invalid trip_cost" failure.
- Booleans, JSON floats and integers below that bound convert.
- An integer of magnitude at least 2^1024 - 2^970 raises OverflowError. OverflowError is not
  among the caught `(ValueError, TypeError)`, so it reaches the outer handler. The reason
  recorded is then `Unexpected error: int too large to convert to float`.
- `str()` enters a reason only for a trip cost that `float()` refused, so only for `None`,
  a string, a list or a dict. For `None` and strings it is computed. For lists and dicts it
  is their `repr`.

Three behaviours of the code deserve mention:

- A negative (or `nan`, or `inf`) trip cost is not rejected. The code only checks that
  `float()` succeeds.
- The message body is an inline f-string. No template file is read, so no template error can occur.
- A recipients file that exists but cannot be opened or read does not fall back to an empty
  list. Only `json.JSONDecodeError` is caught, so the script stops. `LoadRecipients` returns
  `Crashed` for that case.

## Model

| member | source | states |
|---|---|---|
| Seqs.FilterMembers | allpackersNotification.py:103-104 | a comprehension with a condition keeps exactly the elements that satisfy it, and keeps them in their original order (a subsequence) |
| Seqs.FilterExact | allpackersNotification.py:103-104 | over a list without repeats, the comprehension is the only subsequence holding exactly the elements that satisfy the condition |
| Validation.MissingFieldsIsFilter | allpackersNotification.py:101-104 | the missing-field list is the comprehension, over the required keys in the order `email, name, trip_name, trip_date, trip_cost, trip_description`, of those not in the record |
| Validation.MissingFieldsMembers | allpackersNotification.py:101-104 | a key is reported missing if and only if it is required and absent, and the reported keys keep the required order |
| Validation.MissingFieldsExact | allpackersNotification.py:101-104 | the missing-field list is the only list of absent required keys in required order, so the order is fixed and nothing is repeated |
| Validation.PresenceByKeyOnly | allpackersNotification.py:103-104 | presence is by key only: records with the same keys miss the same fields whatever their values, an empty string included |
| Validation.Validate | allpackersNotification.py:101-128 | the verdict is "incomplete" exactly when a required key is missing, carrying the missing list; otherwise it follows `float()` of the trip cost: refused with ValueError/TypeError, raised another exception, or converted; "valid" exactly when all keys are present and the cost converts; a cost reported as invalid is only ever `None`, a string, a list or a dict, because numbers and booleans always convert or overflow |
| PyValues.ToFloat | allpackersNotification.py:117-119 | `float()` raises a non-caught exception exactly for integers too large for a double, with the message "int too large to convert to float"; it refuses exactly `None`, lists, dicts and strings that do not spell a float |
| Delivery.Deliver | allpackersNotification.py:94-225 | a recipient counts as sent if and only if it is valid and its session succeeds; every failure entry takes `name` and `email` from the record or "Unknown"; the reason is "Missing fields: " with the missing keys joined by ", ", "Invalid trip_cost: " with `str()` of the cost, "SMTP error: " with the SMTP message, or "Unexpected error: " with the exception message, each exactly in its own case |
| Delivery.NoSendWhenInvalid | allpackersNotification.py:105-128 | a recipient that fails validation returns before any send is attempted: its outcome is the same whatever the SMTP session would have done |
| Delivery.ReasonIdentifiesCause | allpackersNotification.py:105-225 | the prefix of a failure reason identifies the failed step: missing fields, an unconvertible cost, an SMTP error, or any other exception (a cost that raised, or a non-SMTP transport error), each if and only if |
| Campaign.Record | allpackersNotification.py:98-225 | one recorded outcome raises exactly one of the two counters, by exactly one; `failed` grows by the failure entry exactly when `failure` grows; `len(failed) == failure` is preserved |
| Campaign.SendPromotionalEmail | allpackersNotification.py:94-225 | one call records the recipient's outcome into the tallies, and opens an SMTP session if and only if the recipient passed validation, so an invalid record returns before any send is attempted |
| Campaign.Outcomes | allpackersNotification.py:292-293 | the loop yields exactly one outcome per recipient |
| Campaign.OutcomesOfPrefix | allpackersNotification.py:292-293 | the outcomes of the first `k` recipients are the first `k` outcomes of the whole run, so later recipients never change earlier outcomes |
| Campaign.OutcomeAt | allpackersNotification.py:292-293 | recipient `i` gets the outcome of its own record, using the session numbered by how many valid recipients came before it |
| Campaign.OutcomesPrefix | allpackersNotification.py:292-293 | processing one more recipient appends exactly its outcome, and advances the session count exactly when it is valid |
| Campaign.ProgressStep | allpackersNotification.py:292-293 | one loop iteration keeps the tallies equal to the counts over the outcomes so far, with failures listed in processing order |
| Campaign.SendEmailsToAllRecipients | allpackersNotification.py:284-293 | each recipient is processed once, in list order: `success` and `failure` grow by the number of sent and failed outcomes, which sum to the number of recipients; `failed` grows by the failure entries in processing order; `len(failed) == failure` is preserved; the number of sessions opened is the number of valid recipients; an empty list changes nothing and opens no session |
| Campaign.RunCampaign | allpackersNotification.py:284-300 | the loop run once from the tallies as lines 85-87 initialise them (all zero): `success_count` and `failure_count` split the recipients between them, `failed_recipients` holds exactly the failure entries in processing order, and its length is `failure_count` |
| Campaign.TransportIsolation | allpackersNotification.py:207-225 | when two runs' SMTP sessions end alike except for session `m`, every recipient other than the valid one that opens session `m` gets the same outcome in both runs, so an error in one send neither stops nor changes the recipients after it |
| Campaign.AllDelivered | allpackersNotification.py:196-206 | when every recipient is valid and every session succeeds, every recipient is counted as a success and none is listed as failed |
| Campaign.OutcomesOfThree | allpackersNotification.py:292-293 | three recipients are processed in order: the first uses session 0, and the second and third each use the session numbered by how many recipients before it were valid |
| Campaign.ThreeRecipients | allpackersNotification.py:284-293 | with recipients A (valid), B (missing `trip_date`) and C (valid), B fails with "Missing fields: trip_date" without opening a session, so C uses the second session and its SMTP error is recorded for C |
| Config.MissingSettingsMembers | allpackersNotification.py:41-50 | a setting is reported missing if and only if it is unset or empty, in the order `SMTP_SERVER, SMTP_PORT, EMAIL_ADDRESS, EMAIL_PASSWORD, ADMIN_EMAIL` |
| Config.MissingSettingsExact | allpackersNotification.py:41-50 | the missing-settings list is the only list of the falsy settings in that order |
| Config.CheckSettings | allpackersNotification.py:41-62 | the run aborts if and only if a setting is missing or the port does not convert; missing settings are reported first, with their names joined by ", ", and the port is converted only once nothing is missing; a run that proceeds has every setting non-empty and the converted port |
| RecipientSource.LoadRecipients | allpackersNotification.py:67-80 | the recipients are the decoded array unchanged; a missing file, undecodable JSON or a top-level value that is not an array give the empty list; only a read error ends the script |

## Left out

- SMTP connection, STARTTLS, login and `sendmail` (lines 197-201) are network I/O. They are
  replaced by the `smtp` oracle.
- The `smtp` oracle assumes every session ends. Line 197 opens the connection without a
  `timeout`, and the default socket timeout is none. So a server that accepts the connection and
  then stops replying blocks the script forever, and the recipients after it are never
  processed. Everything the model states about a run, one outcome per recipient included, holds
  only for runs in which every session ends. A run that hangs is not modelled.
- Building the subject, HTML body and MIME message (lines 130-193) is library code and a literal
  string. For every record the model can represent, these steps do not raise before the session
  opens. Every JSON value has a `str()`. A bad header value only fails when the message is
  serialised, which happens during the session. The `:,.2f` formatting of the converted cost is
  floating-point formatting and is left out with the body.
- Strings holding a lone surrogate (a JSON escape such as `\ud800` without its pair) are outside
  the model, because a Dafny `char` cannot hold one. In the program, such a surrogate in `name`,
  `trip_name`, `trip_date` or `trip_description` is encoded with the HTML part at line 193,
  under Python's `surrogateescape` error handler. A surrogate in U+DC80 to U+DCFF becomes a
  single byte there, so the record goes on to open a session. Any other lone surrogate makes
  the encoding raise, and the record fails with "Unexpected error: ..." before any session
  opens, so it uses up no session number.
- `send_log_email` (lines 232-277) mails the log file to the administrator. It catches every
  exception and runs once after the campaign (lines 299-301), so it cannot change the tallies.
- Logging, `load_dotenv`, the final summary log line and `exit(1)` are left out. An `Abort` value
  stands for "log the message and exit with status 1".
- JSON decoding itself is left out. `Load` gives its result. A number too long for `int()`
  (more than 4300 digits) makes the decoder raise a ValueError that is not a
  `JSONDecodeError`. That is one of the ways a load ends in `ReadError`.
- Non-dict recipients are left out (a string or number inside the JSON array). For them the
  handler itself calls `recipient.get` and the script stops with an uncaught exception.
  `Recipient` is a map with string keys.
- Parsing of numbers from strings by `float()` and `int()` is left out. These are the
  `parsesAsFloat` and `parseInt` oracles.
- `repr` of floats, lists and dicts is left out. This is the `repr` oracle.
- PyValues.ToFloat: does not distinguish the numeric value produced (the cost is only ever
  formatted into the body, which is left out), only whether conversion succeeds or how it fails.
