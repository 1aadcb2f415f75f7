# Inactivity closure of support cases

A Dafny model of the scheduled X++ job in `closeticketlogic.js`. The job
selects every support case (a `CustServiceCase` record) that is in status
`WaitingForCustomer` and whose last activity is strictly earlier than today
minus 3 days. It sets each selected case to `Closed`, saves it, and then
e-mails the case's customer account at its primary address. The mail has a
fixed subject and body. When the account has no primary address, the job
warns and sends nothing. When the transport refuses the mail, the job warns
with the address, and the case stays closed.

Files and modules:

- `tickets.dfy`, module `Tickets`: the data and a pure specification of a run.
  - Data: `Status`, `Ticket`, `Directory`, `Event`.
  - The selection rule `Qualifies`, with the constants `InactivityDays`,
    `Subject` and `Body`.
  - What a run does to the table: `AfterRun`.
  - What a run makes observable: `RunLog`. It is built from `Processed`
    (the first `i` cases visited), `Visit` (one case), `Block` (selected
    case: close, then notify) and `Notice` (one notification).
- `close_ticket_logic.dfy`, module `CloseTicketLogic`: the job as imperative
  code. Class `ServiceDesk` holds the case table as an array, the read-only
  contact directory, and the log of observable events. Its methods
  `CheckAndCloseInactiveTickets`, `CloseTicket` and `SendEmailNotification`
  are the three static procedures of the source. `VisitCase` is the body of
  the `while select` loop. Each method's `ensures` ties the new table and
  the new log to the specification functions.
- `run_properties.dfy`, module `RunProperties`: lemmas about the
  specification.

Modelling choices:

- A case's id is its index in the table.
- The query visits cases in table order. The source leaves the order to the
  database.
- Days are integers.
- The directory maps an account to its primary address. The model treats
  the found primary address as stored in the local `emailAddress`, which is
  what the code evidently intends. As written, the `select` fills the view
  buffer's field instead and never assigns that local (see "## Findings").
  With no primary row, `emailAddress` keeps its default `""`. X++ treats
  `""` as false in `if (emailAddress)`. So the model warns "not found" both
  for a missing row and for a primary row whose address is empty.
- The mail transport is an oracle `transport: nat -> bool`. `transport(i)` is
  what `sendMail` returns for the notice about case `i`. A run notifies each
  case at most once, so every sequence of transport answers can be expressed.
- The log records four kinds of event: a case saved as closed, a mail handed
  to the transport, and the two warnings.

What the code does not have, and so the model does not either:

- There is no configurable threshold: it is the constant 3.
- There are no configurable texts: subject and body are locals of
  `checkAndCloseInactiveTickets`.
- There is no Sent / NoAddressFound / SendFailed outcome:
  `sendEmailNotification` returns nothing. The outcome can be read from the
  log (`NoticeOutcome`).
- There is no handling of a failed record update: no per-case isolation and
  no release of the record lock.

## Model

| member | source | states |
|---|---|---|
| `Tickets.Close` | closeticketlogic.js:42-44 | the closed record has status Closed and the same last activity and account; a closed record never qualifies on any day |
| `Tickets.AfterRun` | closeticketlogic.js:22-31 | same length as the table; every qualifying case becomes Closed with last activity and account kept; every other case is unchanged; no case of the result qualifies on the same day |
| `Tickets.Notice` | closeticketlogic.js:47-82 | a notification always makes at least one observable event and never touches a case record |
| `CloseTicketLogic.ServiceDesk.CheckAndCloseInactiveTickets` | closeticketlogic.js:7-32 | the table afterwards is `AfterRun` of the table before; the log grows by exactly the run's events `RunLog`, whatever the transport answers, so a failed send never reverts a close |
| `CloseTicketLogic.ServiceDesk.VisitCase` | closeticketlogic.js:22-31 | one visit of the loop: the case is settled (closed if it qualifies); no other case changes; the log grows by that case's `Visit` events, the close first and then the notice |
| `CloseTicketLogic.ServiceDesk.CloseTicket` | closeticketlogic.js:34-45 | only the status of the given case changes, to Closed; its last activity and account and every other case are unchanged; a case-closed event is logged |
| `CloseTicketLogic.ServiceDesk.SendEmailNotification` | closeticketlogic.js:47-82 | the log grows by exactly `Notice` for the account's primary address as the directory query yields it |
| `Tickets.NoticeAsWritten` | closeticketlogic.js:56-62 | the notification as the text reads, where the tested local is never assigned: it always makes at least one event |
| `RunProperties.AsWrittenNeverMails` | closeticketlogic.js:56-81 | as written, every notification is exactly one "not found" warning naming the account and never a mail; where the account has a primary address, the intended notice mails it, so the two differ |
| `RunProperties.AsWrittenMissesPrimaryAddress` | closeticketlogic.js:56-62 | for account "A1" with primary address "a@x.com", the text as written warns "not found", while the intended notice mails "a@x.com" |
| `RunProperties.BoundaryDay` | closeticketlogic.js:24 | the comparison is strict: a waiting case idle exactly 3 days does not qualify; one idle 4 days does |
| `RunProperties.NoticeOutcome` | closeticketlogic.js:56-81 | with an address: exactly one send attempt, to that address, with the given subject and body, then exactly one warning naming the address if and only if the transport refused it; without an address: no send and exactly one warning naming the account |
| `RunProperties.SelectedIsTheQuery` | closeticketlogic.js:22-24 | the cases the query visits are in strictly increasing table order, and a case is among them if and only if it qualifies |
| `RunProperties.ClosedIdsOfVisit` | closeticketlogic.js:27-30 | visiting a case closes exactly that case if it qualifies and nothing otherwise; the notification closes nothing |
| `RunProperties.ClosedInTableOrder` | closeticketlogic.js:22-27 | the cases the run records as closed are, in order, exactly the cases the query selects |
| `RunProperties.ClosedExactlyOnce` | closeticketlogic.js:22-27 | a case is closed by the run if and only if it qualifies, and no case is closed twice |
| `RunProperties.CloseThenNotify` | closeticketlogic.js:26-30 | every case-closed event is for a qualifying case and is immediately followed by that case's notice, to its own account, with the fixed subject and body |
| `RunProperties.EventOfSelectedCase` | closeticketlogic.js:22-31 | every event of the run belongs to the block (close and notice) of some case the query selects |
| `RunProperties.MailsOnlyForClosedCases` | closeticketlogic.js:57-73 | every mail of the run goes to the non-empty primary address of the account of a case the run closed, with the fixed subject and body |
| `RunProperties.WarningsOnlyForClosedCases` | closeticketlogic.js:62-81 | every warning is about a case the run closed: "not found" names its account, which has no address; "send failed" names its account's address, and the transport refused that case's mail |
| `RunProperties.QuietWhenNothingQualifies` | closeticketlogic.js:22-24 | visiting cases none of which qualifies produces no event |
| `RunProperties.SecondRunIsNoOp` | closeticketlogic.js:23 | idempotence: a second run on the same day leaves the table as it is and produces no close, mail or warning, whatever the transport answers |
| `RunProperties.ClosedCasesNeverReselected` | closeticketlogic.js:43 | a case closed by one run never qualifies again, is not closed again by a run on any day, its record is left alone, and that run makes no event for it |
| `RunProperties.ThreeCaseRun` | closeticketlogic.js:7-82 | worked example: of three waiting cases (idle 5 days with an address, 1 day, 10 days without an address) the first is closed and mailed, the second is untouched, the third is closed with a warning naming its account |

## Left out

- Record locking and persistence (`while select forUpdate`, `.update()`):
  the table is an in-memory array. The lock appears only as "each selected
  record is visited once".
- Failure of a record update: the source does not handle it, and the model
  has no failing update.
- The system clock (`SystemDateGet()`): the day is the parameter `today`.
  Comparing a date-time field with a date is modelled as comparing integer
  day numbers, and calendar types are not modelled.
- The mail builder (`SysMailerMessageBuilder`, `sendMail`): foreign library
  code. Its answer is the `transport` oracle, and the message is the
  send-attempt event with address, subject and body.
- Directory query semantics (`dirPartyEmailAddressView`): the directory maps
  an account to a single primary address. Which of several primary
  addresses the database returns is not modelled. The run uses the found
  address as the code evidently intends, not the never-assigned local of
  the text as written (see "## Findings").
- Warning text and string concatenation: warnings are structured events that
  carry the account or the address.
- Query order: the database decides the order of the selected records; the
  model visits them in table order.
- Concurrency, overlapping runs, leases, cancellation and retry of failed
  sends: the code is one sequential batch with no retry.

## Findings

| source | as written | input that shows it | evidently intended | confidence | as-written member | corrected member |
|---|---|---|---|---|---|---|
| closeticketlogic.js:56-62 | `select emailAddress from dirPartyEmailAddressView` names a field of the view buffer, so it fills `dirPartyEmailAddressView.emailAddress`, and the local `str emailAddress` tested at line 62 keeps `""`; every notification warns "not found" and no mail is ever sent | account "A1" whose primary address is "a@x.com": the text warns "Customer email address not found for account A1" | the primary address found by the select is the one tested and mailed | medium; not executed | `Tickets.NoticeAsWritten`, `RunProperties.AsWrittenNeverMails`, `RunProperties.AsWrittenMissesPrimaryAddress` | `Tickets.Notice`, `RunProperties.NoticeOutcome` |
