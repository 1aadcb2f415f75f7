/**
 The data of the inactivity-closure job: support cases (CustServiceCase
 records), the contact directory, the events a run makes observable, and a
 pure specification of what one run does to the case table and the log.
 */
module Tickets {

  /** The status of a case (CustServiceCaseStatus). */
  datatype Status = New | InProgress | WaitingForCustomer | Closed

  type Account = string
  type Address = string

  /** One case record. `lastActivity` is a day number. */
  datatype Ticket = Ticket(status: Status, lastActivity: int, account: Account)

  /**
   The primary e-mail address of each account. An account that is not a key
   has no primary address row, so the lookup leaves the address empty.
   */
  type Directory = map<Account, Address>

  /**
   What a run makes observable: a case record updated to Closed, a mail handed
   to the transport, and the two warnings the job can raise.
   */
  datatype Event =
    | CaseClosed(id: nat)
    | SendAttempt(to: Address, subject: string, body: string)
    | WarnNoAddress(account: Account)
    | WarnSendFailed(to: Address)

  /** Days of inactivity after which a waiting case is closed. */
  const InactivityDays: int := 3

  /** The fixed notice sent for every closed case. */
  const Subject: string := "Ticket Closed Due to Inactivity"
  const Body: string := "Hi,\n\nJust letting you know this ticket has been closed due to inactivity. Please contact us should there still be issues."

  /** The selection rule of the job's query: waiting, and idle for strictly more than the threshold. */
  predicate Qualifies(t: Ticket, today: int)
  {
    t.status == WaitingForCustomer && t.lastActivity < today - InactivityDays
  }

  /** The record as closeTicket leaves it. */
  function Close(t: Ticket): (r: Ticket)
    ensures r.status == Closed
    ensures r.lastActivity == t.lastActivity && r.account == t.account
    ensures forall today :: !Qualifies(r, today)
  {
    t.(status := Closed)
  }

  /** The record as a run on day `today` leaves it. */
  function Settle(t: Ticket, today: int): (r: Ticket)
  {
    if Qualifies(t, today) then Close(t) else t
  }

  /** The case table after a run on day `today`. */
  function AfterRun(ts: seq<Ticket>, today: int): (r: seq<Ticket>)
    ensures |r| == |ts|
    ensures forall i :: 0 <= i < |ts| && Qualifies(ts[i], today) ==>
              r[i].status == Closed && r[i].lastActivity == ts[i].lastActivity && r[i].account == ts[i].account
    ensures forall i :: 0 <= i < |ts| && !Qualifies(ts[i], today) ==> r[i] == ts[i]
    ensures forall i :: 0 <= i < |ts| ==> !Qualifies(r[i], today)
  {
    seq(|ts|, i requires 0 <= i < |ts| => Settle(ts[i], today))
  }

  /** The address the directory query yields: the empty string when there is no primary row. */
  function PrimaryAddress(dir: Directory, account: Account): (addr: Address)
  {
    if account in dir then dir[account] else ""
  }

  /**
   The events of sendEmailNotification once `emailAddress` holds `addr`: the
   empty address is "not found", any other is mailed; `delivered` is what the
   mail transport answers.
   */
  function NoticeTo(addr: Address, account: Account, subject: string, body: string, delivered: bool): (n: seq<Event>)
  {
    if addr == "" then [WarnNoAddress(account)]
    else [SendAttempt(addr, subject, body)] + (if delivered then [] else [WarnSendFailed(addr)])
  }

  /**
   The events of one notification to `account`, with the primary address the
   directory query finds in `emailAddress`.
   */
  function Notice(dir: Directory, account: Account, subject: string, body: string, delivered: bool): (n: seq<Event>)
    ensures n != []
    // notifying never touches a case record
    ensures forall e :: e in n ==> !e.CaseClosed?
  {
    NoticeTo(PrimaryAddress(dir, account), account, subject, body, delivered)
  }

  /**
   sendEmailNotification as its text reads: the select fills the field
   `emailAddress` of the view buffer, so the local `emailAddress` keeps its
   initial empty value whatever the directory holds.
   */
  function NoticeAsWritten(dir: Directory, account: Account, subject: string, body: string, delivered: bool): (n: seq<Event>)
    ensures n != []
  {
    var emailAddress: Address := "";
    NoticeTo(emailAddress, account, subject, body, delivered)
  }

  /** The events of processing the selected case number `id`: close it, then notify its account. */
  function Block(t: Ticket, id: nat, dir: Directory, delivered: bool): (b: seq<Event>)
  {
    [CaseClosed(id)] + Notice(dir, t.account, Subject, Body, delivered)
  }

  /** The events of visiting case `id` during the run: its block if the query selects it, nothing otherwise. */
  function Visit(t: Ticket, id: nat, today: int, dir: Directory, delivered: bool): (v: seq<Event>)
  {
    if Qualifies(t, today) then Block(t, id, dir, delivered) else []
  }

  /** The cases among the first `i` that the job's query selects, in table order. */
  function Selected(ts: seq<Ticket>, today: int, i: nat): (sel: seq<nat>)
    requires i <= |ts|
  {
    if i == 0 then []
    else Selected(ts, today, i - 1) + (if Qualifies(ts[i - 1], today) then [i - 1] else [])
  }

  /** The cases a log records as closed, in order. */
  function ClosedIds(log: seq<Event>): (ids: seq<nat>)
  {
    if log == [] then []
    else (if log[0].CaseClosed? then [log[0].id] else []) + ClosedIds(log[1..])
  }

  /**
   The events of visiting the first `i` cases of the table `ts` on day
   `today`, in order; `transport(k)` is what the mail transport answers to the
   notice for case `k`.
   */
  function Processed(ts: seq<Ticket>, today: int, dir: Directory, transport: nat -> bool, i: nat): (log: seq<Event>)
    requires i <= |ts|
  {
    if i == 0 then []
    else Processed(ts, today, dir, transport, i - 1) + Visit(ts[i - 1], i - 1, today, dir, transport(i - 1))
  }

  /** The events of a whole run: every case visited once. */
  function RunLog(ts: seq<Ticket>, today: int, dir: Directory, transport: nat -> bool): (log: seq<Event>)
  {
    Processed(ts, today, dir, transport, |ts|)
  }
}
