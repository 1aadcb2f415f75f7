/**
 The job itself: the case table, the contact directory and the log of
 observable events, and the three procedures of closeticketlogic.js.
 */
module CloseTicketLogic {
  import opened Tickets

  lemma AppendAssoc(a: seq<Event>, b: seq<Event>, c: seq<Event>)
    ensures (a + b) + c == a + (b + c)
  {
  }

  /** A table whose every record is settled record by record is the table after the run. */
  lemma SettledIsAfterRun(before: seq<Ticket>, after: seq<Ticket>, today: int)
    requires |after| == |before|
    requires forall k :: 0 <= k < |before| ==> after[k] == Settle(before[k], today)
    ensures after == AfterRun(before, today)
  {
    assert forall k :: 0 <= k < |before| ==> after[k] == AfterRun(before, today)[k];
  }

  class ServiceDesk {
    /** The CustServiceCase table; a case's id is its index. */
    const cases: array<Ticket>
    /** The primary e-mail addresses (read-only for this job). */
    const directory: Directory
    /** Case updates, mails handed to the transport and warnings, in order. */
    var log: seq<Event>

    constructor (initial: seq<Ticket>, dir: Directory)
      ensures fresh(cases) && cases[..] == initial
      ensures directory == dir && log == []
    {
      cases := new Ticket[|initial|](i requires 0 <= i < |initial| => initial[i]);
      directory := dir;
      log := [];
    }

    /**
     One run on day `today`: every case selected by the query is closed and
     then its account is notified. `transport(i)` is the answer of the mail
     transport to the notice for case `i`.
     */
    method CheckAndCloseInactiveTickets(today: int, transport: nat -> bool)
      modifies cases, this`log
      ensures cases[..] == AfterRun(old(cases[..]), today)
      ensures log == old(log) + RunLog(old(cases[..]), today, directory, transport)
    {
      ghost var s := cases[..];
      var i := 0;
      while i < cases.Length
        invariant 0 <= i <= cases.Length
        invariant forall k :: 0 <= k < i ==> cases[k] == Settle(s[k], today)
        invariant forall k :: i <= k < cases.Length ==> cases[k] == s[k]
        invariant log == old(log) + Processed(s, today, directory, transport, i)
      {
        VisitCase(i, today, transport(i));
        AppendAssoc(old(log), Processed(s, today, directory, transport, i), Visit(s[i], i, today, directory, transport(i)));
        i := i + 1;
      }
      SettledIsAfterRun(s, cases[..], today);
    }

    /**
     The visit of case `id` by the job's query: if the case qualifies, close
     it, then notify its account; `delivered` is what the transport answers.
     */
    method VisitCase(id: nat, today: int, delivered: bool)
      requires id < cases.Length
      modifies cases, this`log
      ensures cases[id] == Settle(old(cases[id]), today)
      ensures forall k :: 0 <= k < cases.Length && k != id ==> cases[k] == old(cases[k])
      ensures log == old(log) + Visit(old(cases[id]), id, today, directory, delivered)
    {
      if Qualifies(cases[id], today) {
        ghost var before := log;
        CloseTicket(id);
        SendEmailNotification(cases[id].account, Subject, Body, delivered);
        AppendAssoc(before, [CaseClosed(id)], Notice(directory, cases[id].account, Subject, Body, delivered));
      }
    }

    /** Sets the status of case `id` to Closed and saves the record. */
    method CloseTicket(id: nat)
      requires id < cases.Length
      modifies cases, this`log
      ensures cases[id].status == Closed
      ensures cases[id].lastActivity == old(cases[id].lastActivity) && cases[id].account == old(cases[id].account)
      ensures forall k :: 0 <= k < cases.Length && k != id ==> cases[k] == old(cases[k])
      ensures log == old(log) + [CaseClosed(id)]
    {
      cases[id] := cases[id].(status := Closed);
      log := log + [CaseClosed(id)];
    }

    /**
     Looks up the primary address of `account`; mails the notice there, or
     warns that there is none. `delivered` is what the transport answers.
     */
    method SendEmailNotification(account: Account, subject: string, body: string, delivered: bool)
      modifies this`log
      ensures log == old(log) + Notice(directory, account, subject, body, delivered)
    {
      var emailAddress := "";
      if account in directory {
        emailAddress := directory[account];
      }
      if emailAddress != "" {
        log := log + [SendAttempt(emailAddress, subject, body)];
        if !delivered {
          log := log + [WarnSendFailed(emailAddress)];
        }
      } else {
        log := log + [WarnNoAddress(account)];
      }
    }
  }
}
