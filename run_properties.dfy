/**
 What one run of the job guarantees, stated on its specification
 (AfterRun for the table, RunLog for the observable events).
 */
module RunProperties {
  import opened Tickets

  /** The threshold is strict: idle exactly three days is not enough, four is. */
  lemma BoundaryDay(account: Account, today: int)
    ensures !Qualifies(Ticket(WaitingForCustomer, today - 3, account), today)
    ensures Qualifies(Ticket(WaitingForCustomer, today - 4, account), today)
  {
  }

  /**
   The outcome of one notification: exactly one send attempt, to the primary
   address, when there is one, and then a warning naming that address if the
   transport refused it; no send and one warning naming the account when there
   is no address.
   */
  lemma NoticeOutcome(dir: Directory, account: Account, subject: string, body: string, delivered: bool)
    ensures var n := Notice(dir, account, subject, body, delivered);
      var addr := PrimaryAddress(dir, account);
      && multiset(n)[SendAttempt(addr, subject, body)] == (if addr != "" then 1 else 0)
      && (forall e :: e in n && e.SendAttempt? ==> e == SendAttempt(addr, subject, body) && e.to != "")
      && multiset(n)[WarnNoAddress(account)] == (if addr == "" then 1 else 0)
      && (forall e :: e in n && e.WarnNoAddress? ==> e.account == account)
      && multiset(n)[WarnSendFailed(addr)] == (if addr != "" && !delivered then 1 else 0)
      && (forall e :: e in n && e.WarnSendFailed? ==> e.to == addr)
      && (n[0].SendAttempt? || n[0].WarnNoAddress?)
  {
  }

  /**
   sendEmailNotification as written never mails: whatever the directory
   holds, it warns "not found" for the account. Wherever the account has a
   primary address, the intended notice mails it instead.
   */
  lemma AsWrittenNeverMails(dir: Directory, account: Account, subject: string, body: string, delivered: bool)
    ensures NoticeAsWritten(dir, account, subject, body, delivered) == [WarnNoAddress(account)]
    ensures forall e :: e in NoticeAsWritten(dir, account, subject, body, delivered) ==> !e.SendAttempt?
    ensures PrimaryAddress(dir, account) != "" ==>
      && SendAttempt(PrimaryAddress(dir, account), subject, body) in Notice(dir, account, subject, body, delivered)
      && NoticeAsWritten(dir, account, subject, body, delivered) != Notice(dir, account, subject, body, delivered)
  {
  }

  /** The input that shows it: account "A1" has the primary address "a@x.com". */
  lemma AsWrittenMissesPrimaryAddress()
    ensures NoticeAsWritten(map["A1" := "a@x.com"], "A1", Subject, Body, true) == [WarnNoAddress("A1")]
    ensures Notice(map["A1" := "a@x.com"], "A1", Subject, Body, true) == [SendAttempt("a@x.com", Subject, Body)]
  {
    assert PrimaryAddress(map["A1" := "a@x.com"], "A1") == "a@x.com";
  }

  /** The selection visits each qualifying case once, in table order, and nothing else. */
  lemma {:induction false} SelectedIsTheQuery(ts: seq<Ticket>, today: int, i: nat)
    requires i <= |ts|
    ensures var sel := Selected(ts, today, i);
      && (forall a :: 0 <= a < |sel| ==> sel[a] < i)
      && (forall a, b :: 0 <= a < b < |sel| ==> sel[a] < sel[b])
      && (forall k :: k in sel <==> 0 <= k < i && Qualifies(ts[k], today))
  {
    if i > 0 {
      SelectedIsTheQuery(ts, today, i - 1);
    }
  }

  /** Closed ids distribute over concatenation. */
  lemma {:induction false} ClosedIdsAppend(a: seq<Event>, b: seq<Event>)
    ensures ClosedIds(a + b) == ClosedIds(a) + ClosedIds(b)
  {
    if a != [] {
      var head := if a[0].CaseClosed? then [a[0].id] else [];
      assert (a + b)[0] == a[0] && (a + b)[1..] == a[1..] + b;
      ClosedIdsAppend(a[1..], b);
      assert ClosedIds(a + b) == head + ClosedIds(a[1..] + b);
      assert ClosedIds(a) == head + ClosedIds(a[1..]);
      assert head + (ClosedIds(a[1..]) + ClosedIds(b)) == (head + ClosedIds(a[1..])) + ClosedIds(b);
    } else {
      assert a + b == b;
    }
  }

  /** A log records a case as closed exactly when its closed ids contain it. */
  lemma {:induction false} ClosedIdsMembership(log: seq<Event>, id: nat)
    ensures CaseClosed(id) in log <==> id in ClosedIds(log)
  {
    if log != [] {
      ClosedIdsMembership(log[1..], id);
      assert log == [log[0]] + log[1..];
    }
  }

  /** Visiting a case closes that case if the query selects it, and nothing else. */
  lemma ClosedIdsOfVisit(t: Ticket, id: nat, today: int, dir: Directory, delivered: bool)
    ensures ClosedIds(Visit(t, id, today, dir, delivered)) == if Qualifies(t, today) then [id] else []
  {
    if Qualifies(t, today) {
      var nt := Notice(dir, t.account, Subject, Body, delivered);
      assert nt[0] in nt;
      if |nt| == 2 {
        assert nt[1] in nt;
        assert ClosedIds(nt[1..][1..]) == [];
        assert ClosedIds(nt[1..]) == [];
      } else {
        assert ClosedIds(nt[1..]) == [];
      }
      assert ClosedIds(nt) == [];
      assert Block(t, id, dir, delivered)[1..] == nt;
    }
  }

  /**
   The cases the first `i` visits close are exactly the selected ones, in
   table order: for `i == |ts|`, the whole run.
   */
  lemma {:induction false} ClosedInTableOrder(ts: seq<Ticket>, today: int, dir: Directory, transport: nat -> bool, i: nat)
    requires i <= |ts|
    ensures ClosedIds(Processed(ts, today, dir, transport, i)) == Selected(ts, today, i)
  {
    if i > 0 {
      ClosedInTableOrder(ts, today, dir, transport, i - 1);
      ClosedIdsAppend(Processed(ts, today, dir, transport, i - 1), Visit(ts[i - 1], i - 1, today, dir, transport(i - 1)));
      ClosedIdsOfVisit(ts[i - 1], i - 1, today, dir, transport(i - 1));
    }
  }

  /**
   Each case is closed by the run if and only if the query selects it, and no
   case is closed twice. For `i == |ts|` this is the whole run.
   */
  lemma ClosedExactlyOnce(ts: seq<Ticket>, today: int, dir: Directory, transport: nat -> bool, i: nat, id: nat)
    requires i <= |ts|
    ensures CaseClosed(id) in Processed(ts, today, dir, transport, i) <==> id < i && Qualifies(ts[id], today)
    ensures var ids := ClosedIds(Processed(ts, today, dir, transport, i));
      forall a, b :: 0 <= a < b < |ids| ==> ids[a] != ids[b]
  {
    ClosedInTableOrder(ts, today, dir, transport, i);
    SelectedIsTheQuery(ts, today, i);
    ClosedIdsMembership(Processed(ts, today, dir, transport, i), id);
  }

  /**
   When a log ends with the visit of one case, any position past the prefix
   lies in that case's block, which starts right after the prefix.
   */
  lemma VisitCovers(prev: seq<Event>, t: Ticket, id: nat, today: int, dir: Directory, delivered: bool, j: nat)
    requires |prev| <= j < |prev + Visit(t, id, today, dir, delivered)|
    ensures Qualifies(t, today)
    ensures var b := Block(t, id, dir, delivered);
      var log := prev + Visit(t, id, today, dir, delivered);
      && log[|prev|] == CaseClosed(id)
      && j < |prev| + |b| && |log| == |prev| + |b|
      && (forall k :: 0 <= k < |b| ==> log[|prev| + k] == b[k])
    ensures (prev + Visit(t, id, today, dir, delivered))[j].CaseClosed? ==> j == |prev|
  {
    var b := Block(t, id, dir, delivered);
    var nt := Notice(dir, t.account, Subject, Body, delivered);
    assert b == [CaseClosed(id)] + nt;
    assert forall k :: 1 <= k < |b| ==> b[k] == nt[k - 1] && nt[k - 1] in nt;
    assert (prev + b)[j] == b[j - |prev|];
  }

  /**
   Every case-closed event is immediately followed by the notice for that
   case's own account, with the fixed subject and body: close first, then notify.
   */
  lemma {:induction false} CloseThenNotify(ts: seq<Ticket>, today: int, dir: Directory, transport: nat -> bool, i: nat, j: nat)
    requires i <= |ts|
    requires j < |Processed(ts, today, dir, transport, i)|
    requires Processed(ts, today, dir, transport, i)[j].CaseClosed?
    ensures var log := Processed(ts, today, dir, transport, i);
      var id := log[j].id;
      && id < i && Qualifies(ts[id], today)
      && var b := Block(ts[id], id, dir, transport(id));
      && j + |b| <= |log| && (forall k :: 0 <= k < |b| ==> log[j + k] == b[k])
  {
    var prev := Processed(ts, today, dir, transport, i - 1);
    if j < |prev| {
      CloseThenNotify(ts, today, dir, transport, i - 1, j);
    } else {
      VisitCovers(prev, ts[i - 1], i - 1, today, dir, transport(i - 1), j);
    }
  }

  /**
   Every event of the first `i` visits belongs to the block of a selected
   case: its close, or the notice to its own account that follows it.
   */
  lemma {:induction false} EventOfSelectedCase(ts: seq<Ticket>, today: int, dir: Directory, transport: nat -> bool, i: nat, e: Event)
      returns (id: nat)
    requires i <= |ts|
    requires e in Processed(ts, today, dir, transport, i)
    ensures id < i && Qualifies(ts[id], today)
    ensures e in Block(ts[id], id, dir, transport(id))
  {
    if e in Processed(ts, today, dir, transport, i - 1) {
      id := EventOfSelectedCase(ts, today, dir, transport, i - 1, e);
    } else {
      id := i - 1;
    }
  }

  /**
   No mail goes anywhere but to the primary address of the account of a case
   the run closed, and it always carries the fixed subject and body.
   */
  lemma MailsOnlyForClosedCases(ts: seq<Ticket>, today: int, dir: Directory, transport: nat -> bool, e: Event)
      returns (id: nat)
    requires e in RunLog(ts, today, dir, transport) && e.SendAttempt?
    ensures id < |ts| && Qualifies(ts[id], today)
    ensures e == SendAttempt(PrimaryAddress(dir, ts[id].account), Subject, Body)
    ensures PrimaryAddress(dir, ts[id].account) != ""
  {
    id := EventOfSelectedCase(ts, today, dir, transport, |ts|, e);
    NoticeOutcome(dir, ts[id].account, Subject, Body, transport(id));
    assert e in Notice(dir, ts[id].account, Subject, Body, transport(id));
  }

  /**
   Every warning of the run is about a case it closed: "no address" names that
   case's account, which has no primary address; "send failed" names that
   account's primary address, and the transport refused the mail.
   */
  lemma WarningsOnlyForClosedCases(ts: seq<Ticket>, today: int, dir: Directory, transport: nat -> bool, e: Event)
      returns (id: nat)
    requires e in RunLog(ts, today, dir, transport) && (e.WarnNoAddress? || e.WarnSendFailed?)
    ensures id < |ts| && Qualifies(ts[id], today)
    ensures e.WarnNoAddress? ==> e.account == ts[id].account && PrimaryAddress(dir, ts[id].account) == ""
    ensures e.WarnSendFailed? ==> e.to == PrimaryAddress(dir, ts[id].account) != "" && !transport(id)
  {
    id := EventOfSelectedCase(ts, today, dir, transport, |ts|, e);
    NoticeOutcome(dir, ts[id].account, Subject, Body, transport(id));
    assert e in Notice(dir, ts[id].account, Subject, Body, transport(id));
  }

  /** Visiting cases none of which qualifies closes nothing and sends nothing. */
  lemma {:induction false} QuietWhenNothingQualifies(ts: seq<Ticket>, today: int, dir: Directory, transport: nat -> bool, i: nat)
    requires i <= |ts|
    requires forall k :: 0 <= k < i ==> !Qualifies(ts[k], today)
    ensures Processed(ts, today, dir, transport, i) == []
  {
    if i > 0 {
      QuietWhenNothingQualifies(ts, today, dir, transport, i - 1);
    }
  }

  /**
   Idempotence: a second run on the same day changes no record and makes no
   event, whatever the mail transport answers.
   */
  lemma SecondRunIsNoOp(ts: seq<Ticket>, today: int, dir: Directory, transport: nat -> bool)
    ensures AfterRun(AfterRun(ts, today), today) == AfterRun(ts, today)
    ensures RunLog(AfterRun(ts, today), today, dir, transport) == []
  {
    QuietWhenNothingQualifies(AfterRun(ts, today), today, dir, transport, |ts|);
  }

  /**
   A case closed by one run is never selected again, whatever the day of the
   next run: that run does not close it again or change its record, and, as
   every event belongs to the block of a case it selects, sends nothing for it.
   */
  lemma ClosedCasesNeverReselected(ts: seq<Ticket>, today: int, day: int, dir: Directory, transport: nat -> bool, id: nat)
    requires id < |ts| && Qualifies(ts[id], today)
    ensures !Qualifies(AfterRun(ts, today)[id], day)
    ensures CaseClosed(id) !in RunLog(AfterRun(ts, today), day, dir, transport)
    ensures AfterRun(AfterRun(ts, today), day)[id] == AfterRun(ts, today)[id]
    ensures Visit(AfterRun(ts, today)[id], id, day, dir, transport(id)) == []
  {
    ClosedExactlyOnce(AfterRun(ts, today), day, dir, transport, |ts|, id);
  }

  /**
   A worked run on day 100 over three waiting cases: idle five days with a
   primary address, idle one day, and idle ten days with no address. The
   first is closed and mailed, the second is left alone, the third is closed
   with a warning naming its account.
   */
  lemma ThreeCaseRun()
    ensures var ts := [Ticket(WaitingForCustomer, 95, "A1"), Ticket(WaitingForCustomer, 99, "A2"),
                       Ticket(WaitingForCustomer, 90, "A3")];
      var dir := map["A1" := "a@x.com"];
      && AfterRun(ts, 100) == [Ticket(Closed, 95, "A1"), Ticket(WaitingForCustomer, 99, "A2"), Ticket(Closed, 90, "A3")]
      && RunLog(ts, 100, dir, _ => true)
         == [CaseClosed(0), SendAttempt("a@x.com", Subject, Body), CaseClosed(2), WarnNoAddress("A3")]
  {
    var ts := [Ticket(WaitingForCustomer, 95, "A1"), Ticket(WaitingForCustomer, 99, "A2"),
               Ticket(WaitingForCustomer, 90, "A3")];
    var dir := map["A1" := "a@x.com"];
    assert PrimaryAddress(dir, "A1") == "a@x.com";
    assert PrimaryAddress(dir, "A3") == "";
    assert Processed(ts, 100, dir, _ => true, 1) == [CaseClosed(0), SendAttempt("a@x.com", Subject, Body)];
    assert Processed(ts, 100, dir, _ => true, 2) == [CaseClosed(0), SendAttempt("a@x.com", Subject, Body)];
  }
}
