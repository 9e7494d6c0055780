/** The orchestrator over time. The bus delivers events to the handlers one
    at a time (JavaScript callbacks never interleave), so a run of the
    process is a sequence of events folded through `Step`, collecting the
    dispatched tasks in order. */
module Workflow {
  import opened Wrappers
  import Ascii
  import Decimal
  import opened Orchestrator

  /** The store after a run and every task it dispatched, in order. */
  datatype Trace = Trace(emails: Emails, tasks: seq<Task>)

  function Emit(task: Option<Task>): (ts: seq<Task>)
    ensures |ts| <= 1
  {
    match task
    case Some(t) => [t]
    case None => []
  }

  /** No event of the run is a purchase request. */
  predicate NoIntake(events: seq<Event>)
  {
    forall i :: 0 <= i < |events| ==> !events[i].Request?
  }

  /** Events handled in delivery order. Over any run the store only grows,
      only intake events change it, normalised keys stay normalised, and each
      event dispatches at most one task. */
  function Run(emails: Emails, events: seq<Event>): (r: Trace)
    ensures emails.Keys <= r.emails.Keys
    ensures NoIntake(events) ==> r.emails == emails
    ensures Normalized(emails) ==> Normalized(r.emails)
    ensures |r.tasks| <= |events|
    decreases |events|
  {
    if events == [] then Trace(emails, [])
    else
      var prior := Run(emails, events[..|events| - 1]);
      var last := Step(prior.emails, events[|events| - 1]);
      Trace(last.emails, prior.tasks + Emit(last.task))
  }

  /** The event loop: handles the events one by one as they arrive. */
  method Process(emails: Emails, events: seq<Event>) returns (store: Emails, tasks: seq<Task>)
    ensures Trace(store, tasks) == Run(emails, events)
    ensures emails.Keys <= store.Keys
  {
    store := emails;
    tasks := [];
    var i := 0;
    while i < |events|
      invariant 0 <= i <= |events|
      invariant Trace(store, tasks) == Run(emails, events[..i])
    {
      assert events[..i + 1][..i] == events[..i];
      var o := Step(store, events[i]);
      store := o.emails;
      tasks := tasks + Emit(o.task);
      i := i + 1;
    }
    assert events[..i] == events;
  }

  /** Reference reading of the store: the email of the last intake whose
      address equals `address` up to case, if there was one. */
  function LastIntake(events: seq<Event>, address: string): Option<string>
    decreases |events|
  {
    if events == [] then None
    else
      var e := events[|events| - 1];
      if e.Request? && Ascii.EqualsIgnoringCase(e.ethAddress, address) then Some(e.email)
      else LastIntake(events[..|events| - 1], address)
  }

  /** Last writer wins over a whole run: looking an address up in any
      spelling returns the email of the latest intake for it, and the
      starting store's entry when there was none. */
  lemma {:induction false} RunLookup(emails: Emails, events: seq<Event>, address: string)
    ensures Get(Run(emails, events).emails, address)
            == match LastIntake(events, address)
               case Some(email) => Some(email)
               case None => Get(emails, address)
    decreases |events|
  {
    if events != [] {
      var prefix := events[..|events| - 1];
      var e := events[|events| - 1];
      RunLookup(emails, prefix, address);
      if e.Request? {
        Ascii.UpperEqIff(e.ethAddress, address);
        Ascii.UpperEqIff(address, e.ethAddress);
      }
    }
  }

  /** Some intake event of the run has `key` as its normalised address. */
  predicate IntakeKey(events: seq<Event>, key: string)
  {
    exists i :: 0 <= i < |events| && events[i].Request? && Ascii.Upper(events[i].ethAddress) == key
  }

  /** An intake key of a run extended by one event is an intake key of the
      run or the normalised address of that event. */
  lemma IntakeKeySnoc(events: seq<Event>, e: Event, key: string)
    ensures IntakeKey(events + [e], key) <==> IntakeKey(events, key) || (e.Request? && Ascii.Upper(e.ethAddress) == key)
  {
    var all := events + [e];
    if IntakeKey(events, key) {
      var i :| 0 <= i < |events| && events[i].Request? && Ascii.Upper(events[i].ethAddress) == key;
      assert all[i] == events[i];
    }
    if e.Request? && Ascii.Upper(e.ethAddress) == key {
      assert all[|events|] == e;
    }
    if IntakeKey(all, key) {
      var i :| 0 <= i < |all| && all[i].Request? && Ascii.Upper(all[i].ethAddress) == key;
      if i < |events| {
        assert events[i] == all[i];
      }
    }
  }

  /** The keys of the store after a run are exactly the starting keys and the
      normalised addresses of the run's intake events. */
  lemma {:induction false} RunKeys(emails: Emails, events: seq<Event>, key: string)
    ensures key in Run(emails, events).emails <==> key in emails || IntakeKey(events, key)
    decreases |events|
  {
    if events == [] {
      assert !IntakeKey(events, key);
    } else {
      var prefix := events[..|events| - 1];
      var e := events[|events| - 1];
      assert events == prefix + [e];
      RunKeys(emails, prefix, key);
      RunSnoc(emails, prefix, e);
      IntakeKeySnoc(prefix, e, key);
    }
  }

  /** A run extended by one event is the run followed by one step. */
  lemma RunSnoc(emails: Emails, events: seq<Event>, e: Event)
    ensures var prior := Run(emails, events);
            var last := Step(prior.emails, e);
            Run(emails, events + [e]) == Trace(last.emails, prior.tasks + Emit(last.task))
  {
  }

  /** Keys are never removed, whatever follows: the store after any prefix
      of a run is contained in the store after the whole run. */
  lemma {:induction false} RunMonotone(emails: Emails, events: seq<Event>, n: nat)
    requires n <= |events|
    ensures Run(emails, events[..n]).emails.Keys <= Run(emails, events).emails.Keys
    decreases |events|
  {
    if n == |events| {
      assert events[..n] == events;
    } else {
      var prefix := events[..|events| - 1];
      RunMonotone(emails, prefix, n);
      assert prefix[..n] == events[..n];
    }
  }

  /** No deduplication over runs: a transfer event delivered twice in a row
      dispatches the same task twice and leaves the store unchanged. */
  lemma ReplayDuplicates(emails: Emails, events: seq<Event>, transfer: Event)
    requires transfer.Transferred?
    ensures var before := Run(emails, events);
            var once := Step(before.emails, transfer).task;
            Run(emails, events + [transfer, transfer]) == Trace(before.emails, before.tasks + Emit(once) + Emit(once))
  {
    var twice := events + [transfer, transfer];
    assert twice[..|twice| - 1] == events + [transfer];
    assert (events + [transfer])[..|events|] == events;
  }

  /** A transfer of a whole number of tokens on the workflow's contract, to
      an address an intake has just recorded, emails that intake's buyer a
      receipt naming the token count. */
  lemma ReceiptAfterIntake(emails: Emails, ethAddress: string, email: string, tokens: int,
                           contractAddress: string, to: string, transactionHash: string)
    requires Ascii.EqualsIgnoringCase(contractAddress, ERC20_ADDRESS)
    requires Ascii.EqualsIgnoringCase(to, ethAddress) && to != [] && email != []
    ensures var stored := Put(emails, ethAddress, email);
            var value := Decimal.IntToString(tokens * Decimal.UNIT);
            Decimal.PositionalTokens(tokens)
            ==> Step(stored, Transferred(contractAddress, Some(to), value, transactionHash))
                == Outcome(stored, Some(Send(SENDER, email, SUBJECT, ReceiptText(Decimal.IntToString(tokens), transactionHash))))
  {
    var stored := Put(emails, ethAddress, email);
    PutGet(emails, ethAddress, email, to);
    NotificationContent(stored, contractAddress, to, tokens, transactionHash);
  }

  /** A request followed by the gateway's confirmation echoing the charge
      metadata: the email is stored, the buyer is charged 40 cents per token
      and the tokens are transferred to the requested address. */
  lemma PaymentThenTransfer(emails: Emails, ethAddress: string, email: string, number: int, token: string)
    ensures Run(emails, [Request(ethAddress, email, number, token), Charged(Metadata(ethAddress, number))])
            == Trace(Put(emails, ethAddress, email),
                     [ Charge(number * 40, "usd", email, Metadata(ethAddress, number), token),
                       Transfer(ERC20_ADDRESS, 100000, ethAddress, Decimal.IntToString(number * Decimal.UNIT)) ])
  {
  }

  /** The whole purchase: a request, the gateway's confirmation echoing the
      charge metadata, and the ledger's transfer event for the dispatched
      value (to the same address in any spelling) yield a charge of 40 cents
      per token, a transfer of tokens * 10^18 base units, and a receipt to
      the buyer that names the token count. */
  lemma EndToEnd(emails: Emails, ethAddress: string, email: string, number: int, token: string,
                 contractAddress: string, to: string, transactionHash: string)
    requires Ascii.EqualsIgnoringCase(contractAddress, ERC20_ADDRESS)
    requires Ascii.EqualsIgnoringCase(to, ethAddress) && to != [] && email != []
    ensures var transfer := Transferred(contractAddress, Some(to), Decimal.IntToString(number * Decimal.UNIT), transactionHash);
            Decimal.PositionalTokens(number) ==>
            Run(emails, [Request(ethAddress, email, number, token), Charged(Metadata(ethAddress, number)), transfer]).tasks
            == [ Charge(number * 40, "usd", email, Metadata(ethAddress, number), token),
                 Transfer(ERC20_ADDRESS, 100000, ethAddress, Decimal.IntToString(number * Decimal.UNIT)),
                 Send(SENDER, email, SUBJECT, ReceiptText(Decimal.IntToString(number), transactionHash)) ]
  {
    var start := [Request(ethAddress, email, number, token), Charged(Metadata(ethAddress, number))];
    PaymentThenTransfer(emails, ethAddress, email, number, token);
    ReceiptAfterIntake(emails, ethAddress, email, number, contractAddress, to, transactionHash);
    var transfer := Transferred(contractAddress, Some(to), Decimal.IntToString(number * Decimal.UNIT), transactionHash);
    RunSnoc(emails, start, transfer);
    assert start + [transfer] == [start[0], start[1], transfer];
  }

  /** The worked example: ten tokens bought for "0xABC" cost 400 cents, and
      the transfer reported to "0xabc" emails "a@b.com" a receipt for "10"
      tokens; a transfer on another contract sends nothing. */
  lemma Scenario(emails: Emails, txHash: string)
    ensures var transfer := Transferred(ERC20_ADDRESS, Some("0xabc"), Decimal.IntToString(10 * Decimal.UNIT), txHash);
            var tasks := Run(emails, [Request("0xABC", "a@b.com", 10, "tok123"), Charged(Metadata("0xABC", 10)), transfer]).tasks;
            && |tasks| == 3
            && tasks[0] == Charge(400, "usd", "a@b.com", Metadata("0xABC", 10), "tok123")
            && tasks[1] == Transfer(ERC20_ADDRESS, 100000, "0xABC", "10000000000000000000")
            && tasks[2] == Send("contact@mesg.com", "a@b.com", SUBJECT, ReceiptText("10", txHash))
    ensures Step(emails, Transferred("0xOTHER", Some("0xabc"), "10", txHash)).task == None
  {
    assert Ascii.EqualsIgnoringCase("0xabc", "0xABC");
    assert Ascii.EqualsIgnoringCase(ERC20_ADDRESS, ERC20_ADDRESS);
    EndToEnd(emails, "0xABC", "a@b.com", 10, "tok123", ERC20_ADDRESS, "0xabc", txHash);
    assert Decimal.IntToString(10) == "10";
    Decimal.TenTokens();
    assert Decimal.PositionalTokens(10) by {
      Decimal.Pow10Monotone(2, 21);
      assert Decimal.Pow10(2) == 100;
    }
    assert !Ascii.EqualsIgnoringCase("0xOTHER", ERC20_ADDRESS);
    ForeignContractIgnored(emails, "0xOTHER", Some("0xabc"), "10", txHash);
  }
}
