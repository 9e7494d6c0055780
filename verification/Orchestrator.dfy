/** The orchestration core of the purchase workflow. The only state is the
    correlation store `emails`, a map from an upper-cased Ethereum address
    to the buyer's email. Three handlers react to decoded events:
      - intake (a webhook purchase request) records the email and asks the
        payment gateway to charge;
      - settlement (a confirmed charge) asks the token ledger to transfer;
      - notification (a ledger transfer) emails a receipt when the transfer
        is on the workflow's contract and goes to a known address.
    Each handler is a pure step from the store and one event to the new
    store and at most one outgoing task. */
module Orchestrator {
  import opened Wrappers
  import Ascii
  import Decimal
  import Amount

  /** Price of one token in US dollars. */
  const TOKEN_PRICE: real := 0.4

  /** Price of one token in cents: `TOKEN_PRICE * 100`. */
  const TOKEN_PRICE_CENTS: int := 40

  /** The ERC20 contract the workflow sells tokens of. */
  const ERC20_ADDRESS: string := "0xd14A3D6b94016e455af5eB7F329bc572EA626c5F"

  /** Base units per token, 10^18. */
  const ERC20_DECIMALS: nat := Decimal.UNIT

  const GAS_LIMIT: nat := 100000
  const CURRENCY: string := "usd"
  const SENDER: string := "contact@mesg.com"
  const SUBJECT: string := "Your MESG tokens just arrived"
  const RECEIPT_HEAD: string := "Hello, you just received your "
  const RECEIPT_MIDDLE: string := " MESG tokens. See the details of the transaction here https://ropsten.etherscan.io/tx/"

  /** The correlation store: upper-cased address to buyer email. */
  type Emails = map<string, string>

  /** What the charge carries to the payment gateway and the gateway echoes
      back on confirmation. */
  datatype Metadata = Metadata(address: string, tokens: int)

  /** The decoded events the three handlers listen to. */
  datatype Event =
    | Request(ethAddress: string, email: string, number: int, token: string)
    | Charged(metadata: Metadata)
    | Transferred(contractAddress: string, to: Option<string>, value: string, transactionHash: string)

  /** The tasks the handlers dispatch; credentials are left out. */
  datatype Task =
    | Charge(amount: int, currency: string, email: string, metadata: Metadata, source: string)
    | Transfer(contractAddress: string, gasLimit: nat, to: string, value: string)
    | Send(from: string, to: string, subject: string, text: string)

  /** The store after a step and the task the step dispatched, if any. */
  datatype Outcome = Outcome(emails: Emails, task: Option<Task>)

  /** Every key of the store is in normal (upper-case) form. */
  predicate Normalized(emails: Emails)
  {
    forall k :: k in emails ==> Ascii.IsUpper(k)
  }

  /** Store write: the address is normalised before it is used as a key. */
  function Put(emails: Emails, address: string, email: string): (r: Emails)
    ensures r.Keys == emails.Keys + {Ascii.Upper(address)}
    ensures Normalized(emails) ==> Normalized(r)
  {
    emails[Ascii.Upper(address) := email]
  }

  /** Reading back after a write, in any spelling: an address equal to the
      written one up to case finds the written email, every other address
      finds what it found before. */
  lemma PutGet(emails: Emails, address: string, email: string, probe: string)
    ensures Get(Put(emails, address, email), probe)
            == if Ascii.EqualsIgnoringCase(probe, address) then Some(email) else Get(emails, probe)
  {
    Ascii.UpperEqIff(probe, address);
  }

  /** Store read: the address is normalised before the lookup, so it finds
      exactly the normalised keys that equal the address up to case. */
  function Get(emails: Emails, address: string): (r: Option<string>)
    ensures r.Some? <==> exists k :: k in emails && Ascii.IsUpper(k) && Ascii.EqualsIgnoringCase(k, address)
    ensures r.Some? ==> exists k :: k in emails && Ascii.IsUpper(k) && Ascii.EqualsIgnoringCase(k, address) && r.value == emails[k]
    ensures r.Some? ==> r.value in emails.Values
  {
    var key := Ascii.Upper(address);
    NormalKey(emails, address);
    if key in emails then Some(emails[key]) else None
  }

  /** A normalised key equal to `address` up to case is its upper-case form. */
  lemma NormalKey(emails: Emails, address: string)
    ensures forall k :: k in emails && Ascii.IsUpper(k) && Ascii.EqualsIgnoringCase(k, address) ==> k == Ascii.Upper(address)
  {
    forall k | k in emails && Ascii.IsUpper(k) && Ascii.EqualsIgnoringCase(k, address)
      ensures k == Ascii.Upper(address)
    {
      Ascii.UpperUnique(k, address);
    }
  }

  /** Charge in cents for `number` tokens: the exact value of
      `number * TOKEN_PRICE * 100`. */
  function ChargeAmount(number: int): (cents: int)
    ensures cents as real == number as real * TOKEN_PRICE * 100.0
    ensures number >= 0 ==> cents >= 0
  {
    number * TOKEN_PRICE_CENTS
  }

  /** The receipt body: it names the amount and the transaction. */
  function ReceiptText(amount: string, transactionHash: string): (text: string)
    ensures |text| >= |RECEIPT_HEAD| + |amount| + |transactionHash|
    ensures text[|RECEIPT_HEAD|..|RECEIPT_HEAD| + |amount|] == amount
    ensures text[|text| - |transactionHash|..] == transactionHash
  {
    RECEIPT_HEAD + amount + RECEIPT_MIDDLE + transactionHash
  }

  /** The amount shown in the receipt: the transfer value divided by 10^18,
      or "NaN" exactly when the value is not a decimal integer. */
  function ReceiptAmount(value: string): (shown: string)
    ensures shown == "NaN" <==> Decimal.ParseInt(value).None?
  {
    match Decimal.ParseInt(value)
    case Some(v) => Decimal.FormatUnits(v)
    case None => "NaN"
  }

  /** The receipt shows exactly the transferred value: whenever the value
      is a decimal integer, reading the shown amount back gives it in base
      units, in positional and exponential notation alike. */
  lemma ReceiptAmountReads(value: string)
    ensures Decimal.ParseInt(value).Some? ==> Amount.ReadAmount(ReceiptAmount(value)) == Decimal.ParseInt(value)
  {
    if Decimal.ParseInt(value).Some? {
      Amount.FormatUnitsRoundTrip(Decimal.ParseInt(value).value);
    }
  }

  /** A value that is a whole number of tokens in base units is shown as
      that number of tokens, up to the point where the rendering switches
      to exponential notation. */
  lemma ReceiptAmountWhole(tokens: int)
    ensures Decimal.PositionalTokens(tokens)
            ==> ReceiptAmount(Decimal.IntToString(tokens * ERC20_DECIMALS)) == Decimal.IntToString(tokens)
    ensures !Decimal.PositionalTokens(tokens)
            ==> 'e' in ReceiptAmount(Decimal.IntToString(tokens * ERC20_DECIMALS))
  {
    Decimal.IntRoundTrip(tokens * ERC20_DECIMALS);
    Decimal.FormatWholeTokens(tokens);
  }

  /** Intake handler: remember the buyer's email under the normalised
      address, then charge for the tokens. */
  function Intake(emails: Emails, ethAddress: string, email: string, number: int, token: string): (r: Outcome)
    ensures r.emails.Keys == emails.Keys + {Ascii.Upper(ethAddress)}
    ensures Get(r.emails, ethAddress) == Some(email)
    ensures r.task.Some? && r.task.value.Charge?
    ensures r.task.value.metadata == Metadata(ethAddress, number)
  {
    var stored := Put(emails, ethAddress, email);
    var charge := Charge(ChargeAmount(number), CURRENCY, email, Metadata(ethAddress, number), token);
    Outcome(stored, Some(charge))
  }

  /** Settlement handler: transfer the paid tokens, trusting the metadata the
      payment gateway echoed. The store plays no part. */
  function Settlement(metadata: Metadata): (t: Task)
    ensures t.Transfer?
    ensures Decimal.ParseInt(t.value) == Some(metadata.tokens * ERC20_DECIMALS)
    ensures Decimal.PositionalTokens(metadata.tokens)
            ==> Decimal.FormatUnits(Decimal.ParseInt(t.value).value) == Decimal.IntToString(metadata.tokens)
  {
    Decimal.IntRoundTrip(metadata.tokens * ERC20_DECIMALS);
    Decimal.FormatWholeTokens(metadata.tokens);
    Transfer(ERC20_ADDRESS, GAS_LIMIT, metadata.address, Decimal.IntToString(metadata.tokens * ERC20_DECIMALS))
  }

  /** The stored email a transfer to `to` would be reported to: `to` must be
      present and non-empty, and its entry present and non-empty (application.js
      tests the entry for truthiness). */
  function Recipient(emails: Emails, to: Option<string>): (r: Option<string>)
    ensures r.Some? <==> && to.Some? && to.value != []
                         && exists k :: k in emails && Ascii.IsUpper(k) && Ascii.EqualsIgnoringCase(k, to.value) && emails[k] != []
    ensures r.Some? ==> exists k :: && k in emails && Ascii.IsUpper(k) && Ascii.EqualsIgnoringCase(k, to.value)
                                   && emails[k] != [] && r.value == emails[k]
    ensures r.Some? ==> r.value != [] && r.value in emails.Values
  {
    NormalKey(emails, if to.Some? then to.value else []);
    if to.None? || to.value == [] then None
    else
      match Get(emails, to.value)
      case Some(email) => if email == [] then None else Some(email)
      case None => None
  }

  /** Notification handler: email a receipt for a transfer on the
      workflow's contract to an address the store knows. */
  function Notification(emails: Emails, contractAddress: string, to: Option<string>,
                        value: string, transactionHash: string): (r: Option<Task>)
    ensures r.Some? ==> Ascii.EqualsIgnoringCase(contractAddress, ERC20_ADDRESS)
    ensures r.Some? ==> r.value.Send? && r.value.from == SENDER && r.value.subject == SUBJECT
    ensures r.Some? ==> r.value.to != [] && r.value.to in emails.Values
  {
    Ascii.UpperEqIff(contractAddress, ERC20_ADDRESS);
    if Ascii.Upper(contractAddress) == Ascii.Upper(ERC20_ADDRESS) && Recipient(emails, to).Some? then
      Some(Send(SENDER, Recipient(emails, to).value, SUBJECT, ReceiptText(ReceiptAmount(value), transactionHash)))
    else
      None
  }

  /** One event handled: only intake writes the store, no step removes a
      key, and normalised keys stay normalised. */
  function Step(emails: Emails, e: Event): (r: Outcome)
    ensures emails.Keys <= r.emails.Keys
    ensures !e.Request? ==> r.emails == emails
    ensures Normalized(emails) ==> Normalized(r.emails)
    ensures e.Request? ==> r.task.Some? && r.task.value.Charge?
    ensures e.Charged? ==> r.task.Some? && r.task.value.Transfer?
    ensures e.Transferred? ==> r.task.None? || r.task.value.Send?
  {
    match e
    case Request(ethAddress, email, number, token) => Intake(emails, ethAddress, email, number, token)
    case Charged(metadata) => Outcome(emails, Some(Settlement(metadata)))
    case Transferred(contractAddress, to, value, transactionHash) =>
      Outcome(emails, Notification(emails, contractAddress, to, value, transactionHash))
  }

  // ---------------------------------------------------------------------
  // Properties of single steps

  /** After an intake, every case variant of its address finds its email. */
  lemma IntakeRecords(emails: Emails, ethAddress: string, email: string, number: int, token: string, probe: string)
    requires Ascii.EqualsIgnoringCase(probe, ethAddress)
    ensures Get(Step(emails, Request(ethAddress, email, number, token)).emails, probe) == Some(email)
  {
    PutGet(emails, ethAddress, email, probe);
  }

  /** Two intakes for the same address in any spelling: the later email wins. */
  lemma IntakeLastWriterWins(emails: Emails, a1: string, e1: string, n1: int, t1: string,
                             a2: string, e2: string, n2: int, t2: string, probe: string)
    requires Ascii.EqualsIgnoringCase(a1, a2) && Ascii.EqualsIgnoringCase(probe, a1)
    ensures var first := Step(emails, Request(a1, e1, n1, t1)).emails;
            Get(Step(first, Request(a2, e2, n2, t2)).emails, probe) == Some(e2)
  {
    Ascii.UpperEqIff(probe, a1);
    Ascii.UpperEqIff(a1, a2);
    Ascii.UpperEqIff(probe, a2);
  }

  /** The charge an intake dispatches: 40 cents per token in US dollars,
      paid from the request's payment token, with metadata echoing the
      address and the quantity. */
  lemma IntakeCharge(emails: Emails, ethAddress: string, email: string, number: int, token: string)
    ensures var r := Step(emails, Request(ethAddress, email, number, token));
            && r.task.Some? && r.task.value.Charge?
            && r.task.value.amount as real == number as real * TOKEN_PRICE * 100.0
            && r.task.value.currency == "usd"
            && r.task.value.email == email
            && r.task.value.source == token
            && r.task.value.metadata == Metadata(ethAddress, number)
  {
  }

  /** Settlement output depends on the echoed metadata only: two stores give
      the same transfer, to the metadata's address, on the fixed contract
      with the fixed gas limit, for tokens * 10^18 base units. */
  lemma SettlementIgnoresStore(s1: Emails, s2: Emails, metadata: Metadata)
    ensures Step(s1, Charged(metadata)).task == Step(s2, Charged(metadata)).task
    ensures var t := Step(s1, Charged(metadata)).task.value;
            && t.Transfer?
            && t.to == metadata.address
            && t.contractAddress == ERC20_ADDRESS
            && t.gasLimit == 100000
            && Decimal.ParseInt(t.value) == Some(metadata.tokens * 1_000_000_000_000_000_000)
  {
  }

  /** The notification guard, stated without the upper-cased normal forms: the
      handler emails a receipt if and only if the contract is the workflow's
      own in some spelling, `to` is present and non-empty, and some stored
      address equal to `to` up to case holds a non-empty email. */
  lemma NotificationIff(emails: Emails, contractAddress: string, to: Option<string>,
                        value: string, transactionHash: string)
    requires Normalized(emails)
    ensures Step(emails, Transferred(contractAddress, to, value, transactionHash)).task.Some?
            <==>
            && Ascii.EqualsIgnoringCase(contractAddress, ERC20_ADDRESS)
            && to.Some? && to.value != []
            && exists k :: k in emails && Ascii.EqualsIgnoringCase(k, to.value) && emails[k] != []
  {
    Ascii.UpperEqIff(contractAddress, ERC20_ADDRESS);
    if to.Some? && to.value != [] {
      var key := Ascii.Upper(to.value);
      Ascii.UpperIdempotent(to.value);
      Ascii.UpperEqIff(key, to.value);
      forall k | k in emails && Ascii.EqualsIgnoringCase(k, to.value)
        ensures k == key
      {
        Ascii.UpperEqIff(k, to.value);
        Ascii.UpperFixesUpper(k);
      }
    }
  }

  /** When the notification fires, for any transfer value, the receipt
      goes from the fixed sender with the fixed subject to the email stored
      under the recipient, and its body shows the value in tokens (or "NaN")
      and the transaction hash. */
  lemma NotificationSends(emails: Emails, contractAddress: string, to: string,
                          value: string, transactionHash: string)
    requires Ascii.EqualsIgnoringCase(contractAddress, ERC20_ADDRESS)
    requires to != [] && Ascii.Upper(to) in emails && emails[Ascii.Upper(to)] != []
    ensures Step(emails, Transferred(contractAddress, Some(to), value, transactionHash)).task
            == Some(Send("contact@mesg.com", emails[Ascii.Upper(to)], "Your MESG tokens just arrived",
                         ReceiptText(ReceiptAmount(value), transactionHash)))
  {
    Ascii.UpperEqIff(contractAddress, ERC20_ADDRESS);
  }

  /** The receipt for a transfer of a whole number of tokens, as settlement
      writes it, names that number of tokens. */
  lemma NotificationContent(emails: Emails, contractAddress: string, to: string,
                            tokens: int, transactionHash: string)
    requires Ascii.EqualsIgnoringCase(contractAddress, ERC20_ADDRESS)
    requires to != [] && Ascii.Upper(to) in emails && emails[Ascii.Upper(to)] != []
    ensures var value := Decimal.IntToString(tokens * ERC20_DECIMALS);
            Decimal.PositionalTokens(tokens)
            ==> Step(emails, Transferred(contractAddress, Some(to), value, transactionHash)).task
                == Some(Send("contact@mesg.com", emails[Ascii.Upper(to)], "Your MESG tokens just arrived",
                             ReceiptText(Decimal.IntToString(tokens), transactionHash)))
  {
    NotificationSends(emails, contractAddress, to, Decimal.IntToString(tokens * ERC20_DECIMALS), transactionHash);
    ReceiptAmountWhole(tokens);
  }

  /** A transfer on any other contract is ignored, whatever its recipient. */
  lemma ForeignContractIgnored(emails: Emails, contractAddress: string, to: Option<string>,
                               value: string, transactionHash: string)
    requires !Ascii.EqualsIgnoringCase(contractAddress, ERC20_ADDRESS)
    ensures Step(emails, Transferred(contractAddress, to, value, transactionHash)) == Outcome(emails, None)
  {
    Ascii.UpperEqIff(contractAddress, ERC20_ADDRESS);
  }

  /** No deduplication: handling the same transfer event twice from the same
      store dispatches the identical task again and leaves the store as is. */
  lemma NotificationReplays(emails: Emails, e: Event)
    requires e.Transferred?
    ensures var first := Step(emails, e);
            Step(first.emails, e) == first
  {
  }
}
