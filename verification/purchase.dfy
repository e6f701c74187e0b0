/** The purchase flow: the guarded state machine of src/App1.jsx `handleBuyNft`
    and the naive flow of src/App.jsx `handleBuyNft`. Each is a function from the
    answers the wallet and the chain give to the trace of effects it produces:
    alerts shown, transactions requested from the wallet, an inventory refresh
    and closing the detail modal. */
module Purchase {
  import opened Common
  import opened Text

  /** An error as thrown by ethers or the wallet: an optional revert `reason` and
      an optional `message`. */
  datatype TxError = TxError(reason: Option<string>, message: Option<string>)

  /** The answers the guarded flow receives, in the order it asks for them. Each
      transaction answer covers both submitting it and awaiting its confirmation. */
  datatype Wallet = Wallet(
    signer: Result<(), TxError>,
    owner: Result<string, TxError>,
    price: Result<nat, TxError>,
    allowance: Result<nat, TxError>,
    approveTx: Result<(), TxError>,
    buyTx: Result<(), TxError>)

  /** One observable effect. `Approve` and `Buy` are transactions sent to the wallet;
      `Refresh` re-runs the inventory pass; `Close` closes the modal. */
  datatype Action =
    | Alert(text: string)
    | Approve(amount: nat)
    | Buy(tokenId: nat, minReserved: nat)
    | Refresh
    | Close
  {
    predicate IsTransaction() {
      Approve? || Buy?
    }
  }

  /** The transactions of a trace, in order. */
  function Transactions(trace: seq<Action>): (txs: seq<Action>)
    ensures |txs| <= |trace|
    ensures forall k :: 0 <= k < |txs| ==> txs[k].IsTransaction()
  {
    if |trace| == 0 then []
    else
      var rest := Transactions(trace[1..]);
      if trace[0].IsTransaction() then [trace[0]] + rest else rest
  }

  const ConnectFirst := "Please connect your wallet first."
  const MissingId := "NFT ID is undefined. Cannot buy."
  const NoLongerForSale := "This NFT is no longer for sale or does not exist."
  const AlreadyOwned := "You cannot buy an NFT you already own."
  const ApprovalRequired := "Approval required. Please confirm the transaction in your wallet to approve spending."
  const ApprovalDone := "Token approval successful. You can now proceed with the purchase."
  const RejectedByUser := "Transaction rejected by user."
  const GenericFailure := "Failed to buy NFT. Check console for details."
  const ReasonPrefix := "Failed to buy NFT: "
  const RejectionMarker := "user rejected transaction"

  /** The `catch` block's message: a revert reason wins; otherwise a message
      mentioning a user rejection; otherwise the generic text. */
  function FailureMessage(e: TxError): (msg: string)
    ensures Truthy(e.reason) ==> msg == ReasonPrefix + e.reason.value
    ensures !Truthy(e.reason) && Truthy(e.message) && Contains(e.message.value, RejectionMarker) ==>
              msg == RejectedByUser
    ensures !Truthy(e.reason) && !(Truthy(e.message) && Contains(e.message.value, RejectionMarker)) ==>
              msg == GenericFailure
  {
    if Truthy(e.reason) then ReasonPrefix + e.reason.value
    else if Truthy(e.message) && Contains(e.message.value, RejectionMarker) then RejectedByUser
    else GenericFailure
  }

  /** The three kinds of failure stay distinguishable: the user-rejection text
      appears exactly when there is no reason and the message mentions a
      rejection, and a revert reason always shows up in the message. */
  lemma FailureKindsDistinct(e: TxError)
    ensures FailureMessage(e) == RejectedByUser <==>
              !Truthy(e.reason) && Truthy(e.message) && Contains(e.message.value, RejectionMarker)
    ensures Truthy(e.reason) ==> EndsWith(FailureMessage(e), e.reason.value)
  {
    if Truthy(e.reason) {
      var msg := FailureMessage(e);
      assert msg[..|ReasonPrefix|] == ReasonPrefix;
      assert msg[|msg| - |e.reason.value|..] == e.reason.value;
      assert msg != RejectedByUser by {
        assert msg[0] == ReasonPrefix[0] == 'F';
        assert RejectedByUser[0] == 'T';
      }
    }
  }

  /** The success alert. */
  function BoughtMessage(tokenId: nat): string {
    "NFT #" + NatToDecimal(tokenId) + " bought successfully!"
  }

  /** `handleBuyNft(tokenId, price)` of the guarded flow, for the connected
      `account` (falsy when none) and the configured `minter` address. The
      caller's `price` is never used: the flow re-reads the contract price. */
  function BuyNft(account: Option<string>, tokenId: Option<nat>, callerPrice: nat,
                  minter: string, w: Wallet): (trace: seq<Action>)
    ensures |trace| > 0
    ensures forall k :: 0 <= k < |trace| && trace[k].Buy? ==> tokenId.Some? && trace[k] == Buy(tokenId.value, 0)
    ensures forall k :: 0 <= k < |trace| && trace[k].Approve? ==>
              w.price.Ok? && w.allowance.Ok? && trace[k] == Approve(w.price.value)
              && w.allowance.value < w.price.value
  {
    if !Truthy(account) then [Alert(ConnectFirst)]
    else if tokenId.None? then [Alert(MissingId)]
    else if w.signer.Err? then [Alert(FailureMessage(w.signer.error))]
    else if w.owner.Err? then [Alert(FailureMessage(w.owner.error))]
    else if w.price.Err? then [Alert(FailureMessage(w.price.error))]
    else
      var owner := w.owner.value;
      var price := w.price.value;
      if Lower(owner) != Lower(minter) then [Alert(NoLongerForSale), Refresh, Close]
      else if Lower(owner) == Lower(account.value) then [Alert(AlreadyOwned), Close]
      else if w.allowance.Err? then [Alert(FailureMessage(w.allowance.error))]
      else Settle(tokenId.value, price, w.allowance.value < price, w.approveTx, w.buyTx)
  }

  /** The part of the flow after every check has passed: approve `price` when the
      allowance is `short`, stop if that fails, then buy token `id` with no minimum
      reserve. */
  function Settle(id: nat, price: nat, short: bool, approveTx: Result<(), TxError>,
                  buyTx: Result<(), TxError>): (trace: seq<Action>)
    ensures |trace| > 0
    ensures forall k :: 0 <= k < |trace| && trace[k].Buy? ==> trace[k] == Buy(id, 0)
    ensures forall k :: 0 <= k < |trace| && trace[k].Approve? ==> short && trace[k] == Approve(price)
  {
    var approval := if short then [Alert(ApprovalRequired), Approve(price)] else [];
    if short && approveTx.Err? then
      approval + [Alert(FailureMessage(approveTx.error))]
    else
      var approved := approval + (if short then [Alert(ApprovalDone)] else []);
      var bought := approved + [Buy(id, 0)];
      if buyTx.Err? then bought + [Alert(FailureMessage(buyTx.error))]
      else bought + [Alert(BoughtMessage(id)), Refresh, Close]
  }

  /** Every input passes the early guards: an account, an id, a signer and the two
      re-reads all succeeded. */
  predicate PastGuards(account: Option<string>, tokenId: Option<nat>, w: Wallet) {
    Truthy(account) && tokenId.Some? && w.signer.Ok? && w.owner.Ok? && w.price.Ok?
  }

  /** No transaction is requested without an account or an id, when the token has
      left the minter (which also refreshes the inventory and closes the modal),
      or when the buyer already owns it. */
  lemma GuardsSendNothing(account: Option<string>, tokenId: Option<nat>, callerPrice: nat,
                          minter: string, w: Wallet)
    ensures !Truthy(account) || tokenId.None? ==>
              Transactions(BuyNft(account, tokenId, callerPrice, minter, w)) == []
    ensures PastGuards(account, tokenId, w) && !SameAddress(w.owner.value, minter) ==>
              BuyNft(account, tokenId, callerPrice, minter, w) == [Alert(NoLongerForSale), Refresh, Close]
    ensures PastGuards(account, tokenId, w) && SameAddress(w.owner.value, minter)
            && SameAddress(w.owner.value, account.value) ==>
              BuyNft(account, tokenId, callerPrice, minter, w) == [Alert(AlreadyOwned), Close]
  {
  }

  /** The ownership check against the minter comes first, so the "already own"
      branch can only be reached when the connected account is the minter itself. */
  lemma AlreadyOwnedOnlyForMinter(account: Option<string>, tokenId: Option<nat>, callerPrice: nat,
                                  minter: string, w: Wallet)
    requires Alert(AlreadyOwned) in BuyNft(account, tokenId, callerPrice, minter, w)
    ensures Truthy(account) && SameAddress(account.value, minter)
  {
    var trace := BuyNft(account, tokenId, callerPrice, minter, w);
    assert AlreadyOwned != NoLongerForSale && AlreadyOwned != ConnectFirst && AlreadyOwned != MissingId;
    assert AlreadyOwned != ApprovalRequired && AlreadyOwned != ApprovalDone;
    FailureNeverSaysAlreadyOwned(w.signer);
    FailureNeverSaysAlreadyOwned(w.owner);
    FailureNeverSaysAlreadyOwned(w.price);
    FailureNeverSaysAlreadyOwned(w.allowance);
    FailureNeverSaysAlreadyOwned(w.approveTx);
    FailureNeverSaysAlreadyOwned(w.buyTx);
    if tokenId.Some? {
      BoughtIsNotAlreadyOwned(tokenId.value);
    }
  }

  /** No failure message reads as the "already own" alert. */
  lemma FailureNeverSaysAlreadyOwned<T>(r: Result<T, TxError>)
    ensures r.Err? ==> FailureMessage(r.error) != AlreadyOwned
  {
    if r.Err? && Truthy(r.error.reason) {
      var msg := FailureMessage(r.error);
      assert msg[0] == 'F';
      assert AlreadyOwned[0] == 'Y';
    }
  }

  /** The success alert is not the "already own" alert. */
  lemma BoughtIsNotAlreadyOwned(tokenId: nat)
    ensures BoughtMessage(tokenId) != AlreadyOwned
  {
    assert BoughtMessage(tokenId)[0] == 'N';
    assert AlreadyOwned[0] == 'Y';
  }

  /** Past the guards, for a token the minter still holds and a buyer who does not:
      exactly one approval of the re-read price is requested when the allowance is
      short of it, none otherwise, and the buy `buyNft(tokenId, 0)` follows unless
      the approval failed. */
  lemma TransactionsOfPurchase(account: Option<string>, tokenId: Option<nat>, callerPrice: nat,
                               minter: string, w: Wallet)
    requires PastGuards(account, tokenId, w) && w.allowance.Ok?
    requires SameAddress(w.owner.value, minter) && !SameAddress(w.owner.value, account.value)
    ensures var short := w.allowance.value < w.price.value;
            Transactions(BuyNft(account, tokenId, callerPrice, minter, w))
              == (if short then [Approve(w.price.value)] else [])
                 + (if short && w.approveTx.Err? then [] else [Buy(tokenId.value, 0)])
  {
    var short := w.allowance.value < w.price.value;
    assert BuyNft(account, tokenId, callerPrice, minter, w)
        == Settle(tokenId.value, w.price.value, short, w.approveTx, w.buyTx);
    SettleTransactions(tokenId.value, w.price.value, short, w.approveTx, w.buyTx);
  }

  /** The transactions of the settling part: the approval when short, then the buy
      unless the approval failed. */
  lemma SettleTransactions(id: nat, price: nat, short: bool, approveTx: Result<(), TxError>,
                           buyTx: Result<(), TxError>)
    ensures Transactions(Settle(id, price, short, approveTx, buyTx))
              == (if short then [Approve(price)] else [])
                 + (if short && approveTx.Err? then [] else [Buy(id, 0)])
  {
    var tail := if buyTx.Err? then [Alert(FailureMessage(buyTx.error))]
                else [Alert(BoughtMessage(id)), Refresh, Close];
    NoTransactions(tail);
    if short && approveTx.Err? {
      ApprovalFailedTransactions(id, price, approveTx, buyTx);
    } else if short {
      ApprovedTransactions(id, price, approveTx, buyTx, tail);
    } else {
      TransactionsCons(Buy(id, 0), tail);
      assert Settle(id, price, short, approveTx, buyTx) == [Buy(id, 0)] + tail;
    }
  }

  lemma ApprovalFailedTransactions(id: nat, price: nat, approveTx: Result<(), TxError>,
                                   buyTx: Result<(), TxError>)
    requires approveTx.Err?
    ensures Transactions(Settle(id, price, true, approveTx, buyTx)) == [Approve(price)]
  {
    var fail := [Alert(FailureMessage(approveTx.error))];
    NoTransactions(fail);
    TransactionsCons(Approve(price), fail);
    TransactionsCons(Alert(ApprovalRequired), [Approve(price)] + fail);
    assert Settle(id, price, true, approveTx, buyTx) == [Alert(ApprovalRequired)] + ([Approve(price)] + fail);
  }

  lemma ApprovedTransactions(id: nat, price: nat, approveTx: Result<(), TxError>,
                             buyTx: Result<(), TxError>, tail: seq<Action>)
    requires approveTx.Ok?
    requires tail == if buyTx.Err? then [Alert(FailureMessage(buyTx.error))]
                     else [Alert(BoughtMessage(id)), Refresh, Close]
    requires Transactions(tail) == []
    ensures Transactions(Settle(id, price, true, approveTx, buyTx)) == [Approve(price), Buy(id, 0)]
  {
    var bought := [Buy(id, 0)] + tail;
    var afterApprove := [Alert(ApprovalDone)] + bought;
    var whole := [Alert(ApprovalRequired)] + ([Approve(price)] + afterApprove);
    TransactionsCons(Buy(id, 0), tail);
    assert Transactions(bought) == [Buy(id, 0)];
    TransactionsCons(Alert(ApprovalDone), bought);
    assert Transactions(afterApprove) == [Buy(id, 0)];
    TransactionsCons(Approve(price), afterApprove);
    assert Transactions([Approve(price)] + afterApprove) == [Approve(price), Buy(id, 0)];
    TransactionsCons(Alert(ApprovalRequired), [Approve(price)] + afterApprove);
    assert Transactions(whole) == [Approve(price), Buy(id, 0)];
    assert Settle(id, price, true, approveTx, buyTx) == whole;
  }

  /** Every failed read or transaction is reported with the message the `catch`
      block derives from that error, and it ends the flow: a failed signer, owner,
      price or allowance read is the only effect, a failed approval follows the
      approval request, and a failed buy follows the buy. */
  lemma FailuresReported(account: Option<string>, tokenId: Option<nat>, callerPrice: nat,
                         minter: string, w: Wallet)
    ensures var trace := BuyNft(account, tokenId, callerPrice, minter, w);
            var early := Truthy(account) && tokenId.Some?;
            && (early && w.signer.Err? ==> trace == [Alert(FailureMessage(w.signer.error))])
            && (early && w.signer.Ok? && w.owner.Err? ==> trace == [Alert(FailureMessage(w.owner.error))])
            && (early && w.signer.Ok? && w.owner.Ok? && w.price.Err? ==>
                  trace == [Alert(FailureMessage(w.price.error))])
            && (PastGuards(account, tokenId, w) && SameAddress(w.owner.value, minter)
                && !SameAddress(w.owner.value, account.value) ==>
                  && (w.allowance.Err? ==> trace == [Alert(FailureMessage(w.allowance.error))])
                  && (w.allowance.Ok? ==>
                        trace == Settle(tokenId.value, w.price.value, w.allowance.value < w.price.value,
                                        w.approveTx, w.buyTx)))
  {
  }

  /** After the checks, a failed approval or buy ends the trace with its failure
      message, right after the transaction that failed. */
  lemma SettleFailuresReported(id: nat, price: nat, short: bool, approveTx: Result<(), TxError>,
                               buyTx: Result<(), TxError>)
    ensures short && approveTx.Err? ==>
              Settle(id, price, short, approveTx, buyTx)
                == [Alert(ApprovalRequired), Approve(price), Alert(FailureMessage(approveTx.error))]
    ensures !(short && approveTx.Err?) && buyTx.Err? ==>
              Settle(id, price, short, approveTx, buyTx)
                == (if short then [Alert(ApprovalRequired), Approve(price), Alert(ApprovalDone)] else [])
                   + [Buy(id, 0), Alert(FailureMessage(buyTx.error))]
  {
  }

  /** `Transactions` of a trace with a known first action. */
  lemma TransactionsCons(a: Action, rest: seq<Action>)
    ensures Transactions([a] + rest) == (if a.IsTransaction() then [a] else []) + Transactions(rest)
  {
    assert ([a] + rest)[1..] == rest;
  }

  /** A trace with no transaction in it has none to report. */
  lemma {:induction false} NoTransactions(trace: seq<Action>)
    requires forall k :: 0 <= k < |trace| ==> !trace[k].IsTransaction()
    ensures Transactions(trace) == []
  {
    if |trace| > 0 {
      NoTransactions(trace[1..]);
    }
  }

  /** The approval is confirmed before the buy is requested: in every trace an
      `Approve` comes before any `Buy`, and a `Buy` after an `Approve` is preceded
      by the approval-success alert. */
  lemma ApprovalPrecedesBuy(account: Option<string>, tokenId: Option<nat>, callerPrice: nat,
                            minter: string, w: Wallet, i: nat, j: nat)
    requires var trace := BuyNft(account, tokenId, callerPrice, minter, w);
             i < |trace| && j < |trace| && trace[i].Approve? && trace[j].Buy?
    ensures i < j
    ensures Alert(ApprovalDone) in BuyNft(account, tokenId, callerPrice, minter, w)[i..j]
  {
    var trace := BuyNft(account, tokenId, callerPrice, minter, w);
    assert trace[i] == Approve(w.price.value);
    assert i == 1 && j == 3;
    assert trace[2] == Alert(ApprovalDone);
  }

  /** The caller-supplied price plays no part in the guarded flow. */
  lemma CallerPriceIgnored(account: Option<string>, tokenId: Option<nat>, p1: nat, p2: nat,
                           minter: string, w: Wallet)
    ensures BuyNft(account, tokenId, p1, minter, w) == BuyNft(account, tokenId, p2, minter, w)
  {
  }

  /** The guarded flow runs to the end: past the guards, the minter still holds the
      token, the buyer does not, the allowance was read, any needed approval was
      confirmed and the buy was confirmed. */
  predicate Completes(account: Option<string>, tokenId: Option<nat>, minter: string, w: Wallet) {
    && PastGuards(account, tokenId, w)
    && SameAddress(w.owner.value, minter)
    && !SameAddress(w.owner.value, account.value)
    && w.allowance.Ok?
    && !(w.allowance.value < w.price.value && w.approveTx.Err?)
    && w.buyTx.Ok?
  }

  /** The inventory is refreshed exactly when the purchase completed or the token
      turned out to be no longer for sale, and the modal is closed in those two
      cases and when the buyer already owns the token. */
  lemma RefreshAndCloseExactly(account: Option<string>, tokenId: Option<nat>, callerPrice: nat,
                               minter: string, w: Wallet)
    ensures var trace := BuyNft(account, tokenId, callerPrice, minter, w);
            var stale := PastGuards(account, tokenId, w) && !SameAddress(w.owner.value, minter);
            var owned := PastGuards(account, tokenId, w) && SameAddress(w.owner.value, minter)
                         && SameAddress(w.owner.value, account.value);
            && (Refresh in trace <==> Completes(account, tokenId, minter, w) || stale)
            && (Close in trace <==> Completes(account, tokenId, minter, w) || stale || owned)
            && (Completes(account, tokenId, minter, w) ==>
                  trace[|trace| - 3..] == [Alert(BoughtMessage(tokenId.value)), Refresh, Close])
  {
    var trace := BuyNft(account, tokenId, callerPrice, minter, w);
    if !PastGuards(account, tokenId, w) {
      assert |trace| == 1 && trace[0].Alert?;
    } else if !SameAddress(w.owner.value, minter) {
    } else if SameAddress(w.owner.value, account.value) {
    } else if w.allowance.Err? {
      assert trace == [Alert(FailureMessage(w.allowance.error))];
    } else {
      var short := w.allowance.value < w.price.value;
      assert trace == Settle(tokenId.value, w.price.value, short, w.approveTx, w.buyTx);
      SettleRefreshAndClose(tokenId.value, w.price.value, short, w.approveTx, w.buyTx);
    }
  }

  /** After the checks, the refresh and the close both happen exactly when any
      needed approval and the buy were confirmed, and then end the trace after the
      success alert. */
  lemma SettleRefreshAndClose(id: nat, price: nat, short: bool, approveTx: Result<(), TxError>,
                              buyTx: Result<(), TxError>)
    ensures var trace := Settle(id, price, short, approveTx, buyTx);
            var done := !(short && approveTx.Err?) && buyTx.Ok?;
            && (Refresh in trace <==> done)
            && (Close in trace <==> done)
            && (done ==> trace[|trace| - 3..] == [Alert(BoughtMessage(id)), Refresh, Close])
  {
    var trace := Settle(id, price, short, approveTx, buyTx);
    var approval := if short then [Alert(ApprovalRequired), Approve(price)] else [];
    var approved := approval + (if short then [Alert(ApprovalDone)] else []);
    var bought := approved + [Buy(id, 0)];
    assert Refresh !in approved && Close !in approved;
    if short && approveTx.Err? {
      assert trace == approval + [Alert(FailureMessage(approveTx.error))];
    } else if buyTx.Err? {
      assert trace == bought + [Alert(FailureMessage(buyTx.error))];
    } else {
      assert trace == bought + [Alert(BoughtMessage(id)), Refresh, Close];
      assert trace[|trace| - 2] == Refresh;
      assert trace[|trace| - 1] == Close;
    }
  }

  /** The answers the naive flow receives. */
  datatype NaiveWallet = NaiveWallet(
    signer: Result<(), TxError>,
    approveTx: Result<(), TxError>,
    buyTx: Result<(), TxError>)

  const NaiveConnectFirst := "Please connect your wallet to buy."
  const NaiveFailure := "NFT purchase failed. Check console for details."

  /** The success alert of the naive flow. */
  function CongratulationsMessage(tokenId: nat): string {
    "\U{1F389} Congratulations! You have successfully purchased NFT #" + NatToDecimal(tokenId) + "."
  }

  /** `handleBuyNft(tokenId, price)` of src/App.jsx: with an account it always
      approves the caller-supplied price and then buys, with no ownership or
      allowance check; every failure gives the same generic alert. */
  function NaiveBuyNft(account: Option<string>, tokenId: nat, price: nat, w: NaiveWallet): (trace: seq<Action>)
    ensures |trace| > 0
    ensures Truthy(account) && w.signer.Ok? ==> trace[0] == Approve(price)
  {
    if !Truthy(account) then [Alert(NaiveConnectFirst)]
    else if w.signer.Err? then [Alert(NaiveFailure)]
    else if w.approveTx.Err? then [Approve(price), Alert(NaiveFailure)]
    else if w.buyTx.Err? then [Approve(price), Buy(tokenId, 0), Alert(NaiveFailure)]
    else [Approve(price), Buy(tokenId, 0), Alert(CongratulationsMessage(tokenId)), Refresh, Close]
  }

  /** The naive flow's transactions: the caller's price is approved unconditionally
      and the buy follows whenever that approval is confirmed. */
  lemma NaiveTransactions(account: Option<string>, tokenId: nat, price: nat, w: NaiveWallet)
    requires Truthy(account) && w.signer.Ok?
    ensures Transactions(NaiveBuyNft(account, tokenId, price, w))
         == [Approve(price)] + (if w.approveTx.Ok? then [Buy(tokenId, 0)] else [])
  {
    if w.approveTx.Err? {
      var tail := [Alert(NaiveFailure)];
      assert NaiveBuyNft(account, tokenId, price, w) == [Approve(price)] + tail;
      TransactionsCons(Approve(price), tail);
      NoTransactions(tail);
    } else {
      var tail := if w.buyTx.Err? then [Alert(NaiveFailure)]
                  else [Alert(CongratulationsMessage(tokenId)), Refresh, Close];
      assert NaiveBuyNft(account, tokenId, price, w) == [Approve(price)] + ([Buy(tokenId, 0)] + tail);
      TransactionsCons(Approve(price), [Buy(tokenId, 0)] + tail);
      TransactionsCons(Buy(tokenId, 0), tail);
      NoTransactions(tail);
    }
  }
}
