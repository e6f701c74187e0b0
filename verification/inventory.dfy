/** One inventory pass of src/App.jsx `fetchChainData`: read the sale price and
    the issued count, walk token ids upwards keeping the tokens the sale contract
    (the minter) still owns, resolve and normalise their metadata, skip any token
    whose processing throws, and publish the survivors newest first, all at the
    single contract price. */
module Inventory {
  import opened Common
  import opened Text
  import opened Gateway
  import opened Metadata

  /** One item offered for sale. */
  datatype Item = Item(
    id: nat,
    name: string,
    description: string,
    attributes: seq<Attribute>,
    image: string,
    price: nat,
    contractAddress: string)

  /** The chain and the network as one pass sees them. A read that throws is
      `None` (for the two contract-wide reads) or an absent key (for the per-token
      reads `ownerOf` and `tokenURI`). */
  datatype Chain = Chain(
    minter: string,
    nftContract: string,
    price: Option<nat>,
    nextTokenId: Option<nat>,
    owners: map<nat, string>,
    uris: map<nat, string>,
    fetch: Fetcher)

  /** What the loop body does with one token id: `continue` because the minter no
      longer owns it, `continue` from the `catch` because something threw, or push
      an item. */
  datatype TokenOutcome = NotForSale | Unprocessable | Listed(item: Item)

  /** The body of the per-token loop for token `i`. Only a token the minter owns
      (compared case-insensitively) can be listed, and it is listed at the
      contract price under its own id. */
  function ProcessToken(c: Chain, price: nat, i: nat): (o: TokenOutcome)
    ensures o.Listed? ==>
              && o.item.id == i
              && o.item.price == price
              && o.item.contractAddress == c.nftContract
              && i in c.owners && SameAddress(c.owners[i], c.minter)
              && i in c.uris
    ensures i in c.owners && !SameAddress(c.owners[i], c.minter) ==> o == NotForSale
    ensures i !in c.owners ==> o == Unprocessable
  {
    if i !in c.owners then Unprocessable
    else if Lower(c.owners[i]) != Lower(c.minter) then NotForSale
    else if i !in c.uris then Unprocessable
    else
      var res := ResolveWithFallback(c.uris[i], c.fetch);
      match res.result
      case Err(_) => Unprocessable
      case Ok(Resolved(JsonNull, _)) => Unprocessable
      case Ok(Resolved(Document(raw), baseUrl)) =>
        var m := Normalize(raw, i, baseUrl);
        Listed(Item(i, m.name, m.description, m.attributes, m.image, price, c.nftContract))
  }

  /** Conversely, for a token the minter owns: an unread URI, exhausted gateways or a
      `null` document skip it, and a document is listed with its metadata normalised
      against the winning base URL. */
  lemma ProcessTokenOfOwned(c: Chain, price: nat, i: nat)
    requires i in c.owners && SameAddress(c.owners[i], c.minter)
    ensures var o := ProcessToken(c, price, i);
              && (i !in c.uris ==> o == Unprocessable)
              && (i in c.uris ==>
                    var res := ResolveWithFallback(c.uris[i], c.fetch).result;
                    && (res.Err? ==> o == Unprocessable)
                    && (res.Ok? && res.value.data == JsonNull ==> o == Unprocessable)
                    && (res.Ok? && res.value.data.Document? ==>
                          var m := Normalize(res.value.data.meta, i, res.value.baseUrl);
                          o == Listed(Item(i, m.name, m.description, m.attributes, m.image,
                                           price, c.nftContract))))
  {
  }

  /** Ids strictly increase along the sequence. */
  ghost predicate StrictlyAscending(items: seq<Item>) {
    forall j, k :: 0 <= j < k < |items| ==> items[j].id < items[k].id
  }

  /** Ids strictly decrease along the sequence (so no id appears twice). */
  ghost predicate StrictlyDescending(items: seq<Item>) {
    forall j, k :: 0 <= j < k < |items| ==> items[j].id > items[k].id
  }

  /** The outcome of every token of the chain at the given price. */
  function Outcomes(c: Chain, price: nat): nat -> TokenOutcome {
    (i: nat) => ProcessToken(c, price, i)
  }

  /** `items` holds exactly the items `outcome` lists among ids `0 .. n-1`. */
  ghost predicate ExactlyBy(outcome: nat -> TokenOutcome, n: nat, items: seq<Item>) {
    forall it :: it in items <==> it.id < n && outcome(it.id) == Listed(it)
  }

  /** `items` holds exactly the listed tokens among ids `0 .. n-1`. */
  ghost predicate ExactlyListed(c: Chain, price: nat, n: nat, items: seq<Item>) {
    ExactlyBy(Outcomes(c, price), n, items)
  }

  /** The array `fetchedNfts` after the loop has run over ids `0 .. n-1`. */
  function ListedBelow(c: Chain, price: nat, n: nat): (items: seq<Item>)
    ensures StrictlyAscending(items)
    ensures ExactlyListed(c, price, n, items)
  {
    OutcomesKeepIds(c, price);
    CollectListed(Outcomes(c, price), n)
  }

  /** The same loop for any per-token outcome that lists an item under its own id:
      each iteration appends the item of a listed token, so the array grows in id
      order and holds exactly the listed items. */
  function CollectListed(outcome: nat -> TokenOutcome, n: nat): (items: seq<Item>)
    requires forall i :: outcome(i).Listed? ==> outcome(i).item.id == i
    ensures StrictlyAscending(items)
    ensures ExactlyBy(outcome, n, items)
  {
    if n == 0 then []
    else
      var prev := CollectListed(outcome, n - 1);
      ExactStep(outcome, n, prev);
      if outcome(n - 1).Listed? then prev + [outcome(n - 1).item] else prev
  }

  /** A listed token is listed under its own id. */
  lemma OutcomesKeepIds(c: Chain, price: nat)
    ensures forall i :: Outcomes(c, price)(i).Listed? ==> Outcomes(c, price)(i).item.id == i
  {
  }

  /** The loop step for any per-token outcome that lists an item under its own id:
      appending the listed item, if any, keeps the array exact and ascending. */
  lemma ExactStep(outcome: nat -> TokenOutcome, n: nat, prev: seq<Item>)
    requires n > 0
    requires forall i :: outcome(i).Listed? ==> outcome(i).item.id == i
    requires StrictlyAscending(prev)
    requires ExactlyBy(outcome, n - 1, prev)
    ensures var items := if outcome(n - 1).Listed? then prev + [outcome(n - 1).item] else prev;
            StrictlyAscending(items) && ExactlyBy(outcome, n, items)
  {
    var o := outcome(n - 1);
    var items := if o.Listed? then prev + [o.item] else prev;
    forall it: Item
      ensures it in items <==> it.id < n && outcome(it.id) == Listed(it)
    {
      assert it in items <==> it in prev || (o.Listed? && it == o.item);
      if it.id >= n - 1 {
        assert it !in prev;
      }
    }
    if o.Listed? {
      forall k | 0 <= k < |prev| ensures prev[k].id < n - 1 {
        assert prev[k] in prev;
      }
    }
  }

  /** What a pass publishes: the item list and the error banner, if any. */
  datatype PassResult = PassResult(items: seq<Item>, error: Option<string>)

  const LoadFailed := "Failed to load data. Check network connection."
  const NoneMinted := "No NFTs minted yet."
  const NoneForSale := "No NFTs available for sale."

  /** `fetchChainData`. A failed contract-wide read empties the list with the load
      error; no issued token gives the "none minted" banner; otherwise the list is
      exactly the listed tokens below `nextTokenId`, newest first, all owned by the
      minter and all at the contract price, with the "none for sale" banner exactly
      when that list is empty. */
  function Pass(c: Chain): (r: PassResult)
    ensures c.price.None? || c.nextTokenId.None? ==> r == PassResult([], Some(LoadFailed))
    ensures c.price.Some? && c.nextTokenId == Some(0) ==> r == PassResult([], Some(NoneMinted))
    ensures c.price.Some? && c.nextTokenId.Some? && c.nextTokenId.value > 0 ==>
              && ExactlyListed(c, c.price.value, c.nextTokenId.value, r.items)
              && (r.error.None? <==> |r.items| > 0)
              && (r.error.Some? ==> r.error.value == NoneForSale)
    ensures StrictlyDescending(r.items)
    ensures forall it :: it in r.items ==>
              && c.price.Some? && c.nextTokenId.Some?
              && it.id < c.nextTokenId.value
              && it.price == c.price.value
              && it.contractAddress == c.nftContract
              && it.id in c.owners && SameAddress(c.owners[it.id], c.minter)
  {
    if c.price.None? || c.nextTokenId.None? then PassResult([], Some(LoadFailed))
    else if c.nextTokenId.value == 0 then PassResult([], Some(NoneMinted))
    else
      var fetched := ListedBelow(c, c.price.value, c.nextTokenId.value);
      var items := Reverse(fetched);
      ReverseSameElements(fetched);
      PassResult(items, if |fetched| == 0 then Some(NoneForSale) else None)
  }

  /** Conversely, a token below the count that the minter owns, whose URI was read and
      whose metadata resolved to a document, is published with its normalised
      metadata at the contract price. */
  lemma ResolvedTokenPublished(c: Chain, i: nat)
    requires c.price.Some? && c.nextTokenId.Some? && i < c.nextTokenId.value
    requires i in c.owners && SameAddress(c.owners[i], c.minter) && i in c.uris
    requires ResolveWithFallback(c.uris[i], c.fetch).result.Ok?
    requires ResolveWithFallback(c.uris[i], c.fetch).result.value.data.Document?
    ensures var res := ResolveWithFallback(c.uris[i], c.fetch).result.value;
            var m := Normalize(res.data.meta, i, res.baseUrl);
            && Item(i, m.name, m.description, m.attributes, m.image, c.price.value, c.nftContract)
                 in Pass(c).items
            && Pass(c).error.None?
  {
    var o := ProcessToken(c, c.price.value, i);
    ProcessTokenOfOwned(c, c.price.value, i);
    assert o.Listed?;
    assert o.item in Pass(c).items;
  }

  /** A token that fails (or changes) only affects itself: two chains that agree on
      every other token's owner and URI publish the same items for those tokens. */
  lemma FailureIsolated(c: Chain, owners2: map<nat, string>, uris2: map<nat, string>, j: nat)
    requires forall i :: i != j ==> Lookup(owners2, i) == Lookup(c.owners, i)
    requires forall i :: i != j ==> Lookup(uris2, i) == Lookup(c.uris, i)
    ensures var c2 := c.(owners := owners2, uris := uris2);
            forall it: Item :: it.id != j ==> (it in Pass(c).items <==> it in Pass(c2).items)
  {
    var c2 := c.(owners := owners2, uris := uris2);
    if c.price.Some? && c.nextTokenId.Some? && c.nextTokenId.value > 0 {
      forall it: Item | it.id != j
        ensures it in Pass(c).items <==> it in Pass(c2).items
      {
        TokenIsLocal(c, c2, c.price.value, it.id);
      }
    }
  }

  /** The outcome for token `i` depends only on token `i`'s own reads. */
  lemma TokenIsLocal(c: Chain, c2: Chain, price: nat, i: nat)
    requires c2.minter == c.minter && c2.nftContract == c.nftContract && c2.fetch == c.fetch
    requires Lookup(c2.owners, i) == Lookup(c.owners, i)
    requires Lookup(c2.uris, i) == Lookup(c.uris, i)
    ensures ProcessToken(c2, price, i) == ProcessToken(c, price, i)
  {
  }
}
