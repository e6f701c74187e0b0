/** The older inventory pass, src/App1.jsx `fetchNfts`: a token is for sale when
    its per-token price `nftPrices(i)` is positive; its metadata comes from a
    single gateway with no status check and no defaults; and any error at all
    abandons the whole pass. */
module LegacyInventory {
  import opened Common
  import opened Text
  import opened Gateway

  const LegacyGatewayPrefix := "https://ipfs.io/ipfs/"
  const FetchFailed := "Error fetching NFTs."
  const NoneMinted := "No NFTs minted yet."

  /** One item of the older pass: name and description are copied as served, so
      either may be missing; the price is the token's own price. */
  datatype LegacyItem = LegacyItem(
    id: nat,
    name: Option<string>,
    description: Option<string>,
    attributes: seq<Attribute>,
    image: string,
    price: nat,
    contractAddress: string)

  /** The chain and network for this pass; a per-token read that throws is an
      absent key. */
  datatype LegacyChain = LegacyChain(
    nftContract: string,
    nextTokenId: Option<nat>,
    prices: map<nat, nat>,
    uris: map<nat, string>,
    fetch: Fetcher)

  /** One loop iteration: skip an unpriced token, abort the pass on any throw, or
      push an item. */
  datatype LegacyStep = Unpriced | Aborted | Found(item: LegacyItem)

  /** The loop body for token `i`. `fetch` rejects only on a network failure (a
      timeout is taken as one), so any HTTP status whose body parses as a JSON
      document is used; a `null` document or a missing image throws. */
  function LegacyToken(c: LegacyChain, i: nat): (o: LegacyStep)
    ensures i !in c.prices ==> o == Aborted
    ensures i in c.prices && c.prices[i] == 0 ==> o == Unpriced
    ensures o.Found? ==>
              && o.item.id == i
              && i in c.prices && o.item.price == c.prices[i] > 0
              && o.item.contractAddress == c.nftContract
              && i in c.uris
  {
    if i !in c.prices then Aborted
    else if c.prices[i] == 0 then Unpriced
    else if i !in c.uris then Aborted
    else
      match c.fetch(ReplaceFirst(c.uris[i], IpfsScheme, LegacyGatewayPrefix))
      case Response(_, Parsed(Document(m))) =>
        if m.image.None? then Aborted
        else
          Found(LegacyItem(i, m.name, m.description, m.attributes.GetOr([]),
                           ReplaceFirst(m.image.value, IpfsScheme, LegacyGatewayPrefix),
                           c.prices[i], c.nftContract))
      case _ => Aborted
  }

  /** Conversely, for a priced token: it is found exactly when its URI was read,
      the fetch produced a response whose body is a JSON document, and that
      document has an image; the item copies name and description as served,
      defaults the attributes and rewrites the first `ipfs://` of the image.
      Anything else aborts. */
  lemma LegacyTokenOfPriced(c: LegacyChain, i: nat)
    requires i in c.prices && c.prices[i] > 0
    ensures var o := LegacyToken(c, i);
              && (i !in c.uris ==> o == Aborted)
              && (i in c.uris ==>
                    match c.fetch(ReplaceFirst(c.uris[i], IpfsScheme, LegacyGatewayPrefix))
                    case Response(_, Parsed(Document(m))) =>
                      && (m.image.None? ==> o == Aborted)
                      && (m.image.Some? ==>
                            o == Found(LegacyItem(i, m.name, m.description, m.attributes.GetOr([]),
                                                  ReplaceFirst(m.image.value, IpfsScheme, LegacyGatewayPrefix),
                                                  c.prices[i], c.nftContract)))
                    case _ => o == Aborted)
  {
  }

  /** Ids strictly increase along the sequence. */
  ghost predicate Ascending(items: seq<LegacyItem>) {
    forall j, k :: 0 <= j < k < |items| ==> items[j].id < items[k].id
  }

  /** Ids strictly decrease along the sequence. */
  ghost predicate Descending(items: seq<LegacyItem>) {
    forall j, k :: 0 <= j < k < |items| ==> items[j].id > items[k].id
  }

  /** `items` holds exactly the items found among ids `0 .. n-1`. */
  ghost predicate ExactlyFound(c: LegacyChain, n: nat, items: seq<LegacyItem>) {
    forall it :: it in items <==> it.id < n && LegacyToken(c, it.id) == Found(it)
  }

  /** The array `fetched` after the loop over ids `0 .. n-1`, or the failure that
      ended it: the loop fails exactly when some token below `n` aborts. */
  function CollectBelow(c: LegacyChain, n: nat): (r: Result<seq<LegacyItem>, ()>)
    ensures r.Err? <==> exists i :: 0 <= i < n && LegacyToken(c, i) == Aborted
    ensures r.Ok? ==> Ascending(r.value) && ExactlyFound(c, n, r.value)
  {
    if n == 0 then Ok([])
    else
      var prev := CollectBelow(c, n - 1);
      if prev.Err? then prev
      else
        var o := LegacyToken(c, n - 1);
        if o.Aborted? then Err(())
        else if o.Found? then
          var items := prev.value + [o.item];
          assert forall it :: it in items <==> it in prev.value || it == o.item;
          Ok(items)
        else prev
  }

  /** What the pass publishes: the item list and the error banner, if any. */
  datatype LegacyPass = LegacyPass(items: seq<LegacyItem>, error: Option<string>)

  /** `fetchNfts`. Any failure (the count read, or any token's price, URI, fetch,
      JSON or image) empties the list with the fetch error; no issued token gives
      the "none minted" banner; otherwise the list holds exactly the ids below the
      count whose price is positive, newest first, with no banner. */
  function FetchNfts(c: LegacyChain): (r: LegacyPass)
    ensures c.nextTokenId.None? ==> r == LegacyPass([], Some(FetchFailed))
    ensures c.nextTokenId == Some(0) ==> r == LegacyPass([], Some(NoneMinted))
    ensures r.error.None? ==>
              && c.nextTokenId.Some?
              && Descending(r.items)
              && ExactlyFound(c, c.nextTokenId.value, r.items)
              && (forall i :: 0 <= i < c.nextTokenId.value ==>
                    (i in c.prices && (c.prices[i] > 0 <==> exists it :: it in r.items && it.id == i)))
    ensures r.error.Some? ==> r.items == []
    ensures c.nextTokenId != Some(0) && r.error.Some? ==> r.error.value == FetchFailed
    ensures c.nextTokenId.Some? && c.nextTokenId.value > 0 ==>
              (r.error.Some? <==> exists i :: 0 <= i < c.nextTokenId.value && LegacyToken(c, i) == Aborted)
  {
    if c.nextTokenId.None? then LegacyPass([], Some(FetchFailed))
    else if c.nextTokenId.value == 0 then LegacyPass([], Some(NoneMinted))
    else
      var collected := CollectBelow(c, c.nextTokenId.value);
      if collected.Err? then LegacyPass([], Some(FetchFailed))
      else
        var items := Reverse(collected.value);
        ReverseSameElements(collected.value);
        FoundExactlyPriced(c, c.nextTokenId.value, items);
        LegacyPass(items, None)
  }

  /** When no token below `n` aborts, a list holding exactly the found items has an
      item for an id exactly when that id's price is positive. */
  lemma FoundExactlyPriced(c: LegacyChain, n: nat, items: seq<LegacyItem>)
    requires forall i :: 0 <= i < n ==> LegacyToken(c, i) != Aborted
    requires ExactlyFound(c, n, items)
    ensures forall i :: 0 <= i < n ==>
              (i in c.prices && (c.prices[i] > 0 <==> exists it :: it in items && it.id == i))
  {
    forall i | 0 <= i < n
      ensures i in c.prices && (c.prices[i] > 0 <==> exists it :: it in items && it.id == i)
    {
      var o := LegacyToken(c, i);
      assert o != Aborted;
      if c.prices[i] > 0 {
        assert o.Found?;
        assert o.item in items;
      }
    }
  }
}
