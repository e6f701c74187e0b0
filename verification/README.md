# Taraxa Pulse marketplace frontend — a Dafny model of its decision logic

The Pulse frontend is a React application over three contracts: an ERC-721
collection (PulseNFT), an ERC-20 payment token (PulseToken) and a sale contract
(PulseMinter). Its two entry points, `src/App.jsx` and `src/App1.jsx`, hold all of
its logic. This project models that logic as pure functions over immutable data.
The chain, the wallet, the remote trigger document, the clock and the HTTP
network are inputs:

- **Gateway** (`gateway.dfy`) covers two things.
  - Expansion of an `ipfs://` URI into ordered HTTP gateway candidates:
    `buildGatewayUrls` and the older `resolveIpfsUrl`.
  - The in-order fallback walk `resolveWithFallback`. The network is an oracle
    from URL to fetch outcome: a response with a status and body, a timeout, or a
    network error.
- **Metadata** (`metadata.dfy`): defaulting of the name, description and
  attributes, and the four-way rewriting of the image reference against the
  base URL of the gateway that answered.
- **Inventory** (`inventory.dfy`): one pass of `fetchChainData`. It reads the
  price and the count, keeps the tokens the minter still owns (compared
  case-insensitively), skips any token whose processing throws, and publishes
  newest first at the single contract price.
- **LegacyInventory** (`legacy_inventory.dfy`): the older `fetchNfts`. It keeps a
  token when its own price is positive, and any error abandons the whole pass.
- **Countdown** (`countdown.dfy`): the mint countdown of `LiveMonitor`. It uses
  a time regime up to token 90, a block regime of 4560 blocks after that, and
  the `minting`/`idle` prompt state derived from the rendered line.
- **Purchase** (`purchase.dfy`): both `handleBuyNft` flows, as functions from the
  wallet's and chain's answers to the trace of effects. The effects are alerts,
  `approve` and `buyNft` transactions, an inventory refresh and closing the
  modal.
- **Connection** (`connection.dfy`): the `checkStatus` probe of the node and the
  remote store.
- **Text** and **Common** (`text.dfy`, `common.dfy`): the JavaScript string and
  value semantics the code relies on.
  - `replace` with a string pattern replaces only the first occurrence.
  - `split(c)[0]` and `split(c).pop()`.
  - `lastIndexOf` returns −1 when the character is absent, and
    `substring(0, -1)` is empty.
  - `toLowerCase`.
  - `||` on strings, where the empty string is falsy.
  - Decimal rendering of numbers.

The model follows the code, which behaves as follows:

- The status labels are `"working"` and `"alive"`. There is no "degraded" state:
  a store failure only sets the error banner.
- Inventory passes carry no sequence number, so nothing discards an out-of-order
  completion.
- A pass-level failure (price or count unreadable) publishes an empty list. The
  last good inventory is not kept.
- The older pass issues a plain `fetch` with no status check. Any response whose
  body parses as a JSON document is used.
- The older pass prices each token with `nftPrices(i)`. The guarded purchase
  flow re-reads the single `nftPrice()`.

## Model

| member | source | states |
|---|---|---|
| Gateway.BuildGatewayUrls | src/App.jsx:34-43 | A URI without the `ipfs://` scheme is its own single candidate; an `ipfs://` URI yields exactly three candidates |
| Gateway.GatewayUrlsOfPath | src/App.jsx:35-42 | `ipfs://<cid>/<path>` (cid without `/`) expands to the w3s subdomain, ipfs.io and cloudflare URLs, in that order, each carrying exactly that cid and path |
| Gateway.GatewayUrlsWithoutPath | src/App.jsx:36-37 | `ipfs://<cid>` with no path keeps the whole original URI as its "path", because the single `replace` of `ipfs://<cid>/` finds nothing |
| Gateway.Accepted | src/App.jsx:20-32 | A fetch yields a document only for a 2xx response whose body parses; a timeout, a network error, a non-2xx status or an unparseable body yields nothing |
| Gateway.BaseUrl | src/App.jsx:50 | The base URL is the URL cut before its last `/`, so base + `/` + last segment rebuilds the URL; with no `/` it is empty |
| Gateway.TryInOrder | src/App.jsx:45-56 | Candidates are requested strictly in order, as a prefix of the list. Every one before the winner failed, and the winner's document and base URL are returned. When all fail, every candidate was requested and the error is "All IPFS gateways failed." |
| Gateway.FirstAcceptedWins | src/App.jsx:47-50 | Conversely, if candidate k is the first accepted one, exactly candidates 0..k are requested and k's document is returned; nothing after k is requested |
| Gateway.ResolutionRequests | src/App.jsx:45-56 | `resolveWithFallback` requests a URI without the `ipfs://` scheme once, as it is, and an `ipfs://` URI at most three times, in candidate order. When nothing is accepted all candidates were requested and the error is "All IPFS gateways failed.". A success carries the document of the last URL requested and that URL's base |
| Gateway.OnlyAcceptanceMatters | src/App.jsx:47-53 | The walk depends on each candidate only through whether it is accepted and with what document |
| Gateway.NonOkStatusAdvances | src/App.jsx:26 | Replacing one URL's outcome by a non-2xx response changes nothing compared with a network error or a timeout there |
| Gateway.GatewayBaseIsHttps | src/App.jsx:38-42 | Every gateway candidate of an `ipfs://` URI has an `https://` base URL |
| Gateway.ResolveIpfsUrl | src/App1.jsx:62-75 | A falsy URL gives `['/placeholder.png']`. An `ipfs://` URL gives one candidate per gateway prefix in list order, each being the prefix followed by the URL with its scheme removed. Any other URL is its own single candidate |
| Metadata.NormalizeImage | src/App.jsx:129-135 | An `ipfs://` image becomes `<baseUrl>/<segment>`, where the segment has no `/` and the image ends with `/<segment>`. Another image without an `http` prefix is joined to `<baseUrl>/`. An `http…` image is unchanged. An absent or empty image is the placeholder |
| Metadata.NormalizedImageIsHttp | src/App.jsx:129-135 | Against an HTTP base URL, every normalised image starts with `http` and never with `ipfs://` |
| Metadata.Normalize | src/App.jsx:137-145 | Never fails. Name and description are kept when non-empty and otherwise default to `Pulse NFT #<id>` and `No description.`. Attributes default to the empty list. The image is normalised |
| Metadata.NormalizeIdempotent | src/App.jsx:129-145 | A record normalised against an HTTP base URL is normalised already: normalising it again gives it back unchanged, whatever base URL is used the second time |
| Inventory.ProcessToken | src/App.jsx:121-150 | A token is listed only under its own id, at the contract price and the collection address, when its owner equals the minter case-insensitively and its URI was read. An owner other than the minter means skipped as not for sale. An unreadable owner means skipped as a failure |
| Inventory.ProcessTokenOfOwned | src/App.jsx:123-145 | For a token the minter owns: an unreadable URI, exhausted gateways or a `null` document means skipped as a failure. A document is listed with its metadata normalised against the winning base URL, at the contract price |
| Inventory.ResolvedTokenPublished | src/App.jsx:121-156 | Conversely, a token below the count that the minter owns, whose URI was read and whose metadata resolved to a document, is published with its normalised metadata at the contract price, and no banner is shown |
| Inventory.ListedBelow | src/App.jsx:120-150 | After the loop over ids 0..n-1 the array holds exactly the tokens listed among them, in strictly ascending id order |
| Inventory.Pass | src/App.jsx:98-164 | An unreadable price or count gives the empty list with "Failed to load data. Check network connection.". A zero count gives "No NFTs minted yet.". Otherwise the list is exactly the listed tokens below the count, in strictly descending id order (so unique). Each item is minter-owned and carries the contract price, and the banner "No NFTs available for sale." appears exactly when the list is empty |
| Inventory.FailureIsolated | src/App.jsx:122-150 | A token whose reads fail or change affects only itself: chains agreeing on every other token's owner and URI publish the same items for those tokens |
| LegacyInventory.LegacyToken | src/App1.jsx:424-437 | An unreadable price aborts and a zero price skips. A found item has the token's id, its own positive price and the collection address, and its URI was read |
| LegacyInventory.LegacyTokenOfPriced | src/App1.jsx:426-437 | For a token with a positive price: it is found exactly when its URI was read, the single ipfs.io fetch produced a response (any status) whose body is a JSON document, and that document has an image. The item then has the served name and description as they are, the attributes or `[]`, and the image with its first `ipfs://` replaced by the ipfs.io prefix. Anything else aborts |
| LegacyInventory.CollectBelow | src/App1.jsx:422-439 | The loop over ids 0..n-1 fails exactly when some token below n aborts; otherwise it holds exactly the found items in ascending id order |
| LegacyInventory.FetchNfts | src/App1.jsx:408-449 | An unreadable count or any failing token gives the empty list with "Error fetching NFTs.". A zero count gives "No NFTs minted yet.". Otherwise the list holds exactly the ids below the count whose price is positive, newest first, with no banner |
| Countdown.Decompose | src/App1.jsx:219-221 | For a positive duration, minutes < 60, seconds < 60 and h·3600000 + m·60000 + s·1000 ≤ ms < that + 1000 |
| Countdown.DecomposeRoundTrip | src/App1.jsx:219-221 | Splitting h hours, m < 60 minutes, s < 60 seconds and a sub-second rest gives back exactly (h, m, s) |
| Countdown.Estimate | src/App1.jsx:199-241 | Absent trigger state is exactly the awaiting state. Next id ≤ 90 selects the time regime: minting exactly when the time left is ≤ 0, and otherwise exactly the time left split by `Decompose` into hours, minutes and seconds. A larger id selects the block regime: syncing exactly when no block is known. Otherwise it shows minting exactly when remaining = 4560 − (latest − last mint block) ≤ 0, and `remaining` blocks left when it is positive |
| Countdown.Render | src/App1.jsx:199-241 | The line each display shows: "Awaiting system state..." (line 201), "MINTING IN PROGRESS..." (lines 217 and 233), "Syncing with blockchain..." (line 226), a line starting `Time remaining: ` and ending in `s` (line 222), and a line starting with the block count's decimal digits and ending ` blocks remaining for next Pulse...` (line 235) |
| Countdown.RenderInjective | src/App1.jsx:199-241 | Different displays show different lines: the kind of line and the numbers it carries are read back from the text |
| Countdown.BlockCountdownMonotone | src/App1.jsx:229-236 | A later block never shows more blocks remaining, and once minting is shown it stays shown |
| Countdown.TimeCountdownMonotone | src/App1.jsx:211-222 | A later clock never shows more time remaining, and once minting is shown it stays shown |
| Countdown.StatusIsMintingExactly | src/App1.jsx:243 | The test `countdown.includes("MINTING")` holds exactly for the minting line, whatever numbers the other lines carry |
| Purchase.FailureMessage | src/App1.jsx:508-516 | A revert reason gives "Failed to buy NFT: <reason>". Otherwise a message containing "user rejected transaction" gives "Transaction rejected by user.". Otherwise the generic text |
| Purchase.FailureKindsDistinct | src/App1.jsx:510-515 | The rejection text appears exactly when there is no reason and the message mentions a rejection; a revert reason always ends the message |
| Purchase.BuyNft | src/App1.jsx:452-518 | Every trace is non-empty. Any buy in it is `buyNft(tokenId, 0)`. Any approval in it is of the re-read price, and only when the allowance was read and is below that price |
| Purchase.FailuresReported | src/App1.jsx:463-516 | A failed signer, owner or price read is the only effect, reported as the failure message of that error. So is a failed allowance read past the ownership checks. With the allowance read, the rest of the flow is the settling part |
| Purchase.SettleFailuresReported | src/App1.jsx:492-516 | A failed approval ends the trace right after the approval request, with the failure message of its error. A failed buy ends it right after `buyNft(tokenId, 0)`, also with its failure message; no refresh or close follows |
| Purchase.GuardsSendNothing | src/App1.jsx:453-490 | No account or no id sends no transaction. A token the minter no longer owns gives exactly the stale alert, refresh and close. A buyer who owns it gives exactly the "already own" alert and close |
| Purchase.AlreadyOwnedOnlyForMinter | src/App1.jsx:479-490 | Because the minter check runs first, the "already own" alert is only ever shown to a connected account that is the minter itself |
| Purchase.TransactionsOfPurchase | src/App1.jsx:492-502 | Past the checks, exactly one approval of the re-read price is sent when the allowance is short and none otherwise. `buyNft(tokenId, 0)` follows unless the approval failed |
| Purchase.SettleTransactions | src/App1.jsx:492-506 | After the checks, the transactions are the approval (when short) followed by the buy, which is left out when the approval fails |
| Purchase.ApprovalPrecedesBuy | src/App1.jsx:493-501 | An approval always comes before the buy, and the approval-success alert lies between them |
| Purchase.CallerPriceIgnored | src/App1.jsx:452-473 | The caller-supplied price plays no part: the flow uses the re-read contract price |
| Purchase.RefreshAndCloseExactly | src/App1.jsx:479-506 | The inventory is refreshed exactly when the purchase completed or the token had left the minter. The modal is closed in those cases and when the buyer already owns the token. A completed purchase ends with the success alert, refresh and close |
| Purchase.NaiveBuyNft | src/App.jsx:184-213 | With an account and a signer, the naive flow's first effect is the approval of the caller-supplied price |
| Purchase.NaiveTransactions | src/App.jsx:198-204 | The naive flow approves the caller's price unconditionally and buys `buyNft(tokenId, 0)` whenever that approval is confirmed, with no ownership or allowance check |
| Connection.CheckStatus | src/App.jsx:73-95 | The status is "alive" exactly when the node read succeeds and "working" exactly when it fails. A node failure sets "Failed to connect to blockchain.". A store failure after a good node read sets "Failed to connect to Firebase.". Otherwise the banner is untouched |
| Connection.StatusIgnoresStore | src/App.jsx:76-94 | The store's answer never changes the status, and when the node is down it changes nothing at all |
| Connection.BannerPersists | src/App.jsx:73-95 | The probe never clears a banner, and repeating it with the same answers changes nothing further |
| Text.IndexFrom | src/App1.jsx:513 | The search finds the first occurrence of the pattern at or after the start, or −1 when there is none (the `includes` of the rejection test) |
| Text.LastIndexOf | src/App.jsx:50 | `lastIndexOf` returns the position of the last occurrence of the character, or −1 exactly when it is absent |
| Text.DecimalRoundTrip | src/App.jsx:139 | The decimal rendering of a number used in `Pulse NFT #<i>` reads back as that number |

## Left out

- React rendering, hooks, `setInterval`/`useEffect` wiring and the scheduling
  of runs: `fetchChainData` runs once on mount (src/App.jsx:217) and again after
  a purchase (src/App.jsx:207); `checkStatus` runs on mount and every 10 s
  (src/App.jsx:218-219); the older `fetchNfts` is called only from the purchase
  flow, after a stale-token alert or a completed purchase (src/App1.jsx:481,
  505); the countdown ticks every second and the latest block
  is polled every 5 s (src/App1.jsx:183-190, 205). The model computes what one
  run produces, not when runs happen.
- ethers contract calls, `BrowserProvider`, `window.ethereum`, Firebase
  `onSnapshot`/`getDoc`, `fetch` and `AbortController`. Each is an input: an
  optional value or map for reads, a fetch-outcome oracle for the network, a
  `Wallet` record for the purchase, and a `StoreProbe` for the store read.
- The 8000 ms timeout of `fetchWithTimeout`. It is reduced to a `TimedOut`
  outcome, since timing is not modelled.
- Gateway.Accepted: `fetchWithTimeout` clears its timer as soon as the response
  headers arrive, so the `res.json()` read of the body (src/App.jsx:50) has no
  time bound. A body that never finishes would leave the walk pending. The model
  gives every response an already settled body, parsed or unparseable, because
  waiting forever is not modelled.
- Countdown.Estimate: the floating-point schedule `0.003183 · n^2.3` hours
  (src/App1.jsx:209-210) is not computed. `intervalMillis` is an integer input.
  The clock (`Date.now()`) and the latest block are inputs too.
- `ethers.formatUnits` and the decimal-string rendering of prices. Prices are
  natural numbers.
- `connectWallet`, the wallet-connection UI and the MetaMask-missing alert:
  the connected account is an input.
- Purchase.BuyNft: submitting a transaction and awaiting `wait()` are merged
  into one outcome per transaction, so a transaction that is submitted but
  fails to confirm is not distinguished from one that fails to submit.
- Purchase.BuyNft: the `connect(signer)` call on the minter and the contract
  objects built from the signer are not modelled. Only their failure is, as
  the signer's error.
- Concurrency between passes, and between a pass and a purchase-triggered
  refresh. The code has no guard to verify.
- JSON values of unexpected types, such as a numeric `name` or an `image` that
  is not a string. Fields are modelled as optional strings. A non-null JSON value
  without the fields reads as all fields absent.
- LegacyInventory.LegacyToken: the older pass's plain `fetch` has no abort
  (src/App1.jsx:427). A fetch that never settles leaves that pass pending with no
  banner. The model reads a `TimedOut` outcome as a failure that aborts the pass
  instead, because waiting forever is not modelled.
- `toLowerCase` is modelled on ASCII letters only. Addresses are hexadecimal.
- The console logging and the "Connecting to protocol..." start-up text.
- Presentational components (Header, Navbar, Footer, NftGrid, NftCard, NftModal,
  ErrorMessage, StatusDisplay, PulseStatusBar, theme) and the random pixel-icon
  generator. They hold no decision logic.
- The `loading` flag. It is set at the start of a pass and cleared in its
  `finally`, and carries no decision.
