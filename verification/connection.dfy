/** The connection probe of src/App.jsx `checkStatus`, run on mount and every ten
    seconds: read the node's block number and, when that succeeds, read the
    remote trigger document. The two reads are inputs here. */
module Connection {
  import opened Common

  const Alive := "alive"
  const Working := "working"
  const NodeFailed := "Failed to connect to blockchain."
  const StoreFailed := "Failed to connect to Firebase."

  /** How the read of the remote state document ended. A missing document is only
      logged, so it behaves like a found one. */
  datatype StoreProbe = DocFound | DocMissing | StoreError

  /** The part of the application state the probe writes: the status label and the
      error banner it shares with the inventory pass. */
  datatype Health = Health(status: string, error: Option<string>)

  /** One run of `checkStatus` from state `h`. The node read decides the status; the
      store is consulted only after a successful node read, and its failure only
      sets the banner. Nothing here ever clears a banner. */
  function CheckStatus(h: Health, nodeOk: bool, store: StoreProbe): (r: Health)
    ensures r.status == Alive <==> nodeOk
    ensures r.status == Working <==> !nodeOk
    ensures !nodeOk ==> r.error == Some(NodeFailed)
    ensures nodeOk && store == StoreError ==> r.error == Some(StoreFailed)
    ensures nodeOk && store != StoreError ==> r.error == h.error
  {
    if !nodeOk then Health(Working, Some(NodeFailed))
    else if store == StoreError then Health(Alive, Some(StoreFailed))
    else Health(Alive, h.error)
  }

  /** The status is decided by the node alone: the store's answer never changes it,
      and when the node is down the store's answer changes nothing at all. */
  lemma StatusIgnoresStore(h: Health, nodeOk: bool, s1: StoreProbe, s2: StoreProbe)
    ensures CheckStatus(h, nodeOk, s1).status == CheckStatus(h, nodeOk, s2).status
    ensures !nodeOk ==> CheckStatus(h, nodeOk, s1) == CheckStatus(h, nodeOk, s2)
  {
  }

  /** Once the probe has run, a banner stays up: a later run never removes it, and
      repeating a run with the same answers changes nothing further. */
  lemma BannerPersists(h: Health, nodeOk: bool, store: StoreProbe)
    ensures h.error.Some? ==> CheckStatus(h, nodeOk, store).error.Some?
    ensures CheckStatus(CheckStatus(h, nodeOk, store), nodeOk, store) == CheckStatus(h, nodeOk, store)
  {
  }
}
