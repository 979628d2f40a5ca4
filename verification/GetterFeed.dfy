/**
  The getter's parity trees as the feed of a search: which parities it delivers, and when it gives a strand up.
 */
module GetterFeed {
  import opened Bytes
  import opened Reslicing
  import opened LatticeGraph
  import opened BlockGetting
  import LazyResolve
  import StrandLoss

  /** The strands the getter still answers for. */
  function Up(available: seq<bool>): (up: set<nat>)
  {
    set k: nat | k < |available| && available[k]
  }

  /** The feed holds the parities of strand k that can be read, and marks those that lie under a lost node. */
  ghost predicate FeedOf(getter: IPFSGetter, feed: StrandLoss.Feed, k: nat)
    requires k < |getter.strands| && getter.strands[k].sh.Valid()
    requires LazyResolve.Published(getter.strands[k].sh, getter.strands[k].up, getter.shell)
  {
    forall i: nat :: i >= 1 ==> ParityOf(getter, feed, k, i)
  }

  ghost predicate ParityOf(getter: IPFSGetter, feed: StrandLoss.Feed, k: nat, i: nat)
    requires k < |getter.strands| && getter.strands[k].sh.Valid() && i >= 1
    requires LazyResolve.Published(getter.strands[k].sh, getter.strands[k].up, getter.shell)
  {
    var stream, a := getter.strands[k].Stream(), Start(i - 1, PARITY_BLOCK_SIZE);
    && (P(k, i) in feed.store <==> getter.LeavesReachable(k, i - 1) && a + PARITY_BLOCK_SIZE <= |stream|)
    && (P(k, i) in feed.store ==> a + PARITY_BLOCK_SIZE <= |stream| && feed.store[P(k, i)] == stream[a..a + PARITY_BLOCK_SIZE])
    && (P(k, i) in feed.fatal <==> getter.Fatal(k, i - 1))
  }

  lemma UpAfter(before: seq<bool>, after: seq<bool>, feed: StrandLoss.Feed, k: nat, i: nat)
    requires k < |before| && after == before[k := before[k] && P(k, i) !in feed.fatal]
    ensures Up(after) == StrandLoss.StrandsAfter(feed, Up(before), P(k, i))
  {
  }

  lemma UpIff(available: seq<bool>, k: nat)
    requires k < |available|
    ensures k in Up(available) <==> available[k]
  {
  }

  /**
    A parity block asked of the getter: it is delivered, with its bytes, exactly if the feed delivers it, and the
    strands afterwards are those the feed leaves.
   */
  method DownloadParity(getter: IPFSGetter, index: nat, strand: nat, ghost feed: StrandLoss.Feed) returns (r: Reading)
    requires index >= 1 && strand < |getter.strands| && getter.ParityValid(strand) && getter.StreamStored(strand)
    requires getter.strands[strand].sh.Valid()
    requires LazyResolve.Published(getter.strands[strand].sh, getter.strands[strand].up, getter.shell)
    requires getter.ParityEarned(strand, CacheOf(getter.strands[strand].at)) && FeedOf(getter, feed, strand)
    modifies getter`parityAvailable, getter.strands[strand].at.Values`cid, getter.strands[strand].at.Values`data
    ensures getter.ParityValid(strand)
    ensures r.Read? <==> StrandLoss.Delivers(feed, Up(old(getter.parityAvailable)), P(strand, index))
    ensures r.Read? ==> P(strand, index) in feed.store && r.data == feed.store[P(strand, index)]
    ensures Up(getter.parityAvailable) == StrandLoss.StrandsAfter(feed, Up(old(getter.parityAvailable)), P(strand, index))
  {
    hide *;
    ghost var before := getter.parityAvailable;
    FeedAt(getter, feed, strand, index, before);
    r := getter.GetParity(index - 1, strand);
    UpAfter(before, getter.parityAvailable, feed, strand, index);
  }

  lemma FeedAt(getter: IPFSGetter, feed: StrandLoss.Feed, k: nat, i: nat, available: seq<bool>)
    requires k < |getter.strands| && getter.strands[k].sh.Valid() && i >= 1
    requires LazyResolve.Published(getter.strands[k].sh, getter.strands[k].up, getter.shell) && FeedOf(getter, feed, k)
    ensures var stream, a := getter.strands[k].Stream(), Start(i - 1, PARITY_BLOCK_SIZE);
            && (P(k, i) in feed.store <==> getter.LeavesReachable(k, i - 1) && a + PARITY_BLOCK_SIZE <= |stream|)
            && (P(k, i) in feed.store ==> a + PARITY_BLOCK_SIZE <= |stream| && feed.store[P(k, i)] == stream[a..a + PARITY_BLOCK_SIZE])
            && (P(k, i) in feed.fatal <==> getter.Fatal(k, i - 1))
    ensures k < |available| ==> (StrandLoss.Delivers(feed, Up(available), P(k, i)) <==> P(k, i) in feed.store && available[k])
  {
    assert ParityOf(getter, feed, k, i);
    hide Start;
  }
}
