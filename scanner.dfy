/**
 The program's driver: open the saved book or start a fresh one, then call
 the fetch-and-merge step while the height is below the fixed target.
 */
module Scanner {
  import opened Chain
  import opened Book

  /** The height a fresh book starts from. */
  const FreshHeight: u64 := 21395800

  /** The loop stops once the height reaches this block number. */
  const ScanTarget: u64 := 21395817

  /** The block numbers requested while the height goes from `lo` up to
      `hi`, in the order they are requested. */
  function RequestedHeights(lo: u64, hi: u64): seq<u64>
    decreases hi
  {
    if hi <= lo then [] else RequestedHeights(lo, hi - 1) + [hi]
  }

  /** Every address the responses for the block numbers after `lo`, up to
      and including `hi`, add to the book. */
  function Observed(provider: Provider, lo: u64, hi: u64): set<Address>
    decreases hi
  {
    if hi <= lo then {} else Observed(provider, lo, hi - 1) + Fetched(provider(hi))
  }

  /** Going from height `lo` to `hi`, each block number in between is
      requested exactly once, in increasing order, and none when `hi` is not
      above `lo`: a number whose response held no block is not asked for
      again. */
  lemma {:induction false} RequestedHeightsAreConsecutive(lo: u64, hi: u64)
    ensures |RequestedHeights(lo, hi)| == if lo < hi then (hi - lo) as int else 0
    ensures forall i :: 0 <= i < |RequestedHeights(lo, hi)| ==>
      RequestedHeights(lo, hi)[i] as int == lo as int + 1 + i
    decreases hi
  {
    if lo < hi {
      RequestedHeightsAreConsecutive(lo, hi - 1);
    }
  }

  /** An address is observed exactly when the response for some block number
      after `lo`, up to `hi`, adds it. */
  lemma {:induction false} ObservedIsFromFetchedBlocks(provider: Provider, lo: u64, hi: u64, a: Address)
    ensures a in Observed(provider, lo, hi) <==> exists k: u64 :: lo < k <= hi && a in Fetched(provider(k))
    decreases hi
  {
    if lo < hi {
      ObservedIsFromFetchedBlocks(provider, lo, hi - 1, a);
      if a !in Observed(provider, lo, hi) {
        forall k: u64 | lo < k <= hi ensures a !in Fetched(provider(k)) {
        }
      }
    }
  }

  /** The addresses observed up to some block number are still there when the
      scan goes further: the set only grows as the height advances. */
  lemma {:induction false} ObservedGrows(provider: Provider, lo: u64, mid: u64, hi: u64)
    requires mid <= hi
    ensures Observed(provider, lo, mid) <= Observed(provider, lo, hi)
    decreases hi
  {
    if mid < hi {
      ObservedGrows(provider, lo, mid, hi - 1);
    }
  }

  /** A fresh book requests the seventeen block numbers 21395801 to 21395817. */
  lemma FreshScanRequests()
    ensures |RequestedHeights(FreshHeight, ScanTarget)| == 17
    ensures RequestedHeights(FreshHeight, ScanTarget)[0] == 21395801
    ensures RequestedHeights(FreshHeight, ScanTarget)[16] == ScanTarget
    ensures forall i :: 0 <= i < |RequestedHeights(FreshHeight, ScanTarget)| ==>
      RequestedHeights(FreshHeight, ScanTarget)[i] as int == 21395801 + i
  {
    RequestedHeightsAreConsecutive(FreshHeight, ScanTarget);
  }

  /** A book saved at 21395810 resumes at 21395811 and never asks for 21395810
      or below. */
  lemma ResumeScanRequests()
    ensures RequestedHeights(21395810, ScanTarget)[0] == 21395811
    ensures forall k :: k in RequestedHeights(21395810, ScanTarget) ==> k > 21395810
  {
    RequestedHeightsAreConsecutive(21395810, ScanTarget);
  }

  /** The scan loop: while the height is below the target, fetch and merge
      the next block (the pause between requests is not modelled). The ghost
      result lists the block numbers requested. */
  method Scan(book: AddressBook, provider: Provider) returns (ghost requested: seq<u64>)
    modifies book
    ensures book.blockHeight == if old(book.blockHeight) < ScanTarget then ScanTarget else old(book.blockHeight)
    ensures book.addresses == old(book.addresses) + Observed(provider, old(book.blockHeight), ScanTarget)
    ensures requested == RequestedHeights(old(book.blockHeight), ScanTarget)
  {
    ghost var start, seen := book.blockHeight, book.addresses;
    requested := [];
    while book.blockHeight < ScanTarget
      invariant book.blockHeight == start || start < book.blockHeight <= ScanTarget
      invariant book.addresses == seen + Observed(provider, start, book.blockHeight)
      invariant requested == RequestedHeights(start, book.blockHeight)
      decreases ScanTarget as int - book.blockHeight as int
    {
      book.InsertNewBlock(provider);
      requested := requested + [book.blockHeight];
    }
  }

  /** What reading the saved book at start-up can give. */
  datatype Saved =
    | NoFile                                                 // the file does not open
    | Unreadable                                             // it opens, reading it fails
    | Undecodable                                            // its bytes do not decode to a book
    | Stored(blockHeight: u64, addresses: set<Address>)      // it decodes to this book

  /** Why the program stops before scanning. */
  datatype StartError = ReadFailed | InvalidData

  datatype Outcome = Done(book: AddressBook) | Aborted(error: StartError)

  /** Start-up and the scan: recover the saved book, or begin a fresh one at
      FreshHeight with no addresses when the file cannot be opened; a file that cannot
      be read or decoded ends the run before any block is requested. */
  method Run(saved: Saved, provider: Provider) returns (outcome: Outcome, ghost requested: seq<u64>)
    ensures saved.Unreadable? ==> outcome == Aborted(ReadFailed) && requested == []
    ensures saved.Undecodable? ==> outcome == Aborted(InvalidData) && requested == []
    ensures saved.NoFile? ==>
      && outcome.Done? && fresh(outcome.book)
      && outcome.book.blockHeight == ScanTarget
      && outcome.book.addresses == Observed(provider, FreshHeight, ScanTarget)
      && requested == RequestedHeights(FreshHeight, ScanTarget)
    ensures saved.Stored? ==>
      && outcome.Done? && fresh(outcome.book)
      && outcome.book.blockHeight == (if saved.blockHeight < ScanTarget then ScanTarget else saved.blockHeight)
      && outcome.book.addresses == saved.addresses + Observed(provider, saved.blockHeight, ScanTarget)
      && requested == RequestedHeights(saved.blockHeight, ScanTarget)
  {
    var book: AddressBook;
    match saved {
      case Unreadable =>
        return Aborted(ReadFailed), [];
      case Undecodable =>
        return Aborted(InvalidData), [];
      case Stored(h, s) =>
        book := new AddressBook(h, s);
      case NoFile =>
        book := new AddressBook(FreshHeight, {});
    }
    requested := Scan(book, provider);
    outcome := Done(book);
  }

  /** Running the program again after a completed scan: the book saved at
      the target is read back, no block is requested, and the height and the
      addresses stay exactly as saved. */
  method RerunAfterCompletion(saved: set<Address>, provider: Provider)
    returns (height: u64, addresses: set<Address>, ghost requested: seq<u64>)
    ensures height == ScanTarget
    ensures addresses == saved
    ensures requested == []
  {
    var outcome;
    outcome, requested := Run(Stored(ScanTarget, saved), provider);
    height, addresses := outcome.book.blockHeight, outcome.book.addresses;
  }
}
