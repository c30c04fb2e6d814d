/**
 The address book: a block height and the set of addresses seen so far, the
 rule that picks one address per transaction, and the step that fetches the
 next block and folds its addresses into the set.
 */
module Book {
  import opened Chain

  /** The address a transaction contributes: its recipient when it has one,
      otherwise (a contract creation) its sender. */
  function TxAddress(tx: Transaction): Address
  {
    match tx.to
    case Some(recipient) => recipient
    case None => tx.from
  }

  /** The set collected from a block's transactions, one address each. */
  function TransactionAddresses(txs: seq<Transaction>): set<Address>
  {
    if txs == [] then {} else {TxAddress(txs[0])} + TransactionAddresses(txs[1..])
  }

  /** An address is collected exactly when some transaction contributes it. */
  lemma {:induction false} TransactionAddressesMembers(txs: seq<Transaction>, a: Address)
    ensures a in TransactionAddresses(txs) <==> exists i :: 0 <= i < |txs| && TxAddress(txs[i]) == a
  {
    if txs != [] {
      TransactionAddressesMembers(txs[1..], a);
      if a in TransactionAddresses(txs[1..]) {
        var j :| 0 <= j < |txs[1..]| && TxAddress(txs[1..][j]) == a;
        assert TxAddress(txs[j + 1]) == a;
      } else if a != TxAddress(txs[0]) {
        forall i | 0 <= i < |txs| ensures TxAddress(txs[i]) != a {
          if i > 0 {
            assert txs[i] == txs[1..][i - 1];
          }
        }
      }
    }
  }

  /** Every address a block adds to the book: its beneficiary and one
      address per transaction. */
  function BlockAddresses(b: Block): set<Address>
  {
    {b.beneficiary} + TransactionAddresses(b.transactions)
  }

  /** A block adds its beneficiary, and otherwise exactly the addresses its
      transactions contribute. */
  lemma BlockAddressesMembers(b: Block, a: Address)
    ensures a in BlockAddresses(b) <==>
      a == b.beneficiary || exists i :: 0 <= i < |b.transactions| && TxAddress(b.transactions[i]) == a
  {
    TransactionAddressesMembers(b.transactions, a);
  }

  /** The addresses a provider response adds: those of the block when the
      call returned one, none when it returned nothing or failed. */
  function Fetched(response: Response): (r: set<Address>)
  {
    match response
    case Ok(Some(b)) => BlockAddresses(b)
    case _ => {}
  }

  /** Folding the same response in twice gives the set folding it once gives. */
  lemma MergeIdempotent(s: set<Address>, response: Response)
    ensures s + Fetched(response) + Fetched(response) == s + Fetched(response)
  {
  }

  /** A transaction with a recipient contributes the recipient and not its
      sender; one without a recipient contributes its sender. Shown on a
      block with beneficiary p, a transfer from a to b and a contract
      creation by c. */
  lemma ExtractionExample(p: Address, a: Address, b: Address, c: Address)
    requires a != p && a != b && a != c
    ensures BlockAddresses(Block(p, [Transaction(a, Some(b)), Transaction(c, None)])) == {p, b, c}
    ensures a !in BlockAddresses(Block(p, [Transaction(a, Some(b)), Transaction(c, None)]))
  {
    var txs := [Transaction(a, Some(b)), Transaction(c, None)];
    assert txs[1..][1..] == [];
    assert TransactionAddresses(txs[1..]) == {c};
    assert TransactionAddresses(txs) == {b, c};
  }

  /** The registry: the block height reached so far and the addresses seen. */
  class AddressBook {
    var blockHeight: u64
    var addresses: set<Address>

    /** A book holding exactly the given height and addresses. */
    constructor (blockHeight: u64, addresses: set<Address>)
      ensures this.blockHeight == blockHeight && this.addresses == addresses
    {
      this.blockHeight := blockHeight;
      this.addresses := addresses;
    }

    /** Advances the height by one and gives back the new height. */
    method IncrementBlockHeight() returns (height: u64)
      requires blockHeight < MaxU64
      modifies this`blockHeight
      ensures blockHeight == old(blockHeight) + 1
      ensures height == blockHeight
      ensures addresses == old(addresses)
    {
      blockHeight := blockHeight + 1;
      height := blockHeight;
    }

    /** Requests the block after the current height, advancing the height
        first, so the height moves by one whatever the provider answers; a
        returned block's beneficiary and transaction addresses are inserted
        into the set one at a time. */
    method InsertNewBlock(provider: Provider)
      requires blockHeight < MaxU64
      modifies this
      ensures blockHeight == old(blockHeight) + 1
      ensures addresses == old(addresses) + Fetched(provider(old(blockHeight) + 1))
      ensures !(provider(old(blockHeight) + 1).Ok? && provider(old(blockHeight) + 1).block.Some?) ==>
        addresses == old(addresses)
    {
      var height := IncrementBlockHeight();
      match provider(height)
      case Ok(Some(block)) =>
        var blockAddresses := TransactionAddresses(block.transactions);
        addresses := addresses + {block.beneficiary};
        var pending := blockAddresses;
        while pending != {}
          invariant addresses + pending == old(addresses) + BlockAddresses(block)
          invariant blockHeight == height
          decreases pending
        {
          var a :| a in pending;
          addresses := addresses + {a};
          pending := pending - {a};
        }
        assert Fetched(provider(height)) == BlockAddresses(block);
      case _ =>
        // The program only prints a message here; the set is left as it is.
    }
  }
}
