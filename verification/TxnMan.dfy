// One attempt of a transaction as the row managers see it (txn.h): who it is,
// and the flags and the row they hand to its waiting thread.

module TxnMan {
  class TxnMan {
    const id: nat
    const ts: nat
    // Set when a row lock it waits for is granted.
    var lockReady: bool
    // Set when it is to give up waiting and abort.
    var lockAbort: bool
    // Set when a buffered read is served; curRow is what it then reads.
    var tsReady: bool
    var curRow: int
    // The number of partitions whose queue the transaction is in.
    var readyPart: int

    constructor (id: nat, ts: nat)
      ensures this.id == id && this.ts == ts && !lockReady && !lockAbort && !tsReady && readyPart == 0
    {
      this.id, this.ts := id, ts;
      lockReady, lockAbort, tsReady, curRow, readyPart := false, false, false, 0, 0;
    }
  }
}
