// The row manager of optimistic concurrency control (row_occ.cpp).

module OccRow {
  class RowOcc<Data> {
    var value: Data
    var wts: nat
    var latched: bool

    constructor (value: Data)
      ensures this.value == value && wts == 0 && !latched
    {
      this.value, wts, latched := value, 0, false;
    }

    // Returns once nobody else holds the latch.
    method Latch()
      requires !latched
      modifies this`latched
      ensures latched
    {
      latched := true;
    }

    method Release()
      requires latched
      modifies this`latched
      ensures !latched
    {
      latched := false;
    }

    // Hands out a copy, or refuses a transaction that started before the last
    // write of the row.
    method Access(startTs: nat) returns (ok: bool, copy: Data)
      ensures ok == (wts <= startTs)
      ensures copy == value
    {
      copy := value;
      ok := !(startTs < wts);
    }

    method Validate(startTs: nat) returns (ok: bool)
      ensures ok == (wts <= startTs)
    {
      if startTs < wts {
        return false;
      }
      return true;
    }

    method Write(data: Data, ts: nat)
      requires ts > wts
      modifies this`value, this`wts
      ensures value == data && wts == ts
    {
      value := data;
      wts := ts;
    }
  }
}
