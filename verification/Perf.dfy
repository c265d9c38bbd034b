/** The shared response type of utils/src/perf.rs: a counted iterator of zero bytes. */
module Perf {
  import opened Wrappers
  import opened Codec
  import opened Protocol

  class Blob {
    const size: nat
    var cursor: nat

    /** From the leading 8 bytes of a buffer that has them. */
    constructor (data: seq<byte>)
      requires |data| >= HEADER_LEN
      ensures size == Requested(data) && cursor == 0
    {
      size := BigEndian(data[..HEADER_LEN]);
      cursor := 0;
    }

    method Next() returns (item: Option<byte>)
      modifies this
      ensures if old(cursor) < size then item == Some(0) && cursor == old(cursor) + 1
              else item == None && cursor == old(cursor)
    {
      if cursor < size {
        cursor := cursor + 1;
        item := Some(0);
      } else {
        item := None;
      }
    }

    /** Collecting the iterator yields exactly the bytes not yet taken. */
    method Collect() returns (bytes: seq<byte>)
      requires cursor <= size
      modifies this
      ensures bytes == Zeros(size - old(cursor)) && cursor == size
    {
      bytes := [];
      while true
        invariant old(cursor) <= cursor <= size
        invariant bytes == Zeros(cursor - old(cursor))
        decreases size - cursor
      {
        var item := Next();
        if item.None? {
          break;
        }
        bytes := bytes + [item.value];
      }
    }
  }
}
