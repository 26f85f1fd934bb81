/**
 * The serial port as the engine sees it: a non-blocking reader that yields
 * one octet or -1 when nothing is waiting, and a byte writer. The port itself
 * (SerialPortHandle.java) is replaced by the bytes still to arrive and a log
 * of the bytes written.
 */
module Serial {
  import opened Wire

  /** What `readRawByte` returns: an octet, or -1 for "no data". */
  type Raw = x: int | -1 <= x < 256

  const NoData: Raw := -1

  /** The next read from a queue of arrivals; an empty queue reads as "no data". */
  function Head(rx: seq<Raw>): Raw
  {
    if rx == [] then NoData else rx[0]
  }

  /** The arrivals left after one read; reading an empty queue consumes nothing. */
  function Tail(rx: seq<Raw>): (rest: seq<Raw>)
    ensures |rest| == if rx == [] then 0 else |rx| - 1
  {
    if rx == [] then [] else rx[1..]
  }

  class Link {
    /** Arrivals in order; a -1 entry is a poll that finds nothing waiting. */
    var rx: seq<Raw>
    /** Every byte written so far, as unsigned octets. */
    var tx: seq<Octet>

    constructor (incoming: seq<Raw>)
      ensures rx == incoming && tx == []
    {
      rx := incoming;
      tx := [];
    }

    /** `readRawByte`: takes the next arrival, or -1 when none is waiting. */
    method ReadRawByte() returns (raw: Raw)
      modifies this`rx
      ensures raw == Head(old(rx)) && rx == Tail(old(rx))
    {
      if rx == [] {
        raw := NoData;
      } else {
        raw := rx[0];
        rx := rx[1..];
      }
    }

    /** `writeByte`: appends the byte's bit pattern to the log. */
    method WriteByte(b: JavaByte)
      modifies this`tx
      ensures tx == old(tx) + [Unsigned(b)]
    {
      tx := tx + [Unsigned(b)];
    }
  }
}
