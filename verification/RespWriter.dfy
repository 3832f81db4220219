/**
 Reply constructors of the RESP2 protocol. The dispatcher decides what to log by
 looking at reply bytes, so what matters here is which replies can be confused.
 */
module RespWriter {
  import opened Base
  import opened Decimal

  function Simple(s: Bytes): Bytes {
    "+" + s + CRLF
  }

  function Error(msg: Bytes): Bytes {
    "-" + msg + CRLF
  }

  function Integer(n: int): Bytes {
    ":" + ToString(n) + CRLF
  }

  function Bulk(payload: Bytes): Bytes {
    "$" + ToString(|payload|) + CRLF + payload + CRLF
  }

  const NULL_BULK: Bytes := "$-1\r\n"

  function Array(encoded: seq<Bytes>): Bytes {
    "*" + ToString(|encoded|) + CRLF + Flatten(encoded)
  }

  const EMPTY_ARRAY: Bytes := "*0\r\n"

  /** Integer replies are told apart by their bytes. */
  lemma IntegerInjective(a: int, b: int)
    ensures Integer(a) == Integer(b) <==> a == b
  {
    if Integer(a) == Integer(b) {
      var x, y := Integer(a), Integer(b);
      assert x[1..|x| - 2] == ToString(a);
      assert y[1..|y| - 2] == ToString(b);
      ToStringInjective(a, b);
    }
  }

  /** The literals `log_mutation` compares against are the replies 0 and 1. */
  lemma IntegerLiterals()
    ensures Integer(0) == ":0\r\n" && Integer(1) == ":1\r\n"
  {
  }

  /** A popped value never looks like the null bulk, whatever its bytes are. */
  lemma BulkIsNotNull(payload: Bytes)
    ensures Bulk(payload) != NULL_BULK && Bulk(payload) != [] && Bulk(payload)[0] == '$'
  {
  }
}
