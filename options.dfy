/**
  The range checks on `--my-oid` and `--to-oid`. The option parsers store
  `atoi(pArg)` into a `uint16_t` and only then compare it with the bounds, so
  the value compared is the argument modulo 65536.
 */
module OidOptions {
  import opened Wrappers
  import opened Telegram

  /** Conversion of an int to uint16_t: the value modulo 2^16 (never negative). */
  function ToUint16(n: int): (v: uint16)
    ensures (v - n) % 0x1_0000 == 0
  {
    n % 0x1_0000
  }

  /** The check as written: truncate, then require lo <= value <= 65534; None means exit(-EINVAL). */
  function CheckOidAsWritten(n: int, lo: uint16): (r: Option<uint16>)
    ensures r.Some? <==> lo <= n % 0x1_0000 <= 65534
    ensures r.Some? ==> (r.value - n) % 0x1_0000 == 0
  {
    var v := ToUint16(n);
    if v < lo || v > 65534 then None else Some(v)
  }

  /** `--my-oid` as written: bounds 2 to 65534 after truncation. */
  function MyOidAsWritten(n: int): (r: Option<uint16>)
    ensures r.Some? <==> 2 <= ToUint16(n) <= 65534
    ensures r.Some? ==> r.value == ToUint16(n)
  {
    CheckOidAsWritten(n, 2)
  }

  /** `--to-oid` as written: bounds 1 to 65534 after truncation. */
  function ToOidAsWritten(n: int): (r: Option<uint16>)
    ensures r.Some? <==> 1 <= ToUint16(n) <= 65534
    ensures r.Some? ==> r.value == ToUint16(n)
  {
    CheckOidAsWritten(n, 1)
  }

  /** Arguments outside the printed range pass the check and become a different OID. */
  lemma TruncatedOidAccepted()
    ensures MyOidAsWritten(65538) == Some(2)
    ensures MyOidAsWritten(-65534) == Some(2)
    ensures ToOidAsWritten(65537) == Some(1)
  {
  }

  /** The check as the message describes it: compare the full value, then store it. */
  function CheckOid(n: int, lo: uint16): (r: Option<uint16>)
    ensures r.Some? <==> lo <= n <= 65534
    ensures r.Some? ==> r.value == n
  {
    if n < lo || n > 65534 then None else Some(n)
  }

  /** Inside the 16-bit range both checks agree; they differ only on arguments that wrap. */
  lemma {:induction false} ChecksAgreeInRange(n: int, lo: uint16)
    ensures 0 <= n < 0x1_0000 ==> CheckOidAsWritten(n, lo) == CheckOid(n, lo)
    ensures CheckOidAsWritten(n, lo) != CheckOid(n, lo) ==> CheckOid(n, lo).None? && CheckOidAsWritten(n, lo).Some?
  {
  }
}
