/** The small vocabulary shared by the HTTP parser, the transfer engine and the client. */
module HttpTypes {

  datatype HttpError =
    | HeNone | HeProtocol | HeDisconnected | HeOverflow | HeConnectFailed | HeSocketError
    | HeShutdown | HeOperationCancelled | HeAuth | HeCertificateExpired | HeStream | HeCache

  datatype Header = Header(name: string, value: string)

  datatype ProcessResult = PrContinue | PrBlock | PrComplete

  datatype StreamResult = SrSuccess | SrBlock | SrEos | SrError

  // static_cast<size_t>(-1) with a 32-bit size_t.
  const SIZE_UNKNOWN: nat := 0xFFFF_FFFF

  // sizeof(HttpBase::buffer_)
  const BUFFER_SIZE: nat := 32 * 1024

  type SizeT = n: nat | n <= SIZE_UNKNOWN

  const SOCKET_EACCES: int := 13
  const SEC_E_CERT_EXPIRED: int := -2146893016

  /** HandleStreamClose once connected; validEnd says whether a clean close may end the message here. */
  function StreamCloseError(code: int, validEnd: bool): HttpError {
    if code == 0 then if validEnd then HeNone else HeDisconnected
    else if code == SOCKET_EACCES then HeAuth
    else if code == SEC_E_CERT_EXPIRED then HeCertificateExpired
    else HeSocketError
  }

  /** What a stream that fails with this code is reported as. */
  predicate ReportedAs(code: int, error: HttpError) {
    && (error == HeAuth <==> code == 13)                        // EACCES
    && (error == HeCertificateExpired <==> code == -2146893016) // 0x80090328
    && (error == HeSocketError <==> code != 13 && code != -2146893016)
  }

  function Concat(parts: seq<string>): string {
    if parts == [] then [] else parts[0] + Concat(parts[1..])
  }

  lemma {:induction false} ConcatAppend(parts: seq<string>, last: string)
    ensures Concat(parts + [last]) == Concat(parts) + last
  {
    if parts == [] {
      assert Concat([last]) == last + Concat([last][1..]);
    } else {
      ConcatAppend(parts[1..], last);
      assert (parts + [last])[1..] == parts[1..] + [last];
    }
  }
}
