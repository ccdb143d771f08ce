/** When a connection may go back to the pool. */
module Reuse {
  import opened Base
  import opened Reader

  datatype Reason =
    | ReuseOk | BodyIncomplete | WasCancelled | BadFraming | CloseFramed | ConnectionClose | TlsError

  /** The verdict on one finished exchange. `close` and `keepAlive` say whether some Connection
      header of the response carries the token. */
  function Decide(rc: Code, kind: Kind, poolable: bool, close: bool, keepAlive: bool, minor: nat): Reason
  {
    if rc != Ok then
      match rc
      case Timeout => WasCancelled
      case Cancelled => WasCancelled
      case Interrupted => WasCancelled
      case Parse => BadFraming
      case Tls => TlsError
      case _ => BodyIncomplete
    else if !poolable || kind.UntilClose? then CloseFramed
    else if close then ConnectionClose
    else if minor == 0 && !keepAlive then ConnectionClose
    else ReuseOk
  }

  /** Bytes past the framing put the connection out of step, so they overrule a good verdict. */
  function WithSurplus(r: Reason, rc: Code, surplus: nat): Reason
  {
    if rc == Ok && surplus > 0 && r == ReuseOk then BadFraming else r
  }

  /** Reuse is granted exactly on a clean, self-delimited, persistent exchange with nothing left over. */
  lemma ReuseOnlyWhenClean(rc: Code, kind: Kind, poolable: bool, close: bool, keepAlive: bool, minor: nat, surplus: nat)
    ensures WithSurplus(Decide(rc, kind, poolable, close, keepAlive, minor), rc, surplus) == ReuseOk <==>
            && rc == Ok && surplus == 0 && poolable && !kind.UntilClose?
            && !close && (minor == 0 ==> keepAlive)
  {
  }
}
