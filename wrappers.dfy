/** Failure-compatible result types shared by every module of the model. */
module Wrappers {

  datatype Option<+T> = None | Some(value: T)

  /** The value of a PHP method that either returns normally or throws. */
  datatype Result<+T, +E> = Success(value: T) | Failure(error: E)

  /** The value of a PHP method that returns nothing or throws. */
  datatype Outcome<+E> = Pass | Fail(error: E)
}

/** Facts about sequence concatenation and slicing, each proved where no other context can make it costly. */
module Sequences {
  lemma AppendAssociates<T>(a: seq<T>, b: seq<T>, c: seq<T>)
    ensures (a + b) + c == a + (b + c)
  {
  }

  lemma EmptyAppend<T>(s: seq<T>)
    ensures [] + s == s
  {
  }

  lemma AppendEmpty<T>(s: seq<T>)
    ensures s + [] == s
  {
  }

  lemma ConsPrefix<T>(x: T, s: seq<T>, k: nat)
    requires k <= |s|
    ensures ([x] + s)[..k + 1] == [x] + s[..k]
  {
  }

  lemma ConsTail<T>(x: T, s: seq<T>)
    ensures ([x] + s)[0] == x && ([x] + s)[1..] == s
  {
  }

  lemma RemoveAfterHead<T>(s: seq<T>, j: nat)
    requires j + 1 < |s|
    ensures [s[0]] + (s[1..][..j] + s[1..][j + 1..]) == s[..j + 1] + s[j + 2..]
  {
    assert s[..j + 1] == [s[0]] + s[1..][..j];
    assert s[j + 2..] == s[1..][j + 1..];
  }

  lemma SliceOfSlice<T>(s: seq<T>, a: nat, b: nat, i: nat, j: nat)
    requires a <= b <= |s| && i <= j <= b - a
    ensures s[a..b][i..j] == s[a + i..a + j]
  {
    forall k | 0 <= k < j - i ensures s[a..b][i..j][k] == s[a + i..a + j][k] {
      assert s[a..b][i..j][k] == s[a + i + k];
    }
  }

  lemma DropTake<T>(s: seq<T>, a: nat, k: nat)
    requires a + k <= |s|
    ensures s[a..][..k] == s[a..a + k]
  {
  }

  lemma DropAfterHead<T>(s: seq<T>, k: nat)
    requires 1 + k <= |s|
    ensures s[1..][k..] == s[k + 1..]
  {
  }

  lemma TakeBeforeLast<T>(s: seq<T>, k: nat)
    requires k < |s|
    ensures s[..|s| - 1][..k] == s[..k]
  {
  }

  lemma HeadAppend<T>(x: T, s: seq<T>, t: seq<T>)
    ensures ([x] + s + t)[0] == x && ([x] + s + t)[1..] == s + t
  {
  }

  lemma ConsLast<T>(x: T, s: seq<T>)
    requires s != []
    ensures ([x] + s)[|s|] == s[|s| - 1]
  {
  }
}

/** The conditions under which the client throws a StompException, one constructor per message. */
module Errors {
  import opened Wrappers

  datatype StompError =
    | BadBrokerUrl(url: string)                                      // _init / _processUrl
    | NoBrokerDefined                                                // _makeConnection, empty _hosts
    | CouldNotConnectTo(host: string, port: int, attempt: nat, attempts: nat)
    | CouldNotConnect                                                // "Could not connect to a broker"
    | UnexpectedCommand(command: string, body: string)               // connect: reply is not CONNECTED
    | ConnectionNotAcknowledged                                      // connect: no reply at all
    | UnexpectedReceipt(receiptId: Option<string>, body: string)     // _waitForReceipt: wrong receipt-id
    | SocketNotEstablished                                           // _writeFrame without a socket
    | ReadabilityCheckFailed                                         // hasFrameToRead: stream_select failed
    | ConnectionLost                                                 // readFrame: fgets gave false or ""
}
