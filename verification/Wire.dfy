/** What travels between the main thread and the worker, and the two helpers that
    decide which buffers change owner on a post (src/async-helpers.ts, src/async-api.ts:20-34). */
module Wire {
  newtype byte = b: int | 0 <= b < 256

  datatype Option<+T> = None | Some(value: T)

  datatype Method =
    | CreateSocket | Bind | Listen | Connect | Accept | Close | Read | Write
    | SetSockFlag | GetSockFlag | GetSockState | EpollCreate | EpollAddUsock
    | EpollUWait | SetLogLevel | Stats

  /** A JavaScript value used as an argument or a result. A `View` is a typed array over
      the ArrayBuffer numbered `buffer`; `Uncloneable` stands for a value (a function, say)
      that structured cloning refuses. `Events` is the array that epollUWait returns. */
  datatype Value =
    | Undefined | Null
    | Num(n: int) | Text(s: string) | Flag(b: bool)
    | View(buffer: nat, bytes: seq<byte>)
    | Events(sockets: seq<int>)
    | Uncloneable

  const SRT_ERROR := Num(-1)

  datatype Post = Post(name: Method, args: seq<Value>)

  datatype Reply = Reply(result: Value, err: Option<string>)

  /** What the native binding did with one call. */
  datatype Native = Returns(value: Value) | Throws(message: string)

  /** The buffers owned by the items of an argument list, in argument order. */
  function TransferList(args: seq<Value>): (buffers: seq<nat>)
    ensures forall b :: b in buffers <==> exists i :: 0 <= i < |args| && args[i].View? && args[i].buffer == b
  {
    if args == [] then []
    else
      var rest := TransferList(args[..|args| - 1]);
      var last := args[|args| - 1];
      if last.View? then rest + [last.buffer] else rest
  }

  /** Strictly increasing indices below n. */
  predicate Increasing(at: seq<nat>, n: nat) {
    && (forall j :: 0 <= j < |at| ==> at[j] < n)
    && (forall j, k :: 0 <= j < k < |at| ==> at[j] < at[k])
  }

  ghost predicate ListedAt(args: seq<Value>, buffers: seq<nat>, at: seq<nat>) {
    && Increasing(at, |args|) && |buffers| == |at|
    && (forall i :: 0 <= i < |args| ==> (i in at <==> args[i].View?))
    && (forall j :: 0 <= j < |at| ==> args[at[j]].View? && buffers[j] == args[at[j]].buffer)
  }

  /** One entry for each view, in the order of the arguments, also where two views share a buffer. */
  lemma {:induction false} TransferListExact(args: seq<Value>) returns (at: seq<nat>)
    ensures Increasing(at, |args|) && |TransferList(args)| == |at|
    ensures forall i :: 0 <= i < |args| ==> (i in at <==> args[i].View?)
    ensures forall j :: 0 <= j < |at| ==> args[at[j]].View? && TransferList(args)[j] == args[at[j]].buffer
  {
    at := [];
    if args != [] {
      var n := |args| - 1;
      at := TransferListExact(args[..n]);
      OneMoreView(args[..n], args[n], TransferList(args[..n]), at);
      assert args[..n] + [args[n]] == args;
      if args[n].View? {
        at := at + [n];
      }
    }
  }

  lemma OneMoreView(args: seq<Value>, arg: Value, buffers: seq<nat>, at: seq<nat>)
    requires ListedAt(args, buffers, at)
    ensures if arg.View? then ListedAt(args + [arg], buffers + [arg.buffer], at + [|args|])
            else ListedAt(args + [arg], buffers, at)
  {
  }

  method ExtractTransferListFromParams(args: seq<Value>) returns (transferList: seq<nat>)
    ensures transferList == TransferList(args)
  {
    transferList := [];
    for i := 0 to |args|
      invariant transferList == TransferList(args[..i])
    {
      assert args[..i + 1][..i] == args[..i];
      if args[i].View? {
        transferList := transferList + [args[i].buffer];
      }
    }
    assert args[..|args|] == args;
  }

  predicate Distinct(xs: seq<nat>) {
    forall i, j :: 0 <= i < j < |xs| ==> xs[i] != xs[j]
  }

  /** postMessage refuses a value it cannot clone, a buffer that is already detached
      and a transfer list that names a buffer twice. */
  predicate PostThrows(detached: set<nat>, args: seq<Value>) {
    || Uncloneable in args
    || (exists b :: b in TransferList(args) && b in detached)
    || !Distinct(TransferList(args))
  }

  function SetOf(xs: seq<nat>): set<nat> {
    set x | x in xs
  }
}
