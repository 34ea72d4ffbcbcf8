/** The message handler of the worker thread (src/async-worker.ts:42-80). */
module Worker {
  import opened Wire

  /** The one reply to a message. The first case posts a bare Error object, which
      carries neither a `result` nor an `err` property. */
  function ReplyTo(post: Post, native: Native): Reply {
    if Undefined in post.args then Reply(Undefined, None)
    else match native
      case Returns(v) => Reply(v, None)
      case Throws(message) => Reply(SRT_ERROR, Some(message))
  }

  /** One native call the worker has handled. */
  datatype Exec = Exec(post: Post, native: Native)

  /** The worker thread with the two FIFO channels of its port. */
  class WorkerThread {
    var inbox: seq<Post>
    var outbox: seq<Reply>
    ghost var execs: seq<Exec>

    constructor ()
      ensures inbox == [] && outbox == [] && execs == []
    {
      inbox, outbox, execs := [], [], [];
    }

    /** The main thread's `postMessage`. */
    method PostMessage(detached: set<nat>, data: Post, transferList: seq<nat>) returns (threw: bool)
      requires transferList == TransferList(data.args)
      modifies this`inbox
      ensures threw == PostThrows(detached, data.args)
      ensures inbox == if threw then old(inbox) else old(inbox) + [data]
    {
      threw := PostThrows(detached, data.args);
      if !threw {
        inbox := inbox + [data];
      }
    }

    /** Handles the oldest message; `native` is what the native binding answers. */
    method OnMessage(native: Native)
      requires inbox != []
      modifies this
      ensures inbox == old(inbox)[1..]
      ensures outbox == old(outbox) + [ReplyTo(old(inbox)[0], native)]
      ensures execs == old(execs) + [Exec(old(inbox)[0], native)]
    {
      var data := inbox[0];
      inbox := inbox[1..];
      execs := execs + [Exec(data, native)];
      if exists i :: 0 <= i < |data.args| && data.args[i] == Undefined {
        outbox := outbox + [Reply(Undefined, None)];
        return;
      }
      var result;
      match native {
        case Throws(message) =>
          outbox := outbox + [Reply(SRT_ERROR, Some(message))];
          return;
        case Returns(v) => result := v;
      }
      outbox := outbox + [Reply(result, None)];
    }
  }
}
