/** The two endpoint objects, whose handlers update their fields in place. Each handler is
    proved to compute the value function that the runs of `Protocol` are made of. The
    asynchronous operations an object has started are its fields `writeOps` and `readOp`;
    the I/O service removes an operation from `writeOps` before it calls the handler. */
module Endpoints {
  import opened Bytes
  import opened SocketMessage
  import S = Sending
  import R = Reading

  /** `socket_session` of the server. */
  class SocketSession {
    const readMsg: SocketMsg
    var writeMsgs: seq<Msg>
    var writeOps: seq<S.WriteOp>
    var readOp: R.ReadOp
    var handed: seq<seq<Byte>>

    ghost predicate Valid()
      reads this, readMsg
    {
      readMsg.Valid()
    }

    ghost function Tx(): S.Sender
      reads this
    {
      S.Sender(S.Server, writeMsgs, writeOps, true)
    }

    ghost function Rx(): R.Reader
      requires Valid()
      reads this, readMsg, readMsg.data
    {
      R.Reader(S.Server, readMsg.Value(), readOp, true, handed)
    }

    constructor ()
      ensures Valid() && fresh(readMsg) && fresh(readMsg.data)
      ensures Tx() == S.Init(S.Server).sender
      ensures Rx() == R.Start(S.Server, readMsg.Value()).(op := R.NoRead)
    {
      readMsg := new SocketMsg();
      writeMsgs, writeOps := [], [];
      readOp, handed := R.NoRead, [];
    }

    /** Turns a new session into the reader that the runs start from. */
    method Start()
      requires Valid()
      modifies this
      ensures Valid() && Tx() == old(Tx())
      ensures Rx() == old(Rx()).(op := R.HeaderRead(0))
    {
      readOp := R.HeaderRead(0);
    }

    method Deliver(msg: Msg)
      requires Valid()
      modifies this
      ensures Valid() && Tx() == S.Deliver(old(Tx()), msg) && Rx() == old(Rx())
    {
      var writeInProgress := writeMsgs != [];
      writeMsgs := writeMsgs + [msg];
      if !writeInProgress {
        writeOps := writeOps + [S.WriteOp(writeMsgs[0], 0)];
      }
    }

    method HandleReadHeader(error: bool)
      requires Valid()
      modifies this, readMsg
      ensures Valid() && Rx() == R.HandleReadHeader(old(Rx()), error) && Tx() == old(Tx())
      ensures readOp == if !error && DecodeHeader(old(readMsg.Value())).1 then R.BodyRead(0) else R.NoRead
    {
      var ok := false;
      if !error {
        ok := readMsg.DecodeHeaderInPlace();
      }
      readOp := if ok then R.BodyRead(0) else R.NoRead;
    }

    method HandleReadBody(error: bool)
      requires Valid()
      modifies this
      ensures Valid() && Rx() == R.HandleReadBody(old(Rx()), error) && Tx() == old(Tx())
      ensures handed == old(handed) + if error then [] else [Body(readMsg.Value())]
      ensures readOp == if error then R.NoRead else R.HeaderRead(0)
    {
      readOp := R.NoRead;
      if !error {
        handed := handed + [Body(readMsg.Value())];
        readOp := R.HeaderRead(0);
      }
    }

    method HandleWrite(error: bool)
      requires Valid()
      requires !error ==> writeMsgs != []
      modifies this
      ensures Valid() && Tx() == S.HandleWrite(old(Tx()), error) && Rx() == old(Rx())
    {
      if !error {
        writeMsgs := writeMsgs[1..];
        if writeMsgs != [] {
          writeOps := writeOps + [S.WriteOp(writeMsgs[0], 0)];
        }
      }
    }
  }

  /** `chat_client`: the same protocol, but every error closes the socket. */
  class ChatClient {
    const readMsg: SocketMsg
    var writeMsgs: seq<Msg>
    var writeOps: seq<S.WriteOp>
    var readOp: R.ReadOp
    var handed: seq<seq<Byte>>
    var open: bool
    var posted: seq<Msg>   // calls of do_write handed to the I/O service and not yet run

    ghost predicate Valid()
      reads this, readMsg
    {
      readMsg.Valid()
    }

    ghost function Tx(): S.Sender
      reads this
    {
      S.Sender(S.Client, writeMsgs, writeOps, open)
    }

    ghost function Rx(): R.Reader
      requires Valid()
      reads this, readMsg, readMsg.data
    {
      R.Reader(S.Client, readMsg.Value(), readOp, open, handed)
    }

    constructor ()
      ensures Valid() && fresh(readMsg) && fresh(readMsg.data)
      ensures Tx() == S.Init(S.Client).sender
      ensures Rx() == R.Start(S.Client, readMsg.Value()).(op := R.NoRead)
      ensures posted == []
    {
      readMsg := new SocketMsg();
      writeMsgs, writeOps := [], [];
      readOp, handed, open, posted := R.NoRead, [], true, [];
    }

    method DoClose()
      modifies this`open
      ensures !open
    {
      open := false;
    }

    method HandleConnect(error: bool)
      requires Valid()
      modifies this
      ensures posted == old(posted)
      ensures Valid() && Tx() == old(Tx())
      ensures Rx() == if error then old(Rx()) else old(Rx()).(op := R.HeaderRead(0))
    {
      if !error {
        readOp := R.HeaderRead(0);
      }
    }

    method HandleReadHeader(error: bool)
      requires Valid()
      modifies this, readMsg
      ensures posted == old(posted)
      ensures Valid() && Rx() == R.HandleReadHeader(old(Rx()), error)
      ensures Tx() == old(Tx()).(open := open)
      ensures var accepted := !error && DecodeHeader(old(readMsg.Value())).1;
              open == (old(open) && accepted) && readOp == if accepted then R.BodyRead(0) else R.NoRead
    {
      var ok := false;
      if !error {
        ok := readMsg.DecodeHeaderInPlace();
      }
      if ok {
        readOp := R.BodyRead(0);
      } else {
        readOp := R.NoRead;
        DoClose();
      }
    }

    method HandleReadBody(error: bool)
      requires Valid()
      modifies this
      ensures posted == old(posted)
      ensures Valid() && Rx() == R.HandleReadBody(old(Rx()), error)
      ensures Tx() == old(Tx()).(open := open)
      ensures open == (old(open) && !error)
      ensures handed == old(handed) + if error then [] else [Body(readMsg.Value())]
      ensures readOp == if error then R.NoRead else R.HeaderRead(0)
    {
      if !error {
        handed := handed + [Body(readMsg.Value())];
        readOp := R.HeaderRead(0);
      } else {
        readOp := R.NoRead;
        DoClose();
      }
    }

    method DoWrite(msg: Msg)
      requires Valid()
      modifies this
      ensures posted == old(posted)
      ensures Valid() && Tx() == S.Deliver(old(Tx()), msg) && Rx() == old(Rx())
    {
      var writeInProgress := writeMsgs != [];
      writeMsgs := writeMsgs + [msg];
      if !writeInProgress {
        writeOps := writeOps + [S.WriteOp(writeMsgs[0], 0)];
      }
    }

    method HandleWrite(error: bool)
      requires Valid()
      requires !error ==> writeMsgs != []
      modifies this
      ensures posted == old(posted)
      ensures Valid() && Tx() == S.HandleWrite(old(Tx()), error)
      ensures Rx() == old(Rx()).(open := open) && open == (old(open) && !error)
      ensures error ==> writeMsgs == old(writeMsgs) && writeOps == old(writeOps)
    {
      if !error {
        writeMsgs := writeMsgs[1..];
        if writeMsgs != [] {
          writeOps := writeOps + [S.WriteOp(writeMsgs[0], 0)];
        }
      } else {
        DoClose();
      }
    }

    /** Called from another thread: the write itself runs later, on the thread of the handlers. */
    method Write(msg: Msg)
      modifies `posted
      ensures posted == old(posted) + [msg]
    {
      posted := posted + [msg];
    }

    /** The I/O service runs the oldest posted write; other handlers may run in between. */
    method RunPosted()
      requires Valid() && posted != []
      modifies this
      ensures Valid() && posted == old(posted)[1..]
      ensures Tx() == S.Deliver(old(Tx()), old(posted)[0]) && Rx() == old(Rx())
    {
      var msg := posted[0];
      posted := posted[1..];
      DoWrite(msg);
    }

    /** One line of input, posted `copies` times as one encoded and clipped message. */
    method SendLine(line: seq<Byte>, copies: int) returns (m: Msg)
      modifies `posted
      ensures Encoded(m) && Body(m) == Clip(line)
      ensures posted == old(posted) + Copies(m, copies)
    {
      var msg := new SocketMsg();
      msg.Fill(line);
      m := msg.Value();
      var i := 0;
      while i < copies
        invariant 0 <= i && (i <= copies || i == 0)
        invariant posted == old(posted) + Copies(m, i)
      {
        Write(m);
        i := i + 1;
      }
      NoCopies(m, copies);
    }
  }

  /** n times the same message, none for a negative n. */
  function Copies(m: Msg, n: int): (r: seq<Msg>)
    ensures |r| == if n < 0 then 0 else n
    ensures forall i :: 0 <= i < |r| ==> r[i] == m
  {
    if n <= 0 then [] else Copies(m, n - 1) + [m]
  }

  lemma NoCopies(m: Msg, n: int)
    ensures n <= 0 ==> Copies(m, n) == Copies(m, 0)
  {
  }
}
