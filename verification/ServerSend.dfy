/**
 The send path of a server's client: writing, the write branch of the event loop, suspending and
 resuming. The kernel is a parameter: it accepts any part of what it is offered, or nothing.
 */
module ServerSend {
  import opened Buffers

  /** The answer of `send`. */
  datatype Kernel = Sent(n: nat) | WouldBlock | Failed

  /** What `_sockets.set` asked the poll for. */
  datatype Interest = Interest(read: bool, write: bool)

  /** An answer that the kernel may give when it is offered `size` bytes; `Sent(0)` is a closed connection. */
  predicate MayAnswer(k: Kernel, size: nat) {
    k.Sent? ==> k.n <= size
  }

  class Client {
    const sendBuffer: Buffer
    var suspended: bool
    var interest: Interest      // as last set
    var open: bool              // in the poll set
    var closing: bool           // in `_closingClients`
    ghost var sent: seq<Byte>       // what the kernel took, over the whole life
    ghost var accepted: seq<Byte>   // what `write` took

    ghost predicate Valid()
      reads this, sendBuffer, sendBuffer.buffer
    {
      && sendBuffer.Valid()
      && (open ==>
            && sent + sendBuffer.Contents() == accepted
            && interest == Interest(!suspended, sendBuffer.Contents() != []))
    }

    constructor ()
      ensures Valid() && open && !suspended && !closing && sent == [] && accepted == [] && fresh(sendBuffer)
      ensures sendBuffer.buffer == null
    {
      sendBuffer := new Buffer();
      suspended, open, closing := false, true, false;
      interest := Interest(true, false);
      sent, accepted := [], [];
    }

    /** `write`. An empty piece of data is offered to the kernel as well, whose answer 0 then counts as a closed connection. */
    method Write(data: seq<Byte>, kernel: Kernel) returns (ok: bool, postponed: nat)
      requires Valid() && open && MayAnswer(kernel, |data|)
      modifies this`interest, this`closing, this`sent, this`accepted, sendBuffer, sendBuffer.buffer
      ensures Valid()
      ensures sendBuffer.buffer == old(sendBuffer.buffer) || fresh(sendBuffer.buffer)
      ensures accepted == if ok then old(accepted) + data else old(accepted)
      ensures ok <==> old(sendBuffer.Contents()) != [] || kernel == WouldBlock || (kernel.Sent? && kernel.n > 0)
      ensures ok ==> postponed == |sendBuffer.Contents()| && closing == old(closing)
      ensures !ok ==> closing && postponed == 0 && sent == old(sent)
      ensures sent == old(sent) + (if old(sendBuffer.Contents()) == [] && kernel.Sent? then data[..kernel.n] else [])
    {
      hide Buffer.Valid, Buffer.Contents, Buffer.IsEmpty, Buffer.Size;
      ghost var before := sendBuffer.Contents();
      sendBuffer.Sizes();
      if sendBuffer.IsEmpty() {
        var n := 0;
        match kernel {
          case WouldBlock =>
          case Failed =>
            closing := true;
            return false, 0;
          case Sent(k) =>
            if k == 0 {
              closing := true;
              assert data[..0] == [];
              return false, 0;
            }
            n := k;
        }
        sent := sent + data[..n];
        accepted := accepted + data;
        assert data[..n] + data[n..] == data;
        if n >= |data| {
          return true, 0;
        }
        sendBuffer.Append(data[n..]);
        interest := if suspended then Interest(false, true) else Interest(true, true);
      } else {
        sendBuffer.Append(data);
        accepted := accepted + data;
        assert sent + (before + data) == sent + before + data;
      }
      sendBuffer.Sizes();
      postponed := sendBuffer.Size();
      ok := true;
    }

    /** The write branch of `run`. Returns whether `onWrite`, or `onClosed`, is called. */
    method Writable(kernel: Kernel) returns (written: bool, closed: bool)
      requires Valid() && open && MayAnswer(kernel, |sendBuffer.Contents()|)
      modifies this`interest, this`open, this`sent, sendBuffer, sendBuffer.buffer
      ensures Valid() && (sendBuffer.buffer == old(sendBuffer.buffer) || sendBuffer.buffer == null)
      ensures closed <==> old(sendBuffer.Contents()) != [] && (kernel == Failed || kernel == Sent(0))
      ensures open <==> !closed
      ensures written <==> !closed && sendBuffer.Contents() == []
      ensures sent == old(sent) + (if kernel.Sent? then old(sendBuffer.Contents())[..kernel.n] else [])
    {
      hide Buffer.Valid, Buffer.Contents, Buffer.IsEmpty, Buffer.Size;
      ghost var before := sendBuffer.Contents();
      sendBuffer.Sizes();
      written, closed := false, false;
      if !sendBuffer.IsEmpty() {
        match kernel {
          case WouldBlock =>
            return;
          case Failed =>
            sendBuffer.Free();
            open := false;
            return false, true;
          case Sent(n) =>
            if n == 0 {
              sendBuffer.Free();
              open := false;
              assert before[..0] == [];
              return false, true;
            }
            assert before == before[..n] + before[n..];
            sendBuffer.RemoveFront(n);
            sent := sent + before[..n];
            assert sendBuffer.Contents() == before[n..];
            assert sent + before[n..] == accepted;
        }
      }
      sendBuffer.Sizes();
      if sendBuffer.IsEmpty() {
        sendBuffer.Free();
        interest := if suspended then Interest(false, false) else Interest(true, false);
        written := true;
      }
    }

    method Suspend()
      requires Valid() && open
      modifies this`suspended, this`interest
      ensures Valid() && suspended
    {
      if suspended {
        return;
      }
      suspended := true;
      interest := if sendBuffer.IsEmpty() then Interest(false, false) else Interest(false, true);
    }

    method Resume()
      requires Valid() && open
      modifies this`suspended, this`interest
      ensures Valid() && !suspended
    {
      if !suspended {
        return;
      }
      suspended := false;
      interest := if sendBuffer.IsEmpty() then Interest(true, false) else Interest(true, true);
    }
  }
}
