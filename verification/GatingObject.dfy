/** The client's table of external connections as it runs, on top of the kernel's handler table. */
module GatingObject {
  import opened Gating
  import K = Kernel

  class ClientConns {
    var conns: map<nat, Conn>
    var dcPaused: bool
    const kernel: K.KernelObject

    function View(): Client
      reads this, kernel
    {
      Client(conns, kernel.View())
    }

    constructor ()
      ensures View() == INIT && !dcPaused && fresh(kernel)
    {
      conns, dcPaused := map[], false;
      kernel := new K.KernelObject();
    }

    method SetEpollin(fd: int, on: bool)
      requires K.Inv(kernel.View())
      modifies kernel
      ensures kernel.View() == SetReading(old(kernel.View()), fd, on) && K.Inv(kernel.View())
    {
      if on {
        kernel.Mod(fd, K.IN, K.NONE);
      } else {
        kernel.Mod(fd, K.NONE, K.IN);
      }
    }

    /** The handler bodies for one connection: pause, resume and gate. */
    method HandleOne(id: nat, a: Action)
      requires Inv(View())
      modifies this`conns, kernel
      ensures View() == ActOn(old(View()), id, a) && Inv(View())
    {
      ActOnKeeps(View(), id, a);
      hide Inv, SetReading, K.ModFdEvents;
      if id !in conns {
        return;
      }
      KernelInv(View());
      var c := conns[id];
      match a
      case Pause(src) =>
        conns := conns[id := WithSource(c, src, true)];
        if c.fd >= 0 {
          SetEpollin(c.fd, false);
        }
      case Resume(src) =>
        c := WithSource(c, src, false);
        conns := conns[id := c];
        if c.fd >= 0 && !Paused(c) {
          SetEpollin(c.fd, true);
        }
      case Gate(bp0) =>
        if c.fd < 0 {
          assert conns[id := c] == conns;
          return;
        }
        if Paused(c) || bp0 {
          if !c.epollinRemoved {
            conns := conns[id := c.(epollinRemoved := true)];
            SetEpollin(c.fd, false);
          } else {
            assert conns[id := c] == conns;
          }
        } else if c.epollinRemoved {
          conns := conns[id := c.(epollinRemoved := false)];
          SetEpollin(c.fd, true);
        } else {
          assert conns[id := c] == conns;
        }
    }

    /** The loops over all connections; `ids` is the order in which the table is walked. */
    method HandleAll(ids: seq<nat>, a: Action)
      requires Inv(View())
      modifies this`conns, kernel
      ensures View() == ActOnAll(old(View()), ids, a) && Inv(View())
    {
      hide Inv, ActOn;
      var i := 0;
      assert ids[0..] == ids;
      while i < |ids|
        invariant 0 <= i <= |ids| && Inv(View())
        invariant ActOnAll(View(), ids[i..], a) == ActOnAll(old(View()), ids, a)
      {
        assert ids[i..][1..] == ids[i + 1..];
        HandleOne(ids[i], a);
        i := i + 1;
      }
    }

    /** The overflow check of `process_pending_io`, with its two thresholds. */
    method CheckOverflow(dcSize: nat, ids: seq<nat>)
      requires Inv(View())
      modifies this, kernel
      ensures Inv(View())
      ensures dcPaused == (dcSize > 1048576 || (old(dcPaused) && dcSize >= 262144))
      ensures View() == if dcPaused == old(dcPaused) then old(View())
                        else ActOnAll(old(View()), ids, if dcPaused then Pause(Overflow) else Resume(Overflow))
    {
      if dcSize > 1024 * 1024 {
        if !dcPaused {
          dcPaused := true;
          HandleAll(ids, Pause(Overflow));
        }
      } else if dcSize < 256 * 1024 && dcPaused {
        dcPaused := false;
        HandleAll(ids, Resume(Overflow));
      }
    }
  }

  lemma KernelInv(cl: Client)
    requires Inv(cl)
    ensures K.Inv(cl.kernel)
  {
  }
}
