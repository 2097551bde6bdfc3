/** File-descriptor interest in core/kernel.cpp, with the epoll set as an abstract map. */
module Kernel {

  /** A set of event bits: EPOLLIN and EPOLLOUT. */
  datatype Mask = Mask(isIn: bool, isOut: bool)

  const NONE := Mask(false, false)
  const IN := Mask(true, false)
  const OUT := Mask(false, true)

  function Union(a: Mask, b: Mask): Mask
  {
    Mask(a.isIn || b.isIn, a.isOut || b.isOut)
  }

  function Minus(a: Mask, b: Mask): Mask
  {
    Mask(a.isIn && !b.isIn, a.isOut && !b.isOut)
  }

  datatype FdState = FdState(inCb: bool, outCb: bool, events: Mask)

  datatype State = State(handlers: map<int, FdState>, epoll: map<int, Mask>)

  const INIT := State(map[], map[])

  // ----- epoll_ctl: ADD fails on a member, MOD and DEL on a non-member, without effect -----

  function EpollAdd(e: map<int, Mask>, fd: int, m: Mask): map<int, Mask>
  {
    if fd in e then e else e[fd := m]
  }

  function EpollMod(e: map<int, Mask>, fd: int, m: Mask): map<int, Mask>
  {
    if fd in e then e[fd := m] else e
  }

  function EpollDel(e: map<int, Mask>, fd: int): map<int, Mask>
  {
    e - {fd}
  }

  // ----- The three operations -----

  function AddFdHandler(k: State, fd: int, events: Mask): State
  {
    var was := if fd in k.handlers then k.handlers[fd] else FdState(false, false, NONE);
    var s := FdState(was.inCb || events.isIn, was.outCb || events.isOut, Union(was.events, events));
    State(k.handlers[fd := s],
          if fd in k.epoll then EpollMod(k.epoll, fd, s.events) else EpollAdd(k.epoll, fd, s.events))
  }

  function ModFdEvents(k: State, fd: int, add: Mask, remove: Mask): State
  {
    if fd !in k.handlers then k
    else
      var was := k.handlers[fd];
      var s := was.(events := Minus(Union(was.events, add), remove));
      var e :=
        if s.events == NONE || (!s.inCb && !s.outCb) then EpollDel(k.epoll, fd)
        else if was.events == NONE then EpollAdd(k.epoll, fd, s.events)
        else EpollMod(k.epoll, fd, s.events);
      State(k.handlers[fd := s], e)
  }

  function DelFd(k: State, fd: int): State
  {
    State(k.handlers - {fd}, EpollDel(k.epoll, fd))
  }

  /** The epoll set is exactly what the handlers ask for. */
  predicate Agrees(k: State, fd: int)
  {
    && (fd in k.handlers && k.handlers[fd].events != NONE <==> fd in k.epoll)
    && (fd in k.epoll ==> k.epoll[fd] == k.handlers[fd].events)
    && (fd in k.handlers ==> k.handlers[fd].inCb || k.handlers[fd].outCb)
  }

  ghost predicate Inv(k: State)
  {
    forall fd: int :: Agrees(k, fd)
  }

  /** `add_fd_handler` keeps the two in agreement if and only if it leaves some event: without one the descriptor
      becomes a member of the epoll set that waits for nothing, and a later change of its events fails. */
  lemma AddKeepsIff(k: State, fd: int, events: Mask)
    requires Inv(k)
    ensures Inv(AddFdHandler(k, fd, events)) <==>
            events != NONE || (fd in k.handlers && k.handlers[fd].events != NONE)
  {
    var k' := AddFdHandler(k, fd, events);
    assert Agrees(k, fd);
    if events != NONE || (fd in k.handlers && k.handlers[fd].events != NONE) {
      forall f: int
        ensures Agrees(k', f)
      {
        assert Agrees(k, f);
      }
    } else {
      assert !Agrees(k', fd);
    }
  }

  lemma ModKeeps(k: State, fd: int, add: Mask, remove: Mask)
    requires Inv(k)
    ensures Inv(ModFdEvents(k, fd, add, remove))
  {
    var k' := ModFdEvents(k, fd, add, remove);
    forall f: int
      ensures Agrees(k', f)
    {
      assert Agrees(k, f);
    }
  }

  /** What `mod_fd_events` does to the events, and that it leaves other descriptors alone: a bit is set afterwards if
      and only if it was set or is added, and is not removed. */
  lemma ModExact(k: State, fd: int, add: Mask, remove: Mask, other: int)
    requires Inv(k)
    ensures var k' := ModFdEvents(k, fd, add, remove);
            && k'.handlers.Keys == k.handlers.Keys
            && (fd in k.handlers ==>
                  var was, now := k.handlers[fd].events, k'.handlers[fd].events;
                  && (now.isIn <==> (was.isIn || add.isIn) && !remove.isIn)
                  && (now.isOut <==> (was.isOut || add.isOut) && !remove.isOut)
                  && (fd in k'.epoll <==> now.isIn || now.isOut)
                  && (fd in k'.epoll ==> k'.epoll[fd] == now)
                  && k'.handlers[fd].inCb == k.handlers[fd].inCb && k'.handlers[fd].outCb == k.handlers[fd].outCb)
            && (other != fd ==> Untouched(k, k', other))
  {
    ModKeeps(k, fd, add, remove);
    assert Agrees(ModFdEvents(k, fd, add, remove), fd);
    hide Inv;
  }

  /** The same for `add_fd_handler`: a bit is set afterwards if and only if it was set or is added. */
  lemma AddExact(k: State, fd: int, events: Mask, other: int)
    requires Inv(k)
    ensures var k' := AddFdHandler(k, fd, events);
            && k'.handlers.Keys == k.handlers.Keys + {fd}
            && (var was, now := if fd in k.handlers then k.handlers[fd].events else NONE, k'.handlers[fd].events;
                && (now.isIn <==> was.isIn || events.isIn) && (now.isOut <==> was.isOut || events.isOut)
                && fd in k'.epoll && k'.epoll[fd] == now)
            && (var had := if fd in k.handlers then k.handlers[fd] else FdState(false, false, NONE);
                && (k'.handlers[fd].inCb <==> had.inCb || events.isIn)
                && (k'.handlers[fd].outCb <==> had.outCb || events.isOut))
            && (other != fd ==> Untouched(k, k', other))
  {
    assert Agrees(k, fd);
    hide Inv;
  }

  /** And for `del_fd`. */
  lemma DelExact(k: State, fd: int, other: int)
    ensures var k' := DelFd(k, fd);
            fd !in k'.handlers && fd !in k'.epoll && (other != fd ==> Untouched(k, k', other))
  {
  }

  predicate Untouched(k: State, k': State, fd: int)
  {
    && (fd in k'.handlers <==> fd in k.handlers) && (fd in k.handlers ==> k'.handlers[fd] == k.handlers[fd])
    && (fd in k'.epoll <==> fd in k.epoll) && (fd in k.epoll ==> k'.epoll[fd] == k.epoll[fd])
  }

  lemma DelKeeps(k: State, fd: int)
    requires Inv(k)
    ensures Inv(DelFd(k, fd))
  {
    forall f: int
      ensures Agrees(DelFd(k, fd), f)
    {
      assert Agrees(k, f);
    }
  }

  /** The kernel's handler table next to the epoll instance it drives. */
  class KernelObject {
    var fdToHandler: map<int, FdState>
    var epoll: map<int, Mask>

    function View(): State
      reads this
    {
      State(fdToHandler, epoll)
    }

    constructor ()
      ensures View() == INIT
    {
      fdToHandler, epoll := map[], map[];
    }

    /** `epoll_ctl` with EPOLL_CTL_ADD; false when the descriptor is already there. */
    method CtlAdd(fd: int, m: Mask) returns (ok: bool)
      modifies this`epoll
      ensures ok == (fd !in old(epoll)) && epoll == EpollAdd(old(epoll), fd, m)
    {
      ok := fd !in epoll;
      if ok {
        epoll := epoll[fd := m];
      }
    }

    method Add(fd: int, events: Mask)
      requires Inv(View())
      modifies this
      ensures View() == AddFdHandler(old(View()), fd, events)
      ensures Inv(View()) <==> events != NONE || (fd in old(fdToHandler) && old(fdToHandler)[fd].events != NONE)
    {
      AddKeepsIff(View(), fd, events);
      hide Inv;
      var s := if fd in fdToHandler then fdToHandler[fd] else FdState(false, false, NONE);
      if events.isIn {
        s := s.(inCb := true);
      }
      if events.isOut {
        s := s.(outCb := true);
      }
      s := s.(events := Union(s.events, events));
      fdToHandler := fdToHandler[fd := s];
      var ok := CtlAdd(fd, s.events);
      if !ok {
        epoll := EpollMod(epoll, fd, s.events);
      }
    }

    method Mod(fd: int, add: Mask, remove: Mask)
      requires Inv(View())
      modifies this
      ensures View() == ModFdEvents(old(View()), fd, add, remove)
      ensures Inv(View())
    {
      ModKeeps(View(), fd, add, remove);
      hide Inv;
      if fd !in fdToHandler {
        return;
      }
      var s := fdToHandler[fd];
      var wasEmpty := s.events == NONE;
      s := s.(events := Minus(Union(s.events, add), remove));
      fdToHandler := fdToHandler[fd := s];
      if s.events == NONE || (!s.inCb && !s.outCb) {
        epoll := EpollDel(epoll, fd);
        return;
      }
      if wasEmpty {
        var _ := CtlAdd(fd, s.events);
      } else {
        epoll := EpollMod(epoll, fd, s.events);
      }
    }

    method Del(fd: int)
      requires Inv(View())
      modifies this
      ensures View() == DelFd(old(View()), fd)
      ensures Inv(View())
    {
      DelKeeps(View(), fd);
      epoll := EpollDel(epoll, fd);
      fdToHandler := fdToHandler - {fd};
    }
  }
}
