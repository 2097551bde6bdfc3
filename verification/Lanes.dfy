/** One FIFO queue that holds tasks for many modules: packets at the same module keep their order, so the
    packets at successive modules, read from the exit backwards, always spell the packets in order. */
module Lanes {
  import opened Bytes
  import opened Merge

  type Decoder = Bytestring -> Bytestring

  /** A queued call of the module with configuration index `level`. `id` is history: which chunk it is. */
  datatype Task = Task(level: nat, data: Bytestring, id: Id)

  /** What the modules lo..hi-1 make of `y` on the way back. */
  function Undo(dec: seq<Decoder>, lo: nat, hi: nat, y: Bytestring): Bytestring
    requires hi <= |dec|
    decreases hi
  {
    if hi <= lo then y else Undo(dec, lo, hi - 1, dec[hi - 1](y))
  }

  /** The packets waiting at module `c`, decoded through the modules below `hi`. */
  function Waiting(dec: seq<Decoder>, q: seq<Task>, c: nat, hi: nat): seq<Bytestring>
    requires hi <= |dec|
  {
    if q == [] then []
    else (if q[0].level == c then [Undo(dec, 0, hi, q[0].data)] else []) + Waiting(dec, q[1..], c, hi)
  }

  lemma {:induction false} WaitingConcat(dec: seq<Decoder>, q: seq<Task>, r: seq<Task>, c: nat, hi: nat)
    requires hi <= |dec|
    ensures Waiting(dec, q + r, c, hi) == Waiting(dec, q, c, hi) + Waiting(dec, r, c, hi)
  {
    if q == [] {
      assert q + r == r;
    } else {
      assert (q + r)[1..] == q[1..] + r;
      WaitingConcat(dec, q[1..], r, c, hi);
    }
  }

  lemma {:induction false} WaitingElsewhere(dec: seq<Decoder>, r: seq<Task>, c: nat, hi: nat)
    requires hi <= |dec| && forall i :: 0 <= i < |r| ==> r[i].level != c
    ensures Waiting(dec, r, c, hi) == []
  {
    if r != [] {
      WaitingElsewhere(dec, r[1..], c, hi);
    }
  }

  lemma WaitingOne(dec: seq<Decoder>, x: Task, c: nat, hi: nat)
    requires hi <= |dec|
    ensures Waiting(dec, [x], c, hi) == if x.level == c then [Undo(dec, 0, hi, x.data)] else []
  {
    var one := [x];
    assert one[1..] == [];
  }

  /** The lane at `c` when the front of the queue is taken from it and tasks for other modules are added. */
  lemma LaneLoses(dec: seq<Decoder>, q: seq<Task>, r: seq<Task>, c: nat, hi: nat)
    requires hi <= |dec| && q != [] && q[0].level == c && forall i :: 0 <= i < |r| ==> r[i].level != c
    ensures [Undo(dec, 0, hi, q[0].data)] + Waiting(dec, q[1..] + r, c, hi) == Waiting(dec, q, c, hi)
  {
    WaitingConcat(dec, q[1..], r, c, hi);
    WaitingElsewhere(dec, r, c, hi);
  }

  /** ... and when the front is for another module. */
  lemma LaneGains(dec: seq<Decoder>, q: seq<Task>, r: seq<Task>, c: nat, hi: nat)
    requires hi <= |dec| && q != [] && q[0].level != c
    ensures Waiting(dec, q[1..] + r, c, hi) == Waiting(dec, q, c, hi) + Waiting(dec, r, c, hi)
    ensures (forall i :: 0 <= i < |r| ==> r[i].level != c) ==> Waiting(dec, q[1..] + r, c, hi) == Waiting(dec, q, c, hi)
  {
    WaitingConcat(dec, q[1..], r, c, hi);
    assert Waiting(dec, q, c, hi) == [] + Waiting(dec, q[1..], c, hi) == Waiting(dec, q[1..], c, hi);
    if forall i :: 0 <= i < |r| ==> r[i].level != c {
      WaitingElsewhere(dec, r, c, hi);
    }
  }

  // ----- On the way out: modules 0, 1, 2, ... -----

  /** The packets at modules n, n-1, ..., 0, in that order. */
  function Outward(dec: seq<Decoder>, q: seq<Task>, n: nat): seq<Bytestring>
    requires n <= |dec|
  {
    Waiting(dec, q, n, n) + if n == 0 then [] else Outward(dec, q, n - 1)
  }

  lemma OutwardDef(dec: seq<Decoder>, q: seq<Task>, n: nat)
    requires n <= |dec|
    ensures n > 0 ==> Outward(dec, q, n) == Waiting(dec, q, n, n) + Outward(dec, q, n - 1)
    ensures n == 0 ==> Outward(dec, q, n) == Waiting(dec, q, 0, 0)
  {
  }

  lemma Regroup<T>(v: seq<T>, a: seq<T>, b: seq<T>, c: seq<T>, d: seq<T>)
    requires v + a == b
    ensures v + (a + c) == b + c && (d + v) + (a + c) == d + (b + c)
  {
    assert v + (a + c) == (v + a) + c;
    assert (d + v) + (a + c) == d + (v + (a + c));
  }

  /** Modules below `q[0].level` see nothing of a step of the front task, if nothing is added to them. */
  lemma {:induction false} OutwardBelow(dec: seq<Decoder>, q: seq<Task>, r: seq<Task>, n: nat)
    requires n <= |dec| && q != [] && n < q[0].level && forall i :: 0 <= i < |r| ==> r[i].level > n
    ensures Outward(dec, q[1..] + r, n) == Outward(dec, q, n)
  {
    hide *;
    OutwardDef(dec, q, n);
    OutwardDef(dec, q[1..] + r, n);
    LaneGains(dec, q, r, n, n);
    if n > 0 {
      OutwardBelow(dec, q, r, n - 1);
    }
  }

  /** The front task leaves module `n`. */
  lemma OutwardPop(dec: seq<Decoder>, q: seq<Task>, r: seq<Task>, n: nat)
    requires n <= |dec| && q != [] && n == q[0].level && forall i :: 0 <= i < |r| ==> r[i].level > n
    ensures [Undo(dec, 0, n, q[0].data)] + Outward(dec, q[1..] + r, n) == Outward(dec, q, n)
  {
    hide *;
    OutwardDef(dec, q, n);
    OutwardDef(dec, q[1..] + r, n);
    LaneLoses(dec, q, r, n, n);
    if n > 0 {
      OutwardBelow(dec, q, r, n - 1);
      Regroup([Undo(dec, 0, n, q[0].data)], Waiting(dec, q[1..] + r, n, n), Waiting(dec, q, n, n),
              Outward(dec, q, n - 1), []);
    }
  }

  /** Taking the front task to the next module changes nothing. */
  lemma {:induction false} OutwardHop(dec: seq<Decoder>, q: seq<Task>, y: Task, n: nat)
    requires q != [] && q[0].level < n <= |dec| && y.level == q[0].level + 1
    requires Undo(dec, 0, y.level, y.data) == Undo(dec, 0, q[0].level, q[0].data)
    ensures Outward(dec, q[1..] + [y], n) == Outward(dec, q, n)
  {
    hide *;
    OutwardDef(dec, q, n);
    OutwardDef(dec, q[1..] + [y], n);
    LaneGains(dec, q, [y], n, n);
    if n == y.level {
      WaitingOne(dec, y, n, n);
      OutwardPop(dec, q, [y], n - 1);
      var v := [Undo(dec, 0, n, y.data)];
      Regroup(v, Outward(dec, q[1..] + [y], n - 1), Outward(dec, q, n - 1), [], Waiting(dec, q, n, n));
      NoneRight(Outward(dec, q[1..] + [y], n - 1));
      NoneRight(Outward(dec, q, n - 1));
    } else {
      OutwardHop(dec, q, y, n - 1);
    }
  }

  lemma {:induction false} OutwardPush(dec: seq<Decoder>, q: seq<Task>, x: Task, n: nat)
    requires n <= |dec| && x.level == 0
    ensures Outward(dec, q + [x], n) == Outward(dec, q, n) + [x.data]
  {
    WaitingOne(dec, x, n, n);
    assert Undo(dec, 0, 0, x.data) == x.data;
    hide *;
    OutwardDef(dec, q, n);
    OutwardDef(dec, q + [x], n);
    WaitingConcat(dec, q, [x], n, n);
    if n > 0 {
      NoneRight(Waiting(dec, q, n, n));
      OutwardPush(dec, q, x, n - 1);
      Regroup(Waiting(dec, q, n, n), Outward(dec, q, n - 1), Outward(dec, q, n), [x.data], []);
    }
  }

  lemma {:induction false} OutwardEmpty(dec: seq<Decoder>, n: nat)
    requires n <= |dec|
    ensures Outward(dec, [], n) == []
  {
    if n > 0 {
      OutwardEmpty(dec, n - 1);
    }
  }

  // ----- On the way back: modules n-1, ..., 1, 0 -----

  /** The packets at modules 0, 1, ..., n-1, in that order; a task at module `c` has yet to undo it. */
  function Inward(dec: seq<Decoder>, q: seq<Task>, n: nat): seq<Bytestring>
    requires n <= |dec|
  {
    if n == 0 then [] else Inward(dec, q, n - 1) + Waiting(dec, q, n - 1, n)
  }

  lemma InwardDef(dec: seq<Decoder>, q: seq<Task>, n: nat)
    requires n <= |dec|
    ensures n > 0 ==> Inward(dec, q, n) == Inward(dec, q, n - 1) + Waiting(dec, q, n - 1, n)
    ensures n == 0 ==> Inward(dec, q, n) == []
  {
  }

  /** The front task is not among these modules, and what is added is at the last of them or beyond. */
  lemma {:induction false} InwardJoin(dec: seq<Decoder>, q: seq<Task>, r: seq<Task>, n: nat)
    requires n <= |dec| && q != [] && q[0].level >= n && forall i :: 0 <= i < |r| ==> r[i].level + 1 >= n
    ensures n == 0 ==> Inward(dec, q[1..] + r, n) == Inward(dec, q, n) == []
    ensures n > 0 ==> Inward(dec, q[1..] + r, n) == Inward(dec, q, n) + Waiting(dec, r, n - 1, n)
  {
    hide *;
    InwardDef(dec, q, n);
    InwardDef(dec, q[1..] + r, n);
    if n > 0 {
      LaneGains(dec, q, r, n - 1, n);
      InwardBelow(dec, q, r, n - 1);
      Regroup(Inward(dec, q, n - 1), Waiting(dec, q, n - 1, n), Inward(dec, q, n), Waiting(dec, r, n - 1, n), []);
    }
  }

  lemma {:induction false} InwardBelow(dec: seq<Decoder>, q: seq<Task>, r: seq<Task>, n: nat)
    requires n <= |dec| && q != [] && q[0].level >= n && forall i :: 0 <= i < |r| ==> r[i].level >= n
    ensures Inward(dec, q[1..] + r, n) == Inward(dec, q, n)
  {
    hide *;
    InwardDef(dec, q, n);
    InwardDef(dec, q[1..] + r, n);
    if n > 0 {
      LaneGains(dec, q, r, n - 1, n);
      InwardBelow(dec, q, r, n - 1);
    }
  }

  /** Taking the front task to the previous module changes nothing. */
  lemma {:induction false} InwardHop(dec: seq<Decoder>, q: seq<Task>, y: Task, n: nat)
    requires q != [] && y.level + 1 == q[0].level < n <= |dec|
    requires Undo(dec, 0, y.level + 1, y.data) == Undo(dec, 0, q[0].level + 1, q[0].data)
    ensures Inward(dec, q[1..] + [y], n) == Inward(dec, q, n)
  {
    hide *;
    InwardDef(dec, q, n);
    InwardDef(dec, q[1..] + [y], n);
    if n == q[0].level + 1 {
      var v := [Undo(dec, 0, n, q[0].data)];
      LaneLoses(dec, q, [y], n - 1, n);
      InwardJoin(dec, q, [y], n - 1);
      WaitingOne(dec, y, n - 2, n - 1);
      Regroup(v, Waiting(dec, q[1..] + [y], n - 1, n), Waiting(dec, q, n - 1, n), [], Inward(dec, q, n - 1));
      NoneRight(Waiting(dec, q[1..] + [y], n - 1, n));
      NoneRight(Waiting(dec, q, n - 1, n));
    } else {
      LaneGains(dec, q, [y], n - 1, n);
      InwardHop(dec, q, y, n - 1);
    }
  }

  /** The packet at module 0 leaves. */
  lemma {:induction false} InwardExit(dec: seq<Decoder>, q: seq<Task>, n: nat)
    requires 0 < n <= |dec| && q != [] && q[0].level == 0
    ensures [Undo(dec, 0, 1, q[0].data)] + Inward(dec, q[1..], n) == Inward(dec, q, n)
  {
    hide *;
    InwardDef(dec, q, n);
    InwardDef(dec, q[1..], n);
    NoneRight(q[1..]);
    var v := [Undo(dec, 0, 1, q[0].data)];
    if n == 1 {
      LaneLoses(dec, q, [], 0, 1);
      InwardDef(dec, q, 0);
      InwardDef(dec, q[1..], 0);
      assert [] + Waiting(dec, q, 0, 1) == Waiting(dec, q, 0, 1);
      assert [] + Waiting(dec, q[1..], 0, 1) == Waiting(dec, q[1..], 0, 1);
    } else {
      LaneGains(dec, q, [], n - 1, n);
      InwardExit(dec, q, n - 1);
      Regroup(v, Inward(dec, q[1..], n - 1), Inward(dec, q, n - 1), Waiting(dec, q, n - 1, n), []);
    }
  }

  /** Tasks beyond these modules do not count. */
  lemma {:induction false} InwardAdd(dec: seq<Decoder>, q: seq<Task>, r: seq<Task>, n: nat)
    requires n <= |dec| && forall i :: 0 <= i < |r| ==> r[i].level >= n
    ensures Inward(dec, q + r, n) == Inward(dec, q, n)
  {
    if n > 0 {
      WaitingConcat(dec, q, r, n - 1, n);
      WaitingElsewhere(dec, r, n - 1, n);
      InwardAdd(dec, q, r, n - 1);
    }
  }

  lemma {:induction false} InwardEmpty(dec: seq<Decoder>, n: nat)
    requires n <= |dec|
    ensures Inward(dec, [], n) == []
  {
    if n > 0 {
      InwardEmpty(dec, n - 1);
    }
  }

  /** Tasks for module `c` alone, decoded one by one. */
  lemma {:induction false} WaitingAll(dec: seq<Decoder>, r: seq<Task>, c: nat, hi: nat, v: seq<Bytestring>)
    requires hi <= |dec| && |v| == |r|
    requires forall i :: 0 <= i < |r| ==> r[i].level == c && Undo(dec, 0, hi, r[i].data) == v[i]
    ensures Waiting(dec, r, c, hi) == v
  {
    if r != [] {
      WaitingAll(dec, r[1..], c, hi, v[1..]);
    }
  }
}
