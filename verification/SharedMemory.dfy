/** The publication protocol with arbitrary interleaving: one writer that tries the
    semaphore, any number of readers that wait for it, and copies that move one byte at a
    time. The semaphore starts at 1 and no holder dies. */
module SharedMemory {
  import opened Publication

  /** A received state frame with the timestamp and axis words that go into its image. */
  datatype RawFrame = RawFrame(bytes: seq<byte>, stamp: Word, axes: seq<Word>)

  type Frame = f: RawFrame | |f.bytes| == FRAME_SIZE && |f.axes| == 4
    witness RawFrame(Zeros(FRAME_SIZE), Zeros(8), [Zeros(8), Zeros(8), Zeros(8), Zeros(8)])

  function Pic(f: Frame): Picture {
    Image(f.bytes, f.stamp, f.axes)
  }

  datatype Writer = Idle | Offering(frame: Frame) | Writing(frame: Frame, k: nat)

  datatype Reader = Waiting(lo: nat, hi: nat) | Reading(lo: nat, hi: nat, buf: seq<byte>)

  /** A finished read of `shm[lo..hi]`; `epoch` counts the frames committed by then. */
  datatype Taken = Taken(lo: nat, hi: nat, bytes: seq<byte>, epoch: nat)

  datatype World = World(
    shm: seq<byte>,
    sem: nat,
    writer: Writer,
    readers: map<nat, Reader>,
    offered: seq<Frame>,
    committed: seq<Frame>,
    dropped: nat,
    taken: seq<Taken>)

  datatype Action =
    | Receive(datagram: seq<byte>, stamp: Word, axes: seq<Word>)
    | TryWait
    | CopyByte
    | Post
    | Arrive(r: nat, lo: nat, hi: nat)
    | Acquire(r: nat)
    | LoadByte(r: nat)
    | Release(r: nat)

  const INITIAL: World := World(Zeros(REGION_SIZE), 1, Idle, map[], [], [], 0, [])

  /** One atomic step; an action that is not enabled leaves the world as it is. */
  function Step(w: World, a: Action): World {
    match a
    case Receive(d, stamp, axes) =>
      if w.writer.Idle? && |d| >= FRAME_SIZE && |axes| == 4 then
        var frame: Frame := RawFrame(d[..FRAME_SIZE], stamp, axes);
        w.(writer := Offering(frame), offered := w.offered + [frame])
      else w
    case TryWait =>
      if !w.writer.Offering? then w
      else if w.sem > 0 then w.(sem := w.sem - 1, writer := Writing(w.writer.frame, 0))
      else w.(writer := Idle, dropped := w.dropped + 1)
    case CopyByte =>
      if w.writer.Writing? && w.writer.k < IMAGE_SIZE && w.writer.k < |w.shm|
      then
        var byte := Pic(w.writer.frame)[w.writer.k];
        w.(shm := w.shm[w.writer.k := byte], writer := Writing(w.writer.frame, w.writer.k + 1))
      else w
    case Post =>
      if w.writer.Writing? && w.writer.k == IMAGE_SIZE
      then w.(sem := w.sem + 1, writer := Idle, committed := w.committed + [w.writer.frame])
      else w
    case Arrive(r, lo, hi) =>
      if r !in w.readers && lo <= hi <= |w.shm| then w.(readers := w.readers[r := Waiting(lo, hi)]) else w
    case Acquire(r) =>
      if r in w.readers && w.readers[r].Waiting? && w.sem > 0
      then w.(sem := w.sem - 1, readers := w.readers[r := Reading(w.readers[r].lo, w.readers[r].hi, [])])
      else w
    case LoadByte(r) =>
      if r in w.readers && w.readers[r].Reading? && w.readers[r].lo + |w.readers[r].buf| < w.readers[r].hi <= |w.shm|
      then
        var q := w.readers[r];
        w.(readers := w.readers[r := q.(buf := q.buf + [w.shm[q.lo + |q.buf|]])])
      else w
    case Release(r) =>
      if r in w.readers && w.readers[r].Reading? && w.readers[r].lo + |w.readers[r].buf| == w.readers[r].hi
      then
        var q := w.readers[r];
        w.(sem := w.sem + 1, readers := w.readers - {r}, taken := w.taken + [Taken(q.lo, q.hi, q.buf, |w.committed|)])
      else w
  }

  function Run(actions: seq<Action>): World {
    if actions == [] then INITIAL else Step(Run(actions[..|actions| - 1]), actions[|actions| - 1])
  }

  // ---- Invariant ----

  /** The region as the `epoch`-th committed frame left it; all zeros before the first. */
  function Published(committed: seq<Frame>, epoch: nat): (s: seq<byte>)
    requires epoch <= |committed|
    ensures |s| == REGION_SIZE
  {
    if epoch == 0 then Zeros(REGION_SIZE) else Pic(committed[epoch - 1]) + Zeros(REGION_SIZE - IMAGE_SIZE)
  }

  function Current(w: World): seq<byte> {
    Published(w.committed, |w.committed|)
  }

  function Holders(readers: map<nat, Reader>): set<nat> {
    set r | r in readers && readers[r].Reading?
  }

  ghost predicate OneHolder(w: World) {
    w.sem + |Holders(w.readers)| + (if w.writer.Writing? then 1 else 0) == 1
  }

  ghost predicate MemoryInv(w: World) {
    match w.writer
    case Writing(frame, k) => k <= IMAGE_SIZE && w.shm == Pic(frame)[..k] + Current(w)[k..]
    case _ => w.shm == Current(w)
  }

  ghost predicate ReaderOk(q: Reader, region: seq<byte>) {
    match q
    case Waiting(lo, hi) => lo <= hi <= |region|
    case Reading(lo, hi, buf) => lo + |buf| <= hi <= |region| && buf == region[lo..lo + |buf|]
  }

  ghost predicate ReaderInv(w: World) {
    forall r :: r in w.readers ==> ReaderOk(w.readers[r], Current(w))
  }

  ghost predicate TakenInv(w: World) {
    && (forall i :: 0 <= i < |w.taken| ==>
          var t := w.taken[i];
          && t.lo <= t.hi <= REGION_SIZE && t.epoch <= |w.committed|
          && t.bytes == Published(w.committed, t.epoch)[t.lo..t.hi])
    && (forall i, j :: 0 <= i < j < |w.taken| ==> w.taken[i].epoch <= w.taken[j].epoch)
  }

  /** `a` can be obtained from `b` by deleting entries. */
  ghost predicate Subsequence<T>(a: seq<T>, b: seq<T>) {
    if a == [] then true
    else if b == [] then false
    else if a[|a| - 1] == b[|b| - 1] then Subsequence(a[..|a| - 1], b[..|b| - 1]) || Subsequence(a, b[..|b| - 1])
    else Subsequence(a, b[..|b| - 1])
  }

  /** Every accepted frame is committed, dropped, or still with the writer, in order. */
  ghost predicate OrderInv(w: World) {
    && |w.offered| == |w.committed| + w.dropped + (if w.writer.Idle? then 0 else 1)
    && (if w.writer.Idle? then Subsequence(w.committed, w.offered)
        else
          && w.offered[|w.offered| - 1] == w.writer.frame
          && Subsequence(w.committed, w.offered[..|w.offered| - 1]))
  }

  ghost predicate Inv(w: World) {
    OneHolder(w) && MemoryInv(w) && ReaderInv(w) && TakenInv(w) && OrderInv(w)
  }

  lemma SubsequenceSkip<T>(a: seq<T>, b: seq<T>, x: T)
    requires Subsequence(a, b)
    ensures Subsequence(a, b + [x])
  {
    assert (b + [x])[..|b|] == b;
  }

  lemma SubsequenceTake<T>(a: seq<T>, b: seq<T>, x: T)
    requires Subsequence(a, b)
    ensures Subsequence(a + [x], b + [x])
  {
    assert (b + [x])[..|b|] == b && (a + [x])[..|a|] == a;
  }

  /** A new or updated reader that does not hold the semaphore more than before. */
  lemma HoldersSame(readers: map<nat, Reader>, r: nat, q: Reader)
    requires q.Reading? <==> r in readers && readers[r].Reading?
    ensures Holders(readers[r := q]) == Holders(readers)
  {
  }

  lemma HoldersGrow(readers: map<nat, Reader>, r: nat, q: Reader)
    requires q.Reading? && !(r in readers && readers[r].Reading?)
    ensures |Holders(readers[r := q])| == |Holders(readers)| + 1
  {
    assert Holders(readers[r := q]) == Holders(readers) + {r};
  }

  lemma HoldersShrink(readers: map<nat, Reader>, r: nat)
    requires r in readers && readers[r].Reading?
    ensures |Holders(readers - {r})| == |Holders(readers)| - 1
  {
    assert Holders(readers - {r}) == Holders(readers) - {r};
  }

  lemma HolderStep(w: World, a: Action)
    requires OneHolder(w)
    ensures OneHolder(Step(w, a))
  {
    hide Holders, Pic;
    var v := Step(w, a);
    if v.readers != w.readers {
      match a
      case Arrive(r, lo, hi) => HoldersSame(w.readers, r, v.readers[r]);
      case Acquire(r) => HoldersGrow(w.readers, r, v.readers[r]);
      case LoadByte(r) => HoldersSame(w.readers, r, v.readers[r]);
      case Release(r) => HoldersShrink(w.readers, r);
    }
  }

  /** While a reader holds the semaphore the writer does not, so the region is whole. */
  lemma ReaderExcludesWriter(w: World, r: nat)
    requires OneHolder(w) && r in w.readers && w.readers[r].Reading?
    ensures !w.writer.Writing? && w.sem == 0
    ensures forall q :: q in w.readers && w.readers[q].Reading? ==> q == r
  {
    assert r in Holders(w.readers);
    forall q | q in w.readers && w.readers[q].Reading?
      ensures q == r
    {
      assert {q, r} <= Holders(w.readers);
      if q != r {
        assert |{q, r}| == 2;
        CardinalitySubset({q, r}, Holders(w.readers));
      }
    }
    assert |Holders(w.readers)| >= 1 by { CardinalitySubset({r}, Holders(w.readers)); }
  }

  lemma {:induction false} CardinalitySubset(a: set<nat>, b: set<nat>)
    requires a <= b
    ensures |a| <= |b|
  {
    if a != {} {
      var x :| x in a;
      CardinalitySubset(a - {x}, b - {x});
    }
  }

  lemma MemoryStep(w: World, a: Action)
    requires Inv(w)
    ensures MemoryInv(Step(w, a))
  {
    hide Pic, Published, OneHolder, ReaderInv, TakenInv, OrderInv;
    var v := Step(w, a);
    if a.CopyByte? && v != w {
      CopyNext(Pic(w.writer.frame), Current(w), w.writer.k);
    } else if a.Post? && v != w {
      LastCommitted(w, v, w.writer.frame);
    }
  }

  lemma CopyNext(img: Picture, region: seq<byte>, k: nat)
    requires k < IMAGE_SIZE && |region| == REGION_SIZE
    ensures (img[..k] + region[k..])[k := img[k]] == img[..k + 1] + region[k + 1..]
  {
  }

  lemma LastCommitted(w: World, v: World, f: Frame)
    requires v.committed == w.committed + [f]
    ensures Current(v) == Pic(f)[..IMAGE_SIZE] + Current(w)[IMAGE_SIZE..]
  {
    hide Pic;
    assert Current(w)[IMAGE_SIZE..] == Zeros(REGION_SIZE - IMAGE_SIZE);
  }

  lemma ReaderLoads(q: Reader, region: seq<byte>)
    requires q.Reading? && ReaderOk(q, region) && q.lo + |q.buf| < q.hi
    ensures ReaderOk(q.(buf := q.buf + [region[q.lo + |q.buf|]]), region)
  {
  }

  lemma WaiterKept(q: Reader, region: seq<byte>, other: seq<byte>)
    requires q.Waiting? && ReaderOk(q, region) && |other| == |region|
    ensures ReaderOk(q, other)
  {
  }

  lemma ReaderStep(w: World, a: Action)
    requires Inv(w)
    ensures ReaderInv(Step(w, a))
  {
    hide ReaderOk;
    var v := Step(w, a);
    forall r | r in v.readers
      ensures ReaderOk(v.readers[r], Current(v))
    {
      if r !in w.readers {
        assert v.readers[r] == Waiting(a.lo, a.hi);
        ReaderArrives(a.lo, a.hi, Current(w));
      } else if w.readers[r].Reading? {
        ReaderExcludesWriter(w, r);
        assert w.shm == Current(w) == Current(v);
        if v.readers[r] != w.readers[r] {
          ReaderLoads(w.readers[r], Current(w));
        }
      } else if v.readers[r].Waiting? {
        WaiterKept(w.readers[r], Current(w), Current(v));
      } else {
        ReaderAcquires(w.readers[r], Current(w));
      }
    }
  }

  lemma ReaderArrives(lo: nat, hi: nat, region: seq<byte>)
    requires lo <= hi <= |region|
    ensures ReaderOk(Waiting(lo, hi), region)
  {
  }

  lemma ReaderAcquires(q: Reader, region: seq<byte>)
    requires q.Waiting? && ReaderOk(q, region)
    ensures ReaderOk(Reading(q.lo, q.hi, []), region)
  {
  }

  /** What was published stays published. */
  lemma PublishedKept(committed: seq<Frame>, f: Frame, epoch: nat)
    requires epoch <= |committed|
    ensures Published(committed + [f], epoch) == Published(committed, epoch)
  {
    hide Pic;
  }

  /** A finished read, appended to the earlier ones. */
  lemma TakenGrows(w: World, v: World, t: Taken)
    requires TakenInv(w) && v.taken == w.taken + [t] && v.committed == w.committed
    requires t.lo <= t.hi <= REGION_SIZE && t.epoch == |w.committed| && t.bytes == Current(w)[t.lo..t.hi]
    ensures TakenInv(v)
  {
    hide Pic, Published;
  }

  lemma TakenStep(w: World, a: Action)
    requires Inv(w)
    ensures TakenInv(Step(w, a))
  {
    hide Pic, OneHolder, OrderInv, MemoryInv, Published, TakenInv;
    var v := Step(w, a);
    if a.Release? && v != w {
      assert ReaderOk(w.readers[a.r], Current(w));
      TakenGrows(w, v, v.taken[|w.taken|]);
    } else {
      assert v.taken == w.taken;
      TakenFrame(w, v);
    }
  }

  lemma TakenFrame(w: World, v: World)
    requires TakenInv(w) && v.taken == w.taken
    requires v.committed == w.committed || exists f :: v.committed == w.committed + [f]
    ensures TakenInv(v)
  {
    hide Pic, Published;
    forall i | 0 <= i < |w.taken|
      ensures Published(v.committed, w.taken[i].epoch) == Published(w.committed, w.taken[i].epoch)
    {
      if f :| v.committed == w.committed + [f] {
        PublishedKept(w.committed, f, w.taken[i].epoch);
      }
    }
  }

  lemma OrderStep(w: World, a: Action)
    requires OrderInv(w)
    ensures OrderInv(Step(w, a))
  {
    hide Subsequence;
    var v := Step(w, a);
    if a.Receive? && v != w {
      assert v.offered[..|w.offered|] == w.offered;
    } else if (a.TryWait? || a.Post?) && v.writer.Idle? && !w.writer.Idle? {
      var before := w.offered[..|w.offered| - 1];
      assert w.offered == before + [w.writer.frame];
      if a.TryWait? {
        SubsequenceSkip(w.committed, before, w.writer.frame);
      } else {
        SubsequenceTake(w.committed, before, w.writer.frame);
      }
    }
  }

  lemma {:induction false} RunInv(actions: seq<Action>)
    ensures Inv(Run(actions))
  {
    if actions != [] {
      var w, a := Run(actions[..|actions| - 1]), actions[|actions| - 1];
      RunInv(actions[..|actions| - 1]);
      HolderStep(w, a);
      MemoryStep(w, a);
      ReaderStep(w, a);
      TakenStep(w, a);
      OrderStep(w, a);
    }
  }

  // ---- Readers, told by the actions alone ----

  /** Action `m` is where reader `r`, still active after `actions`, arrived. */
  ghost predicate ArrivedAt(actions: seq<Action>, m: nat, r: nat) {
    && m < |actions| && actions[m].Arrive? && actions[m].r == r
    && r !in Run(actions[..m]).readers
    && forall k :: m < k <= |actions| ==> r in Run(actions[..k]).readers
  }

  /** A reader keeps the range it arrived with. */
  lemma RangeKept(w: World, a: Action, r: nat)
    requires r in w.readers && r in Step(w, a).readers
    ensures Step(w, a).readers[r].lo == w.readers[r].lo && Step(w, a).readers[r].hi == w.readers[r].hi
  {
    hide Pic;
  }

  lemma ReaderAppears(w: World, a: Action, r: nat)
    requires r !in w.readers && r in Step(w, a).readers
    ensures a.Arrive? && a.r == r && Step(w, a).readers[r] == Waiting(a.lo, a.hi)
  {
    hide Pic;
  }

  lemma {:induction false} ReaderTraced(actions: seq<Action>, r: nat)
    requires r in Run(actions).readers
    ensures exists m: nat ::
              && ArrivedAt(actions, m, r)
              && actions[m].lo == Run(actions).readers[r].lo && actions[m].hi == Run(actions).readers[r].hi
  {
    hide Step;
    var n := |actions| - 1;
    var before, a := actions[..n], actions[n];
    assert forall k :: 0 <= k <= n ==> before[..k] == actions[..k];
    assert actions[..|actions|] == actions;
    if r in Run(before).readers {
      ReaderTraced(before, r);
      var m: nat :| ArrivedAt(before, m, r)
                    && before[m].lo == Run(before).readers[r].lo && before[m].hi == Run(before).readers[r].hi;
      RangeKept(Run(before), a, r);
      assert ArrivedAt(actions, m, r);
    } else {
      ReaderAppears(Run(before), a, r);
      assert ArrivedAt(actions, n, r);
    }
  }

  /** What the end of a critical section does. */
  lemma ReleaseEffect(w: World, r: nat)
    requires Inv(w) && Step(w, Release(r)) != w
    ensures r in w.readers
    ensures var q := w.readers[r];
            && q.lo <= q.hi <= |w.shm|
            && Step(w, Release(r)) ==
               w.(sem := 1, readers := w.readers - {r},
                  taken := w.taken + [Taken(q.lo, q.hi, w.shm[q.lo..q.hi], |w.committed|)])
  {
    hide TakenInv, OrderInv, Pic, Holders, ReaderOk;
    ReaderExcludesWriter(w, r);
    CompleteRead(w.readers[r], Current(w));
  }

  lemma CompleteRead(q: Reader, region: seq<byte>)
    requires q.Reading? && ReaderOk(q, region) && q.lo + |q.buf| == q.hi
    ensures q.lo <= q.hi <= |region| && q.buf == region[q.lo..q.hi]
  {
  }

  lemma {:induction false} RunAppend(a: seq<Action>, b: seq<Action>)
    ensures Run(a + b) == RunFrom(Run(a), b)
  {
    hide Step;
    if b == [] {
      assert a + b == a;
    } else {
      assert (a + b)[..|a + b| - 1] == a + b[..|b| - 1];
      RunAppend(a, b[..|b| - 1]);
    }
  }

  function RunFrom(w: World, actions: seq<Action>): World {
    if actions == [] then w else Step(RunFrom(w, actions[..|actions| - 1]), actions[|actions| - 1])
  }

  function Loads(r: nat, n: nat): seq<Action> {
    seq(n, i => LoadByte(r))
  }

  lemma {:induction false} LoadPrefix(w: World, r: nat, lo: nat, hi: nat, n: nat)
    requires lo <= hi <= |w.shm| && n <= hi - lo
    requires r in w.readers && w.readers[r] == Reading(lo, hi, [])
    ensures RunFrom(w, Loads(r, n)) == w.(readers := w.readers[r := Reading(lo, hi, w.shm[lo..lo + n])])
  {
    hide Step;
    if n == 0 {
      assert w.shm[lo..lo + 0] == [];
      assert w.readers[r := Reading(lo, hi, [])] == w.readers;
    } else {
      assert Loads(r, n)[..n - 1] == Loads(r, n - 1);
      LoadPrefix(w, r, lo, hi, n - 1);
      LoadNext(w, r, lo, hi, n - 1);
    }
  }

  lemma LoadNext(w: World, r: nat, lo: nat, hi: nat, n: nat)
    requires lo + n < hi <= |w.shm|
    ensures Step(w.(readers := w.readers[r := Reading(lo, hi, w.shm[lo..lo + n])]), LoadByte(r)) ==
            w.(readers := w.readers[r := Reading(lo, hi, w.shm[lo..lo + n + 1])])
  {
    hide Pic;
    assert w.shm[lo..lo + n] + [w.shm[lo + n]] == w.shm[lo..lo + n + 1];
    var before, after := Reading(lo, hi, w.shm[lo..lo + n]), Reading(lo, hi, w.shm[lo..lo + n + 1]);
    assert w.readers[r := before][r := after] == w.readers[r := after];
  }

  // ---- Main results: for every run, whatever the interleaving and the readers ----

  /** No torn snapshots: what a reader copied is a part of one complete published region,
      the one current when it released, and later reads never see older images. */
  lemma NoTornReads(actions: seq<Action>, n: nat)
    requires n < |Run(actions).taken|
    ensures var w := Run(actions); var t := w.taken[n];
            && t.lo <= t.hi <= REGION_SIZE && t.epoch <= |w.committed|
            && t.bytes == Published(w.committed, t.epoch)[t.lo..t.hi]
            && (n > 0 ==> w.taken[n - 1].epoch <= t.epoch)
  {
    RunInv(actions);
  }

  /** The `Release` that ends a reader delivers exactly the range that reader arrived for:
      the bytes of the region at that moment, all of them. */
  lemma ReleaseDelivers(actions: seq<Action>, r: nat)
    requires Run(actions + [Release(r)]) != Run(actions)
    ensures exists m: nat ::
              && ArrivedAt(actions, m, r)
              && var w, lo, hi := Run(actions), actions[m].lo, actions[m].hi;
              && lo <= hi <= |w.shm|
              && Run(actions + [Release(r)]) ==
                 w.(sem := 1, readers := w.readers - {r},
                    taken := w.taken + [Taken(lo, hi, w.shm[lo..hi], |w.committed|)])
  {
    hide Step, Inv;
    assert (actions + [Release(r)])[..|actions|] == actions;
    RunInv(actions);
    ReleaseEffect(Run(actions), r);
    ReaderTraced(actions, r);
  }

  /** Reads do get through: whenever the semaphore is free, a new reader that arrives,
      acquires, loads its bytes one by one and releases is handed exactly the bytes it asked
      for, and leaves everything else as it was. */
  lemma ReadCompletes(actions: seq<Action>, r: nat, lo: nat, hi: nat)
    requires Run(actions).sem == 1 && r !in Run(actions).readers && lo <= hi <= REGION_SIZE
    ensures var w := Run(actions);
            && |w.shm| == REGION_SIZE
            && Run(actions + ([Arrive(r, lo, hi), Acquire(r)] + Loads(r, hi - lo) + [Release(r)])) ==
               w.(taken := w.taken + [Taken(lo, hi, w.shm[lo..hi], |w.committed|)])
  {
    hide Step, RunFrom, Run, Loads;
    var w := Run(actions);
    RegionSize(actions);
    var head, loads := [Arrive(r, lo, hi), Acquire(r)], Loads(r, hi - lo);
    RunAppend(actions, head + loads + [Release(r)]);
    FromAppend(w, head + loads, [Release(r)]);
    FromAppend(w, head, loads);
    EnterSection(w, r, lo, hi);
    var w2 := w.(sem := 0, readers := w.readers[r := Reading(lo, hi, [])]);
    LoadPrefix(w2, r, lo, hi, hi - lo);
    var w3 := w2.(readers := w2.readers[r := Reading(lo, hi, w.shm[lo..hi])]);
    LeaveSection(w3, r, w.shm[lo..hi]);
    assert w3.readers - {r} == w.readers;
  }

  lemma EnterSection(w: World, r: nat, lo: nat, hi: nat)
    requires w.sem == 1 && r !in w.readers && lo <= hi <= |w.shm|
    ensures RunFrom(w, [Arrive(r, lo, hi), Acquire(r)]) ==
            w.(sem := 0, readers := w.readers[r := Reading(lo, hi, [])])
  {
    hide Pic;
    var head := [Arrive(r, lo, hi), Acquire(r)];
    assert head[..1][..0] == [] && head[..1] == [Arrive(r, lo, hi)];
    var w1 := Step(w, Arrive(r, lo, hi));
    assert RunFrom(w, head[..1]) == w1;
    assert w1.readers[r := Reading(lo, hi, [])] == w.readers[r := Reading(lo, hi, [])];
  }

  lemma LeaveSection(w: World, r: nat, bytes: seq<byte>)
    requires r in w.readers && w.readers[r].Reading? && w.readers[r].lo + |bytes| == w.readers[r].hi
    requires w.readers[r].buf == bytes
    ensures RunFrom(w, [Release(r)]) ==
            w.(sem := w.sem + 1, readers := w.readers - {r},
               taken := w.taken + [Taken(w.readers[r].lo, w.readers[r].hi, bytes, |w.committed|)])
  {
    hide Pic;
    assert [Release(r)][..0] == [];
  }

  lemma RegionSize(actions: seq<Action>)
    ensures |Run(actions).shm| == REGION_SIZE
  {
    RunInv(actions);
  }

  lemma {:induction false} FromAppend(w: World, a: seq<Action>, b: seq<Action>)
    ensures RunFrom(w, a + b) == RunFrom(RunFrom(w, a), b)
  {
    hide Step;
    if b == [] {
      assert a + b == a;
    } else {
      assert (a + b)[..|a + b| - 1] == a + b[..|b| - 1];
      FromAppend(w, a, b[..|b| - 1]);
    }
  }

  /** Semaphore value plus holders is one. */
  lemma OneHolderAlways(actions: seq<Action>)
    ensures OneHolder(Run(actions))
  {
    RunInv(actions);
  }

  /** The committed frames are a subsequence of the accepted ones, and every accepted frame
      is committed, dropped, or still with the writer. */
  lemma PublicationOrder(actions: seq<Action>)
    ensures var w := Run(actions);
            && Subsequence(w.committed, w.offered)
            && |w.offered| == |w.committed| + w.dropped + (if w.writer.Idle? then 0 else 1)
  {
    RunInv(actions);
    var w := Run(actions);
    if !w.writer.Idle? {
      var before := w.offered[..|w.offered| - 1];
      assert w.offered == before + [w.writer.frame];
      SubsequenceSkip(w.committed, before, w.writer.frame);
    }
  }

  /** The meaning of the order: strictly increasing positions in the accepted frames. */
  lemma {:induction false} SubsequencePositions<T>(a: seq<T>, b: seq<T>) returns (at: seq<nat>)
    requires Subsequence(a, b)
    ensures |at| == |a| && forall i :: 0 <= i < |a| ==> at[i] < |b| && b[at[i]] == a[i]
    ensures forall i, j :: 0 <= i < j < |a| ==> at[i] < at[j]
    decreases |b|
  {
    if a == [] {
      at := [];
    } else if a[|a| - 1] == b[|b| - 1] && Subsequence(a[..|a| - 1], b[..|b| - 1]) {
      at := SubsequencePositions(a[..|a| - 1], b[..|b| - 1]);
      at := at + [|b| - 1];
    } else {
      at := SubsequencePositions(a, b[..|b| - 1]);
    }
  }

  /** In every run the writer drops its frame exactly when some reader is inside its critical
      section. Either way the region is one complete published region before and after the
      attempt, byte for byte the same, and no frame is committed by it. */
  lemma DroppedExactlyWhenRead(actions: seq<Action>)
    requires Run(actions).writer.Offering?
    ensures var w, v := Run(actions), Run(actions + [TryWait]);
            && (v.dropped == w.dropped + 1 <==> exists r :: r in w.readers && w.readers[r].Reading?)
            && v.writer == (if v.dropped == w.dropped then Writing(w.writer.frame, 0) else Idle)
            && v.dropped <= w.dropped + 1
            && v.shm == w.shm == Current(w) && v.committed == w.committed && v.readers == w.readers
  {
    var w := Run(actions);
    assert (actions + [TryWait])[..|actions|] == actions;
    RunInv(actions);
    if r :| r in w.readers && w.readers[r].Reading? {
      ReaderExcludesWriter(w, r);
    } else {
      assert Holders(w.readers) == {};
    }
  }

  function CopyMany(w: World, n: nat): World {
    if n == 0 then w else Step(CopyMany(w, n - 1), CopyByte)
  }

  lemma {:induction false} CopyPrefix(w: World, n: nat)
    requires w.writer.Writing? && w.writer.k == 0 && n <= IMAGE_SIZE <= |w.shm|
    ensures CopyMany(w, n) == w.(shm := Pic(w.writer.frame)[..n] + w.shm[n..], writer := Writing(w.writer.frame, n))
  {
    hide Pic;
    var img := Pic(w.writer.frame);
    if n == 0 {
      assert img[..0] + w.shm[0..] == w.shm;
    } else {
      CopyPrefix(w, n - 1);
      var before := img[..n - 1] + w.shm[n - 1..];
      assert before[n - 1 := img[n - 1]] == img[..n] + w.shm[n..];
    }
  }

  /** The atomic steps of one publication, run without interference, do what one call of
      `Publisher.StateRecvCallback` does. */
  lemma UncontendedPublication(w: World, d: seq<byte>, stamp: Word, axes: seq<Word>)
    requires w.writer.Idle? && w.sem > 0 && |w.shm| == REGION_SIZE && |d| >= FRAME_SIZE && |axes| == 4
    ensures var frame := RawFrame(d[..FRAME_SIZE], stamp, axes);
            Step(CopyMany(Step(Step(w, Receive(d, stamp, axes)), TryWait), IMAGE_SIZE), Post) ==
            w.(shm := Image(d[..FRAME_SIZE], stamp, axes) + w.shm[IMAGE_SIZE..],
               offered := w.offered + [frame], committed := w.committed + [frame])
  {
    hide CopyMany, Image;
    var v := Step(Step(w, Receive(d, stamp, axes)), TryWait);
    CopyPrefix(v, IMAGE_SIZE);
    var img := Pic(v.writer.frame);
    assert img[..IMAGE_SIZE] == img;
  }

  function Copies(n: nat): seq<Action> {
    seq(n, i => CopyByte)
  }

  lemma {:induction false} CopyManyRun(w: World, n: nat)
    ensures RunFrom(w, Copies(n)) == CopyMany(w, n)
  {
    hide Step;
    if n > 0 {
      assert Copies(n)[..n - 1] == Copies(n - 1);
      CopyManyRun(w, n - 1);
    }
  }

  /** What becomes of a datagram, from any reachable world with the writer idle: a short one
      is ignored; a full one is dropped, with nothing else changed, when a reader is inside
      its critical section, and published whole when the writer is then left alone. */
  lemma PublishOrDrop(actions: seq<Action>, d: seq<byte>, stamp: Word, axes: seq<Word>)
    requires Run(actions).writer.Idle? && |axes| == 4
    ensures var w, receive := Run(actions), Receive(d, stamp, axes);
            if |d| < FRAME_SIZE then Run(actions + [receive]) == w
            else
              var frame := RawFrame(d[..FRAME_SIZE], stamp, axes);
              && |w.shm| == REGION_SIZE
              && (if exists r :: r in w.readers && w.readers[r].Reading? then
                    Run(actions + [receive, TryWait]) == w.(offered := w.offered + [frame], dropped := w.dropped + 1)
                  else
                    Run(actions + ([receive, TryWait] + Copies(IMAGE_SIZE) + [Post])) ==
                    w.(shm := Image(d[..FRAME_SIZE], stamp, axes) + w.shm[IMAGE_SIZE..],
                       offered := w.offered + [frame], committed := w.committed + [frame]))
  {
    var w, receive := Run(actions), Receive(d, stamp, axes);
    RunInv(actions);
    RegionSize(actions);
    hide MemoryInv, ReaderInv, TakenInv, OrderInv, Image, Run, Copies;
    RunAppend(actions, [receive]);
    RunOne(w, receive);
    if |d| >= FRAME_SIZE {
      RunAppend(actions, [receive, TryWait]);
      FromAppend(w, [receive], [TryWait]);
      RunOne(Step(w, receive), TryWait);
      assert [receive] + [TryWait] == [receive, TryWait];
      if r :| r in w.readers && w.readers[r].Reading? {
        ReaderExcludesWriter(w, r);
      } else {
        assert Holders(w.readers) == {};
        var head, copies := [receive, TryWait], Copies(IMAGE_SIZE);
        RunAppend(actions, head + copies + [Post]);
        FromAppend(w, head + copies, [Post]);
        FromAppend(w, head, copies);
        CopyManyRun(RunFrom(w, head), IMAGE_SIZE);
        RunOne(RunFrom(w, head + copies), Post);
        hide Step, CopyMany;
        UncontendedPublication(w, d, stamp, axes);
      }
    }
  }

  lemma RunOne(w: World, a: Action)
    ensures RunFrom(w, [a]) == Step(w, a)
  {
    hide Step;
    assert [a][..0] == [];
  }

  /** Readers never touch the region, the writer or its counts, nor each other; the writer
      never touches the readers or what they have taken. */
  lemma Separation(w: World, a: Action)
    ensures var v := Step(w, a);
            if a.Receive? || a.TryWait? || a.CopyByte? || a.Post? then v.readers == w.readers && v.taken == w.taken
            else
              && v == w.(sem := v.sem, readers := v.readers, taken := v.taken)
              && forall q :: q != a.r ==>
                   (q in v.readers <==> q in w.readers) && (q in w.readers ==> v.readers[q] == w.readers[q])
  {
    hide Pic;
  }
}
